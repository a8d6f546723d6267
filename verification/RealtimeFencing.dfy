/** Fencing is permanent: an epoch that stopped being current never acts again. */
module RealtimeFencing {
  import opened Basics
  import opened RealtimeTypes
  import Registry = SessionRegistry
  import Rosters = ChannelRosters
  import Membership = ChannelMembership
  import Relations = SpectatorRelations
  import Agreement = SpectatorAgreement
  import Board = PresenceBoard
  import History = FrameHistory
  import Ring = FrameRing
  import opened RealtimeScripts
  import opened RealtimeRuns

  /** The epochs a call acts for. */
  function Carried(call: Call): set<Epoch> {
    match call
    case Clock(_) => {}
    case Open(_, _, _) => {}
    case List(_) => {}
    case Attach(request, _) => {request.hostEpoch, request.spectatorEpoch}
    case Detach(expected) => {expected.hostEpoch, expected.spectatorEpoch}
    case _ => {call.epoch}
  }

  ghost predicate Dead(cfg: Config, s: State, epoch: Epoch) {
    Registry.Dead(cfg, s.registry, s.now, epoch)
  }

  predicate Denied(reply: Reply) {
    reply.NotFound? || reply.Fenced? || reply.Stale? || reply.HostNotFound? || reply.HostFenced? || reply.SelfAttach?
  }

  lemma DeadHasNoStatus(cfg: Config, s: State, account: Account, epoch: Epoch, at: Time)
    requires Inv(cfg, s) && Dead(cfg, s, epoch)
    ensures !Status(s, account, epoch, at).Current?
  {
    hide Board.ValidBoard, Membership.ValidChannels, Agreement.ValidSpectators, History.ValidHistories;
    Registry.StatusIsOwnership(cfg, s.registry, s.now, account, epoch, at);
  }

  lemma DeadOwnsNothing(cfg: Config, s: State, epoch: Epoch, a: Account)
    requires Inv(cfg, s) && Dead(cfg, s, epoch)
    ensures !Board.PresentAs(s.board, a, epoch)
    ensures a in s.spectators.relations ==>
      s.spectators.relations[a].hostEpoch != epoch && s.spectators.relations[a].spectatorEpoch != epoch
  {
    hide Registry.Valid, Membership.ValidChannels, History.ValidHistories;
    if a in s.spectators.relations {
      assert Agreement.ValidRelation(s.registry.epochs, s.now, a, s.spectators.relations[a]);
    }
  }

  /** No script called with a dead epoch changes the store, and each denies the call. */
  lemma DeadIsPowerless(cfg: Config, s: State, call: Call, epoch: Epoch)
    requires Inv(cfg, s) && Dead(cfg, s, epoch) && epoch in Carried(call)
    ensures Step(cfg, s, call).0 == s && Denied(Step(cfg, s, call).1)
  {
    hide Inv, Dead, Registry.StatusOf, Board.PresentAs;
    match call {
      case Attach(request, _) =>
        if epoch == request.hostEpoch { DeadHasNoStatus(cfg, s, request.host, epoch, s.now); }
        if epoch == request.spectatorEpoch { DeadHasNoStatus(cfg, s, request.spectator, epoch, s.now); }
      case Detach(expected) => DeadOwnsNothing(cfg, s, epoch, expected.spectator);
      case Disappear(account, _) => DeadOwnsNothing(cfg, s, epoch, account);
      case Get(account, _, at) => DeadHasNoStatus(cfg, s, account, epoch, Max(s.now, at));
      case Watch(account, _, at) => DeadHasNoStatus(cfg, s, account, epoch, Max(s.now, at));
      case Read(account, _, at, _, _) => DeadHasNoStatus(cfg, s, account, epoch, Max(s.now, at));
      case Open(_, _, _) =>
      case Clock(_) =>
      case List(_) =>
      case _ => DeadHasNoStatus(cfg, s, call.account, epoch, s.now);
    }
  }

  lemma ClockKeepsDead(cfg: Config, s: State, time: Time, epoch: Epoch)
    requires Inv(cfg, s) && Dead(cfg, s, epoch)
    ensures Dead(cfg, Advance(s, time), epoch)
  {
    hide Board.ValidBoard, Membership.ValidChannels, Agreement.ValidSpectators, History.ValidHistories;
    if time > s.now { Registry.IssuedForever(cfg, s.registry, s.now, time, epoch); }
  }

  lemma OpenKeepsDead(cfg: Config, s: State, account: Account, session: SessionId, requested: Time, epoch: Epoch)
    requires Inv(cfg, s) && Dead(cfg, s, epoch)
    ensures Dead(cfg, OpenSession(cfg, s, account, session, requested).0, epoch)
  {
    hide Inv, Board.ClearedBoard, Rosters.Reopened, Relations.Severed, Relations.Cleared, Ring.ClearedHistory;
    hide Registry.OpeningOf, Registry.Issued;
    var opening := Registry.OpeningOf(cfg, s.registry, s.now, account, session, requested);
    if opening.Granted? {
      var next := Epoch(session, opening.revision);
      Registry.GrantedIsFresh(cfg, s.registry, s.now, account, next, requested, opening.expiresAt);
      Registry.IssuedAfterOpen(cfg, s.registry, s.now, account, next, requested, opening.expiresAt, epoch);
    }
  }

  lemma HeartbeatKeepsDead(cfg: Config, s: State, account: Account, current: Epoch, requested: Time, epoch: Epoch)
    requires Dead(cfg, s, epoch)
    ensures Dead(cfg, HeartbeatSession(cfg, s, account, current, requested).0, epoch)
  {
    hide Board.RenewedPresence, Board.RenewedPreference, Rosters.Renewed, Relations.RenewedOwn;
    hide Relations.RenewedViewers;
  }

  lemma FenceKeepsDead(cfg: Config, s: State, account: Account, current: Epoch, epoch: Epoch)
    requires Dead(cfg, s, epoch)
    ensures Dead(cfg, FenceSession(s, account, current).0, epoch)
  {
    hide Board.ClearedBoard, Rosters.Fence, Relations.Severed, Relations.Cleared, Ring.ClearedHistory;
    hide Registry.StatusOf;
  }

  /** The other scripts do not touch sessions or the clock. */
  lemma OthersKeepRegistry(cfg: Config, s: State, call: Call)
    requires !call.Clock? && !call.Open? && !call.Heartbeat? && !call.Fence?
    ensures Step(cfg, s, call).0.registry == s.registry && Step(cfg, s, call).0.now == s.now
  {
    hide Registry.StatusOf, Board.Full, Board.SetPresence, Board.RefusedPresence, Board.ClearedPresence;
    hide Board.SetPreference, Board.PresentAs;
    hide Rosters.Join, Rosters.Leave, Rosters.Listed, Rosters.ActiveMembers, Rosters.AtLimit;
    hide Relations.Attach, Relations.Detach, Relations.Swept, Relations.ListedRelations, Relations.ViewerLimit;
    hide Relations.Visible;
    hide Ring.Published, Ring.Pruned, Ring.AttachPruned, Ring.LatestWindow, Ring.WindowAfter, Ring.NonMonotonic;
    hide Ring.StreamFor;
  }

  lemma StepKeepsDead(cfg: Config, s: State, call: Call, epoch: Epoch)
    requires Inv(cfg, s) && Dead(cfg, s, epoch)
    ensures Dead(cfg, Step(cfg, s, call).0, epoch)
  {
    hide Inv, Registry.Dead, Advance, OpenSession, HeartbeatSession, FenceSession;
    match call {
      case Clock(time) => ClockKeepsDead(cfg, s, time, epoch);
      case Open(account, session, requested) => OpenKeepsDead(cfg, s, account, session, requested, epoch);
      case Heartbeat(account, current, requested) => HeartbeatKeepsDead(cfg, s, account, current, requested, epoch);
      case Fence(account, current) => FenceKeepsDead(cfg, s, account, current, epoch);
      case _ =>
        hide Step;
        OthersKeepRegistry(cfg, s, call);
    }
  }

  lemma {:induction false} DeadForever(cfg: Config, s: State, calls: seq<Call>, epoch: Epoch)
    requires Inv(cfg, s) && cfg.Valid() && Dead(cfg, s, epoch)
    ensures Inv(cfg, After(cfg, s, calls)) && Dead(cfg, After(cfg, s, calls), epoch)
    decreases |calls|
  {
    hide Inv, Dead, Step;
    if calls != [] {
      StepKeeps(cfg, s, calls[0]);
      StepKeepsDead(cfg, s, calls[0], epoch);
      DeadForever(cfg, Step(cfg, s, calls[0]).0, calls[1..], epoch);
    }
  }

  /** Once dead, an epoch never validates again and no call with it changes anything, whatever ran in between. */
  lemma FencingIsPermanent(cfg: Config, s: State, calls: seq<Call>, call: Call, epoch: Epoch)
    requires Inv(cfg, s) && cfg.Valid() && Dead(cfg, s, epoch) && epoch in Carried(call)
    ensures var later := After(cfg, s, calls);
      Step(cfg, later, call).0 == later && Denied(Step(cfg, later, call).1)
  {
    hide Inv, Dead, Step, After;
    DeadForever(cfg, s, calls, epoch);
    DeadIsPowerless(cfg, After(cfg, s, calls), call, epoch);
  }

  // ---------------------------------------------------------------- how epochs die

  lemma OnlyOwnerHolds(cfg: Config, s: State, account: Account)
    requires Inv(cfg, s) && account in s.registry.epochs
    ensures Registry.Issued(cfg, s.registry, s.now, s.registry.epochs[account].epoch)
    ensures forall a :: a in s.registry.epochs && a != account ==>
      s.registry.epochs[a].epoch != s.registry.epochs[account].epoch
  {
    hide Board.ValidBoard, Membership.ValidChannels, Agreement.ValidSpectators, History.ValidHistories;
    Registry.LeaseIsIssued(cfg, s.registry, s.now, account);
    Registry.SessionsHaveOneOwner(cfg, s.registry, s.now);
  }

  /** A granted opening kills the account's previous epoch, even one of the same session. */
  lemma SupersededIsDead(cfg: Config, s: State, account: Account, session: SessionId, requested: Time)
    requires Inv(cfg, s) && account in s.registry.epochs
    requires OpenSession(cfg, s, account, session, requested).1.Session?
    ensures Dead(cfg, OpenSession(cfg, s, account, session, requested).0, s.registry.epochs[account].epoch)
  {
    hide Inv, Board.ClearedBoard, Rosters.Reopened, Relations.Severed, Relations.Cleared, Ring.ClearedHistory;
    hide Registry.OpeningOf, Registry.Issued;
    var opening := Registry.OpeningOf(cfg, s.registry, s.now, account, session, requested);
    var next, last := Epoch(session, opening.revision), s.registry.epochs[account].epoch;
    OnlyOwnerHolds(cfg, s, account);
    Registry.GrantedIsFresh(cfg, s.registry, s.now, account, next, requested, opening.expiresAt);
    Registry.IssuedAfterOpen(cfg, s.registry, s.now, account, next, requested, opening.expiresAt, last);
  }

  lemma FencedIsDead(cfg: Config, s: State, account: Account, epoch: Epoch)
    requires Inv(cfg, s) && FenceSession(s, account, epoch).1.Done?
    ensures Dead(cfg, FenceSession(s, account, epoch).0, epoch)
  {
    hide Inv, Board.ClearedBoard, Rosters.Fence, Relations.Severed, Relations.Cleared, Ring.ClearedHistory;
    hide Registry.StatusOf;
    RegistryOf(cfg, s);
    Registry.StatusIsOwnership(cfg, s.registry, s.now, account, epoch, s.now);
    OnlyOwnerHolds(cfg, s, account);
  }

  lemma ExpiredIsDead(cfg: Config, s: State, account: Account, time: Time)
    requires Inv(cfg, s) && account in s.registry.epochs && s.registry.epochs[account].expiresAt <= time
    ensures Dead(cfg, Advance(s, time), s.registry.epochs[account].epoch)
  {
    hide Inv, Board.ExpireBoard, Rosters.ExpireChannels, Relations.ExpireSpectators, Ring.ExpireHistories;
    hide Registry.Issued;
    RegistryOf(cfg, s);
    OnlyOwnerHolds(cfg, s, account);
    LeaseWithinDurable(cfg, s, account);
    Registry.IssuedForever(cfg, s.registry, s.now, time, s.registry.epochs[account].epoch);
  }

  lemma RegistryOf(cfg: Config, s: State)
    requires Inv(cfg, s)
    ensures Registry.Valid(cfg, s.registry, s.now)
  {}
}
