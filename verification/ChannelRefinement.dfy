/** Listing a channel refines a plain set of memberships, despite lazy pruning and renewal. */
module ChannelRefinement {
  import opened Basics
  import opened RealtimeTypes
  import Registry = SessionRegistry
  import Rosters = ChannelRosters
  import Membership = ChannelMembership
  import Relations = SpectatorRelations
  import Agreement = SpectatorAgreement
  import Board = PresenceBoard
  import History = FrameHistory
  import Ring = FrameRing
  import opened RealtimeScripts
  import opened RealtimeRuns
  import Fencing = RealtimeFencing
  import Effects = RealtimeEffects

  type Joined = set<(ChannelId, Account)>

  function WithoutAccount(joined: Joined, account: Account): Joined {
    set pair | pair in joined && pair.1 != account
  }

  function OnlyLive(joined: Joined, live: Live): Joined {
    set pair | pair in joined && pair.1 in live
  }

  /** What a call does to the plain set, read off its reply and the sessions left alive. */
  function Joining(cfg: Config, s: State, call: Call, joined: Joined): Joined {
    var reply := Step(cfg, s, call).1;
    match call
    case Clock(time) => OnlyLive(joined, Alive(s.registry.epochs, time))
    case Open(account, _, _) => if reply.Session? then WithoutAccount(joined, account) else joined
    case Fence(account, _) => if reply.Done? then WithoutAccount(joined, account) else joined
    case Join(account, _, channel) => if reply.Done? then joined + {(channel, account)} else joined
    case Leave(account, _, channel) => if reply.Done? then joined - {(channel, account)} else joined
    case _ => joined
  }

  function JoinedAfter(cfg: Config, s: State, calls: seq<Call>, joined: Joined): Joined
    decreases |calls|
  {
    if calls == [] then joined
    else JoinedAfter(cfg, Step(cfg, s, calls[0]).0, calls[1..], Joining(cfg, s, calls[0], joined))
  }

  /** The plain set holds exactly the live memberships of the store. */
  ghost predicate Refines(s: State, joined: Joined) {
    forall c, a :: (c, a) in joined <==> Membership.IsMember(s.registry, s.channels, c, a)
  }

  // ---------------------------------------------------------------- effect of each step on memberships

  lemma ClockRefines(cfg: Config, s: State, time: Time, joined: Joined)
    requires Inv(cfg, s) && Refines(s, joined)
    ensures Refines(Advance(s, time), OnlyLive(joined, Alive(s.registry.epochs, time)))
  {
    hide Board.ValidBoard, Agreement.ValidSpectators, History.ValidHistories, Membership.TidyRosters;
    hide Membership.OnlyIssued, Membership.AllAgree;
    hide Board.ExpireBoard, Relations.ExpireSpectators, Ring.ExpireHistories;
    var after := Advance(s, time);
    if time > s.now {
      Membership.ExpireJoined(cfg, s.registry, s.now, time, s.channels);
    }
    forall c, a
      ensures (c, a) in OnlyLive(joined, Alive(s.registry.epochs, time)) <==>
        Membership.IsMember(after.registry, after.channels, c, a)
    {
      assert (c, a) in joined <==> Membership.IsMember(s.registry, s.channels, c, a);
      if a in s.registry.epochs { assert Registry.EpochNamesSession(cfg, s.registry, s.now, a); }
    }
  }

  lemma OpenRefines(cfg: Config, s: State, account: Account, session: SessionId, requested: Time, joined: Joined)
    requires Inv(cfg, s) && Refines(s, joined) && OpenSession(cfg, s, account, session, requested).1.Session?
    ensures Refines(OpenSession(cfg, s, account, session, requested).0, WithoutAccount(joined, account))
  {
    hide Inv, Board.ClearedBoard, Relations.Severed, Relations.Cleared, Ring.ClearedHistory, Registry.OpeningOf;
    hide Rosters.LeftAll;
    var opening := Registry.OpeningOf(cfg, s.registry, s.now, account, session, requested);
    var next := Epoch(session, opening.revision);
    var after := OpenSession(cfg, s, account, session, requested).0;
    Fencing.RegistryOf(cfg, s);
    forall c, a
      ensures (c, a) in WithoutAccount(joined, account) <==> Membership.IsMember(after.registry, after.channels, c, a)
    {
      assert (c, a) in joined <==> Membership.IsMember(s.registry, s.channels, c, a);
      if a != account && a in s.registry.epochs {
        Membership.OthersKeepIds(cfg, s.registry, s.now, s.channels, account, next, requested, opening.expiresAt, a);
      }
    }
  }

  lemma FenceRefines(cfg: Config, s: State, account: Account, epoch: Epoch, joined: Joined)
    requires Inv(cfg, s) && Refines(s, joined) && FenceSession(s, account, epoch).1.Done?
    ensures Refines(FenceSession(s, account, epoch).0, WithoutAccount(joined, account))
  {
    hide Inv, Board.ClearedBoard, Relations.Severed, Relations.Cleared, Ring.ClearedHistory, Rosters.LeftAll;
    hide Registry.StatusOf;
    var after := FenceSession(s, account, epoch).0;
    Fencing.RegistryOf(cfg, s);
    Registry.StatusIsOwnership(cfg, s.registry, s.now, account, epoch, s.now);
    Registry.SessionsHaveOneOwner(cfg, s.registry, s.now);
    forall c, a
      ensures (c, a) in WithoutAccount(joined, account) <==> Membership.IsMember(after.registry, after.channels, c, a)
    {
      assert (c, a) in joined <==> Membership.IsMember(s.registry, s.channels, c, a);
    }
  }

  lemma HeartbeatRefines(cfg: Config, s: State, account: Account, epoch: Epoch, requested: Time, joined: Joined)
    requires Inv(cfg, s) && Refines(s, joined)
    ensures Refines(HeartbeatSession(cfg, s, account, epoch, requested).0, joined)
  {
    hide Board.ValidBoard, Agreement.ValidSpectators, History.ValidHistories, Membership.TidyRosters;
    hide Membership.OnlyIssued, Membership.Agrees;
    hide Board.RenewedPresence, Board.RenewedPreference, Rosters.RenewedAll, Relations.RenewedOwn;
    hide Relations.RenewedViewers, Registry.StatusOf;
    hide Registry.Extended, Rosters.Listing, Registry.Valid;
    var after, status := HeartbeatSession(cfg, s, account, epoch, requested).0, Status(s, account, epoch, s.now);
    Registry.StatusIsOwnership(cfg, s.registry, s.now, account, epoch, s.now);
    if status.Current? {
      var ids := Rosters.IdsOf(s.channels, epoch.session);
      Membership.AgreesAt(s.channels, s.registry.epochs, account);
      Membership.RenewedAgrees(s.channels.rosters, s.now, account, s.registry.epochs[account], ids, s.now + 1);
      forall c, a ensures (c, a) in joined <==> Membership.IsMember(after.registry, after.channels, c, a) {
        assert (c, a) in joined <==> Membership.IsMember(s.registry, s.channels, c, a);
      }
    }
  }

  lemma JoinRefines(cfg: Config, s: State, account: Account, epoch: Epoch, channel: ChannelId, joined: Joined)
    requires Inv(cfg, s) && Refines(s, joined) && JoinChannel(cfg, s, account, epoch, channel).1.Done?
    ensures Refines(JoinChannel(cfg, s, account, epoch, channel).0, joined + {(channel, account)})
  {
    hide Inv, JoinChannel, Membership.IsMember;
    var after := JoinChannel(cfg, s, account, epoch, channel).0;
    Effects.JoinEffect(cfg, s, account, epoch, channel);
    forall c, a
      ensures (c, a) in joined + {(channel, account)} <==> Membership.IsMember(after.registry, after.channels, c, a)
    {
      assert (c, a) in joined <==> Membership.IsMember(s.registry, s.channels, c, a);
    }
  }

  lemma LeaveRefines(cfg: Config, s: State, account: Account, epoch: Epoch, channel: ChannelId, joined: Joined)
    requires Inv(cfg, s) && Refines(s, joined) && LeaveChannel(s, account, epoch, channel).1.Done?
    ensures Refines(LeaveChannel(s, account, epoch, channel).0, joined - {(channel, account)})
  {
    hide Inv, LeaveChannel, Membership.IsMember;
    var after := LeaveChannel(s, account, epoch, channel).0;
    Effects.LeaveEffect(cfg, s, account, epoch, channel);
    forall c, a
      ensures (c, a) in joined - {(channel, account)} <==> Membership.IsMember(after.registry, after.channels, c, a)
    {
      assert (c, a) in joined <==> Membership.IsMember(s.registry, s.channels, c, a);
    }
  }

  /** No other script touches sessions or the joined-channel sets. */
  lemma OthersKeepJoined(cfg: Config, s: State, call: Call)
    requires !call.Clock? && !call.Open? && !call.Heartbeat? && !call.Fence? && !call.Join? && !call.Leave?
    ensures Step(cfg, s, call).0.channels.joined == s.channels.joined
  {
    hide Registry.StatusOf, Board.Full, Board.SetPresence, Board.RefusedPresence, Board.ClearedPresence;
    hide Board.SetPreference, Board.PresentAs;
    hide Rosters.Pruned, Rosters.ActiveMembers;
    hide Relations.Attach, Relations.Detach, Relations.Swept, Relations.ListedRelations, Relations.ViewerLimit;
    hide Relations.Visible;
    hide Ring.Published, Ring.Pruned, Ring.AttachPruned, Ring.LatestWindow, Ring.WindowAfter, Ring.NonMonotonic;
    hide Ring.StreamFor;
  }

  lemma OthersRefine(cfg: Config, s: State, call: Call, joined: Joined)
    requires !call.Clock? && !call.Open? && !call.Heartbeat? && !call.Fence? && !call.Join? && !call.Leave?
    requires Refines(s, joined)
    ensures Refines(Step(cfg, s, call).0, joined)
  {
    hide Step;
    Fencing.OthersKeepRegistry(cfg, s, call);
    OthersKeepJoined(cfg, s, call);
    var after := Step(cfg, s, call).0;
    forall c, a ensures (c, a) in joined <==> Membership.IsMember(after.registry, after.channels, c, a) {
      assert (c, a) in joined <==> Membership.IsMember(s.registry, s.channels, c, a);
    }
  }

  lemma StepRefines(cfg: Config, s: State, call: Call, joined: Joined)
    requires Inv(cfg, s) && Refines(s, joined)
    ensures Refines(Step(cfg, s, call).0, Joining(cfg, s, call, joined))
  {
    hide Inv, Refines, Advance, OpenSession, HeartbeatSession, FenceSession, JoinChannel, LeaveChannel, WithoutAccount;
    hide OnlyLive;
    match call {
      case Clock(time) => ClockRefines(cfg, s, time, joined);
      case Open(account, session, requested) =>
        if OpenSession(cfg, s, account, session, requested).1.Session? {
          OpenRefines(cfg, s, account, session, requested, joined);
        }
        else { RefusedOpen(cfg, s, account, session, requested); }
      case Heartbeat(account, epoch, requested) => HeartbeatRefines(cfg, s, account, epoch, requested, joined);
      case Fence(account, epoch) =>
        if FenceSession(s, account, epoch).1.Done? { FenceRefines(cfg, s, account, epoch, joined); }
        else { RefusedFence(s, account, epoch); }
      case Join(account, epoch, channel) =>
        if JoinChannel(cfg, s, account, epoch, channel).1.Done? {
          JoinRefines(cfg, s, account, epoch, channel, joined);
        }
        else { RefusedJoin(cfg, s, account, epoch, channel); }
      case Leave(account, epoch, channel) =>
        if LeaveChannel(s, account, epoch, channel).1.Done? { LeaveRefines(cfg, s, account, epoch, channel, joined); }
        else { RefusedLeave(s, account, epoch, channel); }
      case _ => OthersRefine(cfg, s, call, joined);
    }
  }

  lemma RefusedOpen(cfg: Config, s: State, account: Account, session: SessionId, requested: Time)
    requires !OpenSession(cfg, s, account, session, requested).1.Session?
    ensures OpenSession(cfg, s, account, session, requested).0 == s
  {
    hide Registry.OpeningOf;
  }

  lemma RefusedFence(s: State, account: Account, epoch: Epoch)
    requires !FenceSession(s, account, epoch).1.Done?
    ensures FenceSession(s, account, epoch).0 == s
  {
    hide Registry.StatusOf;
  }

  lemma RefusedJoin(cfg: Config, s: State, account: Account, epoch: Epoch, channel: ChannelId)
    requires !JoinChannel(cfg, s, account, epoch, channel).1.Done?
    ensures JoinChannel(cfg, s, account, epoch, channel).0 == s
  {
    hide Registry.StatusOf;
  }

  lemma RefusedLeave(s: State, account: Account, epoch: Epoch, channel: ChannelId)
    requires !LeaveChannel(s, account, epoch, channel).1.Done?
    ensures LeaveChannel(s, account, epoch, channel).0 == s
  {
    hide Registry.StatusOf;
  }

  lemma {:induction false} RunRefines(cfg: Config, s: State, calls: seq<Call>, joined: Joined)
    requires Inv(cfg, s) && cfg.Valid() && Refines(s, joined)
    ensures Inv(cfg, After(cfg, s, calls)) && Refines(After(cfg, s, calls), JoinedAfter(cfg, s, calls, joined))
    decreases |calls|
  {
    hide Inv, Refines, Step, Joining;
    if calls != [] {
      StepKeeps(cfg, s, calls[0]);
      StepRefines(cfg, s, calls[0], joined);
      RunRefines(cfg, Step(cfg, s, calls[0]).0, calls[1..], Joining(cfg, s, calls[0], joined));
    }
  }

  /** After any run, listing a channel returns exactly the accounts the plain set has in it. */
  lemma ListRefinesSet(cfg: Config, now: Time, calls: seq<Call>, channel: ChannelId, a: Account)
    requires cfg.Valid()
    ensures var s := After(cfg, Initial(now), calls);
      a in ListChannel(s, channel).1.accounts <==> (channel, a) in JoinedAfter(cfg, Initial(now), calls, {})
  {
    hide Inv, After, JoinedAfter, Rosters.Listed, Rosters.ActiveMembers;
    InitialIsValid(cfg, now);
    RunRefines(cfg, Initial(now), calls, {});
    var s := After(cfg, Initial(now), calls);
    ChannelsOf(cfg, s);
    Membership.ListIsMembership(cfg, s.registry, s.now, s.channels, channel, a);
  }

  lemma ChannelsOf(cfg: Config, s: State)
    requires Inv(cfg, s)
    ensures Registry.Valid(cfg, s.registry, s.now) && Membership.ValidChannels(cfg, s.registry, s.now, s.channels)
  {}
}
