/** Runs of the store: what every script keeps, whatever the order of calls. */
module RealtimeRuns {
  import opened Basics
  import opened RealtimeTypes
  import Registry = SessionRegistry
  import Rosters = ChannelRosters
  import Membership = ChannelMembership
  import Relations = SpectatorRelations
  import Agreement = SpectatorAgreement
  import Board = PresenceBoard
  import Ring = FrameRing
  import History = FrameHistory
  import opened RealtimeScripts

  datatype Call =
    | Clock(time: Time)
    | Open(account: Account, session: SessionId, requested: Time)
    | Heartbeat(account: Account, epoch: Epoch, requested: Time)
    | Fence(account: Account, epoch: Epoch)
    | Appear(account: Account, epoch: Epoch, expiresAt: Time, state: string, capacity: nat)
    | Disappear(account: Account, epoch: Epoch)
    | Prefer(account: Account, epoch: Epoch, field: string, value: string)
    | Join(account: Account, epoch: Epoch, channel: ChannelId)
    | Leave(account: Account, epoch: Epoch, channel: ChannelId)
    | List(channel: ChannelId)
    | Attach(request: Relations.Relation, historyLimit: nat)
    | Detach(expected: Relations.Relation)
    | Get(account: Account, epoch: Epoch, at: Time)
    | Watch(account: Account, epoch: Epoch, at: Time)
    | Publish(account: Account, epoch: Epoch, sequence: nat, payload: string, expiresAt: Time, reset: bool)
    | Read(account: Account, epoch: Epoch, at: Time, after: Option<nat>, limit: nat)

  function Step(cfg: Config, s: State, call: Call): (State, Reply) {
    match call
    case Clock(time) => (Advance(s, time), Done)
    case Open(account, session, requested) => OpenSession(cfg, s, account, session, requested)
    case Heartbeat(account, epoch, requested) => HeartbeatSession(cfg, s, account, epoch, requested)
    case Fence(account, epoch) => FenceSession(s, account, epoch)
    case Appear(account, epoch, expiresAt, state, capacity) =>
      SetPresence(cfg, s, account, epoch, expiresAt, state, capacity)
    case Disappear(account, epoch) => ClearPresence(s, account, epoch)
    case Prefer(account, epoch, field, value) => SetPreference(s, account, epoch, field, value)
    case Join(account, epoch, channel) => JoinChannel(cfg, s, account, epoch, channel)
    case Leave(account, epoch, channel) => LeaveChannel(s, account, epoch, channel)
    case List(channel) => ListChannel(s, channel)
    case Attach(request, limit) => AttachSpectator(cfg, s, request, limit)
    case Detach(expected) => DetachSpectator(s, expected)
    case Get(account, epoch, at) => GetSpectator(s, account, epoch, at)
    case Watch(account, epoch, at) => ListSpectators(s, account, epoch, at)
    case Publish(account, epoch, sequence, payload, expiresAt, reset) =>
      PublishFrame(cfg, s, account, epoch, sequence, payload, expiresAt, reset)
    case Read(account, epoch, at, after, limit) => ReadFrames(cfg, s, account, epoch, at, after, limit)
  }

  function After(cfg: Config, s: State, calls: seq<Call>): State
    decreases |calls|
  {
    if calls == [] then s else After(cfg, Step(cfg, s, calls[0]).0, calls[1..])
  }

  // ---------------------------------------------------------------- invariant

  ghost predicate Inv(cfg: Config, s: State) {
    Registry.Valid(cfg, s.registry, s.now) && Board.ValidBoard(s.board, s.registry.epochs, s.now) &&
    Membership.ValidChannels(cfg, s.registry, s.now, s.channels) &&
    Agreement.ValidSpectators(cfg, s.registry.epochs, s.now, s.spectators) &&
    History.ValidHistories(cfg, s.histories, s.registry.epochs, s.now)
  }

  lemma InitialIsValid(cfg: Config, now: Time)
    ensures Inv(cfg, Initial(now))
  {}

  lemma AdvanceKeeps(cfg: Config, s: State, time: Time)
    requires Inv(cfg, s)
    ensures Inv(cfg, Advance(s, time))
  {
    hide Registry.Valid, Board.ValidBoard, Membership.ValidChannels, Agreement.ValidSpectators, History.ValidHistories;
    hide Board.ExpireBoard, Rosters.ExpireChannels, Relations.ExpireSpectators, Ring.ExpireHistories;
    if time > s.now {
      Registry.ExpireKeeps(cfg, s.registry, s.now, time);
      Board.ExpireBoardKeeps(s.board, s.registry.epochs, s.now, time);
      Membership.ExpireChannelsKeeps(cfg, s.registry, s.now, time, s.channels);
      Agreement.ExpireSpectatorsKeeps(cfg, s.registry.epochs, s.now, time, s.spectators);
      History.ExpireHistoriesKeeps(cfg, s.histories, s.registry.epochs, s.now, time);
    }
  }

  lemma OpenKeeps(cfg: Config, s: State, account: Account, session: SessionId, requested: Time)
    requires Inv(cfg, s)
    ensures Inv(cfg, OpenSession(cfg, s, account, session, requested).0)
  {
    hide Registry.Valid, Board.ValidBoard, Membership.ValidChannels, Agreement.ValidSpectators, History.ValidHistories;
    hide Board.ClearedBoard, Rosters.Reopened, Relations.Severed, Relations.Cleared, Ring.ClearedHistory;
    hide Registry.OpeningOf;
    var opening := Registry.OpeningOf(cfg, s.registry, s.now, account, session, requested);
    if opening.Granted? {
      var epoch, live := Epoch(session, opening.revision), s.registry.epochs;
      var registry := Registry.Open(cfg, s.registry, account, epoch, opening.expiresAt);
      Registry.OpenKeeps(cfg, s.registry, s.now, account, epoch, requested, opening.expiresAt);
      Registry.SessionsHaveOneOwner(cfg, s.registry, s.now);
      Board.ClearedBoardKeeps(s.board, live, s.now, account, registry.epochs);
      Membership.ReopenKeeps(cfg, s.registry, s.now, s.channels, account, epoch, requested, opening.expiresAt);
      History.ClearedHistoryKeeps(cfg, s.histories, live, s.now, account, registry.epochs);
      if account in live {
        Agreement.SeveredKeeps(cfg, live, s.now, s.spectators, account, registry.epochs);
      } else {
        Agreement.ClearedKeeps(cfg, live, s.now, s.spectators, account, registry.epochs);
      }
    }
  }

  lemma HeartbeatKeeps(cfg: Config, s: State, account: Account, epoch: Epoch, requested: Time)
    requires Inv(cfg, s) && cfg.Valid()
    ensures Inv(cfg, HeartbeatSession(cfg, s, account, epoch, requested).0)
  {
    hide Registry.Valid, Board.ValidBoard, Membership.ValidChannels, Agreement.ValidSpectators, History.ValidHistories;
    hide Board.RenewedPresence, Board.RenewedPreference, Rosters.Renewed, Relations.RenewedOwn;
    hide Relations.RenewedViewers, Registry.StatusOf;
    var status, live := Status(s, account, epoch, s.now), s.registry.epochs;
    Registry.StatusIsOwnership(cfg, s.registry, s.now, account, epoch, s.now);
    if status.Current? && requested > s.now {
      var expiresAt := Registry.Extended(s.now, cfg.sessionTtl, status.expiresAt, status.durable, requested);
      assert live[account].expiresAt <= expiresAt <= cfg.durable(epoch.session) by {
        LeaseWithinDurable(cfg, s, account);
      }
      Registry.ExtendKeeps(cfg, s.registry, s.now, account, expiresAt);
      var registry := Registry.Extend(s.registry, account, epoch.session, expiresAt);
      var until := Min(expiresAt, s.now + cfg.presenceTtl);
      Board.RenewedBoardKeeps(s.board, live, s.now, account, expiresAt, until);
      Membership.RenewKeeps(cfg, s.registry, s.now, s.channels, account, expiresAt);
      History.LongerHistoryKeeps(cfg, s.histories, live, s.now, account, expiresAt);
      Agreement.LongerKeeps(cfg, live, s.now, s.spectators, account, expiresAt);
      Agreement.RenewOwnKeeps(cfg, registry, s.now, s.spectators, account);
      var own := Relations.RenewedOwn(s.spectators, registry, s.now, account, epoch, expiresAt);
      Agreement.RenewViewersKeeps(cfg, registry, s.now, own, account);
    }
  }

  lemma LeaseWithinDurable(cfg: Config, s: State, account: Account)
    requires Inv(cfg, s) && account in s.registry.epochs
    ensures s.now < s.registry.epochs[account].expiresAt <= cfg.durable(s.registry.epochs[account].epoch.session)
  {
    assert Registry.EpochNamesSession(cfg, s.registry, s.now, account);
  }

  lemma FenceKeeps(cfg: Config, s: State, account: Account, epoch: Epoch)
    requires Inv(cfg, s)
    ensures Inv(cfg, FenceSession(s, account, epoch).0)
  {
    hide Registry.Valid, Board.ValidBoard, Membership.ValidChannels, Agreement.ValidSpectators, History.ValidHistories;
    hide Board.ClearedBoard, Rosters.Fence, Relations.Severed, Relations.Cleared, Ring.ClearedHistory;
    hide Registry.StatusOf;
    var status, live := Status(s, account, epoch, s.now), s.registry.epochs;
    Registry.StatusIsOwnership(cfg, s.registry, s.now, account, epoch, s.now);
    if status.Current? {
      Registry.RemoveKeeps(cfg, s.registry, s.now, account);
      Registry.SessionsHaveOneOwner(cfg, s.registry, s.now);
      var registry := Registry.Remove(s.registry, account, epoch.session);
      Board.ClearedBoardKeeps(s.board, live, s.now, account, registry.epochs);
      Membership.FenceKeeps(cfg, s.registry, s.now, s.channels, account);
      History.ClearedHistoryKeeps(cfg, s.histories, live, s.now, account, registry.epochs);
      Agreement.SeveredKeeps(cfg, live, s.now, s.spectators, account, registry.epochs);
    }
  }

  lemma BoardStepKeeps(cfg: Config, s: State, call: Call)
    requires Inv(cfg, s) && (call.Appear? || call.Disappear? || call.Prefer?)
    ensures Inv(cfg, Step(cfg, s, call).0)
  {
    hide Registry.Valid, Board.ValidBoard, Membership.ValidChannels, Agreement.ValidSpectators, History.ValidHistories;
    hide Board.SetPresence, Board.SetPreference, Board.ClearedPresence, Board.RefusedPresence, Board.Full;
    hide Registry.StatusOf;
    var live, account, epoch := s.registry.epochs, call.account, call.epoch;
    Registry.StatusIsOwnership(cfg, s.registry, s.now, account, epoch, s.now);
    match call {
      case Appear(_, _, expiresAt, state, capacity) =>
        if SetPresence(cfg, s, account, epoch, expiresAt, state, capacity).1 == Done {
          Board.SetPresenceKeeps(s.board, live, s.now, account, Board.Presence(epoch, expiresAt, state), capacity);
        }
        Board.RefusedPresenceKeeps(s.board, live, s.now);
      case Disappear(_, _) =>
        Board.ClearedPresenceKeeps(s.board, live, s.now, account);
      case Prefer(_, _, field, value) =>
        if Status(s, account, epoch, s.now).Current? {
          Board.SetPreferenceKeeps(s.board, live, s.now, account, field, value);
        }
    }
  }

  lemma ChannelStepKeeps(cfg: Config, s: State, call: Call)
    requires Inv(cfg, s) && (call.Join? || call.Leave? || call.List?)
    ensures Inv(cfg, Step(cfg, s, call).0)
  {
    hide Registry.Valid, Board.ValidBoard, Membership.ValidChannels, Agreement.ValidSpectators, History.ValidHistories;
    hide Rosters.Join, Rosters.Leave, Rosters.Listed, Rosters.AtLimit, Registry.StatusOf, Rosters.ActiveMembers;
    match call {
      case Join(account, epoch, channel) =>
        Registry.StatusIsOwnership(cfg, s.registry, s.now, account, epoch, s.now);
        if Status(s, account, epoch, s.now).Current? {
          Membership.JoinKeeps(cfg, s.registry, s.now, s.channels, account, channel);
        }
      case Leave(account, epoch, channel) =>
        Registry.StatusIsOwnership(cfg, s.registry, s.now, account, epoch, s.now);
        if Status(s, account, epoch, s.now).Current? {
          Membership.LeaveKeeps(cfg, s.registry, s.now, s.channels, account, channel);
        }
      case List(channel) =>
        Membership.ListedKeeps(cfg, s.registry, s.now, s.channels, channel);
    }
  }

  lemma AttachKeeps(cfg: Config, s: State, request: Relations.Relation, limit: nat)
    requires Inv(cfg, s)
    ensures Inv(cfg, AttachSpectator(cfg, s, request, limit).0)
  {
    hide Registry.Valid, Board.ValidBoard, Membership.ValidChannels, Agreement.ValidSpectators, History.ValidHistories;
    hide Relations.Attach, Ring.Pruned, Relations.ViewerLimit, Registry.StatusOf, Ring.LatestWindow;
    Registry.StatusIsOwnership(cfg, s.registry, s.now, request.host, request.hostEpoch, s.now);
    Registry.StatusIsOwnership(cfg, s.registry, s.now, request.spectator, request.spectatorEpoch, s.now);
    if AttachSpectator(cfg, s, request, limit).1.Attached? {
      var relation := request.(revision := Relations.RelationRevision(s.spectators, request.spectator) + 1);
      Agreement.AttachKeeps(cfg, s.registry.epochs, s.now, s.spectators, relation,
        s.registry.epochs[request.spectator].expiresAt);
      History.PrunedKeeps(cfg, s.histories, s.registry.epochs, s.now, request.host, s.now);
    }
  }

  lemma DetachKeeps(cfg: Config, s: State, call: Call)
    requires Inv(cfg, s) && (call.Detach? || call.Get?)
    ensures Inv(cfg, Step(cfg, s, call).0)
  {
    hide Registry.Valid, Board.ValidBoard, Membership.ValidChannels, Agreement.ValidSpectators, History.ValidHistories;
    hide Relations.Detach, Registry.StatusOf, Relations.Visible;
    var v := if call.Detach? then call.expected.spectator else call.account;
    if v in s.spectators.relations {
      Agreement.DetachKeeps(cfg, s.registry.epochs, s.now, s.spectators, v);
    }
  }

  lemma WatchKeeps(cfg: Config, s: State, account: Account, epoch: Epoch, at: Time)
    requires Inv(cfg, s)
    ensures Inv(cfg, ListSpectators(s, account, epoch, at).0)
  {
    hide Registry.Valid, Board.ValidBoard, Membership.ValidChannels, Agreement.ValidSpectators, History.ValidHistories;
    hide Relations.Swept, Relations.Listable, Relations.Follows, Registry.StatusOf, Relations.ListedRelations;
    var time := Max(s.now, at);
    Registry.StatusIsOwnership(cfg, s.registry, s.now, account, epoch, time);
    if Status(s, account, epoch, time).Current? {
      var relations := s.spectators.relations;
      var keep := v => Relations.Listable(relations, s.registry, time, account, epoch, v);
      var doom := v => Relations.Follows(relations, v, epoch);
      forall v ensures (keep(v) ==> v in relations && relations[v].host == account) &&
        (doom(v) <==> v in relations && relations[v].host == account)
      {
        FollowsIsHost(cfg, s, account, v);
        ListableNamesHost(relations, s.registry, time, account, epoch, v);
      }
      Agreement.SweptKeeps(cfg, s.registry.epochs, s.now, s.spectators, account, keep, doom);
    }
  }

  lemma ListableNamesHost(relations: map<Account, Relations.Relation>, r: Registry.Registry, at: Time, host: Account,
                          epoch: Epoch, v: Account)
    ensures Relations.Listable(relations, r, at, host, epoch, v) ==> v in relations && relations[v].host == host
  {}

  lemma FollowsIsHost(cfg: Config, s: State, account: Account, v: Account)
    requires Inv(cfg, s) && account in s.registry.epochs
    ensures var relations, epoch := s.spectators.relations, s.registry.epochs[account].epoch;
      (Relations.Follows(relations, v, epoch) <==> v in relations && relations[v].host == account) &&
      (Relations.Named(relations, account, epoch, v) <==> v in relations && relations[v].host == account)
  {
    hide Membership.ValidChannels, Board.ValidBoard, History.ValidHistories, Registry.Valid;
    Registry.SessionsHaveOneOwner(cfg, s.registry, s.now);
    if v in s.spectators.relations {
      Agreement.HostByEpoch(s.registry.epochs, s.now, s.spectators.relations, account, v);
    }
  }

  lemma PublishKeeps(cfg: Config, s: State, account: Account, epoch: Epoch, sequence: nat, payload: string,
                     expiresAt: Time, reset: bool)
    requires Inv(cfg, s) && cfg.Valid()
    ensures Inv(cfg, PublishFrame(cfg, s, account, epoch, sequence, payload, expiresAt, reset).0)
  {
    hide Registry.Valid, Board.ValidBoard, Membership.ValidChannels, Agreement.ValidSpectators, History.ValidHistories;
    hide Relations.Swept, Relations.Reachable, Relations.Named, Registry.StatusOf, Relations.ListedRelations;
    hide Ring.Published;
    Registry.StatusIsOwnership(cfg, s.registry, s.now, account, epoch, s.now);
    if PublishFrame(cfg, s, account, epoch, sequence, payload, expiresAt, reset).1.Published? {
      var relations, stream := s.spectators.relations, Ring.StreamFor(s.histories, account, epoch, reset);
      var frame := Ring.Frame(Ring.NextCursor(stream), expiresAt, sequence, payload);
      History.PublishedKeeps(cfg, s.histories, s.registry.epochs, account, s.now, frame, reset);
      var keep := v => Relations.Reachable(relations, s.registry, s.now, account, epoch, v);
      var doom := v => Relations.Named(relations, account, epoch, v);
      forall v ensures (keep(v) ==> v in relations && relations[v].host == account) &&
        (doom(v) <==> v in relations && relations[v].host == account)
      {
        FollowsIsHost(cfg, s, account, v);
        ReachableNamesHost(relations, s.registry, s.now, account, epoch, v);
      }
      Agreement.SweptKeeps(cfg, s.registry.epochs, s.now, s.spectators, account, keep, doom);
    }
  }

  lemma ReachableNamesHost(relations: map<Account, Relations.Relation>, r: Registry.Registry, now: Time, host: Account,
                           epoch: Epoch, v: Account)
    ensures Relations.Reachable(relations, r, now, host, epoch, v) ==> v in relations && relations[v].host == host
  {}

  lemma ReadKeeps(cfg: Config, s: State, account: Account, epoch: Epoch, at: Time, after: Option<nat>, limit: nat)
    requires Inv(cfg, s)
    ensures Inv(cfg, ReadFrames(cfg, s, account, epoch, at, after, limit).0)
  {
    hide Registry.Valid, Board.ValidBoard, Membership.ValidChannels, Agreement.ValidSpectators, History.ValidHistories;
    hide Ring.Pruned, Ring.LatestWindow, Ring.WindowAfter, Registry.StatusOf;
    History.PrunedKeeps(cfg, s.histories, s.registry.epochs, s.now, account, Max(s.now, at));
  }

  lemma StepKeeps(cfg: Config, s: State, call: Call)
    requires Inv(cfg, s) && cfg.Valid()
    ensures Inv(cfg, Step(cfg, s, call).0)
  {
    hide Inv, OpenSession, HeartbeatSession, FenceSession, AttachSpectator, ListSpectators, PublishFrame, ReadFrames;
    hide Advance;
    match call {
      case Clock(time) => AdvanceKeeps(cfg, s, time);
      case Open(account, session, requested) => OpenKeeps(cfg, s, account, session, requested);
      case Heartbeat(account, epoch, requested) => HeartbeatKeeps(cfg, s, account, epoch, requested);
      case Fence(account, epoch) => FenceKeeps(cfg, s, account, epoch);
      case Appear(_, _, _, _, _) => BoardStepKeeps(cfg, s, call);
      case Disappear(_, _) => BoardStepKeeps(cfg, s, call);
      case Prefer(_, _, _, _) => BoardStepKeeps(cfg, s, call);
      case Join(_, _, _) => ChannelStepKeeps(cfg, s, call);
      case Leave(_, _, _) => ChannelStepKeeps(cfg, s, call);
      case List(_) => ChannelStepKeeps(cfg, s, call);
      case Attach(request, limit) => AttachKeeps(cfg, s, request, limit);
      case Detach(_) => DetachKeeps(cfg, s, call);
      case Get(_, _, _) => DetachKeeps(cfg, s, call);
      case Watch(account, epoch, at) => WatchKeeps(cfg, s, account, epoch, at);
      case Publish(account, epoch, sequence, payload, expiresAt, reset) =>
        PublishKeeps(cfg, s, account, epoch, sequence, payload, expiresAt, reset);
      case Read(account, epoch, at, after, limit) => ReadKeeps(cfg, s, account, epoch, at, after, limit);
    }
  }

  lemma {:induction false} RunKeeps(cfg: Config, s: State, calls: seq<Call>)
    requires Inv(cfg, s) && cfg.Valid()
    ensures Inv(cfg, After(cfg, s, calls))
    decreases |calls|
  {
    hide Inv, Step;
    if calls != [] {
      StepKeeps(cfg, s, calls[0]);
      RunKeeps(cfg, Step(cfg, s, calls[0]).0, calls[1..]);
    }
  }

  ghost predicate Reachable(cfg: Config, s: State) {
    exists now, calls :: s == After(cfg, Initial(now), calls)
  }

  lemma ReachableIsValid(cfg: Config, s: State)
    requires cfg.Valid() && Reachable(cfg, s)
    ensures Inv(cfg, s)
  {
    hide Inv, Step, After;
    var now, calls :| s == After(cfg, Initial(now), calls);
    InitialIsValid(cfg, now);
    RunKeeps(cfg, Initial(now), calls);
  }

  // ---------------------------------------------------------------- ownership

  /** Every live presence, preference, relation and history belongs to current epochs and expires no later. */
  lemma EverythingIsOwned(cfg: Config, s: State)
    requires cfg.Valid() && Reachable(cfg, s)
    ensures var live := s.registry.epochs;
      (forall a :: a in s.board.presence ==>
        Owns(live, a, s.board.presence[a].epoch) && s.now < s.board.presence[a].expiresAt <= live[a].expiresAt)
    ensures var live := s.registry.epochs;
      (forall a :: a in s.board.preferences ==>
        Owns(live, a, s.board.preferences[a].epoch) && s.board.preferences[a].deadline <= live[a].expiresAt)
    ensures var live := s.registry.epochs;
      (forall v :: v in s.spectators.relations ==>
        var relation := s.spectators.relations[v];
        Owns(live, v, relation.spectatorEpoch) && relation.expiresAt <= live[v].expiresAt &&
        Owns(live, relation.host, relation.hostEpoch) && relation.expiresAt <= live[relation.host].expiresAt)
    ensures var live := s.registry.epochs;
      (forall a :: a in s.histories.streams ==>
        Owns(live, a, s.histories.streams[a].epoch) && s.histories.streams[a].deadline <= live[a].expiresAt)
    ensures forall a :: a in s.histories.rings ==>
      a in s.histories.streams && s.histories.rings[a].deadline <= s.histories.streams[a].deadline
  {
    hide Reachable, Registry.Valid, Membership.ValidChannels;
    ReachableIsValid(cfg, s);
    forall v | v in s.spectators.relations
      ensures Agreement.ValidRelation(s.registry.epochs, s.now, v, s.spectators.relations[v])
    {}
  }

  // ---------------------------------------------------------------- spectators and frames

  /** A viewer counts in a host's set exactly when its live relation names the host, with the same deadline. */
  lemma DirectionsAgree(cfg: Config, s: State, host: Account, v: Account)
    requires cfg.Valid() && Reachable(cfg, s)
    ensures Agreement.LiveScore(s.spectators.viewers, s.now, host, v) ==
      Agreement.Deadline(s.spectators.relations, host, v)
    ensures |ScoresOf(s.spectators.viewers, host)| <= cfg.maxViewers
  {
    hide Reachable, Registry.Valid, Board.ValidBoard, Membership.ValidChannels, History.ValidHistories;
    hide Agreement.TidyViewers;
    ReachableIsValid(cfg, s);
    Agreement.ScoresBounded(cfg, s.spectators.viewers, s.now, host);
  }

  /** A frame goes to exactly the accounts whose live relation names this host epoch. */
  lemma RecipientsAreExact(cfg: Config, s: State, account: Account, epoch: Epoch, sequence: nat, payload: string,
                           expiresAt: Time, reset: bool, v: Account)
    requires cfg.Valid() && Reachable(cfg, s)
    requires PublishFrame(cfg, s, account, epoch, sequence, payload, expiresAt, reset).1.Published?
    ensures v in PublishFrame(cfg, s, account, epoch, sequence, payload, expiresAt, reset).1.recipients <==>
      v in s.spectators.relations && s.spectators.relations[v].host == account &&
      s.spectators.relations[v].hostEpoch == epoch
  {
    hide Reachable, Registry.Valid, Board.ValidBoard, Membership.ValidChannels, History.ValidHistories;
    hide Agreement.ValidSpectators;
    hide Registry.StatusOf, Relations.Swept, Relations.Reachable, Relations.Named, Ring.Published, Ring.NonMonotonic;
    hide Ring.StreamFor, PresenceUntil;
    ReachableIsValid(cfg, s);
    Registry.StatusIsOwnership(cfg, s.registry, s.now, account, epoch, s.now);
    Agreement.RecipientsAreViewers(cfg, s.registry, s.now, s.spectators, account, v);
  }

  /**
   * After a publication the ring is within both limits, counts its bytes, and is a suffix of the unexpired frames plus
   * the new one.
   */
  lemma PublishIsBounded(cfg: Config, s: State, account: Account, epoch: Epoch, sequence: nat, payload: string,
                         expiresAt: Time, reset: bool)
    returns (k: nat)
    requires cfg.Valid() && Reachable(cfg, s)
    requires PublishFrame(cfg, s, account, epoch, sequence, payload, expiresAt, reset).1.Published?
    ensures var result := PublishFrame(cfg, s, account, epoch, sequence, payload, expiresAt, reset);
      var carried := Ring.Carried(cfg, s.histories, account, epoch, reset, s.now);
      account in result.0.histories.rings &&
      var ring := result.0.histories.rings[account];
      k <= |carried| && ring.frames == carried[k..] + [Ring.Frame(result.1.cursor, expiresAt, sequence, payload)] &&
      |ring.frames| <= cfg.maxFrames && ring.bytes == Ring.Bytes(ring.frames) <= cfg.maxBytes &&
      History.Increasing(ring.frames) &&
      forall j :: 0 <= j < k ==>
        |carried| - j + 1 > cfg.maxFrames || Ring.Bytes(carried[j..]) + |payload| > cfg.maxBytes
  {
    hide Reachable, Registry.Valid, Board.ValidBoard, Membership.ValidChannels, History.ValidHistories;
    hide Agreement.ValidSpectators;
    hide Registry.StatusOf, Relations.Swept, Relations.ListedRelations, Relations.Reachable, Relations.Named;
    hide Ring.NonMonotonic, PresenceUntil;
    hide Ring.Carried, Ring.Evicted, Ring.Insert, Ring.Bytes, Ring.LatestExpiry, History.Increasing;
    ReachableIsValid(cfg, s);
    var stream := Ring.StreamFor(s.histories, account, epoch, reset);
    var frame := Ring.Frame(Ring.NextCursor(stream), expiresAt, sequence, payload);
    k := History.PublishedRing(cfg, s.histories, s.registry.epochs, account, epoch, s.now, frame, reset);
  }

  /** Listing spectators returns exactly the relations to this host that outlive the asked time. */
  lemma WatchersAreExact(cfg: Config, s: State, account: Account, epoch: Epoch, at: Time, v: Account)
    requires cfg.Valid() && Reachable(cfg, s) && ListSpectators(s, account, epoch, at).1.Watchers?
    ensures v in ListSpectators(s, account, epoch, at).1.relations <==>
      v in s.spectators.relations && s.spectators.relations[v].host == account &&
      s.spectators.relations[v].expiresAt > Max(s.now, at)
  {
    hide Reachable, Registry.Valid, Board.ValidBoard, Membership.ValidChannels, History.ValidHistories;
    hide Agreement.ValidSpectators;
    hide Registry.StatusOf, Relations.Swept, Relations.Listable;
    ReachableIsValid(cfg, s);
    Registry.StatusIsOwnership(cfg, s.registry, s.now, account, epoch, Max(s.now, at));
    Agreement.ListedAreViewers(cfg, s.registry, s.now, s.spectators, account, Max(s.now, at), v);
  }

  /** A viewer's own query returns its relation exactly while it outlives the asked time. */
  lemma WatchingIsExact(cfg: Config, s: State, account: Account, epoch: Epoch, at: Time)
    requires cfg.Valid() && Reachable(cfg, s) && Status(s, account, epoch, Max(s.now, at)).Current?
    ensures GetSpectator(s, account, epoch, at).1.Watching? <==>
      account in s.spectators.relations && s.spectators.relations[account].expiresAt > Max(s.now, at)
  {
    hide Reachable, Board.ValidBoard, Membership.ValidChannels, History.ValidHistories, Agreement.Mirrored;
    hide Agreement.TidyViewers;
    ReachableIsValid(cfg, s);
    Registry.StatusIsOwnership(cfg, s.registry, s.now, account, epoch, Max(s.now, at));
    if account in s.spectators.relations {
      var relation := s.spectators.relations[account];
      assert Agreement.ValidRelation(s.registry.epochs, s.now, account, relation);
      assert Registry.EpochNamesSession(cfg, s.registry, s.now, relation.host);
    }
  }
}
