/** What a caller may rely on when a script answers in a store that keeps its invariant. */
module RealtimeEffects {
  import opened Basics
  import opened RealtimeTypes
  import Registry = SessionRegistry
  import Rosters = ChannelRosters
  import Membership = ChannelMembership
  import Relations = SpectatorRelations
  import Agreement = SpectatorAgreement
  import Board = PresenceBoard
  import History = FrameHistory
  import opened RealtimeScripts
  import opened RealtimeRuns

  /** The account's current epoch, before its deadline; the keys of an epoch past it are gone. */
  lemma CurrentIsOwner(cfg: Config, s: State, account: Account, epoch: Epoch)
    requires Inv(cfg, s)
    ensures Status(s, account, epoch, s.now).Current? <==> Owns(s.registry.epochs, account, epoch)
    ensures Owns(s.registry.epochs, account, epoch) ==>
      Status(s, account, epoch, s.now).expiresAt == s.registry.epochs[account].expiresAt > s.now
  {
    hide Registry.Valid, Registry.StatusOf, Board.ValidBoard, Membership.ValidChannels, Agreement.ValidSpectators;
    hide History.ValidHistories;
    Registry.StatusIsOwnership(cfg, s.registry, s.now, account, epoch, s.now);
    if Owns(s.registry.epochs, account, epoch) { LeaseWithinDurable(cfg, s, account); }
  }

  // ---------------------------------------------------------------- sessions

  /** A session resolves to the account whose current epoch it is, with that epoch's deadline, or is not found. */
  lemma ResolveIsExact(cfg: Config, s: State, session: SessionId, at: Time)
    requires Inv(cfg, s)
    ensures var live, reply := s.registry.epochs, ResolveSession(s, session, at);
      (reply.Session? || reply.NotFound?) &&
      (reply.Session? ==>
        reply.epoch.session == session && Owns(live, reply.account, reply.epoch) &&
        reply.expiresAt == live[reply.account].expiresAt > at)
    ensures var live, reply := s.registry.epochs, ResolveSession(s, session, at);
      forall a :: a in live && live[a].epoch.session == session && live[a].expiresAt > at ==>
        reply == Session(a, live[a].epoch, live[a].expiresAt)
  {
    hide Board.ValidBoard, Membership.ValidChannels, Agreement.ValidSpectators, History.ValidHistories;
    var live := s.registry.epochs;
    if session in s.registry.sessions {
      assert Registry.EpochNamesSession(cfg, s.registry, s.now, s.registry.sessions[session].account);
    }
    forall a | a in live && live[a].epoch.session == session ensures session in s.registry.sessions &&
      s.registry.sessions[session].account == a
    {
      assert Registry.EpochNamesSession(cfg, s.registry, s.now, a);
    }
  }

  // ---------------------------------------------------------------- presence and preferences

  /** Only the current epoch clears its presence, and the online index then lists exactly the others. */
  lemma ClearEffect(cfg: Config, s: State, account: Account, epoch: Epoch)
    requires Inv(cfg, s)
    ensures var result := ClearPresence(s, account, epoch);
      (result.1.Done? <==> account in s.board.presence && Owns(s.registry.epochs, account, epoch)) &&
      result.0.board.presence.Keys ==
        (if result.1.Done? then s.board.presence.Keys - {account} else s.board.presence.Keys) &&
      Board.Ahead(Board.IndexOf(result.0.board), s.now).Keys == result.0.board.presence.Keys
  {
    hide Registry.Valid, Membership.ValidChannels, Agreement.ValidSpectators, History.ValidHistories;
    hide Board.Ahead, Board.IndexOf, Board.IndexMirrors, Refreshed;
    var after := ClearPresence(s, account, epoch).0;
    BoardStepKeeps(cfg, s, Disappear(account, epoch));
    Board.AheadIsPresent(after.board, after.registry.epochs, after.now);
  }

  /** Only the current epoch sets a preference; fields of an earlier epoch never show through. */
  lemma PreferEffect(cfg: Config, s: State, account: Account, epoch: Epoch, field: string, value: string)
    requires Inv(cfg, s)
    ensures var result := SetPreference(s, account, epoch, field, value);
      var before, after := s.board.preferences, result.0.board.preferences;
      (result.1.Done? <==> Owns(s.registry.epochs, account, epoch)) &&
      (result.1.Done? ==>
        account in after && after[account].epoch == epoch &&
        after[account].deadline == s.registry.epochs[account].expiresAt &&
        after[account].fields == (if account in before then before[account].fields else map[])[field := value] &&
        (account in before ==> before[account].epoch == epoch) && after - {account} == before - {account})
  {
    hide Registry.Valid, Membership.ValidChannels, Agreement.ValidSpectators, History.ValidHistories;
    hide Registry.StatusOf, Board.IndexMirrors, Board.PresenceOwned;
    CurrentIsOwner(cfg, s, account, epoch);
  }

  // ---------------------------------------------------------------- channels

  /** Only the current epoch joins, unless its session is at the limit; nobody else's membership changes. */
  lemma JoinEffect(cfg: Config, s: State, account: Account, epoch: Epoch, channel: ChannelId)
    requires Inv(cfg, s)
    ensures var result := JoinChannel(cfg, s, account, epoch, channel);
      (result.1.Done? <==>
        Owns(s.registry.epochs, account, epoch) &&
        (Membership.IsMember(s.registry, s.channels, channel, account) ||
         |Rosters.IdsOf(s.channels, epoch.session)| < cfg.maxChannels))
    ensures var result := JoinChannel(cfg, s, account, epoch, channel);
      forall c, a :: Membership.IsMember(result.0.registry, result.0.channels, c, a) <==>
        Membership.IsMember(s.registry, s.channels, c, a) || (result.1.Done? && c == channel && a == account)
  {
    hide Inv, Registry.StatusOf, Rosters.RefreshRoster;
    CurrentIsOwner(cfg, s, account, epoch);
    OneOwnerEach(cfg, s);
  }

  /** Leaving takes exactly this membership away. */
  lemma LeaveEffect(cfg: Config, s: State, account: Account, epoch: Epoch, channel: ChannelId)
    requires Inv(cfg, s)
    ensures var result := LeaveChannel(s, account, epoch, channel);
      (result.1.Done? <==> Owns(s.registry.epochs, account, epoch)) &&
      forall c, a :: Membership.IsMember(result.0.registry, result.0.channels, c, a) <==>
        Membership.IsMember(s.registry, s.channels, c, a) && !(result.1.Done? && c == channel && a == account)
  {
    hide Inv, Registry.StatusOf, Rosters.Without;
    CurrentIsOwner(cfg, s, account, epoch);
    OneOwnerEach(cfg, s);
  }

  lemma OneOwnerEach(cfg: Config, s: State)
    requires Inv(cfg, s)
    ensures OneOwner(s.registry.epochs)
  {
    hide Registry.Valid, Board.ValidBoard, Membership.ValidChannels, Agreement.ValidSpectators, History.ValidHistories;
    Registry.SessionsHaveOneOwner(cfg, s.registry, s.now);
  }

  /** A listing names exactly the accounts whose current epoch is a member. */
  lemma ListIsExact(cfg: Config, s: State, channel: ChannelId)
    requires Inv(cfg, s)
    ensures forall a :: a in ListChannel(s, channel).1.accounts <==>
      Membership.IsMember(s.registry, s.channels, channel, a)
  {
    hide Registry.Valid, Board.ValidBoard, Membership.ValidChannels, Agreement.ValidSpectators, History.ValidHistories;
    hide Rosters.ActiveMembers, Rosters.Listed, Membership.IsMember;
    forall a
      ensures a in ListChannel(s, channel).1.accounts <==> Membership.IsMember(s.registry, s.channels, channel, a)
    {
      Membership.ListIsMembership(cfg, s.registry, s.now, s.channels, channel, a);
    }
  }

  // ---------------------------------------------------------------- spectators

  /** Nobody watches as v, in either direction, and every other relation is as before. */
  ghost predicate OnlyCut(s: State, after: State, v: Account) {
    after.spectators.relations == s.spectators.relations - {v} &&
    forall h, w :: Agreement.LiveScore(after.spectators.viewers, s.now, h, w) ==
      if w == v then None else Agreement.LiveScore(s.spectators.viewers, s.now, h, w)
  }

  lemma CutEffect(cfg: Config, s: State, v: Account, after: State)
    requires Inv(cfg, s) && v in s.spectators.relations
    requires after.spectators == Relations.Detach(s.spectators, s.now, s.spectators.relations[v].host, v)
    ensures OnlyCut(s, after, v)
  {
    hide Registry.Valid, Board.ValidBoard, Membership.ValidChannels, History.ValidHistories, Agreement.TidyViewers;
    hide Relations.WithoutViewer, Agreement.LiveScore, Agreement.Owned;
    var host := s.spectators.relations[v].host;
    forall h, w ensures Agreement.LiveScore(after.spectators.viewers, s.now, h, w) ==
      if w == v then None else Agreement.LiveScore(s.spectators.viewers, s.now, h, w)
    {
      Agreement.WithoutViewerScore(s.spectators.viewers, s.now, host, v, h, w);
      assert Agreement.LiveScore(s.spectators.viewers, s.now, h, w) == Agreement.Deadline(s.spectators.relations, h, w);
    }
  }

  /** A matching relation is cut in both directions and no other is touched. */
  lemma DetachEffect(cfg: Config, s: State, expected: Relations.Relation)
    requires Inv(cfg, s)
    ensures var result := DetachSpectator(s, expected);
      (result.1.Done? <==> Matches(s, expected)) &&
      if result.1.Done? then OnlyCut(s, result.0, expected.spectator) else result.0 == s
  {
    hide Inv, OnlyCut, Relations.Detach;
    if Matches(s, expected) { CutEffect(cfg, s, expected.spectator, DetachSpectator(s, expected).0); }
  }

  /** A viewer sees its relation exactly while it outlives the asked time; otherwise the relation is cut. */
  lemma GetEffect(cfg: Config, s: State, account: Account, epoch: Epoch, at: Time)
    requires Inv(cfg, s)
    ensures var result, time, relations := GetSpectator(s, account, epoch, at), Max(s.now, at), s.spectators.relations;
      (result.1.Watching? <==>
        Owns(s.registry.epochs, account, epoch) && s.registry.epochs[account].expiresAt > time &&
        account in relations && relations[account].expiresAt > time) &&
      (result.1.Watching? ==> result == (s, Watching(relations[account]))) &&
      (result.1.NoRelation? && account in relations ==> OnlyCut(s, result.0, account))
  {
    hide Inv, OnlyCut, Relations.Detach, Relations.Visible, Registry.StatusOf;
    var time := Max(s.now, at);
    VisibleIsLasting(cfg, s, account, epoch, time);
    if account in s.spectators.relations && GetSpectator(s, account, epoch, at).1.NoRelation? {
      CutEffect(cfg, s, account, GetSpectator(s, account, epoch, at).0);
    }
  }

  lemma VisibleIsLasting(cfg: Config, s: State, account: Account, epoch: Epoch, time: Time)
    requires Inv(cfg, s)
    ensures Status(s, account, epoch, time).Current? <==>
      Owns(s.registry.epochs, account, epoch) && s.registry.epochs[account].expiresAt > time
    ensures account in s.spectators.relations && Owns(s.registry.epochs, account, epoch) ==>
      (Relations.Visible(s.registry, s.spectators.relations[account], epoch, time) <==>
       s.spectators.relations[account].expiresAt > time)
  {
    hide Board.ValidBoard, Membership.ValidChannels, History.ValidHistories, Agreement.Mirrored, Agreement.TidyViewers;
    Registry.StatusIsOwnership(cfg, s.registry, s.now, account, epoch, time);
    if account in s.spectators.relations {
      var relation := s.spectators.relations[account];
      assert Agreement.ValidRelation(s.registry.epochs, s.now, account, relation);
      assert Registry.EpochNamesSession(cfg, s.registry, s.now, relation.host);
    }
  }
}
