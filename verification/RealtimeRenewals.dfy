/** What a heartbeat renews: the lease, presence and preference, channel memberships and both spectator directions. */
module RealtimeRenewals {
  import opened Basics
  import opened RealtimeTypes
  import Registry = SessionRegistry
  import Rosters = ChannelRosters
  import Membership = ChannelMembership
  import Relations = SpectatorRelations
  import Agreement = SpectatorAgreement
  import Board = PresenceBoard
  import History = FrameHistory
  import opened RealtimeScripts
  import opened RealtimeRuns
  import opened RealtimeEffects

  /** The current epoch renews exactly with a deadline ahead; else nothing changes. */
  lemma HeartbeatLease(cfg: Config, s: State, account: Account, epoch: Epoch, requested: Time)
    requires Inv(cfg, s) && cfg.Valid()
    ensures var r := HeartbeatSession(cfg, s, account, epoch, requested); var live := s.registry.epochs;
      (r.1.Session? <==> Owns(live, account, epoch) && requested > s.now) && (!r.1.Session? ==> r.0 == s) &&
      (r.1.Session? ==>
        var until := r.1.expiresAt;
        r.1 == Session(account, epoch, until) &&
        until == Max(live[account].expiresAt,
          Min(requested, Min(cfg.durable(epoch.session), s.now + cfg.sessionTtl))) &&
        r.0.registry.epochs == live[account := Lease(epoch, until)] && epoch.session in s.registry.sessions &&
        r.0.registry.sessions ==
          s.registry.sessions[epoch.session := s.registry.sessions[epoch.session].(expiresAt := until)] &&
        r.0.registry.counters == s.registry.counters && r.0.now == s.now && r.0.histories == s.histories)
  {
    hide Registry.Valid, Board.ValidBoard, Membership.ValidChannels, Agreement.ValidSpectators, History.ValidHistories;
    hide Board.RenewedPresence, Board.RenewedPreference, Rosters.Renewed, Relations.RenewedOwn;
    hide Relations.RenewedViewers;
    hide Registry.StatusOf;
    Registry.StatusIsOwnership(cfg, s.registry, s.now, account, epoch, s.now);
    if Owns(s.registry.epochs, account, epoch) { LeaseWithinDurable(cfg, s, account); }
    if Status(s, account, epoch, s.now).Current? { Registry.CurrentIsStored(s.registry, account, epoch, s.now); }
  }

  /** Presence runs on for the presence time within the lease, preferences with the lease, and others' stay. */
  lemma HeartbeatBoard(cfg: Config, s: State, account: Account, epoch: Epoch, requested: Time)
    requires Inv(cfg, s) && cfg.Valid() && HeartbeatSession(cfg, s, account, epoch, requested).1.Session?
    ensures var r := HeartbeatSession(cfg, s, account, epoch, requested);
      var before, after, until := s.board, r.0.board, Min(r.1.expiresAt, s.now + cfg.presenceTtl);
      (account in before.presence ==>
        before.presence[account].epoch == epoch &&
        after.presence == before.presence[account := before.presence[account].(expiresAt := until)] &&
        account in Board.IndexOf(after) && Board.IndexOf(after)[account] == until) &&
      (account !in before.presence ==> after.presence == before.presence) &&
      (account in before.preferences ==>
        before.preferences[account].epoch == epoch &&
        after.preferences ==
          before.preferences[account := before.preferences[account].(deadline := r.1.expiresAt)]) &&
      (account !in before.preferences ==> after.preferences == before.preferences)
  {
    hide Registry.Valid, Membership.ValidChannels, Agreement.ValidSpectators, History.ValidHistories, Refreshed, Tidy;
    hide Rosters.Renewed, Relations.RenewedOwn, Relations.RenewedViewers, Registry.StatusOf, Registry.Extended;
    HeartbeatLease(cfg, s, account, epoch, requested);
    var until := Min(HeartbeatSession(cfg, s, account, epoch, requested).1.expiresAt, s.now + cfg.presenceTtl);
    LeaseWithinDurable(cfg, s, account);
    if account in s.board.presence {
      var renewed := Board.RenewedPresence(s.board, s.now, account, epoch, until);
      Board.RefreshedScore(renewed, s.now, Board.IndexOf(s.board)[account := until], account);
    }
  }

  /** Nobody joins or leaves, and the account counts in each of its channels until its lease ends. */
  lemma HeartbeatChannels(cfg: Config, s: State, account: Account, epoch: Epoch, requested: Time, c: ChannelId,
                          a: Account)
    requires Inv(cfg, s) && cfg.Valid() && HeartbeatSession(cfg, s, account, epoch, requested).1.Session?
    ensures var r := HeartbeatSession(cfg, s, account, epoch, requested);
      (Membership.IsMember(r.0.registry, r.0.channels, c, a) <==> Membership.IsMember(s.registry, s.channels, c, a)) &&
      (Membership.IsMember(s.registry, s.channels, c, account) ==>
        c in r.0.channels.rosters && account in r.0.channels.rosters[c].members &&
        r.0.channels.rosters[c].members[account] == r.1.expiresAt)
  {
    hide Registry.Valid, Board.ValidBoard, Agreement.ValidSpectators, History.ValidHistories, Membership.TidyRosters;
    hide Board.RenewedPresence, Board.RenewedPreference, Rosters.RenewedAll, Relations.RenewedOwn, Registry.StatusOf;
    hide Relations.RenewedViewers, Registry.Extended, Rosters.Listing, Membership.OnlyIssued, Membership.Agrees;
    HeartbeatLease(cfg, s, account, epoch, requested);
    HeartbeatKeeps(cfg, s, account, epoch, requested);
    var r := HeartbeatSession(cfg, s, account, epoch, requested);
    var ids := Rosters.IdsOf(s.channels, epoch.session);
    Membership.AgreesAt(s.channels, s.registry.epochs, account);
    Membership.RenewedAgrees(s.channels.rosters, s.now, account, s.registry.epochs[account], ids, s.now + 1);
    ScoredUntil(r.0, account, c);
  }

  lemma ScoredUntil(s: State, account: Account, c: ChannelId)
    requires Membership.AllAgree(s.channels, s.registry.epochs) && account in s.registry.epochs
    ensures Membership.IsMember(s.registry, s.channels, c, account) ==>
      c in s.channels.rosters && account in s.channels.rosters[c].members &&
      s.channels.rosters[c].members[account] == s.registry.epochs[account].expiresAt
  {
    Membership.AgreesAt(s.channels, s.registry.epochs, account);
  }

  /** The account's own relation and those of its viewers run on until the first of the two leases ends. */
  lemma HeartbeatRelations(cfg: Config, s: State, account: Account, epoch: Epoch, requested: Time, v: Account)
    requires Inv(cfg, s) && cfg.Valid() && HeartbeatSession(cfg, s, account, epoch, requested).1.Session?
    ensures var r := HeartbeatSession(cfg, s, account, epoch, requested);
      var before, after, live := s.spectators.relations, r.0.spectators.relations, r.0.registry.epochs;
      (v in after <==> v in before) &&
      (v in before ==>
        v in live && before[v].host in live &&
        after[v] ==
          if v == account || before[v].host == account
          then before[v].(expiresAt := Min(live[v].expiresAt, live[before[v].host].expiresAt))
          else before[v])
  {
    hide Registry.Valid, Board.ValidBoard, Membership.ValidChannels, History.ValidHistories, Agreement.TidyViewers;
    hide Board.RenewedPresence, Board.RenewedPreference, Rosters.Renewed, Relations.RenewedOwn, Registry.StatusOf;
    hide Relations.RenewedViewers, Registry.Extended, Agreement.Mirrored;
    HeartbeatLease(cfg, s, account, epoch, requested);
    var r := HeartbeatSession(cfg, s, account, epoch, requested);
    var registry, until := r.0.registry, r.1.expiresAt;
    LeaseWithinDurable(cfg, s, account);
    Registry.ExtendKeeps(cfg, s.registry, s.now, account, until);
    Agreement.LongerKeeps(cfg, s.registry.epochs, s.now, s.spectators, account, until);
    Agreement.RenewOwnKeeps(cfg, registry, s.now, s.spectators, account);
    OwnRenewed(cfg, registry, s.now, s.spectators, account, v);
    var own := Relations.RenewedOwn(s.spectators, registry, s.now, account, epoch, until);
    Agreement.RenewViewersAt(cfg, registry, s.now, own, account, account, v);
  }

  lemma OwnRenewed(cfg: Config, r: Registry.Registry, now: Time, sp: Relations.Spectators, account: Account, v: Account)
    requires Registry.Valid(cfg, r, now) && Agreement.ValidSpectators(cfg, r.epochs, now, sp) && account in r.epochs
    ensures var lease := r.epochs[account];
      var after := Relations.RenewedOwn(sp, r, now, account, lease.epoch, lease.expiresAt);
      (v in after.relations <==> v in sp.relations) &&
      (v in sp.relations ==>
        Agreement.ValidRelation(r.epochs, now, v, sp.relations[v]) &&
        after.relations[v] ==
          if v == account
          then sp.relations[v].(expiresAt := Min(r.epochs[v].expiresAt, r.epochs[sp.relations[v].host].expiresAt))
          else sp.relations[v])
  {
    hide Agreement.Mirrored, Agreement.TidyViewers, Refreshed;
    if v in sp.relations {
      assert Agreement.ValidRelation(r.epochs, now, v, sp.relations[v]);
      assert Registry.EpochNamesSession(cfg, r, now, sp.relations[v].host);
    }
  }
}
