/** What every script keeps of the channel keys, and that listing a channel returns its live members. */
module ChannelMembership {
  import opened Basics
  import opened RealtimeTypes
  import opened SessionRegistry
  import opened ChannelRosters

  // ---------------------------------------------------------------- invariant

  ghost predicate TidyRoster(now: Time, roster: Roster) {
    roster.members.Keys == roster.epochs.Keys && IsLatest(roster.members, roster.deadline) && roster.deadline > now
  }

  ghost predicate TidyRosters(rosters: map<ChannelId, Roster>, now: Time) {
    forall c :: c in rosters ==> TidyRoster(now, rosters[c])
  }

  /** No roster mentions an epoch that has yet to be handed out. */
  ghost predicate OnlyIssued(cfg: Config, r: Registry, now: Time, rosters: map<ChannelId, Roster>) {
    forall c, a :: c in rosters && a in rosters[c].epochs ==> Issued(cfg, r, now, rosters[c].epochs[a])
  }

  /** A joined-channels key belongs to a live session and lives as long. */
  ghost predicate JoinedBySessions(joined: map<SessionId, Joined>, r: Registry) {
    forall s :: s in joined ==>
      s in r.sessions && joined[s].deadline == r.sessions[s].expiresAt && joined[s].ids != {}
  }

  /** The rosters that list the current epoch are those its session joined, with the session's deadline as score. */
  ghost predicate Agrees(rosters: map<ChannelId, Roster>, ids: set<ChannelId>, a: Account, lease: Lease) {
    (forall c :: c in ids <==> Holds(rosters, c, a, lease.epoch)) &&
    (forall c :: Holds(rosters, c, a, lease.epoch) ==>
      a in rosters[c].members && rosters[c].members[a] == lease.expiresAt)
  }

  ghost predicate AllAgree(ch: Channels, live: Live) {
    forall a :: a in live ==> Agrees(ch.rosters, IdsOf(ch, live[a].epoch.session), a, live[a])
  }

  ghost predicate ValidChannels(cfg: Config, r: Registry, now: Time, ch: Channels) {
    TidyRosters(ch.rosters, now) && OnlyIssued(cfg, r, now, ch.rosters) && JoinedBySessions(ch.joined, r) &&
    AllAgree(ch, r.epochs)
  }

  // ---------------------------------------------------------------- one roster

  lemma RefreshTidies(now: Time, members: map<Account, Time>, epochs: map<Account, Epoch>)
    requires members.Keys == epochs.Keys
    ensures var z := RefreshRoster(now, members, epochs);
      (z.Some? ==> TidyRoster(now, z.value) && z.value.members == members && z.value.epochs == epochs)
    ensures forall a :: a in members && members[a] > now ==> RefreshRoster(now, members, epochs).Some?
  {}

  /** Rosters that changed for at most one account, and that lost no live member. */
  ghost predicate SameFor(before: map<ChannelId, Roster>, after: map<ChannelId, Roster>, now: Time, a: Account) {
    forall c :: SameAt(before, after, now, a, c)
  }

  ghost predicate SameAt(before: map<ChannelId, Roster>, after: map<ChannelId, Roster>, now: Time, a: Account,
                         c: ChannelId) {
    (c in after && a in after[c].epochs ==>
      c in before && a in before[c].epochs && before[c].epochs[a] == after[c].epochs[a]) &&
    (c in after && a in after[c].epochs && a in after[c].members ==>
      a in before[c].members && before[c].members[a] == after[c].members[a]) &&
    (c in before && a in before[c].epochs && a in before[c].members && before[c].members[a] > now ==>
      c in after && a in after[c].epochs && a in after[c].members)
  }

  lemma SameKeepsAgreement(before: map<ChannelId, Roster>, after: map<ChannelId, Roster>, now: Time,
                           ids: set<ChannelId>, a: Account, lease: Lease)
    requires SameFor(before, after, now, a) && lease.expiresAt > now && Agrees(before, ids, a, lease)
    requires TidyRosters(after, now)
    ensures Agrees(after, ids, a, lease)
  {
    hide TidyRosters;
    forall c ensures c in ids <==> Holds(after, c, a, lease.epoch)
      ensures Holds(after, c, a, lease.epoch) ==> a in after[c].members && after[c].members[a] == lease.expiresAt
    {
      assert SameAt(before, after, now, a, c);
      if c in after { TidyAt(after, now, c); }
    }
  }

  lemma TidyAt(rosters: map<ChannelId, Roster>, now: Time, c: ChannelId)
    requires TidyRosters(rosters, now) && c in rosters
    ensures rosters[c].members.Keys == rosters[c].epochs.Keys
  {
    assert TidyRoster(now, rosters[c]);
  }

  ghost predicate OnlyFrom(before: map<ChannelId, Roster>, after: map<ChannelId, Roster>) {
    forall c, a :: c in after && a in after[c].epochs ==> Holds(before, c, a, after[c].epochs[a])
  }

  // ---------------------------------------------------------------- leaving and renewing many rosters

  lemma WithoutEffect(now: Time, roster: Roster, account: Account)
    requires TidyRoster(now, roster)
    ensures var z := Without(now, roster, account);
      z.Some? ==>
        TidyRoster(now, z.value) && z.value.members == roster.members - {account} &&
        z.value.epochs == roster.epochs - {account}
    ensures forall a :: a in roster.members && a != account && roster.members[a] > now ==>
      Without(now, roster, account).Some?
  {
    RefreshTidies(now, roster.members - {account}, roster.epochs - {account});
    assert forall a :: a in roster.members && a != account ==> a in roster.members - {account};
  }

  lemma LeftAllAt(rosters: map<ChannelId, Roster>, now: Time, account: Account, epoch: Epoch, ids: set<ChannelId>,
                  c: ChannelId)
    requires TidyRosters(rosters, now)
    ensures var after := LeftAll(rosters, now, account, epoch, ids);
      (c in after ==> c in rosters && TidyRoster(now, after[c])) &&
      (c in after ==> forall a :: a in after[c].epochs ==> Holds(rosters, c, a, after[c].epochs[a])) &&
      (forall a :: a != account ==> SameAt(rosters, after, now, a, c)) &&
      (c in ids ==> !Holds(after, c, account, epoch)) &&
      (c !in ids ==> (c in after <==> c in rosters) && (c in after ==> after[c] == rosters[c]))
  {
    hide Without;
    if c in rosters {
      WithoutEffect(now, rosters[c], account);
    }
  }

  lemma LeftAllEffect(rosters: map<ChannelId, Roster>, now: Time, account: Account, epoch: Epoch, ids: set<ChannelId>)
    requires TidyRosters(rosters, now)
    ensures var after := LeftAll(rosters, now, account, epoch, ids);
      TidyRosters(after, now) && OnlyFrom(rosters, after) &&
      (forall a :: a != account ==> SameFor(rosters, after, now, a)) &&
      (forall c :: c in ids ==> !Holds(after, c, account, epoch))
  {
    hide LeftAll, TidyRosters, Holds, SameAt;
    var after := LeftAll(rosters, now, account, epoch, ids);
    forall c ensures c in after ==> TidyRoster(now, after[c]) { LeftAllAt(rosters, now, account, epoch, ids, c); }
    assert TidyRosters(after, now) by { TidyFromEach(after, now); }
    forall c, a | c in after && a in after[c].epochs ensures Holds(rosters, c, a, after[c].epochs[a]) {
      LeftAllAt(rosters, now, account, epoch, ids, c);
    }
    forall a, c | a != account ensures SameAt(rosters, after, now, a, c) {
      LeftAllAt(rosters, now, account, epoch, ids, c);
    }
    forall c | c in ids ensures !Holds(after, c, account, epoch) { LeftAllAt(rosters, now, account, epoch, ids, c); }
  }

  lemma TidyFromEach(rosters: map<ChannelId, Roster>, now: Time)
    requires forall c :: c in rosters ==> TidyRoster(now, rosters[c])
    ensures TidyRosters(rosters, now)
  {}

  lemma IssuedFrom(cfg: Config, r: Registry, now: Time, q: Registry, later: Time,
                   before: map<ChannelId, Roster>, after: map<ChannelId, Roster>)
    requires OnlyIssued(cfg, r, now, before) && OnlyFrom(before, after)
    requires forall e :: Issued(cfg, r, now, e) ==> Issued(cfg, q, later, e)
    ensures OnlyIssued(cfg, q, later, after)
  {
    hide Issued;
    forall c, a | c in after && a in after[c].epochs ensures Issued(cfg, q, later, after[c].epochs[a]) {
      assert Holds(before, c, a, after[c].epochs[a]);
    }
  }

  // ---------------------------------------------------------------- steps of the clock and of sessions

  lemma ExpireSame(rosters: map<ChannelId, Roster>, now: Time, later: Time, after: map<ChannelId, Roster>, a: Account)
    requires TidyRosters(rosters, now) && now <= later
    requires after == map c | c in rosters && rosters[c].deadline > later :: rosters[c]
    ensures SameFor(rosters, after, later, a) && TidyRosters(after, later) && OnlyFrom(rosters, after)
  {
    forall c ensures SameAt(rosters, after, later, a, c) {
      if c in rosters { assert TidyRoster(now, rosters[c]); }
    }
    forall c | c in after ensures TidyRoster(later, after[c]) { assert TidyRoster(now, rosters[c]); }
  }

  lemma ExpireJoined(cfg: Config, r: Registry, now: Time, later: Time, ch: Channels)
    requires Valid(cfg, r, now) && JoinedBySessions(ch.joined, r) && now <= later
    ensures JoinedBySessions(ExpireChannels(ch, later).joined, Expire(r, later))
    ensures forall a :: a in Expire(r, later).epochs ==>
      IdsOf(ExpireChannels(ch, later), r.epochs[a].epoch.session) == IdsOf(ch, r.epochs[a].epoch.session)
  {
    forall a | a in Expire(r, later).epochs
      ensures IdsOf(ExpireChannels(ch, later), r.epochs[a].epoch.session) == IdsOf(ch, r.epochs[a].epoch.session)
    {
      assert EpochNamesSession(cfg, r, now, a);
    }
  }

  lemma ExpireChannelsKeeps(cfg: Config, r: Registry, now: Time, later: Time, ch: Channels)
    requires Valid(cfg, r, now) && ValidChannels(cfg, r, now, ch) && now <= later
    ensures ValidChannels(cfg, Expire(r, later), later, ExpireChannels(ch, later))
  {
    hide Agrees, SameFor, TidyRosters, OnlyFrom, OnlyIssued, Issued, JoinedBySessions;
    var after, q := ExpireChannels(ch, later), Expire(r, later);
    ExpireJoined(cfg, r, now, later, ch);
    ExpireSame(ch.rosters, now, later, after.rosters, Account(0));
    forall e | Issued(cfg, r, now, e) ensures Issued(cfg, q, later, e) { IssuedForever(cfg, r, now, later, e); }
    IssuedFrom(cfg, r, now, q, later, ch.rosters, after.rosters);
    forall a | a in q.epochs ensures Agrees(after.rosters, IdsOf(after, q.epochs[a].epoch.session), a, q.epochs[a]) {
      assert EpochNamesSession(cfg, r, now, a);
      ExpireSame(ch.rosters, now, later, after.rosters, a);
      SameKeepsAgreement(ch.rosters, after.rosters, later, IdsOf(ch, q.epochs[a].epoch.session), a, q.epochs[a]);
    }
  }

  lemma ReopenKeeps(cfg: Config, r: Registry, now: Time, ch: Channels, account: Account, next: Epoch, requested: Time,
                    expiresAt: Time)
    requires Valid(cfg, r, now) && ValidChannels(cfg, r, now, ch)
    requires OpeningOf(cfg, r, now, account, next.session, requested) == Granted(next.revision, expiresAt)
    ensures ValidChannels(cfg, Open(cfg, r, account, next, expiresAt), now,
      Reopened(ch, now, r.epochs, account, next.session))
  {
    hide Agrees, SameFor, TidyRosters, OnlyFrom, OnlyIssued, Issued, LeftAll, JoinedBySessions;
    var after, q := Reopened(ch, now, r.epochs, account, next.session), Open(cfg, r, account, next, expiresAt);
    ReopenRosters(cfg, r, now, ch, account, next.session);
    forall e | Issued(cfg, r, now, e) ensures Issued(cfg, q, now, e) {
      IssuedAfterOpen(cfg, r, now, account, next, requested, expiresAt, e);
    }
    IssuedFrom(cfg, r, now, q, now, ch.rosters, after.rosters);
    ReopenJoined(cfg, r, now, ch, account, next, requested, expiresAt);
    forall a | a in q.epochs ensures Agrees(after.rosters, IdsOf(after, q.epochs[a].epoch.session), a, q.epochs[a]) {
      if a == account {
        NewEpochIsNowhere(cfg, r, now, ch.rosters, after.rosters, account, next, requested, expiresAt);
      } else {
        OthersKeepIds(cfg, r, now, ch, account, next, requested, expiresAt, a);
        assert EpochNamesSession(cfg, r, now, a);
        SameKeepsAgreement(ch.rosters, after.rosters, now, IdsOf(ch, r.epochs[a].epoch.session), a, r.epochs[a]);
      }
    }
  }

  lemma ReopenRosters(cfg: Config, r: Registry, now: Time, ch: Channels, account: Account, session: SessionId)
    requires TidyRosters(ch.rosters, now)
    ensures var after := Reopened(ch, now, r.epochs, account, session).rosters;
      TidyRosters(after, now) && OnlyFrom(ch.rosters, after) &&
      forall a :: a != account ==> SameFor(ch.rosters, after, now, a)
  {
    hide LeftAll, TidyRosters;
    if account in r.epochs {
      var last := r.epochs[account].epoch;
      LeftAllEffect(ch.rosters, now, account, last, IdsOf(ch, last.session));
    }
  }

  lemma ReopenJoined(cfg: Config, r: Registry, now: Time, ch: Channels, account: Account, next: Epoch, requested: Time,
                     expiresAt: Time)
    requires JoinedBySessions(ch.joined, r)
    requires OpeningOf(cfg, r, now, account, next.session, requested) == Granted(next.revision, expiresAt)
    ensures JoinedBySessions(Reopened(ch, now, r.epochs, account, next.session).joined,
      Open(cfg, r, account, next, expiresAt))
  {
    hide LeftAll;
  }

  lemma OthersKeepIds(cfg: Config, r: Registry, now: Time, ch: Channels, account: Account, next: Epoch, requested: Time,
                      expiresAt: Time, a: Account)
    requires Valid(cfg, r, now) && a in r.epochs && a != account
    requires OpeningOf(cfg, r, now, account, next.session, requested) == Granted(next.revision, expiresAt)
    ensures IdsOf(Reopened(ch, now, r.epochs, account, next.session), r.epochs[a].epoch.session) ==
      IdsOf(ch, r.epochs[a].epoch.session)
  {
    hide LeftAll;
    assert EpochNamesSession(cfg, r, now, a);
    if account in r.epochs { assert EpochNamesSession(cfg, r, now, account); }
  }

  lemma NewEpochIsNowhere(cfg: Config, r: Registry, now: Time, before: map<ChannelId, Roster>, after: map<ChannelId,
                          Roster>,
                          account: Account, next: Epoch, requested: Time, expiresAt: Time)
    requires OnlyIssued(cfg, r, now, before) && OnlyFrom(before, after)
    requires OpeningOf(cfg, r, now, account, next.session, requested) == Granted(next.revision, expiresAt)
    ensures Agrees(after, {}, account, Lease(next, expiresAt))
  {
    hide Issued;
    GrantedIsFresh(cfg, r, now, account, next, requested, expiresAt);
    forall c ensures !Holds(after, c, account, next) {
      assert Holds(after, c, account, next) ==> Holds(before, c, account, next);
    }
  }

  lemma FenceKeeps(cfg: Config, r: Registry, now: Time, ch: Channels, account: Account)
    requires Valid(cfg, r, now) && ValidChannels(cfg, r, now, ch) && account in r.epochs
    ensures ValidChannels(cfg, Remove(r, account, r.epochs[account].epoch.session), now,
      Fence(ch, now, account, r.epochs[account].epoch))
  {
    hide Agrees, SameFor, TidyRosters, OnlyFrom, OnlyIssued, LeftAll;
    var epoch := r.epochs[account].epoch;
    var after, q := Fence(ch, now, account, epoch), Remove(r, account, epoch.session);
    LeftAllEffect(ch.rosters, now, account, epoch, IdsOf(ch, epoch.session));
    IssuedFrom(cfg, r, now, q, now, ch.rosters, after.rosters);
    assert EpochNamesSession(cfg, r, now, account);
    forall a | a in q.epochs ensures Agrees(after.rosters, IdsOf(after, q.epochs[a].epoch.session), a, q.epochs[a]) {
      assert EpochNamesSession(cfg, r, now, a);
      SameKeepsAgreement(ch.rosters, after.rosters, now, IdsOf(ch, q.epochs[a].epoch.session), a, q.epochs[a]);
    }
  }

  lemma RenewedAt(rosters: map<ChannelId, Roster>, now: Time, account: Account, epoch: Epoch, ids: set<ChannelId>,
                  expiresAt: Time, c: ChannelId)
    requires TidyRosters(rosters, now) && expiresAt > now
    ensures var after := RenewedAll(rosters, now, account, epoch, ids, expiresAt);
      (c in after <==> c in rosters) &&
      (c in after ==> TidyRoster(now, after[c]) && after[c].epochs == rosters[c].epochs) &&
      (forall a :: a != account ==> SameAt(rosters, after, now, a, c)) &&
      (c in ids && Holds(rosters, c, account, epoch) ==> after[c].members[account] == expiresAt)
  {
    if c in rosters {
      assert TidyRoster(now, rosters[c]);
      if c in ids && Lists(rosters[c], account, epoch) {
        var members := rosters[c].members[account := expiresAt];
        assert members.Keys == rosters[c].epochs.Keys;
        RefreshTidies(now, members, rosters[c].epochs);
        assert members[account] > now;
      }
    }
  }

  lemma RenewedEffect(rosters: map<ChannelId, Roster>, now: Time, account: Account, epoch: Epoch, ids: set<ChannelId>,
                      expiresAt: Time)
    requires TidyRosters(rosters, now) && expiresAt > now
    ensures var after := RenewedAll(rosters, now, account, epoch, ids, expiresAt);
      TidyRosters(after, now) && OnlyFrom(rosters, after) &&
      (forall a :: a != account ==> SameFor(rosters, after, now, a))
  {
    hide RenewedAll, TidyRosters, SameAt;
    var after := RenewedAll(rosters, now, account, epoch, ids, expiresAt);
    forall c ensures c in after ==> TidyRoster(now, after[c]) {
      RenewedAt(rosters, now, account, epoch, ids, expiresAt, c);
    }
    assert TidyRosters(after, now) by { TidyFromEach(after, now); }
    forall c, a | c in after && a in after[c].epochs ensures Holds(rosters, c, a, after[c].epochs[a]) {
      RenewedAt(rosters, now, account, epoch, ids, expiresAt, c);
    }
    forall a, c | a != account ensures SameAt(rosters, after, now, a, c) {
      RenewedAt(rosters, now, account, epoch, ids, expiresAt, c);
    }
  }

  lemma RenewedAgrees(rosters: map<ChannelId, Roster>, now: Time, account: Account, lease: Lease, ids: set<ChannelId>,
                      expiresAt: Time)
    requires TidyRosters(rosters, now) && expiresAt > now && Agrees(rosters, ids, account, lease)
    ensures Agrees(RenewedAll(rosters, now, account, lease.epoch, ids, expiresAt), ids, account,
      Lease(lease.epoch, expiresAt))
    ensures Listing(rosters, account, lease.epoch, ids) == ids
  {
    hide RenewedAll, TidyRosters;
    var after := RenewedAll(rosters, now, account, lease.epoch, ids, expiresAt);
    forall c ensures c in ids <==> Holds(after, c, account, lease.epoch)
      ensures Holds(after, c, account, lease.epoch) ==>
        account in after[c].members && after[c].members[account] == expiresAt
    {
      RenewedAt(rosters, now, account, lease.epoch, ids, expiresAt, c);
      assert c in ids <==> Holds(rosters, c, account, lease.epoch);
    }
  }

  lemma RenewKeeps(cfg: Config, r: Registry, now: Time, ch: Channels, account: Account, expiresAt: Time)
    requires Valid(cfg, r, now) && ValidChannels(cfg, r, now, ch) && account in r.epochs && expiresAt > now
    requires r.epochs[account].epoch.session in r.sessions
    ensures ValidChannels(cfg, Extend(r, account, r.epochs[account].epoch.session, expiresAt), now,
      Renewed(ch, now, account, r.epochs[account].epoch, expiresAt))
  {
    hide Agrees, SameFor, TidyRosters, OnlyFrom, OnlyIssued, RenewedAll, Listing;
    var epoch := r.epochs[account].epoch;
    var ids := IdsOf(ch, epoch.session);
    var after, q := Renewed(ch, now, account, epoch, expiresAt), Extend(r, account, epoch.session, expiresAt);
    RenewedEffect(ch.rosters, now, account, epoch, ids, expiresAt);
    RenewedAgrees(ch.rosters, now, account, r.epochs[account], ids, expiresAt);
    IssuedFrom(cfg, r, now, q, now, ch.rosters, after.rosters);
    assert EpochNamesSession(cfg, r, now, account);
    forall a | a in q.epochs ensures Agrees(after.rosters, IdsOf(after, q.epochs[a].epoch.session), a, q.epochs[a]) {
      if a != account {
        assert EpochNamesSession(cfg, r, now, a);
        SameKeepsAgreement(ch.rosters, after.rosters, now, IdsOf(ch, q.epochs[a].epoch.session), a, q.epochs[a]);
      }
    }
  }

  // ---------------------------------------------------------------- steps of the channel scripts

  lemma JoinRoster(ch: Channels, now: Time, account: Account, epoch: Epoch, expiresAt: Time, c: ChannelId)
    requires TidyRosters(ch.rosters, now) && expiresAt > now
    ensures var after := Join(ch, now, account, epoch, expiresAt, c).rosters;
      TidyRosters(after, now) && c in after && (forall d :: d != c ==> (d in after <==> d in ch.rosters)) &&
      (forall d :: d != c && d in after ==> after[d] == ch.rosters[d]) &&
      account in after[c].members && after[c].members[account] == expiresAt && Lists(after[c], account, epoch) &&
      (forall a :: a != account ==> SameAt(ch.rosters, after, now, a, c))
  {
    var members := if c in ch.rosters then ch.rosters[c].members else map[];
    var epochs := if c in ch.rosters then ch.rosters[c].epochs else map[];
    if c in ch.rosters { assert TidyRoster(now, ch.rosters[c]); }
    assert members.Keys == epochs.Keys;
    assert members[account := expiresAt].Keys == epochs[account := epoch].Keys;
    RefreshTidies(now, members[account := expiresAt], epochs[account := epoch]);
    assert members[account := expiresAt][account] > now;
  }

  lemma JoinEffect(ch: Channels, now: Time, account: Account, epoch: Epoch, expiresAt: Time, c: ChannelId, a: Account)
    requires TidyRosters(ch.rosters, now) && expiresAt > now && a != account
    ensures SameFor(ch.rosters, Join(ch, now, account, epoch, expiresAt, c).rosters, now, a)
  {
    hide TidyRosters, Join;
    JoinRoster(ch, now, account, epoch, expiresAt, c);
    var after := Join(ch, now, account, epoch, expiresAt, c).rosters;
    forall d ensures SameAt(ch.rosters, after, now, a, d) {
      if d != c { assert d in after <==> d in ch.rosters; }
    }
  }

  lemma JoinAgrees(ch: Channels, now: Time, account: Account, lease: Lease, c: ChannelId)
    requires TidyRosters(ch.rosters, now) && lease.expiresAt > now
    requires Agrees(ch.rosters, IdsOf(ch, lease.epoch.session), account, lease)
    ensures var after := Join(ch, now, account, lease.epoch, lease.expiresAt, c);
      Agrees(after.rosters, IdsOf(after, lease.epoch.session), account, lease)
  {
    hide TidyRosters, RefreshRoster, Put;
    JoinRoster(ch, now, account, lease.epoch, lease.expiresAt, c);
    var after, ids := Join(ch, now, account, lease.epoch, lease.expiresAt, c), IdsOf(ch, lease.epoch.session);
    assert IdsOf(after, lease.epoch.session) == ids + {c};
    forall d ensures d in ids + {c} <==> Holds(after.rosters, d, account, lease.epoch)
      ensures Holds(after.rosters, d, account, lease.epoch) ==>
        account in after.rosters[d].members && after.rosters[d].members[account] == lease.expiresAt
    {
      if d != c { assert d in ids <==> Holds(ch.rosters, d, account, lease.epoch); }
    }
  }

  lemma JoinIssued(cfg: Config, r: Registry, ch: Channels, now: Time, account: Account, lease: Lease, c: ChannelId)
    requires TidyRosters(ch.rosters, now) && lease.expiresAt > now
    requires OnlyIssued(cfg, r, now, ch.rosters) && Issued(cfg, r, now, lease.epoch)
    ensures OnlyIssued(cfg, r, now, Join(ch, now, account, lease.epoch, lease.expiresAt, c).rosters)
  {
    hide TidyRosters, Issued, Join;
    JoinRoster(ch, now, account, lease.epoch, lease.expiresAt, c);
    var after := Join(ch, now, account, lease.epoch, lease.expiresAt, c).rosters;
    forall d, a | d in after && a in after[d].epochs ensures Issued(cfg, r, now, after[d].epochs[a]) {
      assert a != account ==> SameAt(ch.rosters, after, now, a, c);
    }
  }

  lemma JoinKeeps(cfg: Config, r: Registry, now: Time, ch: Channels, account: Account, c: ChannelId)
    requires Valid(cfg, r, now) && ValidChannels(cfg, r, now, ch) && account in r.epochs
    ensures ValidChannels(cfg, r, now, Join(ch, now, account, r.epochs[account].epoch, r.epochs[account].expiresAt, c))
  {
    hide TidyRosters, OnlyIssued, Issued, RefreshRoster, Agrees, SameFor, Put;
    var lease := r.epochs[account];
    assert EpochNamesSession(cfg, r, now, account);
    LeaseIsIssued(cfg, r, now, account);
    JoinRoster(ch, now, account, lease.epoch, lease.expiresAt, c);
    JoinIssued(cfg, r, ch, now, account, lease, c);
    var after := Join(ch, now, account, lease.epoch, lease.expiresAt, c);
    assert after.joined[lease.epoch.session].ids != {} by { assert c in after.joined[lease.epoch.session].ids; }
    forall a | a in r.epochs ensures Agrees(after.rosters, IdsOf(after, r.epochs[a].epoch.session), a, r.epochs[a]) {
      if a == account {
        JoinAgrees(ch, now, account, lease, c);
      } else {
        assert EpochNamesSession(cfg, r, now, a);
        JoinEffect(ch, now, account, lease.epoch, lease.expiresAt, c, a);
        SameKeepsAgreement(ch.rosters, after.rosters, now, IdsOf(ch, r.epochs[a].epoch.session), a, r.epochs[a]);
      }
    }
  }

  lemma LeaveRosters(ch: Channels, now: Time, account: Account, epoch: Epoch, c: ChannelId)
    ensures Leave(ch, now, account, epoch, c).rosters == LeftAll(ch.rosters, now, account, epoch, {c})
  {
    hide Without;
  }

  lemma LeaveAgrees(ch: Channels, now: Time, account: Account, lease: Lease, c: ChannelId)
    requires TidyRosters(ch.rosters, now)
    requires Agrees(ch.rosters, IdsOf(ch, lease.epoch.session), account, lease)
    ensures Agrees(LeftAll(ch.rosters, now, account, lease.epoch, {c}),
      IdsOf(ch, lease.epoch.session) - {c}, account, lease)
  {
    hide TidyRosters, LeftAll;
    var after, ids := LeftAll(ch.rosters, now, account, lease.epoch, {c}), IdsOf(ch, lease.epoch.session);
    forall d ensures d in ids - {c} <==> Holds(after, d, account, lease.epoch)
      ensures Holds(after, d, account, lease.epoch) ==>
        account in after[d].members && after[d].members[account] == lease.expiresAt
    {
      LeftAllAt(ch.rosters, now, account, lease.epoch, {c}, d);
      assert d in ids <==> Holds(ch.rosters, d, account, lease.epoch);
    }
  }

  lemma LeaveKeeps(cfg: Config, r: Registry, now: Time, ch: Channels, account: Account, c: ChannelId)
    requires Valid(cfg, r, now) && ValidChannels(cfg, r, now, ch) && account in r.epochs
    ensures ValidChannels(cfg, r, now, Leave(ch, now, account, r.epochs[account].epoch, c))
  {
    hide TidyRosters, OnlyIssued, OnlyFrom, Agrees, SameFor, LeftAll, Without, Put, Holds;
    var lease := r.epochs[account];
    var after := Leave(ch, now, account, lease.epoch, c);
    assert EpochNamesSession(cfg, r, now, account);
    LeaveRosters(ch, now, account, lease.epoch, c);
    LeftAllEffect(ch.rosters, now, account, lease.epoch, {c});
    IssuedFrom(cfg, r, now, r, now, ch.rosters, after.rosters);
    forall a | a in r.epochs ensures Agrees(after.rosters, IdsOf(after, r.epochs[a].epoch.session), a, r.epochs[a]) {
      assert EpochNamesSession(cfg, r, now, a);
      if a == account {
        LeaveAgrees(ch, now, account, lease, c);
      } else {
        SameKeepsAgreement(ch.rosters, after.rosters, now, IdsOf(ch, r.epochs[a].epoch.session), a, r.epochs[a]);
      }
    }
  }

  // ---------------------------------------------------------------- listing

  /** Those accounts whose current live session is in the channel. */
  ghost predicate IsMember(r: Registry, ch: Channels, c: ChannelId, a: Account) {
    a in r.epochs && c in IdsOf(ch, r.epochs[a].epoch.session)
  }

  /** A roster entry is active exactly when it is the current epoch's. */
  lemma ActiveIsCurrent(cfg: Config, r: Registry, now: Time, ch: Channels, c: ChannelId, a: Account)
    requires Valid(cfg, r, now) && ValidChannels(cfg, r, now, ch) && c in ch.rosters
    ensures Active(r, ch.rosters[c], now, a) <==> IsMember(r, ch, c, a)
  {
    hide TidyRosters, OnlyIssued;
    if a in r.epochs {
      assert EpochNamesSession(cfg, r, now, a);
      assert Agrees(ch.rosters, IdsOf(ch, r.epochs[a].epoch.session), a, r.epochs[a]);
      assert Holds(ch.rosters, c, a, r.epochs[a].epoch) <==> c in IdsOf(ch, r.epochs[a].epoch.session);
    }
  }

  /** Listing returns exactly the accounts whose current live session is in the channel. */
  lemma ListIsMembership(cfg: Config, r: Registry, now: Time, ch: Channels, c: ChannelId, a: Account)
    requires Valid(cfg, r, now) && ValidChannels(cfg, r, now, ch)
    ensures a in ActiveMembers(r, ch, now, c) <==> IsMember(r, ch, c, a)
  {
    hide TidyRosters, OnlyIssued, Active;
    if c in ch.rosters {
      ActiveIsCurrent(cfg, r, now, ch, c, a);
      if IsMember(r, ch, c, a) { MemberIsScored(cfg, r, now, ch, c, a); }
    } else if a in r.epochs {
      assert Agrees(ch.rosters, IdsOf(ch, r.epochs[a].epoch.session), a, r.epochs[a]);
    }
  }

  lemma MemberIsScored(cfg: Config, r: Registry, now: Time, ch: Channels, c: ChannelId, a: Account)
    requires ValidChannels(cfg, r, now, ch) && IsMember(r, ch, c, a)
    ensures c in ch.rosters && a in ch.rosters[c].members && ch.rosters[c].members[a] == r.epochs[a].expiresAt
    ensures Lists(ch.rosters[c], a, r.epochs[a].epoch)
  {
    hide TidyRosters, OnlyIssued;
    assert Agrees(ch.rosters, IdsOf(ch, r.epochs[a].epoch.session), a, r.epochs[a]);
    assert Holds(ch.rosters, c, a, r.epochs[a].epoch);
  }

  lemma PrunedEffect(r: Registry, roster: Roster, now: Time)
    requires TidyRoster(now, roster)
    ensures var z := Pruned(r, roster, now);
      (z.Some? ==>
        TidyRoster(now, z.value) &&
        (forall a :: a in z.value.epochs ==>
          Lists(roster, a, z.value.epochs[a]) && z.value.members[a] == roster.members[a])) &&
      (forall a :: a in roster.members && Active(r, roster, now, a) ==> z.Some? && a in z.value.epochs)
  {
    hide Active;
    var active := ActiveIn(r, roster, now, roster.members.Keys);
    var gone := roster.members.Keys - active;
    RefreshTidies(now, roster.members - gone, roster.epochs - gone);
    forall a | a in roster.members && Active(r, roster, now, a)
      ensures a in roster.members - gone && roster.members[a] > now
    {
      assert a in active;
      ActiveIsAhead(r, roster, now, a);
    }
  }

  lemma ActiveIsAhead(r: Registry, roster: Roster, now: Time, a: Account)
    requires Active(r, roster, now, a)
    ensures a in roster.members && roster.members[a] > now
  {}

  lemma ListedAgrees(cfg: Config, r: Registry, now: Time, ch: Channels, c: ChannelId, a: Account)
    requires Valid(cfg, r, now) && ValidChannels(cfg, r, now, ch) && a in r.epochs
    ensures Agrees(Listed(r, ch, now, c).rosters, IdsOf(ch, r.epochs[a].epoch.session), a, r.epochs[a])
  {
    hide OnlyIssued, Pruned, Active, TidyRosters, AllAgree, Valid;
    var after, lease := Listed(r, ch, now, c).rosters, r.epochs[a];
    var ids := IdsOf(ch, lease.epoch.session);
    assert Agrees(ch.rosters, ids, a, lease) by { AgreesAt(ch, r.epochs, a); }
    forall d ensures d in ids <==> Holds(after, d, a, lease.epoch)
      ensures Holds(after, d, a, lease.epoch) ==> a in after[d].members && after[d].members[a] == lease.expiresAt
    {
      assert d in ids <==> Holds(ch.rosters, d, a, lease.epoch);
      if d == c && c in ch.rosters {
        TidyRosterAt(ch.rosters, now, c);
        PrunedEffect(r, ch.rosters[c], now);
        ActiveIsCurrent(cfg, r, now, ch, c, a);
      }
    }
  }

  lemma AgreesAt(ch: Channels, live: Live, a: Account)
    requires AllAgree(ch, live) && a in live
    ensures Agrees(ch.rosters, IdsOf(ch, live[a].epoch.session), a, live[a])
  {}

  lemma TidyRosterAt(rosters: map<ChannelId, Roster>, now: Time, c: ChannelId)
    requires TidyRosters(rosters, now) && c in rosters
    ensures TidyRoster(now, rosters[c])
  {}

  lemma ListedKeeps(cfg: Config, r: Registry, now: Time, ch: Channels, c: ChannelId)
    requires Valid(cfg, r, now) && ValidChannels(cfg, r, now, ch)
    ensures ValidChannels(cfg, r, now, Listed(r, ch, now, c))
  {
    hide Agrees, Pruned, Valid, Issued;
    var after := Listed(r, ch, now, c);
    if c in ch.rosters { PrunedEffect(r, ch.rosters[c], now); }
    forall a | a in r.epochs ensures Agrees(after.rosters, IdsOf(after, r.epochs[a].epoch.session), a, r.epochs[a]) {
      ListedAgrees(cfg, r, now, ch, c, a);
    }
  }
}
