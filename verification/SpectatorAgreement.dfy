/** Both directions of every spectator relation agree, and both epochs own it, after every script. */
module SpectatorAgreement {
  import opened Basics
  import opened RealtimeTypes
  import opened SessionRegistry
  import opened SpectatorRelations

  // ---------------------------------------------------------------- invariant

  ghost predicate ValidRelation(live: Live, now: Time, v: Account, relation: Relation) {
    relation.spectator == v && relation.host != v && now < relation.expiresAt &&
    Owns(live, v, relation.spectatorEpoch) && relation.expiresAt <= live[v].expiresAt &&
    Owns(live, relation.host, relation.hostEpoch) && relation.expiresAt <= live[relation.host].expiresAt
  }

  ghost predicate Owned(relations: map<Account, Relation>, live: Live, now: Time) {
    forall v :: v in relations ==> ValidRelation(live, now, v, relations[v])
  }

  /** The score of a viewer that has not run out. */
  function LiveScore(viewers: map<Account, SortedSet>, now: Time, h: Account, v: Account): Option<Time> {
    if h in viewers && v in viewers[h].scores && viewers[h].scores[v] > now then Some(viewers[h].scores[v]) else None
  }

  function Deadline(relations: map<Account, Relation>, h: Account, v: Account): Option<Time> {
    if v in relations && relations[v].host == h then Some(relations[v].expiresAt) else None
  }

  /** A viewer counts in a host's set exactly when its relation names that host, with the same deadline. */
  ghost predicate Mirrored(relations: map<Account, Relation>, viewers: map<Account, SortedSet>, now: Time) {
    forall h, v :: LiveScore(viewers, now, h, v) == Deadline(relations, h, v)
  }

  ghost predicate TidyViewers(cfg: Config, viewers: map<Account, SortedSet>, now: Time) {
    forall h :: h in viewers ==> Tidy(now, viewers[h]) && |viewers[h].scores.Keys| <= cfg.maxViewers
  }

  ghost predicate ValidSpectators(cfg: Config, live: Live, now: Time, sp: Spectators) {
    Owned(sp.relations, live, now) && Mirrored(sp.relations, sp.viewers, now) && TidyViewers(cfg, sp.viewers, now)
  }

  // ---------------------------------------------------------------- viewer sets

  lemma PutScores(viewers: map<Account, SortedSet>, now: Time, host: Account, scores: map<Account, Time>, h: Account,
                  v: Account)
    ensures LiveScore(Put(viewers, host, Refreshed(now, scores)), now, h, v) ==
      if h != host then LiveScore(viewers, now, h, v)
      else if v in scores && scores[v] > now then Some(scores[v]) else None
  {
    if h == host && v in scores && scores[v] > now {
      assert v in scores.Keys;
    }
  }

  lemma PutTidy(cfg: Config, viewers: map<Account, SortedSet>, now: Time, host: Account, scores: map<Account, Time>)
    requires TidyViewers(cfg, viewers, now) && |scores.Keys| <= cfg.maxViewers
    ensures TidyViewers(cfg, Put(viewers, host, Refreshed(now, scores)), now)
  {}

  lemma WithoutViewerScore(viewers: map<Account, SortedSet>, now: Time, host: Account, w: Account, h: Account,
                           v: Account)
    ensures LiveScore(WithoutViewer(viewers, now, host, w), now, h, v) ==
      if h == host && v == w then None else LiveScore(viewers, now, h, v)
  {
    hide Put, Refreshed;
    PutScores(viewers, now, host, ScoresOf(viewers, host) - {w}, h, v);
  }

  lemma Fewer(a: set<Account>, b: set<Account>)
    requires a <= b
    ensures |a| <= |b|
  {
    assert a + (b - a) == b;
    assert a !! b - a;
  }

  lemma WithoutViewerTidy(cfg: Config, viewers: map<Account, SortedSet>, now: Time, host: Account, w: Account)
    requires TidyViewers(cfg, viewers, now)
    ensures TidyViewers(cfg, WithoutViewer(viewers, now, host, w), now)
  {
    hide Put, Refreshed, Tidy;
    var scores := ScoresOf(viewers, host) - {w};
    Fewer(scores.Keys, ScoresOf(viewers, host).Keys);
    PutTidy(cfg, viewers, now, host, scores);
  }

  // ---------------------------------------------------------------- steps of the clock and of sessions

  lemma ExpireScore(cfg: Config, viewers: map<Account, SortedSet>, now: Time, later: Time, h: Account, v: Account)
    requires TidyViewers(cfg, viewers, now) && now <= later
    ensures LiveScore(Unexpired(viewers, later), later, h, v) ==
      var t := LiveScore(viewers, now, h, v);
      if t.Some? && t.value > later then t else None
  {
    if h in viewers { assert Tidy(now, viewers[h]); }
  }

  lemma ExpireSpectatorsKeeps(cfg: Config, live: Live, now: Time, later: Time, sp: Spectators)
    requires ValidSpectators(cfg, live, now, sp) && now <= later
    ensures ValidSpectators(cfg, Alive(live, later), later, ExpireSpectators(sp, later))
  {
    hide LiveScore, Tidy;
    var after := ExpireSpectators(sp, later);
    forall v | v in after.relations ensures ValidRelation(Alive(live, later), later, v, after.relations[v]) {
      assert ValidRelation(live, now, v, sp.relations[v]);
    }
    forall h, v ensures LiveScore(after.viewers, later, h, v) == Deadline(after.relations, h, v) {
      ExpireScore(cfg, sp.viewers, now, later, h, v);
      assert LiveScore(sp.viewers, now, h, v) == Deadline(sp.relations, h, v);
    }
    forall h | h in after.viewers ensures Tidy(later, after.viewers[h]) { TidyLater(now, later, sp.viewers[h]); }
  }

  lemma TidyLater(now: Time, later: Time, z: SortedSet)
    requires Tidy(now, z) && z.deadline > later
    ensures Tidy(later, z)
  {}

  lemma HostByEpoch(live: Live, now: Time, relations: map<Account, Relation>, account: Account, v: Account)
    requires Owned(relations, live, now) && OneOwner(live) && account in live && v in relations
    ensures Follows(relations, v, live[account].epoch) <==> relations[v].host == account
  {
    assert ValidRelation(live, now, v, relations[v]);
  }

  lemma SeveredAt(cfg: Config, live: Live, now: Time, sp: Spectators, account: Account, v: Account)
    requires ValidSpectators(cfg, live, now, sp) && OneOwner(live) && account in live && v in sp.relations &&
      v != account
    ensures v in Severed(sp, now, account, live[account].epoch).relations <==> sp.relations[v].host != account
  {
    hide WithoutViewer, TidyViewers, Owned, Follows, OneOwner;
    var epoch := live[account].epoch;
    var own := account in sp.relations && sp.relations[account].spectatorEpoch == epoch;
    var viewers := if own then WithoutViewer(sp.viewers, now, sp.relations[account].host, account) else sp.viewers;
    HostByEpoch(live, now, sp.relations, account, v);
    assert Follows(sp.relations - {account}, v, epoch) == Follows(sp.relations, v, epoch) by {
      FollowsWithout(sp.relations, account, v, epoch);
    }
    assert LiveScore(sp.viewers, now, account, v) == Deadline(sp.relations, account, v);
    if own { WithoutViewerScore(sp.viewers, now, sp.relations[account].host, account, account, v); }
    ScoreOfMember(viewers, now, account, v);
  }

  lemma FollowsWithout(relations: map<Account, Relation>, account: Account, v: Account, epoch: Epoch)
    requires v != account
    ensures Follows(relations - {account}, v, epoch) == Follows(relations, v, epoch)
  {}

  /** After both directions are cut and the account's keys deleted, no relation names the account any more. */
  lemma SeveredEffect(cfg: Config, live: Live, now: Time, sp: Spectators, account: Account)
    requires ValidSpectators(cfg, live, now, sp) && OneOwner(live) && account in live
    ensures Cleared(Severed(sp, now, account, live[account].epoch), account).relations ==
      map v | v in sp.relations && v != account && sp.relations[v].host != account :: sp.relations[v]
  {
    hide WithoutViewer, TidyViewers, Owned, OneOwner, Mirrored, ValidSpectators, Follows;
    forall v | v in sp.relations && v != account
      ensures v in Severed(sp, now, account, live[account].epoch).relations <==> sp.relations[v].host != account
    {
      SeveredAt(cfg, live, now, sp, account, v);
    }
  }

  lemma SeveredScore(cfg: Config, live: Live, now: Time, sp: Spectators, account: Account, h: Account, v: Account)
    requires ValidSpectators(cfg, live, now, sp) && account in live
    ensures LiveScore(Cleared(Severed(sp, now, account, live[account].epoch), account).viewers, now, h, v) ==
      if h == account || v == account then None else LiveScore(sp.viewers, now, h, v)
  {
    hide WithoutViewer, TidyViewers, Unfollowed;
    if account in sp.relations {
      assert ValidRelation(live, now, account, sp.relations[account]);
      WithoutViewerScore(sp.viewers, now, sp.relations[account].host, account, h, v);
    }
    assert LiveScore(sp.viewers, now, h, v) == Deadline(sp.relations, h, v);
  }

  lemma SeveredKeeps(cfg: Config, live: Live, now: Time, sp: Spectators, account: Account, after: Live)
    requires ValidSpectators(cfg, live, now, sp) && OneOwner(live) && account in live
    requires forall a :: a in live && a != account ==> a in after && after[a] == live[a]
    ensures ValidSpectators(cfg, after, now, Cleared(Severed(sp, now, account, live[account].epoch), account))
  {
    hide Severed, LiveScore, TidyViewers;
    var cut := Cleared(Severed(sp, now, account, live[account].epoch), account);
    SeveredEffect(cfg, live, now, sp, account);
    forall v | v in cut.relations ensures ValidRelation(after, now, v, cut.relations[v]) {
      assert ValidRelation(live, now, v, sp.relations[v]);
    }
    forall h, v ensures LiveScore(cut.viewers, now, h, v) == Deadline(cut.relations, h, v) {
      SeveredScore(cfg, live, now, sp, account, h, v);
      assert LiveScore(sp.viewers, now, h, v) == Deadline(sp.relations, h, v);
    }
    assert TidyViewers(cfg, cut.viewers, now) by { SeveredTidy(cfg, now, sp, account, live[account].epoch); }
  }

  lemma SeveredTidy(cfg: Config, now: Time, sp: Spectators, account: Account, epoch: Epoch)
    requires TidyViewers(cfg, sp.viewers, now)
    ensures TidyViewers(cfg, Cleared(Severed(sp, now, account, epoch), account).viewers, now)
  {
    hide WithoutViewer, Unfollowed, Tidy;
    if account in sp.relations { WithoutViewerTidy(cfg, sp.viewers, now, sp.relations[account].host, account); }
  }

  /** An account without a live session has no relations, so deleting its keys cuts nothing. */
  lemma ClearedKeeps(cfg: Config, live: Live, now: Time, sp: Spectators, account: Account, after: Live)
    requires ValidSpectators(cfg, live, now, sp) && account !in live
    requires forall a :: a in live ==> a in after && after[a] == live[a]
    ensures ValidSpectators(cfg, after, now, Cleared(sp, account)) && Cleared(sp, account).relations == sp.relations
  {
    hide LiveScore, TidyViewers;
    var cut := Cleared(sp, account);
    forall v | v in sp.relations
      ensures ValidRelation(after, now, v, sp.relations[v]) && v != account && sp.relations[v].host != account
    {
      assert ValidRelation(live, now, v, sp.relations[v]);
    }
    assert cut.relations == sp.relations;
    forall h, v ensures LiveScore(cut.viewers, now, h, v) == Deadline(cut.relations, h, v) {
      ClearedScore(sp, now, account, h, v);
      assert LiveScore(sp.viewers, now, h, v) == Deadline(sp.relations, h, v);
    }
    assert TidyViewers(cfg, cut.viewers, now) by { ClearedTidy(cfg, now, sp, account); }
  }

  lemma ClearedScore(sp: Spectators, now: Time, account: Account, h: Account, v: Account)
    ensures LiveScore(Cleared(sp, account).viewers, now, h, v) == if h ==
      account then None else LiveScore(sp.viewers, now, h, v)
  {}

  lemma ClearedTidy(cfg: Config, now: Time, sp: Spectators, account: Account)
    requires TidyViewers(cfg, sp.viewers, now)
    ensures TidyViewers(cfg, Cleared(sp, account).viewers, now)
  {
    hide Tidy;
  }

  // ---------------------------------------------------------------- heartbeat

  lemma AddViewerTidy(cfg: Config, viewers: map<Account, SortedSet>, now: Time, host: Account, v: Account, t: Time)
    requires TidyViewers(cfg, viewers, now)
    requires v in ScoresOf(viewers, host) || |ScoresOf(viewers, host).Keys| < cfg.maxViewers
    ensures TidyViewers(cfg, Put(viewers, host, Refreshed(now, ScoresOf(viewers, host)[v := t])), now)
  {
    hide Put, Refreshed, Tidy;
    var scores := ScoresOf(viewers, host);
    assert scores[v := t].Keys == scores.Keys + {v};
    PutTidy(cfg, viewers, now, host, scores[v := t]);
  }

  lemma RenewOwnKeeps(cfg: Config, r: Registry, now: Time, sp: Spectators, account: Account)
    requires Valid(cfg, r, now) && ValidSpectators(cfg, r.epochs, now, sp) && account in r.epochs
    ensures ValidSpectators(cfg, r.epochs, now,
      RenewedOwn(sp, r, now, account, r.epochs[account].epoch, r.epochs[account].expiresAt))
  {
    hide LiveScore, TidyViewers, Put, Refreshed;
    var lease := r.epochs[account];
    var after := RenewedOwn(sp, r, now, account, lease.epoch, lease.expiresAt);
    if account in sp.relations {
      var relation := sp.relations[account];
      assert ValidRelation(r.epochs, now, account, relation);
      assert EpochNamesSession(cfg, r, now, account) && EpochNamesSession(cfg, r, now, relation.host);
      var until := Min(lease.expiresAt, r.epochs[relation.host].expiresAt);
      var scores := ScoresOf(sp.viewers, relation.host)[account := until];
      forall h, v ensures LiveScore(after.viewers, now, h, v) == Deadline(after.relations, h, v) {
        PutScores(sp.viewers, now, relation.host, scores, h, v);
        assert LiveScore(sp.viewers, now, h, v) == Deadline(sp.relations, h, v);
        ScoreOfMember(sp.viewers, now, relation.host, v);
      }
      assert TidyViewers(cfg, after.viewers, now) by {
        assert LiveScore(sp.viewers, now, relation.host, account).Some?;
        ScoreOfMember(sp.viewers, now, relation.host, account);
        AddViewerTidy(cfg, sp.viewers, now, relation.host, account, until);
      }
      forall v | v in after.relations ensures ValidRelation(r.epochs, now, v, after.relations[v]) {
        assert ValidRelation(r.epochs, now, v, sp.relations[v]);
      }
    }
  }

  lemma ScoreOfMember(viewers: map<Account, SortedSet>, now: Time, h: Account, v: Account)
    ensures LiveScore(viewers, now, h, v) ==
      var scores := ScoresOf(viewers, h);
      if v in scores && scores[v] > now then Some(scores[v]) else None
  {}

  lemma LongerKeeps(cfg: Config, live: Live, now: Time, sp: Spectators, account: Account, expiresAt: Time)
    requires ValidSpectators(cfg, live, now, sp) && account in live && live[account].expiresAt <= expiresAt
    ensures ValidSpectators(cfg, live[account := live[account].(expiresAt := expiresAt)], now, sp)
  {
    hide Mirrored, TidyViewers;
    var longer := live[account := live[account].(expiresAt := expiresAt)];
    forall v | v in sp.relations ensures ValidRelation(longer, now, v, sp.relations[v]) {
      assert ValidRelation(live, now, v, sp.relations[v]);
    }
  }

  /** Every member of a host's set with a relation naming the host is still watching, and has a score. */
  lemma WatchersAreValid(cfg: Config, r: Registry, now: Time, sp: Spectators, account: Account, v: Account)
    requires Valid(cfg, r, now) && ValidSpectators(cfg, r.epochs, now, sp) && account in r.epochs
    ensures var watching := v in sp.relations && sp.relations[v].host == account;
      (StillWatches(sp.relations, r, now, r.epochs[account].epoch, v) <==> watching) &&
      (Follows(sp.relations, v, r.epochs[account].epoch) <==> watching) &&
      (watching ==>
        v in ScoresOf(sp.viewers, account) && v in r.epochs &&
        WatchUntil(sp.relations, r, r.epochs[account].expiresAt, v) ==
          Min(r.epochs[account].expiresAt, r.epochs[v].expiresAt))
  {
    hide TidyViewers;
    SessionsHaveOneOwner(cfg, r, now);
    if v in sp.relations {
      HostByEpoch(r.epochs, now, sp.relations, account, v);
      assert ValidRelation(r.epochs, now, v, sp.relations[v]);
      assert EpochNamesSession(cfg, r, now, v);
      assert LiveScore(sp.viewers, now, account, v) == Deadline(sp.relations, account, v);
    }
  }

  lemma RenewViewersAt(cfg: Config, r: Registry, now: Time, sp: Spectators, account: Account, h: Account, v: Account)
    requires Valid(cfg, r, now) && ValidSpectators(cfg, r.epochs, now, sp) && account in r.epochs
    ensures var after := RenewedViewers(sp, r, now, account, r.epochs[account].epoch, r.epochs[account].expiresAt);
      (v in after.relations <==> v in sp.relations) &&
      (v in after.relations ==>
        after.relations[v] ==
        if sp.relations[v].host == account
        then sp.relations[v].(expiresAt := Min(r.epochs[account].expiresAt, r.epochs[v].expiresAt))
        else sp.relations[v]) &&
      LiveScore(after.viewers, now, h, v) == Deadline(after.relations, h, v)
  {
    hide LiveScore, TidyViewers, Put, Refreshed, StillWatches, WatchUntil, Follows, Valid;
    var lease, scores := r.epochs[account], ScoresOf(sp.viewers, account);
    WatchersAreValid(cfg, r, now, sp, account, v);
    if v in sp.relations { assert ValidRelation(r.epochs, now, v, sp.relations[v]); }
    assert LiveScore(sp.viewers, now, h, v) == Deadline(sp.relations, h, v);
    var keep := w => StillWatches(sp.relations, r, now, lease.epoch, w);
    var kept := KeptScores(scores, scores.Keys, keep, w => WatchUntil(sp.relations, r, lease.expiresAt, w));
    PutScores(sp.viewers, now, account, kept, h, v);
  }

  lemma RenewViewersKeeps(cfg: Config, r: Registry, now: Time, sp: Spectators, account: Account)
    requires Valid(cfg, r, now) && ValidSpectators(cfg, r.epochs, now, sp) && account in r.epochs
    ensures ValidSpectators(cfg, r.epochs, now,
      RenewedViewers(sp, r, now, account, r.epochs[account].epoch, r.epochs[account].expiresAt))
  {
    hide RenewedViewers, LiveScore, TidyViewers, Valid;
    var after := RenewedViewers(sp, r, now, account, r.epochs[account].epoch, r.epochs[account].expiresAt);
    forall h, v ensures LiveScore(after.viewers, now, h, v) == Deadline(after.relations, h, v) {
      RenewViewersAt(cfg, r, now, sp, account, h, v);
    }
    forall v | v in after.relations ensures ValidRelation(r.epochs, now, v, after.relations[v]) {
      RenewViewersAt(cfg, r, now, sp, account, account, v);
      assert ValidRelation(r.epochs, now, v, sp.relations[v]);
      LeaseIsAhead(cfg, r, now, account);
      LeaseIsAhead(cfg, r, now, v);
    }
    assert TidyViewers(cfg, after.viewers, now) by {
      RenewViewersTidy(cfg, r, now, sp, account, r.epochs[account].epoch, r.epochs[account].expiresAt);
    }
  }

  lemma LeaseIsAhead(cfg: Config, r: Registry, now: Time, a: Account)
    requires Valid(cfg, r, now)
    ensures a in r.epochs ==> r.epochs[a].expiresAt > now
  {
    if a in r.epochs { assert EpochNamesSession(cfg, r, now, a); }
  }

  lemma KeptTidy(cfg: Config, viewers: map<Account, SortedSet>, now: Time, host: Account, keep: Account -> bool,
                 score: Account -> Time)
    requires TidyViewers(cfg, viewers, now)
    ensures var scores := ScoresOf(viewers, host);
      TidyViewers(cfg, Put(viewers, host, Refreshed(now, KeptScores(scores, scores.Keys, keep, score))), now)
  {
    hide Put, Refreshed, Tidy;
    var scores := ScoresOf(viewers, host);
    var kept := KeptScores(scores, scores.Keys, keep, score);
    Fewer(kept.Keys, scores.Keys);
    PutTidy(cfg, viewers, now, host, kept);
  }

  lemma RenewViewersTidy(cfg: Config, r: Registry, now: Time, sp: Spectators, account: Account, epoch: Epoch,
                         expiresAt: Time)
    requires TidyViewers(cfg, sp.viewers, now)
    ensures TidyViewers(cfg, RenewedViewers(sp, r, now, account, epoch, expiresAt).viewers, now)
  {
    hide TidyViewers, Put, Refreshed, KeptScores, Doomed, Restamped;
    KeptTidy(cfg, sp.viewers, now, account, v => StillWatches(sp.relations, r, now, epoch, v),
      v => WatchUntil(sp.relations, r, expiresAt, v));
  }

  // ---------------------------------------------------------------- the spectator scripts

  lemma AttachKeeps(cfg: Config, live: Live, now: Time, sp: Spectators, relation: Relation, counterDeadline: Time)
    requires ValidSpectators(cfg, live, now, sp) && ValidRelation(live, now, relation.spectator, relation)
    requires !ViewerLimit(cfg, sp, relation.host, relation.spectator)
    ensures ValidSpectators(cfg, live, now, Attach(sp, now, relation, counterDeadline))
  {
    hide LiveScore, TidyViewers, Put, Refreshed, WithoutViewer;
    var v0, after := relation.spectator, Attach(sp, now, relation, counterDeadline);
    var mid := if v0 in sp.relations then WithoutViewer(sp.viewers, now, sp.relations[v0].host, v0) else sp.viewers;
    forall h, v ensures LiveScore(after.viewers, now, h, v) == Deadline(after.relations, h, v) {
      PutScores(mid, now, relation.host, ScoresOf(mid, relation.host)[v0 := relation.expiresAt], h, v);
      ScoreOfMember(mid, now, relation.host, v);
      if v0 in sp.relations { WithoutViewerScore(sp.viewers, now, sp.relations[v0].host, v0, h, v); }
      assert LiveScore(sp.viewers, now, h, v) == Deadline(sp.relations, h, v);
    }
    assert TidyViewers(cfg, after.viewers, now) by { AttachTidy(cfg, now, sp, relation); }
  }

  lemma AttachTidy(cfg: Config, now: Time, sp: Spectators, relation: Relation)
    requires TidyViewers(cfg, sp.viewers, now) && !ViewerLimit(cfg, sp, relation.host, relation.spectator)
    ensures TidyViewers(cfg, Attach(sp, now, relation, 0).viewers, now)
  {
    hide TidyViewers, Put, Refreshed;
    var v := relation.spectator;
    ScoresBounded(cfg, sp.viewers, now, relation.host);
    if v in sp.relations {
      WithoutViewerTidy(cfg, sp.viewers, now, sp.relations[v].host, v);
      WithoutViewerSize(sp.viewers, now, sp.relations[v].host, v, relation.host);
      AddViewerTidy(cfg, WithoutViewer(sp.viewers, now, sp.relations[v].host, v), now, relation.host, v,
        relation.expiresAt);
    } else {
      AddViewerTidy(cfg, sp.viewers, now, relation.host, v, relation.expiresAt);
    }
  }

  lemma ScoresBounded(cfg: Config, viewers: map<Account, SortedSet>, now: Time, host: Account)
    requires TidyViewers(cfg, viewers, now)
    ensures |ScoresOf(viewers, host)| == |ScoresOf(viewers, host).Keys| <= cfg.maxViewers
  {}

  lemma WithoutViewerSize(viewers: map<Account, SortedSet>, now: Time, host: Account, w: Account, h: Account)
    ensures var after := ScoresOf(WithoutViewer(viewers, now, host, w), h).Keys;
      after <= ScoresOf(viewers, h).Keys && |after| <= |ScoresOf(viewers, h).Keys| &&
      (w in ScoresOf(viewers, h) && w !in after ==> |after| < |ScoresOf(viewers, h).Keys|)
  {
    var before, after := ScoresOf(viewers, h).Keys, ScoresOf(WithoutViewer(viewers, now, host, w), h).Keys;
    assert after <= before;
    Fewer(after, before);
    if w in before && w !in after { Fewer(after, before - {w}); }
  }

  lemma DetachKeeps(cfg: Config, live: Live, now: Time, sp: Spectators, v0: Account)
    requires ValidSpectators(cfg, live, now, sp) && v0 in sp.relations
    ensures ValidSpectators(cfg, live, now, Detach(sp, now, sp.relations[v0].host, v0))
  {
    hide LiveScore, TidyViewers, WithoutViewer;
    var host := sp.relations[v0].host;
    var after := Detach(sp, now, host, v0);
    forall h, v ensures LiveScore(after.viewers, now, h, v) == Deadline(after.relations, h, v) {
      WithoutViewerScore(sp.viewers, now, host, v0, h, v);
      assert LiveScore(sp.viewers, now, h, v) == Deadline(sp.relations, h, v);
    }
    WithoutViewerTidy(cfg, sp.viewers, now, host, v0);
  }

  /** A sweep that deletes exactly the relations of the host's viewers it does not keep. */
  lemma SweptKeeps(cfg: Config, live: Live, now: Time, sp: Spectators, host: Account, keep: Account -> bool,
                   doom: Account -> bool)
    requires ValidSpectators(cfg, live, now, sp)
    requires forall v :: keep(v) ==> v in sp.relations && sp.relations[v].host == host
    requires forall v :: doom(v) <==> v in sp.relations && sp.relations[v].host == host
    ensures ValidSpectators(cfg, live, now, Swept(sp, now, host, keep, doom))
  {
    hide LiveScore, TidyViewers, Put, Refreshed;
    var scores, after := ScoresOf(sp.viewers, host), Swept(sp, now, host, keep, doom);
    var kept := KeptScores(scores, scores.Keys, keep, v => ScoreIn(scores, v));
    forall h, v ensures LiveScore(after.viewers, now, h, v) == Deadline(after.relations, h, v) {
      PutScores(sp.viewers, now, host, kept, h, v);
      ScoreOfMember(sp.viewers, now, host, v);
      assert LiveScore(sp.viewers, now, h, v) == Deadline(sp.relations, h, v);
    }
    assert TidyViewers(cfg, after.viewers, now) by {
      KeptTidy(cfg, sp.viewers, now, host, keep, v => ScoreIn(scores, v));
    }
  }

  /** The recipients of a frame are exactly the accounts whose live relation names this host epoch. */
  lemma RecipientsAreViewers(cfg: Config, r: Registry, now: Time, sp: Spectators, host: Account, v: Account)
    requires Valid(cfg, r, now) && ValidSpectators(cfg, r.epochs, now, sp) && host in r.epochs
    ensures var epoch := r.epochs[host].epoch;
      var recipients := ListedRelations(sp, host, w => Reachable(sp.relations, r, now, host, epoch, w));
      v in recipients <==> v in sp.relations && sp.relations[v].host == host && sp.relations[v].hostEpoch == epoch
  {
    hide TidyViewers;
    if v in sp.relations {
      assert ValidRelation(r.epochs, now, v, sp.relations[v]);
      assert LiveScore(sp.viewers, now, host, v) == Deadline(sp.relations, host, v);
      ReachableWhenOwned(cfg, r, now, sp, host, v);
    }
  }

  lemma ReachableWhenOwned(cfg: Config, r: Registry, now: Time, sp: Spectators, host: Account, v: Account)
    requires Valid(cfg, r, now) && Owned(sp.relations, r.epochs, now) && host in r.epochs && v in sp.relations
    ensures Reachable(sp.relations, r, now, host, r.epochs[host].epoch, v) <==> sp.relations[v].host == host
    ensures Named(sp.relations, host, r.epochs[host].epoch, v) <==> sp.relations[v].host == host
  {
    hide Valid;
    assert ValidRelation(r.epochs, now, v, sp.relations[v]);
    LeaseIsAhead(cfg, r, now, v);
    StatusIsOwnership(cfg, r, now, v, sp.relations[v].spectatorEpoch, now);
  }

  /** The listing returns exactly the viewers whose relation to this host outlives the asked time. */
  lemma ListedAreViewers(cfg: Config, r: Registry, now: Time, sp: Spectators, host: Account, at: Time, v: Account)
    requires Valid(cfg, r, now) && ValidSpectators(cfg, r.epochs, now, sp) && host in r.epochs && now <= at
    ensures var epoch := r.epochs[host].epoch;
      v in ListedRelations(sp, host, w => Listable(sp.relations, r, at, host, epoch, w)) <==>
      v in sp.relations && sp.relations[v].host == host && sp.relations[v].expiresAt > at
  {
    hide TidyViewers;
    if v in sp.relations {
      assert ValidRelation(r.epochs, now, v, sp.relations[v]);
      assert EpochNamesSession(cfg, r, now, v);
      assert LiveScore(sp.viewers, now, host, v) == Deadline(sp.relations, host, v);
    }
  }
}
