/** Spectator relations in both directions: one relation per viewer, one sorted set of viewers per host. */
module SpectatorRelations {
  import opened Basics
  import opened RealtimeTypes
  import opened SessionRegistry

  datatype Relation = Relation(
    host: Account,
    spectator: Account,
    relationId: nat,
    revision: nat,
    hostEpoch: Epoch,
    spectatorEpoch: Epoch,
    expiresAt: Time)

  datatype Spectators = Spectators(
    relations: map<Account, Relation>,
    revisions: map<Account, Counter>,
    viewers: map<Account, SortedSet>)

  function NoSpectators(): Spectators { Spectators(map[], map[], map[]) }

  function ExpireSpectators(sp: Spectators, now: Time): Spectators {
    Spectators(
      map v | v in sp.relations && sp.relations[v].expiresAt > now :: sp.relations[v],
      map v | v in sp.revisions && sp.revisions[v].deadline > now :: sp.revisions[v],
      Unexpired(sp.viewers, now))
  }

  // ---------------------------------------------------------------- removing and sweeping

  function WithoutViewer(viewers: map<Account, SortedSet>, now: Time, host: Account,
                         v: Account): map<Account, SortedSet> {
    Put(viewers, host, Refreshed(now, ScoresOf(viewers, host) - {v}))
  }

  predicate Follows(relations: map<Account, Relation>, v: Account, hostEpoch: Epoch) {
    v in relations && relations[v].hostEpoch == hostEpoch
  }

  /** The relations left once those of the given viewers that name the host epoch are deleted. */
  function Unfollowed(relations: map<Account, Relation>, among: set<Account>,
                      hostEpoch: Epoch): map<Account, Relation> {
    map v | v in relations && !(v in among && Follows(relations, v, hostEpoch)) :: relations[v]
  }

  lemma UnfollowedStep(relations: map<Account, Relation>, among: set<Account>, hostEpoch: Epoch, v: Account)
    requires v !in among
    ensures Unfollowed(relations, {}, hostEpoch) == relations
    ensures Follows(Unfollowed(relations, among, hostEpoch), v, hostEpoch) == Follows(relations, v, hostEpoch)
    ensures Unfollowed(relations, among + {v}, hostEpoch) ==
      if Follows(relations, v, hostEpoch) then Unfollowed(relations, among, hostEpoch) - {v}
      else Unfollowed(relations, among, hostEpoch)
  {}

  method Unfollow(relations: map<Account, Relation>, among: set<Account>, hostEpoch: Epoch)
    returns (left: map<Account, Relation>)
    ensures left == Unfollowed(relations, among, hostEpoch)
  {
    hide Unfollowed, Follows;
    left := relations;
    var rest := among;
    ghost var seen: set<Account> := {};
    UnfollowedStep(relations, seen, hostEpoch, Account(0));
    while rest != {}
      invariant seen !! rest && seen + rest == among && left == Unfollowed(relations, seen, hostEpoch)
      decreases |rest|
    {
      var v :| v in rest;
      UnfollowedStep(relations, seen, hostEpoch, v);
      rest := rest - {v};
      seen := seen + {v};
      if Follows(left, v, hostEpoch) { left := left - {v}; }
    }
    assert seen == among;
  }

  /** Both directions cut for an epoch: its own relation, then every relation that names it as host. */
  function Severed(sp: Spectators, now: Time, account: Account, epoch: Epoch): Spectators {
    var own := account in sp.relations && sp.relations[account].spectatorEpoch == epoch;
    var viewers := if own then WithoutViewer(sp.viewers, now, sp.relations[account].host, account) else sp.viewers;
    var relations := if own then sp.relations - {account} else sp.relations;
    sp.(relations := Unfollowed(relations, ScoresOf(viewers, account).Keys, epoch), viewers := viewers)
  }

  function Cleared(sp: Spectators, account: Account): Spectators {
    Spectators(sp.relations - {account}, sp.revisions - {account}, sp.viewers - {account})
  }

  function KeptScores(scores: map<Account, Time>, among: set<Account>, keep: Account -> bool,
                      score: Account -> Time): map<Account, Time> {
    map v | v in scores && v in among && keep(v) :: score(v)
  }

  function Doomed(among: set<Account>, keep: Account -> bool, doom: Account -> bool): set<Account> {
    set v | v in among && !keep(v) && doom(v)
  }

  lemma SweepStep(scores: map<Account, Time>, among: set<Account>, keep: Account -> bool, doom: Account -> bool,
                  score: Account -> Time, v: Account)
    requires v !in among && v in scores
    ensures keep(v) ==>
      KeptScores(scores, among + {v}, keep, score) == KeptScores(scores, among, keep, score)[v := score(v)] &&
      Doomed(among + {v}, keep, doom) == Doomed(among, keep, doom)
    ensures !keep(v) ==>
      KeptScores(scores, among + {v}, keep, score) == KeptScores(scores, among, keep, score) &&
      Doomed(among + {v}, keep, doom) == Doomed(among, keep, doom) + if doom(v) then {v} else {}
  {}

  /** The loop shared by the scripts that walk a host's viewers. */
  method SweepViewers(scores: map<Account, Time>, keep: Account -> bool, doom: Account -> bool, score: Account -> Time)
    returns (kept: map<Account, Time>, doomed: set<Account>)
    ensures kept == KeptScores(scores, scores.Keys, keep, score) && doomed == Doomed(scores.Keys, keep, doom)
  {
    hide KeptScores, Doomed;
    kept, doomed := map[], {};
    var rest := scores.Keys;
    ghost var seen: set<Account> := {};
    NothingSwept(scores, keep, doom, score);
    while rest != {}
      invariant seen !! rest && seen + rest == scores.Keys
      invariant kept == KeptScores(scores, seen, keep, score) && doomed == Doomed(seen, keep, doom)
      decreases |rest|
    {
      var v :| v in rest;
      SweepStep(scores, seen, keep, doom, score, v);
      rest := rest - {v};
      seen := seen + {v};
      if keep(v) {
        kept := kept[v := score(v)];
      } else if doom(v) {
        doomed := doomed + {v};
      }
    }
    assert seen == scores.Keys;
  }

  lemma NothingSwept(scores: map<Account, Time>, keep: Account -> bool, doom: Account -> bool, score: Account -> Time)
    ensures KeptScores(scores, {}, keep, score) == map[] && Doomed({}, keep, doom) == {}
  {}

  // ---------------------------------------------------------------- the scripts' effects

  predicate SessionAhead(r: Registry, session: SessionId, at: Time) {
    session in r.sessions && r.sessions[session].expiresAt > at
  }

  /** A heartbeat renews the relation the epoch holds as a viewer, or drops it when the host is gone. */
  function RenewedOwn(sp: Spectators, r: Registry, now: Time, account: Account, epoch: Epoch,
                      expiresAt: Time): Spectators {
    if account in sp.relations && sp.relations[account].spectatorEpoch == epoch then
      var relation := sp.relations[account];
      if SessionAhead(r, relation.hostEpoch.session, now) && Owns(r.epochs, relation.host, relation.hostEpoch) then
        var until := Min(expiresAt, r.sessions[relation.hostEpoch.session].expiresAt);
        sp.(relations := sp.relations[account := relation.(expiresAt := until)],
            viewers := Put(sp.viewers, relation.host,
              Refreshed(now, ScoresOf(sp.viewers, relation.host)[account := until])))
      else
        sp.(relations := sp.relations - {account})
    else sp
  }

  predicate StillWatches(relations: map<Account, Relation>, r: Registry, now: Time, epoch: Epoch, v: Account) {
    Follows(relations, v, epoch) && SessionAhead(r, relations[v].spectatorEpoch.session, now) &&
    Owns(r.epochs, v, relations[v].spectatorEpoch)
  }

  function WatchUntil(relations: map<Account, Relation>, r: Registry, expiresAt: Time, v: Account): Time {
    if v in relations && relations[v].spectatorEpoch.session in r.sessions
    then Min(expiresAt, r.sessions[relations[v].spectatorEpoch.session].expiresAt) else 0
  }

  function Restamped(relations: map<Account, Relation>, doomed: set<Account>, kept: map<Account,
                     Time>): map<Account, Relation> {
    map v | v in relations && v !in doomed :: if v in kept then relations[v].(expiresAt := kept[v]) else relations[v]
  }

  /** A heartbeat renews every valid viewer of the epoch and drops the others. */
  function RenewedViewers(sp: Spectators, r: Registry, now: Time, account: Account, epoch: Epoch,
                          expiresAt: Time): Spectators {
    var scores := ScoresOf(sp.viewers, account);
    var keep := v => StillWatches(sp.relations, r, now, epoch, v);
    var kept := KeptScores(scores, scores.Keys, keep, v => WatchUntil(sp.relations, r, expiresAt, v));
    var doomed := Doomed(scores.Keys, keep, v => Follows(sp.relations, v, epoch));
    sp.(relations := Restamped(sp.relations, doomed, kept),
        viewers := Put(sp.viewers, account, Refreshed(now, kept)))
  }

  method RenewViewers(sp: Spectators, r: Registry, now: Time, account: Account, epoch: Epoch, expiresAt: Time)
    returns (after: Spectators)
    ensures after == RenewedViewers(sp, r, now, account, epoch, expiresAt)
  {
    hide StillWatches, WatchUntil, Follows, Restamped, KeptScores, Doomed, Refreshed, Put;
    var kept, doomed := SweepViewers(ScoresOf(sp.viewers, account),
      v => StillWatches(sp.relations, r, now, epoch, v),
      v => Follows(sp.relations, v, epoch),
      v => WatchUntil(sp.relations, r, expiresAt, v));
    after := sp.(relations := Restamped(sp.relations, doomed, kept),
                 viewers := Put(sp.viewers, account, Refreshed(now, kept)));
  }

  predicate ViewerLimit(cfg: Config, sp: Spectators, host: Account, v: Account) {
    v !in ScoresOf(sp.viewers, host) && |ScoresOf(sp.viewers, host)| >= cfg.maxViewers
  }

  function RelationRevision(sp: Spectators, v: Account): nat {
    if v in sp.revisions then sp.revisions[v].value else 0
  }

  function Attach(sp: Spectators, now: Time, relation: Relation, counterDeadline: Time): Spectators {
    var v := relation.spectator;
    var viewers := if v in sp.relations then WithoutViewer(sp.viewers, now, sp.relations[v].host, v) else sp.viewers;
    Spectators(
      sp.relations[v := relation],
      sp.revisions[v := Counter(relation.revision, counterDeadline)],
      Put(viewers, relation.host, Refreshed(now, ScoresOf(viewers, relation.host)[v := relation.expiresAt])))
  }

  function Detach(sp: Spectators, now: Time, host: Account, v: Account): Spectators {
    sp.(relations := sp.relations - {v}, viewers := WithoutViewer(sp.viewers, now, host, v))
  }

  /** The relation as its viewer may still see it. */
  predicate Visible(r: Registry, relation: Relation, epoch: Epoch, at: Time) {
    relation.expiresAt > at && relation.spectatorEpoch == epoch && Owns(r.epochs, relation.host, relation.hostEpoch) &&
    SessionAhead(r, relation.hostEpoch.session, at)
  }

  /** The viewer as the host's listing may still return it. */
  predicate Listable(relations: map<Account, Relation>, r: Registry, at: Time, host: Account, epoch: Epoch,
                     v: Account) {
    v in relations && relations[v].host == host && relations[v].hostEpoch == epoch && relations[v].expiresAt > at &&
    Owns(r.epochs, v, relations[v].spectatorEpoch) && SessionAhead(r, relations[v].spectatorEpoch.session, at)
  }

  /** The viewer as a recipient of a published frame. */
  predicate Reachable(relations: map<Account, Relation>, r: Registry, now: Time, host: Account, epoch: Epoch,
                      v: Account) {
    v in relations && relations[v].host == host && relations[v].spectator == v && relations[v].hostEpoch == epoch &&
    relations[v].expiresAt > now && StatusOf(r, v, relations[v].spectatorEpoch, now).Current?
  }

  predicate Named(relations: map<Account, Relation>, host: Account, epoch: Epoch, v: Account) {
    Follows(relations, v, epoch) && relations[v].host == host
  }

  function Swept(sp: Spectators, now: Time, host: Account, keep: Account -> bool, doom: Account -> bool): Spectators {
    var scores := ScoresOf(sp.viewers, host);
    sp.(relations := sp.relations - Doomed(scores.Keys, keep, doom),
        viewers := Put(sp.viewers, host,
          Refreshed(now, KeptScores(scores, scores.Keys, keep, v => ScoreIn(scores, v)))))
  }

  function ScoreIn(scores: map<Account, Time>, v: Account): Time { if v in scores then scores[v] else 0 }

  function ListedRelations(sp: Spectators, host: Account, keep: Account -> bool): map<Account, Relation> {
    map v | v in sp.relations && v in ScoresOf(sp.viewers, host) && keep(v) :: sp.relations[v]
  }

  method SweepHost(sp: Spectators, now: Time, host: Account, keep: Account -> bool, doom: Account -> bool)
    returns (after: Spectators, relations: map<Account, Relation>)
    ensures after == Swept(sp, now, host, keep, doom) && relations == ListedRelations(sp, host, keep)
  {
    hide KeptScores, Doomed, Refreshed, Put, ScoreIn;
    var scores := ScoresOf(sp.viewers, host);
    var kept, doomed := SweepViewers(scores, keep, doom, v => ScoreIn(scores, v));
    after := sp.(relations := sp.relations - doomed, viewers := Put(sp.viewers, host, Refreshed(now, kept)));
    relations := map v | v in sp.relations && v in scores && keep(v) :: sp.relations[v];
  }
}
