/** Sessions, account epochs and revision counters. */
module SessionRegistry {
  import opened Basics
  import opened RealtimeTypes

  datatype Session = Session(account: Account, revision: nat, expiresAt: Time, durable: Time)

  datatype Counter = Counter(value: nat, deadline: Time)

  datatype Registry = Registry(
    sessions: map<SessionId, Session>,
    epochs: Live,
    counters: map<SessionId, Counter>)

  datatype Status = Current(expiresAt: Time, durable: Time) | NotFound | Fenced

  datatype Opening = InvalidExpiry | RevisionOverflow | Refused | Granted(revision: nat, expiresAt: Time)

  function Empty(): Registry { Registry(map[], map[], map[]) }

  // ---------------------------------------------------------------- transitions

  function Expire(r: Registry, now: Time): Registry {
    Registry(
      map s | s in r.sessions && r.sessions[s].expiresAt > now :: r.sessions[s],
      Alive(r.epochs, now),
      map s | s in r.counters && r.counters[s].deadline > now :: r.counters[s])
  }

  /** The check every fenced script starts with, at a time no earlier than the clock. */
  function StatusOf(r: Registry, account: Account, epoch: Epoch, at: Time): Status {
    if account in r.epochs && r.epochs[account].epoch != epoch then Fenced
    else if epoch.session !in r.sessions || r.sessions[epoch.session].expiresAt <= at then NotFound
    else
      var session := r.sessions[epoch.session];
      if session.account != account || session.revision != epoch.revision || account !in r.epochs then Fenced
      else Current(session.expiresAt, session.durable)
  }

  lemma CurrentIsStored(r: Registry, account: Account, epoch: Epoch, at: Time)
    requires StatusOf(r, account, epoch, at).Current?
    ensures epoch.session in r.sessions && account in r.epochs
  {}

  function CounterOf(r: Registry, session: SessionId): nat {
    if session in r.counters then r.counters[session].value else 0
  }

  function OpeningOf(cfg: Config, r: Registry, now: Time, account: Account, session: SessionId,
                     requested: Time): Opening {
    var durable := cfg.durable(session);
    var expiresAt := Min(requested, Min(durable, now + cfg.sessionTtl));
    if cfg.sessionTtl <= 0 || requested <= now || requested > durable || expiresAt <= now then InvalidExpiry
    else if CounterOf(r, session) == MAX_REVISION then RevisionOverflow
    else if session in r.sessions && r.sessions[session].account != account then Refused
    else Granted(CounterOf(r, session) + 1, expiresAt)
  }

  function Open(cfg: Config, r: Registry, account: Account, epoch: Epoch, expiresAt: Time): Registry {
    var durable := cfg.durable(epoch.session);
    var closed := if account in r.epochs && r.epochs[account].epoch.session != epoch.session
      then r.sessions - {r.epochs[account].epoch.session} else r.sessions;
    Registry(
      closed[epoch.session := Session(account, epoch.revision, expiresAt, durable)],
      r.epochs[account := Lease(epoch, expiresAt)],
      r.counters[epoch.session := Counter(epoch.revision, durable)])
  }

  function Extended(now: Time, ttl: nat, current: Time, durable: Time, requested: Time): Time {
    Max(current, Min(requested, Min(durable, now + ttl)))
  }

  function Extend(r: Registry, account: Account, session: SessionId, expiresAt: Time): Registry
    requires session in r.sessions && account in r.epochs
  {
    r.(sessions := r.sessions[session := r.sessions[session].(expiresAt := expiresAt)],
       epochs := r.epochs[account := r.epochs[account].(expiresAt := expiresAt)])
  }

  function Remove(r: Registry, account: Account, session: SessionId): Registry {
    r.(sessions := r.sessions - {session}, epochs := r.epochs - {account})
  }

  // ---------------------------------------------------------------- invariant

  /** An account's epoch names its session, and the two keys agree. */
  ghost predicate EpochsNameSessions(cfg: Config, r: Registry, now: Time) {
    forall a :: a in r.epochs ==> EpochNamesSession(cfg, r, now, a)
  }

  ghost predicate EpochNamesSession(cfg: Config, r: Registry, now: Time, a: Account)
    requires a in r.epochs
  {
    var lease := r.epochs[a];
    var s := lease.epoch.session;
    s in r.sessions && r.sessions[s] == Session(a, lease.epoch.revision, lease.expiresAt, cfg.durable(s)) &&
    now < lease.expiresAt <= cfg.durable(s) && lease.epoch.revision > 0
  }

  /** A session is its account's current one. */
  ghost predicate SessionsAreCurrent(r: Registry) {
    forall s :: s in r.sessions ==> Owns(r.epochs, r.sessions[s].account, Epoch(s, r.sessions[s].revision))
  }

  /** A session's counter lives as long as its durable deadline and has its revision. */
  ghost predicate CountersCover(cfg: Config, r: Registry, now: Time) {
    (forall s :: s in r.sessions ==> s in r.counters && r.counters[s].value == r.sessions[s].revision) &&
    (forall s :: s in r.counters ==> r.counters[s].deadline == cfg.durable(s) > now)
  }

  ghost predicate Valid(cfg: Config, r: Registry, now: Time) {
    EpochsNameSessions(cfg, r, now) && SessionsAreCurrent(r) && CountersCover(cfg, r, now)
  }

  /** The epoch has been handed out, or its session can no longer be opened. */
  ghost predicate Issued(cfg: Config, r: Registry, now: Time, epoch: Epoch) {
    now >= cfg.durable(epoch.session) || CounterOf(r, epoch.session) >= epoch.revision > 0
  }

  /** Superseded, fenced or expired: handed out and no longer anybody's. */
  ghost predicate Dead(cfg: Config, r: Registry, now: Time, epoch: Epoch) {
    Issued(cfg, r, now, epoch) && forall a :: a in r.epochs ==> r.epochs[a].epoch != epoch
  }

  lemma LeaseIsIssued(cfg: Config, r: Registry, now: Time, account: Account)
    requires Valid(cfg, r, now) && account in r.epochs
    ensures Issued(cfg, r, now, r.epochs[account].epoch)
  {
    assert EpochNamesSession(cfg, r, now, account);
  }

  lemma SessionsHaveOneOwner(cfg: Config, r: Registry, now: Time)
    requires Valid(cfg, r, now)
    ensures OneOwner(r.epochs)
  {
    forall a, b | a in r.epochs && b in r.epochs && r.epochs[a].epoch.session == r.epochs[b].epoch.session
      ensures a == b
    {
      assert EpochNamesSession(cfg, r, now, a) && EpochNamesSession(cfg, r, now, b);
    }
  }

  /** The status check succeeds exactly for the account's current epoch, and returns its deadline. */
  lemma StatusIsOwnership(cfg: Config, r: Registry, now: Time, account: Account, epoch: Epoch, at: Time)
    requires Valid(cfg, r, now)
    ensures StatusOf(r, account, epoch, at).Current? <==>
      Owns(r.epochs, account, epoch) && r.epochs[account].expiresAt > at
    ensures StatusOf(r, account, epoch, at).Current? ==>
      StatusOf(r, account, epoch, at) == Current(r.epochs[account].expiresAt, cfg.durable(epoch.session))
  {
    if account in r.epochs { assert EpochNamesSession(cfg, r, now, account); }
  }

  /** Which refusal it is: fenced by the account's other epoch or by the session's other account, else not found. */
  lemma RefusalIsExact(cfg: Config, r: Registry, now: Time, account: Account, epoch: Epoch, at: Time)
    requires Valid(cfg, r, now)
    ensures StatusOf(r, account, epoch, at).Fenced? <==>
      if account in r.epochs then r.epochs[account].epoch != epoch
      else epoch.session in r.sessions && r.sessions[epoch.session].expiresAt > at
  {
    if account in r.epochs { assert EpochNamesSession(cfg, r, now, account); }
  }

  lemma ExpireKeeps(cfg: Config, r: Registry, now: Time, later: Time)
    requires Valid(cfg, r, now) && now <= later
    ensures Valid(cfg, Expire(r, later), later)
  {
    var q := Expire(r, later);
    forall a | a in q.epochs ensures EpochNamesSession(cfg, q, later, a) { assert EpochNamesSession(cfg, r, now, a); }
    forall s | s in q.sessions
      ensures Owns(q.epochs, q.sessions[s].account, Epoch(s, q.sessions[s].revision))
      ensures s in q.counters && q.counters[s].value == q.sessions[s].revision
    {
      assert EpochNamesSession(cfg, r, now, r.sessions[s].account);
    }
  }

  lemma OpenKeeps(cfg: Config, r: Registry, now: Time, account: Account, epoch: Epoch, requested: Time, expiresAt: Time)
    requires Valid(cfg, r, now)
    requires OpeningOf(cfg, r, now, account, epoch.session, requested) == Granted(epoch.revision, expiresAt)
    ensures Valid(cfg, Open(cfg, r, account, epoch, expiresAt), now)
  {
    var q := Open(cfg, r, account, epoch, expiresAt);
    forall a | a in q.epochs ensures EpochNamesSession(cfg, q, now, a) {
      if a != account {
        assert EpochNamesSession(cfg, r, now, a);
        if account in r.epochs { assert EpochNamesSession(cfg, r, now, account); }
      }
    }
    forall s | s in q.sessions ensures Owns(q.epochs, q.sessions[s].account, Epoch(s, q.sessions[s].revision)) {}
  }

  lemma ExtendKeeps(cfg: Config, r: Registry, now: Time, account: Account, expiresAt: Time)
    requires Valid(cfg, r, now) && account in r.epochs
    requires r.epochs[account].expiresAt <= expiresAt <= cfg.durable(r.epochs[account].epoch.session)
    ensures r.epochs[account].epoch.session in r.sessions
    ensures Valid(cfg, Extend(r, account, r.epochs[account].epoch.session, expiresAt), now)
  {
    assert EpochNamesSession(cfg, r, now, account);
    var q := Extend(r, account, r.epochs[account].epoch.session, expiresAt);
    forall a | a in q.epochs ensures EpochNamesSession(cfg, q, now, a) { assert EpochNamesSession(cfg, r, now, a); }
  }

  lemma RemoveKeeps(cfg: Config, r: Registry, now: Time, account: Account)
    requires Valid(cfg, r, now) && account in r.epochs
    ensures Valid(cfg, Remove(r, account, r.epochs[account].epoch.session), now)
  {
    assert EpochNamesSession(cfg, r, now, account);
    var q := Remove(r, account, r.epochs[account].epoch.session);
    forall a | a in q.epochs ensures EpochNamesSession(cfg, q, now, a) { assert EpochNamesSession(cfg, r, now, a); }
  }

  /** A granted revision was never handed out before. */
  lemma GrantedIsFresh(cfg: Config, r: Registry, now: Time, account: Account, epoch: Epoch, requested: Time,
                       expiresAt: Time)
    requires OpeningOf(cfg, r, now, account, epoch.session, requested) == Granted(epoch.revision, expiresAt)
    ensures !Issued(cfg, r, now, epoch)
  {}

  lemma IssuedForever(cfg: Config, r: Registry, now: Time, later: Time, epoch: Epoch)
    requires Valid(cfg, r, now) && now <= later && Issued(cfg, r, now, epoch)
    ensures Issued(cfg, Expire(r, later), later, epoch)
  {}

  lemma IssuedAfterOpen(cfg: Config, r: Registry, now: Time, account: Account, next: Epoch, requested: Time,
                        expiresAt: Time, epoch: Epoch)
    requires OpeningOf(cfg, r, now, account, next.session, requested) == Granted(next.revision, expiresAt)
    requires Issued(cfg, r, now, epoch)
    ensures Issued(cfg, Open(cfg, r, account, next, expiresAt), now, epoch)
  {}

  /** A granted lease lies ahead and within the request, the durable deadline and the time to live. */
  lemma GrantIsBounded(cfg: Config, r: Registry, now: Time, account: Account, session: SessionId, requested: Time)
    requires OpeningOf(cfg, r, now, account, session, requested).Granted?
    ensures var expiresAt := OpeningOf(cfg, r, now, account, session, requested).expiresAt;
      now < expiresAt <= requested <= cfg.durable(session) && expiresAt <= now + cfg.sessionTtl &&
      expiresAt in {requested, cfg.durable(session), now + cfg.sessionTtl}
  {}

  /**
   * A heartbeat never shortens a lease, and lengthens it only within the request, the durable deadline and the time to
   * live.
   */
  lemma ExtensionIsBounded(now: Time, ttl: nat, current: Time, durable: Time, requested: Time)
    requires current <= durable
    ensures var expiresAt := Extended(now, ttl, current, durable, requested);
      current <= expiresAt <= durable &&
      (expiresAt > current ==>
        expiresAt <= requested && expiresAt <= now + ttl && expiresAt in {requested, durable, now + ttl})
  {}
}
