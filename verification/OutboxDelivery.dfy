/** Fenced outbox deliveries: what claims, executions, failures, enqueue outcomes and releases make of one row. */
module OutboxDelivery {
  import opened Basics

  datatype Key = Key(event: nat, consumer: string)

  datatype Token = Token(uuid: nat)

  datatype Status = Pending | Running | Succeeded | Dead

  /** The owner, token and expiry columns, which are set and cleared together. */
  datatype Lease = Lease(owner: string, token: Token, expiresAt: Time)

  datatype Delivery = Delivery(
    status: Status,
    attempts: nat,
    lease: Option<Lease>,
    availableAt: Time,
    enqueued: bool,
    enqueues: nat,
    partition: string,
    position: nat)

  /** Limits in seconds and attempts, all positive. */
  datatype Limits = Limits(maxAttempts: nat, maxRetry: nat, lease: nat) {
    predicate Valid() { maxAttempts > 0 && maxRetry > 0 && lease > 0 }
  }

  function Power(n: nat): (p: nat)
    ensures p > 0
  {
    if n == 0 then 1 else 2 * Power(n - 1)
  }

  /** Two to the power of the count, from the first on, up to the maximum. */
  function RetryDelay(count: nat, maximum: nat): (delay: nat)
    ensures maximum > 0 ==> 0 < delay <= maximum
    ensures var wait := Power(Max(count, 1)); delay == if wait <= maximum then wait else maximum
  {
    var delay := Power(if count < 1 then 1 else count);
    if delay < maximum then delay else maximum
  }

  /** Each power doubles the one before; the first waits are 2, 4, 8 and so on. */
  lemma PowersDouble(n: nat)
    ensures Power(n + 1) == 2 * Power(n)
    ensures Power(0) == 1 && Power(1) == 2 && Power(2) == 4 && Power(3) == 8 && Power(9) == 512
  {
    assert Power(5) == 2 * Power(4) == 4 * Power(3);
    assert Power(7) == 2 * Power(6) == 4 * Power(5);
    assert Power(9) == 2 * Power(8) == 4 * Power(7);
  }

  /** Waits never shrink as the count grows. */
  lemma {:induction false} WaitsGrow(j: nat, k: nat, maximum: nat)
    requires j <= k
    ensures RetryDelay(j, maximum) <= RetryDelay(k, maximum)
  {
    if j < k {
      WaitsGrow(j, k - 1, maximum);
      PowersDouble(Max(k - 1, 1));
    }
  }

  predicate Holds(d: Delivery, token: Token) {
    d.status == Running && d.lease.Some? && d.lease.value.token == token
  }

  // ---------------------------------------------------------------- one row

  /** The row after its handler ran in the same transaction; None when the reference is stale. */
  function Executed(d: Delivery, token: Token, now: Time): Option<Delivery> {
    if Holds(d, token) && d.lease.value.expiresAt > now
    then Some(d.(status := Succeeded, attempts := d.attempts + 1, lease := None)) else None
  }

  /** The row after a failed execution is recorded, even past the lease; None when the token was superseded. */
  function Failed(limits: Limits, d: Delivery, token: Token, now: Time): Option<Delivery> {
    if !Holds(d, token) then None
    else if d.attempts + 1 >= limits.maxAttempts then
      Some(d.(status := Dead, attempts := d.attempts + 1, lease := None, enqueued := false))
    else
      Some(d.(status := Pending, attempts := d.attempts + 1, lease := None, enqueued := false,
              availableAt := now + RetryDelay(d.attempts + 1, limits.maxRetry)))
  }

  predicate Claimable(d: Delivery, now: Time) {
    d.status == Pending || (d.status == Running && d.lease.Some? && d.lease.value.expiresAt <= now)
  }

  function Claimed(limits: Limits, d: Delivery, owner: string, token: Token, now: Time): Delivery {
    d.(status := Running, lease := Some(Lease(owner, token, now + limits.lease)), enqueued := false,
      enqueues := d.enqueues + 1)
  }

  function Buried(d: Delivery): Delivery { d.(status := Dead, lease := None) }

  predicate OwnsLiveLease(d: Delivery, owner: string, token: Token, now: Time) {
    Holds(d, token) && d.lease.value.owner == owner && d.lease.value.expiresAt > now
  }

  /** A refused broker message gives the row back without charging an attempt. */
  function Enqueued(limits: Limits, d: Delivery, owner: string, token: Token, now: Time, accepted: bool): Delivery {
    if !OwnsLiveLease(d, owner, token, now) then d
    else if accepted then d.(enqueued := true)
    else d.(status := Pending, lease := None, enqueued := false,
      availableAt := now + RetryDelay(d.enqueues, limits.maxRetry))
  }

  function Released(d: Delivery, owner: string, token: Token): Delivery {
    if Holds(d, token) && d.lease.value.owner == owner && !d.enqueued then d.(status := Pending, lease := None) else d
  }

  // ---------------------------------------------------------------- the table

  type Rows = map<Key, Delivery>

  predicate SamePartition(rows: Rows, a: Key, b: Key)
    requires a in rows && b in rows
  {
    a.consumer == b.consumer && rows[a].partition == rows[b].partition
  }

  predicate Earlier(rows: Rows, a: Key, b: Key)
    requires a in rows && b in rows
  {
    SamePartition(rows, a, b) && rows[a].position < rows[b].position
  }

  /** Some earlier delivery of the row's consumer partition has not succeeded. */
  predicate Blocked(rows: Rows, key: Key)
    requires key in rows
  {
    exists prior :: prior in rows && Earlier(rows, prior, key) && rows[prior].status != Succeeded
  }

  predicate Due(limits: Limits, rows: Rows, key: Key, now: Time)
    requires key in rows
  {
    Claimable(rows[key], now) && rows[key].attempts < limits.maxAttempts && rows[key].availableAt <= now &&
    !Blocked(rows, key)
  }
}
