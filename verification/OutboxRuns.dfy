/**
 * Every interleaving of claims, lease expiries, duplicate messages and crashes commits each effect at most once, in
 * order.
 */
module OutboxRuns {
  import opened Basics
  import opened OutboxDelivery

  /** The table, and the history it leaves: committed handler effects, attempts charged to tokens, tokens handed out. */
  datatype World = World(now: Time, rows: Rows, effects: seq<Key>, charges: seq<(Token, Key)>, issued: set<Token>)

  /** A broker message may arrive any number of times or never, so executions and failures carry any reference. */
  datatype Event =
    | Clock(time: Time)
    | Append(key: Key, partition: string, position: nat)
    | Claim(key: Key, owner: string, token: Token)
    | Bury(key: Key)
    | Execute(key: Key, token: Token)
    | Fail(key: Key, token: Token)
    | Enqueue(key: Key, owner: string, token: Token, accepted: bool)
    | Release(key: Key, owner: string, token: Token)

  /** Appends to a consumer partition hold its lock, so a new row comes after every stored one of that partition. */
  predicate Appendable(rows: Rows, key: Key, partition: string, position: nat) {
    key !in rows &&
    forall k :: k in rows && k.consumer == key.consumer && rows[k].partition == partition ==>
      rows[k].position < position
  }

  function NewRow(now: Time, partition: string, position: nat): Delivery {
    Delivery(Pending, 0, None, now, false, 0, partition, position)
  }

  function Step(limits: Limits, w: World, e: Event): World {
    match e
    case Clock(time) => if time > w.now then w.(now := time) else w
    case Append(key, partition, position) =>
      if Appendable(w.rows, key, partition, position)
      then w.(rows := w.rows[key := NewRow(w.now, partition, position)]) else w
    case Claim(key, owner, token) =>
      if key in w.rows && Due(limits, w.rows, key, w.now) && token !in w.issued
      then w.(rows := w.rows[key := Claimed(limits, w.rows[key], owner, token, w.now)], issued := w.issued + {token})
      else w
    case Bury(key) =>
      if key in w.rows && Claimable(w.rows[key], w.now) && w.rows[key].attempts >= limits.maxAttempts
      then w.(rows := w.rows[key := Buried(w.rows[key])]) else w
    case Execute(key, token) =>
      if key in w.rows && Executed(w.rows[key], token, w.now).Some?
      then w.(rows := w.rows[key := Executed(w.rows[key], token, w.now).value],
              effects := w.effects + [key], charges := w.charges + [(token, key)]) else w
    case Fail(key, token) =>
      if key in w.rows && Failed(limits, w.rows[key], token, w.now).Some?
      then w.(rows := w.rows[key := Failed(limits, w.rows[key], token, w.now).value],
              charges := w.charges + [(token, key)]) else w
    case Enqueue(key, owner, token, accepted) =>
      if key in w.rows
      then w.(rows := w.rows[key := Enqueued(limits, w.rows[key], owner, token, w.now, accepted)]) else w
    case Release(key, owner, token) =>
      if key in w.rows then w.(rows := w.rows[key := Released(w.rows[key], owner, token)]) else w
  }

  function After(limits: Limits, w: World, events: seq<Event>): World
    decreases |events|
  {
    if events == [] then w else After(limits, Step(limits, w, events[0]), events[1..])
  }

  function Start(): World { World(0, map[], [], [], {}) }

  // ---------------------------------------------------------------- invariant

  /** A lease is held exactly while running, and unfinished rows have attempts left. */
  predicate RowOk(limits: Limits, d: Delivery) {
    (d.status == Running <==> d.lease.Some?) && d.attempts <= limits.maxAttempts &&
    (d.status == Pending || d.status == Running ==> d.attempts < limits.maxAttempts)
  }

  predicate RowsOk(limits: Limits, w: World) {
    forall k :: k in w.rows ==> RowOk(limits, w.rows[k])
  }

  function Charged(charges: seq<(Token, Key)>, key: Key): nat {
    if charges == [] then 0 else (if charges[0].1 == key then 1 else 0) + Charged(charges[1..], key)
  }

  function AttemptsOf(w: World, k: Key): nat { if k in w.rows then w.rows[k].attempts else 0 }

  predicate Done(w: World, k: Key) { k in w.rows && w.rows[k].status == Succeeded }

  /** Each row's attempts are the charges made to it, and its effects are one when it succeeded. */
  ghost predicate Accounted(w: World) {
    forall k :: Charged(w.charges, k) == AttemptsOf(w, k) && multiset(w.effects)[k] == if Done(w, k) then 1 else 0
  }

  /** A token is charged once, was issued, and is no longer held once charged; no two rows hold the same one. */
  ghost predicate TokensOk(w: World) {
    (forall i, j :: 0 <= i < j < |w.charges| ==> w.charges[i].0 != w.charges[j].0) &&
    (forall i :: 0 <= i < |w.charges| ==> w.charges[i].0 in w.issued) &&
    (forall k :: k in w.rows && w.rows[k].lease.Some? ==>
      w.rows[k].lease.value.token in w.issued &&
      forall i :: 0 <= i < |w.charges| ==> w.charges[i].0 != w.rows[k].lease.value.token) &&
    (forall k, l :: k in w.rows && l in w.rows && k != l && w.rows[k].lease.Some? && w.rows[l].lease.Some? ==>
      w.rows[k].lease.value.token != w.rows[l].lease.value.token)
  }

  predicate Started(d: Delivery) { d.status == Running || d.status == Succeeded }

  /** A delivery runs only once all earlier ones of its partition succeeded. */
  ghost predicate InOrder(rows: Rows) {
    forall k, l :: k in rows && l in rows && Earlier(rows, k, l) && Started(rows[l]) ==> rows[k].status == Succeeded
  }

  /** No two rows of a consumer partition have the same position. */
  ghost predicate Separate(rows: Rows) {
    forall k, l :: k in rows && l in rows && k != l && SamePartition(rows, k, l) ==>
      rows[k].position != rows[l].position
  }

  ghost predicate Inv(limits: Limits, w: World) {
    RowsOk(limits, w) && Accounted(w) && TokensOk(w) && InOrder(w.rows) && Separate(w.rows)
  }

  // ---------------------------------------------------------------- one changed row

  lemma RowsOkStep(limits: Limits, w: World, e: Event)
    requires limits.Valid() && RowsOk(limits, w)
    ensures RowsOk(limits, Step(limits, w, e))
  {
    hide RetryDelay, Blocked, Appendable;
  }

  lemma {:induction false} ChargedAppend(charges: seq<(Token, Key)>, charge: (Token, Key), key: Key)
    ensures Charged(charges + [charge], key) == Charged(charges, key) + if charge.1 == key then 1 else 0
  {
    if charges == [] {
      assert charges + [charge] == [charge] && [charge][1..] == [];
    } else {
      ChargedAppend(charges[1..], charge, key);
      assert (charges + [charge])[1..] == charges[1..] + [charge];
    }
  }

  /** What a step adds to the history is what it adds to the row it names. */
  lemma RowDelta(limits: Limits, w: World, e: Event, k: Key)
    requires RowsOk(limits, w)
    ensures var after := Step(limits, w, e);
      (after.charges == w.charges && AttemptsOf(after, k) == AttemptsOf(w, k)) ||
      ((e.Execute? || e.Fail?) && after.charges == w.charges + [(e.token, e.key)] &&
       AttemptsOf(after, k) == AttemptsOf(w, k) + if e.key == k then 1 else 0)
    ensures var after := Step(limits, w, e);
      (after.effects == w.effects && Done(after, k) == Done(w, k)) ||
      (e.Execute? && after.effects == w.effects + [e.key] &&
       (if e.key == k then !Done(w, k) && Done(after, k) else Done(after, k) == Done(w, k)))
  {
    hide RetryDelay, Blocked;
  }

  lemma AccountedStep(limits: Limits, w: World, e: Event)
    requires Inv(limits, w)
    ensures Accounted(Step(limits, w, e))
  {
    hide Step, RowsOk, TokensOk, InOrder, Charged, AttemptsOf, Done;
    var after := Step(limits, w, e);
    forall k
      ensures Charged(after.charges, k) == AttemptsOf(after, k) &&
        multiset(after.effects)[k] == if Done(after, k) then 1 else 0
    {
      RowDelta(limits, w, e, k);
      assert Charged(w.charges, k) == AttemptsOf(w, k);
      if after.charges != w.charges { ChargedAppend(w.charges, (e.token, e.key), k); }
    }
  }

  /** A held token was held before or is newly issued; a charged one was held and is given up. */
  lemma LeaseDelta(limits: Limits, w: World, e: Event, k: Key)
    ensures var after := Step(limits, w, e);
      k in after.rows && after.rows[k].lease.Some? ==>
        var token := after.rows[k].lease.value.token;
        (k in w.rows && w.rows[k].lease.Some? && w.rows[k].lease.value.token == token) ||
        (e.Claim? && e.key == k && e.token == token && token !in w.issued && token in after.issued)
    ensures var after := Step(limits, w, e);
      w.issued <= after.issued &&
      (after.charges == w.charges ||
       ((e.Execute? || e.Fail?) && after.charges == w.charges + [(e.token, e.key)] && e.key in w.rows &&
        Holds(w.rows[e.key], e.token) && after.rows[e.key].lease.None?))
  {
    hide RetryDelay, Due, Appendable;
  }

  lemma TokensStep(limits: Limits, w: World, e: Event)
    requires TokensOk(w)
    ensures TokensOk(Step(limits, w, e))
  {
    hide Step;
    var after := Step(limits, w, e);
    forall k ensures k in after.rows && after.rows[k].lease.Some? ==>
      var token := after.rows[k].lease.value.token;
      (k in w.rows && w.rows[k].lease.Some? && w.rows[k].lease.value.token == token) ||
      (e.Claim? && e.key == k && e.token == token && token !in w.issued && token in after.issued)
    {
      LeaseDelta(limits, w, e, k);
    }
    LeaseDelta(limits, w, e, Key(0, ""));
  }

  lemma InOrderStep(limits: Limits, w: World, e: Event)
    requires Inv(limits, w)
    ensures InOrder(Step(limits, w, e).rows)
  {
    hide RetryDelay, TokensOk, Accounted, Separate;
  }

  lemma SeparateStep(limits: Limits, w: World, e: Event)
    requires Separate(w.rows)
    ensures Separate(Step(limits, w, e).rows)
  {
    hide Step;
    var after := Step(limits, w, e).rows;
    forall k, l | k in after && l in after && k != l && SamePartition(after, k, l)
      ensures after[k].position != after[l].position
    {
      PlacesKept(limits, w, e, k);
      PlacesKept(limits, w, e, l);
    }
  }

  lemma StepKeeps(limits: Limits, w: World, e: Event)
    requires limits.Valid() && Inv(limits, w)
    ensures Inv(limits, Step(limits, w, e))
  {
    hide Step, RowsOk, Accounted, TokensOk, InOrder, Separate;
    SeparateStep(limits, w, e);
    RowsOkStep(limits, w, e);
    AccountedStep(limits, w, e);
    TokensStep(limits, w, e);
    InOrderStep(limits, w, e);
  }

  lemma {:induction false} RunKeeps(limits: Limits, w: World, events: seq<Event>)
    requires limits.Valid() && Inv(limits, w)
    ensures Inv(limits, After(limits, w, events))
    decreases |events|
  {
    hide Step, Inv;
    if events != [] {
      StepKeeps(limits, w, events[0]);
      RunKeeps(limits, Step(limits, w, events[0]), events[1..]);
    }
  }

  lemma StartIsValid(limits: Limits)
    ensures Inv(limits, Start())
  {}

  // ---------------------------------------------------------------- theorems

  /**
   * A handler's effects commit at most once, exactly when the delivery succeeded; attempts are its charges and never
   * exceed the maximum.
   */
  lemma EffectsAtMostOnce(limits: Limits, events: seq<Event>, key: Key)
    requires limits.Valid()
    ensures var w := After(limits, Start(), events);
      multiset(w.effects)[key] <= 1 &&
      (multiset(w.effects)[key] == 1 <==> key in w.rows && w.rows[key].status == Succeeded) &&
      (key in w.rows ==> w.rows[key].attempts == Charged(w.charges, key) <= limits.maxAttempts)
  {
    hide After, Charged, TokensOk, InOrder;
    StartIsValid(limits);
    RunKeeps(limits, Start(), events);
    var w := After(limits, Start(), events);
    assert Charged(w.charges, key) == AttemptsOf(w, key);
    if key in w.rows { assert RowOk(limits, w.rows[key]); }
  }

  /** Each token adds at most one attempt, over all rows. */
  lemma TokenChargedOnce(limits: Limits, events: seq<Event>, i: nat, j: nat)
    requires limits.Valid()
    requires var w := After(limits, Start(), events);
      i < |w.charges| && j < |w.charges| && w.charges[i].0 == w.charges[j].0
    ensures i == j
  {
    hide After, Charged, RowsOk, Accounted, InOrder;
    StartIsValid(limits);
    RunKeeps(limits, Start(), events);
  }

  /** A finished row never changes. */
  lemma FinishedStays(limits: Limits, w: World, e: Event, key: Key)
    requires Inv(limits, w) && key in w.rows && (w.rows[key].status == Succeeded || w.rows[key].status == Dead)
    ensures key in Step(limits, w, e).rows && Step(limits, w, e).rows[key] == w.rows[key]
  {
    hide RetryDelay, Blocked, TokensOk, InOrder, Accounted;
    assert RowOk(limits, w.rows[key]);
  }

  lemma {:induction false} FinishedForever(limits: Limits, w: World, events: seq<Event>, key: Key)
    requires limits.Valid() && Inv(limits, w) && key in w.rows &&
      (w.rows[key].status == Succeeded || w.rows[key].status == Dead)
    ensures key in After(limits, w, events).rows && After(limits, w, events).rows[key] == w.rows[key]
    decreases |events|
  {
    hide Step, Inv;
    if events != [] {
      StepKeeps(limits, w, events[0]);
      FinishedStays(limits, w, events[0], key);
      FinishedForever(limits, Step(limits, w, events[0]), events[1..], key);
    }
  }

  /** The token was handed out and no row holds it any more. */
  ghost predicate Spent(w: World, token: Token) {
    token in w.issued && forall k :: k in w.rows ==> !Holds(w.rows[k], token)
  }

  lemma SpentStays(limits: Limits, w: World, e: Event, token: Token)
    requires Spent(w, token)
    ensures Spent(Step(limits, w, e), token)
  {
    hide RetryDelay, Due, Appendable;
  }

  /** A token that was superseded, charged or given back can never again change anything. */
  lemma {:induction false} SpentForever(limits: Limits, w: World, events: seq<Event>, key: Key, token: Token)
    requires Spent(w, token)
    ensures var after := After(limits, w, events);
      Step(limits, after, Execute(key, token)) == after && Step(limits, after, Fail(key, token)) == after
    decreases |events|
  {
    if events == [] {
      hide RetryDelay;
    } else {
      hide Step, Spent;
      SpentStays(limits, w, events[0], token);
      SpentForever(limits, Step(limits, w, events[0]), events[1..], key, token);
    }
  }

  /** Claiming a row again, charging an attempt or giving it back spends the token that held it. */
  lemma SupersededIsSpent(limits: Limits, w: World, e: Event, key: Key, token: Token)
    requires Inv(limits, w) && key in w.rows && Holds(w.rows[key], token)
    ensures var after := Step(limits, w, e); Spent(after, token) || Holds(after.rows[key], token)
  {
    hide RetryDelay, Due, Appendable, Accounted, InOrder, Separate, RowsOk;
  }

  // ---------------------------------------------------------------- order of effects

  predicate PairInOrder(rows: Rows, a: Key, b: Key) {
    a in rows && b in rows && SamePartition(rows, a, b) ==> rows[a].position <= rows[b].position
  }

  /** Effects of one consumer partition commit in source order. */
  ghost predicate EffectsInOrder(w: World) {
    forall i, j :: 0 <= i < j < |w.effects| ==> PairInOrder(w.rows, w.effects[i], w.effects[j])
  }

  /** Rows keep their partition and position, and only stored rows have effects. */
  ghost predicate EffectsStored(w: World) {
    forall i :: 0 <= i < |w.effects| ==> w.effects[i] in w.rows && w.rows[w.effects[i]].status == Succeeded
  }

  lemma EffectsStoredStep(limits: Limits, w: World, e: Event)
    requires Inv(limits, w) && EffectsStored(w)
    ensures EffectsStored(Step(limits, w, e))
  {
    hide Step, TokensOk, InOrder, Accounted, RowsOk;
    var after := Step(limits, w, e);
    forall i | 0 <= i < |after.effects|
      ensures after.effects[i] in after.rows && after.rows[after.effects[i]].status == Succeeded
    {
      EffectsGrow(limits, w, e);
      if i < |w.effects| { FinishedStays(limits, w, e, w.effects[i]); }
    }
  }

  lemma EffectsGrow(limits: Limits, w: World, e: Event)
    ensures var after := Step(limits, w, e);
      after.effects == w.effects ||
      (e.Execute? && e.key in w.rows && w.rows[e.key].status == Running && after.effects == w.effects + [e.key] &&
       e.key in after.rows && after.rows[e.key].status == Succeeded)
  {
    hide RetryDelay, Due, Appendable;
  }

  /** Rows keep their places, and a new one comes last in its partition. */
  lemma PlacesKept(limits: Limits, w: World, e: Event, key: Key)
    ensures var after := Step(limits, w, e).rows;
      (key in w.rows ==>
        key in after && after[key].partition == w.rows[key].partition && after[key].position == w.rows[key].position) &&
      (key in after && key !in w.rows ==>
        e.Append? && e.key == key && Appendable(w.rows, key, after[key].partition, after[key].position))
  {
    hide RetryDelay, Due;
  }

  /** A running delivery comes after every effect its partition has committed. */
  lemma EffectsOrderStep(limits: Limits, w: World, e: Event)
    requires Inv(limits, w) && EffectsStored(w) && EffectsInOrder(w)
    ensures EffectsInOrder(Step(limits, w, e))
  {
    hide Step, TokensOk, Accounted, RowsOk, Separate;
    var after := Step(limits, w, e);
    EffectsGrow(limits, w, e);
    forall i, j | 0 <= i < j < |after.effects| ensures PairInOrder(after.rows, after.effects[i], after.effects[j]) {
      var a, b := after.effects[i], after.effects[j];
      assert a in w.rows && w.rows[a].status == Succeeded && b in w.rows;
      PlacesKept(limits, w, e, a);
      PlacesKept(limits, w, e, b);
      if j < |w.effects| {
        assert PairInOrder(w.rows, w.effects[i], w.effects[j]);
      } else {
        assert !Earlier(w.rows, b, a);
      }
    }
  }

  /** Everything the events keep. */
  ghost predicate Consistent(limits: Limits, w: World) {
    limits.Valid() && Inv(limits, w) && EffectsStored(w) && EffectsInOrder(w)
  }

  lemma ConsistentStep(limits: Limits, w: World, e: Event)
    requires Consistent(limits, w)
    ensures Consistent(limits, Step(limits, w, e))
  {
    hide Step, Inv, EffectsStored, EffectsInOrder;
    StepKeeps(limits, w, e);
    EffectsStoredStep(limits, w, e);
    EffectsOrderStep(limits, w, e);
  }

  lemma {:induction false} ConsistentRun(limits: Limits, w: World, events: seq<Event>)
    requires Consistent(limits, w)
    ensures Consistent(limits, After(limits, w, events))
    decreases |events|
  {
    hide Step, Consistent;
    if events != [] {
      ConsistentStep(limits, w, events[0]);
      ConsistentRun(limits, Step(limits, w, events[0]), events[1..]);
    }
  }

  lemma {:induction false} OneMore(limits: Limits, w: World, events: seq<Event>, e: Event)
    ensures After(limits, w, events + [e]) == Step(limits, After(limits, w, events), e)
    decreases |events|
  {
    hide Step;
    if events == [] {
      assert events + [e] == [e] && [e][1..] == [];
    } else {
      OneMore(limits, Step(limits, w, events[0]), events[1..], e);
      assert (events + [e])[1..] == events[1..] + [e];
    }
  }

  /** From an empty table, every partition's effects commit in source order. */
  lemma PartitionsCommitInOrder(limits: Limits, events: seq<Event>)
    requires limits.Valid()
    ensures EffectsInOrder(After(limits, Start(), events))
  {
    hide After, Inv;
    StartIsValid(limits);
    ConsistentRun(limits, Start(), events);
  }

  // ---------------------------------------------------------------- leases

  /** While a lease runs, the row changes only by the acts of its token, or of its owner with that token. */
  lemma LeaseIsExclusive(limits: Limits, w: World, e: Event, key: Key)
    requires key in w.rows && w.rows[key].status == Running && w.rows[key].lease.Some?
    requires w.now < w.rows[key].lease.value.expiresAt
    requires var l := w.rows[key].lease.value;
      ((e.Execute? || e.Fail?) ==> e.key != key || e.token != l.token) &&
      ((e.Enqueue? || e.Release?) ==> e.key != key || e.token != l.token || e.owner != l.owner)
    ensures key in Step(limits, w, e).rows && Step(limits, w, e).rows[key] == w.rows[key]
  {
    hide RetryDelay, Blocked;
  }

  /**
   * A claim takes a row exactly when it is pending or its lease is over, it has attempts left, its wait is over and
   * every earlier row of its consumer partition succeeded; it is then leased to the owner under the token for the
   * lease time.
   */
  lemma ClaimsExactly(limits: Limits, w: World, key: Key, owner: string, token: Token)
    ensures var after := Step(limits, w, Claim(key, owner, token));
      if key in w.rows && token !in w.issued &&
        (w.rows[key].status == Pending ||
         (w.rows[key].status == Running && w.rows[key].lease.Some? && w.rows[key].lease.value.expiresAt <= w.now)) &&
        w.rows[key].attempts < limits.maxAttempts && w.rows[key].availableAt <= w.now &&
        (forall k :: k in w.rows && k.consumer == key.consumer && w.rows[k].partition == w.rows[key].partition ==>
          w.rows[k].position >= w.rows[key].position || w.rows[k].status == Succeeded)
      then
        var d := w.rows[key];
        after == w.(issued := w.issued + {token},
          rows := w.rows[key := d.(status := Running, enqueued := false, enqueues := d.enqueues + 1,
                                   lease := Some(Lease(owner, token, w.now + limits.lease)))])
      else after == w
  {
    if key in w.rows {
      assert Blocked(w.rows, key) <==>
        exists k :: k in w.rows && Earlier(w.rows, k, key) && w.rows[k].status != Succeeded;
    }
  }

  /** Only rows out of attempts that are pending or past their lease are buried. */
  lemma BuriesExactly(limits: Limits, w: World, key: Key)
    ensures var after := Step(limits, w, Bury(key));
      if key in w.rows && limits.maxAttempts <= w.rows[key].attempts &&
        (w.rows[key].status == Pending ||
         (w.rows[key].status == Running && w.rows[key].lease.Some? && w.rows[key].lease.value.expiresAt <= w.now))
      then after == w.(rows := w.rows[key := w.rows[key].(status := Dead, lease := None)])
      else after == w
  {}

  /** A broker outcome moves a row exactly while the owner's lease under the token runs. */
  lemma EnqueuesExactly(limits: Limits, w: World, key: Key, owner: string, token: Token, accepted: bool)
    ensures var after := Step(limits, w, Enqueue(key, owner, token, accepted));
      if key in w.rows && w.rows[key].status == Running && w.rows[key].lease.Some? &&
        w.rows[key].lease.value.token == token && w.rows[key].lease.value.owner == owner &&
        w.now < w.rows[key].lease.value.expiresAt
      then
        var d, wait := w.rows[key], Power(Max(w.rows[key].enqueues, 1));
        after == w.(rows := w.rows[key :=
          if accepted then d.(enqueued := true)
          else d.(status := Pending, lease := None, enqueued := false,
                  availableAt := w.now + if wait <= limits.maxRetry then wait else limits.maxRetry)])
      else after == w
  {
    hide Power, RetryDelay;
    EnqueuesRow(limits, w, key, owner, token, accepted);
  }

  /** A release gives back exactly the owner's claim that no message was sent for. */
  lemma ReleasesExactly(limits: Limits, w: World, key: Key, owner: string, token: Token)
    ensures var after := Step(limits, w, Release(key, owner, token));
      if key in w.rows && w.rows[key].status == Running && w.rows[key].lease.Some? &&
        w.rows[key].lease.value.token == token && w.rows[key].lease.value.owner == owner && !w.rows[key].enqueued
      then after == w.(rows := w.rows[key := w.rows[key].(status := Pending, lease := None)])
      else after == w
  {
    ReleasesRow(limits, w, key, owner, token);
  }

  /** An execution commits exactly for the token of a running lease, and ends it. */
  lemma ExecutesExactly(limits: Limits, w: World, key: Key, token: Token)
    ensures var after := Step(limits, w, Execute(key, token));
      if key in w.rows && w.rows[key].status == Running && w.rows[key].lease.Some? &&
        w.rows[key].lease.value.token == token && w.now < w.rows[key].lease.value.expiresAt
      then
        var d := w.rows[key];
        after == w.(rows := w.rows[key := d.(status := Succeeded, attempts := d.attempts + 1, lease := None)],
                    effects := w.effects + [key], charges := w.charges + [(token, key)])
      else after == w
  {}

  /** A failure charges the token of a lease, running or not, and the row waits or dies. */
  lemma FailsExactly(limits: Limits, w: World, key: Key, token: Token)
    ensures var after := Step(limits, w, Fail(key, token));
      if key in w.rows && w.rows[key].status == Running && w.rows[key].lease.Some? &&
        w.rows[key].lease.value.token == token
      then
        var d := w.rows[key].(attempts := w.rows[key].attempts + 1, lease := None, enqueued := false);
        var wait := Power(d.attempts);
        after == w.(charges := w.charges + [(token, key)],
          rows := w.rows[key :=
            if d.attempts >= limits.maxAttempts then d.(status := Dead)
            else d.(status := Pending,
                    availableAt := w.now + if wait <= limits.maxRetry then wait else limits.maxRetry)])
      else after == w
  {
    hide Power, RetryDelay;
  }

  // ---------------------------------------------------------------- what a caller can rely on

  /** A committed execution is the first of its row, and every earlier row of the partition had its effect before. */
  lemma CommitsInTurn(limits: Limits, w: World, key: Key, token: Token)
    requires Consistent(limits, w) && key in w.rows && Holds(w.rows[key], token)
    ensures key !in w.effects
    ensures forall k :: k in w.rows && Earlier(w.rows, k, key) ==> k in w.effects
  {
    hide TokensOk, Separate, EffectsInOrder, Charged;
    assert multiset(w.effects)[key] == 0;
    assert key !in multiset(w.effects);
    forall k | k in w.rows && Earlier(w.rows, k, key) ensures k in w.effects {
      assert Done(w, k);
      assert multiset(w.effects)[k] == 1;
      assert k in multiset(w.effects);
    }
  }

  /** A charge is the first of its token, and the row is dead exactly when the charges reach the maximum. */
  lemma ChargesOnce(limits: Limits, w: World, key: Key, token: Token)
    requires Consistent(limits, w) && key in w.rows && Holds(w.rows[key], token)
    ensures forall i :: 0 <= i < |w.charges| ==> w.charges[i].0 != token
    ensures var after := Step(limits, w, Fail(key, token));
      after.charges == w.charges + [(token, key)] &&
      after.rows[key].attempts == Charged(after.charges, key) <= limits.maxAttempts &&
      (after.rows[key].status == Dead <==> Charged(after.charges, key) == limits.maxAttempts)
  {
    hide RetryDelay, Separate, InOrder, EffectsInOrder, EffectsStored, Charged;
    ChargedAppend(w.charges, (token, key), key);
    assert Charged(w.charges, key) == AttemptsOf(w, key);
    assert RowOk(limits, w.rows[key]);
  }

  /** Two due rows are never of the same consumer partition. */
  lemma DueApart(limits: Limits, rows: Rows, now: Time, k: Key, l: Key)
    requires Separate(rows) && k in rows && l in rows && k != l && Due(limits, rows, k, now) &&
      Due(limits, rows, l, now)
    ensures !SamePartition(rows, k, l)
  {}

  /** Claiming one due row leaves the others due, so a batch chosen from one snapshot can be claimed row by row. */
  lemma ClaimKeepsDue(limits: Limits, rows: Rows, now: Time, k: Key, owner: string, token: Token, l: Key)
    requires k in rows && l in rows && k != l && Due(limits, rows, k, now) && Due(limits, rows, l, now)
    ensures Due(limits, rows[k := Claimed(limits, rows[k], owner, token, now)], l, now)
  {
    var after := rows[k := Claimed(limits, rows[k], owner, token, now)];
    forall prior | prior in after && Earlier(after, prior, l) ensures after[prior].status == Succeeded {
      assert Earlier(rows, prior, l);
    }
  }

  lemma NoEvents(limits: Limits, w: World)
    ensures After(limits, w, []) == w
  {}

  /** Rows of other consumers do not stand in the way of an append. */
  lemma AppendableBeside(before: Rows, rows: Rows, key: Key, partition: string, position: nat)
    requires Appendable(before, key, partition, position) && key !in rows
    requires forall k :: k in rows && k.consumer == key.consumer ==> k in before && rows[k] == before[k]
    ensures Appendable(rows, key, partition, position)
  {}

  lemma AppendsRow(limits: Limits, w: World, key: Key, partition: string, position: nat)
    requires Appendable(w.rows, key, partition, position)
    ensures Step(limits, w, Append(key, partition, position)) ==
      w.(rows := w.rows[key := NewRow(w.now, partition, position)])
  {}

  lemma ClaimsRow(limits: Limits, w: World, key: Key, owner: string, token: Token)
    requires key in w.rows && Due(limits, w.rows, key, w.now) && token !in w.issued
    ensures Step(limits, w, Claim(key, owner, token)) ==
      w.(rows := w.rows[key := Claimed(limits, w.rows[key], owner, token, w.now)], issued := w.issued + {token})
  {}

  lemma EnqueuesRow(limits: Limits, w: World, key: Key, owner: string, token: Token, accepted: bool)
    ensures Step(limits, w, Enqueue(key, owner, token, accepted)) ==
      if key in w.rows && OwnsLiveLease(w.rows[key], owner, token, w.now)
      then w.(rows := w.rows[key := Enqueued(limits, w.rows[key], owner, token, w.now, accepted)]) else w
  {
    hide RetryDelay;
    if key in w.rows { assert w.rows[key := w.rows[key]] == w.rows; }
  }

  lemma ReleasesRow(limits: Limits, w: World, key: Key, owner: string, token: Token)
    ensures Step(limits, w, Release(key, owner, token)) ==
      if key in w.rows then w.(rows := w.rows[key := Released(w.rows[key], owner, token)]) else w
    ensures key in w.rows ==> w.rows[key := w.rows[key]] == w.rows
  {}
}
