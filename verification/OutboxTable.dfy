/** The delivery table with one method per transaction; batches are taken from one snapshot and applied row by row. */
module OutboxTable {
  import opened Basics
  import opened OutboxDelivery
  import Runs = OutboxRuns

  /** What a processor makes of a reference: no such row, a stale reference, a failed handler, or committed effects. */
  datatype Outcome = Missing | Stale | Raised | Committed

  datatype Reference = Reference(key: Key, token: Token)

  // ---------------------------------------------------------------- batches

  ghost predicate Distinct<T>(s: seq<T>) {
    forall i, j :: 0 <= i < j < |s| ==> s[i] != s[j]
  }

  ghost predicate InPositionOrder(rows: Rows, keys: seq<Key>)
    requires forall k :: k in keys ==> k in rows
  {
    forall i, j :: 0 <= i < j < |keys| ==> rows[keys[i]].position <= rows[keys[j]].position
  }

  method Earliest(rows: Rows, candidates: set<Key>) returns (key: Key)
    requires candidates != {} && candidates <= rows.Keys
    ensures key in candidates && forall k :: k in candidates ==> rows[key].position <= rows[k].position
  {
    key :| key in candidates;
    var rest := candidates - {key};
    while rest != {}
      invariant rest <= candidates && key in candidates
      invariant forall k :: k in candidates && k !in rest ==> rows[key].position <= rows[k].position
      decreases |rest|
    {
      var other :| other in rest;
      rest := rest - {other};
      if rows[other].position < rows[key].position { key := other; }
    }
  }

  /** The first candidates in position order, as many as the batch allows. */
  method Select(rows: Rows, candidates: set<Key>, batch: nat) returns (chosen: seq<Key>)
    requires candidates <= rows.Keys
    ensures Distinct(chosen) && (forall k :: k in chosen ==> k in candidates)
    ensures |chosen| == if batch < |candidates| then batch else |candidates|
    ensures InPositionOrder(rows, chosen)
    ensures forall l :: l in candidates && l !in chosen ==>
      |chosen| == batch && forall k :: k in chosen ==> rows[k].position <= rows[l].position
  {
    chosen := [];
    var rest := candidates;
    while rest != {} && |chosen| < batch
      invariant rest <= candidates && |chosen| + |rest| == |candidates| && |chosen| <= batch
      invariant forall k :: k in candidates <==> k in chosen || k in rest
      invariant forall k :: k in chosen ==> k !in rest
      invariant Distinct(chosen) && InPositionOrder(rows, chosen)
      invariant forall k, l :: k in chosen && l in rest ==> rows[k].position <= rows[l].position
      decreases |rest|
    {
      var key := Earliest(rows, rest);
      chosen := chosen + [key];
      rest := rest - {key};
    }
  }

  // ---------------------------------------------------------------- events of a batch

  function Appends(event: nat, consumers: seq<string>, partition: string, position: nat): seq<Runs.Event> {
    seq(|consumers|, i requires 0 <= i < |consumers| => Runs.Append(Key(event, consumers[i]), partition, position))
  }

  function Claims(owner: string, references: seq<Reference>): seq<Runs.Event> {
    seq(|references|, i requires 0 <= i < |references| => Runs.Claim(references[i].key, owner, references[i].token))
  }

  function Buries(keys: seq<Key>): seq<Runs.Event> {
    seq(|keys|, i requires 0 <= i < |keys| => Runs.Bury(keys[i]))
  }

  function Enqueues(owner: string, outcomes: seq<(Reference, bool)>): seq<Runs.Event> {
    seq(|outcomes|, i requires 0 <= i < |outcomes| =>
      Runs.Enqueue(outcomes[i].0.key, owner, outcomes[i].0.token, outcomes[i].1))
  }

  function Releases(owner: string, references: seq<Reference>): seq<Runs.Event> {
    seq(|references|, i requires 0 <= i < |references| => Runs.Release(references[i].key, owner, references[i].token))
  }

  // ---------------------------------------------------------------- claiming a batch

  /** Different rows that are due at once, and different tokens that nobody has. */
  ghost predicate AllDue(limits: Limits, w: Runs.World, references: seq<Reference>) {
    (forall i, j :: 0 <= i < j < |references| ==>
      references[i].key != references[j].key && references[i].token != references[j].token) &&
    forall i :: 0 <= i < |references| ==>
      references[i].key in w.rows && Due(limits, w.rows, references[i].key, w.now) && references[i].token !in w.issued
  }

  /** The first rows are leased, the others still due, and nothing else has changed. */
  ghost predicate Leased(limits: Limits, w: Runs.World, after: Runs.World, owner: string, references: seq<Reference>,
                         n: nat)
    requires n <= |references| && AllDue(limits, w, references)
  {
    after.now == w.now && after.rows.Keys == w.rows.Keys &&
    (forall k :: k in w.rows && k !in KeysOf(references[..n]) ==> after.rows[k] == w.rows[k]) &&
    (forall i :: 0 <= i < n ==>
      after.rows[references[i].key] == Claimed(limits, w.rows[references[i].key], owner, references[i].token, w.now)) &&
    (forall i :: n <= i < |references| ==>
      Due(limits, after.rows, references[i].key, w.now) && references[i].token !in after.issued)
  }

  lemma LeasedStep(limits: Limits, w: Runs.World, after: Runs.World, owner: string, references: seq<Reference>, n: nat)
    requires n < |references| && AllDue(limits, w, references) && Leased(limits, w, after, owner, references, n)
    ensures var r := references[n];
      Leased(limits, w, Runs.Step(limits, after, Runs.Claim(r.key, owner, r.token)), owner, references, n + 1)
  {
    hide Due, Claimed, Runs.Step, KeysOf;
    var r := references[n];
    KeysOfMore(references, n);
    Runs.ClaimsRow(limits, after, r.key, owner, r.token);
    var next := after.rows[r.key := Claimed(limits, after.rows[r.key], owner, r.token, w.now)];
    assert after.rows[r.key] == w.rows[r.key];
    forall i | n < i < |references| ensures Due(limits, next, references[i].key, w.now) {
      Runs.ClaimKeepsDue(limits, after.rows, w.now, r.key, owner, r.token, references[i].key);
    }
  }

  lemma KeysOfMore(references: seq<Reference>, n: nat)
    requires n < |references|
    ensures KeysOf(references[..n + 1]) == KeysOf(references[..n]) + {references[n].key}
    ensures (forall i :: 0 <= i < n ==> references[i].key != references[n].key) ==>
      references[n].key !in KeysOf(references[..n])
  {
    assert references[..n + 1] == references[..n] + [references[n]];
  }

  lemma NothingClaimed(limits: Limits, w: Runs.World, owner: string)
    ensures Runs.After(limits, w, Claims(owner, [])) == w
  {
    assert Claims(owner, []) == [];
  }

  lemma PrefixStep(limits: Limits, w: Runs.World, owner: string, references: seq<Reference>, n: nat)
    requires n < |references|
    ensures var r := references[n];
      Runs.After(limits, w, Claims(owner, references[..n + 1])) ==
      Runs.Step(limits, Runs.After(limits, w, Claims(owner, references[..n])), Runs.Claim(r.key, owner, r.token))
  {
    hide Runs.After, Runs.Step;
    var r := references[n];
    assert Claims(owner, references[..n + 1]) == Claims(owner, references[..n]) + [Runs.Claim(r.key, owner, r.token)];
    Runs.OneMore(limits, w, Claims(owner, references[..n]), Runs.Claim(r.key, owner, r.token));
  }

  /** Claiming row by row what was due at once does to each row what claiming it alone would. */
  lemma {:induction false} LeasedPrefix(limits: Limits, w: Runs.World, owner: string, references: seq<Reference>,
                                        n: nat)
    requires n <= |references| && AllDue(limits, w, references)
    ensures Leased(limits, w, Runs.After(limits, w, Claims(owner, references[..n])), owner, references, n)
  {
    if n == 0 {
      hide Due, Runs.After;
      NothingClaimed(limits, w, owner);
      assert references[..0] == [];
    } else {
      hide Leased, AllDue, Runs.After, Runs.Step;
      LeasedPrefix(limits, w, owner, references, n - 1);
      LeasedStep(limits, w, Runs.After(limits, w, Claims(owner, references[..n - 1])), owner, references, n - 1);
      PrefixStep(limits, w, owner, references, n - 1);
    }
  }

  predicate Exhausted(limits: Limits, d: Delivery, now: Time) {
    Claimable(d, now) && d.attempts >= limits.maxAttempts
  }

  /** The deliveries and what became of them: committed effects, charged attempts and issued tokens. */
  class Outbox {
    const limits: Limits
    var now: Time
    var rows: Rows
    ghost var effects: seq<Key>
    ghost var charges: seq<(Token, Key)>
    ghost var issued: set<Token>

    ghost function Contents(): Runs.World
      reads this
    {
      Runs.World(now, rows, effects, charges, issued)
    }

    ghost predicate Valid()
      reads this
    {
      Runs.Consistent(limits, Contents())
    }

    constructor (limits: Limits)
      requires limits.Valid()
      ensures Valid() && this.limits == limits && Contents() == Runs.Start()
    {
      this.limits := limits;
      now, rows, effects, charges, issued := 0, map[], [], [], {};
      new;
      Runs.StartIsValid(limits);
    }

    static method Create(limits: Limits) returns (outbox: Option<Outbox>)
      ensures outbox.Some? <==> limits.maxAttempts > 0 && limits.maxRetry > 0 && limits.lease > 0
      ensures outbox.Some? ==> fresh(outbox.value) && outbox.value.Valid() && outbox.value.Contents() == Runs.Start()
    {
      if limits.maxAttempts < 1 || limits.maxRetry < 1 || limits.lease < 1 { return None; }
      var made := new Outbox(limits);
      outbox := Some(made);
    }

    method Advance(time: Time)
      modifies this`now
      ensures Contents() == Runs.Step(limits, old(Contents()), Runs.Clock(time))
      ensures old(Valid()) ==> Valid()
    {
      hide Runs.Consistent;
      if Valid() { Runs.ConsistentStep(limits, Contents(), Runs.Clock(time)); }
      if time > now { now := time; }
    }

    // -------------------------------------------------------------- processor

    /** One execution; the handler's effects commit with the row or not at all. */
    method Execute(key: Key, token: Token, works: bool) returns (outcome: Outcome)
      modifies this
      ensures outcome.Missing? == (key !in old(rows))
      ensures outcome.Committed? || outcome.Raised? <==>
        key in old(rows) && old(rows)[key].status == Running && old(rows)[key].lease.Some? &&
        old(rows)[key].lease.value.token == token && old(rows)[key].lease.value.expiresAt > now
      ensures outcome.Committed? ==>
        var d := old(rows)[key];
        rows == old(rows)[key := d.(status := Succeeded, attempts := d.attempts + 1, lease := None)] &&
        charges == old(charges) + [(token, key)]
      ensures Contents() ==
        if outcome.Committed? then Runs.Step(limits, old(Contents()), Runs.Execute(key, token)) else old(Contents())
      ensures outcome.Committed? ==> works && effects == old(effects) + [key]
      ensures old(Valid()) ==> Valid()
      ensures old(Valid()) && outcome.Committed? ==>
        key !in old(effects) && forall k :: k in rows && Earlier(rows, k, key) ==> k in old(effects)
    {
      hide Runs.Consistent;
      if key !in rows { return Missing; }
      var d := rows[key];
      if d.status == Succeeded || d.status == Dead { return Stale; }
      if d.status != Running || d.lease.None? || d.lease.value.token != token || d.lease.value.expiresAt <= now {
        return Stale;
      }
      if !works { return Raised; }
      if Valid() {
        Runs.ConsistentStep(limits, Contents(), Runs.Execute(key, token));
        Runs.CommitsInTurn(limits, Contents(), key, token);
      }
      d := d.(attempts := d.attempts + 1);
      d := d.(status := Succeeded);
      d := d.(lease := None);
      rows := rows[key := d];
      effects, charges := effects + [key], charges + [(token, key)];
      outcome := Committed;
    }

    /** Charges one attempt to the token that holds the row, even past its lease, and buries the row at the maximum. */
    method RecordFailure(key: Key, token: Token) returns (outcome: Option<(Status, nat)>)
      modifies this
      ensures Contents() == Runs.Step(limits, old(Contents()), Runs.Fail(key, token))
      ensures outcome.Some? <==>
        key in old(rows) && old(rows)[key].status == Running && old(rows)[key].lease.Some? &&
        old(rows)[key].lease.value.token == token
      ensures outcome.Some? ==> charges == old(charges) + [(token, key)]
      ensures outcome.Some? ==>
        var d := old(rows)[key].(attempts := old(rows)[key].attempts + 1, lease := None, enqueued := false);
        rows == old(rows)[key :=
          if d.attempts >= limits.maxAttempts then d.(status := Dead)
          else
            var wait := Power(d.attempts);
            d.(status := Pending, availableAt := now + if wait <= limits.maxRetry then wait else limits.maxRetry)]
      ensures outcome.Some? && rows[key].status == Pending && limits.maxRetry > 0 ==>
        now < rows[key].availableAt <= now + limits.maxRetry
      ensures old(Valid()) ==> Valid()
      ensures old(Valid()) && outcome.Some? ==>
        forall i :: 0 <= i < |old(charges)| ==> old(charges)[i].0 != token
      ensures old(Valid()) && outcome.Some? ==>
        outcome.value == (rows[key].status, Runs.Charged(charges, key)) && outcome.value.1 <= limits.maxAttempts &&
        (outcome.value.0 == Dead <==> outcome.value.1 == limits.maxAttempts)
    {
      hide Runs.Consistent, RetryDelay, Runs.Charged;
      if key !in rows || !Holds(rows[key], token) { return None; }
      if Valid() {
        Runs.ConsistentStep(limits, Contents(), Runs.Fail(key, token));
        Runs.ChargesOnce(limits, Contents(), key, token);
      }
      var d := rows[key];
      d := d.(attempts := d.attempts + 1, enqueued := false);
      if d.attempts >= limits.maxAttempts {
        d := d.(status := Dead);
      } else {
        d := d.(status := Pending, availableAt := now + RetryDelay(d.attempts, limits.maxRetry));
      }
      d := d.(lease := None);
      rows, charges := rows[key := d], charges + [(token, key)];
      outcome := Some((d.status, d.attempts));
    }

    // -------------------------------------------------------------- writer

    /** One delivery per consumer of the event, all at its position. */
    method Append(event: nat, consumers: seq<string>, partition: string, position: nat)
      requires Distinct(consumers)
      requires forall c :: c in consumers ==> Runs.Appendable(rows, Key(event, c), partition, position)
      modifies this`rows
      ensures Contents() == Runs.After(limits, old(Contents()), Appends(event, consumers, partition, position))
      ensures old(Valid()) ==> Valid()
      ensures forall k :: k in rows <==> k in old(rows) || (k.event == event && k.consumer in consumers)
      ensures forall c :: c in consumers ==> rows[Key(event, c)] == Runs.NewRow(now, partition, position)
      ensures forall k :: k in old(rows) ==> rows[k] == old(rows)[k]
    {
      hide Runs.Consistent, Runs.After, Runs.Step;
      ghost var before, events := Contents(), Appends(event, consumers, partition, position);
      assert events[..0] == [];
      Runs.NoEvents(limits, before);
      for i := 0 to |consumers|
        invariant Contents() == Runs.After(limits, before, events[..i])
        invariant forall k :: k in rows <==> k in before.rows || (k.event == event && k.consumer in consumers[..i])
        invariant forall k :: k in before.rows ==> rows[k] == before.rows[k]
        invariant forall j :: 0 <= j < i ==> rows[Key(event, consumers[j])] == Runs.NewRow(now, partition, position)
      {
        var key := Key(event, consumers[i]);
        assert Runs.Appendable(before.rows, key, partition, position);
        Runs.AppendableBeside(before.rows, rows, key, partition, position);
        Runs.AppendsRow(limits, Contents(), key, partition, position);
        Runs.OneMore(limits, before, events[..i], events[i]);
        assert events[..i + 1] == events[..i] + [events[i]];
        rows := rows[key := Delivery(Pending, 0, None, now, false, 0, partition, position)];
      }
      assert events[..|consumers|] == events && consumers[..|consumers|] == consumers;
      if Runs.Consistent(limits, before) { Runs.ConsistentRun(limits, before, events); }
    }

    // -------------------------------------------------------------- relay

    /** Marks the earliest rows that are out of attempts as dead, as many as the batch allows. */
    method BuryExhausted(batch: nat, locked: set<Key>) returns (dead: seq<Key>)
      modifies this`rows
      ensures Contents() == Runs.After(limits, old(Contents()), Buries(dead)) && Distinct(dead)
      ensures forall k :: k in dead ==> k in old(rows) && k !in locked && Exhausted(limits, old(rows)[k], now)
      ensures rows.Keys == old(rows).Keys
      ensures forall k :: k in rows ==> rows[k] == if k in dead then Buried(old(rows)[k]) else old(rows)[k]
      ensures var exhausted := set k | k in old(rows) && k !in locked && Exhausted(limits, old(rows)[k], now);
        forall l :: l in exhausted && l !in dead ==>
          |dead| == batch && forall k :: k in dead ==> old(rows)[k].position <= old(rows)[l].position
    {
      hide Runs.After, Runs.Step, Exhausted;
      var exhausted := set k | k in rows && k !in locked && Exhausted(limits, rows[k], now);
      dead := Select(rows, exhausted, batch);
      ghost var before, events := Contents(), Buries(dead);
      assert events[..0] == [];
      Runs.NoEvents(limits, before);
      for i := 0 to |dead|
        invariant Contents() == Runs.After(limits, before, events[..i]) && rows.Keys == before.rows.Keys
        invariant forall k :: k in rows ==> rows[k] == if k in dead[..i] then Buried(before.rows[k]) else before.rows[k]
      {
        var key := dead[i];
        assert key !in dead[..i] && key in dead;
        BuriesRow(limits, Contents(), key);
        Runs.OneMore(limits, before, events[..i], events[i]);
        assert events[..i + 1] == events[..i] + [events[i]] && dead[..i + 1] == dead[..i] + [key];
        rows := rows[key := rows[key].(status := Dead, lease := None)];
      }
      assert events[..|dead|] == events && dead[..|dead|] == dead;
    }

    method LeaseOne(owner: string, r: Reference)
      requires r.key in rows && Due(limits, rows, r.key, now) && r.token !in issued
      modifies this`rows, this`issued
      ensures Contents() == Runs.Step(limits, old(Contents()), Runs.Claim(r.key, owner, r.token))
    {
      hide Due;
      Runs.ClaimsRow(limits, Contents(), r.key, owner, r.token);
      var d := rows[r.key];
      d := d.(status := Running, lease := Some(Lease(owner, r.token, now + limits.lease)));
      d := d.(enqueued := false, enqueues := d.enqueues + 1);
      rows, issued := rows[r.key := d], issued + {r.token};
    }

    method LeaseAll(owner: string, references: seq<Reference>)
      requires AllDue(limits, Contents(), references)
      modifies this
      ensures Contents() == Runs.After(limits, old(Contents()), Claims(owner, references))
      ensures Leased(limits, old(Contents()), Contents(), owner, references, |references|)
    {
      hide Runs.After, Runs.Step, Due, Leased, AllDue;
      ghost var before := Contents();
      NothingClaimed(limits, before, owner);
      for i := 0 to |references|
        invariant Contents() == Runs.After(limits, before, Claims(owner, references[..i]))
      {
        LeasedPrefix(limits, before, owner, references, i);
        NextIsDue(limits, before, Contents(), owner, references, i);
        LeaseOne(owner, references[i]);
        PrefixStep(limits, before, owner, references, i);
      }
      assert references[..|references|] == references;
      LeasedPrefix(limits, before, owner, references, |references|);
    }

    /**
     * Buries the rows that are out of attempts, then leases the earliest due deliveries under new tokens. Both batches
     * are chosen without the rows that other transactions hold.
     */
    method Claim(owner: string, batch: nat, locked: set<Key>, tokens: seq<Token>)
      returns (references: seq<Reference>, dead: seq<Key>)
      requires batch <= |tokens| && Distinct(tokens) && forall t :: t in tokens ==> t !in issued
      modifies this
      ensures Contents() ==
        Runs.After(limits, Runs.After(limits, old(Contents()), Buries(dead)), Claims(owner, references))
      ensures |references| <= batch
      ensures forall r :: r in references ==>
        r.key in old(rows) && r.key !in locked && Due(limits, old(rows), r.key, now) && r.key in rows &&
        rows[r.key] == Claimed(limits, old(rows)[r.key], owner, r.token, now)
      ensures rows.Keys == old(rows).Keys
      ensures forall k :: k in rows && k !in KeysOf(references) ==>
        rows[k] == if k in dead then Buried(old(rows)[k]) else old(rows)[k]
      ensures forall k :: k in dead ==> k in old(rows) && k !in locked && Exhausted(limits, old(rows)[k], now)
      ensures forall i, j :: 0 <= i < j < |references| ==>
        old(rows)[references[i].key].position <= old(rows)[references[j].key].position
      ensures var waiting := set k | k in old(rows) && k !in locked && Due(limits, old(rows), k, now);
        forall k :: k in waiting && k !in KeysOf(references) ==>
          |references| == batch &&
          forall r :: r in references ==> old(rows)[r.key].position <= old(rows)[k].position
      ensures old(Valid()) ==> Valid() && dead == []
      ensures old(Valid()) ==> forall i, j :: 0 <= i < j < |references| ==>
        !SamePartition(old(rows), references[i].key, references[j].key)
    {
      hide Runs.Consistent, Runs.After, Due, Exhausted, Claimed, SamePartition, Leased, AllDue, KeysOf;
      hide Distinct, InPositionOrder, Buried;
      ghost var before := Contents();
      if Valid() { NoneExhausted(limits, before); }
      dead := BuryExhausted(batch, locked);
      ghost var mid := Contents();
      BuriedKeepDue(limits, before, mid, dead);
      var due := set k | k in rows && k !in locked && Due(limits, rows, k, now);
      var chosen := Select(rows, due, batch);
      references := seq(|chosen|, i requires 0 <= i < |chosen| => Reference(chosen[i], tokens[i]));
      ChosenAreDue(limits, mid, chosen, tokens, references);
      LeaseAll(owner, references);
      BatchIsLeased(limits, mid, Contents(), owner, references);
      BatchIsEarliest(mid, references, chosen);
      if Runs.Consistent(limits, before) {
        SomeMember(dead);
        NothingBuried(limits, before);
        BatchIsApart(limits, before, references);
        Runs.ConsistentRun(limits, before, Claims(owner, references));
      }
    }

    /** Broker outcomes of a batch; a refused message gives the row back without charging an attempt. */
    method RecordEnqueues(owner: string, outcomes: seq<(Reference, bool)>)
      modifies this`rows
      ensures Contents() == Runs.After(limits, old(Contents()), Enqueues(owner, outcomes))
      ensures old(Valid()) ==> Valid()
      ensures rows.Keys == old(rows).Keys
      ensures forall k :: k in rows ==> EnqueueMoves(limits, old(rows)[k], rows[k], owner, now)
    {
      hide Runs.Consistent, Runs.After, Runs.Step, RetryDelay, EnqueueMoves, OwnsLiveLease;
      Unmoved(limits, owner, now);
      ghost var before, events := Contents(), Enqueues(owner, outcomes);
      assert events[..0] == [];
      Runs.NoEvents(limits, before);
      for i := 0 to |outcomes|
        invariant Contents() == Runs.After(limits, before, events[..i])
        invariant rows.Keys == before.rows.Keys &&
          forall k :: k in rows ==> EnqueueMoves(limits, before.rows[k], rows[k], owner, now)
      {
        var r, accepted := outcomes[i].0, outcomes[i].1;
        Runs.OneMore(limits, before, events[..i], events[i]);
        assert events[..i + 1] == events[..i] + [events[i]];
        Runs.EnqueuesRow(limits, Contents(), r.key, owner, r.token, accepted);
        if r.key in rows && OwnsLiveLease(rows[r.key], owner, r.token, now) {
          MovesOn(limits, before.rows[r.key], rows[r.key], owner, r.token, now, accepted);
          var d := rows[r.key];
          if accepted {
            d := d.(enqueued := true);
          } else {
            d := d.(status := Pending, availableAt := now + RetryDelay(d.enqueues, limits.maxRetry));
            d := d.(lease := None, enqueued := false);
          }
          rows := rows[r.key := d];
        }
      }
      assert events[..|outcomes|] == events;
      if Runs.Consistent(limits, before) { Runs.ConsistentRun(limits, before, events); }
    }

    /** Gives back the owner's claims that no message was sent for, and only those. */
    method Release(owner: string, references: seq<Reference>)
      modifies this`rows
      ensures Contents() == Runs.After(limits, old(Contents()), Releases(owner, references))
      ensures old(Valid()) ==> Valid()
      ensures rows.Keys == old(rows).Keys && forall k :: k in rows ==> ReleaseMoves(old(rows)[k], rows[k], owner)
      ensures forall r :: r in references && r.key in rows ==> !Releasable(rows[r.key], owner, r.token)
    {
      hide Runs.Consistent, Runs.After, Runs.Step;
      ghost var before, events := Contents(), Releases(owner, references);
      assert events[..0] == [];
      Runs.NoEvents(limits, before);
      for i := 0 to |references|
        invariant Contents() == Runs.After(limits, before, events[..i])
        invariant rows.Keys == before.rows.Keys &&
          forall k :: k in rows ==> ReleaseMoves(before.rows[k], rows[k], owner)
        invariant forall j :: 0 <= j < i && references[j].key in rows ==>
          !Releasable(rows[references[j].key], owner, references[j].token)
      {
        var r := references[i];
        Runs.OneMore(limits, before, events[..i], events[i]);
        assert events[..i + 1] == events[..i] + [events[i]];
        Runs.ReleasesRow(limits, Contents(), r.key, owner, r.token);
        if r.key in rows && Releasable(rows[r.key], owner, r.token) {
          rows := rows[r.key := rows[r.key].(status := Pending, lease := None)];
        }
      }
      assert events[..|references|] == events;
      if Runs.Consistent(limits, before) { Runs.ConsistentRun(limits, before, events); }
    }
  }

  predicate Releasable(d: Delivery, owner: string, token: Token) {
    Holds(d, token) && d.lease.value.owner == owner && !d.enqueued
  }

  /** The row is unchanged, or was this owner's unsent claim and is pending again with as many attempts. */
  predicate ReleaseMoves(before: Delivery, after: Delivery, owner: string) {
    after == before ||
    (before.status == Running && before.lease.Some? && before.lease.value.owner == owner && !before.enqueued &&
     after == before.(status := Pending, lease := None))
  }

  /**
   * The row is unchanged, or was leased to this owner and is enqueued, or pending again after the wait of its enqueue
   * count, with as many attempts.
   */
  predicate EnqueueMoves(limits: Limits, before: Delivery, after: Delivery, owner: string, now: Time) {
    after == before ||
    (before.status == Running && before.lease.Some? && before.lease.value.owner == owner &&
     before.lease.value.expiresAt > now &&
     (after == before.(enqueued := true) ||
      (after == before.(status := Pending, lease := None, enqueued := false, availableAt := after.availableAt) &&
       var wait := Power(Max(before.enqueues, 1));
       after.availableAt == now + (if wait <= limits.maxRetry then wait else limits.maxRetry) &&
       (limits.maxRetry > 0 ==> now < after.availableAt <= now + limits.maxRetry))))
  }

  lemma Unmoved(limits: Limits, owner: string, now: Time)
    ensures forall d :: EnqueueMoves(limits, d, d, owner, now)
  {}

  lemma MovesOn(limits: Limits, first: Delivery, d: Delivery, owner: string, token: Token, now: Time, accepted: bool)
    requires EnqueueMoves(limits, first, d, owner, now) && OwnsLiveLease(d, owner, token, now)
    ensures EnqueueMoves(limits, first, Enqueued(limits, d, owner, token, now, accepted), owner, now)
  {
    hide Power;
  }

  lemma ChosenAreDue(limits: Limits, w: Runs.World, chosen: seq<Key>, tokens: seq<Token>, references: seq<Reference>)
    requires Distinct(chosen) && |references| == |chosen| <= |tokens| && Distinct(tokens)
    requires forall t :: t in tokens ==> t !in w.issued
    requires forall k :: k in chosen ==> k in w.rows && Due(limits, w.rows, k, w.now)
    requires forall i :: 0 <= i < |chosen| ==> references[i] == Reference(chosen[i], tokens[i])
    ensures AllDue(limits, w, references)
  {
    hide Due;
  }

  lemma NextIsDue(limits: Limits, w: Runs.World, after: Runs.World, owner: string, references: seq<Reference>, n: nat)
    requires n < |references| && AllDue(limits, w, references) && Leased(limits, w, after, owner, references, n)
    ensures var r := references[n];
      r.key in after.rows && Due(limits, after.rows, r.key, after.now) && r.token !in after.issued
  {
    hide Due, KeysOf, Claimed;
  }

  lemma BatchIsLeased(limits: Limits, w: Runs.World, after: Runs.World, owner: string, references: seq<Reference>)
    requires AllDue(limits, w, references) && Leased(limits, w, after, owner, references, |references|)
    ensures forall r :: r in references ==>
      r.key in w.rows && Due(limits, w.rows, r.key, w.now) && r.key in after.rows &&
      after.rows[r.key] == Claimed(limits, w.rows[r.key], owner, r.token, w.now)
    ensures after.now == w.now && after.rows.Keys == w.rows.Keys
    ensures forall k :: k in after.rows && k !in KeysOf(references) ==> after.rows[k] == w.rows[k]
  {
    hide Due, KeysOf, Claimed;
    assert references[..|references|] == references;
  }

  lemma BatchIsEarliest(w: Runs.World, references: seq<Reference>, chosen: seq<Key>)
    requires |references| == |chosen| && (forall k :: k in chosen ==> k in w.rows) && InPositionOrder(w.rows, chosen)
    requires forall i :: 0 <= i < |chosen| ==> references[i].key == chosen[i]
    ensures forall k :: k in KeysOf(references) <==> k in chosen
    ensures forall r :: r in references ==> r.key in chosen
    ensures forall i, j :: 0 <= i < j < |references| ==>
      references[i].key in w.rows && references[j].key in w.rows &&
      w.rows[references[i].key].position <= w.rows[references[j].key].position
  {
    hide KeysOf;
    KeysOfChosen(references, chosen);
  }

  lemma BatchIsApart(limits: Limits, w: Runs.World, references: seq<Reference>)
    requires Runs.Consistent(limits, w) && AllDue(limits, w, references)
    ensures forall i, j :: 0 <= i < j < |references| ==> !SamePartition(w.rows, references[i].key, references[j].key)
  {
    hide Due, SamePartition;
    SeparateRows(limits, w);
    forall i, j | 0 <= i < j < |references| ensures !SamePartition(w.rows, references[i].key, references[j].key) {
      Runs.DueApart(limits, w.rows, w.now, references[i].key, references[j].key);
    }
  }

  // ---------------------------------------------------------------- burying a batch

  lemma BuriesRow(limits: Limits, w: Runs.World, key: Key)
    requires key in w.rows && Exhausted(limits, w.rows[key], w.now)
    ensures Runs.Step(limits, w, Runs.Bury(key)) == w.(rows := w.rows[key := Buried(w.rows[key])])
  {}

  lemma SomeMember(keys: seq<Key>)
    ensures keys != [] ==> exists k :: k in keys
  {
    if keys != [] { assert keys[0] in keys; }
  }

  lemma NothingBuried(limits: Limits, w: Runs.World)
    ensures Runs.After(limits, w, Buries([])) == w
  {
    assert Buries([]) == [];
  }

  /** Burying makes no row due and none undue: the buried were not due, and they still block the later ones. */
  lemma BuriedKeepDue(limits: Limits, w: Runs.World, after: Runs.World, dead: seq<Key>)
    requires after.rows.Keys == w.rows.Keys && after.now == w.now
    requires forall k :: k in dead ==> k in w.rows && Exhausted(limits, w.rows[k], w.now)
    requires forall k :: k in w.rows ==> after.rows[k] == if k in dead then Buried(w.rows[k]) else w.rows[k]
    ensures forall k :: k in w.rows ==> (Due(limits, after.rows, k, w.now) <==> Due(limits, w.rows, k, w.now))
    ensures forall k :: k in w.rows ==> after.rows[k].position == w.rows[k].position
    ensures forall k :: k in w.rows && Due(limits, w.rows, k, w.now) ==> after.rows[k] == w.rows[k]
  {
    forall k | k in w.rows ensures Due(limits, after.rows, k, w.now) <==> Due(limits, w.rows, k, w.now) {
      forall p | p in w.rows ensures Earlier(after.rows, p, k) <==> Earlier(w.rows, p, k) {}
    }
  }

  lemma KeysOfChosen(references: seq<Reference>, chosen: seq<Key>)
    requires |references| == |chosen| && forall j :: 0 <= j < |chosen| ==> references[j].key == chosen[j]
    ensures forall k :: k in KeysOf(references) <==> k in chosen
    ensures forall r :: r in references ==> r.key in chosen
  {
    forall k | k in chosen ensures k in KeysOf(references) {
      var j :| 0 <= j < |chosen| && chosen[j] == k;
      assert references[j] in references;
    }
  }

  lemma SeparateRows(limits: Limits, w: Runs.World)
    requires Runs.Consistent(limits, w)
    ensures Runs.Separate(w.rows)
  {}

  function KeysOf(references: seq<Reference>): set<Key> {
    set r | r in references :: r.key
  }

  /** A row out of attempts is never pending or running. */
  lemma NoneExhausted(limits: Limits, w: Runs.World)
    requires Runs.Consistent(limits, w)
    ensures forall k :: k in w.rows ==> !Exhausted(limits, w.rows[k], w.now)
  {
    hide Runs.Accounted, Runs.TokensOk, Runs.InOrder, Runs.Separate, Runs.EffectsStored, Runs.EffectsInOrder;
  }
}
