/** Whatever the crashes, a completed phase has committed every row with a positive key exactly once, in key order. */
module MigrationRuns {
  import opened Basics
  import opened MigrationPhases

  function Flatten(batches: seq<seq<Row>>): seq<Row> {
    if batches == [] then [] else Flatten(batches[..|batches| - 1]) + batches[|batches| - 1]
  }

  // ---------------------------------------------------------------- batches

  lemma {:induction false} NothingBelow(rows: seq<Row>, low: int, high: int)
    requires forall i :: 0 <= i < |rows| ==> rows[i].key > high
    ensures Between(rows, low, high) == []
  {
    if rows != [] { NothingBelow(rows[1..], low, high); }
  }

  lemma BetweenHead(rows: seq<Row>, low: int, high: int)
    requires rows != []
    ensures Between(rows, low, high) ==
      if low < rows[0].key <= high then [rows[0]] + Between(rows[1..], low, high) else Between(rows[1..], low, high)
  {}

  lemma OrderedTail(rows: seq<Row>, mid: int)
    requires Ordered(rows) && rows != []
    ensures Ordered(rows[1..])
    ensures rows[0].key > mid ==> forall low :: Between(rows[1..], low, mid) == []
  {
    if rows[0].key > mid {
      forall low ensures Between(rows[1..], low, mid) == [] { NothingBelow(rows[1..], low, mid); }
    }
  }

  lemma Regroup(row: Row, a: seq<Row>, b: seq<Row>)
    ensures ([row] + a) + b == [row] + (a + b) && [] + b == b
  {}

  lemma {:induction false} BetweenSplits(rows: seq<Row>, low: int, mid: int, high: int)
    requires Ordered(rows) && low <= mid <= high
    ensures Between(rows, low, mid) + Between(rows, mid, high) == Between(rows, low, high)
  {
    hide Ordered;
    if rows != [] {
      hide Between;
      OrderedTail(rows, mid);
      BetweenSplits(rows[1..], low, mid, high);
      BetweenHead(rows, low, mid);
      BetweenHead(rows, mid, high);
      BetweenHead(rows, low, high);
      Regroup(rows[0], Between(rows[1..], low, mid), Between(rows[1..], mid, high));
      if rows[0].key > mid {
        assert Between(rows, low, mid) == [];
        Regroup(rows[0], [], Between(rows, mid, high));
      }
    }
  }

  /** Above the cursor there is nothing, so the rows up to it are all. */
  lemma {:induction false} UpToIsAll(rows: seq<Row>, cursor: int)
    requires Above(rows, cursor) == []
    ensures Between(rows, 0, cursor) == Above(rows, 0)
  {
    if rows != [] { UpToIsAll(rows[1..], cursor); }
  }

  lemma {:induction false} AboveMember(rows: seq<Row>, low: int, row: Row)
    ensures row in Above(rows, low) <==> row in rows && row.key > low
  {
    if rows != [] {
      AboveMember(rows[1..], low, row);
      assert rows == [rows[0]] + rows[1..];
    }
  }

  lemma {:induction false} BetweenMember(rows: seq<Row>, low: int, high: int, row: Row)
    ensures row in Between(rows, low, high) <==> row in rows && low < row.key <= high
  {
    if rows != [] {
      BetweenMember(rows[1..], low, high, row);
      assert rows == [rows[0]] + rows[1..];
    }
  }

  lemma {:induction false} BetweenOrdered(rows: seq<Row>, low: int, high: int)
    requires Ordered(rows)
    ensures Ordered(Between(rows, low, high))
  {
    if rows != [] {
      BetweenOrdered(rows[1..], low, high);
      var rest := Between(rows[1..], low, high);
      forall i | 0 <= i < |rest| ensures rows[0].key <= rest[i].key { BetweenMember(rows[1..], low, high, rest[i]); }
    }
  }

  /** A batch is empty only at the end; otherwise it covers exactly the keys up to its last one. */
  lemma BatchCovers(rows: seq<Row>, cursor: int, size: nat)
    requires size > 0 && Ordered(rows)
    ensures var batch := NextBatch(rows, cursor, size);
      (batch == [] ==> Above(rows, cursor) == []) &&
      (batch != [] ==> cursor < batch[|batch| - 1].key && batch == Between(rows, cursor, batch[|batch| - 1].key))
  {
    hide Above, Between;
    var later := Above(rows, cursor);
    if later != [] {
      var end := later[(if size < |later| then size else |later|) - 1];
      var batch := Between(rows, cursor, end.key);
      AboveMember(rows, cursor, end);
      BetweenMember(rows, cursor, end.key, end);
      BetweenMember(rows, cursor, end.key, batch[|batch| - 1]);
      BetweenOrdered(rows, cursor, end.key);
    }
  }

  lemma {:induction false} AboveOrdered(rows: seq<Row>, low: int)
    requires Ordered(rows)
    ensures Ordered(Above(rows, low))
  {
    if rows != [] {
      AboveOrdered(rows[1..], low);
      var rest := Above(rows[1..], low);
      forall i | 0 <= i < |rest| ensures rows[0].key <= rest[i].key { AboveMember(rows[1..], low, rest[i]); }
    }
  }

  /** A batch is the next page of rows, and past it only rows that share the key of its last one. */
  lemma BatchIsPage(rows: seq<Row>, cursor: int, size: nat)
    requires size > 0 && Ordered(rows)
    ensures var batch, later := NextBatch(rows, cursor, size), Above(rows, cursor);
      batch <= later && (|batch| < size ==> batch == later) &&
      forall i :: size <= i < |batch| ==> batch[i].key == batch[size - 1].key
  {
    hide Above, Between;
    var later, batch := Above(rows, cursor), NextBatch(rows, cursor, size);
    if later != [] {
      var n := if size < |later| then size else |later|;
      var end := later[n - 1];
      var rest := Above(rows, end.key);
      AboveOrdered(rows, cursor);
      AboveMember(rows, cursor, end);
      AboveSplits(rows, cursor, end.key);
      assert later == batch + rest;
      if rest != [] {
        AboveMember(rows, end.key, rest[0]);
        assert rest[0] == later[|batch|];
        assert |batch| >= n;
      } else {
        assert batch == later;
      }
      forall i | 0 <= i < |batch| ensures batch[i].key <= end.key { BetweenMember(rows, cursor, end.key, batch[i]); }
    }
  }

  // ---------------------------------------------------------------- invariant

  ghost predicate ValidPhases(phases: seq<Phase>) {
    (forall i, j :: 0 <= i < j < |phases| ==> phases[i].name != phases[j].name) &&
    (forall i :: 0 <= i < |phases| && phases[i].Batched? ==> Ordered(phases[i].rows))
  }

  /** What a phase has committed so far, and all of it once it is completed. */
  ghost predicate PhaseOk(t: Target, phase: Phase) {
    match phase
    case Single(name) => BatchesOf(t, name) == if IsDone(t, phase) then [[]] else []
    case Batched(name, rows) =>
      if IsDone(t, phase) then Flatten(BatchesOf(t, name)) == Above(rows, 0)
      else CursorFor(t, name) >= 0 && Flatten(BatchesOf(t, name)) == Between(rows, 0, CursorFor(t, name))
  }

  /** Every earlier phase is completed, and no later one has started. */
  ghost predicate Good(t: Target, phases: seq<Phase>) {
    (forall i :: 0 <= i < |phases| ==> PhaseOk(t, phases[i])) &&
    (forall i :: FirstPending(t, phases) < i < |phases| && !IsDone(t, phases[i]) ==>
      t.checkpoint.phase != phases[i].name)
  }

  lemma {:induction false} NothingAtZero(rows: seq<Row>)
    ensures Between(rows, 0, 0) == []
  {
    if rows != [] { NothingAtZero(rows[1..]); }
  }

  lemma StartIsGood(phases: seq<Phase>, identity: string)
    requires forall i :: 0 <= i < |phases| ==> phases[i].name != "pending"
    ensures Good(Target(Checkpoint(identity, "pending", 0, []), map[]), phases)
  {
    hide FirstPending;
    var t := Target(Checkpoint(identity, "pending", 0, []), map[]);
    forall i | 0 <= i < |phases| ensures PhaseOk(t, phases[i]) {
      if phases[i].Batched? { NothingAtZero(phases[i].rows); }
    }
  }

  lemma FlattenAppend(batches: seq<seq<Row>>, batch: seq<Row>)
    ensures Flatten(batches + [batch]) == Flatten(batches) + batch
  {
    assert (batches + [batch])[..|batches|] == batches;
  }

  /** One transaction of a phase that is not completed keeps what the phase promises. */
  lemma TransactKeepsPhase(t: Target, phase: Phase, size: nat)
    requires size > 0 && !IsDone(t, phase) && PhaseOk(t, phase) && (phase.Batched? ==> Ordered(phase.rows))
    ensures PhaseOk(Transact(t, phase, size), phase)
  {
    hide Between, Above, NextBatch, Flatten;
    if phase.Batched? {
      var cursor := CursorFor(t, phase.name);
      var batch := NextBatch(phase.rows, cursor, size);
      BatchCovers(phase.rows, cursor, size);
      if batch == [] {
        UpToIsAll(phase.rows, cursor);
      } else {
        BetweenSplits(phase.rows, 0, cursor, batch[|batch| - 1].key);
        FlattenAppend(BatchesOf(t, phase.name), batch);
      }
    }
  }

  /** It touches no other phase. */
  lemma TransactKeepsOthers(t: Target, phase: Phase, size: nat, other: Phase)
    requires size > 0 && other.name != phase.name && PhaseOk(t, other)
    requires IsDone(t, other) || t.checkpoint.phase != other.name
    ensures PhaseOk(Transact(t, phase, size), other)
    ensures IsDone(Transact(t, phase, size), other) == IsDone(t, other)
  {
    hide Between, Above, NextBatch, Flatten;
  }

  lemma TransactKeeps(t: Target, phases: seq<Phase>, size: nat)
    requires size > 0 && ValidPhases(phases) && Good(t, phases) && FirstPending(t, phases) < |phases|
    ensures Good(Transact(t, phases[FirstPending(t, phases)], size), phases)
  {
    hide Transact, PhaseOk, FirstPending;
    var n := FirstPending(t, phases);
    var after := Transact(t, phases[n], size);
    forall i | 0 <= i < |phases|
      ensures PhaseOk(after, phases[i]) && (i != n ==> IsDone(after, phases[i]) == IsDone(t, phases[i]))
    {
      if i == n { TransactKeepsPhase(t, phases[n], size); } else { TransactKeepsOthers(t, phases[n], size, phases[i]); }
    }
    assert after.checkpoint.phase == phases[n].name by { TransactNames(t, phases[n], size); }
    assert FirstPending(after, phases) >= n by { PendingAtLeast(after, phases, n); }
  }

  lemma PendingAtLeast(t: Target, phases: seq<Phase>, n: nat)
    requires n <= |phases| && forall i :: 0 <= i < n ==> IsDone(t, phases[i])
    ensures FirstPending(t, phases) >= n
  {
    hide FirstPending;
  }

  lemma TransactNames(t: Target, phase: Phase, size: nat)
    requires size > 0
    ensures Transact(t, phase, size).checkpoint.phase == phase.name
    ensures Transact(t, phase, size).checkpoint.identity == t.checkpoint.identity
    ensures IsDone(Transact(t, phase, size), phase) && !IsDone(t, phase) ==>
      Transact(t, phase, size).checkpoint.cursor == 0
  {
    hide NextBatch;
  }

  lemma {:induction false} AdvancedIsGood(t: Target, phases: seq<Phase>, size: nat, budget: nat)
    requires size > 0 && ValidPhases(phases) && Good(t, phases)
    ensures Good(Advanced(t, phases, size, budget), phases)
    ensures Advanced(t, phases, size, budget).checkpoint.identity == t.checkpoint.identity
    decreases budget
  {
    hide Transact, FirstPending, Good;
    var n := FirstPending(t, phases);
    if budget > 0 && n < |phases| {
      TransactKeeps(t, phases, size);
      TransactNames(t, phases[n], size);
      AdvancedIsGood(Transact(t, phases[n], size), phases, size, budget - 1);
    }
  }

  // ---------------------------------------------------------------- crashes and resumes

  /** A series of invocations, each dying after its own number of transactions. */
  function Resumed(t: Target, phases: seq<Phase>, size: nat, budgets: seq<nat>): Target
    requires size > 0
    decreases |budgets|
  {
    if budgets == [] then t else Resumed(Advanced(t, phases, size, budgets[0]), phases, size, budgets[1..])
  }

  function Total(budgets: seq<nat>): nat { if budgets == [] then 0 else budgets[0] + Total(budgets[1..]) }

  /** Crashing and resuming commits the same transactions as one uninterrupted run. */
  lemma {:induction false} CrashesChangeNothing(t: Target, phases: seq<Phase>, size: nat, budgets: seq<nat>)
    requires size > 0
    ensures Resumed(t, phases, size, budgets) == Advanced(t, phases, size, Total(budgets))
    decreases |budgets|
  {
    hide Advanced;
    if budgets == [] {
      assert Advanced(t, phases, size, 0) == t by { NoBudget(t, phases, size); }
    } else {
      CrashesChangeNothing(Advanced(t, phases, size, budgets[0]), phases, size, budgets[1..]);
      AdvancedTwice(t, phases, size, budgets[0], Total(budgets[1..]));
    }
  }

  lemma NoBudget(t: Target, phases: seq<Phase>, size: nat)
    requires size > 0
    ensures Advanced(t, phases, size, 0) == t
  {}

  /** After any crashes and resumes, a completed phase has committed each row with a positive key once, in key order. */
  lemma CompletedPhasesAreExact(phases: seq<Phase>, size: nat, identity: string, budgets: seq<nat>, i: nat)
    requires size > 0 && ValidPhases(phases) && i < |phases|
    requires forall j :: 0 <= j < |phases| ==> phases[j].name != "pending"
    ensures var t := Resumed(Target(Checkpoint(identity, "pending", 0, []), map[]), phases, size, budgets);
      t.checkpoint.identity == identity &&
      (IsDone(t, phases[i]) ==>
        if phases[i].Single? then BatchesOf(t, phases[i].name) == [[]]
        else Flatten(BatchesOf(t, phases[i].name)) == Above(phases[i].rows, 0))
  {
    hide Resumed, Advanced, Flatten, Above, Between, FirstPending;
    var start := Target(Checkpoint(identity, "pending", 0, []), map[]);
    StartIsGood(phases, identity);
    CrashesChangeNothing(start, phases, size, budgets);
    AdvancedIsGood(start, phases, size, Total(budgets));
    var t := Resumed(start, phases, size, budgets);
    assert PhaseOk(t, phases[i]);
  }

  // ---------------------------------------------------------------- progress

  /** Transactions a phase may still need: one to complete it, and at most one per row above its cursor. */
  function LeftOf(t: Target, phase: Phase): nat {
    if IsDone(t, phase) then 0
    else if phase.Single? then 1
    else 1 + |Above(phase.rows, CursorFor(t, phase.name))|
  }

  function Left(t: Target, phases: seq<Phase>): nat {
    if phases == [] then 0 else LeftOf(t, phases[0]) + Left(t, phases[1..])
  }

  lemma {:induction false} AboveSplits(rows: seq<Row>, low: int, mid: int)
    requires Ordered(rows) && low <= mid
    ensures Between(rows, low, mid) + Above(rows, mid) == Above(rows, low)
  {
    if rows != [] {
      var first, rest := rows[0], rows[1..];
      AboveSplits(rest, low, mid);
      if first.key > mid {
        NothingBelow(rest, low, mid);
        assert Between(rows, low, mid) == [];
      } else if first.key > low {
        assert [first] + Between(rest, low, mid) + Above(rest, mid) ==
          [first] + (Between(rest, low, mid) + Above(rest, mid));
      }
    }
  }

  lemma TransactReduces(t: Target, phase: Phase, size: nat)
    requires size > 0 && !IsDone(t, phase) && (phase.Batched? ==> Ordered(phase.rows))
    ensures LeftOf(Transact(t, phase, size), phase) < LeftOf(t, phase)
  {
    hide Between, Above, NextBatch;
    if phase.Batched? {
      var cursor := CursorFor(t, phase.name);
      var batch := NextBatch(phase.rows, cursor, size);
      BatchCovers(phase.rows, cursor, size);
      if batch != [] { AboveSplits(phase.rows, cursor, batch[|batch| - 1].key); }
    }
  }

  lemma OthersKeepLeft(t: Target, phase: Phase, size: nat, other: Phase)
    requires size > 0 && other.name != phase.name && (IsDone(t, other) || t.checkpoint.phase != other.name)
    ensures LeftOf(Transact(t, phase, size), other) == LeftOf(t, other)
  {
    hide Above, NextBatch;
  }

  lemma {:induction false} LeftShrinks(t: Target, after: Target, phases: seq<Phase>, n: nat)
    requires n < |phases| && LeftOf(after, phases[n]) < LeftOf(t, phases[n])
    requires forall i :: 0 <= i < |phases| && i != n ==> LeftOf(after, phases[i]) == LeftOf(t, phases[i])
    ensures Left(after, phases) < Left(t, phases)
    decreases |phases|
  {
    hide LeftOf;
    if n == 0 {
      LeftSame(t, after, phases[1..]);
    } else {
      LeftShrinks(t, after, phases[1..], n - 1);
    }
  }

  lemma {:induction false} LeftSame(t: Target, after: Target, phases: seq<Phase>)
    requires forall i :: 0 <= i < |phases| ==> LeftOf(after, phases[i]) == LeftOf(t, phases[i])
    ensures Left(after, phases) == Left(t, phases)
  {
    hide LeftOf;
    if phases != [] { LeftSame(t, after, phases[1..]); }
  }

  lemma TransactShrinks(t: Target, phases: seq<Phase>, size: nat)
    requires size > 0 && ValidPhases(phases) && Good(t, phases) && FirstPending(t, phases) < |phases|
    ensures Left(Transact(t, phases[FirstPending(t, phases)], size), phases) < Left(t, phases)
  {
    hide Transact, FirstPending, LeftOf, Left, PhaseOk;
    var n := FirstPending(t, phases);
    TransactReduces(t, phases[n], size);
    forall i | 0 <= i < |phases| && i != n
      ensures LeftOf(Transact(t, phases[n], size), phases[i]) == LeftOf(t, phases[i])
    {
      OthersKeepLeft(t, phases[n], size, phases[i]);
    }
    LeftShrinks(t, Transact(t, phases[n], size), phases, n);
  }

  /** Enough transactions, over however many invocations, complete every phase. */
  lemma {:induction false} EnoughCompletes(t: Target, phases: seq<Phase>, size: nat, budget: nat)
    requires size > 0 && ValidPhases(phases) && Good(t, phases) && budget >= Left(t, phases)
    ensures forall i :: 0 <= i < |phases| ==> IsDone(Advanced(t, phases, size, budget), phases[i])
    decreases budget
  {
    hide Transact, FirstPending, Good, Left;
    var n := FirstPending(t, phases);
    if n < |phases| {
      TransactShrinks(t, phases, size);
      TransactKeeps(t, phases, size);
      EnoughCompletes(Transact(t, phases[n], size), phases, size, budget - 1);
    }
  }
}
