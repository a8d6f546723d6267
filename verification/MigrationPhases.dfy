/** Resumable migration phases: batches by key, checkpoints in the handler's transaction, crashes anywhere between. */
module MigrationPhases {
  import opened Basics

  datatype Row = Row(key: int, value: string)

  /** A phase with its source rows in key order, or one that runs in a single transaction. */
  datatype Phase = Batched(name: string, rows: seq<Row>) | Single(name: string)

  datatype Checkpoint = Checkpoint(identity: string, phase: string, cursor: int, completed: seq<string>)

  /** What survives a crash: the checkpoint, and per phase the batches its handler committed. */
  datatype Target = Target(checkpoint: Checkpoint, committed: map<string, seq<seq<Row>>>)

  // ---------------------------------------------------------------- the source

  ghost predicate Ordered(rows: seq<Row>) {
    forall i, j :: 0 <= i < j < |rows| ==> rows[i].key <= rows[j].key
  }

  /** The rows with a key above one bound and up to another. */
  function Between(rows: seq<Row>, low: int, high: int): seq<Row> {
    if rows == [] then []
    else (if low < rows[0].key <= high then [rows[0]] else []) + Between(rows[1..], low, high)
  }

  /** The rows with a key above a bound. */
  function Above(rows: seq<Row>, low: int): seq<Row> {
    if rows == [] then [] else (if low < rows[0].key then [rows[0]] else []) + Above(rows[1..], low)
  }

  /** The next batch: up to the key that ends a page, with every duplicate of that key. */
  function NextBatch(rows: seq<Row>, cursor: int, size: nat): seq<Row>
    requires size > 0
  {
    var later := Above(rows, cursor);
    if later == [] then []
    else Between(rows, cursor, later[(if size < |later| then size else |later|) - 1].key)
  }

  // ---------------------------------------------------------------- transactions

  /** Advancing a checkpoint keeps its identity and never loses a completed phase. */
  function NextCheckpoint(c: Checkpoint, phase: string, cursor: int, completes: bool): Checkpoint {
    Checkpoint(c.identity, phase, cursor,
      if completes && phase !in c.completed then c.completed + [phase] else c.completed)
  }

  function CursorFor(t: Target, phase: string): int {
    if t.checkpoint.phase == phase then t.checkpoint.cursor else 0
  }

  function BatchesOf(t: Target, phase: string): seq<seq<Row>> {
    if phase in t.committed then t.committed[phase] else []
  }

  /** A handler's batch and the checkpoint commit together. */
  function Committed(t: Target, phase: string, batch: seq<Row>, cursor: int, completes: bool): Target {
    Target(NextCheckpoint(t.checkpoint, phase, cursor, completes), t.committed[phase := BatchesOf(t, phase) + [batch]])
  }

  function Completed(t: Target, phase: string): Target {
    t.(checkpoint := NextCheckpoint(t.checkpoint, phase, 0, true))
  }

  /** The next transaction of a phase, as a function of what survived. */
  function Transact(t: Target, phase: Phase, size: nat): Target
    requires size > 0
  {
    match phase
    case Single(name) => Committed(t, name, [], 0, true)
    case Batched(name, rows) =>
      var batch := NextBatch(rows, CursorFor(t, name), size);
      if batch == [] then Completed(t, name) else Committed(t, name, batch, batch[|batch| - 1].key, false)
  }

  predicate IsDone(t: Target, phase: Phase) { phase.name in t.checkpoint.completed }

  /** The first phase that is not completed, or the number of phases. */
  function FirstPending(t: Target, phases: seq<Phase>): (n: nat)
    ensures n <= |phases| && (n < |phases| ==> !IsDone(t, phases[n]))
    ensures forall i :: 0 <= i < n ==> IsDone(t, phases[i])
  {
    if phases == [] then 0
    else if IsDone(t, phases[0]) then 1 + FirstPending(t, phases[1..])
    else 0
  }

  /** So many transactions of an uninterrupted run, or all that are left. */
  function Advanced(t: Target, phases: seq<Phase>, size: nat, budget: nat): Target
    requires size > 0
    decreases budget
  {
    var n := FirstPending(t, phases);
    if budget == 0 || n == |phases| then t else Advanced(Transact(t, phases[n], size), phases, size, budget - 1)
  }

  /** Stopping and starting again is the same as going on. */
  lemma {:induction false} AdvancedTwice(t: Target, phases: seq<Phase>, size: nat, a: nat, b: nat)
    requires size > 0
    ensures Advanced(Advanced(t, phases, size, a), phases, size, b) == Advanced(t, phases, size, a + b)
    decreases a
  {
    hide Transact, FirstPending;
    var n := FirstPending(t, phases);
    if a > 0 && n < |phases| { AdvancedTwice(Transact(t, phases[n], size), phases, size, a - 1, b); }
  }

  /** The program: its local variables are lost in a crash, its committed transactions are not. */
  class Migration {
    const phases: seq<Phase>
    const size: nat
    var target: Target

    ghost predicate Valid() { size > 0 }

    constructor (phases: seq<Phase>, size: nat, identity: string)
      requires size > 0
      ensures Valid() && this.phases == phases && this.size == size
      ensures target == Target(Checkpoint(identity, "pending", 0, []), map[])
    {
      this.phases, this.size := phases, size;
      target := Target(Checkpoint(identity, "pending", 0, []), map[]);
    }

    /** Runs one phase until it completes or the process dies after so many more transactions. */
    method RunPhase(n: nat, budget: nat) returns (left: nat, died: bool)
      requires Valid() && n < |phases| && forall i :: 0 <= i < n ==> IsDone(target, phases[i])
      modifies this`target
      ensures left <= budget && target == Advanced(old(target), phases, size, budget - left)
      ensures died ==> left == 0
      ensures !died ==> forall i :: 0 <= i <= n ==> IsDone(target, phases[i])
    {
      hide Transact, NextBatch;
      left, died := budget, false;
      var phase := phases[n];
      if IsDone(target, phase) { return; }
      var cursor := CursorFor(target, phase.name);
      while true
        invariant left <= budget && target == Advanced(old(target), phases, size, budget - left)
        invariant FirstPending(target, phases) == n && cursor == CursorFor(target, phase.name)
        invariant forall i :: 0 <= i < n ==> IsDone(target, phases[i])
        decreases left
      {
        if left == 0 { died := true; return; }
        StepOnce(target, phases, size, n);
        AdvancedTwice(old(target), phases, size, budget - left, 1);
        TransactEffect(target, phase, size);
        left := left - 1;
        if phase.Single? {
          target := Committed(target, phase.name, [], 0, true);
          return;
        }
        var batch := NextBatch(phase.rows, cursor, size);
        if batch == [] {
          target := Completed(target, phase.name);
          return;
        }
        target := Committed(target, phase.name, batch, batch[|batch| - 1].key, false);
        cursor := batch[|batch| - 1].key;
        StillPending(target, phases, n);
      }
    }

    /** One invocation that dies after so many transactions, if it has not finished before. */
    method Invoke(budget: nat)
      requires Valid()
      modifies this`target
      ensures target == Advanced(old(target), phases, size, budget)
    {
      hide Transact;
      var left: nat, n: nat := budget, 0;
      while n < |phases|
        invariant n <= |phases| && left <= budget && target == Advanced(old(target), phases, size, budget - left)
        invariant forall i :: 0 <= i < n ==> IsDone(target, phases[i])
      {
        ghost var used := budget - left;
        var remaining, died := RunPhase(n, left);
        AdvancedTwice(old(target), phases, size, used, left - remaining);
        left := remaining;
        if died { return; }
        n := n + 1;
      }
      AllDone(target, phases, size, left);
      AdvancedTwice(old(target), phases, size, budget - left, left);
    }
  }

  lemma AllDone(t: Target, phases: seq<Phase>, size: nat, budget: nat)
    requires size > 0 && forall i :: 0 <= i < |phases| ==> IsDone(t, phases[i])
    ensures Advanced(t, phases, size, budget) == t
  {
    hide Transact, FirstPending;
  }

  lemma StepOnce(t: Target, phases: seq<Phase>, size: nat, n: nat)
    requires size > 0 && n < |phases| && FirstPending(t, phases) == n
    ensures Advanced(t, phases, size, 1) == Transact(t, phases[n], size)
  {
    hide Transact, FirstPending;
  }

  lemma TransactEffect(t: Target, phase: Phase, size: nat)
    requires size > 0
    ensures phase.Single? ==> Transact(t, phase, size) == Committed(t, phase.name, [], 0, true)
    ensures phase.Batched? ==>
      var batch := NextBatch(phase.rows, CursorFor(t, phase.name), size);
      Transact(t, phase, size) ==
      if batch == [] then Completed(t, phase.name) else Committed(t, phase.name, batch, batch[|batch| - 1].key, false)
  {
    hide NextBatch;
  }

  lemma StillPending(t: Target, phases: seq<Phase>, n: nat)
    requires n < |phases| && !IsDone(t, phases[n]) && forall i :: 0 <= i < n ==> IsDone(t, phases[i])
    ensures FirstPending(t, phases) == n
  {
    hide FirstPending;
  }
}
