/** Gauss-Jordan elimination over GF(2^8), which inverts the mix matrix. */
module GaussJordan {
  import opened GaloisField
  import opened RijndaelWords
  import opened RijndaelTables

  /** One row of the augmented matrix. */
  datatype Row = Row(left: Word, right: Word)

  function WordAt(w: Word, c: nat): Byte
    requires c < 4
  {
    if c == 0 then w.r0 else if c == 1 then w.r1 else if c == 2 then w.r2 else w.r3
  }

  function Entry(row: Row, c: nat): Byte
    requires c < 8
  {
    if c < 4 then WordAt(row.left, c) else WordAt(row.right, c - 4)
  }

  ghost function ScaleRow(a: Byte, row: Row): Row { Row(ScaleWord(a, row.left), ScaleWord(a, row.right)) }

  function AddRow(a: Row, b: Row): Row { Row(AddWord(a.left, b.left), AddWord(a.right, b.right)) }

  type Rows = m: seq<Row> | |m| == 4 witness seq(4, _ => Row(ZeroWord, ZeroWord))

  ghost function Normalized(m: Rows, k: nat): Row
    requires k < 4
  {
    ScaleRow(Inverse(Entry(m[k], k)), m[k])
  }

  ghost function Eliminated(row: Row, pivot: Row, k: nat): Row
    requires k < 4
  {
    AddRow(row, ScaleRow(Entry(row, k), pivot))
  }

  ghost function StepRows(m: Rows, k: nat): Rows
    requires k < 4
  {
    seq(4, r requires 0 <= r < 4 => if r == k then Normalized(m, k) else Eliminated(m[r], Normalized(m, k), k))
  }

  ghost predicate IsStep(m: Rows, k: nat, after: Rows)
    requires k < 4
  {
    forall n: Rows :: n == m ==> after == StepRows(n, k)
  }

  /** Normalizing row k and eliminating its column from the others; `StepUnfolds` gives the rows. */
  ghost function Step(m: Rows, k: nat): Rows
    requires k < 4
  {
    assert IsStep(m, k, StepRows(m, k)) by { hide StepRows; }
    var after: Rows :| IsStep(m, k, after);
    after
  }

  lemma StepUnfolds(m: Rows, k: nat)
    requires k < 4
    ensures Step(m, k) == StepRows(m, k)
  {
    hide StepRows;
    assert IsStep(m, k, Step(m, k)) && StepRows(m, k) == StepRows(m, k);
  }

  ghost function Run(m: Rows, n: nat): Rows
    requires n <= 4
  {
    if n == 0 then m else Step(Run(m, n - 1), n - 1)
  }

  ghost predicate PivotsNonZero(m: Rows) {
    forall k :: 0 <= k < 4 ==> Entry(Run(m, k)[k], k) != Zero
  }

  /** The first n columns are those of the identity. */
  ghost predicate Solved(m: Rows, n: nat)
    requires n <= 4
  {
    forall r, c :: 0 <= r < 4 && 0 <= c < n ==> Entry(m[r], c) == if r == c then One else Zero
  }

  /** The left half of each row is the right half times the matrix being inverted. */
  ghost predicate Related(m: Rows, a: Matrix) {
    forall r :: 0 <= r < 4 ==> m[r].left == RowTimes(m[r].right, a)
  }

  // ---------------------------------------------------------------- each step keeps the relation

  lemma ScaleOfAdd(a: Byte, v: Word, w: Word)
    ensures ScaleWord(a, AddWord(v, w)) == AddWord(ScaleWord(a, v), ScaleWord(a, w))
  {
    hide Mul, Add;
    MulDistributes(v.r0, w.r0, a); MulDistributes(v.r1, w.r1, a);
    MulDistributes(v.r2, w.r2, a); MulDistributes(v.r3, w.r3, a);
  }

  lemma ScaleOfScale(a: Byte, b: Byte, w: Word)
    ensures ScaleWord(a, ScaleWord(b, w)) == ScaleWord(Mul(a, b), w)
  {
    hide Mul, Add;
    MulAssociates(a, b, w.r0); MulAssociates(a, b, w.r1); MulAssociates(a, b, w.r2); MulAssociates(a, b, w.r3);
  }

  lemma ScaleByAdd(a: Byte, b: Byte, w: Word)
    ensures ScaleWord(Add(a, b), w) == AddWord(ScaleWord(a, w), ScaleWord(b, w))
  {
    hide Mul, Add;
    MulDistributes(a, b, w.r0); MulDistributes(a, b, w.r1); MulDistributes(a, b, w.r2); MulDistributes(a, b, w.r3);
  }

  lemma AddWordSwap(p: Word, q: Word, r: Word, s: Word)
    ensures AddWord(AddWord(p, q), AddWord(r, s)) == AddWord(AddWord(p, r), AddWord(q, s))
  {
    hide Add;
    AddSwap(p.r0, q.r0, r.r0, s.r0); AddSwap(p.r1, q.r1, r.r1, s.r1);
    AddSwap(p.r2, q.r2, r.r2, s.r2); AddSwap(p.r3, q.r3, r.r3, s.r3);
  }

  lemma RowTimesScales(a: Byte, q: Word, m: Matrix)
    ensures RowTimes(ScaleWord(a, q), m) == ScaleWord(a, RowTimes(q, m))
  {
    hide AddWord, Mul, RowTimes;
    RowUnfolds(ScaleWord(a, q), m);
    RowUnfolds(q, m);
    var x0, x1, x2, x3 := ScaleWord(q.r0, m.m0), ScaleWord(q.r1, m.m1), ScaleWord(q.r2, m.m2), ScaleWord(q.r3, m.m3);
    assert ScaleWord(a, q) == Word(Mul(a, q.r0), Mul(a, q.r1), Mul(a, q.r2), Mul(a, q.r3));
    hide ScaleWord;
    ScaleOfScale(a, q.r0, m.m0); ScaleOfScale(a, q.r1, m.m1); ScaleOfScale(a, q.r2, m.m2); ScaleOfScale(a, q.r3, m.m3);
    ScaleOfAdd(a, x0, x1); ScaleOfAdd(a, x2, x3);
    ScaleOfAdd(a, AddWord(x0, x1), AddWord(x2, x3));
  }

  lemma RowTimesAdds(p: Word, q: Word, m: Matrix)
    ensures RowTimes(AddWord(p, q), m) == AddWord(RowTimes(p, m), RowTimes(q, m))
  {
    hide ScaleWord, Add, RowTimes;
    RowUnfolds(AddWord(p, q), m);
    RowUnfolds(p, m);
    RowUnfolds(q, m);
    var x0, x1, x2, x3 := ScaleWord(p.r0, m.m0), ScaleWord(p.r1, m.m1), ScaleWord(p.r2, m.m2), ScaleWord(p.r3, m.m3);
    var y0, y1, y2, y3 := ScaleWord(q.r0, m.m0), ScaleWord(q.r1, m.m1), ScaleWord(q.r2, m.m2), ScaleWord(q.r3, m.m3);
    ScaleByAdd(p.r0, q.r0, m.m0); ScaleByAdd(p.r1, q.r1, m.m1);
    ScaleByAdd(p.r2, q.r2, m.m2); ScaleByAdd(p.r3, q.r3, m.m3);
    assert AddWord(p, q) == Word(Add(p.r0, q.r0), Add(p.r1, q.r1), Add(p.r2, q.r2), Add(p.r3, q.r3));
    hide AddWord;
    AddWordSwap(x0, y0, x1, y1);
    AddWordSwap(x2, y2, x3, y3);
    AddWordSwap(AddWord(x0, x1), AddWord(y0, y1), AddWord(x2, x3), AddWord(y2, y3));
  }

  lemma StepKeepsRelated(m: Rows, k: nat, a: Matrix)
    requires k < 4 && Related(m, a)
    ensures Related(Step(m, k), a)
  {
    hide RowTimes, ScaleWord, AddWord, Entry, Inverse, Step;
    StepUnfolds(m, k);
    var d := Inverse(Entry(m[k], k));
    RowTimesScales(d, m[k].right, a);
    var n := Normalized(m, k);
    forall r | 0 <= r < 4 && r != k ensures Eliminated(m[r], n, k).left == RowTimes(Eliminated(m[r], n, k).right, a) {
      var f := Entry(m[r], k);
      RowTimesScales(f, n.right, a);
      RowTimesAdds(m[r].right, ScaleWord(f, n.right), a);
    }
  }

  // ---------------------------------------------------------------- each step solves one more column

  lemma EntryOfScale(a: Byte, row: Row, c: nat)
    requires c < 8
    ensures Entry(ScaleRow(a, row), c) == Mul(a, Entry(row, c))
  {
    hide Mul;
  }

  lemma EntryOfAdd(x: Row, y: Row, c: nat)
    requires c < 8
    ensures Entry(AddRow(x, y), c) == Add(Entry(x, c), Entry(y, c))
  {
    hide Add;
  }

  lemma StepSolves(m: Rows, k: nat)
    requires k < 4 && Solved(m, k) && Entry(m[k], k) != Zero
    ensures Solved(Step(m, k), k + 1)
  {
    hide Mul, Add, Entry, ScaleRow, AddRow, Inverse, Step;
    StepUnfolds(m, k);
    var p := Entry(m[k], k);
    var n := Normalized(m, k);
    forall c | 0 <= c <= k ensures Entry(n, c) == if c == k then One else Zero {
      EntryOfScale(Inverse(p), m[k], c);
      MulCommutes(p, Inverse(p));
      MulZero(Inverse(p));
    }
    forall r, c | 0 <= r < 4 && 0 <= c <= k && r != k
      ensures Entry(Eliminated(m[r], n, k), c) == if r == c then One else Zero
    {
      var f := Entry(m[r], k);
      EntryOfScale(f, n, c);
      EntryOfAdd(m[r], ScaleRow(f, n), c);
      OneIsUnit(f);
      MulZero(f);
      AddZero(f);
      AddZero(One); AddZero(Zero);
    }
  }

  lemma {:induction false} RunInvariant(m: Rows, n: nat, a: Matrix)
    requires n <= 4 && Related(m, a) && PivotsNonZero(m)
    ensures Related(Run(m, n), a) && Solved(Run(m, n), n)
  {
    hide Related, Solved, Step, Entry;
    if n == 0 {
      NothingSolved(m);
    } else {
      RunInvariant(m, n - 1, a);
      StepKeepsRelated(Run(m, n - 1), n - 1, a);
      StepSolves(Run(m, n - 1), n - 1);
    }
  }

  lemma NothingSolved(m: Rows) ensures Solved(m, 0) {}

  function RightMatrix(m: Rows): Matrix { Matrix(m[0].right, m[1].right, m[2].right, m[3].right) }

  /** When no pivot vanishes, elimination leaves the true inverse on the right. */
  lemma EliminationInverts(m: Rows, a: Matrix)
    requires Related(m, a) && PivotsNonZero(m)
    ensures Inverts(RightMatrix(Run(m, 4)), a)
  {
    hide RowTimes, Step, Run, PivotsNonZero;
    RunInvariant(m, 4, a);
    var z := Run(m, 4);
    assert forall r :: 0 <= r < 4 ==>
      Entry(z[r], 0) == z[r].left.r0 && Entry(z[r], 1) == z[r].left.r1 &&
      Entry(z[r], 2) == z[r].left.r2 && Entry(z[r], 3) == z[r].left.r3;
    hide Entry;
  }

  // ---------------------------------------------------------------- the in-place loops

  function RowOf(a: array2<Byte>, r: nat): Row
    requires a.Length0 == 4 && a.Length1 == 8 && r < 4
    reads a
  {
    Row(Word(a[r, 0], a[r, 1], a[r, 2], a[r, 3]), Word(a[r, 4], a[r, 5], a[r, 6], a[r, 7]))
  }

  lemma EntryOfRow(a: array2<Byte>, r: nat)
    requires a.Length0 == 4 && a.Length1 == 8 && r < 4
    ensures forall c :: 0 <= c < 8 ==> Entry(RowOf(a, r), c) == a[r, c]
  {}

  lemma SameRow(x: Row, y: Row)
    requires forall c :: 0 <= c < 8 ==> Entry(x, c) == Entry(y, c)
    ensures x == y
  {
    assert Entry(x, 0) == Entry(y, 0) && Entry(x, 1) == Entry(y, 1) && Entry(x, 2) == Entry(y, 2) &&
      Entry(x, 3) == Entry(y, 3);
    assert Entry(x, 4) == Entry(y, 4) && Entry(x, 5) == Entry(y, 5) && Entry(x, 6) == Entry(y, 6) &&
      Entry(x, 7) == Entry(y, 7);
  }

  function Divide(t: Logs, value: Byte, pivot: Byte): Byte
    requires |t.alog| == 256 && |t.log| == 256 && t.log[Nat(pivot)] <= 255
  {
    if value == Zero then Zero else t.alog[(255 + t.log[Nat(value)] - t.log[Nat(pivot)]) % 255]
  }

  lemma DivideIsProduct(t: Logs, value: Byte, pivot: Byte)
    requires ValidLogs(t) && pivot != Zero
    ensures t.log[Nat(pivot)] <= 255 && Divide(t, value, pivot) == Mul(Inverse(pivot), value)
  {
    hide Pow, Mul, Nat, Inverse;
    LogIsLog(t, pivot);
    MulZero(Inverse(pivot));
    if value != Zero {
      LogIsLog(t, value);
      var i, j := t.log[Nat(value)], t.log[Nat(pivot)];
      PowModulo(255 + i - j);
      PowAdds(255 - j, i);
      InverseByLog(pivot, j);
      InverseUnique(pivot, Pow(255 - j));
    }
  }

  method Normalize(t: Logs, a: array2<Byte>, row: nat)
    requires ValidLogs(t) && a.Length0 == 4 && a.Length1 == 8 && row < 4 && a[row, row] != Zero
    modifies a
    ensures RowOf(a, row) == old(ScaleRow(Inverse(a[row, row]), RowOf(a, row)))
    ensures forall r, c :: 0 <= r < 4 && 0 <= c < 8 && r != row ==> a[r, c] == old(a[r, c])
  {
    hide Mul, Pow, Nat, Inverse, Divide, Entry, RowOf, ScaleRow;
    var pivot := a[row, row];
    ghost var before := RowOf(a, row);
    EntryOfRow(a, row);
    for column := 0 to 8
      invariant forall r, c :: 0 <= r < 4 && 0 <= c < 8 && (r != row || c >= column) ==> a[r, c] == old(a[r, c])
      invariant forall c :: 0 <= c < column ==> a[row, c] == Mul(Inverse(pivot), Entry(before, c))
    {
      DivideIsProduct(t, a[row, column], pivot);
      a[row, column] := Divide(t, a[row, column], pivot);
    }
    EntryOfRow(a, row);
    forall c | 0 <= c < 8 ensures Entry(RowOf(a, row), c) == Entry(ScaleRow(Inverse(pivot), before), c) {
      EntryOfScale(Inverse(pivot), before, c);
    }
    SameRow(RowOf(a, row), ScaleRow(Inverse(pivot), before));
  }

  method EliminateRow(t: Logs, a: array2<Byte>, row: nat, other: nat)
    requires ValidLogs(t) && a.Length0 == 4 && a.Length1 == 8 && row < 4 && other < 4 && row != other
    requires forall c :: 0 <= c <= row ==> a[row, c] == if c == row then One else Zero
    modifies a
    ensures RowOf(a, other) == old(Eliminated(RowOf(a, other), RowOf(a, row), row))
    ensures forall r, c :: 0 <= r < 4 && 0 <= c < 8 && r != other ==> a[r, c] == old(a[r, c])
  {
    hide Mul, Pow, Nat, Add, Multiply, Entry, Eliminated, RowOf;
    ghost var before, pivot := RowOf(a, other), RowOf(a, row);
    ghost var f := a[other, row];
    EntryOfRow(a, other);
    EntryOfRow(a, row);
    for column := row + 1 to 8
      invariant forall r, c :: 0 <= r < 4 && 0 <= c < 8 && (r != other || c <= row || c >= column) ==>
        a[r, c] == old(a[r, c])
      invariant forall c :: row < c < column ==> a[other, c] == Add(Entry(before, c), Mul(f, Entry(pivot, c)))
    {
      MultiplyIsMul(t, a[row, column], a[other, row]);
      MulCommutes(f, Entry(pivot, column));
      a[other, column] := Add(a[other, column], Multiply(t, a[row, column], a[other, row]));
    }
    a[other, row] := Zero;
    EntryOfRow(a, other);
    EliminatedEntries(before, pivot, row, RowOf(a, other));
  }

  /** Skipping the columns where the pivot row is zero and clearing the pivot column changes nothing. */
  lemma EliminatedEntries(before: Row, pivot: Row, k: nat, after: Row)
    requires k < 4
    requires forall c :: 0 <= c <= k ==> Entry(pivot, c) == if c == k then One else Zero
    requires forall c :: 0 <= c < k ==> Entry(after, c) == Entry(before, c)
    requires Entry(after, k) == Zero
    requires forall c :: k < c < 8 ==> Entry(after, c) == Add(Entry(before, c), Mul(Entry(before, k), Entry(pivot, c)))
    ensures after == Eliminated(before, pivot, k)
  {
    hide Mul, Add, Entry, ScaleRow, AddRow;
    var f := Entry(before, k);
    MulZero(f);
    OneIsUnit(f);
    AddZero(f);
    forall c | 0 <= c < 8 ensures Entry(after, c) == Entry(Eliminated(before, pivot, k), c) {
      EntryOfScale(f, pivot, c);
      EntryOfAdd(before, ScaleRow(f, pivot), c);
      AddZero(Entry(before, c));
    }
    SameRow(after, Eliminated(before, pivot, k));
  }

  method Eliminate(t: Logs, a: array2<Byte>)
    requires ValidLogs(t) && a.Length0 == 4 && a.Length1 == 8
    requires PivotsNonZero([RowOf(a, 0), RowOf(a, 1), RowOf(a, 2), RowOf(a, 3)])
    modifies a
    ensures [RowOf(a, 0), RowOf(a, 1), RowOf(a, 2), RowOf(a, 3)] ==
            Run(old([RowOf(a, 0), RowOf(a, 1), RowOf(a, 2), RowOf(a, 3)]), 4)
  {
    hide Mul, Pow, Nat, Add, Multiply, Inverse, ScaleRow, AddRow, Entry, Step, Solved;
    ghost var start: Rows := [RowOf(a, 0), RowOf(a, 1), RowOf(a, 2), RowOf(a, 3)];
    NothingSolved(start);
    for row := 0 to 4
      invariant forall r :: 0 <= r < 4 ==> RowOf(a, r) == Run(start, row)[r]
      invariant Solved(Run(start, row), row)
    {
      StepOnce(t, a, row, Run(start, row));
    }
  }

  method StepOnce(t: Logs, a: array2<Byte>, row: nat, ghost m: Rows)
    requires ValidLogs(t) && a.Length0 == 4 && a.Length1 == 8 && row < 4
    requires forall r :: 0 <= r < 4 ==> RowOf(a, r) == m[r]
    requires Solved(m, row) && Entry(m[row], row) != Zero
    modifies a
    ensures forall r :: 0 <= r < 4 ==> RowOf(a, r) == Step(m, row)[r]
    ensures Solved(Step(m, row), row + 1)
  {
    hide Mul, Pow, Nat, Add, Multiply, Inverse, ScaleRow, AddRow, Step;
    StepSolves(m, row);
    StepUnfolds(m, row);
    EntryOfRow(a, row);
    Normalize(t, a, row);
    EntryOfRow(a, row);
    assert RowOf(a, row) == Normalized(m, row) == Step(m, row)[row];
    assert forall r :: 0 <= r < 4 && r != row ==> RowOf(a, r) == m[r];
    hide Entry;
    for other := 0 to 4
      invariant RowOf(a, row) == Normalized(m, row)
      invariant forall r :: 0 <= r < other && r != row ==> RowOf(a, r) == Step(m, row)[r]
      invariant forall r :: other <= r < 4 && r != row ==> RowOf(a, r) == m[r]
    {
      if row != other {
        EntryOfRow(a, row);
        EliminateRow(t, a, row, other);
      }
    }
  }
}
