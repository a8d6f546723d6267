/** The round tables: mix coefficients folded into the substitution boxes. */
module RijndaelRoundTables {
  import opened GaloisField
  import opened RijndaelWords
  import opened RijndaelCipher
  import opened RijndaelTables
  import opened GaussJordan

  /** The mix coefficients as the cipher lists them: row k holds what input byte k adds to each output byte. */
  const SourceMix := Matrix(Word(Two, One, One, Three), Word(Three, Two, One, One),
                            Word(One, Three, Two, One), Word(One, One, Three, Two))

  const SourceInvMix := Matrix(Word(Fourteen, Nine, Thirteen, Eleven), Word(Eleven, Fourteen, Nine, Thirteen),
                               Word(Thirteen, Eleven, Fourteen, Nine), Word(Nine, Thirteen, Eleven, Fourteen))

  const Augmented: Rows := [
    Row(SourceMix.m0, Word(One, Zero, Zero, Zero)), Row(SourceMix.m1, Word(Zero, One, Zero, Zero)),
    Row(SourceMix.m2, Word(Zero, Zero, One, Zero)), Row(SourceMix.m3, Word(Zero, Zero, Zero, One))]

  const H8C := Byte(I,O,O,O,I,I,O,O)
  const H8D := Byte(I,O,O,O,I,I,O,I)
  const H8E := Byte(I,O,O,O,I,I,I,O)
  const H8F := Byte(I,O,O,O,I,I,I,I)
  const HD1 := Byte(I,I,O,I,O,O,O,I)
  const HB9 := Byte(I,O,I,I,I,O,O,I)
  const HBA := Byte(I,O,I,I,I,O,I,O)
  const H34 := Byte(O,O,I,I,O,I,O,O)
  const HE7 := Byte(I,I,I,O,O,I,I,I)
  const HE5 := Byte(I,I,I,O,O,I,O,I)

  // The products met while eliminating; the pivots are 02, 8E, 02 and E5.
  lemma Product8EB9() ensures Mul(H8E, HB9) == One { Product(H8E, HB9); }
  lemma ProductB98D() ensures Mul(HB9, H8D) == HD1 { Product(HB9, H8D); }
  lemma Product8ED1() ensures Mul(H8E, HD1) == H8D { Product(H8E, HD1); }
  lemma Product8CD1() ensures Mul(H8C, HD1) == H34 { Product(H8C, HD1); }
  lemma ProductBA8C() ensures Mul(HBA, H8C) == HE7 { Product(HBA, H8C); }

  lemma HalfProducts()
    ensures Inverse(Two) == H8D
    ensures Mul(H8D, Two) == One && Mul(H8D, Three) == H8C
  {
    hide Mul, Inverse;
    MulByThree(H8D);
    InverseUnique(Two, H8D);
  }

  lemma Stage1()
    ensures var m := Run(Augmented, 1);
      m[1].left == Word(Zero, H8E, H8D, H8E) && m[2].left == Word(Zero, H8E, H8F, H8D) &&
      m[3].left == Word(Zero, H8C, H8E, H8E)
  {
    hide Mul, Inverse;
    HalfProducts();
    OneIsUnit(H8D); OneIsUnit(H8C); OneIsUnit(One); OneIsUnit(Three);
    MulByThree(H8D); MulByThree(H8C); MulByThree(One);
    assert Run(Augmented, 0) == Augmented;
    hide Run;
    var n := Normalized(Augmented, 0);
    assert n.left == Word(One, H8D, H8D, H8C);
    hide Normalized;
    RunOnce(1);
    assert Eliminated(Augmented[1], n, 0).left == Word(Zero, H8E, H8D, H8E);
    assert Eliminated(Augmented[2], n, 0).left == Word(Zero, H8E, H8F, H8D);
    assert Eliminated(Augmented[3], n, 0).left == Word(Zero, H8C, H8E, H8E);
  }

  lemma RunOnce(k: nat)
    requires 0 < k <= 4
    ensures var m := Run(Augmented, k - 1);
      forall r :: 0 <= r < 4 && r != k - 1 ==> Run(Augmented, k)[r] == Eliminated(m[r], Normalized(m, k - 1), k - 1)
  {
    hide Normalized, Eliminated, Step;
    StepUnfolds(Run(Augmented, k - 1), k - 1);
  }

  lemma Stage2()
    ensures var m := Run(Augmented, 2);
      m[2].left == Word(Zero, Zero, Two, Three) && m[3].left == Word(Zero, Zero, HBA, Two)
  {
    hide Mul, Inverse, Run;
    Stage1();
    var m := Run(Augmented, 1);
    assert Inverse(H8E) == HB9 by { Product8EB9(); InverseUnique(H8E, HB9); }
    MulCommutes(H8E, HB9); Product8EB9();
    ProductB98D(); Product8ED1(); Product8CD1();
    MulZero(HB9); MulZero(H8E); MulZero(H8C);
    OneIsUnit(H8E); OneIsUnit(H8C);
    var n := Normalized(m, 1);
    assert n.left == Word(Zero, One, HD1, One);
    hide Normalized;
    RunOnce(2);
    assert Eliminated(m[2], n, 1).left == Word(Zero, Zero, Two, Three);
    assert Eliminated(m[3], n, 1).left == Word(Zero, Zero, HBA, Two);
  }

  lemma Stage3()
    ensures Run(Augmented, 3)[3].left == Word(Zero, Zero, Zero, HE5)
  {
    hide Mul, Inverse, Run;
    Stage2();
    var m := Run(Augmented, 2);
    HalfProducts();
    MulZero(H8D); MulZero(HBA);
    OneIsUnit(HBA);
    ProductBA8C();
    var n := Normalized(m, 2);
    assert n.left == Word(Zero, Zero, One, H8C);
    hide Normalized;
    RunOnce(3);
    assert Eliminated(m[3], n, 2).left == Word(Zero, Zero, Zero, HE5);
  }

  lemma MixPivots()
    ensures PivotsNonZero(Augmented)
  {
    hide Run;
    Stage1(); Stage2(); Stage3();
    assert Run(Augmented, 0) == Augmented by { RunZero(); }
  }

  lemma RunZero() ensures Run(Augmented, 0) == Augmented {}

  lemma AugmentedRelated()
    ensures Related(Augmented, SourceMix)
  {
    hide RowTimes;
    UnitRow(SourceMix);
  }

  lemma UnitRow(m: Matrix)
    ensures RowTimes(Word(One, Zero, Zero, Zero), m) == m.m0
    ensures RowTimes(Word(Zero, One, Zero, Zero), m) == m.m1
    ensures RowTimes(Word(Zero, Zero, One, Zero), m) == m.m2
    ensures RowTimes(Word(Zero, Zero, Zero, One), m) == m.m3
  {
    hide ScaleWord, AddWord, RowTimes;
    RowUnfolds(Word(One, Zero, Zero, Zero), m);
    RowUnfolds(Word(Zero, One, Zero, Zero), m);
    RowUnfolds(Word(Zero, Zero, One, Zero), m);
    RowUnfolds(Word(Zero, Zero, Zero, One), m);
    ScaleUnits(m.m0); ScaleUnits(m.m1); ScaleUnits(m.m2); ScaleUnits(m.m3);
    ScaleUnits(ZeroWord);
  }

  lemma ScaleUnits(w: Word)
    ensures ScaleWord(One, w) == w && ScaleWord(Zero, w) == ZeroWord
    ensures AddWord(w, ZeroWord) == w && AddWord(ZeroWord, w) == w
  {
    hide Mul, Add;
    OneIsUnit(w.r0); OneIsUnit(w.r1); OneIsUnit(w.r2); OneIsUnit(w.r3);
    MulZero(w.r0); MulZero(w.r1); MulZero(w.r2); MulZero(w.r3);
    AddZero(w.r0); AddZero(w.r1); AddZero(w.r2); AddZero(w.r3);
  }

  lemma SourceRowsTop()
    ensures RowTimes(SourceMix.m0, SourceInvMix) == Word(One, Zero, Zero, Zero)
    ensures RowTimes(SourceMix.m1, SourceInvMix) == Word(Zero, One, Zero, Zero)
  {
    hide Mul, RowTimes;
    RowUnfolds(SourceMix.m0, SourceInvMix);
    RowUnfolds(SourceMix.m1, SourceInvMix);
    SmallProducts(Nine); SmallProducts(Eleven); SmallProducts(Thirteen); SmallProducts(Fourteen);
    hide Xtime;
    InverseProducts();
  }

  lemma SourceRowsBottom()
    ensures RowTimes(SourceMix.m2, SourceInvMix) == Word(Zero, Zero, One, Zero)
    ensures RowTimes(SourceMix.m3, SourceInvMix) == Word(Zero, Zero, Zero, One)
  {
    hide Mul, RowTimes;
    RowUnfolds(SourceMix.m2, SourceInvMix);
    RowUnfolds(SourceMix.m3, SourceInvMix);
    SmallProducts(Nine); SmallProducts(Eleven); SmallProducts(Thirteen); SmallProducts(Fourteen);
    hide Xtime;
    InverseProducts();
  }

  /** The eliminated right half is the coefficient table of the FIPS 197 inverse matrix. */
  lemma EliminationResult()
    ensures RightMatrix(Run(Augmented, 4)) == SourceInvMix
  {
    hide Run, Apply, PivotsNonZero, Related, Inverts;
    MixPivots();
    AugmentedRelated();
    EliminationInverts(Augmented, SourceMix);
    var n := RightMatrix(Run(Augmented, 4));
    assert Inverts(SourceMix, SourceInvMix) by { SourceInverts(); }
    forall w: Word ensures Apply(n, w) == Apply(SourceInvMix, w) {
      InverseApplies(SourceMix, SourceInvMix, w);
      InverseApplies(n, SourceMix, Apply(SourceInvMix, w));
    }
    SameColumns(n, SourceInvMix);
  }

  lemma SourceInverts() ensures Inverts(SourceMix, SourceInvMix) {
    hide RowTimes;
    SourceRowsTop();
    SourceRowsBottom();
  }

  lemma SameColumns(m: Matrix, n: Matrix)
    requires forall w: Word :: Apply(m, w) == Apply(n, w)
    ensures m == n
  {
    hide Dot;
    UnitColumns(m.m0); UnitColumns(m.m1); UnitColumns(m.m2); UnitColumns(m.m3);
    UnitColumns(n.m0); UnitColumns(n.m1); UnitColumns(n.m2); UnitColumns(n.m3);
    assert Apply(m, Word(One, Zero, Zero, Zero)) == Apply(n, Word(One, Zero, Zero, Zero));
    assert Apply(m, Word(Zero, One, Zero, Zero)) == Apply(n, Word(Zero, One, Zero, Zero));
    assert Apply(m, Word(Zero, Zero, One, Zero)) == Apply(n, Word(Zero, Zero, One, Zero));
    assert Apply(m, Word(Zero, Zero, Zero, One)) == Apply(n, Word(Zero, Zero, Zero, One));
  }

  lemma UnitColumns(w: Word)
    ensures Dot(w, Word(One, Zero, Zero, Zero)) == w.r0 && Dot(w, Word(Zero, One, Zero, Zero)) == w.r1
    ensures Dot(w, Word(Zero, Zero, One, Zero)) == w.r2 && Dot(w, Word(Zero, Zero, Zero, One)) == w.r3
  {
    hide Mul, Add, Dot;
    DotUnfolds(w, Word(One, Zero, Zero, Zero));
    DotUnfolds(w, Word(Zero, One, Zero, Zero));
    DotUnfolds(w, Word(Zero, Zero, One, Zero));
    DotUnfolds(w, Word(Zero, Zero, Zero, One));
    OneIsUnit(w.r0); OneIsUnit(w.r1); OneIsUnit(w.r2); OneIsUnit(w.r3);
    MulZero(w.r0); MulZero(w.r1); MulZero(w.r2); MulZero(w.r3);
    AddZero(w.r0); AddZero(w.r1); AddZero(w.r2); AddZero(w.r3); AddZero(Zero);
  }

  // ---------------------------------------------------------------- building the tables

  function MatrixRow(m: Matrix, r: nat): Word
    requires r < 4
  {
    if r == 0 then m.m0 else if r == 1 then m.m1 else if r == 2 then m.m2 else m.m3
  }

  method BuildInverseMix(t: Logs) returns (m: Matrix)
    requires ValidLogs(t)
    ensures m == SourceInvMix
  {
    hide Run, PivotsNonZero, Pow, Nat;
    var a := new Byte[4, 8]((_, _) => Zero);
    for row := 0 to 4
      invariant forall r, c :: 0 <= r < row && 0 <= c < 4 ==> a[r, c] == WordAt(MatrixRow(SourceMix, r), c)
      invariant forall r, c :: 0 <= r < row && 4 <= c < 8 ==> a[r, c] == if c == r + 4 then One else Zero
      invariant forall r, c :: row <= r < 4 && 4 <= c < 8 ==> a[r, c] == Zero
    {
      for column := 0 to 4
        invariant forall r, c :: 0 <= r < row && 0 <= c < 4 ==> a[r, c] == WordAt(MatrixRow(SourceMix, r), c)
        invariant forall r, c :: 0 <= r < row && 4 <= c < 8 ==> a[r, c] == if c == r + 4 then One else Zero
        invariant forall c :: 0 <= c < column ==> a[row, c] == WordAt(MatrixRow(SourceMix, row), c)
        invariant forall c :: 4 <= c < 8 && c != row + 4 ==> a[row, c] == Zero
        invariant column > 0 ==> a[row, row + 4] == One
        invariant forall r, c :: row < r < 4 && 4 <= c < 8 ==> a[r, c] == Zero
      {
        a[row, column] := WordAt(MatrixRow(SourceMix, row), column);
        a[row, row + 4] := One;
      }
    }
    AugmentedRows(a);
    MixPivots();
    Eliminate(t, a);
    EliminationResult();
    m := Matrix(Word(a[0, 4], a[0, 5], a[0, 6], a[0, 7]), Word(a[1, 4], a[1, 5], a[1, 6], a[1, 7]),
                Word(a[2, 4], a[2, 5], a[2, 6], a[2, 7]), Word(a[3, 4], a[3, 5], a[3, 6], a[3, 7]));
    assert RowOf(a, 0) == [RowOf(a, 0), RowOf(a, 1), RowOf(a, 2), RowOf(a, 3)][0];
    assert RowOf(a, 1) == [RowOf(a, 0), RowOf(a, 1), RowOf(a, 2), RowOf(a, 3)][1];
    assert RowOf(a, 2) == [RowOf(a, 0), RowOf(a, 1), RowOf(a, 2), RowOf(a, 3)][2];
    assert RowOf(a, 3) == [RowOf(a, 0), RowOf(a, 1), RowOf(a, 2), RowOf(a, 3)][3];
  }

  lemma AugmentedRows(a: array2<Byte>)
    requires a.Length0 == 4 && a.Length1 == 8
    requires forall r, c :: 0 <= r < 4 && 0 <= c < 4 ==> a[r, c] == WordAt(MatrixRow(SourceMix, r), c)
    requires forall r, c :: 0 <= r < 4 && 4 <= c < 8 ==> a[r, c] == if c == r + 4 then One else Zero
    ensures [RowOf(a, 0), RowOf(a, 1), RowOf(a, 2), RowOf(a, 3)] == Augmented
  {}

  /** The word (value*f0, value*f1, value*f2, value*f3), shifted in byte by byte. */
  method MultiplyWord(t: Logs, value: Byte, factors: Word) returns (result: Word)
    requires ValidLogs(t)
    ensures result == ScaleWord(value, factors)
  {
    hide Mul, Multiply;
    result := ZeroWord;
    MulZero(factors.r0); MulZero(factors.r1); MulZero(factors.r2); MulZero(factors.r3);
    MulZero(value);
    if value == Zero { return; }
    for i := 0 to 4
      invariant i >= 1 ==> WordAt(result, 4 - i) == Mul(value, factors.r0)
      invariant i >= 2 ==> WordAt(result, 5 - i) == Mul(value, factors.r1)
      invariant i >= 3 ==> WordAt(result, 6 - i) == Mul(value, factors.r2)
      invariant i >= 4 ==> WordAt(result, 7 - i) == Mul(value, factors.r3)
    {
      var factor := WordAt(factors, i);
      MultiplyIsMul(t, value, factor);
      result := Word(result.r1, result.r2, result.r3, if factor != Zero then Multiply(t, value, factor) else Zero);
    }
  }

  datatype Tables = Tables(sbox: seq<Byte>, inverse: seq<Byte>,
                           t1: seq<Word>, t2: seq<Word>, t3: seq<Word>, t4: seq<Word>,
                           t5: seq<Word>, t6: seq<Word>, t7: seq<Word>, t8: seq<Word>,
                           u1: seq<Word>, u2: seq<Word>, u3: seq<Word>, u4: seq<Word>,
                           roundConstants: seq<Byte>)

  function Same(b: Byte): Byte { b }

  ghost predicate IsScaled(t: seq<Word>, f: Byte -> Byte, coefficients: Word, n: nat) {
    |t| == n && forall i :: 0 <= i < n ==> t[i] == ScaleWord(f(FromNat(i)), coefficients)
  }

  predicate Sized(t: Tables) {
    && |t.sbox| == 256 && |t.inverse| == 256 && |t.roundConstants| == 30
    && |t.t1| == 256 && |t.t2| == 256 && |t.t3| == 256 && |t.t4| == 256
    && |t.t5| == 256 && |t.t6| == 256 && |t.t7| == 256 && |t.t8| == 256
    && |t.u1| == 256 && |t.u2| == 256 && |t.u3| == 256 && |t.u4| == 256
  }

  ghost predicate ValidTables(t: Tables)
    ensures ValidTables(t) ==> Sized(t)
  {
    && (|t.sbox| == 256 && forall i :: 0 <= i < 256 ==> t.sbox[i] == Sub(FromNat(i)))
    && (|t.inverse| == 256 && forall i :: 0 <= i < 256 ==> t.inverse[i] == InvSub(FromNat(i)))
    && IsScaled(t.t1, Sub, SourceMix.m0, 256) && IsScaled(t.t2, Sub, SourceMix.m1, 256)
    && IsScaled(t.t3, Sub, SourceMix.m2, 256) && IsScaled(t.t4, Sub, SourceMix.m3, 256)
    && IsScaled(t.t5, InvSub, SourceInvMix.m0, 256) && IsScaled(t.t6, InvSub, SourceInvMix.m1, 256)
    && IsScaled(t.t7, InvSub, SourceInvMix.m2, 256) && IsScaled(t.t8, InvSub, SourceInvMix.m3, 256)
    && IsScaled(t.u1, Same, SourceInvMix.m0, 256) && IsScaled(t.u2, Same, SourceInvMix.m1, 256)
    && IsScaled(t.u3, Same, SourceInvMix.m2, 256) && IsScaled(t.u4, Same, SourceInvMix.m3, 256)
    && (|t.roundConstants| == 30 && forall i :: 0 <= i < 30 ==> t.roundConstants[i] == RoundConstant(i))
  }

  /** One scaled table; the cipher module appends to twelve of them in one pass. */
  method BuildScaled(t: Logs, values: seq<Byte>, ghost f: Byte -> Byte, coefficients: Word) returns (table: seq<Word>)
    requires ValidLogs(t)
    requires |values| == 256 && forall i :: 0 <= i < 256 ==> values[i] == f(FromNat(i))
    ensures IsScaled(table, f, coefficients, 256)
  {
    hide ScaleWord, FromNat, Pow;
    table := [];
    for index := 0 to 256
      invariant IsScaled(table, f, coefficients, index)
    {
      var word := MultiplyWord(t, values[index], coefficients);
      table := table + [word];
    }
  }

  method BuildRoundConstants(t: Logs) returns (constants: seq<Byte>)
    requires ValidLogs(t)
    ensures |constants| == 30 && forall i :: 0 <= i < 30 ==> constants[i] == RoundConstant(i)
    ensures constants[0] == One && forall i :: 0 < i < 30 ==> constants[i] == Mul(Two, constants[i - 1])
    ensures forall i :: 0 <= i < 14 ==> Nat(constants[i]) == ROUND_CONSTANTS[i]
  {
    hide Mul, Multiply, Xtime, Pow, Nat;
    constants := [One];
    for k := 1 to 30
      invariant |constants| == k && forall i :: 0 <= i < k ==> constants[i] == RoundConstant(i)
    {
      var last := constants[|constants| - 1];
      MultiplyIsMul(t, Two, last);
      MulByThree(last);
      constants := constants + [Multiply(t, Two, last)];
    }
    forall i: nat
      ensures RoundConstant(i + 1) == Mul(Two, RoundConstant(i)) &&
        (i < 14 ==> Nat(RoundConstant(i)) == ROUND_CONSTANTS[i])
    {
      RoundConstantsArePowers(i);
    }
  }

  method BuildTables() returns (t: Tables)
    ensures ValidTables(t)
  {
    hide IsScaled, Sub, InvSub, FromNat, Pow, RoundConstant;
    var alog := BuildAntilog();
    var log := BuildLog(alog);
    var logs := Logs(alog, log);
    var inverses := RijndaelTables.InverseRows(logs);
    var affine := AffineRows(inverses);
    var sbox, inverse := SubstitutionBoxes(affine);
    var inverseMix := BuildInverseMix(logs);
    var bytes := seq(256, i requires i >= 0 => FromNat(i));
    var t1 := BuildScaled(logs, sbox, Sub, SourceMix.m0);
    var t2 := BuildScaled(logs, sbox, Sub, SourceMix.m1);
    var t3 := BuildScaled(logs, sbox, Sub, SourceMix.m2);
    var t4 := BuildScaled(logs, sbox, Sub, SourceMix.m3);
    var t5 := BuildScaled(logs, inverse, InvSub, inverseMix.m0);
    var t6 := BuildScaled(logs, inverse, InvSub, inverseMix.m1);
    var t7 := BuildScaled(logs, inverse, InvSub, inverseMix.m2);
    var t8 := BuildScaled(logs, inverse, InvSub, inverseMix.m3);
    var u1 := BuildScaled(logs, bytes, Same, inverseMix.m0);
    var u2 := BuildScaled(logs, bytes, Same, inverseMix.m1);
    var u3 := BuildScaled(logs, bytes, Same, inverseMix.m2);
    var u4 := BuildScaled(logs, bytes, Same, inverseMix.m3);
    var constants := BuildRoundConstants(logs);
    t := Tables(sbox, inverse, t1, t2, t3, t4, t5, t6, t7, t8, u1, u2, u3, u4, constants);
  }

  // ---------------------------------------------------------------- what a table lookup gives

  function Sum5(a: Word, b: Word, c: Word, d: Word, k: Word): Word {
    AddWord(AddWord(AddWord(AddWord(a, b), c), d), k)
  }

  lemma Sum5IsRowTimes(w: Word, m: Matrix, k: Word)
    ensures Sum5(ScaleWord(w.r0, m.m0), ScaleWord(w.r1, m.m1), ScaleWord(w.r2, m.m2), ScaleWord(w.r3, m.m3), k)
            == AddWord(RowTimes(w, m), k)
  {
    hide ScaleWord, AddWord, RowTimes;
    RowUnfolds(w, m);
    AddWordAssociates(AddWord(ScaleWord(w.r0, m.m0), ScaleWord(w.r1, m.m1)), ScaleWord(w.r2, m.m2),
      ScaleWord(w.r3, m.m3));
  }

  lemma AddWordAssociates(a: Word, b: Word, c: Word)
    ensures AddWord(AddWord(a, b), c) == AddWord(a, AddWord(b, c))
  {
    hide Add;
    AddAssociates(a.r0, b.r0, c.r0); AddAssociates(a.r1, b.r1, c.r1);
    AddAssociates(a.r2, b.r2, c.r2); AddAssociates(a.r3, b.r3, c.r3);
  }

  /** The coefficient tables are the transposed matrices of the standard. */
  lemma CoefficientsAreColumns(w: Word)
    ensures RowTimes(w, SourceMix) == Apply(Mix, w)
    ensures RowTimes(w, SourceInvMix) == Apply(InvMix, w)
  {
    hide Mul, Add, RowTimes, Dot;
    RowUnfolds(w, SourceMix);
    RowUnfolds(w, SourceInvMix);
    DotUnfolds(Mix0, w); DotUnfolds(Mix1, w); DotUnfolds(Mix2, w); DotUnfolds(Mix3, w);
    DotUnfolds(InvMix0, w); DotUnfolds(InvMix1, w); DotUnfolds(InvMix2, w); DotUnfolds(InvMix3, w);
    Commuted(w.r0); Commuted(w.r1); Commuted(w.r2); Commuted(w.r3);
  }

  lemma Commuted(a: Byte)
    ensures Mul(a, One) == Mul(One, a) && Mul(a, Two) == Mul(Two, a) && Mul(a, Three) == Mul(Three, a)
    ensures Mul(a, Nine) == Mul(Nine, a) && Mul(a, Eleven) == Mul(Eleven, a)
    ensures Mul(a, Thirteen) == Mul(Thirteen, a) && Mul(a, Fourteen) == Mul(Fourteen, a)
  {
    hide *;
    MulCommutes(a, One); MulCommutes(a, Two); MulCommutes(a, Three);
    MulCommutes(a, Nine); MulCommutes(a, Eleven); MulCommutes(a, Thirteen); MulCommutes(a, Fourteen);
  }

  lemma Lookup(t: seq<Word>, f: Byte -> Byte, coefficients: Word, b: Byte)
    requires IsScaled(t, f, coefficients, 256)
    ensures t[Nat(b)] == ScaleWord(f(b), coefficients)
  {
    hide Nat, FromNat, ScaleWord;
    NatRoundTrip(b);
  }

  lemma EncryptionLookup(t: Tables, w: Word, k: Word)
    requires ValidTables(t)
    ensures Sum5(t.t1[Nat(w.r0)], t.t2[Nat(w.r1)], t.t3[Nat(w.r2)], t.t4[Nat(w.r3)], k)
            == AddWord(Apply(Mix, SubWord(w)), k)
  {
    hide Sum5, RowTimes, Apply, ScaleWord, AddWord, Sub, InvSub, Nat, FromNat, IsScaled, RoundConstant;
    Lookup(t.t1, Sub, SourceMix.m0, w.r0); Lookup(t.t2, Sub, SourceMix.m1, w.r1);
    Lookup(t.t3, Sub, SourceMix.m2, w.r2); Lookup(t.t4, Sub, SourceMix.m3, w.r3);
    Sum5IsRowTimes(SubWord(w), SourceMix, k);
    CoefficientsAreColumns(SubWord(w));
  }

  lemma DecryptionLookup(t: Tables, w: Word, k: Word)
    requires ValidTables(t)
    ensures Sum5(t.t5[Nat(w.r0)], t.t6[Nat(w.r1)], t.t7[Nat(w.r2)], t.t8[Nat(w.r3)], k)
            == AddWord(Apply(InvMix, InvSubWord(w)), k)
  {
    hide Sum5, RowTimes, Apply, ScaleWord, AddWord, Sub, InvSub, Nat, FromNat, IsScaled, RoundConstant;
    Lookup(t.t5, InvSub, SourceInvMix.m0, w.r0); Lookup(t.t6, InvSub, SourceInvMix.m1, w.r1);
    Lookup(t.t7, InvSub, SourceInvMix.m2, w.r2); Lookup(t.t8, InvSub, SourceInvMix.m3, w.r3);
    Sum5IsRowTimes(InvSubWord(w), SourceInvMix, k);
    CoefficientsAreColumns(InvSubWord(w));
  }

  lemma KeyLookup(t: Tables, w: Word)
    requires ValidTables(t)
    ensures AddWord(AddWord(AddWord(t.u1[Nat(w.r0)], t.u2[Nat(w.r1)]), t.u3[Nat(w.r2)]), t.u4[Nat(w.r3)])
            == Apply(InvMix, w)
  {
    hide RowTimes, Apply, ScaleWord, AddWord, Sub, InvSub, Nat, FromNat, IsScaled, RoundConstant;
    Lookup(t.u1, Same, SourceInvMix.m0, w.r0); Lookup(t.u2, Same, SourceInvMix.m1, w.r1);
    Lookup(t.u3, Same, SourceInvMix.m2, w.r2); Lookup(t.u4, Same, SourceInvMix.m3, w.r3);
    Sum5IsRowTimes(w, SourceInvMix, ZeroWord);
    ScaleUnits(RowTimes(w, SourceInvMix));
    ScaleUnits(AddWord(AddWord(AddWord(ScaleWord(w.r0, SourceInvMix.m0), ScaleWord(w.r1, SourceInvMix.m1)),
                               ScaleWord(w.r2, SourceInvMix.m2)), ScaleWord(w.r3, SourceInvMix.m3)));
    CoefficientsAreColumns(w);
  }

  lemma SubLookup(t: Tables, b: Byte)
    requires ValidTables(t)
    ensures t.sbox[Nat(b)] == Sub(b) && t.inverse[Nat(b)] == InvSub(b)
  {
    hide Nat, FromNat, Sub, InvSub, IsScaled;
    NatRoundTrip(b);
  }
}
