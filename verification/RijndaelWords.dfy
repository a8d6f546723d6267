/** Byte substitution and column mixing of Rijndael, as FIPS 197 section 5 defines them
    for a state of eight columns. */
module RijndaelWords {
  import opened GaloisField

  const ROUNDS := 14
  const COLUMNS := 8

  /** One column of the state, or one 32-bit word with r0 its most significant byte. */
  datatype Word = Word(r0: Byte, r1: Byte, r2: Byte, r3: Byte)

  const ZeroWord := Word(Zero, Zero, Zero, Zero)

  type Block = s: seq<Word> | |s| == COLUMNS
    witness [ZeroWord, ZeroWord, ZeroWord, ZeroWord, ZeroWord, ZeroWord, ZeroWord, ZeroWord]

  type KeySchedule = k: seq<Block> | |k| == ROUNDS + 1
    witness seq(ROUNDS + 1, i => [ZeroWord, ZeroWord, ZeroWord, ZeroWord, ZeroWord, ZeroWord, ZeroWord, ZeroWord])

  // ---------------------------------------------------------------- byte substitution

  /** Bit i of the result is b_i + b_(i+4) + b_(i+5) + b_(i+6) + b_(i+7) + c_i, with c = 0x63. */
  function Affine(b: Byte): Byte {
    Byte(((b.b7 != b.b3) != (b.b4 != b.b5)) != b.b6,
         !(((b.b6 != b.b2) != (b.b3 != b.b4)) != b.b5),
         !(((b.b5 != b.b1) != (b.b2 != b.b3)) != b.b4),
         ((b.b4 != b.b0) != (b.b1 != b.b2)) != b.b3,
         ((b.b3 != b.b7) != (b.b0 != b.b1)) != b.b2,
         ((b.b2 != b.b6) != (b.b7 != b.b0)) != b.b1,
         !(((b.b1 != b.b5) != (b.b6 != b.b7)) != b.b0),
         !(((b.b0 != b.b4) != (b.b5 != b.b6)) != b.b7))
  }

  /** Bit i is b_(i+2) + b_(i+5) + b_(i+7) + d_i, with d = 0x05. */
  function InvAffine(b: Byte): Byte {
    Byte((b.b1 != b.b4) != b.b6,
         (b.b0 != b.b3) != b.b5,
         (b.b7 != b.b2) != b.b4,
         (b.b6 != b.b1) != b.b3,
         (b.b5 != b.b0) != b.b2,
         !((b.b4 != b.b7) != b.b1),
         (b.b3 != b.b6) != b.b0,
         !((b.b2 != b.b5) != b.b7))
  }

  lemma AffineInverse(b: Byte)
    ensures InvAffine(Affine(b)) == b
    ensures Affine(InvAffine(b)) == b
  {}

  ghost predicate IsSub(b: Byte, c: Byte) { forall x :: x == Inverse(b) ==> c == Affine(x) }

  ghost predicate IsInvSub(b: Byte, c: Byte) { forall x :: x == b ==> c == Inverse(InvAffine(x)) }

  /** The substitution; `SubUnfolds` gives it as the affine map of the inverse. */
  ghost function Sub(b: Byte): Byte {
    assert IsSub(b, Affine(Inverse(b))) by { hide Affine, Inverse; }
    var c :| IsSub(b, c);
    c
  }

  ghost function InvSub(b: Byte): Byte {
    assert IsInvSub(b, Inverse(InvAffine(b))) by { hide InvAffine, Inverse; }
    var c :| IsInvSub(b, c);
    c
  }

  lemma SubUnfolds(b: Byte)
    ensures Sub(b) == Affine(Inverse(b)) && InvSub(b) == Inverse(InvAffine(b))
  {
    hide Affine, InvAffine, Inverse;
    assert Affine(Inverse(b)) == Affine(Inverse(b)) && InvAffine(b) == InvAffine(b);
  }

  lemma SubInverse(b: Byte)
    ensures InvSub(Sub(b)) == b && Sub(InvSub(b)) == b
  {
    hide Affine, InvAffine, Inverse, Sub, InvSub;
    SubUnfolds(b);
    SubUnfolds(Affine(Inverse(b)));
    SubUnfolds(Inverse(InvAffine(b)));
    AffineInverse(Inverse(b));
    AffineInverse(b);
    InverseInvolutive(b);
    InverseInvolutive(InvAffine(b));
  }

  ghost function SubWord(w: Word): Word { Word(Sub(w.r0), Sub(w.r1), Sub(w.r2), Sub(w.r3)) }

  ghost function InvSubWord(w: Word): Word { Word(InvSub(w.r0), InvSub(w.r1), InvSub(w.r2), InvSub(w.r3)) }

  // ---------------------------------------------------------------- column mixing

  function AddWord(a: Word, b: Word): Word {
    Word(Add(a.r0, b.r0), Add(a.r1, b.r1), Add(a.r2, b.r2), Add(a.r3, b.r3))
  }

  function Sum4(a: Byte, b: Byte, c: Byte, d: Byte): Byte { Add(Add(a, b), Add(c, d)) }

  ghost function DotSum(p: Word, w: Word): Byte {
    Sum4(Mul(p.r0, w.r0), Mul(p.r1, w.r1), Mul(p.r2, w.r2), Mul(p.r3, w.r3))
  }

  ghost predicate IsDot(p: Word, w: Word, c: Byte) { forall v :: v == w ==> c == DotSum(p, v) }

  /** The inner product of a row of coefficients with a column; `DotUnfolds` gives its terms. */
  ghost function Dot(p: Word, w: Word): Byte {
    assert IsDot(p, w, DotSum(p, w));
    var c :| IsDot(p, w, c);
    c
  }

  const Nine := Byte(false, false, false, false, true, false, false, true)
  const Eleven := Byte(false, false, false, false, true, false, true, true)
  const Thirteen := Byte(false, false, false, false, true, true, false, true)
  const Fourteen := Byte(false, false, false, false, true, true, true, false)

  /** The rows of the MixColumns matrix and of its inverse (FIPS 197, 5.1.3 and 5.3.3). */
  const Mix0 := Word(Two, Three, One, One)
  const Mix1 := Word(One, Two, Three, One)
  const Mix2 := Word(One, One, Two, Three)
  const Mix3 := Word(Three, One, One, Two)
  const InvMix0 := Word(Fourteen, Eleven, Thirteen, Nine)
  const InvMix1 := Word(Nine, Fourteen, Eleven, Thirteen)
  const InvMix2 := Word(Thirteen, Nine, Fourteen, Eleven)
  const InvMix3 := Word(Eleven, Thirteen, Nine, Fourteen)

  lemma Sum4Adds(a: Byte, b: Byte, c: Byte, d: Byte, a': Byte, b': Byte, c': Byte, d': Byte)
    ensures Sum4(Add(a, a'), Add(b, b'), Add(c, c'), Add(d, d')) == Add(Sum4(a, b, c, d), Sum4(a', b', c', d'))
  {
    hide Add;
    AddSwap(a, a', b, b');
    AddSwap(c, c', d, d');
    AddSwap(Add(a, b), Add(a', b'), Add(c, d), Add(c', d'));
  }

  lemma DotAdds(p: Word, v: Word, w: Word)
    ensures Dot(p, AddWord(v, w)) == Add(Dot(p, v), Dot(p, w))
    ensures Dot(AddWord(v, w), p) == Add(Dot(v, p), Dot(w, p))
  {
    hide Add, Mul, Sum4, Dot;
    DotUnfolds(p, AddWord(v, w)); DotUnfolds(p, v); DotUnfolds(p, w);
    DotUnfolds(AddWord(v, w), p); DotUnfolds(v, p); DotUnfolds(w, p);
    MulDistributes(v.r0, w.r0, p.r0);
    MulDistributes(v.r1, w.r1, p.r1);
    MulDistributes(v.r2, w.r2, p.r2);
    MulDistributes(v.r3, w.r3, p.r3);
    Sum4Adds(Mul(p.r0, v.r0), Mul(p.r1, v.r1), Mul(p.r2, v.r2), Mul(p.r3, v.r3),
             Mul(p.r0, w.r0), Mul(p.r1, w.r1), Mul(p.r2, w.r2), Mul(p.r3, w.r3));
    Sum4Adds(Mul(v.r0, p.r0), Mul(v.r1, p.r1), Mul(v.r2, p.r2), Mul(v.r3, p.r3),
             Mul(w.r0, p.r0), Mul(w.r1, p.r1), Mul(w.r2, p.r2), Mul(w.r3, p.r3));
  }

  ghost function ScaleWord(a: Byte, p: Word): Word { Word(Mul(a, p.r0), Mul(a, p.r1), Mul(a, p.r2), Mul(a, p.r3)) }

  lemma DotScales(a: Byte, p: Word, w: Word)
    ensures Dot(ScaleWord(a, p), w) == Mul(a, Dot(p, w))
  {
    hide Add, Mul, Dot;
    DotUnfolds(ScaleWord(a, p), w);
    DotUnfolds(p, w);
    MulAssociates(a, p.r0, w.r0);
    MulAssociates(a, p.r1, w.r1);
    MulAssociates(a, p.r2, w.r2);
    MulAssociates(a, p.r3, w.r3);
    var x0, x1, x2, x3 := Mul(p.r0, w.r0), Mul(p.r1, w.r1), Mul(p.r2, w.r2), Mul(p.r3, w.r3);
    MulDistributes(x0, x1, a);
    MulDistributes(x2, x3, a);
    MulDistributes(Add(x0, x1), Add(x2, x3), a);
  }

  datatype Matrix = Matrix(m0: Word, m1: Word, m2: Word, m3: Word)

  const Mix := Matrix(Mix0, Mix1, Mix2, Mix3)
  const InvMix := Matrix(InvMix0, InvMix1, InvMix2, InvMix3)

  ghost function Apply(m: Matrix, w: Word): Word { Word(Dot(m.m0, w), Dot(m.m1, w), Dot(m.m2, w), Dot(m.m3, w)) }

  ghost function RowSum(q: Word, m: Matrix): Word {
    AddWord(AddWord(ScaleWord(q.r0, m.m0), ScaleWord(q.r1, m.m1)),
            AddWord(ScaleWord(q.r2, m.m2), ScaleWord(q.r3, m.m3)))
  }

  ghost predicate IsRowTimes(q: Word, m: Matrix, r: Word) { forall n :: n == m ==> r == RowSum(q, n) }

  /** A row vector times a matrix; `RowUnfolds` gives its terms. */
  ghost function RowTimes(q: Word, m: Matrix): Word {
    assert IsRowTimes(q, m, RowSum(q, m));
    var r :| IsRowTimes(q, m, r);
    r
  }

  lemma RowUnfolds(q: Word, m: Matrix)
    ensures RowTimes(q, m) == RowSum(q, m)
  {
    hide AddWord, ScaleWord;
    assert RowSum(q, m) == RowSum(q, m);
  }

  lemma DotOfProduct(q: Word, m: Matrix, w: Word)
    ensures Dot(q, Apply(m, w)) == Dot(RowTimes(q, m), w)
  {
    hide Add, Mul, Dot, ScaleWord, AddWord;
    RowUnfolds(q, m);
    assert Dot(q, Apply(m, w)) ==
      Add(Add(Mul(q.r0, Dot(m.m0, w)), Mul(q.r1, Dot(m.m1, w))), Add(Mul(q.r2, Dot(m.m2, w)), Mul(q.r3, Dot(m.m3, w))))
      by { DotUnfolds(q, Apply(m, w)); }
    var x0, x1 := ScaleWord(q.r0, m.m0), ScaleWord(q.r1, m.m1);
    var x2, x3 := ScaleWord(q.r2, m.m2), ScaleWord(q.r3, m.m3);
    DotAdds(w, x0, x1);
    DotAdds(w, x2, x3);
    DotAdds(w, AddWord(x0, x1), AddWord(x2, x3));
    DotScales(q.r0, m.m0, w);
    DotScales(q.r1, m.m1, w);
    DotScales(q.r2, m.m2, w);
    DotScales(q.r3, m.m3, w);
  }

  lemma DotUnfolds(q: Word, v: Word)
    ensures Dot(q, v) == Sum4(Mul(q.r0, v.r0), Mul(q.r1, v.r1), Mul(q.r2, v.r2), Mul(q.r3, v.r3))
  {
    hide Mul, Add;
    assert DotSum(q, v) == DotSum(q, v);
  }

  /** InvMixColumns is linear, which is what moves it past AddRoundKey. */
  lemma ApplyAdds(m: Matrix, v: Word, w: Word)
    ensures Apply(m, AddWord(v, w)) == AddWord(Apply(m, v), Apply(m, w))
  {
    hide Dot, Add;
    DotAdds(m.m0, v, w);
    DotAdds(m.m1, v, w);
    DotAdds(m.m2, v, w);
    DotAdds(m.m3, v, w);
  }

  ghost predicate Inverts(n: Matrix, m: Matrix) {
    && RowTimes(n.m0, m) == Word(One, Zero, Zero, Zero)
    && RowTimes(n.m1, m) == Word(Zero, One, Zero, Zero)
    && RowTimes(n.m2, m) == Word(Zero, Zero, One, Zero)
    && RowTimes(n.m3, m) == Word(Zero, Zero, Zero, One)
  }

  lemma InverseApplies(n: Matrix, m: Matrix, w: Word)
    requires Inverts(n, m)
    ensures Apply(n, Apply(m, w)) == w
  {
    hide Mul, Add, Dot, RowTimes;
    DotOfProduct(n.m0, m, w);
    DotOfProduct(n.m1, m, w);
    DotOfProduct(n.m2, m, w);
    DotOfProduct(n.m3, m, w);
    UnitDots(w);
  }

  lemma UnitDots(w: Word)
    ensures Dot(Word(One, Zero, Zero, Zero), w) == w.r0
    ensures Dot(Word(Zero, One, Zero, Zero), w) == w.r1
    ensures Dot(Word(Zero, Zero, One, Zero), w) == w.r2
    ensures Dot(Word(Zero, Zero, Zero, One), w) == w.r3
  {
    hide Mul, Add, Dot;
    DotUnfolds(Word(One, Zero, Zero, Zero), w);
    DotUnfolds(Word(Zero, One, Zero, Zero), w);
    DotUnfolds(Word(Zero, Zero, One, Zero), w);
    DotUnfolds(Word(Zero, Zero, Zero, One), w);
    OneIsUnit(w.r0); OneIsUnit(w.r1); OneIsUnit(w.r2); OneIsUnit(w.r3);
    MulZero(w.r0); MulZero(w.r1); MulZero(w.r2); MulZero(w.r3);
    AddZero(w.r0); AddZero(w.r1); AddZero(w.r2); AddZero(w.r3); AddZero(Zero);
  }

  /** The small products that occur in the matrices. */
  lemma SmallProducts(a: Byte)
    ensures Mul(One, a) == a && Mul(a, One) == a
    ensures Mul(Two, a) == Xtime(a) && Mul(a, Two) == Xtime(a)
    ensures Mul(Three, a) == Add(Xtime(a), a) && Mul(a, Three) == Add(Xtime(a), a)
  {
    hide *;
    OneIsUnit(a);
    MulByThree(a);
  }

  /** The products of the four bytes of the inverse matrix by 1, 2 and 3. */
  lemma InverseProducts()
    ensures Xtime(Nine) == Byte(O,O,O,I,O,O,I,O) && Xtime(Eleven) == Byte(O,O,O,I,O,I,I,O)
    ensures Xtime(Thirteen) == Byte(O,O,O,I,I,O,I,O) && Xtime(Fourteen) == Byte(O,O,O,I,I,I,O,O)
  {}

  lemma InverseRowsTop()
    ensures RowTimes(InvMix0, Mix) == Word(One, Zero, Zero, Zero)
    ensures RowTimes(InvMix1, Mix) == Word(Zero, One, Zero, Zero)
  {
    hide Mul, RowTimes;
    RowUnfolds(InvMix0, Mix);
    RowUnfolds(InvMix1, Mix);
    SmallProducts(Nine); SmallProducts(Eleven); SmallProducts(Thirteen); SmallProducts(Fourteen);
    hide Xtime;
    InverseProducts();
  }

  lemma InverseRowsBottom()
    ensures RowTimes(InvMix2, Mix) == Word(Zero, Zero, One, Zero)
    ensures RowTimes(InvMix3, Mix) == Word(Zero, Zero, Zero, One)
  {
    hide Mul, RowTimes;
    RowUnfolds(InvMix2, Mix);
    RowUnfolds(InvMix3, Mix);
    SmallProducts(Nine); SmallProducts(Eleven); SmallProducts(Thirteen); SmallProducts(Fourteen);
    hide Xtime;
    InverseProducts();
  }

  lemma MixRowsTop()
    ensures RowTimes(Mix0, InvMix) == Word(One, Zero, Zero, Zero)
    ensures RowTimes(Mix1, InvMix) == Word(Zero, One, Zero, Zero)
  {
    hide Mul, RowTimes;
    RowUnfolds(Mix0, InvMix);
    RowUnfolds(Mix1, InvMix);
    SmallProducts(Nine); SmallProducts(Eleven); SmallProducts(Thirteen); SmallProducts(Fourteen);
    hide Xtime;
    InverseProducts();
  }

  lemma MixRowsBottom()
    ensures RowTimes(Mix2, InvMix) == Word(Zero, Zero, One, Zero)
    ensures RowTimes(Mix3, InvMix) == Word(Zero, Zero, Zero, One)
  {
    hide Mul, RowTimes;
    RowUnfolds(Mix2, InvMix);
    RowUnfolds(Mix3, InvMix);
    SmallProducts(Nine); SmallProducts(Eleven); SmallProducts(Thirteen); SmallProducts(Fourteen);
    hide Xtime;
    InverseProducts();
  }

  lemma InvMixInverts()
    ensures Inverts(InvMix, Mix) && Inverts(Mix, InvMix)
  {
    hide RowTimes;
    InverseRowsTop();
    InverseRowsBottom();
    MixRowsTop();
    MixRowsBottom();
  }

  lemma MixInverse(w: Word)
    ensures Apply(InvMix, Apply(Mix, w)) == w && Apply(Mix, Apply(InvMix, w)) == w
  {
    hide *;
    InvMixInverts();
    InverseApplies(InvMix, Mix, w);
    InverseApplies(Mix, InvMix, w);
  }
}
