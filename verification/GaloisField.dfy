/** The field GF(2^8): bytes as polynomials over GF(2), reduced modulo x^8 + x^4 + x^3 + x + 1. */
module GaloisField {
  /** A byte is its eight bits, b0 the least significant. */
  datatype Byte = Byte(b7: bool, b6: bool, b5: bool, b4: bool, b3: bool, b2: bool, b1: bool, b0: bool)

  datatype BitList = End | Bit(low: bool, rest: BitList)

  const Zero := Byte(false, false, false, false, false, false, false, false)
  const One := Byte(false, false, false, false, false, false, false, true)
  const Two := Byte(false, false, false, false, false, false, true, false)
  const Three := Byte(false, false, false, false, false, false, true, true)

  /** Exclusive-or, which is addition in the field. */
  function Add(a: Byte, b: Byte): Byte {
    Byte(a.b7 != b.b7, a.b6 != b.b6, a.b5 != b.b5, a.b4 != b.b4,
         a.b3 != b.b3, a.b2 != b.b2, a.b1 != b.b1, a.b0 != b.b0)
  }

  /** Multiplication by x: shift left, then subtract 0x11B when bit 8 appears. */
  function Xtime(a: Byte): Byte {
    Byte(a.b6, a.b5, a.b4, a.b3 != a.b7, a.b2 != a.b7, a.b1, a.b0 != a.b7, a.b7)
  }

  function Scale(bit: bool, a: Byte): Byte { if bit then a else Zero }

  function Digit(bit: bool, a: Byte, acc: Byte): Byte { Add(Scale(bit, a), Xtime(acc)) }

  /** a times the polynomial whose coefficients are the bits, lowest first. */
  function Horner(a: Byte, bits: BitList): Byte {
    match bits
    case End => Zero
    case Bit(low, rest) => Digit(low, a, Horner(a, rest))
  }

  function BitsOf(b: Byte): BitList {
    Bit(b.b0, Bit(b.b1, Bit(b.b2, Bit(b.b3, Bit(b.b4, Bit(b.b5, Bit(b.b6, Bit(b.b7, End))))))))
  }

  ghost predicate IsProduct(a: Byte, b: Byte, c: Byte) { forall bits :: bits == BitsOf(b) ==> c == Horner(a, bits) }

  /** Polynomial multiplication modulo 0x11B; `Product` gives its digits where a proof needs them. */
  ghost function Mul(a: Byte, b: Byte): Byte {
    assert IsProduct(a, b, Horner(a, BitsOf(b)));
    var c :| IsProduct(a, b, c);
    c
  }

  lemma Product(a: Byte, b: Byte)
    ensures Mul(a, b) == Horner(a, BitsOf(b))
  {
    assert Horner(a, BitsOf(b)) == Horner(a, BitsOf(b));
  }

  // ---------------------------------------------------------------- ring laws

  lemma AddCommutes(a: Byte, b: Byte)
    ensures Add(a, b) == Add(b, a)
  {}

  lemma AddAssociates(a: Byte, b: Byte, c: Byte)
    ensures Add(Add(a, b), c) == Add(a, Add(b, c))
  {}

  lemma AddZero(a: Byte)
    ensures Add(a, Zero) == a && Add(Zero, a) == a && Add(a, a) == Zero
  {}

  lemma AddCancels(a: Byte, b: Byte)
    ensures Add(Add(a, b), b) == a
  {}

  lemma XtimeLinear(a: Byte, b: Byte)
    ensures Xtime(Add(a, b)) == Add(Xtime(a), Xtime(b))
  {}

  lemma AddSwap(p: Byte, q: Byte, r: Byte, s: Byte)
    ensures Add(Add(p, q), Add(r, s)) == Add(Add(p, r), Add(q, s))
  {}

  lemma DigitLinear(bit: bool, a: Byte, acc: Byte, a': Byte, acc': Byte)
    ensures Digit(bit, Add(a, a'), Add(acc, acc')) == Add(Digit(bit, a, acc), Digit(bit, a', acc'))
  {
    hide Add, Xtime;
    AddZero(Zero);
    XtimeLinear(acc, acc');
    AddSwap(Scale(bit, a), Scale(bit, a'), Xtime(acc), Xtime(acc'));
  }

  lemma DigitXtime(bit: bool, a: Byte, acc: Byte)
    ensures Digit(bit, Xtime(a), Xtime(acc)) == Xtime(Digit(bit, a, acc))
  {}

  lemma {:induction false} HornerLinear(a: Byte, a': Byte, bits: BitList)
    ensures Horner(Add(a, a'), bits) == Add(Horner(a, bits), Horner(a', bits))
  {
    hide Add, Digit;
    match bits
    case End => AddZero(Zero);
    case Bit(low, rest) =>
      HornerLinear(a, a', rest);
      DigitLinear(low, a, Horner(a, rest), a', Horner(a', rest));
  }

  lemma {:induction false} HornerXtime(a: Byte, bits: BitList)
    ensures Horner(Xtime(a), bits) == Xtime(Horner(a, bits))
  {
    hide Add, Digit;
    match bits
    case End =>
    case Bit(low, rest) =>
      HornerXtime(a, rest);
      DigitXtime(low, a, Horner(a, rest));
  }

  /** Multiplying a Horner sum by c on either side multiplies each digit. */
  lemma {:induction false} HornerTimes(a: Byte, bits: BitList, c: Byte)
    ensures Mul(Horner(a, bits), c) == Horner(Mul(a, c), bits)
  {
    hide Add, Xtime, BitsOf, Mul;
    Product(Horner(a, bits), c);
    match bits
    case End => HornerZero(BitsOf(c));
    case Bit(low, rest) =>
      var acc := Horner(a, rest);
      HornerTimes(a, rest, c);
      Product(a, c);
      Product(acc, c);
      HornerLinear(Scale(low, a), Xtime(acc), BitsOf(c));
      HornerXtime(acc, BitsOf(c));
      HornerZero(BitsOf(c));
  }

  lemma {:induction false} HornerZero(bits: BitList)
    ensures Horner(Zero, bits) == Zero
  {
    match bits
    case End =>
    case Bit(low, rest) => HornerZero(rest);
  }

  /** One is the unit, and a byte is the Horner sum of its own bits. */
  lemma OneIsUnit(a: Byte)
    ensures Mul(One, a) == a && Mul(a, One) == a
  {
    hide Digit, Add, Mul;
    Product(One, a);
    var l4 := Bit(a.b4, Bit(a.b5, Bit(a.b6, Bit(a.b7, End))));
    OneDigits(a.b7, a.b6, a.b5, a.b4, End);
    OneDigits(a.b3, a.b2, a.b1, a.b0, l4);
    ZeroDigits(a);
  }

  /** Four Horner steps from One shift four bits in. */
  lemma OneDigits(p: bool, q: bool, r: bool, s: bool, high: BitList)
    ensures var h := Horner(One, high);
      !h.b7 && !h.b6 && !h.b5 && !h.b4 ==>
        Horner(One, Bit(s, Bit(r, Bit(q, Bit(p, high))))) == Byte(h.b3, h.b2, h.b1, h.b0, p, q, r, s)
  {
    hide Digit, Add;
    var h := Horner(One, high);
    OneDigit(p, h);
    OneDigit(q, Horner(One, Bit(p, high)));
    OneDigit(r, Horner(One, Bit(q, Bit(p, high))));
    OneDigit(s, Horner(One, Bit(r, Bit(q, Bit(p, high)))));
  }

  lemma OneDigit(bit: bool, h: Byte)
    ensures !h.b7 ==> Digit(bit, One, h) == Byte(h.b6, h.b5, h.b4, h.b3, h.b2, h.b1, h.b0, bit)
  {}

  predicate AllOff(bits: BitList) { bits.End? || (!bits.low && AllOff(bits.rest)) }

  lemma {:induction false} OffDigits(a: Byte, bits: BitList)
    requires AllOff(bits)
    ensures Horner(a, bits) == Zero
  {
    if bits.Bit? { OffDigits(a, bits.rest); }
  }

  lemma ZeroDigits(a: Byte)
    ensures Mul(a, One) == a
  {
    hide Mul;
    var bits := BitsOf(One);
    Product(a, One);
    assert bits.Bit? && bits.low && AllOff(bits.rest) by { hide Horner, Digit, Add; }
    hide BitsOf, Add, AllOff;
    OffDigits(a, bits.rest);
    hide Horner;
    assert Mul(a, One) == Digit(true, a, Zero) by { HornerHead(a, bits); }
    AddZero(a);
  }

  lemma HornerHead(a: Byte, bits: BitList)
    requires bits.Bit?
    ensures Horner(a, bits) == Digit(bits.low, a, Horner(a, bits.rest))
  {}

  lemma MulCommutes(a: Byte, b: Byte)
    ensures Mul(a, b) == Mul(b, a)
  {
    hide Horner, BitsOf, Mul;
    Product(One, b);
    Product(a, b);
    OneIsUnit(b);
    HornerTimes(One, BitsOf(b), a);
    OneIsUnit(a);
  }

  lemma MulAssociates(a: Byte, b: Byte, c: Byte)
    ensures Mul(Mul(a, b), c) == Mul(a, Mul(b, c))
  {
    hide Horner, BitsOf, Mul;
    Product(b, c);
    Product(Mul(b, a), c);
    MulCommutes(a, Horner(b, BitsOf(c)));
    HornerTimes(b, BitsOf(c), a);
    MulCommutes(a, b);
  }

  lemma MulDistributes(a: Byte, a': Byte, b: Byte)
    ensures Mul(Add(a, a'), b) == Add(Mul(a, b), Mul(a', b))
    ensures Mul(b, Add(a, a')) == Add(Mul(b, a), Mul(b, a'))
  {
    hide Add, Horner, BitsOf, Mul;
    HornerLinear(a, a', BitsOf(b));
    Product(Add(a, a'), b);
    Product(a, b);
    Product(a', b);
    MulCommutes(Add(a, a'), b);
    MulCommutes(a, b);
    MulCommutes(a', b);
  }

  // ---------------------------------------------------------------- bytes as numbers

  function Nibble(p: bool, q: bool, r: bool, s: bool): (n: nat)
    ensures n < 16
  {
    (if p then 8 else 0) + (if q then 4 else 0) + (if r then 2 else 0) + (if s then 1 else 0)
  }

  function Nat(a: Byte): (n: nat)
    ensures n < 256
  {
    16 * Nibble(a.b7, a.b6, a.b5, a.b4) + Nibble(a.b3, a.b2, a.b1, a.b0)
  }

  predicate NibbleBit(n: nat, weight: nat)
    requires weight > 0
  {
    n / weight % 2 == 1
  }

  function FromNat(n: nat): Byte {
    var h, l := n / 16, n % 16;
    Byte(NibbleBit(h, 8), NibbleBit(h, 4), NibbleBit(h, 2), NibbleBit(h, 1),
         NibbleBit(l, 8), NibbleBit(l, 4), NibbleBit(l, 2), NibbleBit(l, 1))
  }

  lemma NibbleRoundTrip(p: bool, q: bool, r: bool, s: bool)
    ensures var n := Nibble(p, q, r, s);
      NibbleBit(n, 8) == p && NibbleBit(n, 4) == q && NibbleBit(n, 2) == r && NibbleBit(n, 1) == s
  {}

  lemma NatRoundTrip(a: Byte)
    ensures FromNat(Nat(a)) == a
  {
    hide Nibble, NibbleBit;
    var h, l := Nibble(a.b7, a.b6, a.b5, a.b4), Nibble(a.b3, a.b2, a.b1, a.b0);
    assert Nat(a) / 16 == h && Nat(a) % 16 == l;
    NibbleRoundTrip(a.b7, a.b6, a.b5, a.b4);
    NibbleRoundTrip(a.b3, a.b2, a.b1, a.b0);
  }

  lemma NibbleValue(n: nat)
    requires n < 16
    ensures Nibble(NibbleBit(n, 8), NibbleBit(n, 4), NibbleBit(n, 2), NibbleBit(n, 1)) == n
  {}

  lemma FromNatRoundTrip(n: nat)
    requires n < 256
    ensures Nat(FromNat(n)) == n
  {
    hide Nibble, NibbleBit;
    NibbleValue(n / 16);
    NibbleValue(n % 16);
  }

  // ---------------------------------------------------------------- three generates the field

  ghost function Pow(n: nat): Byte {
    if n == 0 then One else Mul(Pow(n - 1), Three)
  }

  lemma {:induction false} PowAdds(m: nat, n: nat)
    ensures Pow(m + n) == Mul(Pow(m), Pow(n))
  {
    hide Mul;
    if n == 0 {
      OneIsUnit(Pow(m));
    } else {
      PowAdds(m, n - 1);
      MulAssociates(Pow(m), Pow(n - 1), Three);
    }
  }

  const I := true
  const O := false

  /** The powers of three that the order argument needs, by repeated multiplication. */
  const P1 := Byte(O,O,O,O,O,O,I,I)
  const P2 := Byte(O,O,O,O,O,I,O,I)
  const P4 := Byte(O,O,O,I,O,O,O,I)
  const P8 := Byte(O,O,O,I,I,O,I,O)
  const P16 := Byte(O,I,O,I,I,I,I,I)
  const P17 := Byte(I,I,I,O,O,O,O,I)
  const P34 := Byte(O,I,O,I,I,I,O,O)
  const P51 := Byte(O,O,O,O,I,I,O,O)
  const P85 := Byte(I,O,I,I,I,I,O,I)
  const P170 := Byte(I,O,I,I,I,I,O,O)
  const P255 := Byte(O,O,O,O,O,O,O,I)

  lemma Product2() ensures Mul(P1, P1) == P2 { Product(P1, P1); }
  lemma Product4() ensures Mul(P2, P2) == P4 { Product(P2, P2); }
  lemma Product8() ensures Mul(P4, P4) == P8 { Product(P4, P4); }
  lemma Product16() ensures Mul(P8, P8) == P16 { Product(P8, P8); }
  lemma Product17() ensures Mul(P16, P1) == P17 { Product(P16, P1); }
  lemma Product34() ensures Mul(P17, P17) == P34 { Product(P17, P17); }
  lemma Product51() ensures Mul(P34, P17) == P51 { Product(P34, P17); }
  lemma Product85() ensures Mul(P51, P34) == P85 { Product(P51, P34); }
  lemma Product170() ensures Mul(P85, P85) == P170 { Product(P85, P85); }
  lemma Product255() ensures Mul(P170, P85) == P255 { Product(P170, P85); }

  lemma KnownPowers()
    ensures Pow(16) == P16 && Pow(1) == P1 && Pow(51) == P51 && Pow(85) == P85 && Pow(255) == One
  {
    hide Mul;
    assert Pow(1) == P1 by { assert Pow(0) == One; OneIsUnit(Three); }
    PowAdds(1, 1); Product2();
    PowAdds(2, 2); Product4();
    PowAdds(4, 4); Product8();
    PowAdds(8, 8); Product16();
    PowAdds(16, 1); Product17();
    PowAdds(17, 17); Product34();
    PowAdds(34, 17); Product51();
    PowAdds(51, 34); Product85();
    PowAdds(85, 85); Product170();
    PowAdds(170, 85); Product255();
  }

  lemma {:induction false} PowOfMultiple(k: nat, m: nat, n: nat)
    requires Pow(k) == One && n == m * k
    ensures Pow(n) == One
  {
    hide Mul;
    if m != 0 {
      assert n - k == (m - 1) * k;
      PowOfMultiple(k, m - 1, n - k);
      PowAdds(n - k, k);
      OneIsUnit(One);
    }
  }

  /** The proper divisors of 255 divide 15, 51 or 85. */
  lemma Divisors(k: nat, q: nat)
    requires k * q == 255 && 1 < q && 0 < k
    ensures k in {1, 3, 5, 15, 17, 51, 85}
  {
    if k > 15 {
      assert 16 * q <= k * q;
      assert q == 2 || q == 3 || q == 4 || q == 5 || q == 6 || q == 7 || q == 8 || q == 9 ||
             q == 10 || q == 11 || q == 12 || q == 13 || q == 14 || q == 15;
    } else {
      assert k == 1 || k == 2 || k == 3 || k == 4 || k == 5 || k == 6 || k == 7 || k == 8 ||
             k == 9 || k == 10 || k == 11 || k == 12 || k == 13 || k == 14 || k == 15;
    }
  }

  lemma NotOneByMultiple(k: nat, m: nat, n: nat)
    requires Pow(n) != One && n == m * k
    ensures Pow(k) != One
  {
    if Pow(k) == One { PowOfMultiple(k, m, n); }
  }

  lemma FullCycle()
    ensures Pow(255) == One
  {
    hide Mul;
    KnownPowers();
  }

  /** No power at a proper divisor of 255 is one. */
  lemma DivisorPowers(k: nat)
    requires k in {1, 3, 5, 15, 17, 51, 85}
    ensures Pow(k) != One
  {
    hide Mul, Pow;
    KnownPowers();
    if k in {1, 5, 17, 85} {
      NotOneByMultiple(k, if k == 1 then 85 else if k == 5 then 17 else if k == 17 then 5 else 1, 85);
    } else if k in {3, 51} {
      NotOneByMultiple(k, if k == 3 then 17 else 1, 51);
    } else {
      PowAdds(15, 1);
      OneIsUnit(P1);
    }
  }

  /** Three has order 255: no smaller positive power is one. */
  lemma {:induction false} OrderOfThree(k: nat)
    requires 0 < k < 255
    ensures Pow(k) != One
    decreases k
  {
    hide Mul, Pow;
    var q, r := 255 / k, 255 % k;
    assert 255 == q * k + r;
    PowAdds(q * k, r);
    FullCycle();
    OneIsUnit(Pow(r));
    if r > 0 {
      OrderOfThree(r);
      if Pow(k) == One { PowOfMultiple(k, q, q * k); }
    } else {
      assert q != 1 && q != 0;
      Divisors(k, q);
      DivisorPowers(k);
    }
  }

  lemma PowNonZero(n: nat)
    requires n <= 255
    ensures Pow(n) != Zero
  {
    hide Mul;
    PowAdds(n, 255 - n);
    KnownPowers();
    if Pow(n) == Zero { MulZero(Pow(255 - n)); }
  }

  lemma MulZero(a: Byte)
    ensures Mul(Zero, a) == Zero && Mul(a, Zero) == Zero
  {
    hide BitsOf, Horner, Mul;
    Product(Zero, a);
    HornerZero(BitsOf(a));
    MulCommutes(Zero, a);
  }

  lemma PowInjective(i: nat, j: nat)
    requires i < j < 255
    ensures Pow(i) != Pow(j)
  {
    hide Mul, Pow;
    if Pow(i) == Pow(j) {
      PowAdds(i, 255 - i);
      PowAdds(j, 255 - i);
      PowAdds(j - i, 255);
      KnownPowers();
      OneIsUnit(Pow(j - i));
      OrderOfThree(j - i);
    }
  }

  /** The numbers of the first n powers of three. */
  ghost function PowerNumbers(n: nat): set<nat> {
    set i | 0 <= i < n :: Nat(Pow(i))
  }

  lemma {:induction false} PowersAreDistinct(n: nat)
    requires n <= 255
    ensures |PowerNumbers(n)| == n
  {
    hide Pow, Nat;
    if n > 0 {
      PowersAreDistinct(n - 1);
      var last := Nat(Pow(n - 1));
      forall i | 0 <= i < n - 1 ensures Nat(Pow(i)) != last {
        PowInjective(i, n - 1);
        NatRoundTrip(Pow(i));
        NatRoundTrip(Pow(n - 1));
      }
      assert PowerNumbers(n) == PowerNumbers(n - 1) + {last};
    } else {
      assert PowerNumbers(0) == {};
    }
  }

  ghost function UpTo(n: nat): set<nat> {
    if n == 0 then {} else UpTo(n - 1) + {n}
  }

  lemma {:induction false} UpToSize(n: nat)
    ensures |UpTo(n)| == n
    ensures forall i :: i in UpTo(n) <==> 0 < i <= n
  {
    if n > 0 { UpToSize(n - 1); }
  }

  lemma SubsetOfSameSize<T>(a: set<T>, b: set<T>)
    requires a <= b && |a| == |b|
    ensures a == b
  {
    if x :| x in b && x !in a { assert |b - {x}| < |b|; SubsetSize(a, b - {x}); }
  }

  lemma {:induction false} SubsetSize<T>(a: set<T>, b: set<T>)
    requires a <= b
    ensures |a| <= |b|
  {
    if x :| x in a { SubsetSize(a - {x}, b - {x}); }
  }

  /** Every non-zero byte is a power of three: 255 distinct powers fill 255 values. */
  lemma PowSurjective(a: Byte)
    requires a != Zero
    ensures exists i :: 0 <= i < 255 && Pow(i) == a
  {
    hide Pow, Nat, UpTo;
    var range := UpTo(255);
    PowersAreDistinct(255);
    UpToSize(255);
    forall i | 0 <= i < 255 ensures Nat(Pow(i)) in range {
      PowNonZero(i);
      NonZeroNumber(Pow(i));
    }
    assert PowerNumbers(255) <= range;
    SubsetOfSameSize(PowerNumbers(255), range);
    NonZeroNumber(a);
    assert Nat(a) in PowerNumbers(255);
    var i: nat :| i < 255 && Nat(Pow(i)) == Nat(a);
    NatRoundTrip(Pow(i));
    NatRoundTrip(a);
  }

  lemma NonZeroNumber(a: Byte)
    ensures a != Zero <==> 0 < Nat(a)
    ensures Nat(a) <= 255
  {}

  ghost function LogOf(a: Byte): (i: nat)
    requires a != Zero
    ensures i < 255 && Pow(i) == a
  {
    PowSurjective(a);
    var i: nat :| i < 255 && Pow(i) == a;
    i
  }

  /** The multiplicative inverse, with zero mapped to itself. */
  ghost function Inverse(a: Byte): (b: Byte)
    ensures a == Zero ==> b == Zero
    ensures a != Zero ==> Mul(a, b) == One && b != Zero
  {
    if a == Zero then Zero
    else
      InverseByLog(a, LogOf(a));
      Pow(255 - LogOf(a))
  }

  lemma InverseByLog(a: Byte, i: nat)
    requires i < 255 && Pow(i) == a
    ensures Mul(a, Pow(255 - i)) == One && Pow(255 - i) != Zero
  {
    hide Mul, Pow;
    PowAdds(i, 255 - i);
    KnownPowers();
    PowNonZero(255 - i);
  }

  lemma InverseUnique(a: Byte, b: Byte)
    requires Mul(a, b) == One
    ensures a != Zero && b == Inverse(a)
  {
    hide Mul, Pow, Inverse;
    MulZero(b);
    var c := Inverse(a);
    MulCommutes(a, c);
    MulAssociates(c, a, b);
    OneIsUnit(b);
    OneIsUnit(c);
  }

  lemma InverseInvolutive(a: Byte)
    ensures Inverse(Inverse(a)) == a
  {
    hide Mul, Inverse;
    if a != Zero {
      MulCommutes(a, Inverse(a));
      InverseUnique(Inverse(a), a);
    }
  }

  lemma MulByThree(a: Byte)
    ensures Mul(a, Two) == Xtime(a) && Mul(a, Three) == Add(Xtime(a), a)
    ensures Mul(Two, a) == Xtime(a) && Mul(Three, a) == Add(Xtime(a), a)
  {
    MulBySmall(a);
    hide *;
    MulCommutes(a, Two);
    MulCommutes(a, Three);
  }

  lemma MulBySmall(a: Byte)
    ensures Mul(a, Two) == Xtime(a) && Mul(a, Three) == Add(Xtime(a), a)
  {
    hide Add, Mul;
    Product(a, Two);
    Product(a, Three);
    AddZero(Zero);
    AddZero(a);
    AddZero(Xtime(a));
    AddCommutes(a, Xtime(a));
  }
}
