/** The lookup tables, built by the loops of the cipher module and proved equal to what they stand for. */
module RijndaelTables {
  import opened GaloisField
  import opened RijndaelWords
  import opened RijndaelCipher

  // ---------------------------------------------------------------- logarithms

  datatype Logs = Logs(alog: seq<Byte>, log: seq<nat>)

  ghost predicate IsAntilog(alog: seq<Byte>) {
    |alog| == 256 && forall i :: 0 <= i < 256 ==> alog[i] == Pow(i)
  }

  ghost predicate ValidLogs(t: Logs) {
    && IsAntilog(t.alog)
    && |t.log| == 256
    && forall i :: 0 <= i < 255 ==> t.log[Nat(Pow(i))] == i
  }

  method BuildAntilog() returns (alog: seq<Byte>)
    ensures IsAntilog(alog)
  {
    hide Mul, Xtime, Add;
    alog := [One];
    for k := 0 to 255
      invariant |alog| == k + 1
      invariant forall i :: 0 <= i <= k ==> alog[i] == Pow(i)
    {
      var last := alog[|alog| - 1];
      MulBySmall(last);
      alog := alog + [Add(Xtime(last), last)];
    }
  }

  method BuildLog(alog: seq<Byte>) returns (log: seq<nat>)
    requires IsAntilog(alog)
    ensures ValidLogs(Logs(alog, log)) && log[0] == 0
  {
    hide Pow, Nat;
    var table := new nat[256](i => 0);
    KnownPowers();
    NonZeroNumber(One);
    for index := 1 to 255
      invariant forall i :: 0 <= i < index ==> table[Nat(alog[i])] == i
      invariant table[0] == 0
    {
      forall i | 0 <= i < index ensures Nat(alog[i]) != Nat(alog[index]) {
        PowInjective(i, index);
        NatRoundTrip(alog[i]);
        NatRoundTrip(alog[index]);
      }
      PowNonZero(index);
      NonZeroNumber(alog[index]);
      table[Nat(alog[index])] := index;
    }
    log := table[..];
  }

  lemma LogIsLog(t: Logs, a: Byte)
    requires ValidLogs(t) && a != Zero
    ensures t.log[Nat(a)] < 255 && Pow(t.log[Nat(a)]) == a
  {
    hide Pow, Nat;
    PowSurjective(a);
  }

  lemma PowModulo(n: nat)
    ensures Pow(n % 255) == Pow(n)
  {
    hide Pow, Mul;
    KnownPowers();
    PowOfMultiple(255, n / 255, n - n % 255);
    PowAdds(n - n % 255, n % 255);
    OneIsUnit(Pow(n % 255));
  }

  /** Multiplication through logarithms, with zero treated apart. */
  function Multiply(t: Logs, left: Byte, right: Byte): Byte
    requires |t.alog| == 256 && |t.log| == 256
  {
    if left == Zero || right == Zero then Zero
    else t.alog[(t.log[Nat(left)] + t.log[Nat(right)]) % 255]
  }

  lemma MultiplyIsMul(t: Logs, left: Byte, right: Byte)
    requires ValidLogs(t)
    ensures Multiply(t, left, right) == Mul(left, right)
  {
    hide Pow, Mul, Nat;
    MulZero(left);
    MulZero(right);
    if left != Zero && right != Zero {
      LogIsLog(t, left);
      LogIsLog(t, right);
      PowAdds(t.log[Nat(left)], t.log[Nat(right)]);
      PowModulo(t.log[Nat(left)] + t.log[Nat(right)]);
    }
  }

  // ---------------------------------------------------------------- substitution boxes

  /** The bits of a byte, most significant first. */
  function BitRow(b: Byte): seq<bool> { [b.b7, b.b6, b.b5, b.b4, b.b3, b.b2, b.b1, b.b0] }

  function ByteOfRow(r: seq<bool>): Byte
    requires |r| == 8
  {
    Byte(r[0], r[1], r[2], r[3], r[4], r[5], r[6], r[7])
  }

  method RowOfByte(value: Byte) returns (row: seq<bool>)
    ensures row == BitRow(value)
  {
    row := seq(8, _ => false);
    for bit := 0 to 8
      invariant |row| == 8 && forall k :: 0 <= k < bit ==> row[k] == BitRow(value)[k]
    {
      row := row[bit := BitRow(value)[bit]];
    }
  }

  ghost predicate IsInverseTable(rows: seq<seq<bool>>, n: nat) {
    |rows| == 256 && forall i :: 0 <= i < n && i < 256 ==> rows[i] == BitRow(Inverse(FromNat(i)))
  }

  method InverseRows(t: Logs) returns (rows: seq<seq<bool>>)
    requires ValidLogs(t)
    ensures IsInverseTable(rows, 256)
  {
    hide Pow, Mul, Nat, FromNat, Inverse;
    var zeros := seq(8, _ => false);
    rows := seq(256, _ => zeros);
    rows := rows[1 := zeros[7 := true]];
    FirstInverses();
    for index := 2 to 256
      invariant IsInverseTable(rows, index)
    {
      InverseThroughLogs(t, index);
      var row := RowOfByte(t.alog[255 - t.log[index]]);
      rows := rows[index := row];
    }
  }

  lemma FirstInverses()
    ensures BitRow(Inverse(FromNat(0))) == [false, false, false, false, false, false, false, false]
    ensures BitRow(Inverse(FromNat(1))) == [false, false, false, false, false, false, false, true]
  {
    assert FromNat(0) == Zero && FromNat(1) == One;
    hide Inverse, Mul;
    OneIsUnit(One);
    InverseUnique(One, One);
  }

  lemma InverseThroughLogs(t: Logs, index: nat)
    requires ValidLogs(t) && 0 < index < 256
    ensures t.log[index] < 255 && t.alog[255 - t.log[index]] == Inverse(FromNat(index))
  {
    hide Pow, Mul, Nat, FromNat, Inverse;
    var a := FromNat(index);
    FromNatRoundTrip(index);
    NonZeroNumber(a);
    LogIsLog(t, a);
    InverseByLog(a, t.log[index]);
    InverseUnique(a, t.alog[255 - t.log[index]]);
  }

  const T := true
  const F := false

  /** One row of the affine matrix for each output bit, most significant first. */
  function AffineMatrix(bit: nat): (row: seq<bool>)
    requires bit < 8
    ensures |row| == 8
  {
    if bit == 0 then [T, T, T, T, T, F, F, F]
    else if bit == 1 then [F, T, T, T, T, T, F, F]
    else if bit == 2 then [F, F, T, T, T, T, T, F]
    else if bit == 3 then [F, F, F, T, T, T, T, T]
    else if bit == 4 then [T, F, F, F, T, T, T, T]
    else if bit == 5 then [T, T, F, F, F, T, T, T]
    else if bit == 6 then [T, T, T, F, F, F, T, T]
    else [T, T, T, T, F, F, F, T]
  }

  const AffineConstant: seq<bool> := [F, T, T, F, F, F, T, T]

  /** One output bit after the first n columns of its matrix row. */
  function AffineBit(constant: bool, coefficients: seq<bool>, row: seq<bool>, n: nat): bool
    requires |row| == 8 && |coefficients| == 8 && n <= 8
  {
    if n == 0 then constant
    else AffineBit(constant, coefficients, row, n - 1) != (coefficients[n - 1] && row[n - 1])
  }

  lemma AffineBitUnrolls(c: bool, m: seq<bool>, r: seq<bool>, n: nat)
    requires |r| == 8 && |m| == 8 && 4 <= n <= 8
    ensures AffineBit(c, m, r, n) == (AffineBit(c, m, r, n - 4) !=
      (((m[n - 4] && r[n - 4]) != (m[n - 3] && r[n - 3])) != ((m[n - 2] && r[n - 2]) != (m[n - 1] && r[n - 1]))))
  {
    assert AffineBit(c, m, r, n - 2) == (AffineBit(c, m, r, n - 3) != (m[n - 3] && r[n - 3]));
  }

  lemma AffineUnrolled(c: bool, m: seq<bool>, r: seq<bool>)
    requires |m| == 8 && |r| == 8
    ensures AffineBit(c, m, r, 8) ==
      ((c != (((m[0] && r[0]) != (m[1] && r[1])) != ((m[2] && r[2]) != (m[3] && r[3])))) !=
      (((m[4] && r[4]) != (m[5] && r[5])) != ((m[6] && r[6]) != (m[7] && r[7]))))
  {
    AffineBitUnrolls(c, m, r, 8);
    AffineBitUnrolls(c, m, r, 4);
    assert AffineBit(c, m, r, 0) == c;
    hide AffineBit;
  }

  lemma AffineBit7(b: Byte)
    ensures AffineBit(F, [T, T, T, T, T, F, F, F], BitRow(b), 8) == Affine(b).b7
  {
    hide AffineBit;
    AffineUnrolled(F, [T, T, T, T, T, F, F, F], BitRow(b));
  }

  lemma AffineBit6(b: Byte)
    ensures AffineBit(T, [F, T, T, T, T, T, F, F], BitRow(b), 8) == Affine(b).b6
  {
    hide AffineBit;
    AffineUnrolled(T, [F, T, T, T, T, T, F, F], BitRow(b));
  }

  lemma AffineBit5(b: Byte)
    ensures AffineBit(T, [F, F, T, T, T, T, T, F], BitRow(b), 8) == Affine(b).b5
  {
    hide AffineBit;
    AffineUnrolled(T, [F, F, T, T, T, T, T, F], BitRow(b));
  }

  lemma AffineBit4(b: Byte)
    ensures AffineBit(F, [F, F, F, T, T, T, T, T], BitRow(b), 8) == Affine(b).b4
  {
    hide AffineBit;
    AffineUnrolled(F, [F, F, F, T, T, T, T, T], BitRow(b));
  }

  lemma AffineBit3(b: Byte)
    ensures AffineBit(F, [T, F, F, F, T, T, T, T], BitRow(b), 8) == Affine(b).b3
  {
    hide AffineBit;
    AffineUnrolled(F, [T, F, F, F, T, T, T, T], BitRow(b));
  }

  lemma AffineBit2(b: Byte)
    ensures AffineBit(F, [T, T, F, F, F, T, T, T], BitRow(b), 8) == Affine(b).b2
  {
    hide AffineBit;
    AffineUnrolled(F, [T, T, F, F, F, T, T, T], BitRow(b));
  }

  lemma AffineBit1(b: Byte)
    ensures AffineBit(T, [T, T, T, F, F, F, T, T], BitRow(b), 8) == Affine(b).b1
  {
    hide AffineBit;
    AffineUnrolled(T, [T, T, T, F, F, F, T, T], BitRow(b));
  }

  lemma AffineBit0(b: Byte)
    ensures AffineBit(T, [T, T, T, T, F, F, F, T], BitRow(b), 8) == Affine(b).b0
  {
    hide AffineBit;
    AffineUnrolled(T, [T, T, T, T, F, F, F, T], BitRow(b));
  }

  /** The matrix row and the constant give exactly the affine map of the standard. */
  lemma AffineBits(b: Byte, bit: nat)
    requires bit < 8
    ensures AffineBit(AffineConstant[bit], AffineMatrix(bit), BitRow(b), 8) == BitRow(Affine(b))[bit]
  {
    hide AffineBit, Affine;
    AffineBit0(b); AffineBit1(b); AffineBit2(b); AffineBit3(b);
    AffineBit4(b); AffineBit5(b); AffineBit6(b); AffineBit7(b);
  }

  method AffineRows(inverses: seq<seq<bool>>) returns (rows: seq<seq<bool>>)
    requires IsInverseTable(inverses, 256)
    ensures |rows| == 256 && forall i :: 0 <= i < 256 ==> rows[i] == BitRow(Sub(FromNat(i)))
  {
    hide FromNat, Inverse, AffineBit, Affine, AffineMatrix;
    rows := seq(256, _ => seq(8, _ => false));
    for index := 0 to 256
      invariant |rows| == 256
      invariant forall i :: 0 <= i < index ==> rows[i] == BitRow(Sub(FromNat(i)))
    {
      var row := AffineRowOf(inverses[index], Inverse(FromNat(index)));
      rows := rows[index := row];
    }
  }

  method AffineRowOf(inverse: seq<bool>, ghost b: Byte) returns (row: seq<bool>)
    requires inverse == BitRow(b)
    ensures row == BitRow(Affine(b))
  {
    hide Affine, AffineMatrix;
    row := seq(8, _ => false);
    for bit := 0 to 8
      invariant |row| == 8 && forall k :: 0 <= k < bit ==> row[k] == BitRow(Affine(b))[k]
    {
      row := row[bit := AffineConstant[bit]];
      for column := 0 to 8
        invariant |row| == 8 && forall k :: 0 <= k < bit ==> row[k] == BitRow(Affine(b))[k]
        invariant row[bit] == AffineBit(AffineConstant[bit], AffineMatrix(bit), inverse, column)
      {
        row := row[bit := row[bit] != (AffineMatrix(bit)[column] && inverse[column])];
      }
      AffineBits(b, bit);
    }
  }

  method SubstitutionBoxes(rows: seq<seq<bool>>) returns (sbox: seq<Byte>, inverse: seq<Byte>)
    requires |rows| == 256 && forall i :: 0 <= i < 256 ==> rows[i] == BitRow(Sub(FromNat(i)))
    ensures |sbox| == 256 && forall i :: 0 <= i < 256 ==> sbox[i] == Sub(FromNat(i))
    ensures |inverse| == 256 && forall i :: 0 <= i < 256 ==> inverse[i] == InvSub(FromNat(i))
  {
    hide FromNat, Sub, InvSub, Nat;
    var forward, backward := new Byte[256](_ => Zero), new Byte[256](_ => Zero);
    for index := 0 to 256
      invariant forall i :: 0 <= i < index ==> forward[i] == Sub(FromNat(i))
      invariant forall i :: 0 <= i < index ==> backward[Nat(Sub(FromNat(i)))] == FromNat(i)
    {
      var value := ByteOfRow(rows[index]);
      forall i | 0 <= i < index ensures Nat(Sub(FromNat(i))) != Nat(value) {
        SubNumbersDiffer(i, index);
      }
      forward[index] := value;
      backward[Nat(value)] := FromNat(index);
    }
    sbox, inverse := forward[..], backward[..];
    forall j | 0 <= j < 256 ensures inverse[j] == InvSub(FromNat(j)) {
      InvSubAt(j);
    }
  }

  lemma SubNumbersDiffer(i: nat, j: nat)
    requires i < j < 256
    ensures Nat(Sub(FromNat(i))) != Nat(Sub(FromNat(j)))
  {
    hide FromNat, Sub, InvSub, Nat;
    NatRoundTrip(Sub(FromNat(i))); NatRoundTrip(Sub(FromNat(j)));
    SubInverse(FromNat(i)); SubInverse(FromNat(j));
    FromNatRoundTrip(i); FromNatRoundTrip(j);
  }

  lemma InvSubAt(j: nat)
    requires j < 256
    ensures var i := Nat(InvSub(FromNat(j)));
      i < 256 && Nat(Sub(FromNat(i))) == j && FromNat(i) == InvSub(FromNat(j))
  {
    hide FromNat, Sub, InvSub, Nat;
    NatRoundTrip(InvSub(FromNat(j)));
    SubInverse(FromNat(j));
    FromNatRoundTrip(j);
  }
}
