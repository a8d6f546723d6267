/** The textbook Rijndael cipher with a 256-bit block and key: FIPS 197 section 5 with eight columns
    and row shifts 1, 3 and 4; its inverse; and the equivalent inverse cipher of section 5.3.5. */
module RijndaelCipher {
  import opened GaloisField
  import opened RijndaelWords

  function ColumnAt(s: Block, c: int): Word { s[c % COLUMNS] }

  ghost function SubBytes(s: Block): Block { seq(COLUMNS, c requires 0 <= c < COLUMNS => SubWord(s[c])) }

  ghost function InvSubBytes(s: Block): Block { seq(COLUMNS, c requires 0 <= c < COLUMNS => InvSubWord(s[c])) }

  function ShiftedColumn(s: Block, c: nat): Word {
    Word(ColumnAt(s, c).r0, ColumnAt(s, c + 1).r1, ColumnAt(s, c + 3).r2, ColumnAt(s, c + 4).r3)
  }

  function InvShiftedColumn(s: Block, c: nat): Word {
    Word(ColumnAt(s, c).r0, ColumnAt(s, c + 7).r1, ColumnAt(s, c + 5).r2, ColumnAt(s, c + 4).r3)
  }

  function ShiftRows(s: Block): Block { seq(COLUMNS, c requires 0 <= c < COLUMNS => ShiftedColumn(s, c)) }

  function InvShiftRows(s: Block): Block { seq(COLUMNS, c requires 0 <= c < COLUMNS => InvShiftedColumn(s, c)) }

  ghost function MapMatrix(m: Matrix, s: Block): Block { seq(COLUMNS, c requires 0 <= c < COLUMNS => Apply(m, s[c])) }

  function AddBlock(s: Block, k: Block): Block { seq(COLUMNS, c requires 0 <= c < COLUMNS => AddWord(s[c], k[c])) }

  // ---------------------------------------------------------------- the layers are invertible

  lemma SubBytesInverse(s: Block)
    ensures InvSubBytes(SubBytes(s)) == s && SubBytes(InvSubBytes(s)) == s
  {
    hide Sub, InvSub;
    forall c | 0 <= c < COLUMNS
      ensures InvSubWord(SubWord(s[c])) == s[c] && SubWord(InvSubWord(s[c])) == s[c]
    {
      SubInverse(s[c].r0); SubInverse(s[c].r1); SubInverse(s[c].r2); SubInverse(s[c].r3);
    }
  }

  lemma ColumnsWrap(s: Block, i: nat, shift: nat)
    ensures ColumnAt(s, i % 8 + shift) == ColumnAt(s, i + shift)
  {}

  lemma ShiftedAt(s: Block, i: nat)
    ensures var t := ColumnAt(ShiftRows(s), i);
      t.r0 == ColumnAt(s, i).r0 && t.r1 == ColumnAt(s, i + 1).r1 &&
      t.r2 == ColumnAt(s, i + 3).r2 && t.r3 == ColumnAt(s, i + 4).r3
    ensures var t := ColumnAt(InvShiftRows(s), i);
      t.r0 == ColumnAt(s, i).r0 && t.r1 == ColumnAt(s, i + 7).r1 &&
      t.r2 == ColumnAt(s, i + 5).r2 && t.r3 == ColumnAt(s, i + 4).r3
  {
    assert ColumnAt(ShiftRows(s), i) == ShiftedColumn(s, i % 8);
    assert ColumnAt(InvShiftRows(s), i) == InvShiftedColumn(s, i % 8);
    hide ColumnAt, ShiftRows, InvShiftRows;
    ColumnsWrap(s, i, 0); ColumnsWrap(s, i, 1); ColumnsWrap(s, i, 3); ColumnsWrap(s, i, 4);
    ColumnsWrap(s, i, 5); ColumnsWrap(s, i, 7);
  }

  lemma ColumnHere(s: Block, c: nat)
    requires c < COLUMNS
    ensures ColumnAt(s, c) == s[c] == ColumnAt(s, c + 8)
  {}

  /** The shifts of the two directions sum to the number of columns. */
  lemma ShiftInverseAt(s: Block, c: nat)
    requires c < COLUMNS
    ensures InvShiftedColumn(ShiftRows(s), c) == s[c] && ShiftedColumn(InvShiftRows(s), c) == s[c]
  {
    hide ColumnAt, ShiftRows, InvShiftRows;
    ColumnHere(s, c);
    ShiftedAt(s, c); ShiftedAt(s, c + 1); ShiftedAt(s, c + 3);
    ShiftedAt(s, c + 4); ShiftedAt(s, c + 5); ShiftedAt(s, c + 7);
  }

  lemma ShiftRowsInverse(s: Block)
    ensures InvShiftRows(ShiftRows(s)) == s && ShiftRows(InvShiftRows(s)) == s
  {
    hide ShiftedColumn, InvShiftedColumn;
    forall c | 0 <= c < COLUMNS
      ensures InvShiftedColumn(ShiftRows(s), c) == s[c] && ShiftedColumn(InvShiftRows(s), c) == s[c]
    {
      ShiftInverseAt(s, c);
    }
  }

  lemma MixColumnsInverse(s: Block)
    ensures MapMatrix(InvMix, MapMatrix(Mix, s)) == s && MapMatrix(Mix, MapMatrix(InvMix, s)) == s
  {
    hide Apply;
    forall c | 0 <= c < COLUMNS
      ensures Apply(InvMix, Apply(Mix, s[c])) == s[c] && Apply(Mix, Apply(InvMix, s[c])) == s[c]
    {
      MixInverse(s[c]);
    }
  }

  lemma AddBlockCancels(s: Block, k: Block)
    ensures AddBlock(AddBlock(s, k), k) == s
  {
    hide Add;
    forall c | 0 <= c < COLUMNS ensures AddWord(AddWord(s[c], k[c]), k[c]) == s[c] {
      AddCancels(s[c].r0, k[c].r0); AddCancels(s[c].r1, k[c].r1);
      AddCancels(s[c].r2, k[c].r2); AddCancels(s[c].r3, k[c].r3);
    }
  }

  lemma InvSubShiftCommute(s: Block)
    ensures InvSubBytes(InvShiftRows(s)) == InvShiftRows(InvSubBytes(s))
  {
    hide InvSub;
  }

  lemma InvMixColumnsAdds(s: Block, k: Block)
    ensures MapMatrix(InvMix, AddBlock(s, k)) == AddBlock(MapMatrix(InvMix, s), MapMatrix(InvMix, k))
  {
    hide Apply, AddWord;
    forall c | 0 <= c < COLUMNS
      ensures Apply(InvMix, AddWord(s[c], k[c])) == AddWord(Apply(InvMix, s[c]), Apply(InvMix, k[c]))
    {
      ApplyAdds(InvMix, s[c], k[c]);
    }
  }

  // ---------------------------------------------------------------- the cipher

  ghost function Round(s: Block, k: Block): Block { AddBlock(MapMatrix(Mix, ShiftRows(SubBytes(s))), k) }

  ghost function FinalRound(s: Block, k: Block): Block { AddBlock(ShiftRows(SubBytes(s)), k) }

  ghost function Rounds(s: Block, keys: KeySchedule, n: nat): Block
    requires n < ROUNDS
  {
    if n == 0 then s else Round(Rounds(s, keys, n - 1), keys[n])
  }

  ghost function Cipher(keys: KeySchedule, s: Block): Block {
    FinalRound(Rounds(AddBlock(s, keys[0]), keys, ROUNDS - 1), keys[ROUNDS])
  }

  // ---------------------------------------------------------------- the inverse cipher, layer by layer

  ghost function InvFinalRound(s: Block, k: Block): Block { InvSubBytes(InvShiftRows(AddBlock(s, k))) }

  ghost function InvRound(s: Block, k: Block): Block {
    InvSubBytes(InvShiftRows(MapMatrix(InvMix, AddBlock(s, k))))
  }

  /** The first n inverse rounds, which use the round keys 13, 12, ... */
  ghost function InvRounds(s: Block, keys: KeySchedule, n: nat): Block
    requires n < ROUNDS
  {
    if n == 0 then s else InvRound(InvRounds(s, keys, n - 1), keys[ROUNDS - n])
  }

  ghost function InvCipher(keys: KeySchedule, s: Block): Block {
    AddBlock(InvRounds(InvFinalRound(s, keys[ROUNDS]), keys, ROUNDS - 1), keys[0])
  }

  lemma RoundInverse(s: Block, k: Block)
    ensures InvRound(Round(s, k), k) == s && Round(InvRound(s, k), k) == s
    ensures InvFinalRound(FinalRound(s, k), k) == s && FinalRound(InvFinalRound(s, k), k) == s
  {
    hide SubBytes, InvSubBytes, ShiftRows, InvShiftRows, MapMatrix, AddBlock;
    var shifted := ShiftRows(SubBytes(s));
    AddBlockCancels(MapMatrix(Mix, shifted), k);
    AddBlockCancels(shifted, k);
    MixColumnsInverse(shifted);
    ShiftRowsInverse(SubBytes(s));
    SubBytesInverse(s);
    var added := AddBlock(s, k);
    AddBlockCancels(s, k);
    MixColumnsInverse(added);
    ShiftRowsInverse(MapMatrix(InvMix, added));
    ShiftRowsInverse(added);
    SubBytesInverse(InvShiftRows(MapMatrix(InvMix, added)));
    SubBytesInverse(InvShiftRows(added));
  }

  lemma {:induction false} RoundsInverse(s: Block, keys: KeySchedule, n: nat)
    requires n < ROUNDS
    ensures InvRounds(Rounds(s, keys, ROUNDS - 1), keys, n) == Rounds(s, keys, ROUNDS - 1 - n)
    ensures Rounds(InvRounds(s, keys, ROUNDS - 1), keys, n) == InvRounds(s, keys, ROUNDS - 1 - n)
  {
    hide Round, InvRound;
    if n > 0 {
      RoundsInverse(s, keys, n - 1);
      RoundInverse(Rounds(s, keys, ROUNDS - 1 - n), keys[ROUNDS - n]);
      RoundInverse(InvRounds(s, keys, ROUNDS - 1 - n), keys[n]);
    }
  }

  /** Under every key schedule the two ciphers are inverse in both orders. */
  lemma CipherInverse(keys: KeySchedule, s: Block)
    ensures InvCipher(keys, Cipher(keys, s)) == s
    ensures Cipher(keys, InvCipher(keys, s)) == s
  {
    hide Rounds, InvRounds, FinalRound, InvFinalRound, AddBlock;
    assert forall x, k :: Rounds(x, k, 0) == x && InvRounds(x, k, 0) == x by { ZeroRounds(); }
    var start := AddBlock(s, keys[0]);
    RoundInverse(Rounds(start, keys, ROUNDS - 1), keys[ROUNDS]);
    RoundsInverse(start, keys, ROUNDS - 1);
    AddBlockCancels(s, keys[0]);
    var undone := InvFinalRound(s, keys[ROUNDS]);
    RoundsInverse(undone, keys, ROUNDS - 1);
    AddBlockCancels(InvRounds(undone, keys, ROUNDS - 1), keys[0]);
    RoundInverse(s, keys[ROUNDS]);
  }

  lemma ZeroRounds()
    ensures forall x, k :: Rounds(x, k, 0) == x && InvRounds(x, k, 0) == x
  {}

  // ---------------------------------------------------------------- the equivalent inverse cipher

  /** Reversed round keys, the inner ones passed through InvMixColumns. */
  ghost function DecryptionKeys(keys: KeySchedule): KeySchedule {
    seq(ROUNDS + 1, r requires 0 <= r <= ROUNDS =>
      if r == 0 || r == ROUNDS then keys[ROUNDS - r] else MapMatrix(InvMix, keys[ROUNDS - r]))
  }

  ghost function EquivalentRound(s: Block, k: Block): Block {
    AddBlock(MapMatrix(InvMix, InvShiftRows(InvSubBytes(s))), k)
  }

  ghost function EquivalentRounds(s: Block, keys: KeySchedule, n: nat): Block
    requires n < ROUNDS
  {
    if n == 0 then s else EquivalentRound(EquivalentRounds(s, keys, n - 1), keys[n])
  }

  ghost function EquivalentInvCipher(keys: KeySchedule, s: Block): Block {
    AddBlock(InvShiftRows(InvSubBytes(EquivalentRounds(AddBlock(s, keys[0]), keys, ROUNDS - 1))), keys[ROUNDS])
  }

  lemma {:induction false} EquivalentStates(keys: KeySchedule, s: Block, n: nat)
    requires n < ROUNDS
    ensures InvRounds(InvFinalRound(s, keys[ROUNDS]), keys, n) ==
            InvSubBytes(InvShiftRows(EquivalentRounds(AddBlock(s, keys[ROUNDS]), DecryptionKeys(keys), n)))
  {
    hide SubBytes, InvSubBytes, ShiftRows, InvShiftRows, MapMatrix, AddBlock;
    if n > 0 {
      EquivalentStates(keys, s, n - 1);
      var e := EquivalentRounds(AddBlock(s, keys[ROUNDS]), DecryptionKeys(keys), n - 1);
      InvSubShiftCommute(e);
      InvMixColumnsAdds(InvShiftRows(InvSubBytes(e)), keys[ROUNDS - n]);
    }
  }

  lemma EquivalentCipher(keys: KeySchedule, s: Block)
    ensures EquivalentInvCipher(DecryptionKeys(keys), s) == InvCipher(keys, s)
  {
    hide SubBytes, InvSubBytes, ShiftRows, InvShiftRows, MapMatrix, AddBlock, EquivalentRounds, InvRounds;
    EquivalentStates(keys, s, ROUNDS - 1);
    InvSubShiftCommute(EquivalentRounds(AddBlock(s, keys[ROUNDS]), DecryptionKeys(keys), ROUNDS - 1));
  }

  // ---------------------------------------------------------------- key expansion

  function RotWord(w: Word): Word { Word(w.r1, w.r2, w.r3, w.r0) }

  function RoundConstant(i: nat): Byte { if i == 0 then One else Xtime(RoundConstant(i - 1)) }

  /** The constants of rounds 1 to 14 (FIPS 197 section 5.2, continued for a 256-bit block). */
  const ROUND_CONSTANTS: seq<nat> := [1, 2, 4, 8, 16, 32, 64, 128, 0x1B, 0x36, 0x6C, 0xD8, 0xAB, 0x4D]

  /** Round constants start at one, double in the field, and are the numbers of the standard. */
  lemma RoundConstantsArePowers(i: nat)
    ensures RoundConstant(0) == One && RoundConstant(i + 1) == Mul(Two, RoundConstant(i))
    ensures i < 14 ==> Nat(RoundConstant(i)) == ROUND_CONSTANTS[i]
  {
    hide Mul, Xtime, FromNat, Nat;
    MulByThree(RoundConstant(i));
    if i < 14 {
      RoundConstantIs(i);
      FromNatRoundTrip(ROUND_CONSTANTS[i]);
    }
  }

  lemma {:induction false} RoundConstantIs(i: nat)
    requires i < 14
    ensures RoundConstant(i) == FromNat(ROUND_CONSTANTS[i])
  {
    if i == 0 {
      assert FromNat(1) == One;
    } else {
      hide Xtime, FromNat;
      RoundConstantIs(i - 1);
      if i < 5 { FirstDoubles(i); } else if i < 10 { MiddleDoubles(i); } else { LastDoubles(i); }
    }
  }

  lemma FirstDoubles(i: nat)
    requires 1 <= i < 5
    ensures Xtime(FromNat(ROUND_CONSTANTS[i - 1])) == FromNat(ROUND_CONSTANTS[i])
  {}

  lemma MiddleDoubles(i: nat)
    requires 5 <= i < 10
    ensures Xtime(FromNat(ROUND_CONSTANTS[i - 1])) == FromNat(ROUND_CONSTANTS[i])
  {}

  lemma LastDoubles(i: nat)
    requires 10 <= i < 14
    ensures Xtime(FromNat(ROUND_CONSTANTS[i - 1])) == FromNat(ROUND_CONSTANTS[i])
  {}

  /** Word i of the expanded key: FIPS 197 section 5.2 with eight key words. */
  ghost function KeyWord(key: Block, i: nat): Word {
    if i < COLUMNS then key[i]
    else
      var previous := KeyWord(key, i - 1);
      var mixed :=
        if i % 8 == 0 then AddWord(SubWord(RotWord(previous)), Word(RoundConstant(i / 8 - 1), Zero, Zero, Zero))
        else if i % 8 == 4 then SubWord(previous)
        else previous;
      AddWord(KeyWord(key, i - 8), mixed)
  }

  ghost function RoundKey(key: Block, r: nat): Block {
    [KeyWord(key, 8 * r), KeyWord(key, 8 * r + 1), KeyWord(key, 8 * r + 2), KeyWord(key, 8 * r + 3),
     KeyWord(key, 8 * r + 4), KeyWord(key, 8 * r + 5), KeyWord(key, 8 * r + 6), KeyWord(key, 8 * r + 7)]
  }

  ghost function ExpandedKey(key: Block): KeySchedule {
    seq(ROUNDS + 1, r requires 0 <= r <= ROUNDS => RoundKey(key, r))
  }
}
