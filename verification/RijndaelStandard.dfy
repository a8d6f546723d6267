/** The cipher in the numbers and positions of its standard: FIPS 197 section 5 for a block and a key of 32 bytes. */
module RijndaelStandard {
  import opened BlockChaining
  import opened GaloisField
  import opened RijndaelWords
  import opened RijndaelCipher
  import opened RijndaelBlock

  /** How far each row moves, and the first row of the mix matrix; each row below is moved on by one. */
  const SHIFTS: seq<nat> := [0, 1, 3, 4]
  const FACTORS: seq<nat> := [2, 3, 1, 1]

  /** Bit i of a byte, counted from the least significant and around the end. */
  function BitAt(b: Byte, i: nat): bool {
    var k := i % 8;
    if k == 0 then b.b0 else if k == 1 then b.b1 else if k == 2 then b.b2 else if k == 3 then b.b3
    else if k == 4 then b.b4 else if k == 5 then b.b5 else if k == 6 then b.b6 else b.b7
  }

  /** Byte r of a column. */
  function Row(w: Word, r: nat): Byte {
    if r == 0 then w.r0 else if r == 1 then w.r1 else if r == 2 then w.r2 else w.r3
  }

  // ---------------------------------------------------------------- substitution

  /** Bit i of the substitute adds bits i, i + 4, i + 5, i + 6 and i + 7 of the inverse and bit i of 0x63. */
  lemma SubstitutionBits(b: Byte, inverse: Byte, i: nat)
    requires (Mul(b, inverse) == One || (b == Zero && inverse == Zero)) && i < 8
    ensures BitAt(Sub(b), i) ==
      (((((BitAt(inverse, i) != BitAt(inverse, i + 4)) != BitAt(inverse, i + 5)) != BitAt(inverse, i + 6)) !=
        BitAt(inverse, i + 7)) != (i in {0, 1, 5, 6}))
  {
    hide Mul, Sub, Affine, Inverse, BitAt;
    SubUnfolds(b);
    if Mul(b, inverse) == One { InverseUnique(b, inverse); }
    if i < 4 { LowAffineBits(inverse, i); } else { HighAffineBits(inverse, i); }
  }

  lemma LowAffineBits(b: Byte, i: nat)
    requires i < 4
    ensures BitAt(Affine(b), i) ==
      (((((BitAt(b, i) != BitAt(b, i + 4)) != BitAt(b, i + 5)) != BitAt(b, i + 6)) != BitAt(b, i + 7)) !=
       (i in {0, 1, 5, 6}))
  {}

  lemma HighAffineBits(b: Byte, i: nat)
    requires 4 <= i < 8
    ensures BitAt(Affine(b), i) ==
      (((((BitAt(b, i) != BitAt(b, i + 4)) != BitAt(b, i + 5)) != BitAt(b, i + 6)) != BitAt(b, i + 7)) !=
       (i in {0, 1, 5, 6}))
  {}

  // ---------------------------------------------------------------- bytes

  /** Byte i of a block is byte i % 4 of column i / 4. */
  lemma BytesByColumns(b: seq<Byte>, s: Block, i: nat)
    requires |b| == 32 && i < 32
    ensures Row(WordsOf(b)[i / 4], i % 4) == b[i] && BytesOf(s)[i] == Row(s[i / 4], i % 4)
  {
    hide BytesOfWords;
    BytesOfWordsAt(s, i / 4);
    assert i == 4 * (i / 4) + i % 4;
  }

  // ---------------------------------------------------------------- key expansion

  /** Word i of an expanded key. */
  function WordAt(keys: KeySchedule, i: nat): Word
    requires i < 120
  {
    keys[i / 8][i % 8]
  }

  /** The first round key is the key. */
  lemma ExpansionStarts(key: Block)
    ensures ExpandedKey(key)[0] == key
  {
    FirstWords(key);
  }

  /**
   * Every later word adds the word eight before it and the word before it, which is substituted at 0 and 4 modulo 8.
   */
  lemma ExpansionContinues(key: Block, i: nat)
    requires 8 <= i < 120
    ensures var keys := ExpandedKey(key); var p := WordAt(keys, i - 1);
      var mixed :=
        if i % 8 == 0 then
          Word(Add(Sub(p.r1), FromNat(ROUND_CONSTANTS[i / 8 - 1])), Sub(p.r2), Sub(p.r3), Sub(p.r0))
        else if i % 8 == 4 then Word(Sub(p.r0), Sub(p.r1), Sub(p.r2), Sub(p.r3))
        else p;
      WordAt(keys, i) == AddWord(WordAt(keys, i - 8), mixed)
  {
    hide Sub, FromNat, KeyWord, ExpandedKey, RoundConstant;
    ExpandedAt(key, i);
    ExpandedAt(key, i - 1);
    ExpandedAt(key, i - 8);
    RoundConstantIs(i / 8 - 1);
    KeyWordUnfolds(key, i);
    var p := KeyWord(key, i - 1);
    AddZero(Sub(p.r2));
    AddZero(Sub(p.r3));
    AddZero(Sub(p.r0));
  }

  lemma ExpandedAt(key: Block, i: nat)
    requires i < 120
    ensures WordAt(ExpandedKey(key), i) == KeyWord(key, i)
  {
    hide KeyWord, RoundKey;
    RoundKeyAt(key, i / 8, i % 8);
  }

  lemma RoundKeyAt(key: Block, r: nat, c: nat)
    requires c < 8
    ensures RoundKey(key, r)[c] == KeyWord(key, 8 * r + c)
  {
    hide KeyWord;
  }

  lemma KeyWordUnfolds(key: Block, i: nat)
    requires 8 <= i
    ensures var previous := KeyWord(key, i - 1);
      KeyWord(key, i) == AddWord(KeyWord(key, i - 8),
        if i % 8 == 0 then AddWord(SubWord(RotWord(previous)), Word(RoundConstant(i / 8 - 1), Zero, Zero, Zero))
        else if i % 8 == 4 then SubWord(previous)
        else previous)
  {
    hide SubWord, RoundConstant, AddWord;
  }

  // ---------------------------------------------------------------- rounds

  /** The substitute of the byte that moves to row j of column c. */
  ghost function Moved(s: Block, c: nat, j: nat): Byte
    requires j < 4
  {
    Sub(Row(s[(c + SHIFTS[j]) % 8], j))
  }

  function Factor(r: nat, j: nat): Byte { FromNat(FACTORS[(j + 4 - r) % 4]) }

  lemma FactorsAreMix(r: nat)
    requires r < 4
    ensures [Factor(0, 0), Factor(0, 1), Factor(0, 2), Factor(0, 3)] == [Two, Three, One, One]
    ensures [Factor(1, 0), Factor(1, 1), Factor(1, 2), Factor(1, 3)] == [One, Two, Three, One]
    ensures [Factor(2, 0), Factor(2, 1), Factor(2, 2), Factor(2, 3)] == [One, One, Two, Three]
    ensures [Factor(3, 0), Factor(3, 1), Factor(3, 2), Factor(3, 3)] == [Three, One, One, Two]
  {
    SmallNumbers();
  }

  lemma SmallNumbers()
    ensures FromNat(1) == One && FromNat(2) == Two && FromNat(3) == Three
  {}

  /** Byte r of column c after a round: four moved and substituted bytes, mixed, and the key's byte. */
  lemma RoundAt(s: Block, k: Block, c: nat, r: nat)
    requires c < 8 && r < 4
    ensures Row(Round(s, k)[c], r) ==
      Add(Add(Add(Mul(Factor(r, 0), Moved(s, c, 0)), Mul(Factor(r, 1), Moved(s, c, 1))),
              Add(Mul(Factor(r, 2), Moved(s, c, 2)), Mul(Factor(r, 3), Moved(s, c, 3)))), Row(k[c], r))
  {
    hide Mul, Sub, Add, Factor, Dot;
    FactorsAreMix(r);
    MovedColumn(s, c);
    var w := ShiftRows(SubBytes(s))[c];
    DotUnfolds(Mix0, w);
    DotUnfolds(Mix1, w);
    DotUnfolds(Mix2, w);
    DotUnfolds(Mix3, w);
    assert Round(s, k)[c] == AddWord(Apply(Mix, w), k[c]);
  }

  lemma MovedColumn(s: Block, c: nat)
    requires c < 8
    ensures ShiftRows(SubBytes(s))[c] == Word(Moved(s, c, 0), Moved(s, c, 1), Moved(s, c, 2), Moved(s, c, 3))
  {
    hide Sub;
  }

  /** The last round moves and substitutes without mixing. */
  lemma FinalRoundAt(s: Block, k: Block, c: nat, r: nat)
    requires c < 8 && r < 4
    ensures Row(FinalRound(s, k)[c], r) == Add(Moved(s, c, r), Row(k[c], r))
  {
    hide Sub, Add;
    MovedColumn(s, c);
  }

  /** A block is encrypted by adding the first round key, thirteen rounds and the last round, each with its own key. */
  lemma EncryptionByRounds(key: seq<Byte>, block: seq<Byte>, states: seq<Block>)
    requires |key| == 32 && |block| == 32 && |states| == 14
    requires states[0] == AddBlock(WordsOf(block), ExpandedKey(WordsOf(key))[0])
    requires forall r :: 1 <= r < 14 ==> states[r] == Round(states[r - 1], ExpandedKey(WordsOf(key))[r])
    ensures EncryptBytes(key, block) == BytesOf(FinalRound(states[13], ExpandedKey(WordsOf(key))[14]))
  {
    hide Round, FinalRound, ExpandedKey, WordsOf, BytesOf, AddBlock, EncryptBytes;
    BlockUnfolds(key, block);
    StatesAreRounds(ExpandedKey(WordsOf(key)), states, 13);
  }

  lemma {:induction false} StatesAreRounds(keys: KeySchedule, states: seq<Block>, n: nat)
    requires |states| == 14 && n < 14 && forall r :: 1 <= r < 14 ==> states[r] == Round(states[r - 1], keys[r])
    ensures states[n] == Rounds(states[0], keys, n)
  {
    hide Round;
    if n > 0 { StatesAreRounds(keys, states, n - 1); }
  }
}
