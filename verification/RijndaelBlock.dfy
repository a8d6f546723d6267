/** The Rijndael-256 block cipher object. */
module RijndaelBlock {
  import opened BlockChaining
  import opened GaloisField
  import opened RijndaelWords
  import opened RijndaelCipher
  import opened RijndaelTables
  import opened RijndaelRoundTables

  // ---------------------------------------------------------------- bytes and blocks

  /** Four big-endian bytes a word, eight words a block. */
  function WordsOf(b: seq<Byte>): Block
    requires |b| == BLOCK_SIZE
  {
    seq(COLUMNS, c requires 0 <= c < COLUMNS => Word(b[4 * c], b[4 * c + 1], b[4 * c + 2], b[4 * c + 3]))
  }

  function BytesOfWord(w: Word): seq<Byte> { [w.r0, w.r1, w.r2, w.r3] }

  function BytesOfWords(s: seq<Word>): (b: seq<Byte>)
    ensures |b| == 4 * |s|
  {
    if |s| == 0 then [] else BytesOfWords(s[..|s| - 1]) + BytesOfWord(s[|s| - 1])
  }

  function BytesOf(s: Block): (b: seq<Byte>)
    ensures |b| == BLOCK_SIZE
  {
    BytesOfWords(s)
  }

  lemma {:induction false} BytesOfWordsAt(s: seq<Word>, c: nat)
    requires c < |s|
    ensures var b := BytesOfWords(s);
      b[4 * c] == s[c].r0 && b[4 * c + 1] == s[c].r1 && b[4 * c + 2] == s[c].r2 && b[4 * c + 3] == s[c].r3
  {
    if c < |s| - 1 { BytesOfWordsAt(s[..|s| - 1], c); }
  }

  lemma WordsOfBytes(s: Block)
    ensures WordsOf(BytesOf(s)) == s
  {
    hide BytesOfWords;
    forall c | 0 <= c < COLUMNS ensures WordsOf(BytesOf(s))[c] == s[c] { BytesOfWordsAt(s, c); }
  }

  lemma BytesOfWordsOf(b: seq<Byte>)
    requires |b| == BLOCK_SIZE
    ensures BytesOf(WordsOf(b)) == b
  {
    hide BytesOfWords;
    var s := WordsOf(b);
    forall i | 0 <= i < 32 ensures BytesOf(s)[i] == b[i] {
      BytesOfWordsAt(s, i / 4);
      assert s[i / 4] == Word(b[4 * (i / 4)], b[4 * (i / 4) + 1], b[4 * (i / 4) + 2], b[4 * (i / 4) + 3]);
    }
  }

  // ---------------------------------------------------------------- key schedule

  /** The eight words that follow word 8*n+7 of the expanded key, computed in place. */
  method NextWords(t: Tables, temporary: array<Word>, n: nat, ghost key: Block)
    requires ValidTables(t) && temporary.Length == COLUMNS && n < 30
    requires forall c :: 0 <= c < COLUMNS ==> temporary[c] == KeyWord(key, 8 * n + c)
    modifies temporary
    ensures forall c :: 0 <= c < COLUMNS ==> temporary[c] == KeyWord(key, 8 * n + 8 + c)
  {
    hide AddWord, Nat, Add, KeyWord, ValidTables;
    var value := temporary[7];
    FirstWord(t, key, n, value);
    temporary[0] := AddWord(temporary[0], Word(Add(t.sbox[Nat(value.r1)], t.roundConstants[n]), t.sbox[Nat(value.r2)],
                                               t.sbox[Nat(value.r3)], t.sbox[Nat(value.r0)]));
    ChainWords(temporary, n, 1, key);
    value := temporary[3];
    MiddleWord(t, key, n, value);
    temporary[4] := AddWord(temporary[4], Word(t.sbox[Nat(value.r0)], t.sbox[Nat(value.r1)],
                                               t.sbox[Nat(value.r2)], t.sbox[Nat(value.r3)]));
    ChainWords(temporary, n, 5, key);
  }

  /** Each of three words absorbs its predecessor. */
  method ChainWords(temporary: array<Word>, n: nat, start: nat, ghost key: Block)
    requires temporary.Length == COLUMNS && (start == 1 || start == 5)
    requires forall c :: 0 <= c < start ==> temporary[c] == KeyWord(key, 8 * n + 8 + c)
    requires forall c :: start <= c < COLUMNS ==> temporary[c] == KeyWord(key, 8 * n + c)
    modifies temporary
    ensures forall c :: 0 <= c < start + 3 ==> temporary[c] == KeyWord(key, 8 * n + 8 + c)
    ensures forall c :: start + 3 <= c < COLUMNS ==> temporary[c] == KeyWord(key, 8 * n + c)
  {
    hide AddWord, KeyWord;
    for index := start to start + 3
      invariant forall c :: 0 <= c < index ==> temporary[c] == KeyWord(key, 8 * n + 8 + c)
      invariant forall c :: index <= c < COLUMNS ==> temporary[c] == KeyWord(key, 8 * n + c)
    {
      PlainWord(key, 8 * n + 8 + index);
      temporary[index] := AddWord(temporary[index], temporary[index - 1]);
    }
  }

  lemma PlainWord(key: Block, i: nat)
    requires i >= 8 && i % 8 != 0 && i % 8 != 4
    ensures KeyWord(key, i) == AddWord(KeyWord(key, i - 8), KeyWord(key, i - 1))
  {}

  lemma FirstWord(t: Tables, key: Block, n: nat, v: Word)
    requires ValidTables(t) && n < 30 && v == KeyWord(key, 8 * n + 7)
    ensures KeyWord(key, 8 * n + 8) == AddWord(KeyWord(key, 8 * n),
      Word(Add(t.sbox[Nat(v.r1)], t.roundConstants[n]), t.sbox[Nat(v.r2)], t.sbox[Nat(v.r3)], t.sbox[Nat(v.r0)]))
  {
    hide Sub, InvSub, Nat, FromNat, IsScaled, Add, RoundConstant;
    SubLookup(t, v.r0); SubLookup(t, v.r1); SubLookup(t, v.r2); SubLookup(t, v.r3);
    AddZero(Sub(v.r0)); AddZero(Sub(v.r2)); AddZero(Sub(v.r3));
    assert (8 * n + 8) % 8 == 0 && (8 * n + 8) / 8 - 1 == n;
  }

  lemma MiddleWord(t: Tables, key: Block, n: nat, v: Word)
    requires ValidTables(t) && v == KeyWord(key, 8 * n + 11)
    ensures KeyWord(key, 8 * n + 12) == AddWord(KeyWord(key, 8 * n + 4),
      Word(t.sbox[Nat(v.r0)], t.sbox[Nat(v.r1)], t.sbox[Nat(v.r2)], t.sbox[Nat(v.r3)]))
  {
    hide Sub, InvSub, Nat, FromNat, IsScaled, AddWord, RoundConstant;
    SubLookup(t, v.r0); SubLookup(t, v.r1); SubLookup(t, v.r2); SubLookup(t, v.r3);
    assert (8 * n + 12) % 8 == 4;
  }

  ghost predicate Scheduled(encryption: array2<Word>, decryption: array2<Word>, key: Block, target: nat)
    requires encryption.Length0 == 15 && encryption.Length1 == 8
    requires decryption.Length0 == 15 && decryption.Length1 == 8
    reads encryption, decryption
  {
    forall r, c :: 0 <= r < 15 && 0 <= c < 8 && 8 * r + c < target ==>
      encryption[r, c] == KeyWord(key, 8 * r + c) && decryption[14 - r, c] == KeyWord(key, 8 * r + c)
  }

  lemma Position(start: nat, source: nat)
    requires start % 8 == 0 && source < 8
    ensures (start + source) / 8 == start / 8 && (start + source) % 8 == source
    ensures 8 * (start / 8) == start
  {}

  method CopyWords(temporary: array<Word>, encryption: array2<Word>, decryption: array2<Word>,
                   start: nat, ghost key: Block) returns (target: nat)
    requires temporary.Length == 8
    requires encryption.Length0 == 15 && encryption.Length1 == 8
    requires decryption.Length0 == 15 && decryption.Length1 == 8 && encryption != decryption
    requires start < 120 && start % 8 == 0
    requires forall c :: 0 <= c < 8 ==> temporary[c] == KeyWord(key, start + c)
    requires Scheduled(encryption, decryption, key, start)
    modifies encryption, decryption
    ensures target == start + 8 && Scheduled(encryption, decryption, key, target)
  {
    hide KeyWord;
    target := start;
    var source := 0;
    while source < COLUMNS && target < 120
      invariant 0 <= source <= 8 && target == start + source
      invariant Scheduled(encryption, decryption, key, target)
    {
      Position(start, source);
      encryption[target / 8, target % 8] := temporary[source];
      decryption[14 - target / 8, target % 8] := temporary[source];
      source := source + 1;
      target := target + 1;
    }
  }

  method Schedule(t: Tables, key: Block) returns (encryption: KeySchedule, decryption: KeySchedule)
    requires ValidTables(t)
    ensures encryption == ExpandedKey(key)
    ensures decryption == DecryptionKeys(ExpandedKey(key))
  {
    hide KeyWord, IsScaled, Sub, InvSub, FromNat, RoundConstant, MapMatrix, Apply;
    var forward, backward := new Word[15, 8]((_, _) => ZeroWord), new Word[15, 8]((_, _) => ZeroWord);
    var temporary := new Word[8](c requires 0 <= c < 8 => key[c]);
    FirstWords(key);
    var target := CopyWords(temporary, forward, backward, 0, key);
    var n := 0;
    while target < 120
      invariant target == 8 * (n + 1) && n <= 14
      invariant forall c :: 0 <= c < 8 ==> temporary[c] == KeyWord(key, 8 * n + c)
      invariant Scheduled(forward, backward, key, target)
    {
      NextWords(t, temporary, n, key);
      n := n + 1;
      target := CopyWords(temporary, forward, backward, target, key);
    }
    BackwardKeys(forward, backward, key);
    MixInnerKeys(t, backward, key);
    encryption, decryption := CollectKeys(forward, backward, key);
  }

  lemma FirstWords(key: Block)
    ensures forall c :: 0 <= c < 8 ==> KeyWord(key, c) == key[c]
  {}

  method CollectKeys(forward: array2<Word>, backward: array2<Word>, ghost key: Block)
    returns (encryption: KeySchedule, decryption: KeySchedule)
    requires forward.Length0 == 15 && forward.Length1 == 8
    requires backward.Length0 == 15 && backward.Length1 == 8
    requires forall r, c :: 0 <= r < 15 && 0 <= c < 8 ==> forward[r, c] == KeyWord(key, 8 * r + c)
    requires forall r, c :: 0 <= r < 15 && 0 <= c < 8 ==> backward[r, c] == DecryptionWord(key, r, c)
    ensures encryption == ExpandedKey(key)
    ensures decryption == DecryptionKeys(ExpandedKey(key))
  {
    hide KeyWord, DecryptionWord, RoundKey, DecryptionKeys;
    var es: seq<Block>, ds: seq<Block> := [], [];
    for r := 0 to 15
      invariant |es| == r && |ds| == r
      invariant forall i :: 0 <= i < r ==> es[i] == RoundKey(key, i)
      invariant forall i :: 0 <= i < r ==> ds[i] == DecryptionKeys(ExpandedKey(key))[i]
    {
      var e := KeyRow(forward, r);
      var d := KeyRow(backward, r);
      EncryptionKeyAt(key, r, e);
      DecryptionKeyAt(key, r, d);
      es := es + [e];
      ds := ds + [d];
    }
    encryption, decryption := es, ds;
  }

  method KeyRow(keys: array2<Word>, r: nat) returns (b: Block)
    requires keys.Length0 == 15 && keys.Length1 == 8 && r < 15
    ensures forall c :: 0 <= c < COLUMNS ==> b[c] == keys[r, c]
  {
    b := [keys[r, 0], keys[r, 1], keys[r, 2], keys[r, 3], keys[r, 4], keys[r, 5], keys[r, 6], keys[r, 7]];
  }

  lemma EncryptionKeyAt(key: Block, r: nat, e: Block)
    requires forall c :: 0 <= c < COLUMNS ==> e[c] == KeyWord(key, 8 * r + c)
    ensures e == RoundKey(key, r)
  {
    hide KeyWord;
    assert e[0] == KeyWord(key, 8 * r + 0) && e[1] == KeyWord(key, 8 * r + 1) && e[2] == KeyWord(key, 8 * r + 2);
    assert e[3] == KeyWord(key, 8 * r + 3) && e[4] == KeyWord(key, 8 * r + 4) && e[5] == KeyWord(key, 8 * r + 5);
    assert e[6] == KeyWord(key, 8 * r + 6) && e[7] == KeyWord(key, 8 * r + 7);
  }

  lemma DecryptionKeyAt(key: Block, r: nat, d: Block)
    requires r <= ROUNDS
    requires forall c :: 0 <= c < COLUMNS ==> d[c] == DecryptionWord(key, r, c)
    ensures d == DecryptionKeys(ExpandedKey(key))[r]
  {
    hide KeyWord, Apply;
    var k := RoundKey(key, ROUNDS - r);
    assert ExpandedKey(key)[ROUNDS - r] == k;
    assert DecryptionKeys(ExpandedKey(key))[r] == if r == 0 || r == ROUNDS then k else MapMatrix(InvMix, k);
    assert k[0] == KeyWord(key, 8 * (ROUNDS - r)) && k[1] == KeyWord(key, 8 * (ROUNDS - r) + 1);
    assert k[2] == KeyWord(key, 8 * (ROUNDS - r) + 2) && k[3] == KeyWord(key, 8 * (ROUNDS - r) + 3);
    assert k[4] == KeyWord(key, 8 * (ROUNDS - r) + 4) && k[5] == KeyWord(key, 8 * (ROUNDS - r) + 5);
    assert k[6] == KeyWord(key, 8 * (ROUNDS - r) + 6) && k[7] == KeyWord(key, 8 * (ROUNDS - r) + 7);
    assert d[0] == DecryptionWord(key, r, 0) && d[1] == DecryptionWord(key, r, 1);
    assert d[2] == DecryptionWord(key, r, 2) && d[3] == DecryptionWord(key, r, 3);
    assert d[4] == DecryptionWord(key, r, 4) && d[5] == DecryptionWord(key, r, 5);
    assert d[6] == DecryptionWord(key, r, 6) && d[7] == DecryptionWord(key, r, 7);
  }

  ghost function DecryptionWord(key: Block, r: nat, c: nat): Word
    requires r <= ROUNDS
  {
    var word := KeyWord(key, 8 * (ROUNDS - r) + c);
    if r == 0 || r == ROUNDS then word else Apply(InvMix, word)
  }

  lemma BackwardKeys(forward: array2<Word>, backward: array2<Word>, key: Block)
    requires forward.Length0 == 15 && forward.Length1 == 8
    requires backward.Length0 == 15 && backward.Length1 == 8
    requires Scheduled(forward, backward, key, 120)
    ensures forall r, c :: 0 <= r < 15 && 0 <= c < 8 ==> forward[r, c] == KeyWord(key, 8 * r + c)
    ensures forall r, c :: 0 <= r < 15 && 0 <= c < 8 ==> backward[r, c] == KeyWord(key, 8 * (14 - r) + c)
  {
    hide KeyWord;
    forall r, c | 0 <= r < 15 && 0 <= c < 8 ensures backward[r, c] == KeyWord(key, 8 * (14 - r) + c) {
      assert forward[14 - r, c] == KeyWord(key, 8 * (14 - r) + c);
    }
  }

  /** The inner reversed round keys pass through the inverse mix tables. */
  method MixInnerKeys(t: Tables, keys: array2<Word>, ghost key: Block)
    requires ValidTables(t) && keys.Length0 == 15 && keys.Length1 == 8
    requires forall r, c :: 0 <= r < 15 && 0 <= c < 8 ==> keys[r, c] == KeyWord(key, 8 * (14 - r) + c)
    modifies keys
    ensures forall r, c :: 0 <= r < 15 && 0 <= c < 8 ==> keys[r, c] == DecryptionWord(key, r, c)
  {
    hide ValidTables, Apply, Nat, AddWord, KeyWord;
    for round := 1 to 14
      invariant forall r, c :: 0 <= r < round && 0 <= c < 8 ==> keys[r, c] == DecryptionWord(key, r, c)
      invariant forall r, c :: round <= r < 15 && 0 <= c < 8 ==> keys[r, c] == KeyWord(key, 8 * (14 - r) + c)
    {
      for column := 0 to 8
        invariant forall r, c :: 0 <= r < round && 0 <= c < 8 ==> keys[r, c] == DecryptionWord(key, r, c)
        invariant forall c :: 0 <= c < column ==> keys[round, c] == DecryptionWord(key, round, c)
        invariant forall c :: column <= c < 8 ==> keys[round, c] == KeyWord(key, 8 * (14 - round) + c)
        invariant forall r, c :: round < r < 15 && 0 <= c < 8 ==> keys[r, c] == KeyWord(key, 8 * (14 - r) + c)
      {
        var value := keys[round, column];
        KeyLookup(t, value);
        keys[round, column] := AddWord(AddWord(AddWord(t.u1[Nat(value.r0)], t.u2[Nat(value.r1)]),
                                               t.u3[Nat(value.r2)]), t.u4[Nat(value.r3)]);
      }
    }
  }

  // ---------------------------------------------------------------- one block

  ghost predicate IsEncryption(key: seq<Byte>, block: seq<Byte>, b: seq<Byte>)
    requires |key| == BLOCK_SIZE && |block| == BLOCK_SIZE
  {
    |b| == BLOCK_SIZE && forall w: Block :: w == WordsOf(block) ==> b == BytesOf(Cipher(ExpandedKey(WordsOf(key)), w))
  }

  ghost predicate IsDecryption(key: seq<Byte>, block: seq<Byte>, b: seq<Byte>)
    requires |key| == BLOCK_SIZE && |block| == BLOCK_SIZE
  {
    |b| == BLOCK_SIZE &&
    forall w: Block :: w == WordsOf(block) ==>
      b == BytesOf(EquivalentInvCipher(DecryptionKeys(ExpandedKey(WordsOf(key))), w))
  }

  lemma CiphersExist(key: seq<Byte>, block: seq<Byte>)
    requires |key| == BLOCK_SIZE && |block| == BLOCK_SIZE
    ensures IsEncryption(key, block, BytesOf(Cipher(ExpandedKey(WordsOf(key)), WordsOf(block))))
    ensures IsDecryption(key, block,
      BytesOf(EquivalentInvCipher(DecryptionKeys(ExpandedKey(WordsOf(key))), WordsOf(block))))
  {
    hide Cipher, EquivalentInvCipher, ExpandedKey, DecryptionKeys, WordsOf, BytesOf;
  }

  /** The encryption of one block; `BlockUnfolds` gives it as the textbook cipher. */
  ghost function EncryptBytes(key: seq<Byte>, block: seq<Byte>): (b: seq<Byte>)
    requires |key| == BLOCK_SIZE && |block| == BLOCK_SIZE
    ensures |b| == BLOCK_SIZE
  {
    CiphersExist(key, block);
    var b :| IsEncryption(key, block, b);
    b
  }

  ghost function DecryptBytes(key: seq<Byte>, block: seq<Byte>): (b: seq<Byte>)
    requires |key| == BLOCK_SIZE && |block| == BLOCK_SIZE
    ensures |b| == BLOCK_SIZE
  {
    CiphersExist(key, block);
    var b :| IsDecryption(key, block, b);
    b
  }

  lemma BlockUnfolds(key: seq<Byte>, block: seq<Byte>)
    requires |key| == BLOCK_SIZE && |block| == BLOCK_SIZE
    ensures EncryptBytes(key, block) == BytesOf(Cipher(ExpandedKey(WordsOf(key)), WordsOf(block)))
    ensures DecryptBytes(key, block) ==
      BytesOf(EquivalentInvCipher(DecryptionKeys(ExpandedKey(WordsOf(key))), WordsOf(block)))
  {
    hide Cipher, EquivalentInvCipher, ExpandedKey, DecryptionKeys, WordsOf, BytesOf;
    assert IsEncryption(key, block, EncryptBytes(key, block)) && IsDecryption(key, block, DecryptBytes(key, block));
  }

  /** For every key, decryption and encryption of a block are inverse in both orders. */
  lemma BlockInverse(key: seq<Byte>, block: seq<Byte>)
    requires |key| == BLOCK_SIZE && |block| == BLOCK_SIZE
    ensures DecryptBytes(key, EncryptBytes(key, block)) == block
    ensures EncryptBytes(key, DecryptBytes(key, block)) == block
  {
    hide Cipher, InvCipher, EquivalentInvCipher, ExpandedKey, DecryptionKeys, WordsOf, BytesOf, EncryptBytes;
    hide DecryptBytes;
    BlockUnfolds(key, block);
    BlockUnfolds(key, EncryptBytes(key, block));
    BlockUnfolds(key, DecryptBytes(key, block));
    var keys, words := ExpandedKey(WordsOf(key)), WordsOf(block);
    WordsOfBytes(Cipher(keys, words));
    WordsOfBytes(InvCipher(keys, words));
    BytesOfWordsOf(block);
    EquivalentCipher(keys, words);
    EquivalentCipher(keys, Cipher(keys, words));
    CipherInverse(keys, words);
  }

  class Rijndael256 {
    const tables: Tables
    const encryptionKeys: KeySchedule
    const decryptionKeys: KeySchedule
    ghost const key: seq<Byte>

    ghost predicate Valid() {
      && ValidTables(tables)
      && |key| == BLOCK_SIZE
      && encryptionKeys == ExpandedKey(WordsOf(key))
      && decryptionKeys == DecryptionKeys(ExpandedKey(WordsOf(key)))
    }

    constructor (tables: Tables, encryptionKeys: KeySchedule, decryptionKeys: KeySchedule, ghost key: seq<Byte>)
      ensures this.tables == tables && this.key == key
      ensures this.encryptionKeys == encryptionKeys && this.decryptionKeys == decryptionKeys
    {
      this.tables := tables;
      this.encryptionKeys := encryptionKeys;
      this.decryptionKeys := decryptionKeys;
      this.key := key;
    }

    /** Makes the cipher of a key, and rejects keys of any other length. */
    static method Create(tables: Tables, key: seq<Byte>) returns (cipher: Rijndael256?)
      requires ValidTables(tables)
      ensures cipher == null <==> |key| != BLOCK_SIZE
      ensures cipher != null ==> fresh(cipher) && cipher.Valid() && cipher.key == key
    {
      hide ValidTables, ExpandedKey, DecryptionKeys, WordsOf;
      if |key| != BLOCK_SIZE { return null; }
      var e, d := Schedule(tables, WordsOf(key));
      cipher := new Rijndael256(tables, e, d, key);
    }

    method EncryptBlock(block: seq<Byte>) returns (r: Result<seq<Byte>>)
      requires Valid()
      ensures r.Ok? <==> |block| == BLOCK_SIZE
      ensures r.Ok? ==> r.value == EncryptBytes(key, block)
    {
      hide ValidTables, ExpandedKey, DecryptionKeys, WordsOf, BytesOf, AddBlock, Round, FinalRound, Rounds;
      hide EncryptBytes;
      if |block| != BLOCK_SIZE { return ValueError; }
      BlockUnfolds(key, block);
      ghost var start := AddBlock(WordsOf(block), encryptionKeys[0]);
      var state := AddKey(WordsOf(block), encryptionKeys[0]);
      assert Rounds(start, encryptionKeys, 0) == start by { NoRounds(start, encryptionKeys); }
      for round := 1 to ROUNDS
        invariant state == Rounds(start, encryptionKeys, round - 1)
      {
        OneRound(start, encryptionKeys, round);
        state := EncryptRound(tables, state, encryptionKeys[round]);
      }
      var result := LastRound(tables, state, encryptionKeys[ROUNDS]);
      r := Ok(result);
    }

    method DecryptBlock(block: seq<Byte>) returns (r: Result<seq<Byte>>)
      requires Valid()
      ensures r.Ok? <==> |block| == BLOCK_SIZE
      ensures r.Ok? ==> r.value == DecryptBytes(key, block)
    {
      hide ValidTables, ExpandedKey, DecryptionKeys, WordsOf, BytesOf, AddBlock, EquivalentRound, EquivalentRounds,
        InvShiftRows, InvSubBytes, DecryptBytes;
      if |block| != BLOCK_SIZE { return ValueError; }
      BlockUnfolds(key, block);
      ghost var start := AddBlock(WordsOf(block), decryptionKeys[0]);
      var state := AddKey(WordsOf(block), decryptionKeys[0]);
      assert EquivalentRounds(start, decryptionKeys, 0) == start by { NoRounds(start, decryptionKeys); }
      for round := 1 to ROUNDS
        invariant state == EquivalentRounds(start, decryptionKeys, round - 1)
      {
        OneRound(start, decryptionKeys, round);
        state := DecryptRound(tables, state, decryptionKeys[round]);
      }
      var result := LastInverseRound(tables, state, decryptionKeys[ROUNDS]);
      r := Ok(result);
    }
  }

  lemma NoRounds(s: Block, keys: KeySchedule)
    ensures Rounds(s, keys, 0) == s && EquivalentRounds(s, keys, 0) == s
  {}

  lemma OneRound(s: Block, keys: KeySchedule, n: nat)
    requires 0 < n < ROUNDS
    ensures Rounds(s, keys, n) == Round(Rounds(s, keys, n - 1), keys[n])
    ensures EquivalentRounds(s, keys, n) == EquivalentRound(EquivalentRounds(s, keys, n - 1), keys[n])
  {
    hide Round, EquivalentRound;
  }

  method AddKey(s: Block, k: Block) returns (state: Block)
    ensures state == AddBlock(s, k)
  {
    hide AddWord;
    state := seq(COLUMNS, c requires 0 <= c < COLUMNS => AddWord(s[c], k[c]));
  }

  /** One table-driven round: it is SubBytes, ShiftRows, MixColumns and AddRoundKey. */
  method EncryptRound(t: Tables, state: Block, k: Block) returns (next: Block)
    requires ValidTables(t)
    ensures next == Round(state, k)
  {
    hide ValidTables, Nat, Sum5, Round;
    var transformed := new Word[COLUMNS](_ => ZeroWord);
    for column := 0 to COLUMNS
      invariant forall c :: 0 <= c < column ==> transformed[c] == Round(state, k)[c]
    {
      RoundColumn(t, state, k, column);
      transformed[column] := Sum5(t.t1[Nat(state[column].r0)], t.t2[Nat(state[(column + 1) % COLUMNS].r1)],
                                  t.t3[Nat(state[(column + 3) % COLUMNS].r2)],
                                  t.t4[Nat(state[(column + 4) % COLUMNS].r3)], k[column]);
    }
    next := transformed[..];
  }

  lemma RoundColumn(t: Tables, s: Block, k: Block, c: nat)
    requires ValidTables(t) && c < COLUMNS
    ensures Round(s, k)[c] ==
      Sum5(t.t1[Nat(s[c].r0)], t.t2[Nat(s[(c + 1) % COLUMNS].r1)], t.t3[Nat(s[(c + 3) % COLUMNS].r2)],
           t.t4[Nat(s[(c + 4) % COLUMNS].r3)], k[c])
  {
    hide ValidTables, Nat, Sum5, Sub, Apply, AddWord;
    EncryptionLookup(t, ShiftedColumn(s, c), k[c]);
  }

  method DecryptRound(t: Tables, state: Block, k: Block) returns (next: Block)
    requires ValidTables(t)
    ensures next == EquivalentRound(state, k)
  {
    hide ValidTables, Nat, Sum5, EquivalentRound;
    var transformed := new Word[COLUMNS](_ => ZeroWord);
    for column := 0 to COLUMNS
      invariant forall c :: 0 <= c < column ==> transformed[c] == EquivalentRound(state, k)[c]
    {
      EquivalentRoundColumn(t, state, k, column);
      transformed[column] := Sum5(t.t5[Nat(state[column].r0)], t.t6[Nat(state[(column + 7) % COLUMNS].r1)],
                                  t.t7[Nat(state[(column + 5) % COLUMNS].r2)],
                                  t.t8[Nat(state[(column + 4) % COLUMNS].r3)], k[column]);
    }
    next := transformed[..];
  }

  lemma EquivalentRoundColumn(t: Tables, s: Block, k: Block, c: nat)
    requires ValidTables(t) && c < COLUMNS
    ensures EquivalentRound(s, k)[c] ==
      Sum5(t.t5[Nat(s[c].r0)], t.t6[Nat(s[(c + 7) % COLUMNS].r1)], t.t7[Nat(s[(c + 5) % COLUMNS].r2)],
           t.t8[Nat(s[(c + 4) % COLUMNS].r3)], k[c])
  {
    hide ValidTables, Nat, Sum5, InvSub, Apply, AddWord;
    DecryptionLookup(t, InvShiftedColumn(s, c), k[c]);
  }

  /** The last round leaves out the column mixing and emits bytes. */
  method LastRound(t: Tables, state: Block, k: Block) returns (result: seq<Byte>)
    requires ValidTables(t)
    ensures result == BytesOf(FinalRound(state, k))
  {
    hide ValidTables, Nat, FinalRound, Add;
    ghost var final := FinalRound(state, k);
    result := [];
    for column := 0 to COLUMNS
      invariant result == BytesOfWords(final[..column])
    {
      FinalColumn(t, state, k, column);
      assert final[..column + 1][..column] == final[..column];
      result := result + [Add(t.sbox[Nat(state[column].r0)], k[column].r0),
                          Add(t.sbox[Nat(state[(column + 1) % COLUMNS].r1)], k[column].r1),
                          Add(t.sbox[Nat(state[(column + 3) % COLUMNS].r2)], k[column].r2),
                          Add(t.sbox[Nat(state[(column + 4) % COLUMNS].r3)], k[column].r3)];
    }
    assert final[..COLUMNS] == final;
  }

  lemma FinalColumn(t: Tables, s: Block, k: Block, c: nat)
    requires ValidTables(t) && c < COLUMNS
    ensures FinalRound(s, k)[c] ==
      Word(Add(t.sbox[Nat(s[c].r0)], k[c].r0), Add(t.sbox[Nat(s[(c + 1) % COLUMNS].r1)], k[c].r1),
           Add(t.sbox[Nat(s[(c + 3) % COLUMNS].r2)], k[c].r2), Add(t.sbox[Nat(s[(c + 4) % COLUMNS].r3)], k[c].r3))
  {
    hide ValidTables, Nat, Sub, Add;
    SubLookup(t, s[c].r0); SubLookup(t, s[(c + 1) % COLUMNS].r1);
    SubLookup(t, s[(c + 3) % COLUMNS].r2); SubLookup(t, s[(c + 4) % COLUMNS].r3);
  }

  lemma InvSubShiftAt(s: Block, c: nat)
    requires c < COLUMNS
    ensures InvShiftRows(InvSubBytes(s))[c] == InvSubWord(InvShiftedColumn(s, c))
  {
    hide InvSub;
  }

  method LastInverseRound(t: Tables, state: Block, k: Block) returns (result: seq<Byte>)
    requires ValidTables(t)
    ensures result == BytesOf(AddBlock(InvShiftRows(InvSubBytes(state)), k))
  {
    hide ValidTables, Nat, InvShiftRows, InvSubBytes, AddBlock, Add;
    ghost var final := AddBlock(InvShiftRows(InvSubBytes(state)), k);
    result := [];
    for column := 0 to COLUMNS
      invariant result == BytesOfWords(final[..column])
    {
      FinalInverseColumn(t, state, k, column);
      assert final[..column + 1][..column] == final[..column];
      result := result + [Add(t.inverse[Nat(state[column].r0)], k[column].r0),
                          Add(t.inverse[Nat(state[(column + 7) % COLUMNS].r1)], k[column].r1),
                          Add(t.inverse[Nat(state[(column + 5) % COLUMNS].r2)], k[column].r2),
                          Add(t.inverse[Nat(state[(column + 4) % COLUMNS].r3)], k[column].r3)];
    }
    assert final[..COLUMNS] == final;
  }

  lemma FinalInverseColumn(t: Tables, s: Block, k: Block, c: nat)
    requires ValidTables(t) && c < COLUMNS
    ensures AddBlock(InvShiftRows(InvSubBytes(s)), k)[c] ==
      Word(Add(t.inverse[Nat(s[c].r0)], k[c].r0), Add(t.inverse[Nat(s[(c + 7) % COLUMNS].r1)], k[c].r1),
           Add(t.inverse[Nat(s[(c + 5) % COLUMNS].r2)], k[c].r2), Add(t.inverse[Nat(s[(c + 4) % COLUMNS].r3)], k[c].r3))
  {
    hide ValidTables, Nat, InvSub, Add, InvShiftRows, InvSubBytes;
    var w := InvShiftedColumn(s, c);
    assert w == Word(s[c].r0, s[(c + 7) % COLUMNS].r1, s[(c + 5) % COLUMNS].r2, s[(c + 4) % COLUMNS].r3);
    hide InvShiftedColumn;
    InvSubShiftAt(s, c);
    SubLookup(t, w.r0); SubLookup(t, w.r1); SubLookup(t, w.r2); SubLookup(t, w.r3);
  }
}
