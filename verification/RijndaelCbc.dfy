/** The mode over the 256-bit block cipher. */
module RijndaelCbc {
  import opened GaloisField
  import opened RijndaelRoundTables
  import opened RijndaelBlock
  import opened BlockChaining

  ghost function Encryptor(key: seq<Byte>): (f: BlockMap)
    requires |key| == BLOCK_SIZE
    ensures KeepsLength(f)
  {
    b => if |b| == BLOCK_SIZE then EncryptBytes(key, b) else b
  }

  ghost function Decryptor(key: seq<Byte>): (g: BlockMap)
    requires |key| == BLOCK_SIZE
    ensures KeepsLength(g)
  {
    b => if |b| == BLOCK_SIZE then DecryptBytes(key, b) else b
  }

  lemma EncryptorAt(key: seq<Byte>, b: seq<Byte>)
    requires |key| == BLOCK_SIZE && |b| == BLOCK_SIZE
    ensures Encryptor(key)(b) == EncryptBytes(key, b)
  {
    hide EncryptBytes;
  }

  lemma DecryptorAt(key: seq<Byte>, b: seq<Byte>)
    requires |key| == BLOCK_SIZE && |b| == BLOCK_SIZE
    ensures Decryptor(key)(b) == DecryptBytes(key, b)
  {
    hide DecryptBytes;
  }

  lemma InverseAt(key: seq<Byte>, b: seq<Byte>)
    requires |key| == BLOCK_SIZE && |b| == BLOCK_SIZE
    ensures Encryptor(key)(Decryptor(key)(b)) == b && Decryptor(key)(Encryptor(key)(b)) == b
  {
    hide *;
    BlockInverse(key, b);
    EncryptorAt(key, b);
    DecryptorAt(key, b);
    EncryptorAt(key, DecryptBytes(key, b));
    DecryptorAt(key, EncryptBytes(key, b));
  }

  lemma BlockMapsInverse(key: seq<Byte>)
    requires |key| == BLOCK_SIZE
    ensures Inverses(Encryptor(key), Decryptor(key))
  {
    hide Encryptor, Decryptor, EncryptBytes, DecryptBytes;
    forall b: seq<Byte> | |b| == BLOCK_SIZE
      ensures Encryptor(key)(Decryptor(key)(b)) == b && Decryptor(key)(Encryptor(key)(b)) == b
    {
      InverseAt(key, b);
    }
  }

  /** Decryption undoes encryption on every byte string. */
  lemma DecryptsWhatItEncrypts(key: seq<Byte>, iv: seq<Byte>, plaintext: seq<Byte>)
    requires |key| == BLOCK_SIZE && |iv| == BLOCK_SIZE
    ensures Decryption(Decryptor(key), iv, Encryption(Encryptor(key), iv, plaintext)) == Ok(plaintext)
  {
    hide *;
    BlockMapsInverse(key);
    ModeRoundTrip(Encryptor(key), Decryptor(key), iv, plaintext);
  }

  lemma AcceptsOnlyEncryptions(key: seq<Byte>, iv: seq<Byte>, ciphertext: seq<Byte>)
    requires |key| == BLOCK_SIZE && |iv| == BLOCK_SIZE
    ensures AcceptsExactlyEncryptions(Encryptor(key), Decryptor(key), iv, ciphertext)
  {
    hide *;
    BlockMapsInverse(key);
    ModeAcceptsExactly(Encryptor(key), Decryptor(key), iv, ciphertext);
  }

  /**
   * Every ciphertext block is the encryption of its plaintext block added to the ciphertext block before it, or to the
   * vector; the plaintext is followed by bytes that say how many they are.
   */
  lemma EncryptsPaddedBlocks(key: seq<Byte>, iv: seq<Byte>, plaintext: seq<Byte>, padded: seq<Byte>, k: nat)
    requires |key| == 32 && |iv| == 32 && 32 * k + 32 <= |padded|
    requires plaintext <= padded && |padded| % 32 == 0 && 1 <= |padded| - |plaintext| <= 32
    requires forall i :: |plaintext| <= i < |padded| ==> Nat(padded[i]) == |padded| - |plaintext|
    ensures var c := Encryption(Encryptor(key), iv, plaintext);
      |c| == |padded| &&
      BlockAt(c, k) == EncryptBytes(key, AddBytes(BlockAt(padded, k), if k == 0 then iv else BlockAt(c, k - 1)))
  {
    hide EncryptBytes, AddBytes, Pad, Encryptor, Chain, KeepsLength, Nat, BlockAt;
    PaddedIsPad(plaintext, padded);
    var c := Encryption(Encryptor(key), iv, plaintext);
    ChainAt(Encryptor(key), iv, padded, k);
    EncryptorAt(key, AddBytes(BlockAt(padded, k), if k == 0 then iv else BlockAt(c, k - 1)));
  }

  /**
   * A ciphertext is accepted exactly when its length is a positive number of blocks and the bytes it decrypts to end in
   * n bytes n, for some n from 1 to 32; the answer is what comes before them.
   */
  lemma AcceptsPaddedBlocks(key: seq<Byte>, iv: seq<Byte>, ciphertext: seq<Byte>, plain: seq<Byte>)
    requires |key| == 32 && |iv| == 32 && |plain| == |ciphertext|
    requires |ciphertext| % 32 == 0 ==>
      forall k: nat :: 32 * k + 32 <= |plain| ==>
        BlockAt(plain, k) ==
        AddBytes(DecryptBytes(key, BlockAt(ciphertext, k)), if k == 0 then iv else BlockAt(ciphertext, k - 1))
    ensures var r := Decryption(Decryptor(key), iv, ciphertext);
      (r.Ok? <==>
        |plain| > 0 && |plain| % 32 == 0 &&
        var n := Nat(plain[|plain| - 1]);
        1 <= n <= 32 && forall i :: |plain| - n <= i < |plain| ==> Nat(plain[i]) == n) &&
      (r.Ok? ==> r.value == plain[..|plain| - Nat(plain[|plain| - 1])])
  {
    hide DecryptBytes, AddBytes, Unpad, Decryptor, Unchain, KeepsLength, Nat, BlockAt;
    if |ciphertext| > 0 && |ciphertext| % 32 == 0 {
      var g := Decryptor(key);
      forall k: nat | 32 * k + 32 <= |plain| ensures BlockAt(plain, k) == BlockAt(Unchain(g, iv, ciphertext), k) {
        UnchainAt(g, iv, ciphertext, k);
        DecryptorAt(key, BlockAt(ciphertext, k));
      }
      SameBlocks(plain, Unchain(g, iv, ciphertext));
      UnpadChecksEveryByte(plain);
    }
  }

  class Rijndael256Cbc {
    const cipher: Rijndael256
    const iv: seq<Byte>

    ghost predicate Valid() { cipher.Valid() && |iv| == BLOCK_SIZE }

    constructor (cipher: Rijndael256, iv: seq<Byte>)
      ensures this.cipher == cipher && this.iv == iv
    {
      this.cipher := cipher;
      this.iv := iv;
    }

    /** Makes the mode of a key and a vector, and rejects any other length of either. */
    static method Create(tables: Tables, key: seq<Byte>, iv: seq<Byte>) returns (mode: Rijndael256Cbc?)
      requires ValidTables(tables)
      ensures mode == null <==> |key| != BLOCK_SIZE || |iv| != BLOCK_SIZE
      ensures mode != null ==> mode.Valid() && mode.cipher.key == key && mode.iv == iv
    {
      if |iv| != BLOCK_SIZE { return null; }
      var cipher := Rijndael256.Create(tables, key);
      if cipher == null { return null; }
      mode := new Rijndael256Cbc(cipher, iv);
    }

    method Encrypt(plaintext: seq<Byte>) returns (ciphertext: seq<Byte>)
      requires Valid()
      ensures ciphertext == Encryption(Encryptor(cipher.key), iv, plaintext)
      ensures |ciphertext| == |plaintext| + 32 - |plaintext| % 32
    {
      hide EncryptBytes, AddBytes, Pad, Nat, Encryptor, Chain, KeepsLength;
      ghost var f := Encryptor(cipher.key);
      var padded := Pad(plaintext);
      PadAppendsItsLength(plaintext);
      var previous := iv;
      ciphertext := [];
      var offset := 0;
      while offset < |padded|
        invariant 0 <= offset <= |padded| && offset % BLOCK_SIZE == 0 && |previous| == BLOCK_SIZE
        invariant ciphertext + Chain(f, previous, padded[offset..]) == Chain(f, iv, padded)
      {
        ChainStep(f, previous, padded, offset);
        var block := AddBytes(padded[offset..offset + BLOCK_SIZE], previous);
        var encrypted := cipher.EncryptBlock(block);
        EncryptorAt(cipher.key, block);
        ghost var before, tail := ciphertext, Chain(f, encrypted.value, padded[offset + BLOCK_SIZE..]);
        previous := encrypted.value;
        ciphertext := ciphertext + previous;
        assert ciphertext + tail == before + (previous + tail);
        offset := offset + BLOCK_SIZE;
      }
      assert ciphertext + [] == Chain(f, iv, padded);
    }

    method Decrypt(ciphertext: seq<Byte>) returns (r: Result<seq<Byte>>)
      requires Valid()
      ensures r == Decryption(Decryptor(cipher.key), iv, ciphertext)
      ensures r.Ok? <==>
        |ciphertext| > 0 && |ciphertext| % 32 == 0 &&
        var p := Unchain(Decryptor(cipher.key), iv, ciphertext);
        var n := Nat(p[|p| - 1]);
        1 <= n <= 32 && forall i :: |p| - n <= i < |p| ==> Nat(p[i]) == n
    {
      hide DecryptBytes, AddBytes, Unpad, Nat, Decryptor, Unchain, KeepsLength;
      if |ciphertext| == 0 || |ciphertext| % BLOCK_SIZE != 0 { return ValueError; }
      ghost var g := Decryptor(cipher.key);
      var previous := iv;
      var plaintext: seq<Byte> := [];
      var offset := 0;
      while offset < |ciphertext|
        invariant 0 <= offset <= |ciphertext| && offset % BLOCK_SIZE == 0 && |previous| == BLOCK_SIZE
        invariant plaintext + Unchain(g, previous, ciphertext[offset..]) == Unchain(g, iv, ciphertext)
      {
        UnchainStep(g, previous, ciphertext, offset);
        var block := ciphertext[offset..offset + BLOCK_SIZE];
        var decrypted := cipher.DecryptBlock(block);
        DecryptorAt(cipher.key, block);
        var plain := AddBytes(decrypted.value, previous);
        ghost var before, tail := plaintext, Unchain(g, block, ciphertext[offset + BLOCK_SIZE..]);
        plaintext := plaintext + plain;
        assert plaintext + tail == before + (plain + tail);
        previous := block;
        offset := offset + BLOCK_SIZE;
      }
      assert plaintext + [] == plaintext == Unchain(g, iv, ciphertext);
      UnpadChecksEveryByte(plaintext);
      r := Unpad(plaintext);
    }
  }
}
