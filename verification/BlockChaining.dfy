/** Cipher block chaining (NIST SP 800-38A section 6.2) with strict PKCS#7 padding (RFC 5652 section 6.3). */
module BlockChaining {
  import opened GaloisField

  const BLOCK_SIZE := 32

  datatype Result<T> = Ok(value: T) | ValueError

  function AddBytes(a: seq<Byte>, b: seq<Byte>): (r: seq<Byte>)
    requires |a| == |b|
    ensures |r| == |a| && forall i :: 0 <= i < |a| ==> r[i] == Add(a[i], b[i])
  {
    seq(|a|, i requires 0 <= i < |a| => Add(a[i], b[i]))
  }

  lemma AddBytesCancels(a: seq<Byte>, b: seq<Byte>)
    requires |a| == |b|
    ensures AddBytes(AddBytes(a, b), b) == a
  {
    hide Add;
    forall i | 0 <= i < |a| ensures Add(Add(a[i], b[i]), b[i]) == a[i] { AddCancels(a[i], b[i]); }
  }

  // ---------------------------------------------------------------- padding

  function Padding(n: nat): seq<Byte> { seq(n, _ => FromNat(n)) }

  function Pad(p: seq<Byte>): (r: seq<Byte>)
    ensures |r| % BLOCK_SIZE == 0 && |r| > 0
  {
    p + Padding(BLOCK_SIZE - |p| % BLOCK_SIZE)
  }

  /** Strict removal: the last byte n lies in 1..32 and the last n bytes all equal it. */
  function Unpad(p: seq<Byte>): Result<seq<Byte>>
    requires |p| >= BLOCK_SIZE
  {
    var n := Nat(p[|p| - 1]);
    if 1 <= n <= BLOCK_SIZE && p[|p| - n..] == Padding(n) then Ok(p[..|p| - n]) else ValueError
  }

  /** Padding appends 1 to 32 bytes, each with their number, up to a whole number of blocks. */
  lemma PadAppendsItsLength(p: seq<Byte>)
    ensures p <= Pad(p) && 1 <= |Pad(p)| - |p| <= 32 && |Pad(p)| % 32 == 0
    ensures forall i :: |p| <= i < |Pad(p)| ==> Nat(Pad(p)[i]) == |Pad(p)| - |p|
  {
    hide FromNat, Nat;
    FromNatRoundTrip(32 - |p| % 32);
  }

  lemma PaddedIsPad(p: seq<Byte>, padded: seq<Byte>)
    requires p <= padded && |padded| % 32 == 0 && 1 <= |padded| - |p| <= 32
    requires forall i :: |p| <= i < |padded| ==> Nat(padded[i]) == |padded| - |p|
    ensures padded == Pad(p)
  {
    hide FromNat, Nat;
    var n := |padded| - |p|;
    assert n == 32 - |p| % 32;
    forall i | |p| <= i < |padded| ensures padded[i] == FromNat(n) { NatRoundTrip(padded[i]); }
    assert padded == padded[..|p|] + padded[|p|..];
  }

  /** Removal succeeds exactly when the last byte is some n from 1 to 32 and so are the last n, and then drops those. */
  lemma UnpadChecksEveryByte(p: seq<Byte>)
    requires |p| >= BLOCK_SIZE
    ensures var n := Nat(p[|p| - 1]);
      (Unpad(p).Ok? <==> 1 <= n <= 32 && forall i :: |p| - n <= i < |p| ==> Nat(p[i]) == n) &&
      (Unpad(p).Ok? ==> Unpad(p).value == p[..|p| - n])
  {
    hide FromNat, Nat;
    var n := Nat(p[|p| - 1]);
    if 1 <= n <= 32 {
      var last := p[|p| - n..];
      FromNatRoundTrip(n);
      if Unpad(p).Ok? {
        forall i | |p| - n <= i < |p| ensures Nat(p[i]) == n { assert p[i] == last[i - (|p| - n)]; }
      }
      if forall i :: |p| - n <= i < |p| ==> Nat(p[i]) == n {
        forall j | 0 <= j < n ensures last[j] == FromNat(n) { NatRoundTrip(p[|p| - n + j]); }
        assert last == Padding(n);
      }
    }
  }

  lemma UnpadOfPad(p: seq<Byte>)
    ensures Unpad(Pad(p)) == Ok(p)
  {
    hide FromNat, Nat;
    var n := BLOCK_SIZE - |p| % BLOCK_SIZE;
    FromNatRoundTrip(n);
    assert Pad(p)[|p|..] == Padding(n) && Pad(p)[..|p|] == p;
  }

  lemma PadOfUnpad(p: seq<Byte>)
    requires |p| % BLOCK_SIZE == 0 && |p| > 0 && Unpad(p).Ok?
    ensures Pad(Unpad(p).value) == p
  {
    hide FromNat, Nat;
    var n := Nat(p[|p| - 1]);
    var q := Unpad(p).value;
    LengthOfPadding(|p|, n);
    assert p == q + p[|p| - n..];
  }

  lemma LengthOfPadding(length: nat, n: nat)
    requires length % 32 == 0 && length > 0 && 1 <= n <= 32
    ensures 32 - (length - n) % 32 == n
  {}

  // ---------------------------------------------------------------- chaining, for any block permutation

  type BlockMap = seq<Byte> -> seq<Byte>

  ghost predicate KeepsLength(f: BlockMap) { forall b :: |b| == BLOCK_SIZE ==> |f(b)| == BLOCK_SIZE }

  ghost predicate Inverses(f: BlockMap, g: BlockMap) {
    forall b {:trigger f(g(b))} {:trigger g(f(b))} :: |b| == BLOCK_SIZE ==> f(g(b)) == b && g(f(b)) == b
  }

  ghost function Chain(f: BlockMap, previous: seq<Byte>, data: seq<Byte>): (c: seq<Byte>)
    requires KeepsLength(f) && |previous| == BLOCK_SIZE && |data| % BLOCK_SIZE == 0
    ensures |c| == |data|
    decreases |data|
  {
    if |data| == 0 then []
    else
      var block := f(AddBytes(data[..BLOCK_SIZE], previous));
      block + Chain(f, block, data[BLOCK_SIZE..])
  }

  ghost function Unchain(g: BlockMap, previous: seq<Byte>, data: seq<Byte>): (p: seq<Byte>)
    requires KeepsLength(g) && |previous| == BLOCK_SIZE && |data| % BLOCK_SIZE == 0
    ensures |p| == |data|
    decreases |data|
  {
    if |data| == 0 then []
    else
      var block := data[..BLOCK_SIZE];
      AddBytes(g(block), previous) + Unchain(g, block, data[BLOCK_SIZE..])
  }

  lemma ChainStep(f: BlockMap, previous: seq<Byte>, data: seq<Byte>, offset: nat)
    requires KeepsLength(f) && |previous| == BLOCK_SIZE && |data| % BLOCK_SIZE == 0
    requires offset % BLOCK_SIZE == 0 && offset < |data|
    ensures offset + BLOCK_SIZE <= |data|
    ensures |f(AddBytes(data[offset..offset + BLOCK_SIZE], previous))| == BLOCK_SIZE
    ensures Chain(f, previous, data[offset..]) == f(AddBytes(data[offset..offset + BLOCK_SIZE], previous)) +
      Chain(f, f(AddBytes(data[offset..offset + BLOCK_SIZE], previous)), data[offset + BLOCK_SIZE..])
  {
    hide AddBytes;
    assert data[offset..][..BLOCK_SIZE] == data[offset..offset + BLOCK_SIZE];
    assert data[offset..][BLOCK_SIZE..] == data[offset + BLOCK_SIZE..];
  }

  lemma UnchainStep(g: BlockMap, previous: seq<Byte>, data: seq<Byte>, offset: nat)
    requires KeepsLength(g) && |previous| == BLOCK_SIZE && |data| % BLOCK_SIZE == 0
    requires offset % BLOCK_SIZE == 0 && offset < |data|
    ensures offset + BLOCK_SIZE <= |data|
    ensures |g(data[offset..offset + BLOCK_SIZE])| == BLOCK_SIZE
    ensures Unchain(g, previous, data[offset..]) == AddBytes(g(data[offset..offset + BLOCK_SIZE]), previous) +
      Unchain(g, data[offset..offset + BLOCK_SIZE], data[offset + BLOCK_SIZE..])
  {
    hide AddBytes;
    assert data[offset..][..BLOCK_SIZE] == data[offset..offset + BLOCK_SIZE];
    assert data[offset..][BLOCK_SIZE..] == data[offset + BLOCK_SIZE..];
  }

  /** Block k of a whole number of blocks. */
  function BlockAt(data: seq<Byte>, k: nat): (b: seq<Byte>)
    requires 32 * k + 32 <= |data|
    ensures |b| == 32
  {
    data[32 * k..32 * k + 32]
  }

  lemma BlocksOfTail(head: seq<Byte>, tail: seq<Byte>, k: nat)
    requires |head| == 32 && 32 * k <= |tail|
    ensures BlockAt(head + tail, k) == if k == 0 then head else BlockAt(tail, k - 1)
  {}

  /**
   * Each ciphertext block is the image of the plaintext block added to the ciphertext block before, or to the vector.
   */
  lemma {:induction false} ChainAt(f: BlockMap, iv: seq<Byte>, data: seq<Byte>, k: nat)
    requires KeepsLength(f) && |iv| == BLOCK_SIZE && |data| % BLOCK_SIZE == 0 && 32 * k + 32 <= |data|
    ensures var c := Chain(f, iv, data);
      BlockAt(c, k) == f(AddBytes(BlockAt(data, k), if k == 0 then iv else BlockAt(c, k - 1)))
    decreases k
  {
    hide AddBytes, BlockAt;
    var block, rest := f(AddBytes(data[..32], iv)), data[32..];
    var tail := Chain(f, block, rest);
    assert data == data[..32] + rest && Chain(f, iv, data) == block + tail;
    hide Chain;
    BlocksOfTail(data[..32], rest, k);
    BlocksOfTail(block, tail, k);
    if k > 0 {
      ChainAt(f, block, rest, k - 1);
      BlocksOfTail(block, tail, k - 1);
    }
  }

  /**
   * Each plaintext block is the image of the ciphertext block added to the ciphertext block before, or to the vector.
   */
  lemma {:induction false} UnchainAt(g: BlockMap, iv: seq<Byte>, data: seq<Byte>, k: nat)
    requires KeepsLength(g) && |iv| == BLOCK_SIZE && |data| % BLOCK_SIZE == 0 && 32 * k + 32 <= |data|
    ensures BlockAt(Unchain(g, iv, data), k) ==
      AddBytes(g(BlockAt(data, k)), if k == 0 then iv else BlockAt(data, k - 1))
    decreases k
  {
    hide AddBytes, BlockAt;
    var block, rest := data[..32], data[32..];
    var head, tail := AddBytes(g(block), iv), Unchain(g, block, rest);
    assert data == block + rest && Unchain(g, iv, data) == head + tail;
    hide Unchain;
    BlocksOfTail(block, rest, k);
    BlocksOfTail(head, tail, k);
    if k > 0 {
      UnchainAt(g, block, rest, k - 1);
      BlocksOfTail(block, rest, k - 1);
    }
  }

  /** Byte strings with the same blocks are the same. */
  lemma SameBlocks(p: seq<Byte>, q: seq<Byte>)
    requires |p| == |q| && |p| % 32 == 0
    requires forall k: nat :: 32 * k + 32 <= |p| ==> BlockAt(p, k) == BlockAt(q, k)
    ensures p == q
  {
    forall i | 0 <= i < |p| ensures p[i] == q[i] {
      var k := i / 32;
      assert p[i] == BlockAt(p, k)[i % 32] && q[i] == BlockAt(q, k)[i % 32];
    }
  }

  lemma {:induction false} UnchainOfChain(f: BlockMap, g: BlockMap, previous: seq<Byte>, data: seq<Byte>)
    requires KeepsLength(f) && KeepsLength(g) && Inverses(f, g)
    requires |previous| == BLOCK_SIZE && |data| % BLOCK_SIZE == 0
    ensures Unchain(g, previous, Chain(f, previous, data)) == data
    decreases |data|
  {
    hide AddBytes;
    if |data| > 0 {
      var mixed := AddBytes(data[..BLOCK_SIZE], previous);
      var block := f(mixed);
      var rest := Chain(f, block, data[BLOCK_SIZE..]);
      UnchainOfChain(f, g, block, data[BLOCK_SIZE..]);
      AddBytesCancels(data[..BLOCK_SIZE], previous);
      assert (block + rest)[..BLOCK_SIZE] == block && (block + rest)[BLOCK_SIZE..] == rest;
      assert data == data[..BLOCK_SIZE] + data[BLOCK_SIZE..];
    }
  }

  lemma {:induction false} ChainOfUnchain(f: BlockMap, g: BlockMap, previous: seq<Byte>, data: seq<Byte>)
    requires KeepsLength(f) && KeepsLength(g) && Inverses(f, g)
    requires |previous| == BLOCK_SIZE && |data| % BLOCK_SIZE == 0
    ensures Chain(f, previous, Unchain(g, previous, data)) == data
    decreases |data|
  {
    hide AddBytes;
    if |data| > 0 {
      var block := data[..BLOCK_SIZE];
      var head := AddBytes(g(block), previous);
      var rest := Unchain(g, block, data[BLOCK_SIZE..]);
      ChainOfUnchain(f, g, block, data[BLOCK_SIZE..]);
      AddBytesCancels(g(block), previous);
      assert (head + rest)[..BLOCK_SIZE] == head && (head + rest)[BLOCK_SIZE..] == rest;
      assert data == data[..BLOCK_SIZE] + data[BLOCK_SIZE..];
    }
  }

  ghost function Encryption(f: BlockMap, iv: seq<Byte>, plaintext: seq<Byte>): seq<Byte>
    requires KeepsLength(f) && |iv| == BLOCK_SIZE
  {
    Chain(f, iv, Pad(plaintext))
  }

  ghost function Decryption(g: BlockMap, iv: seq<Byte>, ciphertext: seq<Byte>): Result<seq<Byte>>
    requires KeepsLength(g) && |iv| == BLOCK_SIZE
  {
    if |ciphertext| == 0 || |ciphertext| % BLOCK_SIZE != 0 then ValueError
    else Unpad(Unchain(g, iv, ciphertext))
  }

  lemma ModeRoundTrip(f: BlockMap, g: BlockMap, iv: seq<Byte>, plaintext: seq<Byte>)
    requires KeepsLength(f) && KeepsLength(g) && Inverses(f, g) && |iv| == BLOCK_SIZE
    ensures Decryption(g, iv, Encryption(f, iv, plaintext)) == Ok(plaintext)
  {
    hide Pad, Unpad, Chain, Unchain, Inverse;
    UnchainOfChain(f, g, iv, Pad(plaintext));
    UnpadOfPad(plaintext);
  }

  lemma ModeAccepts(f: BlockMap, g: BlockMap, iv: seq<Byte>, ciphertext: seq<Byte>)
    requires KeepsLength(f) && KeepsLength(g) && Inverses(f, g) && |iv| == BLOCK_SIZE
    requires Decryption(g, iv, ciphertext).Ok?
    ensures Encryption(f, iv, Decryption(g, iv, ciphertext).value) == ciphertext
  {
    hide Pad, Unpad, Chain, Unchain, Inverse;
    ChainOfUnchain(f, g, iv, ciphertext);
    PadOfUnpad(Unchain(g, iv, ciphertext));
  }

  /** A ciphertext is accepted exactly when it is the encryption of something, and then of its decryption. */
  ghost predicate AcceptsExactlyEncryptions(f: BlockMap, g: BlockMap, iv: seq<Byte>, ciphertext: seq<Byte>)
    requires KeepsLength(f) && KeepsLength(g) && |iv| == BLOCK_SIZE
  {
    var r := Decryption(g, iv, ciphertext);
    (r.Ok? ==> Encryption(f, iv, r.value) == ciphertext) &&
    (r.Ok? <==> exists p :: Encryption(f, iv, p) == ciphertext)
  }

  lemma ModeAcceptsExactly(f: BlockMap, g: BlockMap, iv: seq<Byte>, ciphertext: seq<Byte>)
    requires KeepsLength(f) && KeepsLength(g) && Inverses(f, g) && |iv| == BLOCK_SIZE
    ensures AcceptsExactlyEncryptions(f, g, iv, ciphertext)
  {
    hide Decryption, Encryption, Inverses, KeepsLength;
    var r := Decryption(g, iv, ciphertext);
    if r.Ok? { ModeAccepts(f, g, iv, ciphertext); }
    forall p | Encryption(f, iv, p) == ciphertext ensures r.Ok? { ModeRoundTrip(f, g, iv, p); }
  }
}
