/** `tgdcfs/crypto/cipher.py`: chunked AES-256-GCM, nonces, sizes and offsets. */
module Cipher {
  import opened Bytes
  import opened Arith

  const NONCE_SIZE: nat := 12
  const TAG_SIZE: nat := 16
  const CHUNK_OVERHEAD: nat := 28
  const INDEX_LIMIT: nat := 0x1_0000_0000_0000_0000

  /** The cryptographic primitives, for one master key. `mac` is HMAC-SHA256 and
      `derive` the per-file key derivation from the salt. */
  datatype Suite = Suite(
    seal: (bytes, bytes, bytes) -> bytes,
    open: (bytes, bytes, bytes) -> Option<bytes>,
    mac: (bytes, bytes) -> bytes,
    derive: bytes -> bytes)
  {
    /** What deterministic AEAD guarantees: opening inverts sealing, nothing else opens,
        and the ciphertext is the plaintext's length plus one tag. */
    ghost predicate Lawful() {
      && (forall k, n, p :: |seal(k, n, p)| == |p| + TAG_SIZE)
      && (forall k, n, c, p :: open(k, n, c) == Some(p) <==> c == seal(k, n, p))
      && (forall k, b :: |mac(k, b)| == 32)
    }
  }

  /** The laws can be met: a suite that only appends a tag meets them. */
  lemma SomeSuiteIsLawful() returns (suite: Suite)
    ensures suite.Lawful()
  {
    var tag: bytes := seq(TAG_SIZE, _ => 0);
    suite := Suite(
      (_, _, p) => p + tag,
      (_, _, c) => if |c| >= TAG_SIZE && c[|c| - TAG_SIZE..] == tag then Some(c[..|c| - TAG_SIZE]) else None,
      (_, _) => seq(32, _ => 0),
      salt => salt);
    forall k, n, c: bytes, p
      ensures suite.open(k, n, c) == Some(p) <==> c == suite.seal(k, n, p)
    {
      if suite.open(k, n, c) == Some(p) {
        assert c == c[..|c| - TAG_SIZE] + c[|c| - TAG_SIZE..];
      }
      if c == p + tag {
        assert c[..|c| - TAG_SIZE] == p && c[|c| - TAG_SIZE..] == tag;
      }
    }
  }

  // Big-endian integers (struct.pack ">H", ">I", ">Q").

  function Pow256(width: nat): (r: nat)
    ensures r > 0
  {
    if width == 0 then 1 else 256 * Pow256(width - 1)
  }

  function ToBE(v: nat, width: nat): (r: bytes)
    requires v < Pow256(width)
    ensures |r| == width
  {
    if width == 0 then [] else ToBE(v / 256, width - 1) + [(v % 256) as byte]
  }

  function FromBE(s: bytes): (v: nat)
    ensures v < Pow256(|s|)
  {
    if |s| == 0 then 0 else FromBE(s[..|s| - 1]) * 256 + s[|s| - 1] as nat
  }

  lemma {:induction false} FromToBE(v: nat, width: nat)
    requires v < Pow256(width)
    ensures FromBE(ToBE(v, width)) == v
  {
    if width > 0 {
      FromToBE(v / 256, width - 1);
      var r := ToBE(v, width);
      assert r[..|r| - 1] == ToBE(v / 256, width - 1);
    }
  }

  lemma {:induction false} ToFromBE(s: bytes)
    ensures ToBE(FromBE(s), |s|) == s
  {
    if |s| > 0 {
      ToFromBE(s[..|s| - 1]);
      assert FromBE(s) / 256 == FromBE(s[..|s| - 1]);
      assert s == s[..|s| - 1] + [s[|s| - 1]];
    }
  }

  lemma Pow256At8()
    ensures Pow256(2) == 0x1_0000 && Pow256(4) == 0x1_0000_0000 && Pow256(8) == INDEX_LIMIT
  {
    assert Pow256(1) == 256;
    assert Pow256(2) == 0x1_0000;
    assert Pow256(3) == 0x100_0000;
    assert Pow256(4) == 0x1_0000_0000;
    assert Pow256(5) == 0x100_0000_0000;
    assert Pow256(6) == 0x1_0000_0000_0000;
    assert Pow256(7) == 0x100_0000_0000_0000;
  }

  /** One file's cipher: key, salt and plaintext bytes per chunk. */
  datatype ChunkCipher = ChunkCipher(suite: Suite, key: bytes, salt: bytes, chunkSize: nat) {

    ghost predicate Valid() {
      suite.Lawful() && |salt| >= 4 && chunkSize > 0
    }

    function Stride(): nat { chunkSize + CHUNK_OVERHEAD }

    function Nonce(index: nat): (r: bytes)
      requires |salt| >= 4 && index < INDEX_LIMIT
      ensures |r| == NONCE_SIZE
    {
      Pow256At8();
      salt[..4] + ToBE(index, 8)
    }

    /** `encrypt_chunk` once its two argument checks have passed. */
    function Encrypt(plaintext: bytes, index: nat): bytes
      requires |salt| >= 4 && index < INDEX_LIMIT
    {
      Nonce(index) + suite.seal(key, Nonce(index), plaintext)
    }

    function Decrypt(blob: bytes, index: nat): Result<bytes>
      requires |salt| >= 4
    {
      if |blob| < CHUNK_OVERHEAD || index >= INDEX_LIMIT then Err
      else if blob[..NONCE_SIZE] != Nonce(index) then Err
      else match suite.open(key, blob[..NONCE_SIZE], blob[NONCE_SIZE..])
        case Some(p) => Ok(p)
        case None => Err
    }
  }

  /** Decryption accepts exactly the blobs encryption produces at that index, and
      returns exactly their plaintext. */
  lemma DecryptIffEncrypt(c: ChunkCipher, blob: bytes, index: nat, p: bytes)
    requires c.Valid() && index < INDEX_LIMIT
    ensures c.Decrypt(blob, index) == Ok(p) <==> blob == c.Encrypt(p, index)
    ensures |c.Encrypt(p, index)| == |p| + CHUNK_OVERHEAD
  {
    var e := c.Encrypt(p, index);
    assert e[..NONCE_SIZE] == c.Nonce(index) && e[NONCE_SIZE..] == c.suite.seal(c.key, c.Nonce(index), p);
    if c.Decrypt(blob, index) == Ok(p) {
      assert c.suite.open(c.key, c.Nonce(index), blob[NONCE_SIZE..]) == Some(p);
      assert blob == blob[..NONCE_SIZE] + blob[NONCE_SIZE..];
    }
    if blob == e {
      assert c.suite.open(c.key, c.Nonce(index), e[NONCE_SIZE..]) == Some(p);
    }
  }

  /** Nonces never repeat within a file. */
  lemma NonceInjective(c: ChunkCipher, i: nat, j: nat)
    requires c.Valid() && i < INDEX_LIMIT && j < INDEX_LIMIT
    ensures c.Nonce(i) == c.Nonce(j) ==> i == j
  {
    Pow256At8();
    FromToBE(i, 8);
    FromToBE(j, 8);
    assert c.Nonce(i)[4..] == ToBE(i, 8) && c.Nonce(j)[4..] == ToBE(j, 8);
  }

  /** A chunk moved to another position is rejected, whatever it contains. */
  lemma ReorderedChunkRejected(c: ChunkCipher, p: bytes, i: nat, j: nat)
    requires c.Valid() && i < INDEX_LIMIT && i != j
    ensures c.Decrypt(c.Encrypt(p, i), j) == Err
  {
    if j < INDEX_LIMIT {
      NonceInjective(c, i, j);
      assert c.Encrypt(p, i)[..NONCE_SIZE] == c.Nonce(i);
    }
  }

  // Sizes and offsets.

  function CiphertextSize(plaintextSize: nat, chunkSize: nat): nat
    requires chunkSize > 0
  {
    if plaintextSize == 0 then 0
    else
      var chunks := plaintextSize / chunkSize + (if plaintextSize % chunkSize != 0 then 1 else 0);
      plaintextSize + chunks * CHUNK_OVERHEAD
  }

  /** The chunks of a plaintext, sealed one after the other from chunk `index` on. */
  function EncryptFrom(c: ChunkCipher, p: bytes, index: nat): bytes
    requires |c.salt| >= 4 && c.chunkSize > 0 && index + |p| <= INDEX_LIMIT
    decreases |p|
  {
    if |p| == 0 then []
    else
      var k := Min(c.chunkSize, |p|);
      c.Encrypt(p[..k], index) + EncryptFrom(c, p[k..], index + 1)
  }

  /** One full chunk adds one stride. */
  lemma CiphertextSizeStep(n: nat, c: nat)
    requires c > 0 && n >= c
    ensures CiphertextSize(n, c) == c + CHUNK_OVERHEAD + CiphertextSize(n - c, c)
  {
    DivMod(n - c, c);
    DivModUnique(n, c, (n - c) / c + 1, (n - c) % c);
  }

  lemma CiphertextSizeShort(n: nat, c: nat)
    requires 0 < n <= c
    ensures CiphertextSize(n, c) == n + CHUNK_OVERHEAD
  {
    if n < c {
      DivModUnique(n, c, 0, n);
    } else {
      DivModUnique(n, c, 1, 0);
    }
  }

  /** The declared size is the number of bytes the chunks occupy. */
  lemma {:induction false} EncryptFromLength(c: ChunkCipher, p: bytes, index: nat)
    requires c.Valid() && index + |p| <= INDEX_LIMIT
    ensures |EncryptFrom(c, p, index)| == CiphertextSize(|p|, c.chunkSize)
    decreases |p|
  {
    if |p| > 0 {
      var k := Min(c.chunkSize, |p|);
      EncryptFromLength(c, p[k..], index + 1);
      if |p| <= c.chunkSize {
        CiphertextSizeShort(|p|, c.chunkSize);
      } else {
        CiphertextSizeStep(|p|, c.chunkSize);
      }
    }
  }

  /** The first stride of a longer ciphertext is the first chunk. */
  lemma EncryptFromSplit(c: ChunkCipher, p: bytes, index: nat)
    requires c.Valid() && index + |p| <= INDEX_LIMIT && |p| >= c.chunkSize
    ensures EncryptFrom(c, p, index)
         == c.Encrypt(p[..c.chunkSize], index) + EncryptFrom(c, p[c.chunkSize..], index + 1)
    ensures |c.Encrypt(p[..c.chunkSize], index)| == c.Stride()
  {
  }

  /** `j` whole chunks occupy `j` strides, and what follows them is sealed as if it stood
      alone from chunk `index + j` on. */
  lemma {:induction false} EncryptFromConcat(c: ChunkCipher, a: bytes, b: bytes, index: nat, j: nat)
    requires c.Valid() && index + |a| + |b| <= INDEX_LIMIT && |a| == Mul(j, c.chunkSize)
    ensures j <= |a| && |EncryptFrom(c, a, index)| == Mul(j, c.Stride())
    ensures EncryptFrom(c, a + b, index) == EncryptFrom(c, a, index) + EncryptFrom(c, b, index + j)
    decreases j
  {
    hide ChunkCipher.Encrypt;
    MulGe(j, c.chunkSize);
    if j == 0 {
      assert a + b == b;
    } else {
      EncryptFromConcat(c, a[c.chunkSize..], b, index + 1, j - 1);
      ConcatStep(c, a, b, index, EncryptFrom(c, b, index + j));
    }
  }

  lemma ConcatStep(c: ChunkCipher, a: bytes, b: bytes, index: nat, tail: bytes)
    requires c.Valid() && index + |a| + |b| <= INDEX_LIMIT && |a| >= c.chunkSize
    requires EncryptFrom(c, a[c.chunkSize..] + b, index + 1) == EncryptFrom(c, a[c.chunkSize..], index + 1) + tail
    ensures EncryptFrom(c, a + b, index) == EncryptFrom(c, a, index) + tail
    ensures |EncryptFrom(c, a, index)| == c.Stride() + |EncryptFrom(c, a[c.chunkSize..], index + 1)|
  {
    SplitConcat(a, b, c.chunkSize);
    EncryptFromSplit(c, a, index);
    EncryptFromSplit(c, a + b, index);
    Associate(c.Encrypt(a[..c.chunkSize], index), EncryptFrom(c, a[c.chunkSize..], index + 1), tail);
  }

  lemma SplitConcat(a: bytes, b: bytes, k: nat)
    requires k <= |a|
    ensures (a + b)[..k] == a[..k] && (a + b)[k..] == a[k..] + b
  {
  }
}
