/** What a decrypting read vouches for (`crypto/repository.py`): it answers only with bytes that were sealed
    at the very place they are read from, under the key of a header that authenticates, and it fails at
    the first chunk that was not. */
module Authenticity {
  import opened Arith
  import opened Bytes
  import opened Cipher
  import opened Header
  import opened EncryptedStream
  import opened UploadParts
  import opened DecryptingRepository

  /** Plaintexts sealed one after the other, each as one chunk, from chunk `index` on. */
  function Blobs(c: ChunkCipher, ps: seq<bytes>, index: nat): bytes
    requires |c.salt| >= 4 && (ps == [] || index + |ps| <= INDEX_LIMIT)
  {
    if |ps| == 0 then [] else c.Encrypt(ps[0], index) + Blobs(c, ps[1..], index + 1)
  }

  /** Every chunk but the last is a whole one. */
  ghost predicate Whole(c: ChunkCipher, ps: seq<bytes>) {
    forall i :: 0 <= i < |ps| - 1 ==> |ps[i]| == c.chunkSize
  }

  lemma BlobsCons(c: ChunkCipher, p: bytes, ps: seq<bytes>, index: nat)
    requires |c.salt| >= 4 && index + 1 + |ps| <= INDEX_LIMIT
    ensures Blobs(c, [p] + ps, index) == c.Encrypt(p, index) + Blobs(c, ps, index + 1)
  {
    assert ([p] + ps)[1..] == ps;
  }

  lemma BlobsOne(c: ChunkCipher, p: bytes, index: nat)
    requires |c.salt| >= 4 && index < INDEX_LIMIT
    ensures Blobs(c, [p], index) == c.Encrypt(p, index)
    ensures Flatten([p]) == p
  {
    BlobsCons(c, p, [], index);
    assert [p] + [] == [p];
    FlattenCons(p, []);
  }

  // -- one slice of ciphertext ------------------------------------------------------------------------

  /** The blob the stream opens next, with `chunks` of them expected. */
  function NextBlob(c: ChunkCipher, data: bytes, chunks: nat): bytes {
    if chunks > 1 && |data| >= c.Stride() then data[..c.Stride()] else data
  }

  /** A window that begins in `p` and goes on in `w`. */
  lemma RangeAcross(p: bytes, w: bytes, head: nat, total: nat)
    requires head <= |p|
    ensures Trim(p, head, total) + Range(w, 0, total - |Trim(p, head, total)| - 1)
         == Range(p + w, head, head + total - 1)
  {
    var out := Trim(p, head, total);
    if total <= |p| - head {
      assert out == p[head..head + total] == (p + w)[head..head + total];
    } else {
      var hi := Min(|p + w|, head + total);
      assert out == p[head..];
      assert (p + w)[head..hi] == p[head..] + w[..hi - |p|];
    }
  }

  lemma TrimIsRange(p: bytes, head: nat, total: nat)
    ensures Trim(p, head, total) == Range(p, head, head + total - 1)
  {
  }

  /** The ciphertext begins with the chunks `ps`, sealed from chunk `index` on, and `rest` follows. */
  ghost predicate Begins(c: ChunkCipher, data: bytes, index: nat, chunks: nat, ps: seq<bytes>, rest: bytes)
    requires |c.salt| >= 4
  {
    && |ps| <= chunks && (ps == [] || index + |ps| <= INDEX_LIMIT) && Whole(c, ps)
    && (|ps| < chunks ==> forall i :: 0 <= i < |ps| ==> |ps[i]| <= c.chunkSize)
    && data == Blobs(c, ps, index) + rest
  }

  /** No plaintext has this sealing at this place. */
  ghost predicate Unsealed(c: ChunkCipher, blob: bytes, index: nat)
    requires |c.salt| >= 4
  {
    index < INDEX_LIMIT ==> forall p :: blob != c.Encrypt(p, index)
  }

  /** How the stream ends, having opened `ps`. */
  ghost predicate Ends(c: ChunkCipher, r: Result<bytes>, window: bytes, index: nat, chunks: nat, total: nat,
                       ps: seq<bytes>, rest: bytes)
    requires |c.salt| >= 4
  {
    if r.Ok? then
      r.value == window && (rest == [] || |window| == total) && (|ps| == chunks ==> rest == [])
    else
      && |ps| < chunks && rest != [] && |window| < total && (forall i :: 0 <= i < |ps| ==> |ps[i]| == c.chunkSize)
      && Unsealed(c, NextBlob(c, rest, chunks - |ps|), index + |ps|)
  }

  /** What the decrypting stream gives for any ciphertext at all: the stretch asked for of the plaintexts sealed
      at the front of it, chunk by chunk at their own indexes. It ends well only when all of the
      ciphertext is accounted for or everything asked for was found, and fails only at a blob that is no
      sealing of anything at its place, with what came before it yielded. */
  lemma {:induction false} Opened(c: ChunkCipher, data: bytes, index: nat, chunks: nat, head: nat, total: nat)
    returns (ps: seq<bytes>, rest: bytes)
    requires c.Valid() && chunks > 0 && head <= c.chunkSize
    ensures Begins(c, data, index, chunks, ps, rest)
    ensures DecryptUpTo(c, data, index, chunks, head, total) == Range(Flatten(ps), head, head + total - 1)
    ensures Ends(c, DecryptAll(c, data, index, chunks, head, total), Range(Flatten(ps), head, head + total - 1), index,
                 chunks, total, ps, rest)
    decreases |data|
  {
    hide ChunkCipher.Decrypt, ChunkCipher.Encrypt, Trim, Range, Flatten;
    ps, rest := [], data;
    NoneOpened(head, total);
    assert Blobs(c, [], index) + data == data;
    if total > 0 && data != [] {
      var blob := NextBlob(c, data, chunks);
      var plain := c.Decrypt(blob, index);
      if plain.Err? {
        NothingSealed(c, blob, index);
      } else if chunks > 1 && |data| >= c.Stride() {
        ps, rest := OpenedMore(c, data, index, chunks, head, total, plain.value);
      } else {
        ps, rest := [plain.value], [];
        OpenedLast(c, data, index, plain.value);
        TrimIsRange(plain.value, head, total);
      }
    }
  }

  /** A whole chunk was opened, with more to come. */
  lemma {:induction false} OpenedMore(c: ChunkCipher, data: bytes, index: nat, chunks: nat, head: nat, total: nat,
                                      p: bytes)
    returns (ps: seq<bytes>, rest: bytes)
    requires c.Valid() && head <= c.chunkSize && total > 0 && chunks > 1 && |data| >= c.Stride()
    requires c.Decrypt(data[..c.Stride()], index) == Ok(p)
    ensures Begins(c, data, index, chunks, ps, rest)
    ensures DecryptUpTo(c, data, index, chunks, head, total) == Range(Flatten(ps), head, head + total - 1)
    ensures Ends(c, DecryptAll(c, data, index, chunks, head, total), Range(Flatten(ps), head, head + total - 1), index,
                 chunks, total, ps, rest)
    decreases |data|, 0
  {
    hide ChunkCipher.Decrypt, ChunkCipher.Encrypt, Trim, Range, Flatten, Blobs;
    var more, tail := data[c.Stride()..], Trim(p, head, total);
    TrimBound(p, head, total);
    IndexInRange(c, data[..c.Stride()], index);
    DecryptIffEncrypt(c, data[..c.Stride()], index, p);
    var qs;
    qs, rest := Opened(c, more, index + 1, chunks - 1, 0, total - |tail|);
    ps := [p] + qs;
    BlobsCons(c, p, qs, index);
    FlattenCons(p, qs);
    RangeAcross(p, Flatten(qs), head, total);
    SplitAt(data, c.Stride(), data[..c.Stride()], more);
    Associate(c.Encrypt(p, index), Blobs(c, qs, index + 1), rest);
  }

  lemma OpenedLast(c: ChunkCipher, data: bytes, index: nat, p: bytes)
    requires c.Valid() && c.Decrypt(data, index) == Ok(p)
    ensures index < INDEX_LIMIT && data == Blobs(c, [p], index) + [] && Flatten([p]) == p
    ensures |data| == |p| + CHUNK_OVERHEAD
  {
    IndexInRange(c, data, index);
    DecryptIffEncrypt(c, data, index, p);
    BlobsOne(c, p, index);
  }

  lemma NoneOpened(head: nat, total: nat)
    ensures Range(Flatten<byte>([]), head, head + total - 1) == []
  {
  }

  lemma IndexInRange(c: ChunkCipher, blob: bytes, index: nat)
    requires |c.salt| >= 4 && c.Decrypt(blob, index).Ok?
    ensures index < INDEX_LIMIT
  {
  }

  lemma NothingSealed(c: ChunkCipher, blob: bytes, index: nat)
    requires c.Valid() && c.Decrypt(blob, index).Err?
    ensures Unsealed(c, blob, index)
  {
    if index < INDEX_LIMIT {
      forall p: bytes
        ensures blob != c.Encrypt(p, index)
      {
        DecryptIffEncrypt(c, blob, index, p);
      }
    }
  }

  /** What was sealed chunk by chunk opens, whatever stretch of it is asked for. */
  lemma {:induction false} BlobsOpen(c: ChunkCipher, ps: seq<bytes>, index: nat, head: nat, total: nat)
    requires c.Valid() && |ps| > 0 && index + |ps| <= INDEX_LIMIT && Whole(c, ps)
    ensures DecryptAll(c, Blobs(c, ps, index), index, |ps|, head, total).Ok?
    decreases |ps|
  {
    hide ChunkCipher.Decrypt, ChunkCipher.Encrypt, Trim, Flatten;
    var p, qs := ps[0], ps[1..];
    var blob, more := c.Encrypt(p, index), Blobs(c, qs, index + 1);
    var data := blob + more;
    DecryptIffEncrypt(c, blob, index, p);
    if qs == [] {
      assert data == blob;
    } else {
      assert data[..c.Stride()] == blob && data[c.Stride()..] == more;
      TrimBound(p, head, total);
      BlobsOpen(c, qs, index + 1, 0, total - |Trim(p, head, total)|);
    }
  }

  // -- sizes --------------------------------------------------------------------------------------------

  lemma {:induction false} BlobsLength(c: ChunkCipher, ps: seq<bytes>, index: nat)
    requires c.Valid() && (ps == [] || index + |ps| <= INDEX_LIMIT)
    ensures |Blobs(c, ps, index)| == |Flatten(ps)| + Mul(|ps|, CHUNK_OVERHEAD)
    decreases |ps|
  {
    if |ps| > 0 {
      hide Flatten;
      assert ps == [ps[0]] + ps[1..];
      FlattenCons(ps[0], ps[1..]);
      BlobsLength(c, ps[1..], index + 1);
      DecryptIffEncrypt(c, c.Encrypt(ps[0], index), index, ps[0]);
    } else {
      FlattenNone<byte>();
    }
  }

  lemma {:induction false} ChunksHold(c: ChunkCipher, ps: seq<bytes>)
    requires forall i :: 0 <= i < |ps| ==> |ps[i]| <= c.chunkSize
    ensures |Flatten(ps)| <= Mul(|ps|, c.chunkSize)
  {
    if |ps| > 0 {
      ChunksHold(c, ps[..|ps| - 1]);
    }
  }

  /** A stretch of `n` bytes that needs all `k` chunks of the slice is found only in `k` chunks that fill it. */
  lemma AllChunks(c: ChunkCipher, data: bytes, index: nat, k: nat, ps: seq<bytes>, rest: bytes, head: nat, n: nat)
    requires c.Valid() && k > 0 && Begins(c, data, index, k, ps, rest)
    requires Mul(k - 1, c.chunkSize) < head + n <= |data| - Mul(k, CHUNK_OVERHEAD)
    requires rest == [] || head + n <= |Flatten(ps)|
    requires |ps| == k ==> rest == []
    ensures |ps| == k && rest == [] && data == Blobs(c, ps, index) && head + n <= |Flatten(ps)|
  {
    hide Flatten, Blobs;
    BlobsLength(c, ps, index);
    if |ps| < k {
      ChunksHold(c, ps);
      MulMono(|ps|, k - 1, c.chunkSize);
      MulMono(|ps|, k, CHUNK_OVERHEAD);
    }
    assert Blobs(c, ps, index) + [] == Blobs(c, ps, index);
  }

  /** The slice of ciphertext a read takes. */
  function SliceFor(c: ChunkCipher, stored: bytes, begin: nat, last: nat): bytes
    requires c.chunkSize > 0 && begin <= last
  {
    var slice := CipherSlice(begin, last, c.chunkSize, |stored|);
    Range(stored, slice.0, slice.1)
  }

  /** That slice has room for exactly the chunks of `[begin, last]`. */
  lemma SliceRoom(c: ChunkCipher, stored: bytes, begin: nat, last: nat, total: nat)
    requires c.Valid() && PlaintextSize(|stored|, c.chunkSize) == Ok(total) && begin <= last < total
    ensures var k, head := ChunkCount(begin, last, c.chunkSize), begin % c.chunkSize;
      Mul(k - 1, c.chunkSize) < head + (last - begin + 1) <= |SliceFor(c, stored, begin, last)| - Mul(k, CHUNK_OVERHEAD)
  {
    hide Mul, CipherSlice, Range, RangeUpTo, PlaintextSize, ChunkCount;
    var size := c.chunkSize;
    var s, k := begin / size, ChunkCount(begin, last, size);
    var from := Mul(s, c.Stride());
    CipherSliceIsRange(c, stored, begin, last);
    RangeUpToLength(stored, HEADER_SIZE + from, Mul(k, c.Stride()));
    StoredLayout(|stored|, size, total);
    ChunkOfLast(begin, last, size);
    SliceFits(size, s, k, |stored| - HEADER_SIZE, last, total);
    MulAdd(s, k, c.Stride());
    MulAdd(s, k, CHUNK_OVERHEAD);
    MulAddRight(s, size, CHUNK_OVERHEAD);
  }

  lemma RangeUpToLength(s: bytes, begin: nat, n: nat)
    ensures |RangeUpTo(s, begin, n)| == Max(0, Min(begin + n, |s|) - begin)
  {
  }

  lemma ChunkOfLast(begin: nat, last: nat, size: nat)
    requires size > 0 && begin <= last
    ensures var s, k := begin / size, ChunkCount(begin, last, size);
      && begin == Mul(s, size) + begin % size
      && Mul(k - 1, size) < begin % size + (last - begin + 1) && Mul(s + k - 1, size) <= last < Mul(s + k, size)
  {
    var s, k := begin / size, ChunkCount(begin, last, size);
    DivMod(begin, size);
    DivMod(last, size);
    MulAdd(s, k - 1, size);
    assert Mul(s + k, size) == size + Mul(s + k - 1, size);
  }

  lemma StoredLayout(stored: nat, size: nat, total: nat)
    requires size > 0 && PlaintextSize(stored, size) == Ok(total) && total > 0
    ensures var payload, stride := stored - HEADER_SIZE, size + CHUNK_OVERHEAD;
      && payload > 0
      && total == Mul(payload / stride, size) + Max(0, payload % stride - CHUNK_OVERHEAD)
      && payload == Mul(payload / stride, size) + Mul(payload / stride, CHUNK_OVERHEAD) + payload % stride
  {
    var payload, stride := stored - HEADER_SIZE, size + CHUNK_OVERHEAD;
    MulIsProduct(payload / stride, size);
    DivMod(payload, stride);
    MulAddRight(payload / stride, size, CHUNK_OVERHEAD);
  }

  lemma SliceFits(size: nat, s: nat, k: nat, payload: nat, last: nat, total: nat)
    requires size > 0 && k > 0 && last < total
    requires var stride := size + CHUNK_OVERHEAD;
      && total == Mul(payload / stride, size) + Max(0, payload % stride - CHUNK_OVERHEAD)
      && payload == Mul(payload / stride, size) + Mul(payload / stride, CHUNK_OVERHEAD) + payload % stride
    requires Mul(s + k - 1, size) <= last < Mul(s + k, size)
    ensures last + 1 + Mul(s + k, CHUNK_OVERHEAD) <= Min(payload, Mul(s + k, size + CHUNK_OVERHEAD))
  {
    var full, e := payload / (size + CHUNK_OVERHEAD), s + k;
    MulAddRight(e, size, CHUNK_OVERHEAD);
    if e <= full {
      MulMono(e, full, size);
      MulMono(e, full, CHUNK_OVERHEAD);
    } else {
      MulMono(full, e - 1, size);
      if e > full + 1 {
        MulMono(full + 1, e - 1, size);
      }
    }
  }

  // -- a whole read -------------------------------------------------------------------------------------

  /** The slice of ciphertext for `[begin, last]` is the chunks `ps`, sealed at their own places. */
  ghost predicate Sealed(c: ChunkCipher, stored: bytes, begin: nat, last: nat, ps: seq<bytes>)
    requires |c.salt| >= 4 && c.chunkSize > 0 && begin <= last
  {
    && |ps| == ChunkCount(begin, last, c.chunkSize) && begin / c.chunkSize + |ps| <= INDEX_LIMIT && Whole(c, ps)
    && SliceFor(c, stored, begin, last) == Blobs(c, ps, begin / c.chunkSize)
  }

  /** A range is read if and only if every chunk it touches was sealed at its place, and what is read are then
      exactly the bytes asked for of what was sealed there. */
  lemma ReadChunksIff(c: ChunkCipher, stored: bytes, begin: nat, last: nat, total: nat) returns (ps: seq<bytes>)
    requires c.Valid() && PlaintextSize(|stored|, c.chunkSize) == Ok(total) && begin <= last < total
    ensures ReadChunks(c, stored, begin, last).Ok? <==> exists qs :: Sealed(c, stored, begin, last, qs)
    ensures ReadChunks(c, stored, begin, last).Ok? ==>
              var head, n := begin % c.chunkSize, last - begin + 1;
              && Sealed(c, stored, begin, last, ps) && head + n <= |Flatten(ps)|
              && ReadChunks(c, stored, begin, last).value == Flatten(ps)[head..head + n]
  {
    hide Mul, CipherSlice, Range, PlaintextSize, ChunkCount, DecryptAll, DecryptUpTo, Flatten, Blobs, Ends;
    var s, k := begin / c.chunkSize, ChunkCount(begin, last, c.chunkSize);
    var head, n, data := begin % c.chunkSize, last - begin + 1, SliceFor(c, stored, begin, last);
    SliceRoom(c, stored, begin, last, total);
    var rest;
    ps, rest := Opened(c, data, s, k, head, n);
    if ReadChunks(c, stored, begin, last).Ok? {
      WellEnded(c, DecryptAll(c, data, s, k, head, n), Range(Flatten(ps), head, head + n - 1), s, k, n, ps, rest);
      WindowLength(Flatten(ps), head, n);
      AllChunks(c, data, s, k, ps, rest, head, n);
      assert Sealed(c, stored, begin, last, ps);
    } else if qs :| Sealed(c, stored, begin, last, qs) {
      BlobsOpen(c, qs, s, head, n);
    }
  }

  lemma WellEnded(c: ChunkCipher, r: Result<bytes>, window: bytes, index: nat, chunks: nat, total: nat, ps: seq<bytes>,
                  rest: bytes)
    requires |c.salt| >= 4 && Ends(c, r, window, index, chunks, total, ps, rest) && r.Ok?
    ensures r.value == window && (rest == [] || |window| == total) && (|ps| == chunks ==> rest == [])
  {
  }

  lemma WindowLength(w: bytes, head: nat, n: nat)
    requires n > 0
    ensures |Range(w, head, head + n - 1)| == n <==> head + n <= |w|
    ensures head + n <= |w| ==> Range(w, head, head + n - 1) == w[head..head + n]
  {
  }

  /** A file is taken for an encrypted one if and only if it begins with a header of this key: byte for byte what
      would be written for the fields it shows. */
  lemma DetectedIff(suite: Suite, stored: bytes, h: FileHeader, key: bytes)
    requires suite.Lawful()
    ensures Detect(suite, Take(stored, HEADER_SIZE)) == Ok(Encrypted(h, key))
       <==> && Accepted(h) && key == suite.derive(h.salt)
            && |stored| >= HEADER_SIZE && stored[..HEADER_SIZE] == Serialize(suite, h, key)
  {
    hide Serialize, Verify;
    var probe := Take(stored, HEADER_SIZE);
    if |stored| >= HEADER_SIZE {
      assert probe == stored[..HEADER_SIZE] == probe[..HEADER_SIZE];
      if Parse(probe).Ok? {
        VerifiedIffSerialized(suite, probe, Parse(probe).value, suite.derive(Parse(probe).value.salt));
      }
      if Accepted(h) && probe == Serialize(suite, h, key) {
        ParseSerialize(suite, h, key);
        MagicFirst(suite, h, key);
      }
    }
  }

  lemma MagicFirst(suite: Suite, h: FileHeader, key: bytes)
    requires h.Packable()
    ensures |Serialize(suite, h, key)| >= 4 && Serialize(suite, h, key)[..4] == MAGIC
  {
    var raw := Serialize(suite, h, key);
    assert raw[..BODY_SIZE] == Body(h);
    BodyFields(h, raw);
  }

  /** An encrypted file, whatever has become of its bytes, is read only where it is authentic: the header is this
      key's, every chunk the range touches was sealed at its place, and the answer is exactly the stretch
      asked for of what was sealed, no byte short. */
  lemma ReadIsAuthentic(suite: Suite, stored: bytes, begin: nat, end: int) returns (h: FileHeader, ps: seq<bytes>)
    requires suite.Lawful() && |stored| >= 4 && stored[..4] == MAGIC && Read(suite, stored, begin, end).Ok?
    ensures Accepted(h) && |stored| >= HEADER_SIZE
    ensures stored[..HEADER_SIZE] == Serialize(suite, h, suite.derive(h.salt))
    ensures PlaintextSize(|stored|, h.chunkSize).Ok?
    ensures var total, b := PlaintextSize(|stored|, h.chunkSize).value, Read(suite, stored, begin, end).value;
      var last := if end < 0 || end >= total then total - 1 else end;
      if begin > last then b == []
      else
        && Sealed(CipherFor(suite, h), stored, begin, last, ps) && |b| == last - begin + 1
        && begin % h.chunkSize + |b| <= |Flatten(ps)|
        && b == Flatten(ps)[begin % h.chunkSize..begin % h.chunkSize + |b|]
  {
    hide Parse, Verify, Serialize, PlaintextSize, ReadChunks, Sealed, Flatten;
    LegacyIffNoMagic(suite, stored);
    var detected := Detect(suite, Take(stored, HEADER_SIZE)).value;
    h, ps := detected.header, [];
    DetectedIff(suite, stored, h, detected.key);
    var total := PlaintextSize(|stored|, h.chunkSize).value;
    var last := if end < 0 || end >= total then total - 1 else end;
    if begin <= last {
      ps := ReadChunksIff(CipherFor(suite, h), stored, begin, last, total);
    }
  }
}
