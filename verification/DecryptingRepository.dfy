/** `tgdcfs/crypto/repository.py`: detection, range translation and the decrypting stream. */
module DecryptingRepository {
  import opened Arith
  import opened Bytes
  import opened Cipher
  import opened Header
  import opened EncryptedStream
  import opened UploadParts

  // Sizes.

  function PlaintextSize(ciphertextSize: nat, chunkSize: nat): Result<nat>
    requires chunkSize > 0
  {
    if ciphertextSize <= HEADER_SIZE then Ok(0)
    else
      var payload := ciphertextSize - HEADER_SIZE;
      var stride := chunkSize + CHUNK_OVERHEAD;
      var full, tail := payload / stride, payload % stride;
      if tail == 0 then Ok(full * chunkSize)
      else if tail < CHUNK_OVERHEAD then Err
      else Ok(full * chunkSize + (tail - CHUNK_OVERHEAD))
  }

  /** The stored size of `n` plaintext bytes is whole strides plus a tail that is empty or
      longer than the overhead. */
  lemma CiphertextSizeShape(n: nat, c: nat)
    requires c > 0
    ensures CiphertextSize(n, c) == Mul(n / c, c + CHUNK_OVERHEAD) + (if n % c == 0 then 0 else n % c + CHUNK_OVERHEAD)
  {
    DivMod(n, c);
    MulAddRight(n / c, c, CHUNK_OVERHEAD);
    MulIsProduct(n / c, CHUNK_OVERHEAD);
  }

  /** The size translation inverts the declared upload size. */
  lemma PlaintextSizeInverts(n: nat, c: nat)
    requires c > 0
    ensures PlaintextSize(HEADER_SIZE + CiphertextSize(n, c), c) == Ok(n)
  {
    CiphertextSizeShape(n, c);
    DivMod(n, c);
    MulIsProduct(n / c, c);
    var tail := if n % c == 0 then 0 else n % c + CHUNK_OVERHEAD;
    DivModUnique(CiphertextSize(n, c), c + CHUNK_OVERHEAD, n / c, tail);
  }

  lemma SizeAccepted(payload: nat, c: nat)
    requires c > 0
    ensures PlaintextSize(HEADER_SIZE + payload, c).Ok?
       <==> payload % (c + CHUNK_OVERHEAD) == 0 || payload % (c + CHUNK_OVERHEAD) >= CHUNK_OVERHEAD
  {
    if payload == 0 {
      DivModUnique(0, c + CHUNK_OVERHEAD, 0, 0);
    }
  }

  /** Exactly which stored sizes are the size of some encrypted file, and which the size translation accepts. A
      tail of exactly one overhead is not one of the former, although it is accepted. */
  lemma StoredSizeIffTail(payload: nat, c: nat)
    requires c > 0
    ensures PlaintextSize(HEADER_SIZE + payload, c).Ok?
       <==> payload % (c + CHUNK_OVERHEAD) == 0 || payload % (c + CHUNK_OVERHEAD) >= CHUNK_OVERHEAD
    ensures (exists n: nat :: CiphertextSize(n, c) == payload)
       <==> payload % (c + CHUNK_OVERHEAD) == 0 || payload % (c + CHUNK_OVERHEAD) > CHUNK_OVERHEAD
  {
    SizeAccepted(payload, c);
    hide PlaintextSize;
    var stride := c + CHUNK_OVERHEAD;
    forall n: nat | CiphertextSize(n, c) == payload
      ensures payload % stride == 0 || payload % stride > CHUNK_OVERHEAD
    {
      CiphertextSizeShape(n, c);
      DivModUnique(payload, stride, n / c, if n % c == 0 then 0 else n % c + CHUNK_OVERHEAD);
    }
    var q, t := payload / stride, payload % stride;
    if t == 0 || t > CHUNK_OVERHEAD {
      var r := if t == 0 then 0 else t - CHUNK_OVERHEAD;
      var n := Mul(q, c) + r;
      DivMod(payload, stride);
      DivModUnique(n, c, q, r);
      CiphertextSizeShape(n, c);
      assert CiphertextSize(n, c) == payload;
    }
  }

  // The decrypting stream.

  function Trim(p: bytes, head: nat, remaining: nat): bytes {
    Take(p[Min(head, |p|)..], remaining)
  }

  /** Decryption of the whole ciphertext slice at once, without buffers: at most `chunks`
      chunks from chunk `index` on, the first `head` bytes dropped and `total` kept. */
  function DecryptAll(c: ChunkCipher, data: bytes, index: nat, chunks: nat, head: nat, total: nat): Result<bytes>
    requires |c.salt| >= 4
    decreases |data|
  {
    if total == 0 || data == [] then Ok([])
    else if chunks > 1 && |data| >= c.Stride() then
      match c.Decrypt(data[..c.Stride()], index)
      case Err => Err
      case Ok(p) =>
        var out := Trim(p, head, total);
        After(out, DecryptAll(c, data[c.Stride()..], index + 1, chunks - 1, 0, total - |out|))
    else
      match c.Decrypt(data, index)
      case Err => Err
      case Ok(p) => Ok(Trim(p, head, total))
  }

  /** What has been yielded by the time the decryption ends or fails. */
  function DecryptUpTo(c: ChunkCipher, data: bytes, index: nat, chunks: nat, head: nat, total: nat): bytes
    requires |c.salt| >= 4
    decreases |data|
  {
    if total == 0 || data == [] then []
    else if chunks > 1 && |data| >= c.Stride() then
      match c.Decrypt(data[..c.Stride()], index)
      case Err => []
      case Ok(p) =>
        var out := Trim(p, head, total);
        out + DecryptUpTo(c, data[c.Stride()..], index + 1, chunks - 1, 0, total - |out|)
    else
      match c.Decrypt(data, index)
      case Err => []
      case Ok(p) => Trim(p, head, total)
  }

  function After(out: bytes, r: Result<bytes>): Result<bytes> {
    match r
    case Err => Err
    case Ok(rest) => Ok(out + rest)
  }

  /** A streamed result carries the bytes of the direct one, or both fail. */
  predicate Streams(r: Result<seq<bytes>>, spec: Result<bytes>) {
    match spec
    case Err => r.Err?
    case Ok(b) => r.Ok? && Flatten(r.value) == b
  }

  lemma AfterNothing(r: Result<bytes>)
    ensures After([], r) == r
  {
    if r.Ok? {
      assert [] + r.value == r.value;
    }
  }

  lemma AfterAfter(a: bytes, b: bytes, r: Result<bytes>)
    ensures After(a, After(b, r)) == After(a + b, r)
  {
    if r.Ok? {
      assert a + (b + r.value) == (a + b) + r.value;
    }
  }

  /** The state of the decrypting loop: buffered ciphertext, the next chunk index, how many
      chunks are still expected, what is left to trim and to emit, and what was yielded. */
  datatype Progress = Progress(buf: bytes, index: nat, left: nat, head: nat, remaining: nat, out: seq<bytes>)

  /** What the loop will have produced once `rest` has arrived as well. */
  function Outcome(c: ChunkCipher, s: Progress, rest: bytes): Result<bytes>
    requires |c.salt| >= 4
  {
    After(Flatten(s.out), DecryptAll(c, s.buf + rest, s.index, s.left, s.head, s.remaining))
  }

  /** What it will have yielded by then, whether it fails or not. */
  function Yielded(c: ChunkCipher, s: Progress, rest: bytes): bytes
    requires |c.salt| >= 4
  {
    Flatten(s.out) + DecryptUpTo(c, s.buf + rest, s.index, s.left, s.head, s.remaining)
  }

  /** `_trim_and_count` and the bookkeeping of one decrypted chunk. */
  function Emit(s: Progress, p: bytes, buf: bytes): Progress
    requires s.left > 0
  {
    var piece := Trim(p, s.head, s.remaining);
    Progress(buf, s.index + 1, s.left - 1, 0, s.remaining - |piece|, s.out + [piece])
  }

  lemma EmitFull(c: ChunkCipher, s: Progress, p: bytes, rest: bytes)
    requires |c.salt| >= 4 && s.left > 1 && |s.buf| >= c.Stride() && s.remaining > 0
    requires c.Decrypt(s.buf[..c.Stride()], s.index) == Ok(p)
    ensures Outcome(c, s, rest) == Outcome(c, Emit(s, p, s.buf[c.Stride()..]), rest)
    ensures Yielded(c, s, rest) == Yielded(c, Emit(s, p, s.buf[c.Stride()..]), rest)
  {
    hide ChunkCipher.Decrypt, Trim, Flatten;
    var data := s.buf + rest;
    assert data[..c.Stride()] == s.buf[..c.Stride()] && data[c.Stride()..] == s.buf[c.Stride()..] + rest;
    var piece := Trim(p, s.head, s.remaining);
    assert |piece| <= s.remaining by {
      TrimBound(p, s.head, s.remaining);
    }
    FlattenAppend(s.out, piece);
    AfterAfter(Flatten(s.out), piece,
               DecryptAll(c, data[c.Stride()..], s.index + 1, s.left - 1, 0, s.remaining - |piece|));
    Associate(Flatten(s.out), piece,
              DecryptUpTo(c, data[c.Stride()..], s.index + 1, s.left - 1, 0, s.remaining - |piece|));
  }

  lemma TrimBound(p: bytes, head: nat, remaining: nat)
    ensures |Trim(p, head, remaining)| <= remaining
  {
  }

  lemma FailFull(c: ChunkCipher, s: Progress, rest: bytes)
    requires |c.salt| >= 4 && s.left > 1 && |s.buf| >= c.Stride() && s.remaining > 0
    requires c.Decrypt(s.buf[..c.Stride()], s.index) == Err
    ensures Outcome(c, s, rest) == Err && Yielded(c, s, rest) == Flatten(s.out)
  {
    assert (s.buf + rest)[..c.Stride()] == s.buf[..c.Stride()];
  }

  /** Decrypt every full chunk in the buffer but the last expected one. */
  method DecryptFull(c: ChunkCipher, s0: Progress, ghost rest: bytes) returns (s: Progress, failed: bool)
    requires |c.salt| >= 4 && s0.left > 0
    ensures failed ==> Outcome(c, s0, rest) == Err && Yielded(c, s0, rest) == Flatten(s.out)
    ensures !failed ==> s.left > 0 && Outcome(c, s0, rest) == Outcome(c, s, rest)
    ensures !failed ==> Yielded(c, s0, rest) == Yielded(c, s, rest)
    ensures !failed ==> s.remaining == 0 || s.left == 1 || |s.buf| < c.Stride()
  {
    hide DecryptAll, DecryptUpTo;
    s := s0;
    while s.left > 1 && |s.buf| >= c.Stride() && s.remaining > 0
      invariant s.left > 0 && Outcome(c, s0, rest) == Outcome(c, s, rest) && Yielded(c, s0, rest) == Yielded(c, s, rest)
      decreases s.left
    {
      var p := c.Decrypt(s.buf[..c.Stride()], s.index);
      if p.Err? {
        FailFull(c, s, rest);
        return s, true;
      }
      EmitFull(c, s, p.value, rest);
      s := Emit(s, p.value, s.buf[c.Stride()..]);
    }
    return s, false;
  }

  lemma OutcomeOfPiece(c: ChunkCipher, s: Progress, pieces: seq<bytes>, j: nat)
    requires |c.salt| >= 4 && j < |pieces|
    ensures Outcome(c, s, Flatten(pieces[j..])) == Outcome(c, s.(buf := s.buf + pieces[j]), Flatten(pieces[j + 1..]))
    ensures Yielded(c, s, Flatten(pieces[j..])) == Yielded(c, s.(buf := s.buf + pieces[j]), Flatten(pieces[j + 1..]))
  {
    FlattenDrop(pieces, j);
    assert s.buf + (pieces[j] + Flatten(pieces[j + 1..])) == (s.buf + pieces[j]) + Flatten(pieces[j + 1..]);
  }

  /** However the ciphertext arrives in pieces, and whatever it contains, the stream yields what direct
      decryption of the joined pieces yields, and fails exactly when that does, after the same
      bytes. */
  method DecryptingStream(c: ChunkCipher, pieces: seq<bytes>, startChunk: nat, nChunks: nat,
                          trimHead: nat, trimTotal: nat)
    returns (r: Result<seq<bytes>>, yielded: seq<bytes>)
    requires |c.salt| >= 4 && nChunks > 0
    ensures Streams(r, DecryptAll(c, Flatten(pieces), startChunk, nChunks, trimHead, trimTotal))
    ensures Flatten(yielded) == DecryptUpTo(c, Flatten(pieces), startChunk, nChunks, trimHead, trimTotal)
    ensures r.Ok? ==> r.value == yielded
  {
    ghost var spec := DecryptAll(c, Flatten(pieces), startChunk, nChunks, trimHead, trimTotal);
    ghost var upTo := DecryptUpTo(c, Flatten(pieces), startChunk, nChunks, trimHead, trimTotal);
    var s := Progress([], startChunk, nChunks, trimHead, trimTotal, []);
    AfterNothing(spec);
    assert pieces[0..] == pieces && [] + Flatten(pieces) == Flatten(pieces);
    assert [] + upTo == upTo;
    for j := 0 to |pieces|
      invariant s.left > 0 && (s.remaining == 0 || s.left == 1 || |s.buf| < c.Stride())
      invariant spec == Outcome(c, s, Flatten(pieces[j..])) && upTo == Yielded(c, s, Flatten(pieces[j..]))
    {
      hide DecryptAll, DecryptUpTo;
      if s.remaining > 0 {
        OutcomeOfPiece(c, s, pieces, j);
        s := s.(buf := s.buf + pieces[j]);
        var failed;
        s, failed := DecryptFull(c, s, Flatten(pieces[j + 1..]));
        if failed {
          return Err, s.out;
        }
      } else {
        NothingMore(c, s, Flatten(pieces[j..]), Flatten(pieces[j + 1..]));
      }
    }
    assert s.buf + Flatten(pieces[|pieces|..]) == s.buf;
    r, yielded := LastChunk(c, s);
  }

  lemma NothingMore(c: ChunkCipher, s: Progress, a: bytes, b: bytes)
    requires |c.salt| >= 4 && s.remaining == 0
    ensures Outcome(c, s, a) == Outcome(c, s, b) && Yielded(c, s, a) == Yielded(c, s, b)
  {
  }

  /** The stream is exhausted: what is left in the buffer is the last chunk. */
  method LastChunk(c: ChunkCipher, s: Progress) returns (r: Result<seq<bytes>>, yielded: seq<bytes>)
    requires |c.salt| >= 4 && s.left > 0 && (s.remaining == 0 || s.left == 1 || |s.buf| < c.Stride())
    ensures Streams(r, Outcome(c, s, [])) && Flatten(yielded) == Yielded(c, s, []) && (r.Ok? ==> r.value == yielded)
  {
    assert s.buf + [] == s.buf;
    if s.buf != [] && s.remaining > 0 {
      var p := c.Decrypt(s.buf, s.index);
      if p.Err? {
        return Err, s.out;
      }
      FlattenAppend(s.out, Trim(p.value, s.head, s.remaining));
      var t := Emit(s, p.value, []);
      return Ok(t.out), t.out;
    }
    return Ok(s.out), s.out;
  }

  lemma DecryptAllLast(c: ChunkCipher, w: bytes, index: nat, head: nat, total: nat)
    requires c.Valid() && index + |w| <= INDEX_LIMIT && 0 < |w| <= c.chunkSize
    requires total > 0 && head + total <= |w|
    ensures DecryptAll(c, EncryptFrom(c, w, index), index, 1, head, total) == Ok(w[head..head + total])
  {
    assert w[..|w|] == w && w[|w|..] == [];
    assert EncryptFrom(c, w, index) == c.Encrypt(w, index);
    DecryptIffEncrypt(c, c.Encrypt(w, index), index, w);
    assert Trim(w, head, total) == w[head..head + total];
  }

  lemma DecryptAllFirst(c: ChunkCipher, p: bytes, data: bytes, index: nat, chunks: nat, head: nat, total: nat)
    requires c.Valid() && index < INDEX_LIMIT && |p| == c.chunkSize && chunks > 1
    requires head <= |p| && total > |p| - head
    ensures DecryptAll(c, c.Encrypt(p, index) + data, index, chunks, head, total)
         == After(p[head..], DecryptAll(c, data, index + 1, chunks - 1, 0, head + total - |p|))
  {
    var first := c.Encrypt(p, index);
    DecryptIffEncrypt(c, first, index, p);
    assert (first + data)[..c.Stride()] == first && (first + data)[c.Stride()..] == data;
  }

  lemma DecryptAllStep(c: ChunkCipher, w: bytes, index: nat, chunks: nat, head: nat, total: nat)
    requires c.Valid() && index + |w| <= INDEX_LIMIT && |w| > c.chunkSize && chunks > 1
    requires head <= c.chunkSize < head + total <= |w|
    requires DecryptAll(c, EncryptFrom(c, w[c.chunkSize..], index + 1), index + 1, chunks - 1, 0,
                        head + total - c.chunkSize)
          == Ok(w[c.chunkSize..][0..head + total - c.chunkSize])
    ensures DecryptAll(c, EncryptFrom(c, w, index), index, chunks, head, total) == Ok(w[head..head + total])
  {
    hide EncryptFrom, DecryptAll;
    EncryptFromSplit(c, w, index);
    DecryptAllFirst(c, w[..c.chunkSize], EncryptFrom(c, w[c.chunkSize..], index + 1), index, chunks, head, total);
    JoinAcross(w, c.chunkSize, head, head + total);
  }

  lemma JoinAcross(w: bytes, mid: nat, lo: nat, hi: nat)
    requires lo <= mid <= hi <= |w|
    ensures w[..mid][lo..] + w[mid..][0..hi - mid] == w[lo..hi]
  {
  }

  /** Decrypting what encryption produced gives back the requested slice of the window. */
  lemma {:induction false} DecryptAllOfEncrypted(c: ChunkCipher, w: bytes, index: nat, chunks: nat, head: nat,
                                                 total: nat)
    requires c.Valid() && index + |w| <= INDEX_LIMIT && chunks > 0
    requires Mul(chunks - 1, c.chunkSize) < |w| <= Mul(chunks, c.chunkSize)
    requires head <= c.chunkSize && Mul(chunks - 1, c.chunkSize) < head + total <= |w| && total > 0
    ensures DecryptAll(c, EncryptFrom(c, w, index), index, chunks, head, total) == Ok(w[head..head + total])
    decreases chunks
  {
    hide EncryptFrom, DecryptAll;
    if chunks == 1 {
      DecryptAllLast(c, w, index, head, total);
    } else {
      assert Mul(chunks - 1, c.chunkSize) >= c.chunkSize;
      DecryptAllOfEncrypted(c, w[c.chunkSize..], index + 1, chunks - 1, 0, head + total - c.chunkSize);
      DecryptAllStep(c, w, index, chunks, head, total);
    }
  }

  // Detection and range translation.

  datatype Detection = Legacy | Encrypted(header: FileHeader, key: bytes)

  /** `probe` is the start of the file, at most one header long. */
  function Detect(suite: Suite, probe: bytes): Result<Detection> {
    if |probe| < |MAGIC| || probe[..|MAGIC|] != MAGIC then Ok(Legacy)
    else if |probe| < HEADER_SIZE then Err
    else
      match Parse(probe[..HEADER_SIZE])
      case Err => Err
      case Ok(h) =>
        var key := suite.derive(h.salt);
        if Verify(suite, probe[..HEADER_SIZE], key) then Ok(Encrypted(h, key)) else Err
  }

  /** What the wrapped repository serves: the inclusive range, a negative end meaning all. */
  function Served(stored: bytes, begin: nat, end: int): bytes {
    Range(stored, begin, if end < 0 then |stored| - 1 else end)
  }

  /** The plaintext range translated to a chunk range, decrypted from the stored bytes. */
  function ReadEncrypted(suite: Suite, stored: bytes, h: FileHeader, key: bytes, begin: nat, end: int): Result<bytes>
    requires |h.salt| >= 4 && h.chunkSize > 0
  {
    match PlaintextSize(|stored|, h.chunkSize)
    case Err => Err
    case Ok(total) =>
      var last := if end < 0 || end >= total then total - 1 else end;
      if begin > last then Ok([]) else ReadChunks(ChunkCipher(suite, key, h.salt, h.chunkSize), stored, begin, last)
  }

  lemma ChunkAndOffset(x: nat, size: nat)
    requires size > 0
    ensures 0 <= x / size && 0 <= x % size < size
  {
  }

  /** Decrypt the chunks that hold plaintext bytes `[begin, last]`. */
  function ReadChunks(c: ChunkCipher, stored: bytes, begin: nat, last: nat): Result<bytes>
    requires |c.salt| >= 4 && c.chunkSize > 0 && begin <= last
  {
    ChunkAndOffset(begin, c.chunkSize);
    var slice := CipherSlice(begin, last, c.chunkSize, |stored|);
    DecryptAll(c, Range(stored, slice.0, slice.1), begin / c.chunkSize,
               ChunkCount(begin, last, c.chunkSize), begin % c.chunkSize, last - begin + 1)
  }

  function ChunkCount(begin: nat, last: nat, chunkSize: nat): (n: nat)
    requires chunkSize > 0 && begin <= last
    ensures n > 0
  {
    DivMono(begin, last, chunkSize);
    last / chunkSize - begin / chunkSize + 1
  }

  /** The inclusive ciphertext range that holds the chunks of `[begin, last]`. */
  function CipherSlice(begin: nat, last: nat, chunkSize: nat, stored: nat): (r: (nat, int))
    requires chunkSize > 0
    ensures stored > 0 ==> r.1 >= 0
  {
    MulIsProduct(begin / chunkSize, chunkSize + CHUNK_OVERHEAD);
    MulIsProduct(last / chunkSize + 1, chunkSize + CHUNK_OVERHEAD);
    var stride := chunkSize + CHUNK_OVERHEAD;
    (HEADER_SIZE + begin / chunkSize * stride,
     Min(HEADER_SIZE + (last / chunkSize + 1) * stride, stored) - 1)
  }

  /** `get`, stated without streams. */
  function Read(suite: Suite, stored: bytes, begin: nat, end: int): Result<bytes> {
    if stored == [] then Ok([])
    else
      match Detect(suite, Take(stored, HEADER_SIZE))
      case Err => Err
      case Ok(Legacy) => Ok(Served(stored, begin, end))
      case Ok(Encrypted(h, key)) =>
        if |h.salt| >= 4 && h.chunkSize > 0 then ReadEncrypted(suite, stored, h, key, begin, end) else Err
  }

  // The round trip.

  /** A header both sides accept. */
  predicate Accepted(h: FileHeader) {
    h.Packable() && h.version == HEADER_VERSION && 0 < h.chunkSize <= MAX_CHUNK_SIZE
  }

  function CipherFor(suite: Suite, h: FileHeader): ChunkCipher {
    ChunkCipher(suite, suite.derive(h.salt), h.salt, h.chunkSize)
  }

  /** The bytes `save` stores for plaintext `p` under header `h`. */
  function Stored(suite: Suite, h: FileHeader, p: bytes): bytes
    requires Accepted(h) && |p| <= INDEX_LIMIT
  {
    FileBytes(CipherFor(suite, h), Serialize(suite, h, suite.derive(h.salt)), p)
  }

  lemma DetectStored(suite: Suite, h: FileHeader, p: bytes)
    requires suite.Lawful() && Accepted(h) && |p| <= INDEX_LIMIT
    ensures Detect(suite, Take(Stored(suite, h, p), HEADER_SIZE)) == Ok(Encrypted(h, suite.derive(h.salt)))
    ensures |Stored(suite, h, p)| == HEADER_SIZE + CiphertextSize(|p|, h.chunkSize)
  {
    var key := suite.derive(h.salt);
    var raw := Serialize(suite, h, key);
    ParseSerialize(suite, h, key);
    EncryptFromLength(CipherFor(suite, h), p, 0);
    var stored := Stored(suite, h, p);
    assert Take(stored, HEADER_SIZE) == raw;
    assert raw[..HEADER_SIZE] == raw;
    assert raw[..BODY_SIZE] == Body(h);
    BodyFields(h, raw);
  }

  /** The plaintext window the chunks of `[begin, last]` cover. */
  lemma WindowBounds(begin: nat, last: nat, n: nat, size: nat)
    requires size > 0 && begin <= last < n
    ensures var s, k := begin / size, ChunkCount(begin, last, size);
            var lo, hi := Mul(s, size), Min(Mul(s + k, size), n);
            && lo <= begin && begin - lo == begin % size < size && last < hi
            && Mul(k - 1, size) < last + 1 - lo && hi - lo <= Mul(k, size) && Mul(s + k, size) == lo + Mul(k, size)
  {
    var s, k := begin / size, ChunkCount(begin, last, size);
    DivMod(begin, size);
    DivMod(last, size);
    MulAdd(s, k, size);
    MulAdd(s, k - 1, size);
    assert Mul(s + k, size) == size + Mul(s + k - 1, size);
  }

  /** The ciphertext slice is exactly the sealing of the window `w`. */
  lemma SliceIsWindow(c: ChunkCipher, header: bytes, a: bytes, w: bytes, z: bytes, s: nat, k: nat)
    requires c.Valid() && |a| + |w| + |z| <= INDEX_LIMIT && |a| == Mul(s, c.chunkSize)
    requires |w| <= Mul(k, c.chunkSize) && (z == [] || |w| == Mul(k, c.chunkSize))
    ensures s <= |a|
    ensures RangeUpTo(FileBytes(c, header, a + (w + z)), |header| + Mul(s, c.Stride()), Mul(k, c.Stride()))
         == EncryptFrom(c, w, s)
  {
    hide EncryptFrom, Range, Mul;
    EncryptFromConcat(c, a, w + z, 0, s);
    TakeWindow(c, w, z, s, k);
    RangeOfParts(header, EncryptFrom(c, a, 0), EncryptFrom(c, w + z, s), Mul(k, c.Stride()));
  }

  /** At most `n` bytes of `s` from `begin` on. */
  function RangeUpTo(s: bytes, begin: nat, n: nat): bytes {
    Range(s, begin, Min(begin + n, |s|) - 1)
  }

  lemma TakeWindow(c: ChunkCipher, w: bytes, z: bytes, index: nat, k: nat)
    requires c.Valid() && index + |w| + |z| <= INDEX_LIMIT
    requires |w| <= Mul(k, c.chunkSize) && (z == [] || |w| == Mul(k, c.chunkSize))
    ensures Take(EncryptFrom(c, w + z, index), Mul(k, c.Stride())) == EncryptFrom(c, w, index)
  {
    hide EncryptFrom, Mul;
    if |w| == Mul(k, c.chunkSize) {
      EncryptFromConcat(c, w, z, index, k);
      assert index + k <= INDEX_LIMIT;
    } else {
      assert w + z == w;
      EncryptFromFits(c, w, index, k);
    }
  }

  lemma {:induction false} EncryptFromFits(c: ChunkCipher, w: bytes, index: nat, k: nat)
    requires c.Valid() && index + |w| <= INDEX_LIMIT && |w| <= Mul(k, c.chunkSize)
    ensures |EncryptFrom(c, w, index)| <= Mul(k, c.Stride())
    decreases k
  {
    if w != [] {
      EncryptFromFits(c, w[Min(c.chunkSize, |w|)..], index + 1, k - 1);
    }
  }

  lemma RangeOfParts(a: bytes, b: bytes, d: bytes, cut: nat)
    ensures RangeUpTo(a + (b + d), |a| + |b|, cut) == Take(d, cut)
  {
    var all := a + (b + d);
    var hi := Min(|a| + |b| + cut, |all|);
    if |a| + |b| < hi {
      assert all[|a| + |b|..hi] == d[..hi - |a| - |b|];
    }
  }

  lemma CipherSliceIsRange(c: ChunkCipher, stored: bytes, begin: nat, last: nat)
    requires c.chunkSize > 0 && begin <= last
    ensures var slice := CipherSlice(begin, last, c.chunkSize, |stored|);
            Range(stored, slice.0, slice.1)
            == RangeUpTo(stored, HEADER_SIZE + Mul(begin / c.chunkSize, c.Stride()),
                         Mul(ChunkCount(begin, last, c.chunkSize), c.Stride()))
  {
    var s, k := begin / c.chunkSize, ChunkCount(begin, last, c.chunkSize);
    MulIsProduct(s, c.Stride());
    MulIsProduct(s + k, c.Stride());
    MulAdd(s, k, c.Stride());
  }

  /** Decrypting the slice of the window gives back the requested part of the window. */
  lemma DecryptWindow(c: ChunkCipher, header: bytes, a: bytes, w: bytes, z: bytes, s: nat, k: nat, head: nat,
                      total: nat)
    requires c.Valid() && |a| + |w| + |z| <= INDEX_LIMIT && |a| == Mul(s, c.chunkSize) && k > 0
    requires Mul(k - 1, c.chunkSize) < |w| <= Mul(k, c.chunkSize) && (z == [] || |w| == Mul(k, c.chunkSize))
    requires head <= c.chunkSize && Mul(k - 1, c.chunkSize) < head + total <= |w| && total > 0
    ensures DecryptAll(c,
                       RangeUpTo(FileBytes(c, header, a + (w + z)), |header| + Mul(s, c.Stride()), Mul(k, c.Stride())),
                       s, k, head, total) == Ok(w[head..head + total])
  {
    hide EncryptFrom, DecryptAll, Range, Mul;
    SliceIsWindow(c, header, a, w, z, s, k);
    DecryptAllOfEncrypted(c, w, s, k, head, total);
  }

  lemma ReadChunksOfStored(c: ChunkCipher, header: bytes, p: bytes, begin: nat, last: nat)
    requires c.Valid() && |header| == HEADER_SIZE && begin <= last < |p| <= INDEX_LIMIT
    ensures ReadChunks(c, FileBytes(c, header, p), begin, last) == Ok(p[begin..last + 1])
  {
    hide EncryptFrom, DecryptAll, Range, Mul;
    var s, k := begin / c.chunkSize, ChunkCount(begin, last, c.chunkSize);
    CipherSliceIsRange(c, FileBytes(c, header, p), begin, last);
    WindowBounds(begin, last, |p|, c.chunkSize);
    var lo := Mul(s, c.chunkSize);
    var hi := Min(lo + Mul(k, c.chunkSize), |p|);
    assert p == p[..lo] + (p[lo..hi] + p[hi..]);
    DecryptWindow(c, header, p[..lo], p[lo..hi], p[hi..], s, k, begin - lo, last - begin + 1);
    SubSlice(p, lo, hi, begin - lo, last + 1 - lo);
  }

  /** Reading an encrypted file through the range translation gives exactly the requested
      plaintext range, for every plaintext, chunk size and range. */
  lemma ReadOfStored(suite: Suite, h: FileHeader, p: bytes, begin: nat, end: int)
    requires suite.Lawful() && Accepted(h) && |p| <= INDEX_LIMIT
    ensures Read(suite, Stored(suite, h, p), begin, end) == Ok(Served(p, begin, end))
  {
    hide EncryptFrom, DecryptAll, ReadChunks, Parse, Serialize, PlaintextSize;
    var key := suite.derive(h.salt);
    DetectStored(suite, h, p);
    PlaintextSizeInverts(|p|, h.chunkSize);
    var last := if end < 0 || end >= |p| then |p| - 1 else end;
    if begin <= last {
      ParseSerialize(suite, h, key);
      ReadChunksOfStored(CipherFor(suite, h), Serialize(suite, h, key), p, begin, last);
    }
  }

  /** A file written before encryption was turned on is served unchanged exactly when it does
      not begin with the magic; one that does is refused unless it authenticates. */
  lemma LegacyIffNoMagic(suite: Suite, stored: bytes)
    requires stored != []
    ensures Detect(suite, Take(stored, HEADER_SIZE)) == Ok(Legacy) <==> |stored| < 4 || stored[..4] != MAGIC
  {
    var probe := Take(stored, HEADER_SIZE);
    assert |stored| >= 4 ==> probe[..4] == stored[..4];
  }

  // The repository with its header cache.

  /** `_HeaderCache`: a bounded first-in first-out cache of detections. */
  class HeaderCache {
    const capacity: nat
    var store: map<string, Detection>
    var order: seq<string>

    ghost predicate Valid()
      reads this
    {
      && 0 < capacity && |order| <= capacity
      && (forall i, j :: 0 <= i < j < |order| ==> order[i] != order[j])
      && (forall id :: id in store <==> id in order)
    }

    constructor (capacity: nat)
      requires capacity > 0
      ensures Valid() && store == map[] && this.capacity == capacity
    {
      this.capacity, store, order := capacity, map[], [];
    }

    /** A present id keeps its entry; a new one evicts the oldest when the cache is full. */
    method Put(id: string, entry: Detection)
      requires Valid()
      modifies this
      ensures Valid() && id in store
      ensures forall k :: k in store ==>
                (k in old(store) && store[k] == old(store)[k]) || (k == id && store[k] == entry)
      ensures id in old(store) || |old(order)| < capacity ==> forall k :: k in old(store) ==> k in store
      ensures id !in old(store) && |old(order)| == capacity ==> order == old(order)[1..] + [id]
    {
      if id in store {
        return;
      }
      if |order| >= capacity {
        store := store - {order[0]};
        order := order[1..];
      }
      store := store[id := entry];
      order := order + [id];
    }
  }

  class EncryptingRepository {
    const suite: Suite
    /** The wrapped repository: the immutable stored bytes of every version. */
    const inner: map<string, bytes>
    const cache: HeaderCache

    ghost predicate Valid()
      reads this, cache
    {
      && cache.Valid()
      && (forall id :: id in cache.store ==>
            id in inner && Detect(suite, Take(inner[id], HEADER_SIZE)) == Ok(cache.store[id]))
    }

    constructor (suite: Suite, inner: map<string, bytes>)
      ensures Valid() && this.suite == suite && this.inner == inner && fresh(cache)
    {
      this.suite, this.inner := suite, inner;
      cache := new HeaderCache(1024);
    }

    /** The wrapped `get`, delivering the range in pieces of any length. */
    method InnerGet(id: string, begin: nat, end: int) returns (pieces: seq<bytes>)
      requires id in inner
      ensures Flatten(pieces) == Served(inner[id], begin, end)
    {
      var todo := Served(inner[id], begin, end);
      pieces := [];
      while todo != []
        invariant Flatten(pieces) + todo == Served(inner[id], begin, end)
        decreases |todo|
      {
        var most := |todo|;
        var k :| 1 <= k <= most;
        FlattenAppend(pieces, todo[..k]);
        assert todo == todo[..k] + todo[k..];
        pieces := pieces + [todo[..k]];
        todo := todo[k..];
      }
    }

    /** Probe the start of the file once per version; the cached answer never differs. */
    method DetectVersion(id: string) returns (r: Result<Detection>)
      requires Valid() && id in inner
      modifies cache
      ensures Valid() && r == Detect(suite, Take(inner[id], HEADER_SIZE))
      ensures if r.Ok? then id in cache.store && cache.store[id] == r.value else cache.store == old(cache.store)
    {
      if id in cache.store {
        return Ok(cache.store[id]);
      }
      var size := |inner[id]|;
      if size < |MAGIC| {
        cache.Put(id, Legacy);
        return Ok(Legacy);
      }
      var target := Min(HEADER_SIZE, size);
      var pieces := InnerGet(id, 0, target - 1);
      var buf := Probe(pieces, target);
      assert Flatten(pieces) == inner[id][0..target] == Take(inner[id], HEADER_SIZE);
      r := Detect(suite, buf);
      if r.Ok? {
        cache.Put(id, r.value);
      }
    }

    static method Probe(pieces: seq<bytes>, target: nat) returns (buf: bytes)
      requires |Flatten(pieces)| <= target
      ensures buf == Flatten(pieces)
    {
      buf := [];
      var j := 0;
      assert pieces[0..] == pieces;
      while j < |pieces|
        invariant j <= |pieces| && Flatten(pieces) == buf + Flatten(pieces[j..])
      {
        FlattenDrop(pieces, j);
        assert buf + (pieces[j] + Flatten(pieces[j + 1..])) == (buf + pieces[j]) + Flatten(pieces[j + 1..]);
        buf := buf + pieces[j];
        j := j + 1;
        if |buf| >= target {
          assert Flatten(pieces[j..]) == [];
          break;
        }
      }
    }

    /** `get` streams exactly what `Read` describes, whatever was read before. */
    method Get(id: string, begin: nat, end: int) returns (r: Result<seq<bytes>>)
      requires Valid() && id in inner
      modifies cache
      ensures Valid() && Streams(r, Read(suite, inner[id], begin, end))
    {
      if inner[id] == [] {
        return Ok([]);
      }
      var detected := DetectVersion(id);
      match detected
      case Err => return Err;
      case Ok(Legacy) =>
        var pieces := InnerGet(id, begin, end);
        return Ok(pieces);
      case Ok(Encrypted(h, key)) =>
        r := GetEncrypted(id, h, key, begin, end);
    }

    method GetEncrypted(id: string, h: FileHeader, key: bytes, begin: nat, end: int) returns (r: Result<seq<bytes>>)
      requires id in inner && inner[id] != [] && |h.salt| >= 4 && h.chunkSize > 0
      ensures Streams(r, ReadEncrypted(suite, inner[id], h, key, begin, end))
    {
      var total := PlaintextSize(|inner[id]|, h.chunkSize);
      if total.Err? {
        return Err;
      }
      var last := if end < 0 || end >= total.value then total.value - 1 else end;
      if begin > last {
        return Ok([]);
      }
      r := GetChunks(id, ChunkCipher(suite, key, h.salt, h.chunkSize), begin, last);
    }

    method GetChunks(id: string, c: ChunkCipher, begin: nat, last: nat) returns (r: Result<seq<bytes>>)
      requires id in inner && inner[id] != [] && |c.salt| >= 4 && c.chunkSize > 0 && begin <= last
      ensures Streams(r, ReadChunks(c, inner[id], begin, last))
    {
      hide Flatten, DecryptAll, DecryptUpTo, ChunkCount, ReadChunks, CipherSlice, Served, Range;
      ChunkAndOffset(begin, c.chunkSize);
      var slice := CipherSlice(begin, last, c.chunkSize, |inner[id]|);
      var first, count, head := begin / c.chunkSize, ChunkCount(begin, last, c.chunkSize), begin % c.chunkSize;
      ReadChunksServed(c, inner[id], begin, last, slice, first, count, head);
      var pieces := InnerGet(id, slice.0, slice.1);
      var yielded;
      r, yielded := DecryptingStream(c, pieces, first, count, head, last - begin + 1);
    }
  }

  lemma ReadChunksServed(c: ChunkCipher, stored: bytes, begin: nat, last: nat, slice: (nat, int), first: nat, count: nat,
                         head: nat)
    requires |c.salt| >= 4 && c.chunkSize > 0 && begin <= last && stored != []
    requires slice == CipherSlice(begin, last, c.chunkSize, |stored|) && first == begin / c.chunkSize
    requires count == ChunkCount(begin, last, c.chunkSize) && head == begin % c.chunkSize
    ensures ReadChunks(c, stored, begin, last)
         == DecryptAll(c, Served(stored, slice.0, slice.1), first, count, head, last - begin + 1)
  {
    hide DecryptAll, ChunkCount, CipherSlice, Range;
  }

  /** End to end: any plaintext, uploaded by any schedule of parts and read lengths long enough to
      drain it, then read back through any range and any splitting of the stored stream. What is
      read back is the plaintext, unless the source rewinds and a part was opened in its middle. */
  method UploadThenGet(suite: Suite, h: FileHeader, source: PlainSource, parts: seq<seq<nat>>, begin: nat, end: int)
    returns (r: Result<seq<bytes>>)
    requires suite.Lawful() && Accepted(h)
    requires source.Valid() && source.pos == 0 && |source.content| == source.declared <= INDEX_LIMIT
    requires Asked(parts) >= FileSize(source.declared, h.chunkSize)
    modifies source
    ensures r.Ok? && Flatten(r.value)
              == Served(Uploaded(source.content, source.rewinds, h.chunkSize, parts), begin, end)
    ensures !source.rewinds || SafeSchedule(source.declared, h.chunkSize, parts) ==>
              Flatten(r.value) == Served(source.content, begin, end)
  {
    hide EncryptFrom, DecryptAll, Range, Read, Serialize, CiphertextSize, SafeSchedule, Uploaded, Asked;
    var msg := new EncryptingFileMessage.Wrap(source, suite, suite.derive(h.salt), h);
    ghost var plain := Uploaded(source.content, source.rewinds, h.chunkSize, parts);
    assert Take(source.content, source.declared) == source.content;
    var chunks := Drain(msg, parts);
    ghost var stored := Stored(suite, h, plain);
    assert |stored| == FileSize(source.declared, h.chunkSize) by {
      StoredLength(suite, h, plain);
    }
    assert Flatten(chunks) == stored by {
      assert msg.todo == [];
    }
    var repo := new EncryptingRepository(suite, map["version" := Flatten(chunks)]);
    r := repo.Get("version", begin, end);
    ReadOfStored(suite, h, plain, begin, end);
    if !source.rewinds || SafeSchedule(source.declared, h.chunkSize, parts) {
      SafeUpload(source.content, source.rewinds, h.chunkSize, parts);
    }
  }

  lemma StoredLength(suite: Suite, h: FileHeader, p: bytes)
    requires suite.Lawful() && Accepted(h) && |p| <= INDEX_LIMIT
    ensures |Stored(suite, h, p)| == FileSize(|p|, h.chunkSize)
  {
    EncryptFromLength(CipherFor(suite, h), p, 0);
    ParseSerialize(suite, h, suite.derive(h.salt));
  }
}
