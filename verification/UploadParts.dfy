/** Uploading an encrypted file part by part: the store opens the message once per part
    (`backends/telegram/store.py`, `backends/telegram/uploader.py`), and what comes out is the
    encrypted file unless the wrapped message starts again when it is opened. */
module UploadParts {
  import opened Arith
  import opened Bytes
  import opened Cipher
  import opened Header
  import opened EncryptedStream
  import opened Tiling
  import opened CachedUpload

  // -- what a schedule of opens and reads emits -------------------------------------------------------

  function FileSize(n: nat, chunkSize: nat): nat
    requires chunkSize > 0
  {
    HEADER_SIZE + CiphertextSize(n, chunkSize)
  }

  /** How much of `n` bytes of plaintext has been sealed once `e` bytes have been emitted. */
  function ReadAhead(e: nat, n: nat, chunkSize: nat): (r: nat)
    requires chunkSize > 0
    ensures r <= n
  {
    if e <= HEADER_SIZE then 0 else Min(Mul(CeilDiv(e - HEADER_SIZE, chunkSize + CHUNK_OVERHEAD), chunkSize), n)
  }

  /** The bytes asked for by a schedule: for every part the lengths of its reads. */
  function Asked(parts: seq<seq<nat>>): nat {
    if |parts| == 0 then 0 else Asked(parts[..|parts| - 1]) + Sum(parts[|parts| - 1])
  }

  /** How much plaintext has been sealed when each part is opened. */
  function Cuts(n: nat, chunkSize: nat, parts: seq<seq<nat>>): (r: seq<nat>)
    requires chunkSize > 0
    ensures |r| == |parts| && forall i :: 0 <= i < |r| ==> r[i] <= n
  {
    if |parts| == 0 then []
    else
      var init := parts[..|parts| - 1];
      Cuts(n, chunkSize, init) + [ReadAhead(Min(Asked(init), FileSize(n, chunkSize)), n, chunkSize)]
  }

  /** What becomes of a plaintext that is started again when `r` bytes of it have been read. */
  function Restarted(plain: bytes, p: bytes, r: nat): (q: bytes)
    requires r <= |p| == |plain|
    ensures |q| == |p|
  {
    plain[..r] + p[..|p| - r]
  }

  /** A plaintext started again from its first byte at every cut. */
  function Spliced(p: bytes, cuts: seq<nat>): (r: bytes)
    requires forall i :: 0 <= i < |cuts| ==> cuts[i] <= |p|
    ensures |r| == |p|
  {
    if |cuts| == 0 then p
    else
      var r := cuts[|cuts| - 1];
      Restarted(Spliced(p, cuts[..|cuts| - 1]), p, r)
  }

  /** The plaintext an upload by this schedule seals. */
  function Uploaded(p: bytes, rewinds: bool, chunkSize: nat, parts: seq<seq<nat>>): (r: bytes)
    requires chunkSize > 0
    ensures |r| == |p|
  {
    if rewinds then Spliced(p, Cuts(|p|, chunkSize, parts)) else p
  }

  // -- where the message stands -----------------------------------------------------------------------

  /** `k` chunks, all whole but perhaps the last. */
  lemma {:induction false} SizeOfChunks(m: nat, k: nat, c: nat)
    requires c > 0 && k > 0 && Mul(k - 1, c) < m <= Mul(k, c)
    ensures CiphertextSize(m, c) == Mul(k - 1, c + CHUNK_OVERHEAD) + (m - Mul(k - 1, c)) + CHUNK_OVERHEAD
  {
    if k == 1 {
      assert Mul(0, c) == 0 && Mul(1, c) == c;
      CiphertextSizeShort(m, c);
    } else {
      CiphertextSizeStep(m, c);
      SizeOfChunks(m - c, k - 1, c);
    }
  }

  /** Emitted and pending bytes are the header and the chunks sealed so far. */
  lemma SealedLength(m: EncryptingFileMessage)
    requires m.Valid() && m.headerEmitted && |m.inner.content| >= m.inner.declared
    ensures |m.emitted| + |m.pending| == HEADER_SIZE + CiphertextSize(m.plaintextRead, m.cipher.chunkSize)
  {
    hide EncryptFrom, CiphertextSize;
    var rest, k, c := m.Rest(), m.chunkIndex, m.cipher;
    EncryptFromLength(c, m.taken, 0);
    if m.plaintextRead == Mul(k, c.chunkSize) {
      EncryptFromConcat(c, m.taken, rest, 0, k);
    } else {
      assert rest == [] && m.taken + rest == m.taken;
      assert EncryptFrom(c, rest, k) == [] by {
        EncryptFromLength(c, rest, k);
        NoBytes(c.chunkSize);
      }
    }
  }

  lemma NoBytes(c: nat)
    requires c > 0
    ensures CiphertextSize(0, c) == 0
  {
  }

  /** Between reads, the number of bytes emitted tells how much plaintext has been sealed. */
  lemma DrawnPosition(m: EncryptingFileMessage)
    requires m.Valid() && m.Lazy() && m.headerEmitted && |m.inner.content| >= m.inner.declared
    ensures m.plaintextRead == ReadAhead(|m.emitted|, m.inner.declared, m.cipher.chunkSize)
  {
    hide EncryptFrom, CiphertextSize, FileBytes;
    var k, c := m.chunkIndex, m.cipher.chunkSize;
    SealedLength(m);
    if k == 0 {
      NoBytes(c);
    } else {
      SizeOfChunks(m.plaintextRead, k, c);
      var e := |m.emitted| - HEADER_SIZE;
      assert Mul(k, c + CHUNK_OVERHEAD) == Mul(k - 1, c + CHUNK_OVERHEAD) + c + CHUNK_OVERHEAD;
      assert Mul(k, c) == Mul(k - 1, c) + c;
      CeilDivIs(e, c + CHUNK_OVERHEAD, k);
    }
  }

  // -- draining the message ---------------------------------------------------------------------------

  lemma DrainStep(all: bytes, done: bytes, todo: bytes, more: bytes, rest: bytes, sum: nat, length: nat)
    requires all == done + todo && |done| == Min(sum, |all|)
    requires todo == more + rest && |more| == Min(length, |todo|)
    ensures all == (done + more) + rest && |done + more| == Min(sum + length, |all|)
  {
  }

  /** The reads of one part, once it is open, emit what is to be emitted, in order. */
  method ReadPart(msg: EncryptingFileMessage, lengths: seq<nat>) returns (chunks: seq<bytes>)
    requires msg.Valid() && msg.Lazy() && msg.headerEmitted
    modifies msg`pending, msg`chunkIndex, msg`plaintextRead, msg`todo, msg`emitted, msg`taken, msg.inner
    ensures msg.Valid() && msg.Lazy()
    ensures old(msg.todo) == Flatten(chunks) + msg.todo && msg.emitted == old(msg.emitted) + Flatten(chunks)
    ensures |Flatten(chunks)| == Min(Sum(lengths), |old(msg.todo)|)
    ensures msg.taken + msg.Rest() == old(msg.taken + msg.Rest())
  {
    hide EncryptFrom, EncryptingFileMessage.Placed, RestOf, FileBytes, Flatten, Sum;
    FlattenNone<byte>();
    SumNone();
    assert lengths[..0] == [];
    chunks := [];
    for i := 0 to |lengths|
      invariant msg.Valid() && msg.Lazy()
      invariant old(msg.todo) == Flatten(chunks) + msg.todo && msg.emitted == old(msg.emitted) + Flatten(chunks)
      invariant |Flatten(chunks)| == Min(Sum(lengths[..i]), |old(msg.todo)|)
      invariant msg.taken + msg.Rest() == old(msg.taken + msg.Rest())
    {
      ghost var before := msg.todo;
      var piece := msg.Read(lengths[i]);
      FlattenAppend(chunks, piece);
      DrainStep(old(msg.todo), Flatten(chunks), before, piece, msg.todo, Sum(lengths[..i]), lengths[i]);
      assert lengths[..i + 1] == lengths[..i] + [lengths[i]];
      SumAppend(lengths[..i], lengths[i]);
      chunks := chunks + [piece];
    }
    assert lengths[..|lengths|] == lengths;
  }

  /** The message emits a file of the announced size, whatever has been sealed so far. */
  lemma FileLength(m: EncryptingFileMessage)
    requires m.Valid() && |m.inner.content| >= m.inner.declared
    ensures |m.taken + m.Rest()| == m.inner.declared
    ensures |m.emitted| + |m.todo| == FileSize(m.inner.declared, m.cipher.chunkSize)
  {
    EncryptFromLength(m.cipher, m.taken + m.Rest(), 0);
  }

  lemma Resplice(p: bytes, cuts: seq<nat>, r: nat, plain: bytes, taken: bytes)
    requires (forall i :: 0 <= i < |cuts| ==> cuts[i] <= |p|) && r <= |p|
    requires plain == Spliced(p, cuts) && taken == plain[..r]
    ensures taken + p[..|p| - r] == Spliced(p, cuts + [r])
  {
    hide Spliced;
    SplicedNext(p, cuts, r);
  }

  lemma SplicedNext(p: bytes, cuts: seq<nat>, r: nat)
    requires (forall i :: 0 <= i < |cuts| ==> cuts[i] <= |p|) && r <= |p|
    ensures Spliced(p, cuts + [r]) == Restarted(Spliced(p, cuts), p, r)
  {
    hide Restarted;
    var all := cuts + [r];
    assert all[..|all| - 1] == cuts;
  }

  lemma CutsNext(n: nat, chunkSize: nat, before: seq<seq<nat>>, next: seq<nat>)
    requires chunkSize > 0
    ensures Cuts(n, chunkSize, before + [next])
         == Cuts(n, chunkSize, before) + [ReadAhead(Min(Asked(before), FileSize(n, chunkSize)), n, chunkSize)]
  {
    assert (before + [next])[..|before|] == before;
  }

  /** Where a message that has been drained by `parts` stands: what it amounts to, and how much of it
      has been emitted. */
  ghost predicate Follows(msg: EncryptingFileMessage, parts: seq<seq<nat>>)
    reads msg, msg.inner
    requires msg.Valid()
  {
    var p, c := Take(msg.inner.content, msg.inner.declared), msg.cipher.chunkSize;
    && |msg.inner.content| >= msg.inner.declared
    && msg.taken + msg.Rest() == Uploaded(p, msg.inner.rewinds, c, parts)
    && |msg.emitted| == Min(Asked(parts), FileSize(|p|, c))
  }

  /** Opening the message for its next part. */
  method OpenPart(msg: EncryptingFileMessage, ghost before: seq<seq<nat>>, ghost next: seq<nat>)
    requires msg.Valid() && msg.Lazy()
    modifies msg`pending, msg`headerEmitted, msg`todo, msg.inner
    ensures msg.Valid() && msg.Lazy() && msg.headerEmitted && (!msg.inner.rewinds ==> msg.todo == old(msg.todo))
    ensures old(Follows(msg, before)) ==>
              msg.taken + msg.Rest()
              == Uploaded(Take(msg.inner.content, msg.inner.declared), msg.inner.rewinds, msg.cipher.chunkSize,
                          before + [next])
  {
    hide EncryptFrom, FileBytes, EncryptingFileMessage.Placed, Uploaded, RestOf, Take, Follows;
    if Follows(msg, before) {
      OpenedNext(msg, before, next);
    }
    msg.Open();
  }

  lemma OpenedNext(m: EncryptingFileMessage, before: seq<seq<nat>>, next: seq<nat>)
    requires m.Valid() && m.Lazy() && Follows(m, before)
    ensures (if m.inner.rewinds then m.taken + RestOf(m.inner.content, 0, m.inner.declared - m.plaintextRead)
             else m.taken + m.Rest())
         == Uploaded(Take(m.inner.content, m.inner.declared), m.inner.rewinds, m.cipher.chunkSize, before + [next])
  {
    hide EncryptFrom, FileBytes, CiphertextSize, EncryptingFileMessage.Placed, Uploaded, RestOf, ReadAhead, CeilDiv;
    PositionNow(m);
    FileLength(m);
    OpenedPlain(Take(m.inner.content, m.inner.declared), m.inner.content, m.inner.declared, m.inner.rewinds,
                m.cipher.chunkSize, before, next, |m.emitted|, m.taken + m.Rest(), m.taken);
  }

  lemma PositionNow(m: EncryptingFileMessage)
    requires m.Valid() && m.Lazy() && |m.inner.content| >= m.inner.declared
    ensures m.plaintextRead == ReadAhead(|m.emitted|, m.inner.declared, m.cipher.chunkSize)
  {
    hide EncryptFrom, FileBytes, CiphertextSize, EncryptingFileMessage.Placed;
    if m.headerEmitted {
      DrawnPosition(m);
    }
  }

  /** What the message amounts to after it was opened once more. */
  lemma OpenedPlain(p: bytes, content: bytes, declared: nat, rewinds: bool, c: nat, before: seq<seq<nat>>,
                    next: seq<nat>, e: nat, plain: bytes, taken: bytes)
    requires c > 0 && |content| >= declared && p == Take(content, declared)
    requires plain == Uploaded(p, rewinds, c, before) && e == Min(Asked(before), FileSize(|p|, c))
    requires taken <= plain && |taken| == ReadAhead(e, |p|, c)
    ensures (if rewinds then taken + RestOf(content, 0, declared - |taken|) else plain)
         == Uploaded(p, rewinds, c, before + [next])
  {
    hide CiphertextSize, Spliced, Cuts, ReadAhead;
    if rewinds {
      var r := |taken|;
      CutsNext(|p|, c, before, next);
      assert content[0..] == content;
      assert RestOf(content, 0, declared - r) == p[..|p| - r];
      Resplice(p, Cuts(|p|, c, before), r, plain, taken);
    }
  }

  lemma NothingOpened(p: bytes, c: nat)
    requires c > 0
    ensures Spliced(p, Cuts(|p|, c, [])) == p
  {
  }

  lemma Untouched(m: EncryptingFileMessage)
    requires m.Valid() && !m.headerEmitted && |m.inner.content| >= m.inner.declared
    ensures Follows(m, [])
  {
    assert m.inner.content[0..] == m.inner.content;
    NothingOpened(Take(m.inner.content, m.inner.declared), m.cipher.chunkSize);
  }

  /** One part: opened, then read. */
  method SendPart(msg: EncryptingFileMessage, ghost before: seq<seq<nat>>, lengths: seq<nat>)
    returns (chunks: seq<bytes>)
    requires msg.Valid() && msg.Lazy()
    modifies msg`pending, msg`headerEmitted, msg`chunkIndex, msg`plaintextRead, msg`todo, msg`emitted, msg`taken,
             msg.inner
    ensures msg.Valid() && msg.Lazy() && msg.emitted == old(msg.emitted) + Flatten(chunks)
    ensures !msg.inner.rewinds ==>
              old(msg.todo) == Flatten(chunks) + msg.todo && |Flatten(chunks)| == Min(Sum(lengths), |old(msg.todo)|)
    ensures old(Follows(msg, before)) ==> Follows(msg, before + [lengths])
  {
    hide EncryptFrom, FileBytes, CiphertextSize, EncryptingFileMessage.Placed, Uploaded, RestOf, Take, Cuts;
    ghost var follows := Follows(msg, before);
    OpenPart(msg, before, lengths);
    if follows {
      FileLength(msg);
      AskedNext(before, lengths);
    }
    chunks := ReadPart(msg, lengths);
  }

  /** An upload by any schedule of parts and read lengths. Over a message that does not rewind it
      emits one and the same file, whatever the schedule. Over one that does, it emits the
      encryption of the plaintext started again at every part. */
  method Drain(msg: EncryptingFileMessage, parts: seq<seq<nat>>) returns (chunks: seq<bytes>)
    requires msg.Valid() && msg.Lazy()
    modifies msg`pending, msg`headerEmitted, msg`chunkIndex, msg`plaintextRead, msg`todo, msg`emitted, msg`taken,
             msg.inner
    ensures msg.Valid() && msg.Lazy()
    ensures !msg.inner.rewinds ==>
              old(msg.todo) == Flatten(chunks) + msg.todo && |Flatten(chunks)| == Min(Asked(parts), |old(msg.todo)|)
    ensures !old(msg.headerEmitted) && |msg.inner.content| >= msg.inner.declared ==>
              var p := Take(msg.inner.content, msg.inner.declared);
              && |Flatten(chunks)| == Min(Asked(parts), FileSize(|p|, msg.cipher.chunkSize))
              && Flatten(chunks) + msg.todo
                 == FileBytes(msg.cipher, msg.headerBytes, Uploaded(p, msg.inner.rewinds, msg.cipher.chunkSize, parts))
  {
    hide EncryptFrom, FileBytes, CiphertextSize, EncryptingFileMessage.Placed, RestOf, Uploaded, Follows, Asked,
      Flatten, Sum;
    FlattenNone<byte>();
    AskedNone();
    chunks := [];
    ghost var whole := !msg.headerEmitted && |msg.inner.content| >= msg.inner.declared;
    if whole {
      Untouched(msg);
    }
    for i := 0 to |parts|
      invariant msg.Valid() && msg.Lazy() && msg.emitted == old(msg.emitted) + Flatten(chunks)
      invariant !msg.inner.rewinds ==>
                  old(msg.todo) == Flatten(chunks) + msg.todo
                  && |Flatten(chunks)| == Min(Asked(parts[..i]), |old(msg.todo)|)
      invariant whole ==> Follows(msg, parts[..i])
    {
      ghost var done, todo := Flatten(chunks), msg.todo;
      var more := SendPart(msg, parts[..i], parts[i]);
      FlattenConcat(chunks, more);
      assert parts[..i + 1] == parts[..i] + [parts[i]];
      AskedNext(parts[..i], parts[i]);
      if !msg.inner.rewinds {
        DrainStep(old(msg.todo), done, todo, Flatten(more), msg.todo, Asked(parts[..i]), Sum(parts[i]));
      }
      Associate(old(msg.emitted), done, Flatten(more));
      chunks := chunks + more;
    }
    assert parts[..|parts|] == parts;
    if whole {
      WholeFile(msg);
      Followed(msg, parts);
    }
  }

  lemma SumNone()
    ensures Sum([]) == 0
  {
  }

  lemma AskedNone()
    ensures Asked([]) == 0
  {
  }

  lemma AskedNext(before: seq<seq<nat>>, next: seq<nat>)
    ensures Asked(before + [next]) == Asked(before) + Sum(next)
  {
    assert (before + [next])[..|before|] == before;
  }

  lemma WholeFile(m: EncryptingFileMessage)
    requires m.Valid() && |m.inner.content| >= m.inner.declared
    ensures m.emitted + m.todo == FileBytes(m.cipher, m.headerBytes, m.taken + m.Rest())
  {
  }

  lemma Followed(m: EncryptingFileMessage, parts: seq<seq<nat>>)
    requires m.Valid() && Follows(m, parts)
    ensures var p, c := Take(m.inner.content, m.inner.declared), m.cipher.chunkSize;
      |m.emitted| == Min(Asked(parts), FileSize(|p|, c)) && m.taken + m.Rest() == Uploaded(p, m.inner.rewinds, c, parts)
  {
  }

  // -- exactly which schedules are safe ---------------------------------------------------------------

  /** The emitted bytes at which each part is opened. */
  function OpenedAt(n: nat, chunkSize: nat, parts: seq<seq<nat>>, i: nat): nat
    requires chunkSize > 0 && i <= |parts|
  {
    Min(Asked(parts[..i]), FileSize(n, chunkSize))
  }

  /** Once `e` bytes have gone out, nothing of the plaintext has been read or all of it: no byte beyond
      the header is out, or one of the last chunk is. */
  predicate Clear(n: nat, chunkSize: nat, e: nat)
    requires chunkSize > 0
  {
    e <= HEADER_SIZE || n <= Mul(CeilDiv(e - HEADER_SIZE, chunkSize + CHUNK_OVERHEAD), chunkSize)
  }

  /** No part is opened in the middle of the plaintext. */
  predicate SafeSchedule(n: nat, chunkSize: nat, parts: seq<seq<nat>>)
    requires chunkSize > 0
  {
    forall i :: 0 <= i < |parts| ==> Clear(n, chunkSize, OpenedAt(n, chunkSize, parts, i))
  }

  lemma {:induction false} CutsAt(n: nat, chunkSize: nat, parts: seq<seq<nat>>, i: nat)
    requires chunkSize > 0 && i < |parts|
    ensures Cuts(n, chunkSize, parts)[i] == ReadAhead(OpenedAt(n, chunkSize, parts, i), n, chunkSize)
  {
    hide ReadAhead, FileSize;
    var k := |parts| - 1;
    if i < k {
      CutsAt(n, chunkSize, parts[..k], i);
      assert parts[..k][..i] == parts[..i];
    }
  }

  lemma {:induction false} AskedMono(parts: seq<seq<nat>>, i: nat, j: nat)
    requires i <= j <= |parts|
    ensures Asked(parts[..i]) <= Asked(parts[..j])
  {
    if i < j {
      AskedMono(parts, i, j - 1);
      assert parts[..j] == parts[..j - 1] + [parts[j - 1]];
      AskedNext(parts[..j - 1], parts[j - 1]);
    }
  }

  lemma ReadAheadMono(d: nat, e: nat, n: nat, chunkSize: nat)
    requires chunkSize > 0 && d <= e
    ensures ReadAhead(d, n, chunkSize) <= ReadAhead(e, n, chunkSize)
  {
    if d > HEADER_SIZE {
      var stride := chunkSize + CHUNK_OVERHEAD;
      DivMono(d - HEADER_SIZE + stride - 1, e - HEADER_SIZE + stride - 1, stride);
      MulMono(CeilDiv(d - HEADER_SIZE, stride), CeilDiv(e - HEADER_SIZE, stride), chunkSize);
    }
  }

  lemma CutsRise(n: nat, chunkSize: nat, parts: seq<seq<nat>>, i: nat, j: nat)
    requires chunkSize > 0 && i <= j < |parts|
    ensures Cuts(n, chunkSize, parts)[i] <= Cuts(n, chunkSize, parts)[j]
  {
    hide ReadAhead, FileSize, Cuts;
    CutsAt(n, chunkSize, parts, i);
    CutsAt(n, chunkSize, parts, j);
    AskedMono(parts, i, j);
    ReadAheadMono(OpenedAt(n, chunkSize, parts, i), OpenedAt(n, chunkSize, parts, j), n, chunkSize);
  }

  /** Started again only at its beginning or its end, a plaintext stays what it is. */
  lemma {:induction false} SplicedSame(p: bytes, cuts: seq<nat>)
    requires forall i :: 0 <= i < |cuts| ==> cuts[i] == 0 || cuts[i] == |p|
    ensures Spliced(p, cuts) == p
  {
    if |cuts| > 0 {
      SplicedSame(p, cuts[..|cuts| - 1]);
    }
  }

  /** Started again in between, it has its first byte where another belongs. */
  lemma {:induction false} SplicedWrong(p: bytes, cuts: seq<nat>, i: nat)
    requires (forall k :: 0 <= k < |cuts| ==> cuts[k] <= |p|) && i < |cuts| && cuts[i] < |p|
    requires forall k :: i <= k < |cuts| ==> cuts[i] <= cuts[k]
    ensures Spliced(p, cuts)[cuts[i]] == p[0]
  {
    var n := |cuts| - 1;
    if i < n && cuts[i] < cuts[n] {
      SplicedWrong(p, cuts[..n], i);
    }
  }

  lemma {:induction false} SealedOnce(c: ChunkCipher, p: bytes, q: bytes, index: nat)
    requires c.Valid() && |p| == |q| && index + |p| <= INDEX_LIMIT
    requires EncryptFrom(c, p, index) == EncryptFrom(c, q, index)
    ensures p == q
    decreases |p|
  {
    if |p| > 0 {
      var k := Min(c.chunkSize, |p|);
      var a, b := c.Encrypt(p[..k], index), c.Encrypt(q[..k], index);
      DecryptIffEncrypt(c, a, index, p[..k]);
      DecryptIffEncrypt(c, b, index, q[..k]);
      var e, f := EncryptFrom(c, p[k..], index + 1), EncryptFrom(c, q[k..], index + 1);
      assert a == (a + e)[..|a|] && b == (b + f)[..|a|];
      assert e == (a + e)[|a|..] && f == (b + f)[|a|..];
      SealedOnce(c, p[k..], q[k..], index + 1);
      assert p == p[..k] + p[k..] && q == q[..k] + q[k..];
    }
  }

  /** A safe upload seals the plaintext as it is. */
  lemma SafeUpload(p: bytes, rewinds: bool, chunkSize: nat, parts: seq<seq<nat>>)
    requires chunkSize > 0 && (!rewinds || SafeSchedule(|p|, chunkSize, parts))
    ensures Uploaded(p, rewinds, chunkSize, parts) == p
  {
    hide Spliced, FileSize, OpenedAt;
    if rewinds {
      var cuts := Cuts(|p|, chunkSize, parts);
      forall i | 0 <= i < |cuts|
        ensures cuts[i] == 0 || cuts[i] == |p|
      {
        CutsAt(|p|, chunkSize, parts, i);
      }
      SplicedSame(p, cuts);
    }
  }

  /** Over a message that rewinds, an upload is right for every plaintext of its size if and only if
      no part is opened in the middle of it. */
  lemma ReopenIff(c: ChunkCipher, header: bytes, n: nat, parts: seq<seq<nat>>)
    requires c.Valid() && n <= INDEX_LIMIT
    ensures (forall p :: |p| == n ==>
               FileBytes(c, header, Uploaded(p, true, c.chunkSize, parts)) == FileBytes(c, header, p))
       <==> SafeSchedule(n, c.chunkSize, parts)
  {
    hide EncryptFrom, Uploaded, FileSize, OpenedAt, Clear;
    if SafeSchedule(n, c.chunkSize, parts) {
      forall p: bytes | |p| == n
        ensures Uploaded(p, true, c.chunkSize, parts) == p
      {
        SafeUpload(p, true, c.chunkSize, parts);
      }
    } else {
      var i :| 0 <= i < |parts| && !Clear(n, c.chunkSize, OpenedAt(n, c.chunkSize, parts, i));
      var p := Marked(n, c, parts, i);
    }
  }

  lemma UnclearCut(n: nat, c: nat, e: nat)
    requires c > 0 && !Clear(n, c, e)
    ensures 0 < ReadAhead(e, n, c) < n
  {
    hide CeilDiv;
    CeilDivBounds(e - HEADER_SIZE, c + CHUNK_OVERHEAD);
    MulGe(CeilDiv(e - HEADER_SIZE, c + CHUNK_OVERHEAD), c);
  }

  /** A plaintext such an upload spoils: one whose byte at the cut is not its first. */
  lemma Marked(n: nat, c: ChunkCipher, parts: seq<seq<nat>>, i: nat) returns (p: bytes)
    requires c.Valid() && n <= INDEX_LIMIT && i < |parts| && !Clear(n, c.chunkSize, OpenedAt(n, c.chunkSize, parts, i))
    ensures |p| == n
    ensures forall header :: FileBytes(c, header, Uploaded(p, true, c.chunkSize, parts)) != FileBytes(c, header, p)
  {
    hide EncryptFrom, Spliced, Clear, OpenedAt, ReadAhead, Cuts;
    CutsAt(n, c.chunkSize, parts, i);
    UnclearCut(n, c.chunkSize, OpenedAt(n, c.chunkSize, parts, i));
    var cuts := Cuts(n, c.chunkSize, parts);
    var r := cuts[i];
    p := seq(n, x => if x == r then 1 else 0);
    forall k | i <= k < |cuts|
      ensures r <= cuts[k]
    {
      CutsRise(n, c.chunkSize, parts, i, k);
    }
    SplicedWrong(p, cuts, i);
    var up := Uploaded(p, true, c.chunkSize, parts);
    assert up[r] == 0 && p[r] == 1;
    forall header: bytes
      ensures FileBytes(c, header, up) != FileBytes(c, header, p)
    {
      if FileBytes(c, header, up) == FileBytes(c, header, p) {
        SameTail(header, EncryptFrom(c, up, 0), EncryptFrom(c, p, 0));
        SealedOnce(c, up, p, 0);
      }
    }
  }

  lemma SameTail(a: bytes, y: bytes, z: bytes)
    requires a + y == a + z
    ensures y == z
  {
    assert y == (a + y)[|a|..] && z == (a + z)[|a|..];
  }

  // -- the schedule the store makes -------------------------------------------------------------------

  const PART_SIZE_DEFAULT: nat := 512 * 1024 * 4000
  const DEFAULT_CHUNK_SIZE: nat := 64 * 1024

  /** The schedule reads the parts `_partition` cuts `total` bytes into, in any reads. */
  predicate Partitioned(total: nat, part: nat, parts: seq<seq<nat>>)
    requires part > 0
  {
    && |parts| == |Partition(total, part)|
    && forall i :: 0 <= i < |parts| ==> Sum(parts[i]) == Partition(total, part)[i]
  }

  lemma {:induction false} AskedIsOffset(total: nat, part: nat, parts: seq<seq<nat>>, i: nat)
    requires part > 0 && Partitioned(total, part, parts) && i <= |parts|
    ensures Asked(parts[..i]) == PartOffset(Partition(total, part), i)
  {
    if i > 0 {
      hide Partition;
      AskedIsOffset(total, part, parts, i - 1);
      assert parts[..i] == parts[..i - 1] + [parts[i - 1]];
      AskedNext(parts[..i - 1], parts[i - 1]);
    }
  }

  /** Part `i` is opened when the parts before it, full ones, have gone out. */
  lemma PartOpenedAt(n: nat, c: nat, part: nat, parts: seq<seq<nat>>, i: nat)
    requires c > 0 && part > 0 && Partitioned(FileSize(n, c), part, parts) && i < |parts|
    ensures |parts| == Count(FileSize(n, c), part)
    ensures OpenedAt(n, c, parts, i) == Start(FileSize(n, c), part, i)
  {
    hide Partition, PartOffset, Asked, Start, CiphertextSize;
    AskedIsOffset(FileSize(n, c), part, parts, i);
    var s := seq<byte>(FileSize(n, c), _ => 0);
    OffsetIsStart(s, part, 0);
    OffsetIsStart(s, part, i);
  }

  /** The chunk a byte of the encrypted file lies in begins where the chunks before it end. */
  lemma WithinChunks(n: nat, c: nat, k: nat)
    requires c > 0 && CiphertextSize(n, c) <= Mul(k, c + CHUNK_OVERHEAD)
    ensures n <= Mul(k, c)
  {
    hide CiphertextSize;
    if n > 0 {
      var j := CeilDiv(n, c);
      CeilDivBounds(n, c);
      SizeOfChunks(n, j, c);
      if k < j {
        MulMono(k, j - 1, c + CHUNK_OVERHEAD);
      }
      MulMono(j, Max(j, k), c);
    }
  }

  /** After a whole first part, or at the end of a shorter file, the last chunk has been begun if the first
      part reaches it. */
  lemma LaterClear(n: nat, c: nat, part: nat, i: nat)
    requires c > 0 && part > HEADER_SIZE && n <= Mul(CeilDiv(part - HEADER_SIZE, c + CHUNK_OVERHEAD), c)
    requires Start(FileSize(n, c), part, i) == 0 || part <= Start(FileSize(n, c), part, i)
    ensures Clear(n, c, Start(FileSize(n, c), part, i))
  {
    hide CiphertextSize, FileSize, Start;
    var e, stride := Start(FileSize(n, c), part, i), c + CHUNK_OVERHEAD;
    if e > 0 {
      DivMono(part - HEADER_SIZE + stride - 1, e - HEADER_SIZE + stride - 1, stride);
      MulMono(CeilDiv(part - HEADER_SIZE, stride), CeilDiv(e - HEADER_SIZE, stride), c);
    }
  }

  lemma StartsWhole(total: nat, part: nat, i: nat)
    requires part > 0 && i < Count(total, part)
    ensures if i == 0 then Start(total, part, i) == 0 else part <= Start(total, part, i)
    ensures i == 1 ==> Start(total, part, i) == part
  {
    hide CeilDiv;
    CeilDivBounds(total, part);
    if i > 0 {
      assert Mul(1, part) == part;
      MulMono(1, i, part);
      MulMono(i, CeilDiv(total, part) - 1, part);
    }
  }

  /** A plaintext that does not end in the chunks begun within the first part takes a second one. */
  lemma SecondPart(n: nat, c: nat, part: nat)
    requires c > 0 && part > HEADER_SIZE && n > Mul(CeilDiv(part - HEADER_SIZE, c + CHUNK_OVERHEAD), c)
    ensures Count(FileSize(n, c), part) > 1
  {
    hide CeilDiv, CiphertextSize;
    var k := CeilDiv(part - HEADER_SIZE, c + CHUNK_OVERHEAD);
    CeilDivBounds(part - HEADER_SIZE, c + CHUNK_OVERHEAD);
    if CiphertextSize(n, c) <= part - HEADER_SIZE {
      WithinChunks(n, c, k);
    }
    CeilDivBounds(FileSize(n, c), part);
    assert Mul(1, part) == part && Mul(0, part) == 0;
  }

  /** Over a message that rewinds, an upload in the store's parts is safe if and only if the last chunk
      has been begun within the first part. */
  lemma PartitionSafeIff(n: nat, c: nat, part: nat, parts: seq<seq<nat>>)
    requires c > 0 && part > HEADER_SIZE && Partitioned(FileSize(n, c), part, parts)
    ensures SafeSchedule(n, c, parts) <==> n <= Mul(CeilDiv(part - HEADER_SIZE, c + CHUNK_OVERHEAD), c)
  {
    hide FileSize, Partition, OpenedAt, Partitioned, CeilDiv, Clear, Start, Count, Mul;
    if n <= Mul(CeilDiv(part - HEADER_SIZE, c + CHUNK_OVERHEAD), c) {
      forall i | 0 <= i < |parts|
        ensures Clear(n, c, OpenedAt(n, c, parts, i))
      {
        PartOpenedAt(n, c, part, parts, i);
        StartsWhole(FileSize(n, c), part, i);
        LaterClear(n, c, part, i);
      }
    } else {
      SecondPartUnclear(n, c, part, parts);
    }
  }

  lemma SecondPartUnclear(n: nat, c: nat, part: nat, parts: seq<seq<nat>>)
    requires c > 0 && part > HEADER_SIZE && Partitioned(FileSize(n, c), part, parts)
    requires n > Mul(CeilDiv(part - HEADER_SIZE, c + CHUNK_OVERHEAD), c)
    ensures |parts| > 1 && !Clear(n, c, OpenedAt(n, c, parts, 1))
  {
    hide CiphertextSize, Partition, OpenedAt, CeilDiv, Start, Mul;
    SecondPart(n, c, part);
    OffsetIsStart(seq<byte>(FileSize(n, c), _ => 0), part, 0);
    PartOpenedAt(n, c, part, parts, 1);
    StartsWhole(FileSize(n, c), part, 1);
  }

  /** With the store's own part size and the default chunk size, any upload of more than 31987 chunks
      from a message that rewinds spoils some plaintext: a buffer of 2 GiB, say. */
  lemma RewindRepeats(c: ChunkCipher, n: nat, parts: seq<seq<nat>>) returns (p: bytes)
    requires c.Valid() && c.chunkSize == DEFAULT_CHUNK_SIZE && 31987 * DEFAULT_CHUNK_SIZE < n <= INDEX_LIMIT
    requires Partitioned(FileSize(n, DEFAULT_CHUNK_SIZE), PART_SIZE_DEFAULT, parts)
    ensures |p| == n && 31987 * DEFAULT_CHUNK_SIZE < 0x8000_0000
    ensures forall header :: FileBytes(c, header, Uploaded(p, true, c.chunkSize, parts)) != FileBytes(c, header, p)
  {
    hide FileSize, Partitioned, OpenedAt, Clear, Uploaded, FileBytes, Mul;
    var chunks := CeilDiv(PART_SIZE_DEFAULT - HEADER_SIZE, DEFAULT_CHUNK_SIZE + CHUNK_OVERHEAD);
    MulIsProduct(chunks, c.chunkSize);
    SecondPartUnclear(n, c.chunkSize, PART_SIZE_DEFAULT, parts);
    p := Marked(n, c, parts, 1);
  }
}
