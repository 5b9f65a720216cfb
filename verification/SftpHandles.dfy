/** The SFTP handles (`app/sftp/handles.py`): random-access reads over a one-shot download stream,
    and a spool that takes writes in any order until the file is closed. */
module SftpHandles {
  import opened Bytes

  const SEEK_FORWARD_THRESHOLD := 1024 * 1024
  const SPOOL_READ_CHUNK: nat := 1024 * 1024

  /** An open download: the chunks still to come, and whether it then raises instead of ending. */
  datatype Stream = Stream(rest: seq<bytes>, fails: bool)

  ghost predicate NoEmpty(chunks: seq<bytes>) { forall i :: 0 <= i < |chunks| ==> chunks[i] != [] }

  /** A download from `offset` on carries the rest of the file; one that fails, a prefix of it. */
  ghost predicate Carries(content: bytes, offset: nat, s: Stream) {
    && offset <= |content| && NoEmpty(s.rest)
    && Flatten(s.rest) <= content[offset..]
    && (!s.fails ==> Flatten(s.rest) == content[offset..])
  }

  /** Taking `n` bytes off the front of what lies at `pos`. */
  lemma FrontOfRest(w: bytes, pos: nat, buffer: bytes, more: bytes, n: nat)
    requires pos <= |w| && buffer + more <= w[pos..] && n <= |buffer|
    ensures pos + n <= |w| && buffer[..n] == w[pos..pos + n] && buffer[n..] + more <= w[pos + n..]
  {
    var whole, rest := buffer + more, w[pos..];
    assert forall k :: 0 <= k < |whole| ==> whole[k] == rest[k] == w[pos + k];
    assert forall k :: 0 <= k < |buffer| ==> buffer[k] == whole[k];
    assert forall k :: 0 <= k < |more| ==> more[k] == whole[|buffer| + k];
    var tail, after := buffer[n..] + more, w[pos + n..];
    assert forall k :: 0 <= k < |tail| ==> tail[k] == after[k];
  }

  class ReadHandle {
    const size: nat
    var stream: Option<Stream>
    var pos: nat
    var buffer: bytes
    ghost const content: bytes
    /** The open stream has raised; what it still had to deliver is lost. */
    ghost var broken: bool

    /** How far into the file reads can get without opening another stream. */
    ghost function Reach(): nat
      reads this
    {
      pos + |buffer| + (if stream.Some? then |Flatten(stream.value.rest)| else 0)
    }

    ghost predicate Valid()
      reads this
    {
      && size == |content|
      && (stream.None? ==> buffer == [])
      && (stream.Some? ==>
            && pos <= |content| && NoEmpty(stream.value.rest)
            && buffer + Flatten(stream.value.rest) <= content[pos..]
            && (!broken && !stream.value.fails ==> Reach() == |content|)
            && (broken ==> stream.value == Stream([], false)))
    }

    constructor (n: nat, ghost file: bytes)
      requires n == |file|
      ensures Valid() && content == file && stream.None?
    {
      size, content := n, file;
      stream, pos, buffer, broken := None, 0, [], false;
    }

    method Reopen(offset: nat, answer: Result<Stream>) returns (ok: bool)
      requires Valid() && (answer.Ok? ==> Carries(content, offset, answer.value))
      modifies this
      ensures Valid() && ok == answer.Ok? && pos == offset && buffer == []
      ensures ok ==> stream == Some(answer.value) && !broken
      ensures !ok ==> stream.None?
    {
      stream := None;
      buffer := [];
      pos := offset;
      broken := false;
      if answer.Err? {
        return false;
      }
      stream := Some(answer.value);
      return true;
    }

    method NextChunk() returns (chunk: Result<bytes>)
      requires Valid() && stream.Some?
      modifies this`stream, this`broken
      ensures stream.Some?
      ensures chunk.Ok? ==> broken == old(broken) && stream.value.fails == old(stream.value.fails)
      ensures chunk.Ok? && chunk.value != [] ==>
                Flatten(old(stream.value.rest)) == chunk.value + Flatten(stream.value.rest)
                    && NoEmpty(stream.value.rest)
      ensures chunk.Ok? && chunk.value == [] ==> stream == old(stream) && stream.value.rest == [] && !stream.value.fails
      ensures chunk.Ok? ==> |stream.value.rest| == |old(stream.value.rest)| - (if chunk.value != [] then 1 else 0)
      ensures chunk.Err? ==> old(stream.value) == Stream([], true) && stream.value == Stream([], false) && broken
    {
      var s := stream.value;
      if s.rest == [] {
        if s.fails {
          stream := Some(Stream([], false));
          broken := true;
          return Err;
        }
        return Ok([]);
      }
      assert s.rest[0..] == s.rest;
      FlattenDrop(s.rest, 0);
      stream := Some(s.(rest := s.rest[1..]));
      return Ok(s.rest[0]);
    }

    /** The next `count` bytes at the current position, or what is left of them. */
    method Consume(count: nat) returns (data: Result<bytes>)
      requires Valid() && stream.Some?
      modifies this
      ensures Valid() && stream.Some?
      ensures data.Ok? ==>
                && |data.value| <= count && pos == old(pos) + |data.value| <= |content|
                && data.value == content[old(pos)..pos] && broken == old(broken)
                && (!broken ==> |data.value| == Min(count, |content| - old(pos)))
                && |data.value| == Min(count, old(Reach()) - old(pos))
      ensures data.Err? ==> pos == old(pos) && broken
      ensures data.Err? <==> old(stream.value.fails) && old(Reach()) - old(pos) < count
      ensures Reach() == old(Reach()) <= |content|
      ensures stream.value.fails == (old(stream.value.fails) && data.Ok?)
    {
      var ok := FillBuffer(count);
      if !ok {
        return Err;
      }
      var piece := TakeFront(if count <= |buffer| then count else |buffer|);
      return Ok(piece);
    }

    /** Chunks are added to the buffer until it holds `count` bytes or the stream has ended. */
    method FillBuffer(count: nat) returns (ok: bool)
      requires Valid() && stream.Some?
      modifies this`buffer, this`stream, this`broken
      ensures Valid() && stream.Some? && Reach() == old(Reach())
      ensures ok ==> broken == old(broken) && stream.value.fails == old(stream.value.fails)
      ensures ok ==> |buffer| >= count || (Reach() == pos + |buffer| && !stream.value.fails)
      ensures !ok ==> broken && !stream.value.fails && old(stream.value.fails) && Reach() - pos < count
    {
      hide Flatten;
      FlattenNone<byte>();
      while |buffer| < count
        invariant Valid() && stream.Some? && broken == old(broken)
        invariant Reach() == old(Reach()) && stream.value.fails == old(stream.value.fails)
        decreases |stream.value.rest|, |buffer| < count
      {
        ghost var was := buffer;
        var chunk := NextChunk();
        if chunk.Err? {
          return false;
        }
        if chunk.value == [] {
          break;
        }
        Associate(was, chunk.value, Flatten(stream.value.rest));
        buffer := buffer + chunk.value;
      }
      return true;
    }

    /** The first `n` bytes of the buffer leave it. */
    method TakeFront(n: nat) returns (piece: bytes)
      requires Valid() && stream.Some? && n <= |buffer|
      modifies this`buffer, this`pos
      ensures Valid() && Reach() == old(Reach())
      ensures pos == old(pos) + n <= |content| && piece == content[old(pos)..pos] && |piece| == n
    {
      hide Flatten;
      piece := buffer[..n];
      FrontOfRest(content, pos, buffer, Flatten(stream.value.rest), n);
      buffer := buffer[n..];
      pos := pos + n;
    }

    /** A read at `offset` goes on with the open stream: it lies ahead, and not too far. */
    ghost predicate Stays(offset: nat)
      reads this
    {
      stream.Some? && pos <= offset <= pos + SEEK_FORWARD_THRESHOLD
    }

    /** Brings the handle to `offset`: reading on over a short gap, or with another stream. Staying, it
        fails, or ends early, exactly when what the stream still carries ends before `offset`. */
    method Position(offset: nat, answer: Result<Stream>) returns (there: Result<bool>)
      requires Valid() && offset < size && (answer.Ok? ==> Carries(content, offset, answer.value))
      modifies this
      ensures Valid()
      ensures there == Ok(true) ==> stream.Some? && pos == offset
      ensures old(Stays(offset)) ==>
                && stream.Some? && Reach() == old(Reach()) && old(pos) <= pos <= offset
                && (there.Err? <==> old(stream.value.fails) && Reach() < offset)
                && (there == Ok(false) <==> !old(stream.value.fails) && Reach() < offset)
                && (there == Ok(false) ==> pos == Reach())
                && stream.value.fails == (old(stream.value.fails) && there.Ok?)
      ensures !old(Stays(offset)) ==>
                && (there == if answer.Err? then Err else Ok(true))
                && (answer.Err? ==> stream.None?)
                && (answer.Ok? ==> stream == Some(answer.value) && buffer == [] && !broken)
    {
      hide Flatten, NoEmpty, Carries;
      if stream.None? || offset < pos {
        var ok := Reopen(offset, answer);
        return if ok then Ok(true) else Err;
      } else if offset > pos {
        var gap := offset - pos;
        if gap > SEEK_FORWARD_THRESHOLD {
          var ok := Reopen(offset, answer);
          return if ok then Ok(true) else Err;
        }
        var skipped := Consume(gap);
        if skipped.Err? {
          return Err;
        }
        if |skipped.value| < gap {
          return Ok(false);
        }
      }
      return Ok(true);
    }

    /** A read that goes on with the open stream fails exactly when that stream fails before the bytes
        are there, and returns exactly the bytes of the file if and only if the stream still
        carries them: short of that it reports the end of the file where the stream broke. A read
        that opens another stream fails exactly when the opening does, or the new stream before
        the bytes are there, and is otherwise exact. */
    method Read(offset: nat, count: int, answer: Result<Stream>) returns (data: Result<bytes>)
      requires Valid() && (offset <= size && answer.Ok? ==> Carries(content, offset, answer.value))
      modifies this
      ensures Valid()
      ensures count <= 0 || offset >= size ==>
                data == Ok([]) && stream == old(stream) && pos == old(pos) && buffer == old(buffer)
                    && broken == old(broken)
      ensures count > 0 && offset < size && old(Stays(offset)) ==>
                && (data.Err? <==> old(stream.value.fails) && old(Reach()) < offset + count)
                && (data.Ok? ==>
                      && data.value == Range(content, offset, Min(offset + count, old(Reach())) - 1)
                      && (data.value == Range(content, offset, offset + count - 1)
                          <==> Min(offset + count, size) <= old(Reach()))
                      && pos == Min(offset + count, Reach()))
                && stream.Some? && Reach() == old(Reach()) && old(pos) <= pos
                && (data.Err? ==> pos <= offset)
                && stream.value.fails == (old(stream.value.fails) && data.Ok?)
      ensures count > 0 && offset < size && !old(Stays(offset)) ==>
                && (data.Err? <==> answer.Err? || (answer.value.fails && |Flatten(answer.value.rest)| < count))
                && (data.Ok? ==> data.value == Range(content, offset, offset + count - 1))
                && (data.Ok? ==> pos == Min(offset + count, Reach()))
                && (answer.Ok? ==>
                      && stream.Some? && Reach() == offset + |Flatten(answer.value.rest)|
                      && stream.value.fails == (answer.value.fails && data.Ok?) && (data.Err? ==> pos == offset))
      ensures data.Ok? && !broken ==> data.value == Range(content, offset, offset + count - 1)
      ensures data.Ok? ==> data.value <= Range(content, offset, offset + count - 1)
    {
      hide Flatten, NoEmpty, Carries;
      if count <= 0 || offset >= size {
        return Ok([]);
      }
      var there := Position(offset, answer);
      if there.Err? {
        return Err;
      }
      if !there.value {
        return Ok([]);
      }
      data := Consume(count);
    }

    method Close()
      requires Valid()
      modifies this`stream, this`buffer
      ensures Valid() && stream.None?
    {
      stream := None;
      buffer := [];
    }
  }

  datatype Ask = Ask(offset: nat, count: int)

  /** Any sequence of reads at any offsets, over streams that do not fail: each returns
      `content[offset..min(offset + count, n))`. */
  method ReadMany(handle: ReadHandle, asks: seq<Ask>, answers: nat -> Stream) returns (got: seq<bytes>)
    requires handle.Valid() && !handle.broken && (handle.stream.Some? ==> !handle.stream.value.fails)
    requires forall i :: 0 <= i < |asks| && asks[i].offset <= handle.size ==>
               Carries(handle.content, asks[i].offset, answers(i)) && !answers(i).fails
    modifies handle
    ensures |got| == |asks|
    ensures forall i :: 0 <= i < |asks| ==>
              got[i] == Range(handle.content, asks[i].offset, asks[i].offset + asks[i].count - 1)
  {
    hide Flatten, NoEmpty;
    got := [];
    for i := 0 to |asks|
      invariant handle.Valid() && (handle.stream.Some? ==> !handle.stream.value.fails && handle.Reach() == handle.size)
      invariant |got| == i
      invariant forall j :: 0 <= j < i ==>
                  got[j] == Range(handle.content, asks[j].offset, asks[j].offset + asks[j].count - 1)
    {
      var data := handle.Read(asks[i].offset, asks[i].count, Ok(answers(i)));
      got := got + [data.value];
    }
  }

  /** A stream that raises after its first byte: the read after it fails, and the same read repeated
      reports the end of the file where the stream broke. */
  method ShortAfterError()
    returns (handle: ReadHandle, first: Result<bytes>, second: Result<bytes>, third: Result<bytes>)
    ensures handle.content == [7, 8] && first == Ok([7]) && second == Err && third == Ok([])
  {
    hide NoEmpty, Flatten;
    handle := new ReadHandle(2, [7, 8]);
    OneChunk();
    first := handle.Read(0, 1, Ok(Stream([[7]], true)));
    assert first.value == handle.content[0..1] == [7];
    second := handle.Read(1, 1, Err);
    third := handle.Read(1, 1, Err);
  }

  lemma OneChunk()
    ensures Flatten([[7 as byte]]) == [7] && NoEmpty([[7]]) && [7 as byte] <= [7, 8]
  {
    FlattenAppend([], [7 as byte]);
    assert [] + [[7 as byte]] == [[7]];
  }

  // -- writing --------------------------------------------------------------------------------------

  datatype Write = At(offset: nat, data: bytes)

  /** The file a sequence of writes leaves: each laid over the ones before it, gaps zero. */
  function Written(ws: seq<Write>): bytes {
    if |ws| == 0 then []
    else Overlay(Written(ws[..|ws| - 1]), ws[|ws| - 1].offset, ws[|ws| - 1].data)
  }

  /** The size the handle announces for them. */
  function Announced(ws: seq<Write>): nat {
    if |ws| == 0 then 0
    else Max(Announced(ws[..|ws| - 1]), ws[|ws| - 1].offset + |ws[|ws| - 1].data|)
  }

  predicate Covers(w: Write, x: nat) { w.offset <= x < w.offset + |w.data| }

  /** Byte `x` of the result is that of the last write that covers it, zero if none does, and the
      file ends with the furthest byte written. */
  lemma {:induction false} LastWriteWins(ws: seq<Write>, x: nat) returns (i: int)
    ensures -1 <= i < |ws| && (i >= 0 ==> Covers(ws[i], x))
    ensures forall j :: i < j < |ws| ==> !Covers(ws[j], x)
    ensures x < |Written(ws)| ==> Written(ws)[x] == if i >= 0 then ws[i].data[x - ws[i].offset] else 0
    ensures x < |Written(ws)| <==> exists j :: 0 <= j < |ws| && ws[j].data != [] && x < ws[j].offset + |ws[j].data|
  {
    i := -1;
    if |ws| > 0 {
      var n := |ws| - 1;
      var init := ws[..n];
      i := LastWriteWins(init, x);
      if Covers(ws[n], x) {
        i := n;
      }
      if x < |Written(init)| {
        var j :| 0 <= j < |init| && init[j].data != [] && x < init[j].offset + |init[j].data|;
        assert ws[j] == init[j];
      }
      if j :| 0 <= j < |ws| && ws[j].data != [] && x < ws[j].offset + |ws[j].data| {
        assert j < n ==> init[j] == ws[j];
      }
    }
  }

  /** The announced size is the number of bytes that follow, exactly when no empty write lies beyond
      the end of the file. */
  lemma {:induction false} AnnouncedIff(ws: seq<Write>, n: nat)
    requires n >= |Written(ws)|
    ensures Announced(ws) >= |Written(ws)|
    ensures Announced(ws) <= n <==> forall i :: 0 <= i < |ws| && ws[i].data == [] ==> ws[i].offset <= n
  {
    if |ws| > 0 {
      var k := |ws| - 1;
      var init := ws[..k];
      AnnouncedIff(init, n);
      assert forall i :: 0 <= i < k ==> init[i] == ws[i];
      assert (forall i :: 0 <= i < |ws| && ws[i].data == [] ==> ws[i].offset <= n)
        <==> && (forall i :: 0 <= i < k && init[i].data == [] ==> init[i].offset <= n)
             && (ws[k].data == [] ==> ws[k].offset <= n);
    }
  }

  /** One empty write at offset 5 announces five bytes, and none follow. */
  lemma EmptyWriteAnnounced()
    ensures Announced([At(5, [])]) == 5 && Written([At(5, [])]) == []
  {
    assert [At(5, [])][..0] == [];
  }

  /** What `close` hands to the upload: the announced size and the bytes of the stream. */
  datatype Commit = Commit(size: nat, content: bytes)

  class WriteHandle {
    var spool: bytes
    var size: nat
    var dirty: bool
    var closed: bool
    ghost var writes: seq<Write>

    ghost predicate Valid()
      reads this
    {
      spool == Written(writes) && size == Announced(writes) && (dirty <==> writes != [])
    }

    constructor ()
      ensures Valid() && writes == [] && !closed
    {
      spool, size, dirty, closed, writes := [], 0, false, false, [];
    }

    method Write(offset: nat, data: bytes) returns (ok: bool)
      requires Valid()
      modifies this`spool, this`size, this`dirty, this`writes
      ensures Valid() && ok == !closed
      ensures writes == if ok then old(writes) + [At(offset, data)] else old(writes)
    {
      if closed {
        return false;
      }
      ghost var was := writes;
      spool := Overlay(spool, offset, data);
      size := if size >= offset + |data| then size else offset + |data|;
      dirty := true;
      writes := writes + [At(offset, data)];
      assert writes[..|writes| - 1] == was;
      return true;
    }

    /** Reads the spool front to back in chunks. */
    method IterSpool() returns (chunks: seq<bytes>)
      requires Valid()
      ensures Flatten(chunks) == Written(writes)
      ensures forall i :: 0 <= i < |chunks| ==> 0 < |chunks[i]| <= SPOOL_READ_CHUNK
    {
      AnnouncedIff(writes, |Written(writes)|);
      chunks := [];
      var remaining, at := size, 0;
      while remaining > 0
        invariant 0 <= at <= |spool| && remaining == size - at && Flatten(chunks) == spool[..at]
        invariant forall i :: 0 <= i < |chunks| ==> 0 < |chunks[i]| <= SPOOL_READ_CHUNK
        decreases remaining
      {
        var n := if SPOOL_READ_CHUNK <= remaining then SPOOL_READ_CHUNK else remaining;
        var stop := if at + n <= |spool| then at + n else |spool|;
        var chunk := spool[at..stop];
        if chunk == [] {
          break;
        }
        FlattenAppend(chunks, chunk);
        assert spool[..at] + chunk == spool[..stop];
        remaining := remaining - |chunk|;
        chunks := chunks + [chunk];
        at := stop;
      }
      assert spool[..|spool|] == spool;
    }

    /** The file committed is the overlay of the writes, under the size announced for them; nothing
        is committed twice, or without a write, or after an abort. */
    method Close() returns (commit: Option<Commit>)
      requires Valid()
      modifies this`closed
      ensures Valid() && closed
      ensures commit.Some? <==> !old(closed) && writes != []
      ensures commit.Some? ==> commit.value == Commit(Announced(writes), Written(writes))
    {
      if closed {
        return None;
      }
      closed := true;
      if !dirty {
        return None;
      }
      var chunks := IterSpool();
      return Some(Commit(size, Flatten(chunks)));
    }

    /** `abort`: the handle is closed, and what was written is dropped. */
    method Abort()
      requires Valid()
      modifies this`closed
      ensures Valid() && closed
    {
      closed := true;
    }
  }

  /** After an abort no write is taken and nothing is committed, whatever was written before. */
  method AbortedCommitsNothing(handle: WriteHandle, offset: nat, data: bytes)
    returns (taken: bool, commit: Option<Commit>)
    requires handle.Valid()
    modifies handle
    ensures handle.Valid() && handle.writes == old(handle.writes)
    ensures !taken && commit.None?
  {
    handle.Abort();
    taken := handle.Write(offset, data);
    commit := handle.Close();
  }
}
