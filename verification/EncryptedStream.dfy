/** `tgdcfs/crypto/stream.py`: the upload message that encrypts what it wraps. */
module EncryptedStream {
  import opened Arith
  import opened Bytes
  import opened Cipher
  import opened Header

  /** The wrapped upload message: `declared` is `get_size()`, and a read may return short. Opening
      a message over a buffer starts it again from its first byte (`rewinds`); opening one over a
      stream or a file changes nothing. */
  class PlainSource {
    const content: bytes
    const declared: nat
    const rewinds: bool
    var pos: nat

    ghost predicate Valid()
      reads this
    {
      pos <= |content|
    }

    constructor (content: bytes, declared: nat, rewinds: bool)
      ensures Valid() && this.content == content && this.declared == declared && this.rewinds == rewinds && pos == 0
    {
      this.content, this.declared, this.rewinds, pos := content, declared, rewinds, 0;
    }

    method Open()
      modifies this
      ensures pos == if rewinds then 0 else old(pos)
    {
      if rewinds {
        pos := 0;
      }
    }

    /** Any non-empty prefix of what is left, at most `n` bytes; empty only at the end. */
    method Read(n: nat) returns (piece: bytes)
      requires Valid()
      modifies this
      ensures Valid() && pos == old(pos) + |piece| && |piece| <= n
      ensures piece == content[old(pos)..pos]
      ensures piece == [] <==> n == 0 || old(pos) == |content|
    {
      if n == 0 || pos == |content| {
        piece := [];
        return;
      }
      var most := Min(n, |content| - pos);
      var k: nat :| 1 <= k <= most;
      piece := content[pos..pos + k];
      pos := pos + k;
    }
  }

  /** The bytes of one encrypted file. */
  function FileBytes(c: ChunkCipher, headerBytes: bytes, p: bytes): bytes
    requires |c.salt| >= 4 && c.chunkSize > 0 && |p| <= INDEX_LIMIT
  {
    headerBytes + EncryptFrom(c, p, 0)
  }

  /** Taking one crypto-chunk off the plaintext and sealing it leaves the ciphertext as it was. */
  lemma EncryptFromRefill(c: ChunkCipher, rest: bytes, index: nat, chunk: bytes)
    requires c.Valid() && index + |rest| <= INDEX_LIMIT
    requires chunk == Take(rest, c.chunkSize) && chunk != []
    ensures EncryptFrom(c, rest, index) == c.Encrypt(chunk, index) + EncryptFrom(c, rest[|chunk|..], index + 1)
  {
    assert rest[..|chunk|] == chunk;
  }

  lemma EncryptFromNothing(c: ChunkCipher, rest: bytes, index: nat)
    requires c.Valid() && index + |rest| <= INDEX_LIMIT && Take(rest, c.chunkSize) == []
    ensures rest == [] && EncryptFrom(c, rest, index) == []
  {
  }

  /** The first bytes of what is pending move to what has been emitted. */
  lemma MoveHead(emitted: bytes, pending: bytes, tail: bytes, piece: bytes, left: bytes)
    requires pending == piece + left
    ensures pending + tail == piece + (left + tail)
    ensures emitted + (pending + tail) == (emitted + piece) + (left + tail)
  {
    Associate(piece, left, tail);
    Associate(emitted, piece, left + tail);
  }

  /** What a source standing at `pos` has to give, with `left` bytes of its declared size unread. */
  function RestOf(content: bytes, pos: nat, left: nat): (r: bytes)
    requires pos <= |content|
    ensures |r| <= left
  {
    Take(content[pos..], left)
  }

  lemma RestStep(content: bytes, pos: nat, left: nat, n: nat)
    requires pos <= |content| && n <= |RestOf(content, pos, left)|
    ensures pos + n <= |content| && n <= left
    ensures RestOf(content, pos, left)[n..] == RestOf(content, pos + n, left - n)
    ensures RestOf(content, pos, left)[..n] == content[pos..pos + n]
  {
  }

  lemma RestLength(content: bytes, pos: nat, left: nat)
    requires pos <= |content|
    ensures |RestOf(content, pos, left)| == Min(left, |content| - pos)
  {
  }

  lemma MoveToTaken(taken: bytes, rest: bytes, n: nat)
    requires n <= |rest|
    ensures taken + rest == (taken + rest[..n]) + rest[n..]
  {
  }

  /** Reading the next chunk and sealing it: neither the ciphertext nor the plaintext changes as a whole. */
  lemma Refilled(c: ChunkCipher, content: bytes, pos: nat, left: nat, taken: bytes, index: nat, chunk: bytes)
    returns (tail: bytes)
    requires c.Valid() && pos <= |content| && index + left <= INDEX_LIMIT
    requires chunk == Take(RestOf(content, pos, left), c.chunkSize) && chunk != []
    ensures pos + |chunk| <= |content| && |chunk| <= left && tail == RestOf(content, pos + |chunk|, left - |chunk|)
    ensures EncryptFrom(c, RestOf(content, pos, left), index)
              == c.Encrypt(chunk, index) + EncryptFrom(c, tail, index + 1)
    ensures taken + RestOf(content, pos, left) == (taken + chunk) + tail
    ensures |chunk| == Min(c.chunkSize, Min(left, |content| - pos))
    ensures content[..pos] + chunk == content[..pos + |chunk|]
  {
    hide EncryptFrom, RestOf;
    var rest := RestOf(content, pos, left);
    RestLength(content, pos, left);
    RestStep(content, pos, left, |chunk|);
    tail := rest[|chunk|..];
    MoveToTaken(taken, rest, |chunk|);
    EncryptFromRefill(c, rest, index, chunk);
    JoinSlices(content, 0, pos, pos + |chunk|, content[..pos], chunk, content[..pos + |chunk|]);
  }

  class EncryptingFileMessage {
    const inner: PlainSource
    const cipher: ChunkCipher
    const headerBytes: bytes
    const size: nat
    var pending: bytes
    var chunkIndex: nat
    var plaintextRead: nat
    var headerEmitted: bool

    /** What is still to be emitted unless the message is opened again; what has been; and the
        plaintext sealed so far. */
    ghost var todo: bytes
    ghost var emitted: bytes
    ghost var taken: bytes

    ghost function Rest(): bytes
      reads this, inner
      requires inner.pos <= |inner.content| && plaintextRead <= inner.declared
    {
      RestOf(inner.content, inner.pos, inner.declared - plaintextRead)
    }

    ghost predicate Valid()
      reads this, inner
    {
      && cipher.Valid() && |headerBytes| == HEADER_SIZE && inner.declared <= INDEX_LIMIT
      && inner.pos <= |inner.content| && inner.pos <= plaintextRead <= inner.declared
      && chunkIndex <= plaintextRead == |taken|
      && (!headerEmitted ==> pending == [] && chunkIndex == 0 && plaintextRead == 0 && emitted == [])
      && todo == (if headerEmitted then pending else headerBytes) + EncryptFrom(cipher, Rest(), chunkIndex)
      && (!inner.rewinds ==> inner.pos == plaintextRead && taken == inner.content[..inner.pos])
      && (|inner.content| >= inner.declared ==> Placed())
    }

    /** With a source that holds what it declares: all chunks sealed are whole but a last one, and
        what has been emitted with what is still to come is an encrypted file. */
    ghost predicate Placed()
      reads this, inner
      requires cipher.Valid() && inner.declared <= INDEX_LIMIT
      requires inner.pos <= |inner.content| && plaintextRead <= inner.declared && |taken| == plaintextRead
    {
      && plaintextRead == Min(Mul(chunkIndex, cipher.chunkSize), inner.declared)
      && (chunkIndex > 0 ==>
            && Mul(chunkIndex - 1, cipher.chunkSize) < inner.declared
            && |pending| <= plaintextRead - Mul(chunkIndex - 1, cipher.chunkSize) + CHUNK_OVERHEAD)
      && emitted + todo == FileBytes(cipher, headerBytes, taken + Rest())
    }

    /** A chunk is sealed only when a byte of it is asked for. */
    ghost predicate Lazy()
      reads this, inner
    {
      |inner.content| >= inner.declared && chunkIndex > 0 ==>
        |pending| < plaintextRead - Mul(chunkIndex - 1, cipher.chunkSize) + CHUNK_OVERHEAD
    }

    /** The declared upload size is the number of bytes the message will emit, whenever the
        wrapped message holds at least as many bytes as it declared. */
    constructor Wrap(inner: PlainSource, suite: Suite, key: bytes, header: FileHeader)
      requires suite.Lawful() && header.Packable() && header.chunkSize > 0
      requires inner.Valid() && inner.pos == 0 && inner.declared <= INDEX_LIMIT
      ensures Valid() && !headerEmitted && this.inner == inner && taken == [] && Lazy()
      ensures cipher == ChunkCipher(suite, key, header.salt, header.chunkSize)
      ensures headerBytes == Serialize(suite, header, key)
      ensures todo == FileBytes(cipher, headerBytes, Take(inner.content, inner.declared))
      ensures |inner.content| >= inner.declared ==> size == |todo|
    {
      this.inner := inner;
      var c := ChunkCipher(suite, key, header.salt, header.chunkSize);
      cipher, headerBytes := c, Serialize(suite, header, key);
      size := HEADER_SIZE + CiphertextSize(inner.declared, header.chunkSize);
      pending, chunkIndex, plaintextRead, headerEmitted := [], 0, 0, false;
      ghost var plain := Take(inner.content, inner.declared);
      todo := FileBytes(c, Serialize(suite, header, key), plain);
      emitted, taken := [], [];
      new;
      ParseSerialize(suite, header, key);
      EncryptFromLength(c, plain, 0);
      assert inner.content[0..] == inner.content;
      assert [] + plain == plain && [] + todo == todo;
    }

    /** Opening puts the header in front, once, and opens the wrapped message: one that rewinds goes
        on with its first byte where this message goes on with its next chunk. */
    method Open()
      requires Valid()
      modifies this`pending, this`headerEmitted, this`todo, inner
      ensures Valid() && headerEmitted
      ensures todo == pending + EncryptFrom(cipher, Rest(), chunkIndex)
      ensures if inner.rewinds then inner.pos == 0 else inner.pos == old(inner.pos)
      ensures !inner.rewinds || old(inner.pos) == 0 ==> todo == old(todo)
      ensures taken + Rest() == if inner.rewinds then taken + RestOf(inner.content, 0, inner.declared - plaintextRead)
                                else old(taken + Rest())
      ensures old(Lazy()) ==> Lazy()
    {
      hide EncryptFrom, FileBytes, RestOf;
      ghost var rest, front := Rest(), if headerEmitted then pending else headerBytes;
      RestLength(inner.content, inner.pos, inner.declared - plaintextRead);
      inner.Open();
      ghost var next := Rest();
      RestLength(inner.content, inner.pos, inner.declared - plaintextRead);
      ghost var before, after := EncryptFrom(cipher, rest, chunkIndex), EncryptFrom(cipher, next, chunkIndex);
      Associate(emitted, front, before);
      Associate(emitted, front, after);
      if |inner.content| >= inner.declared {
        Reopened(cipher, headerBytes, emitted + front, taken, rest, next, chunkIndex);
      }
      if !headerEmitted {
        pending, headerEmitted := headerBytes, true;
      }
      todo := front + after;
    }

    /** The next crypto-chunk, whole unless the plaintext ends in it. */
    method ReadPlaintextChunk() returns (chunk: bytes)
      requires inner.Valid() && plaintextRead <= inner.declared && cipher.chunkSize > 0
      modifies inner, this`plaintextRead
      ensures inner.Valid() && plaintextRead == old(plaintextRead) + |chunk| <= inner.declared
      ensures inner.pos == old(inner.pos) + |chunk|
      ensures chunk == Take(old(Rest()), cipher.chunkSize)
    {
      chunk := [];
      var left := inner.declared - plaintextRead;
      if left <= 0 {
        return;
      }
      var want := Min(cipher.chunkSize, left);
      ghost var from := inner.pos;
      while |chunk| < want
        invariant |chunk| <= want && plaintextRead == old(plaintextRead)
        invariant inner.Valid() && inner.pos == from + |chunk|
        invariant chunk == inner.content[from..inner.pos]
        decreases want - |chunk|
      {
        var piece := inner.Read(want - |chunk|);
        if piece == [] {
          break;
        }
        chunk := chunk + piece;
      }
      plaintextRead := plaintextRead + |chunk|;
    }

    /** Replace an empty pending buffer by the next sealed chunk; false at the end. */
    method Refill() returns (more: bool)
      requires Valid() && headerEmitted && pending == []
      modifies this`pending, this`chunkIndex, this`plaintextRead, this`taken, inner
      ensures Valid()
      ensures if more then pending != [] && plaintextRead > old(plaintextRead) else todo == []
      ensures more ==> chunkIndex > 0
      ensures !more ==> chunkIndex == old(chunkIndex) && pending == [] && plaintextRead == old(plaintextRead)
      ensures taken + Rest() == old(taken + Rest())
    {
      hide EncryptFrom, FileBytes, RestOf;
      ghost var rest := Rest();
      var chunk := ReadPlaintextChunk();
      more := chunk != [];
      if !more {
        EncryptFromNothing(cipher, rest, chunkIndex);
        return;
      }
      ghost var tail := Refilled(cipher, inner.content, old(inner.pos), inner.declared - old(plaintextRead), taken,
                                 chunkIndex, chunk);
      pending := cipher.Encrypt(chunk, chunkIndex);
      chunkIndex := chunkIndex + 1;
      taken := taken + chunk;
    }

    method TakePending(n: nat) returns (piece: bytes)
      requires Valid() && headerEmitted && pending != [] && n > 0
      modifies this`pending, this`todo, this`emitted
      ensures Valid() && 0 < |piece| <= n && old(todo) == piece + todo && emitted == old(emitted) + piece
      ensures Lazy()
    {
      hide EncryptFrom, FileBytes, RestOf;
      var take := Min(n, |pending|);
      piece := pending[..take];
      var left := pending[take..];
      ghost var tail := EncryptFrom(cipher, Rest(), chunkIndex);
      SplitAt(pending, take, piece, left);
      MoveHead(emitted, pending, tail, piece, left);
      pending, todo, emitted := left, left + tail, emitted + piece;
    }

    /** Every read continues the file exactly where the last one stopped, and is short
        only at the end of the file. */
    method Read(length: nat) returns (out: bytes)
      requires Valid() && headerEmitted && Lazy()
      modifies this`pending, this`chunkIndex, this`plaintextRead, this`todo, this`emitted, this`taken, inner
      ensures Valid() && Lazy()
      ensures out == Take(old(todo), length)
      ensures old(todo) == out + todo && emitted == old(emitted) + out
      ensures taken + Rest() == old(taken + Rest())
    {
      hide EncryptFrom, RestOf, FileBytes;
      out := [];
      while |out| < length
        invariant Valid() && |out| <= length && (|out| < length || Lazy())
        invariant old(todo) == out + todo && emitted == old(emitted) + out
        invariant taken + Rest() == old(taken + Rest())
        decreases inner.declared - plaintextRead, length - |out|
      {
        if pending != [] {
          ghost var was := out;
          var piece := TakePending(length - |out|);
          Associate(was, piece, todo);
          Associate(old(emitted), was, piece);
          out := out + piece;
        } else {
          var more := Refill();
          if !more {
            break;
          }
        }
      }
      TakeAll(out, todo, length);
    }
  }

  lemma TakeAll(out: bytes, todo: bytes, length: nat)
    requires |out| == length || (|out| < length && todo == [])
    ensures Take(out + todo, length) == out
  {
    assert (out + todo)[..|out|] == out;
  }

  /** The plaintext that follows whole chunks may be replaced: what was emitted stays its beginning. */
  lemma Reopened(c: ChunkCipher, header: bytes, done: bytes, taken: bytes, rest: bytes, other: bytes, k: nat)
    requires c.Valid() && |taken| + |rest| <= INDEX_LIMIT && |taken| + |other| <= INDEX_LIMIT && k <= |taken|
    requires |taken| == Mul(k, c.chunkSize) || (rest == [] && other == [])
    requires done + EncryptFrom(c, rest, k) == FileBytes(c, header, taken + rest)
    ensures done + EncryptFrom(c, other, k) == FileBytes(c, header, taken + other)
  {
    hide EncryptFrom, FileBytes;
    if rest != other {
      WholeThenRest(c, header, taken, rest, k);
      WholeThenRest(c, header, taken, other, k);
      SwapTail(done, header, EncryptFrom(c, taken, 0), EncryptFrom(c, rest, k), EncryptFrom(c, other, k));
    }
  }

  lemma WholeThenRest(c: ChunkCipher, header: bytes, taken: bytes, rest: bytes, k: nat)
    requires c.Valid() && |taken| + |rest| <= INDEX_LIMIT && |taken| == Mul(k, c.chunkSize)
    ensures k <= |taken|
    ensures FileBytes(c, header, taken + rest) == header + (EncryptFrom(c, taken, 0) + EncryptFrom(c, rest, k))
  {
    hide EncryptFrom, FileBytes, Mul, ChunkCipher.Stride;
    var whole := taken + rest;
    EncryptFromConcat(c, taken, rest, 0, k);
    HeaderFirst(c, header, whole);
  }

  lemma HeaderFirst(c: ChunkCipher, header: bytes, p: bytes)
    requires c.Valid() && |p| <= INDEX_LIMIT
    ensures FileBytes(c, header, p) == header + EncryptFrom(c, p, 0)
  {
  }

  lemma SwapTail(done: bytes, header: bytes, e: bytes, y: bytes, z: bytes)
    requires done + y == header + (e + y)
    ensures done + z == header + (e + z)
  {
    assert |done| == |header + e|;
    assert done == (done + y)[..|done|] == (header + (e + y))[..|done|] == header + e;
  }
}
