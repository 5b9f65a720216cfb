/** Tee mirroring (`core/tee.py`): the primary's reads feed one bounded branch per mirror, whose
    upload consumes it at the same time. */
module Tee {
  import opened Bytes

  /** The fields of a `TeeBranch`. */
  datatype Branch = Branch(capacity: nat, chunks: seq<bytes>, buffered: nat, eof: bool, detached: bool)
  {
    /** `feed` has to wait with `data`. */
    predicate Full(data: bytes) {
      |data| > 0 && buffered > 0 && buffered + |data| > capacity && !detached
    }

    function Fed(data: bytes): Branch
      requires !Full(data)
    {
      if |data| == 0 || detached then this
      else this.(chunks := chunks + [data], buffered := buffered + |data|)
    }

    function Finished(): Branch { this.(eof := true) }

    function Detached(): Branch { this.(detached := true, chunks := [], buffered := 0) }

    /** `stream` has to wait. */
    predicate Dry() { chunks == [] && !eof && !detached }

    predicate AtEnd() { chunks == [] && eof && !detached }

    function Taken(): Branch
      requires |chunks| > 0 && |chunks[0]| <= buffered
    {
      this.(chunks := chunks[1..], buffered := buffered - |chunks[0]|)
    }

    /** The counter is the length of what is queued, no queued chunk is empty, and only a single
        chunk may exceed the capacity. */
    ghost predicate Sound() {
      && capacity >= 1
      && buffered == |Flatten(chunks)|
      && (forall i :: 0 <= i < |chunks| ==> chunks[i] != [])
      && (buffered > capacity ==> |chunks| == 1)
      && (detached ==> chunks == [])
    }
  }

  lemma SoundHead(b: Branch)
    requires b.Sound() && b.chunks != []
    ensures |b.chunks[0]| <= b.buffered && Flatten(b.chunks) == b.chunks[0] + Flatten(b.chunks[1..])
  {
    assert b.chunks[0..] == b.chunks;
    FlattenDrop(b.chunks, 0);
  }

  lemma TakenSound(b: Branch)
    requires b.Sound() && b.chunks != []
    ensures |b.chunks[0]| <= b.buffered && b.Taken().Sound()
  {
    SoundHead(b);
  }

  lemma FedSound(b: Branch, data: bytes)
    requires b.Sound() && !b.Full(data)
    ensures b.Fed(data).Sound()
    ensures !b.detached ==> Flatten(b.Fed(data).chunks) == Flatten(b.chunks) + data
  {
    FlattenAppend(b.chunks, data);
    if b.buffered == 0 && b.chunks != [] {
      SoundHead(b);
      assert false;
    }
  }

  /** Nothing larger than the largest chunk fed, or the capacity, is ever buffered. */
  lemma BufferedBound(b: Branch, largest: nat)
    requires b.Sound() && forall i :: 0 <= i < |b.chunks| ==> |b.chunks[i]| <= largest
    ensures b.buffered <= Max(b.capacity, largest)
  {
    if b.buffered > b.capacity {
      SoundHead(b);
      assert b.chunks[1..] == [];
    }
  }

  datatype Pull = Wait | Raised | End | Chunk(data: bytes)

  /** The object the producer and one consumer share. Every method is what runs while the
      condition is held; a `wait` is a call that returns "not yet". */
  class TeeBranch {
    const capacity: nat
    var chunks: seq<bytes>
    var buffered: nat
    var eof: bool
    var detached: bool

    ghost function Now(): Branch
      reads this
    {
      Branch(capacity, chunks, buffered, eof, detached)
    }

    constructor (cap: int)
      ensures Now() == Branch(Max(1, cap), [], 0, false, false) && Now().Sound()
    {
      capacity := if cap < 1 then 1 else cap;
      chunks, buffered, eof, detached := [], 0, false, false;
    }

    method Feed(data: bytes) returns (waits: bool)
      requires Now().Sound()
      modifies this`chunks, this`buffered
      ensures Now().Sound()
      ensures waits == old(Now()).Full(data)
      ensures waits <==> data != [] && !detached && old(buffered) > 0 && old(buffered) + |data| > capacity
      ensures Now() == if waits then old(Now()) else old(Now()).Fed(data)
      ensures !waits && !detached ==> Flatten(chunks) == old(Flatten(chunks)) + data
    {
      if |data| == 0 || detached {
        FedSound(Now(), data);
        return false;
      }
      if buffered > 0 && buffered + |data| > capacity && !detached {
        return true;
      }
      FedSound(Now(), data);
      chunks := chunks + [data];
      buffered := buffered + |data|;
      return false;
    }

    method Finish()
      requires Now().Sound()
      modifies this`eof
      ensures Now() == old(Now()).Finished() && Now().Sound() && eof
    {
      eof := true;
    }

    method Detach()
      requires Now().Sound()
      modifies this`detached, this`chunks, this`buffered
      ensures Now() == old(Now()).Detached() && Now().Sound()
      ensures detached && chunks == [] && buffered == 0 && eof == old(eof)
    {
      detached, chunks, buffered := true, [], 0;
    }

    method Next() returns (pull: Pull)
      requires Now().Sound()
      modifies this`chunks, this`buffered
      ensures Now().Sound()
      ensures pull == Wait <==> old(Now()).Dry()
      ensures pull == Wait <==> chunks == [] && old(chunks) == [] && !eof && !detached
      ensures pull == Raised <==> old(detached)
      ensures pull == End <==> old(Now()).AtEnd()
      ensures pull == End <==> old(chunks) == [] && eof && !detached
      ensures !pull.Chunk? ==> Now() == old(Now())
      ensures pull.Chunk? ==> old(Flatten(chunks)) == pull.data + Flatten(chunks)
                              && buffered + |pull.data| == old(buffered) && pull.data != []
    {
      if chunks == [] && !eof && !detached {
        return Wait;
      }
      if detached {
        return Raised;
      }
      if chunks == [] {
        return End;
      }
      TakenSound(Now());
      SoundHead(Now());
      pull := Chunk(chunks[0]);
      buffered := buffered - |chunks[0]|;
      chunks := chunks[1..];
    }
  }
}
