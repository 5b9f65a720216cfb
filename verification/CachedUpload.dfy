/** Uploading a version that sits in the local cache: the Telegram store cuts it into parts
    (`_partition`) and reads each through a message of its own (`FileMessageFromCache.part`). */
module CachedUpload {
  import opened Arith
  import opened Bytes
  import opened Tiling

  /** `_partition`. */
  function Partition(size: nat, part: nat): seq<int>
    requires part > 0
  {
    var parts := (size + part - 1) / part;
    (if parts > 1 then seq(parts - 1, _ => part) else []) + [size - (parts - 1) * part]
  }

  /** The generator and the planner agree, and the parts add up to the size, exactly when there is
      something to cut: zero bytes are announced as one whole part. */
  lemma PartitionIff(size: nat, part: nat)
    requires part > 0
    ensures size > 0 ==> Partition(size, part) == PlanParts(size, part)
    ensures size == 0 ==> Partition(size, part) == [part] && PlanParts(size, part) == [0]
    ensures Partition(size, part) == PlanParts(size, part) <==> size > 0
  {
    CeilDivBounds(size, part);
    if size == 0 {
      assert (size + part - 1) / part == 0;
      assert Partition(size, part) == [part];
    }
  }

  /** The offset of part `i`: the sizes before it. */
  function PartOffset(parts: seq<int>, i: nat): int
    requires i <= |parts|
  {
    if i == 0 then 0 else PartOffset(parts, i - 1) + parts[i - 1]
  }

  lemma {:induction false} OffsetIsStart(s: bytes, part: nat, i: nat)
    requires part > 0 && |s| > 0 && i < Count(|s|, part)
    ensures |Partition(|s|, part)| == Count(|s|, part)
    ensures PartOffset(Partition(|s|, part), i) == Start(|s|, part, i)
    ensures Partition(|s|, part)[i] == |Part(s, part, i)|
  {
    hide Partition, PlanParts, Start;
    PartitionIff(|s|, part);
    PlanPartsAreParts(s, part);
    if i > 0 {
      OffsetIsStart(s, part, i - 1);
      StartMono(|s|, part, i - 1);
    } else {
      assert Start(|s|, part, 0) == 0 by {
        StartZero(|s|, part);
      }
    }
  }

  lemma StartZero(n: nat, part: nat)
    ensures Start(n, part, 0) == 0
  {
  }

  /** A message over `size` bytes of a complete cache entry, from byte `begin` on. */
  class FileMessageFromCache {
    const begin: nat
    const size: nat
    var readSize: nat
    ghost const version: bytes

    ghost predicate Valid()
      reads this
    {
      begin + size <= |version| && readSize <= size
    }

    constructor (from: nat, length: nat, ghost bytes: bytes)
      requires from + length <= |bytes|
      ensures Valid() && begin == from && size == length && version == bytes && readSize == 0
    {
      begin, size, version := from, length, bytes;
      readSize := 0;
    }

    /** `part`: an independent message for a stretch of this one. */
    method Part(offset: nat, length: nat) returns (m: FileMessageFromCache)
      requires Valid() && offset + length <= size
      ensures fresh(m) && m.Valid() && m.version == version && m.readSize == 0
      ensures m.begin == begin + offset && m.size == length
    {
      m := new FileMessageFromCache(begin + offset, length, version);
    }

    /** The next bytes, never beyond this message's own stretch. */
    method Read(length: nat, cached: (nat, int) -> bytes) returns (data: bytes)
      requires Valid() && forall b: nat, e: int :: b <= e < |version| ==> cached(b, e) == version[b..e + 1]
      modifies this`readSize
      ensures Valid() && readSize == old(readSize) + |data|
      ensures data == version[begin + old(readSize)..begin + Min(old(readSize) + length, size)]
    {
      var position := begin + readSize;
      var end := (if position + length <= begin + size then position + length else begin + size) - 1;
      if end < position {
        return [];
      }
      data := cached(position, end);
      readSize := readSize + |data|;
    }
  }

  /** The message made for part `i` of an upload covers exactly part `i` of the version. */
  lemma PartMessageIsPart(s: bytes, part: nat, i: nat)
    requires part > 0 && |s| > 0 && i < Count(|s|, part)
    ensures |Partition(|s|, part)| == Count(|s|, part)
    ensures var from, length := PartOffset(Partition(|s|, part), i), Partition(|s|, part)[i];
      0 <= from && 0 <= length && from + length <= |s| && s[from..from + length] == Part(s, part, i)
  {
    hide Partition, PartOffset;
    OffsetIsStart(s, part, i);
    StartMono(|s|, part, i);
  }
}
