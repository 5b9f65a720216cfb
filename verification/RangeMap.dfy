/** Mapping an inclusive byte range of a version onto the parts of one store's layout
    (`StoreFileContentRepository._map_range`). */
module RangeMap {
  import opened Bytes

  /** Bytes `[begin, end]` of part number `part`, which the store keeps as message `id`. */
  datatype PartRange = PartRange(part: nat, id: int, begin: int, end: int)

  /** Where part `i` starts within the version. */
  function Offset(sizes: seq<nat>, i: nat): nat
    requires i <= |sizes|
  {
    Sum(sizes[..i])
  }

  lemma OffsetNext(sizes: seq<nat>, i: nat)
    requires i < |sizes|
    ensures Offset(sizes, i + 1) == Offset(sizes, i) + sizes[i]
  {
    assert sizes[..i + 1] == sizes[..i] + [sizes[i]];
    SumAppend(sizes[..i], sizes[i]);
  }

  lemma {:induction false} OffsetMono(sizes: seq<nat>, i: nat, j: nat)
    requires i <= j <= |sizes|
    ensures Offset(sizes, i) <= Offset(sizes, j)
  {
    if i < j {
      OffsetMono(sizes, i, j - 1);
      OffsetNext(sizes, j - 1);
    }
  }

  ghost predicate InPart(ids: seq<int>, sizes: seq<nat>, r: PartRange) {
    r.part < |sizes| && r.part < |ids| && r.id == ids[r.part] && 0 <= r.begin <= r.end < sizes[r.part]
  }

  /** The ranges lie inside their parts and follow one another without gap or overlap from byte
      `begin` up to, not including, byte `stop` of the version. */
  ghost predicate Covers(ids: seq<int>, sizes: seq<nat>, ranges: seq<PartRange>, begin: int, stop: int) {
    if |ranges| == 0 then begin == stop
    else
      var r := ranges[|ranges| - 1];
      && InPart(ids, sizes, r)
      && Offset(sizes, r.part) + r.end + 1 == stop
      && Covers(ids, sizes, ranges[..|ranges| - 1], begin, Offset(sizes, r.part) + r.begin)
  }

  /** The last byte a request for `[begin, end]` of `size` bytes means. */
  function LastByte(size: int, end: int): int {
    if end < 0 || end >= size then size - 1 else end
  }

  method MapRange(ids: seq<int>, sizes: seq<nat>, size: int, begin: int, end: int)
    returns (res: Result<seq<PartRange>>)
    ensures size <= 0 ==> res == Ok([])
    ensures size > 0 && res.Ok? ==>
              0 <= begin <= LastByte(size, end) && begin < Sum(sizes)
    ensures size > 0 && res.Ok? ==>
              Covers(ids, sizes, res.value, begin, Min(LastByte(size, end) + 1, Sum(sizes)))
    ensures size > 0 && res.Err? && |sizes| <= |ids| ==>
              begin < 0 || begin > LastByte(size, end) || begin >= Sum(sizes)
  {
    if size <= 0 {
      return Ok([]);
    }
    var last := if end < 0 || end >= size then size - 1 else end;
    if begin < 0 || begin > last {
      return Err;
    }
    var offset, i := 0, 0;
    assert sizes[..|sizes|] == sizes;
    while i < |sizes| && offset + sizes[i] <= begin
      invariant 0 <= i <= |sizes| && offset == Offset(sizes, i) <= begin
    {
      OffsetNext(sizes, i);
      offset := offset + sizes[i];
      i := i + 1;
    }
    if i >= |sizes| {
      return Err;
    }
    OffsetNext(sizes, i);
    OffsetMono(sizes, i + 1, |sizes|);
    var out := [];
    while i < |sizes| && offset <= last
      invariant 0 <= i <= |sizes| && offset == Offset(sizes, i)
      invariant out == [] ==> offset <= begin && i < |sizes| && begin < offset + sizes[i]
      invariant out != [] ==> begin < offset
      invariant Covers(ids, sizes, out, begin, Min(last + 1, Max(begin, offset)))
    {
      ghost var before := out;
      OffsetNext(sizes, i);
      var partBegin := if begin - offset > 0 then begin - offset else 0;
      var partEnd := if sizes[i] - 1 <= last - offset then sizes[i] - 1 else last - offset;
      if partBegin <= partEnd {
        if i >= |ids| {
          return Err;
        }
        out := out + [PartRange(i, ids[i], partBegin, partEnd)];
        assert out[..|out| - 1] == before;
      }
      offset := offset + sizes[i];
      i := i + 1;
    }
    OffsetMono(sizes, i, |sizes|);
    return Ok(out);
  }

  // -- the bytes a mapped range names -------------------------------------------------------

  ghost predicate HasSizes(parts: seq<bytes>, sizes: seq<nat>) {
    |parts| == |sizes| && forall i :: 0 <= i < |parts| ==> |parts[i]| == sizes[i]
  }

  /** Part ranges cut out of the stored parts, each on its own. */
  ghost function Slices(parts: seq<bytes>, ranges: seq<PartRange>): seq<bytes> {
    seq(|ranges|, k requires 0 <= k < |ranges| =>
      if ranges[k].part < |parts| then Range(parts[ranges[k].part], ranges[k].begin, ranges[k].end) else [])
  }

  lemma {:induction false} OffsetIsLength(parts: seq<bytes>, sizes: seq<nat>, i: nat)
    requires HasSizes(parts, sizes) && i <= |parts|
    ensures |Flatten(parts[..i])| == Offset(sizes, i) <= |Flatten(parts)|
  {
    if i == 0 {
    } else {
      OffsetIsLength(parts, sizes, i - 1);
      OffsetNext(sizes, i - 1);
      assert parts[..i] == parts[..i - 1] + [parts[i - 1]];
      FlattenAppend(parts[..i - 1], parts[i - 1]);
    }
    assert parts == parts[..i] + parts[i..];
    FlattenConcat(parts[..i], parts[i..]);
  }

  lemma SizeAt(parts: seq<bytes>, sizes: seq<nat>, i: nat)
    requires HasSizes(parts, sizes) && i < |parts|
    ensures |parts| == |sizes| && |parts[i]| == sizes[i]
  {
  }

  /** Part `i` sits at its offset in the whole. */
  lemma PartInWhole(parts: seq<bytes>, sizes: seq<nat>, i: nat)
    requires HasSizes(parts, sizes) && i < |parts|
    ensures Offset(sizes, i) + sizes[i] <= |Flatten(parts)|
    ensures Flatten(parts)[Offset(sizes, i)..Offset(sizes, i) + sizes[i]] == parts[i]
  {
    hide Offset, Flatten, HasSizes;
    OffsetIsLength(parts, sizes, i);
    SizeAt(parts, sizes, i);
    assert parts == parts[..i] + parts[i..];
    FlattenConcat(parts[..i], parts[i..]);
    FlattenDrop(parts, i);
    Middle(Flatten(parts[..i]), parts[i], Flatten(parts[i + 1..]));
  }

  lemma PartSlice(w: bytes, off: nat, p: bytes, b: nat, e: nat)
    requires off + |p| <= |w| && w[off..off + |p|] == p && b <= e < |p|
    ensures Range(p, b, e) == w[off + b..off + e + 1]
  {
    SubSlice(w, off, off + |p|, b, e + 1);
  }

  lemma SlicesLast(parts: seq<bytes>, ranges: seq<PartRange>)
    requires |ranges| > 0 && ranges[|ranges| - 1].part < |parts|
    ensures var r := ranges[|ranges| - 1];
      Flatten(Slices(parts, ranges))
      == Flatten(Slices(parts, ranges[..|ranges| - 1])) + Range(parts[r.part], r.begin, r.end)
  {
    hide Flatten, Range;
    var r := ranges[|ranges| - 1];
    var init := ranges[..|ranges| - 1];
    assert Slices(parts, ranges) == Slices(parts, init) + [Range(parts[r.part], r.begin, r.end)];
    FlattenAppend(Slices(parts, init), Range(parts[r.part], r.begin, r.end));
  }

  lemma CoversLast(ids: seq<int>, sizes: seq<nat>, ranges: seq<PartRange>, begin: int, stop: int)
    requires Covers(ids, sizes, ranges, begin, stop) && |ranges| > 0
    ensures var n := |ranges| - 1; var r := ranges[n];
      && InPart(ids, sizes, r) && Offset(sizes, r.part) + r.end + 1 == stop
      && Covers(ids, sizes, ranges[..n], begin, Offset(sizes, r.part) + r.begin)
  {
  }

  /** Reading the mapped ranges one after the other reads exactly that stretch of the version,
      whatever the part sizes are. */
  lemma {:induction false} CoveredBytes(ids: seq<int>, sizes: seq<nat>, ranges: seq<PartRange>,
                                        begin: int, stop: int, parts: seq<bytes>)
    requires HasSizes(parts, sizes) && Covers(ids, sizes, ranges, begin, stop)
    requires 0 <= begin <= |Flatten(parts)|
    ensures begin <= stop <= |Flatten(parts)|
    ensures Flatten(Slices(parts, ranges)) == Flatten(parts)[begin..stop]
    decreases |ranges|
  {
    hide Flatten, Slices, Range, Offset, Covers, Sum, HasSizes, InPart;
    var w := Flatten(parts);
    if |ranges| == 0 {
      CoversNone(ids, sizes, ranges, begin, stop);
      NothingCovered(parts, ranges, w, begin);
    } else {
      var init, mid := LastRange(ids, sizes, ranges, begin, stop, parts);
      CoveredBytes(ids, sizes, init, begin, mid, parts);
      JoinSlices(w, begin, mid, stop, Flatten(Slices(parts, init)), w[mid..stop], w[begin..stop]);
    }
  }

  lemma CoversNone(ids: seq<int>, sizes: seq<nat>, ranges: seq<PartRange>, begin: int, stop: int)
    requires Covers(ids, sizes, ranges, begin, stop) && |ranges| == 0
    ensures begin == stop
  {
  }

  /** The last range reads the end of the stretch, the ones before it the rest. */
  lemma LastRange(ids: seq<int>, sizes: seq<nat>, ranges: seq<PartRange>, begin: int, stop: int, parts: seq<bytes>)
    returns (init: seq<PartRange>, mid: nat)
    requires HasSizes(parts, sizes) && Covers(ids, sizes, ranges, begin, stop) && |ranges| > 0
    ensures |init| == |ranges| - 1 && Covers(ids, sizes, init, begin, mid) && mid <= stop <= |Flatten(parts)|
    ensures Flatten(Slices(parts, ranges)) == Flatten(Slices(parts, init)) + Flatten(parts)[mid..stop]
  {
    hide Flatten, Slices, Range, Offset, Covers, Sum;
    var r := ranges[|ranges| - 1];
    CoversLast(ids, sizes, ranges, begin, stop);
    init, mid := ranges[..|ranges| - 1], Offset(sizes, r.part) + r.begin;
    PartInWhole(parts, sizes, r.part);
    PartSlice(Flatten(parts), Offset(sizes, r.part), parts[r.part], r.begin, r.end);
    SlicesLast(parts, ranges);
  }

  lemma NothingCovered(parts: seq<bytes>, ranges: seq<PartRange>, w: bytes, begin: nat)
    requires ranges == [] && begin <= |w|
    ensures Flatten(Slices(parts, ranges)) == w[begin..begin]
  {
  }

  lemma PrefixOfSame(p: bytes, q: bytes)
    requires p <= q && |p| == |q|
    ensures p == q
  {
  }

  /** Answers that each deliver a prefix of their range, and together as many bytes as the ranges
      hold, deliver the ranges: a length check on the joined answer is enough. */
  lemma {:induction false} FullLengthIsExact(answers: seq<bytes>, want: seq<bytes>)
    requires |answers| == |want|
    requires forall k :: 0 <= k < |want| ==> answers[k] <= want[k]
    ensures |Flatten(answers)| <= |Flatten(want)|
    ensures |Flatten(answers)| == |Flatten(want)| ==> Flatten(answers) == Flatten(want)
  {
    if |want| > 0 {
      var n := |want| - 1;
      FullLengthIsExact(answers[..n], want[..n]);
      if |answers[n]| == |want[n]| {
        PrefixOfSame(answers[n], want[n]);
      }
    }
  }
}
