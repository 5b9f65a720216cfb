/** The block-cached download of the Telegram store (`backends/telegram/store.py`): serving a byte
    range from cached blocks, fetching the missing ones in runs. */
module BlockDownload {
  import opened Arith
  import opened Bytes
  import opened Tiling
  import opened ChunkCache

  /** One document, as the cache and the backend know it. */
  datatype Doc = Doc(channel: int, message: int, content: bytes, blockSize: nat)
  {
    predicate Valid() { blockSize > 0 }

    function Blocks(): nat
      requires Valid()
    {
      Count(|content|, blockSize)
    }

    ghost function Block(i: nat): bytes { Part(content, blockSize, i) }

    function Key(i: int): Key { ChunkCache.Key(channel, message, i) }
  }

  /** Every cached block of this document is that block of it, whole. */
  ghost predicate Consistent(d: Doc, q: seq<Slot>)
    requires d.Valid()
  {
    forall s :: s in q && s.key.channel == d.channel && s.key.message == d.message ==>
      0 <= s.key.block < d.Blocks() && s.block == d.Block(s.key.block)
  }

  // -- block arithmetic -----------------------------------------------------------------------------

  datatype Bounds = Bounds(begin: int, end: int)

  function BlockBounds(index: nat, blockSize: nat, total: nat): Bounds {
    var begin := index * blockSize;
    Bounds(begin, Min(begin + blockSize, total) - 1)
  }

  function BlockLength(index: nat, blockSize: nat, total: nat): int {
    var b := BlockBounds(index, blockSize, total);
    Max(0, b.end - b.begin + 1)
  }

  function Slice(block: bytes, index: nat, blockSize: nat, begin: int, end: int): bytes {
    var blockBegin := index * blockSize;
    var start := Max(0, begin - blockBegin);
    var stop := Min(|block|, end - blockBegin + 1);
    if stop > start then block[start..stop] else []
  }

  lemma BlockPlace(d: Doc, i: nat)
    requires d.Valid() && i < d.Blocks()
    ensures Start(|d.content|, d.blockSize, i) == i * d.blockSize < |d.content|
    ensures BlockBounds(i, d.blockSize, |d.content|)
         == Bounds(Start(|d.content|, d.blockSize, i), Start(|d.content|, d.blockSize, i + 1) - 1)
    ensures BlockLength(i, d.blockSize, |d.content|) == |d.Block(i)| > 0
  {
    MulIsProduct(i, d.blockSize);
    MulIsProduct(i + 1, d.blockSize);
    CeilDivBounds(|d.content|, d.blockSize);
    MulMono(i, d.Blocks() - 1, d.blockSize);
    PartLength(d.content, d.blockSize, i);
  }

  /** Where block `i` begins. */
  function At(d: Doc, i: nat): nat { Start(|d.content|, d.blockSize, i) }

  lemma {:induction false} AtMono(d: Doc, i: nat, j: nat)
    requires i <= j
    ensures At(d, i) <= At(d, j) <= |d.content|
  {
    if i < j {
      AtMono(d, i, j - 1);
      StartMono(|d.content|, d.blockSize, j - 1);
    }
  }

  /** What of `[begin, end]` lies before byte `x`. */
  ghost function Reach(d: Doc, begin: nat, end: int, x: nat): bytes {
    Range(d.content, begin, Min(end, x - 1))
  }

  /** What of it lies in the blocks before `i`. */
  ghost function Before(d: Doc, begin: nat, end: int, i: nat): bytes {
    Reach(d, begin, end, At(d, i))
  }

  /** Going on from byte `a` to byte `b`, whose bytes are `data`. */
  lemma RangeStep(w: bytes, begin: nat, end: int, a: nat, b: nat, data: bytes, piece: bytes)
    requires a <= b <= |w| && data == w[a..b]
    requires var start, stop := Max(0, begin - a), Min(b - a, end - a + 1);
      piece == if stop > start then data[start..stop] else []
    ensures Range(w, begin, Min(end, a - 1)) + piece == Range(w, begin, Min(end, b - 1))
  {
    var start, stop := Max(0, begin - a), Min(b - a, end - a + 1);
    if stop > start {
      SubSlice(w, a, b, start, stop);
      if begin < a {
        JoinSlices(w, begin, a, a + stop, Range(w, begin, Min(end, a - 1)), piece, Range(w, begin, Min(end, b - 1)));
      }
    }
  }

  /** The slice of a block, or of its beginning up to byte `x`, extends the output exactly to `x`. */
  lemma SliceReaches(d: Doc, begin: nat, end: int, i: nat, data: bytes, x: nat)
    requires d.Valid() && i < d.Blocks() && At(d, i) <= x <= At(d, i + 1) && data == d.content[At(d, i)..x]
    ensures Before(d, begin, end, i) + Slice(data, i, d.blockSize, begin, end) == Reach(d, begin, end, x)
  {
    hide Range, Start;
    BlockPlace(d, i);
    RangeStep(d.content, begin, end, At(d, i), x, data, Slice(data, i, d.blockSize, begin, end));
  }

  /** One block's slice extends the output to the next block. */
  lemma SliceExtends(d: Doc, begin: nat, end: int, i: nat)
    requires d.Valid() && i < d.Blocks()
    ensures Before(d, begin, end, i) + Slice(d.Block(i), i, d.blockSize, begin, end) == Before(d, begin, end, i + 1)
  {
    hide Range, Start, Slice;
    AtMono(d, i, i + 1);
    SliceReaches(d, begin, end, i, d.Block(i), At(d, i + 1));
  }

  /** Stopping at `x` short of `y` loses nothing exactly when `[begin, end]` has nothing in between. */
  lemma ReachIff(d: Doc, begin: nat, end: int, x: nat, y: nat)
    requires x <= y <= |d.content| && begin < Min(end + 1, y)
    ensures if Min(end + 1, y) <= x then Reach(d, begin, end, x) == Reach(d, begin, end, y)
            else |Reach(d, begin, end, x)| < |Reach(d, begin, end, y)|
  {
  }

  /** The blocks `begin / blockSize .. end / blockSize` exist and cover `[begin, end]`. */
  lemma BlockRange(d: Doc, begin: nat, end: nat)
    requires d.Valid() && begin <= end < |d.content|
    ensures begin / d.blockSize <= end / d.blockSize < d.Blocks()
    ensures Before(d, begin, end, begin / d.blockSize) == []
    ensures Before(d, begin, end, end / d.blockSize + 1) == d.content[begin..end + 1]
  {
    var bs := d.blockSize;
    DivMod(begin, bs);
    DivMod(end, bs);
    DivMono(begin, end, bs);
    CeilDivBounds(|d.content|, bs);
    if end / bs >= d.Blocks() {
      MulMono(d.Blocks(), end / bs, bs);
    }
  }

  // -- cutting a stream into blocks -----------------------------------------------------------------

  datatype Yield = Yield(index: nat, data: bytes, complete: bool)

  /** The bytes of blocks `first` to `last`. */
  ghost function Stretch(d: Doc, first: nat, last: nat): bytes
    requires first <= last
  {
    AtMono(d, first, last + 1);
    d.content[At(d, first)..At(d, last + 1)]
  }

  /** A stretch of what was fetched is that stretch of the document. */
  lemma FetchedSlice(w: bytes, lo: nat, hi: nat, got: bytes, a: nat, b: nat)
    requires lo <= hi <= |w| && got <= w[lo..hi] && lo <= a <= b <= lo + |got|
    ensures got[a - lo..b - lo] == w[a..b]
  {
    var whole := w[lo..hi];
    SubSlice(w, lo, hi, a - lo, b - lo);
    PrefixSlice(got, whole, a - lo, b - lo);
  }

  lemma PrefixSlice(p: bytes, w: bytes, a: nat, b: nat)
    requires p <= w && a <= b <= |p|
    ensures p[a..b] == w[a..b]
  {
    var x, y := p[a..b], w[a..b];
    forall k | 0 <= k < |x|
      ensures x[k] == y[k]
    {
      assert x[k] == p[a + k] == w[a + k] == y[k];
    }
  }

  lemma BufferCut(got: bytes, from: nat, to: nat, buffer: bytes)
    requires from <= to <= |got| && buffer == got[from..]
    ensures buffer[..to - from] == got[from..to] && buffer[to - from..] == got[to..]
  {
  }

  /** What was fetched holds block `index` once enough of it has arrived. */
  lemma CutBlock(d: Doc, first: nat, last: nat, index: nat, got: bytes, buffer: bytes)
    requires d.Valid() && first <= index <= last < d.Blocks() && got <= Stretch(d, first, last)
    requires At(d, first) <= At(d, index)
    requires At(d, index) - At(d, first) <= |got| && buffer == got[At(d, index) - At(d, first)..]
    requires |d.Block(index)| <= |buffer|
    ensures buffer[..|d.Block(index)|] == d.Block(index)
    ensures At(d, index) + |d.Block(index)| == At(d, index + 1)
    ensures buffer[|d.Block(index)|..] == got[At(d, index + 1) - At(d, first)..]
  {
    hide Start;
    AtMono(d, first, index);
    AtMono(d, index, index + 1);
    AtMono(d, first, last + 1);
    var lo, a, b := At(d, first), At(d, index), At(d, index + 1);
    FetchedSlice(d.content, lo, At(d, last + 1), got, a, b);
    BufferCut(got, a - lo, b - lo, buffer);
  }

  /** The yields are the blocks in order, marked complete exactly when they are whole; one that is not
      is the last, and holds what came of it: the bytes up to byte `reached`. */
  ghost predicate YieldsOk(d: Doc, first: nat, last: nat, ys: seq<Yield>, reached: nat)
    requires d.Valid()
  {
    forall k :: 0 <= k < |ys| ==>
      && ys[k].index == first + k <= last
      && (ys[k].complete ==> ys[k].data == d.Block(first + k))
      && (!ys[k].complete ==>
            && k == |ys| - 1 && At(d, first + k) < reached < At(d, first + k + 1)
            && reached <= |d.content| && ys[k].data == d.content[At(d, first + k)..reached])
  }

  lemma YieldNext(d: Doc, first: nat, last: nat, ys: seq<Yield>, reached: nat, y: Yield)
    requires d.Valid() && YieldsOk(d, first, last, ys, reached) && first + |ys| <= last && y.index == first + |ys|
    requires forall k :: 0 <= k < |ys| ==> ys[k].complete
    requires y.complete ==> y.data == d.Block(first + |ys|)
    requires !y.complete ==>
               && At(d, first + |ys|) < reached < At(d, first + |ys| + 1) && reached <= |d.content|
               && y.data == d.content[At(d, first + |ys|)..reached]
    ensures YieldsOk(d, first, last, ys + [y], reached)
  {
    hide At, Doc.Block;
  }

  /** The blocks before `first + |ys|` are cut off what was fetched, and the buffer is the rest of it. */
  ghost predicate Cut(d: Doc, first: nat, last: nat, ys: seq<Yield>, buffer: bytes, got: bytes, reached: nat)
    requires d.Valid() && first <= last
  {
    && first + |ys| <= last + 1 && got <= Stretch(d, first, last)
    && YieldsOk(d, first, last, ys, reached) && (forall k :: 0 <= k < |ys| ==> ys[k].complete)
    && At(d, first) <= At(d, first + |ys|) <= At(d, first) + |got|
    && buffer == got[At(d, first + |ys|) - At(d, first)..]
  }

  lemma CutBegins(d: Doc, first: nat, last: nat, reached: nat)
    requires d.Valid() && first <= last
    ensures Cut(d, first, last, [], [], [], reached)
  {
    hide Stretch, At, YieldsOk, Doc.Block;
    NoYields(d, first, last, reached);
  }

  lemma NoYields(d: Doc, first: nat, last: nat, reached: nat)
    requires d.Valid()
    ensures YieldsOk(d, first, last, [], reached)
  {
    hide At, Doc.Block;
  }

  lemma CutMore(d: Doc, first: nat, last: nat, ys: seq<Yield>, buffer: bytes, got: bytes, reached: nat, more: bytes)
    requires d.Valid() && first <= last && Cut(d, first, last, ys, buffer, got, reached)
    requires got + more <= Stretch(d, first, last)
    ensures Cut(d, first, last, ys, buffer + more, got + more, reached)
  {
    hide Stretch, At, YieldsOk;
    DropAppend(got, more, At(d, first + |ys|) - At(d, first));
  }

  lemma CutNext(d: Doc, first: nat, last: nat, ys: seq<Yield>, buffer: bytes, got: bytes, reached: nat)
    requires d.Valid() && first + |ys| <= last < d.Blocks() && Cut(d, first, last, ys, buffer, got, reached)
    requires |d.Block(first + |ys|)| <= |buffer|
    ensures var n := |d.Block(first + |ys|)|;
      Cut(d, first, last, ys + [Yield(first + |ys|, buffer[..n], true)], buffer[n..], got, reached)
  {
    hide Stretch, At, YieldsOk, Doc.Block, Doc.Blocks;
    var n := |d.Block(first + |ys|)|;
    CutBlock(d, first, last, first + |ys|, got, buffer);
    YieldNext(d, first, last, ys, reached, Yield(first + |ys|, buffer[..n], true));
  }

  /** At the end of the stream the yields reach as far as it did, the rest of the buffer included. */
  lemma CutEnds(d: Doc, first: nat, last: nat, ys: seq<Yield>, buffer: bytes, got: bytes, reached: nat)
    requires d.Valid() && first <= last < d.Blocks() && Cut(d, first, last, ys, buffer, got, reached)
    requires first + |ys| <= last ==> |buffer| < |d.Block(first + |ys|)|
    requires reached == At(d, first) + |got|
    ensures YieldsOk(d, first, last, ys, reached)
    ensures if first + |ys| <= last && buffer != []
            then YieldsOk(d, first, last, ys + [Yield(first + |ys|, buffer, false)], reached)
            else reached == At(d, first + |ys|)
  {
    hide Stretch, At, YieldsOk, Doc.Block, Doc.Blocks;
    StretchEnds(d, first, last, got);
    if first + |ys| <= last && buffer != [] {
      Remainder(d, first, last, first + |ys|, got);
      YieldNext(d, first, last, ys, reached, Yield(first + |ys|, buffer, false));
    }
  }

  /** Every block that has arrived whole is cut off the buffer. */
  method CutBlocks(ghost d: Doc, first: nat, last: nat, size: nat, blockSize: nat, ys0: seq<Yield>, buffer0: bytes,
                   ghost got: bytes, ghost reached: nat)
    returns (ys: seq<Yield>, buffer: bytes)
    requires d.Valid() && first <= last < d.Blocks() && size == |d.content| && blockSize == d.blockSize
    requires Cut(d, first, last, ys0, buffer0, got, reached)
    ensures Cut(d, first, last, ys, buffer, got, reached)
    ensures first + |ys| <= last ==> |buffer| < |d.Block(first + |ys|)|
  {
    hide Cut, Doc.Block, Doc.Blocks, BlockLength;
    ys, buffer := ys0, buffer0;
    var index := first + |ys|;
    while index <= last
      invariant index == first + |ys| && Cut(d, first, last, ys, buffer, got, reached)
      decreases last + 1 - index
    {
      BlockPlace(d, index);
      var expected := BlockLength(index, blockSize, size);
      if |buffer| < expected {
        break;
      }
      CutNext(d, first, last, ys, buffer, got, reached);
      ys := ys + [Yield(index, buffer[..expected], true)];
      buffer := buffer[expected..];
      index := index + 1;
    }
  }

  /** `_fetch_blocks` for the chunks the backend sent; the stream may end early. The yields reach exactly
      as far as the stream did. */
  method FetchBlocks(ghost d: Doc, chunks: seq<bytes>, first: nat, last: nat, size: nat, blockSize: nat)
    returns (ys: seq<Yield>)
    requires d.Valid() && first <= last < d.Blocks() && size == |d.content| && blockSize == d.blockSize
    requires Flatten(chunks) <= Stretch(d, first, last)
    ensures YieldsOk(d, first, last, ys, At(d, first) + |Flatten(chunks)|)
    ensures (|ys| > 0 && !ys[|ys| - 1].complete) || At(d, first) + |Flatten(chunks)| == At(d, first + |ys|)
  {
    hide Stretch, Flatten, At, Doc.Block, Doc.Blocks, YieldsOk, Cut;
    ghost var all, reached := Flatten(chunks), At(d, first) + |Flatten(chunks)|;
    ys := [];
    var buffer: bytes := [];
    ghost var got: bytes := [];
    CutBegins(d, first, last, reached);
    BlockPlace(d, first);
    AllToCome(chunks);
    for c := 0 to |chunks|
      invariant got + Flatten(chunks[c..]) == all && Cut(d, first, last, ys, buffer, got, reached)
      invariant first + |ys| <= last ==> |buffer| < |d.Block(first + |ys|)|
    {
      ChunkComes(chunks, c, got, all, Stretch(d, first, last));
      CutMore(d, first, last, ys, buffer, got, reached, chunks[c]);
      got := got + chunks[c];
      ys, buffer := CutBlocks(d, first, last, size, blockSize, ys, buffer + chunks[c], got, reached);
    }
    NothingAfter(chunks, got);
    CutEnds(d, first, last, ys, buffer, got, reached);
    if first + |ys| <= last && buffer != [] {
      ys := ys + [Yield(first + |ys|, buffer, false)];
    }
  }

  lemma AllToCome(chunks: seq<bytes>)
    ensures [] + Flatten(chunks[0..]) == Flatten(chunks)
  {
    assert chunks[0..] == chunks;
  }

  lemma ChunkComes(chunks: seq<bytes>, c: nat, got: bytes, all: bytes, whole: bytes)
    requires c < |chunks| && got + Flatten(chunks[c..]) == all && all <= whole
    ensures got + chunks[c] + Flatten(chunks[c + 1..]) == all && got + chunks[c] <= whole
  {
    hide Flatten;
    var rest, after := Flatten(chunks[c..]), Flatten(chunks[c + 1..]);
    FlattenDrop(chunks, c);
    Associate(got, chunks[c], after);
    PrefixOfPrefix(got + chunks[c], after, all, whole);
  }

  lemma DropAppend(got: bytes, more: bytes, n: nat)
    requires n <= |got|
    ensures got[n..] + more == (got + more)[n..]
  {
  }

  lemma NothingAfter(chunks: seq<bytes>, got: bytes)
    ensures got + Flatten(chunks[|chunks|..]) == got
  {
  }

  lemma StretchEnds(d: Doc, first: nat, last: nat, got: bytes)
    requires first <= last && got <= Stretch(d, first, last)
    ensures At(d, first) + |got| <= At(d, last + 1)
  {
    AtMono(d, first, last + 1);
  }

  /** What is left of the stream after the last whole block is the beginning of the next. */
  lemma Remainder(d: Doc, first: nat, last: nat, index: nat, got: bytes)
    requires d.Valid() && first <= index <= last < d.Blocks() && got <= Stretch(d, first, last)
    requires At(d, first) <= At(d, index) && At(d, index) - At(d, first) <= |got|
    ensures At(d, index) + |d.Block(index)| == At(d, index + 1)
    ensures At(d, first) + |got| <= |d.content|
    ensures got[At(d, index) - At(d, first)..] == d.content[At(d, index)..At(d, first) + |got|]
  {
    hide Start;
    AtMono(d, index, index + 1);
    AtMono(d, first, last + 1);
    var lo, a := At(d, first), At(d, index);
    FetchedSlice(d.content, lo, At(d, last + 1), got, a, lo + |got|);
    assert got[a - lo..] == got[a - lo..|got|];
  }

  // -- the cached download ----------------------------------------------------------------------------

  /** The backend sends a prefix of the inclusive range asked for, in any chunks. */
  ghost predicate Backend(d: Doc, download: (nat, int) -> seq<bytes>) {
    forall b: nat, e: int :: b <= e < |d.content| ==> Flatten(download(b, e)) <= d.content[b..e + 1]
  }

  /** It sends every range in full. */
  ghost predicate Exact(d: Doc, download: (nat, int) -> seq<bytes>) {
    forall b: nat, e: int :: b <= e < |d.content| ==> Flatten(download(b, e)) == d.content[b..e + 1]
  }

  /** A run of blocks fetched in one go. */
  datatype Fetched = Fetched(first: nat, last: nat)

  /** How many bytes the backend sends for a run. */
  ghost function Sent(d: Doc, download: (nat, int) -> seq<bytes>, f: Fetched): nat {
    |Flatten(download(At(d, f.first), At(d, f.last + 1) - 1))|
  }

  /** That is enough for what is asked of the run: all of it, or up to byte `end`. */
  ghost predicate Enough(d: Doc, end: int, download: (nat, int) -> seq<bytes>, f: Fetched) {
    Min(end + 1, At(d, f.last + 1)) <= At(d, f.first) + Sent(d, download, f)
  }

  /** A state other tasks (other reads, the read-ahead, evictions) can leave the cache in. */
  ghost predicate Possible(d: Doc, budget: nat, q: seq<Slot>)
    requires d.Valid()
  {
    Distinct(q) && Total(q) <= budget && (budget == 0 ==> q == []) && Consistent(d, q)
  }

  /** Other tasks ran while this one waited. */
  method OthersRan(ghost d: Doc, cache: Cache, q: seq<Slot>)
    requires d.Valid() && Possible(d, cache.budget, q)
    modifies cache
    ensures cache.Valid() && cache.blocks == q
  {
    cache.blocks, cache.size := q, Total(q);
  }

  lemma PutConsistent(d: Doc, q: seq<Slot>, budget: nat, i: nat)
    requires d.Valid() && i < d.Blocks() && Consistent(d, q) && Distinct(q) && Total(q) <= budget
    ensures Consistent(d, Put(q, budget, d.Key(i), d.Block(i)))
  {
    PutSpec(q, budget, d.Key(i), d.Block(i));
  }

  /** A run of missing blocks: fetched, stored when complete, and sliced. The output goes on exactly as
      far as the backend's stream did. `others` says what the other tasks leave in the cache each
      time this one waits. */
  method FetchRun(d: Doc, cache: Cache, begin: nat, end: int, first: nat, last: nat,
                  download: (nat, int) -> seq<bytes>, others: nat -> seq<Slot>, waits0: nat)
    returns (out: bytes, waits: nat)
    requires d.Valid() && first <= last < d.Blocks() && cache.Valid() && Consistent(d, cache.blocks)
    requires forall k :: Possible(d, cache.budget, others(k))
    requires Backend(d, download)
    modifies cache
    ensures cache.Valid() && Consistent(d, cache.blocks)
    ensures At(d, first) + Sent(d, download, Fetched(first, last)) <= At(d, last + 1)
    ensures Before(d, begin, end, first) + out
         == Reach(d, begin, end, At(d, first) + Sent(d, download, Fetched(first, last)))
    ensures waits > waits0 && cache.blocks == others(waits - 1)
  {
    hide Flatten, Start, Part, Reach, Slice, Consistent, Total, YieldsOk, Stretch, Possible;
    PossibleIs(d, cache.budget, others(waits0));
    BlockPlace(d, first);
    BlockPlace(d, last);
    var b := BlockBounds(first, d.blockSize, |d.content|).begin;
    var e := BlockBounds(last, d.blockSize, |d.content|).end;
    AtMono(d, first, last + 1);
    StretchIsRange(d, first, last, b, e);
    OthersRan(d, cache, others(waits0));
    waits := waits0 + 1;
    StretchEnds(d, first, last, Flatten(download(b, e)));
    var ys := FetchBlocks(d, download(b, e), first, last, |d.content|, d.blockSize);
    out, waits := StoreYields(d, cache, begin, end, first, last, ys,
                              At(d, first) + Sent(d, download, Fetched(first, last)),
                              others, waits);
  }

  /** The blocks of a run as they come: stored when complete, and sliced. */
  method StoreYields(d: Doc, cache: Cache, begin: nat, end: int, ghost first: nat, ghost last: nat, ys: seq<Yield>,
                     ghost reached: nat, others: nat -> seq<Slot>, waits0: nat)
    returns (out: bytes, waits: nat)
    requires d.Valid() && first <= last < d.Blocks() && cache.Valid() && Consistent(d, cache.blocks)
    requires forall k :: Possible(d, cache.budget, others(k))
    requires YieldsOk(d, first, last, ys, reached)
    requires (|ys| > 0 && !ys[|ys| - 1].complete) || reached == At(d, first + |ys|)
    modifies cache
    ensures cache.Valid() && Consistent(d, cache.blocks)
    ensures Before(d, begin, end, first) + out == Reach(d, begin, end, reached)
    ensures waits == waits0 + |ys| && cache.blocks == if ys == [] then old(cache.blocks) else others(waits - 1)
  {
    hide At, Reach, Before, Slice, Consistent, Distinct, Total, YieldsOk, Doc.Block, Doc.Blocks, Possible, Got;
    out, waits := [], waits0;
    NothingYet(d, begin, end, first, ys, reached);
    for k := 0 to |ys|
      invariant cache.Valid() && Consistent(d, cache.blocks)
      invariant Got(d, begin, end, first, ys, reached, k, out)
      invariant waits == waits0 + k && cache.blocks == if k == 0 then old(cache.blocks) else others(waits - 1)
    {
      YieldAt(d, first, last, ys, reached, k);
      KeepBlock(d, cache, ys[k]);
      GotNext(d, begin, end, first, last, ys, reached, k, out);
      out := out + Slice(ys[k].data, ys[k].index, d.blockSize, begin, end);
      PossibleIs(d, cache.budget, others(waits));
      OthersRan(d, cache, others(waits));
      waits := waits + 1;
    }
    GotAll(d, begin, end, first, ys, reached, out);
  }

  /** A block is stored when complete, which keeps the cache one that other tasks may find. */
  method KeepBlock(d: Doc, cache: Cache, y: Yield)
    requires d.Valid() && cache.Valid() && Consistent(d, cache.blocks)
    requires y.complete ==> y.index < d.Blocks() && y.data == d.Block(y.index)
    modifies cache
    ensures cache.Valid() && Possible(d, cache.budget, cache.blocks)
    ensures cache.blocks == if y.complete then Put(old(cache.blocks), cache.budget, d.Key(y.index), y.data)
                            else old(cache.blocks)
    ensures y.complete && 0 < |y.data| <= cache.budget ==> Slot(d.Key(y.index), y.data) in cache.blocks
  {
    hide Consistent, Put, Doc.Block, Doc.Blocks;
    PutSpec(cache.blocks, cache.budget, d.Key(y.index), y.data);
    if y.complete {
      PutConsistent(d, cache.blocks, cache.budget, y.index);
      cache.Store(d.Key(y.index), y.data);
    }
  }

  /** What the first `k` blocks of a run add to the output. */
  ghost predicate Got(d: Doc, begin: nat, end: int, first: nat, ys: seq<Yield>, reached: nat, k: nat, out: bytes)
    requires k <= |ys|
  {
    Before(d, begin, end, first) + out
    == if k > 0 && !ys[k - 1].complete then Reach(d, begin, end, reached) else Before(d, begin, end, first + k)
  }

  lemma NothingYet(d: Doc, begin: nat, end: int, first: nat, ys: seq<Yield>, reached: nat)
    ensures Got(d, begin, end, first, ys, reached, 0, [])
  {
    hide Before, Reach;
    var before := Before(d, begin, end, first);
    assert before + [] == before;
  }

  lemma GotNext(d: Doc, begin: nat, end: int, first: nat, last: nat, ys: seq<Yield>, reached: nat, k: nat, out: bytes)
    requires d.Valid() && first <= last < d.Blocks() && YieldsOk(d, first, last, ys, reached) && k < |ys|
    requires Got(d, begin, end, first, ys, reached, k, out)
    ensures Got(d, begin, end, first, ys, reached, k + 1,
                out + Slice(ys[k].data, ys[k].index, d.blockSize, begin, end))
  {
    hide At, Reach, Before, Slice, YieldsOk, Doc.Block, Doc.Blocks;
    YieldAt(d, first, last, ys, reached, k);
    SliceOfYield(d, begin, end, first, last, ys, reached, k);
    Associate(Before(d, begin, end, first), out, Slice(ys[k].data, ys[k].index, d.blockSize, begin, end));
  }

  lemma GotAll(d: Doc, begin: nat, end: int, first: nat, ys: seq<Yield>, reached: nat, out: bytes)
    requires Got(d, begin, end, first, ys, reached, |ys|, out)
    requires (|ys| > 0 && !ys[|ys| - 1].complete) || reached == At(d, first + |ys|)
    ensures Before(d, begin, end, first) + out == Reach(d, begin, end, reached)
  {
    hide At, Reach;
  }

  /** A block's slice extends the output to the next block, the unfinished one's to the end of the stream. */
  lemma SliceOfYield(d: Doc, begin: nat, end: int, first: nat, last: nat, ys: seq<Yield>, reached: nat, k: nat)
    requires d.Valid() && first <= last < d.Blocks() && YieldsOk(d, first, last, ys, reached) && k < |ys|
    ensures Before(d, begin, end, first + k) + Slice(ys[k].data, ys[k].index, d.blockSize, begin, end)
         == if ys[k].complete then Before(d, begin, end, first + k + 1) else Reach(d, begin, end, reached)
  {
    hide At, Reach, Slice, YieldsOk, Doc.Block, Doc.Blocks, Before;
    YieldAt(d, first, last, ys, reached, k);
    if ys[k].complete {
      SliceExtends(d, begin, end, first + k);
    } else {
      SliceReaches(d, begin, end, first + k, ys[k].data, reached);
    }
  }

  lemma PossibleIs(d: Doc, budget: nat, q: seq<Slot>)
    requires d.Valid() && Possible(d, budget, q)
    ensures Consistent(d, q)
  {
  }

  lemma YieldAt(d: Doc, first: nat, last: nat, ys: seq<Yield>, reached: nat, k: nat)
    requires d.Valid() && YieldsOk(d, first, last, ys, reached) && k < |ys|
    ensures ys[k].index == first + k <= last && (k > 0 ==> ys[k - 1].complete)
    ensures ys[k].complete ==> ys[k].data == d.Block(first + k)
    ensures !ys[k].complete ==>
              && k == |ys| - 1 && At(d, first + k) < reached < At(d, first + k + 1) && reached <= |d.content|
              && ys[k].data == d.content[At(d, first + k)..reached]
  {
    assert k > 0 ==> ys[k - 1].index == first + (k - 1);
  }

  lemma StretchIsRange(d: Doc, first: nat, last: nat, b: nat, e: int)
    requires d.Valid() && first <= last < d.Blocks()
    requires b == At(d, first) && e == At(d, last + 1) - 1
    ensures b <= e < |d.content| && Stretch(d, first, last) == d.content[b..e + 1]
  {
    AtMono(d, first, last);
    BlockPlace(d, last);
  }

  /** Everything up to the next cached block, or the last one wanted. */
  method RunEnd(d: Doc, cache: Cache, index: nat, stop: nat) returns (end: nat)
    requires cache.Valid() && index < stop
    ensures index <= end < stop
    ensures forall i :: index < i <= end ==> !Has(cache.blocks, d.Key(i))
    ensures end + 1 < stop ==> Has(cache.blocks, d.Key(end + 1))
  {
    end := index;
    while end + 1 < stop
      invariant index <= end < stop
      invariant forall i :: index < i <= end ==> !Has(cache.blocks, d.Key(i))
      decreases stop - end
    {
      var held := cache.Contains(d.Key(end + 1));
      if held {
        break;
      }
      end := end + 1;
    }
  }

  /** `_cached_download`: whatever consistent blocks the cache holds and other tasks put or evict
      meanwhile, the cache stays consistent, and the output is the range asked for if and only if
      the backend sent enough of every run it was asked for; it always is when every range comes
      in full. A stream that ends early is not noticed: the output goes on with the next run. */
  method CachedDownload(d: Doc, cache: Cache, begin: nat, end: nat,
                        download: (nat, int) -> seq<bytes>, others: nat -> seq<Slot>)
    returns (out: bytes, ghost runs: seq<Fetched>, ghost served: set<nat>)
    requires d.Valid() && begin <= end && begin < |d.content| && cache.Valid() && Consistent(d, cache.blocks)
    requires forall k :: Possible(d, cache.budget, others(k))
    requires Backend(d, download)
    modifies cache
    ensures cache.Valid() && Consistent(d, cache.blocks)
    ensures out == Range(d.content, begin, end)
       <==> forall k :: 0 <= k < |runs| ==> Enough(d, end, download, runs[k])
    ensures Exact(d, download) ==> out == Range(d.content, begin, end)
    ensures forall k :: 0 <= k < |runs| ==> runs[k].first <= runs[k].last < d.Blocks()
    ensures begin / d.blockSize in served || (|runs| > 0 && runs[0].first == begin / d.blockSize)
    ensures cache.budget == 0 ==> served == {}
    ensures forall i: nat :: Stays(d, old(cache.blocks), others, i) ==>
              forall k :: 0 <= k < |runs| ==> !(runs[k].first <= i <= runs[k].last)
  {
    hide Stays, Untouched, Has, Distinct;
    hide Flatten, At, Part, Before, Slice, Total, Consistent, Backend, Exact, Doc.Blocks, Enough, Range, Gapless, Sent,
      Reach, Doc.Block, Without;
    var last := if end <= |d.content| - 1 then end else |d.content| - 1;
    BlockRange(d, begin, last);
    var index, stop := begin / d.blockSize, last / d.blockSize + 1;
    BeforeClipped(d, begin, end, last, index);
    BeforeClipped(d, begin, end, last, stop);
    RangeClipped(d.content, begin, end, last);
    out, runs, served := [], [], {};
    var waits := 0;
    ghost var start := index;
    NoRuns(d, begin, end, download, index);
    NoneTouched(d, cache.blocks, others);
    while index < stop
      invariant start <= index <= stop <= d.Blocks() && cache.Valid() && Consistent(d, cache.blocks)
      invariant Gapless(d, begin, end, download, runs, out, index)
      invariant forall k :: 0 <= k < |runs| ==> runs[k].first <= runs[k].last < d.Blocks()
      invariant index > start ==> start in served || (|runs| > 0 && runs[0].first == start)
      invariant index == start ==> runs == []
      invariant cache.budget == 0 ==> served == {}
      invariant Untouched(d, old(cache.blocks), others, runs, cache.blocks)
      decreases stop - index
    {
      ghost var before := cache.blocks;
      var cached := cache.Get(d.Key(index));
      SameConsistent(d, before, cache.blocks);
      UntouchedBlocks(d, old(cache.blocks), others, runs, before, cache.blocks);
      UntouchedOthers(d, old(cache.blocks), others, runs, cache.blocks, waits);
      if cached.Some? {
        BlockServed(d, begin, end, download, runs, out, index);
        PossibleIs(d, cache.budget, others(waits));
        out := out + Slice(cached.value, index, d.blockSize, begin, end);
        served := served + {index};
        OthersRan(d, cache, others(waits));
        waits := waits + 1;
        index := index + 1;
      } else {
        var runEnd := RunEnd(d, cache, index, stop);
        var more;
        ghost var found := cache.blocks;
        more, waits := FetchRun(d, cache, begin, end, index, runEnd, download, others, waits);
        UntouchedRun(d, old(cache.blocks), others, runs, found, Fetched(index, runEnd));
        UntouchedOthers(d, old(cache.blocks), others, runs + [Fetched(index, runEnd)], found, waits - 1);
        BeginsBefore(d, begin, start, index, runEnd);
        RunServed(d, begin, end, download, runs, out, Fetched(index, runEnd), more);
        runs := runs + [Fetched(index, runEnd)];
        out := out + more;
        index := runEnd + 1;
      }
    }
    GaplessIff(d, begin, end, download, runs, out, stop);
    NeverFetched(d, old(cache.blocks), others, runs, cache.blocks);
  }

  lemma NeverFetched(d: Doc, q: seq<Slot>, others: nat -> seq<Slot>, runs: seq<Fetched>, now: seq<Slot>)
    requires Untouched(d, q, others, runs, now)
    ensures forall i: nat :: Stays(d, q, others, i) ==>
              forall k :: 0 <= k < |runs| ==> !(runs[k].first <= i <= runs[k].last)
  {
  }

  /** Block `i` is cached to begin with, and other tasks never evict it. */
  ghost predicate Stays(d: Doc, q: seq<Slot>, others: nat -> seq<Slot>, i: nat) {
    Has(q, d.Key(i)) && forall k :: Has(others(k), d.Key(i))
  }

  /** Every such block is cached now, and no run so far held it. */
  ghost predicate Untouched(d: Doc, q: seq<Slot>, others: nat -> seq<Slot>, runs: seq<Fetched>, now: seq<Slot>) {
    forall i: nat :: Stays(d, q, others, i) ==>
      Has(now, d.Key(i)) && forall k :: 0 <= k < |runs| ==> !(runs[k].first <= i <= runs[k].last)
  }

  lemma NoneTouched(d: Doc, q: seq<Slot>, others: nat -> seq<Slot>)
    ensures Untouched(d, q, others, [], q)
  {
  }

  lemma UntouchedBlocks(d: Doc, q: seq<Slot>, others: nat -> seq<Slot>, runs: seq<Fetched>, was: seq<Slot>,
                        now: seq<Slot>)
    requires Untouched(d, q, others, runs, was) && forall s :: s in now <==> s in was
    ensures Untouched(d, q, others, runs, now)
  {
    SameHas(was, now);
  }

  lemma UntouchedOthers(d: Doc, q: seq<Slot>, others: nat -> seq<Slot>, runs: seq<Fetched>, was: seq<Slot>, k: nat)
    requires Untouched(d, q, others, runs, was)
    ensures Untouched(d, q, others, runs, others(k))
  {
  }

  /** A run holds no block that stays cached. */
  lemma UntouchedRun(d: Doc, q: seq<Slot>, others: nat -> seq<Slot>, runs: seq<Fetched>, found: seq<Slot>, f: Fetched)
    requires Untouched(d, q, others, runs, found)
    requires !Has(found, d.Key(f.first)) && forall i :: f.first < i <= f.last ==> !Has(found, d.Key(i))
    ensures Untouched(d, q, others, runs + [f], found)
  {
    hide Stays, Has;
  }

  lemma SameHas(q: seq<Slot>, r: seq<Slot>)
    requires forall s :: s in r <==> s in q
    ensures forall key :: Has(q, key) ==> Has(r, key)
  {
    forall key | Has(q, key)
      ensures Has(r, key)
    {
      var s := q[Find(q, key)];
      assert s in q && s in r;
    }
  }

  /** The output up to block `index` is all that was asked for of the blocks before it if every run had
      enough, and shorter otherwise. */
  ghost predicate Gapless(d: Doc, begin: nat, end: nat, download: (nat, int) -> seq<bytes>, runs: seq<Fetched>,
                          out: bytes, index: nat)
  {
    if forall k :: 0 <= k < |runs| ==> Enough(d, end, download, runs[k])
    then out == Before(d, begin, end, index) else |out| < |Before(d, begin, end, index)|
  }

  lemma NoRuns(d: Doc, begin: nat, end: nat, download: (nat, int) -> seq<bytes>, index: nat)
    requires Before(d, begin, end, index) == []
    ensures Gapless(d, begin, end, download, [], [], index)
  {
    hide Before, Enough;
  }

  lemma BlockServed(d: Doc, begin: nat, end: nat, download: (nat, int) -> seq<bytes>, runs: seq<Fetched>, out: bytes,
                    index: nat)
    requires d.Valid() && index < d.Blocks() && Gapless(d, begin, end, download, runs, out, index)
    ensures Gapless(d, begin, end, download, runs, out + Slice(d.Block(index), index, d.blockSize, begin, end),
                    index + 1)
  {
    hide Before, Enough, Slice, Doc.Block, Doc.Blocks;
    SliceExtends(d, begin, end, index);
  }

  lemma RunServed(d: Doc, begin: nat, end: nat, download: (nat, int) -> seq<bytes>, runs: seq<Fetched>, out: bytes,
                  f: Fetched, more: bytes)
    requires d.Valid() && f.first <= f.last < d.Blocks() && begin < |d.content| && begin <= end
    requires begin < At(d, f.last + 1) <= |d.content| && At(d, f.first) + Sent(d, download, f) <= At(d, f.last + 1)
    requires Before(d, begin, end, f.first) + more == Reach(d, begin, end, At(d, f.first) + Sent(d, download, f))
    requires Gapless(d, begin, end, download, runs, out, f.first)
    ensures Gapless(d, begin, end, download, runs + [f], out + more, f.last + 1)
  {
    hide Before, Reach, Enough, Doc.Block, Doc.Blocks, At, Sent;
    RunIff(d, begin, end, f, download, more);
    RunsNext(d, end, download, runs, f);
  }

  lemma BeginsBefore(d: Doc, begin: nat, start: nat, index: nat, last: nat)
    requires d.Valid() && begin < |d.content| && start == begin / d.blockSize <= index <= last
    ensures begin < At(d, last + 1) <= |d.content|
  {
    hide At;
    AtMono(d, start + 1, last + 1);
    PastBegin(d, begin);
  }

  lemma GaplessIff(d: Doc, begin: nat, end: nat, download: (nat, int) -> seq<bytes>, runs: seq<Fetched>, out: bytes,
                   stop: nat)
    requires d.Valid() && Gapless(d, begin, end, download, runs, out, stop)
    requires forall k :: 0 <= k < |runs| ==> runs[k].first <= runs[k].last < d.Blocks()
    ensures out == Before(d, begin, end, stop) <==> forall k :: 0 <= k < |runs| ==> Enough(d, end, download, runs[k])
    ensures Exact(d, download) ==> out == Before(d, begin, end, stop)
  {
    hide Before, Enough, Exact, Doc.Blocks;
    if Exact(d, download) {
      forall k | 0 <= k < |runs|
        ensures Enough(d, end, download, runs[k])
      {
        ExactIsEnough(d, end, download, runs[k]);
      }
    }
  }

  lemma RunsNext(d: Doc, end: int, download: (nat, int) -> seq<bytes>, runs: seq<Fetched>, f: Fetched)
    ensures (forall k :: 0 <= k < |runs + [f]| ==> Enough(d, end, download, (runs + [f])[k]))
       <==> (forall k :: 0 <= k < |runs| ==> Enough(d, end, download, runs[k])) && Enough(d, end, download, f)
  {
    hide Enough;
    var all := runs + [f];
    assert forall k :: 0 <= k < |runs| ==> all[k] == runs[k];
    assert all[|runs|] == f;
  }

  /** A run adds what is asked of it exactly when enough was sent. */
  lemma RunIff(d: Doc, begin: nat, end: nat, f: Fetched, download: (nat, int) -> seq<bytes>, more: bytes)
    requires d.Valid() && f.first <= f.last < d.Blocks() && begin < |d.content| && begin <= end
    requires begin < At(d, f.last + 1) <= |d.content| && At(d, f.first) + Sent(d, download, f) <= At(d, f.last + 1)
    requires Before(d, begin, end, f.first) + more == Reach(d, begin, end, At(d, f.first) + Sent(d, download, f))
    ensures if Enough(d, end, download, f)
            then Before(d, begin, end, f.first) + more == Before(d, begin, end, f.last + 1)
            else |Before(d, begin, end, f.first) + more| < |Before(d, begin, end, f.last + 1)|
  {
    hide Reach, Sent, At, Doc.Blocks;
    ReachIff(d, begin, end, At(d, f.first) + Sent(d, download, f), At(d, f.last + 1));
  }

  lemma PastBegin(d: Doc, begin: nat)
    requires d.Valid() && begin < |d.content|
    ensures begin < At(d, begin / d.blockSize + 1)
  {
    DivMod(begin, d.blockSize);
  }

  lemma ExactIsEnough(d: Doc, end: int, download: (nat, int) -> seq<bytes>, f: Fetched)
    requires d.Valid() && f.first <= f.last < d.Blocks() && Exact(d, download)
    ensures Enough(d, end, download, f)
  {
    hide Flatten;
    BlockPlace(d, f.last);
    AtMono(d, f.first, f.last);
    StretchIsRange(d, f.first, f.last, At(d, f.first), At(d, f.last + 1) - 1);
  }

  lemma RangeClipped(w: bytes, begin: nat, end: nat, last: int)
    requires last == Min(end, |w| - 1) && begin <= last
    ensures Range(w, begin, end) == w[begin..last + 1]
  {
  }

  /** Two bytes in one-byte blocks, nothing cached, and a backend that sends nothing: the download ends
      as if it were complete. */
  method EndsShort() returns (d: Doc, out: bytes)
    ensures d.content == [7, 8] && out != Range(d.content, 0, 1)
  {
    d := Doc(1, 1, [7, 8], 1);
    var cache := new Cache(0);
    var download := (b: nat, e: int) => [];
    var others := (k: nat) => [];
    ghost var runs, served;
    assert Flatten<byte>([]) == [];
    out, runs, served := CachedDownload(d, cache, 0, 1, download, others);
    BlockPlace(d, runs[0].last);
    assert At(d, 0) == 0;
    assert At(d, runs[0].last + 1) > 0 by {
      AtMono(d, 1, runs[0].last + 1);
      PastBegin(d, 0);
    }
    assert !Enough(d, 1, download, runs[0]);
  }

  lemma SameConsistent(d: Doc, q: seq<Slot>, r: seq<Slot>)
    requires d.Valid() && Consistent(d, q) && forall s :: s in r <==> s in q
    ensures Consistent(d, r)
    ensures forall i, block :: Slot(d.Key(i), block) in q ==> 0 <= i < d.Blocks() && block == d.Block(i)
  {
    forall i, block | Slot(d.Key(i), block) in q
      ensures 0 <= i < d.Blocks() && block == d.Block(i)
    {
      assert Slot(d.Key(i), block).key.block == i;
    }
  }

  lemma BeforeClipped(d: Doc, begin: nat, end: nat, last: int, i: nat)
    requires last == Min(end, |d.content| - 1)
    ensures Before(d, begin, end, i) == Before(d, begin, last, i)
  {
  }
}
