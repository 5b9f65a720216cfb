/** `tgdcfs/core/local_cache.py`, `CacheEntry`: which blocks of a version are on disk and
    what they weigh against the budget. */
module CacheBlocks {
  import opened Arith
  import opened Bytes

  function BlocksFor(size: nat, bs: nat): (n: nat)
    requires bs > 0
    ensures n == 0 <==> size == 0
  {
    CeilDivBounds(size, bs);
    CeilDiv(size, bs)
  }

  lemma BlocksForBounds(size: nat, bs: nat)
    requires bs > 0
    ensures var n := BlocksFor(size, bs);
            size <= Mul(n, bs) && (n > 0 ==> Mul(n - 1, bs) < size) && (n == 0 <==> size == 0)
  {
    CeilDivBounds(size, bs);
  }

  /** The block byte `x` lies in. */
  function BlockOf(x: nat, bs: nat): nat
    requires bs > 0
  {
    x / bs
  }

  lemma BlockOfBounds(x: nat, size: nat, bs: nat)
    requires bs > 0 && x < size
    ensures BlockOf(x, bs) < BlocksFor(size, bs)
  {
    BlocksForBounds(size, bs);
    DivMod(x, bs);
    var n := BlocksFor(size, bs);
    if BlockOf(x, bs) >= n {
      MulMono(n, x / bs, bs);
    }
  }

  /** Byte `x` is before offset `k * bs` exactly when its block is before block `k`. */
  lemma BlockOfBefore(x: nat, k: nat, bs: nat)
    requires bs > 0
    ensures BlockOf(x, bs) < k <==> x < Mul(k, bs)
  {
    DivMod(x, bs);
    if x / bs < k {
      MulMono(x / bs + 1, k, bs);
    } else {
      MulMono(k, x / bs, bs);
    }
  }

  datatype Entry = Entry(size: nat, bs: nat, present: seq<bool>, lastAccess: int, pins: nat, writing: bool,
                         inflight: nat, inc: nat)
  {
    predicate Valid() {
      bs > 0 && |present| == BlocksFor(size, bs) && (writing ==> inflight == 0)
    }

    predicate Evictable() { pins == 0 && !writing && inflight == 0 }

    predicate Complete() { forall i :: 0 <= i < |present| ==> present[i] }

    function PresentBytes(): nat
      requires Valid()
    {
      Weight(size, bs, present, |present|)
    }

    function Charged(): nat
      requires Valid()
    {
      if writing then size else PresentBytes() + inflight
    }

    predicate HasRange(begin: int, end: int)
      requires Valid()
    {
      if size == 0 then true
      else if begin < 0 || end >= size || begin > end then false
      else
        BlockOfBounds(end, size, bs);
        forall i :: BlockOf(begin, bs) <= i <= BlockOf(end, bs) ==> present[i]
    }
  }

  function BlockLength(size: nat, bs: nat, i: nat): (r: nat)
    requires bs > 0 && i < BlocksFor(size, bs)
    ensures r > 0
  {
    BlocksForBounds(size, bs);
    MulIsProduct(i, bs);
    if i < BlocksFor(size, bs) - 1 then bs else size - i * bs
  }

  /** The bytes of the first `k` blocks selected by `mask`. */
  function Weight(size: nat, bs: nat, mask: seq<bool>, k: nat): nat
    requires bs > 0 && |mask| == BlocksFor(size, bs) && k <= |mask|
  {
    if k == 0 then 0
    else Weight(size, bs, mask, k - 1) + (if mask[k - 1] then BlockLength(size, bs, k - 1) else 0)
  }

  lemma {:induction false} WeightFull(size: nat, bs: nat, mask: seq<bool>, k: nat)
    requires bs > 0 && |mask| == BlocksFor(size, bs) && k <= |mask|
    requires forall i :: 0 <= i < |mask| ==> mask[i]
    ensures Weight(size, bs, mask, k) == if k == |mask| then size else Mul(k, bs)
    decreases k
  {
    if k > 0 {
      WeightFull(size, bs, mask, k - 1);
      MulIsProduct(k - 1, bs);
    }
  }

  /** A complete entry weighs exactly the version's size: the step where a staged entry stops
      being charged whole changes nothing. */
  lemma CompleteWeighsSize(e: Entry)
    requires e.Valid() && e.Complete()
    ensures e.PresentBytes() == e.size
  {
    WeightFull(e.size, e.bs, e.present, |e.present|);
  }

  function Or(a: seq<bool>, b: seq<bool>): (r: seq<bool>)
    requires |a| == |b|
    ensures |r| == |a| && forall i :: 0 <= i < |a| ==> r[i] == (a[i] || b[i])
  {
    seq(|a|, i requires 0 <= i < |a| => a[i] || b[i])
  }

  function AndNot(a: seq<bool>, b: seq<bool>): (r: seq<bool>)
    requires |a| == |b|
    ensures |r| == |a| && forall i :: 0 <= i < |a| ==> r[i] == (a[i] && !b[i])
  {
    seq(|a|, i requires 0 <= i < |a| => a[i] && !b[i])
  }

  /** The blocks `[first, last)` out of `n`. */
  function Mask(n: nat, first: nat, last: nat): (r: seq<bool>)
    ensures |r| == n && forall i :: 0 <= i < n ==> r[i] == (first <= i < last)
  {
    seq(n, i requires 0 <= i < n => first <= i < last)
  }

  /** Marking `q` on top of `p` adds the weight of what `q` has and `p` lacks. */
  lemma {:induction false} WeightOr(size: nat, bs: nat, p: seq<bool>, q: seq<bool>, k: nat)
    requires bs > 0 && |p| == |q| == BlocksFor(size, bs) && k <= |p|
    ensures Weight(size, bs, Or(p, q), k) == Weight(size, bs, p, k) + Weight(size, bs, AndNot(q, p), k)
    decreases k
  {
    if k > 0 {
      WeightOr(size, bs, p, q, k - 1);
    }
  }

  lemma {:induction false} WeightMono(size: nat, bs: nat, p: seq<bool>, q: seq<bool>, k: nat)
    requires bs > 0 && |p| == |q| == BlocksFor(size, bs) && k <= |p|
    requires forall i :: 0 <= i < |p| && p[i] ==> q[i]
    ensures Weight(size, bs, p, k) <= Weight(size, bs, q, k)
    decreases k
  {
    if k > 0 {
      WeightMono(size, bs, p, q, k - 1);
    }
  }

  lemma BlockOfMono(x: nat, y: nat, bs: nat)
    requires bs > 0 && x <= y
    ensures BlockOf(x, bs) <= BlockOf(y, bs)
  {
    DivMono(x, y, bs);
  }

  /** Every block between the blocks of two bytes holds a byte between them. */
  lemma BlockHit(begin: nat, end: nat, i: nat, bs: nat) returns (x: nat)
    requires bs > 0 && begin <= end && BlockOf(begin, bs) <= i <= BlockOf(end, bs)
    ensures begin <= x <= end && BlockOf(x, bs) == i
  {
    if i == BlockOf(begin, bs) {
      return begin;
    }
    x := Mul(i, bs);
    DivModUnique(x, bs, i, 0);
    BlockOfBefore(begin, i, bs);
    BlockOfBefore(end, i, bs);
  }

  predicate ByteOnDisk(e: Entry, x: nat)
    requires e.bs > 0
  {
    BlockOf(x, e.bs) < |e.present| && e.present[BlockOf(x, e.bs)]
  }

  /** A range is on disk exactly when every byte of it lies in a present block. */
  lemma HasRangeIffBytes(e: Entry, begin: nat, end: nat)
    requires e.Valid() && e.size > 0
    ensures e.HasRange(begin, end) <==> begin <= end < e.size && forall x :: begin <= x <= end ==> ByteOnDisk(e, x)
  {
    hide BlockOf, BlocksFor;
    if begin <= end < e.size {
      BlockOfBounds(end, e.size, e.bs);
      if e.HasRange(begin, end) {
        forall x | begin <= x <= end
          ensures ByteOnDisk(e, x)
        {
          BlockOfMono(begin, x, e.bs);
          BlockOfMono(x, end, e.bs);
        }
      }
      if forall x :: begin <= x <= end ==> ByteOnDisk(e, x) {
        forall i | BlockOf(begin, e.bs) <= i <= BlockOf(end, e.bs)
          ensures e.present[i]
        {
          var x := BlockHit(begin, end, i, e.bs);
          assert ByteOnDisk(e, x);
        }
      }
    }
  }

  // missing_runs.

  predicate InRun(r: (int, int), x: int) { r.0 <= x <= r.1 }

  predicate InRuns(runs: seq<(int, int)>, x: int) {
    exists i :: 0 <= i < |runs| && InRun(runs[i], x)
  }

  /** The inclusive byte range of blocks `[first, last]`. */
  function RunBytes(e: Entry, first: nat, last: nat): (int, int)
    requires e.Valid() && last < |e.present|
  {
    (first * e.bs, last * e.bs + BlockLength(e.size, e.bs, last) - 1)
  }

  lemma RunBytesExact(e: Entry, first: nat, last: nat, x: nat)
    requires e.Valid() && last < |e.present|
    ensures InRun(RunBytes(e, first, last), x) <==> x < e.size && first <= BlockOf(x, e.bs) <= last
  {
    BlocksForBounds(e.size, e.bs);
    MulIsProduct(first, e.bs);
    MulIsProduct(last, e.bs);
    BlockOfBefore(x, first, e.bs);
    BlockOfBefore(x, last + 1, e.bs);
    if last < |e.present| - 1 {
      MulMono(last + 1, |e.present| - 1, e.bs);
    } else if x < e.size {
      BlockOfBounds(x, e.size, e.bs);
    }
  }

  /** The bytes the runs have to cover: those of the absent blocks `[first, last]`. */
  predicate Wanted(e: Entry, first: nat, last: int, x: nat)
    requires e.bs > 0
  {
    x < e.size && first <= BlockOf(x, e.bs) <= last && !ByteOnDisk(e, x)
  }

  /** Every run is whole blocks of absent bytes. */
  predicate WholeBlocks(e: Entry, runs: seq<(int, int)>)
    requires e.Valid()
  {
    forall i :: 0 <= i < |runs| ==>
      exists a: nat, b: nat :: a <= b < |e.present| && runs[i] == RunBytes(e, a, b)
  }

  /** Runs in increasing order, with at least one byte between two of them. */
  predicate Separated(runs: seq<(int, int)>) {
    forall i :: 0 <= i < |runs| - 1 ==> runs[i].1 + 1 < runs[i + 1].0
  }

  lemma RunEnd(e: Entry, first: nat, last: nat)
    requires e.Valid() && last < |e.present|
    ensures RunBytes(e, first, last).1 == RunBytes(e, last, last).1
  {
  }

  lemma RunGap(e: Entry, prev: nat, first: nat, last: nat)
    requires e.Valid() && prev + 1 < first <= last < |e.present|
    ensures RunBytes(e, prev, prev).1 + 1 < RunBytes(e, first, last).0
  {
    MulIsProduct(prev, e.bs);
    MulIsProduct(first, e.bs);
    MulMono(prev + 2, first, e.bs);
  }

  lemma AppendRun(runs: seq<(int, int)>, r: (int, int), x: int)
    ensures InRuns(runs + [r], x) <==> InRuns(runs, x) || InRun(r, x)
  {
    var all := runs + [r];
    if InRuns(runs, x) {
      var i :| 0 <= i < |runs| && InRun(runs[i], x);
      assert InRun(all[i], x);
    }
    if InRun(r, x) {
      assert InRun(all[|runs|], x);
    }
  }

  /** The missing runs of `[begin, end]`, widened to whole blocks: they cover exactly the bytes
      of the touched blocks that are not on disk, in order and without overlap. */
  method MissingRuns(e: Entry, begin: nat, end: int) returns (runs: seq<(int, int)>)
    requires e.Valid() && end >= -1
    ensures WholeBlocks(e, runs) && Separated(runs)
    ensures forall x: nat :: InRuns(runs, x) <==>
              e.size > 0
              && Wanted(e, BlockOf(begin, e.bs),
                        if Min(end, e.size - 1) < 0 then -1 else BlockOf(Min(end, e.size - 1), e.bs), x)
  {
    hide BlocksFor, BlockOf, RunBytes;
    runs := [];
    if e.size == 0 {
      return;
    }
    var clipped := Min(end, e.size - 1);
    var first: nat := BlockOf(begin, e.bs);
    var last: int := if clipped < 0 then -1 else BlockOf(clipped, e.bs);
    if clipped >= 0 {
      BlockOfBounds(clipped, e.size, e.bs);
    }
    var start := -1;
    var index := first;
    ghost var prev: nat := 0;
    while index <= last + 1
      invariant first <= index && last < |e.present|
      invariant -1 <= start < index && (start >= 0 ==> first <= start && index <= last + 1)
      invariant forall i :: start >= 0 && start <= i < index ==> !e.present[i]
      invariant WholeBlocks(e, runs) && Separated(runs)
      invariant index <= last + 1 ==>
                forall x: nat :: InRuns(runs, x) <==> Wanted(e, first, (if start >= 0 then start else index) - 1, x)
      invariant index > last + 1 ==> start < 0 && forall x: nat :: InRuns(runs, x) <==> Wanted(e, first, last, x)
      invariant |runs| > 0 ==> prev + 1 < (if start >= 0 then start else index)
      invariant |runs| > 0 ==> prev < |e.present| && runs[|runs| - 1].1 == RunBytes(e, prev, prev).1
      decreases last + 1 - index
    {
      var missing := index <= last && !e.present[index];
      if missing && start < 0 {
        start := index;
      } else if !missing && start >= 0 {
        var run := RunBytes(e, start, index - 1);
        forall x: nat
          ensures InRuns(runs + [run], x) <==> Wanted(e, first, index - 1, x)
        {
          AppendRun(runs, run, x);
          RunBytesExact(e, start, index - 1, x);
        }
        assert RunBytes(e, index - 1, index - 1).1 == run.1 by {
          RunEnd(e, start, index - 1);
        }
        if |runs| > 0 {
          RunGap(e, prev, start, index - 1);
        }
        prev := index - 1;
        runs := runs + [run];
        start := -1;
      }
      index := index + 1;
    }
  }
}
