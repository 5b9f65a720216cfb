/** Byte strings, chunk sequences and the Option/Result types shared by every component. */
module Bytes {

  newtype byte = x: int | 0 <= x < 256
  type bytes = seq<byte>

  datatype Option<+T> = None | Some(value: T)

  /** The outcome of a Python call that may raise. */
  datatype Result<+T> = Ok(value: T) | Err

  function Min(a: int, b: int): int { if a <= b then a else b }

  function Max(a: int, b: int): int { if a >= b then a else b }

  /** The bytes a stream of chunks carries. */
  function Flatten<T>(chunks: seq<seq<T>>): seq<T> {
    if |chunks| == 0 then [] else Flatten(chunks[..|chunks| - 1]) + chunks[|chunks| - 1]
  }

  lemma FlattenAppend<T>(chunks: seq<seq<T>>, last: seq<T>)
    ensures Flatten(chunks + [last]) == Flatten(chunks) + last
  {
    assert (chunks + [last])[..|chunks|] == chunks;
  }

  lemma FlattenNone<T>()
    ensures Flatten<T>([]) == []
  {
  }

  lemma {:induction false} FlattenConcat<T>(a: seq<seq<T>>, b: seq<seq<T>>)
    ensures Flatten(a + b) == Flatten(a) + Flatten(b)
    decreases |b|
  {
    if |b| == 0 {
      assert a + b == a;
    } else {
      var init := b[..|b| - 1];
      assert a + b == (a + init) + [b[|b| - 1]];
      FlattenAppend(a + init, b[|b| - 1]);
      FlattenConcat(a, init);
    }
  }

  lemma FlattenCons<T>(head: seq<T>, tail: seq<seq<T>>)
    ensures Flatten([head] + tail) == head + Flatten(tail)
  {
    FlattenConcat([head], tail);
    FlattenAppend([], head);
    assert [] + [head] == [head];
  }

  /** The chunks from position `k` on are chunk `k` followed by the rest. */
  lemma FlattenDrop<T>(chunks: seq<seq<T>>, k: nat)
    requires k < |chunks|
    ensures Flatten(chunks[k..]) == chunks[k] + Flatten(chunks[k + 1..])
  {
    assert chunks[k..] == [chunks[k]] + chunks[k + 1..];
    FlattenCons(chunks[k], chunks[k + 1..]);
  }

  lemma SubSlice<T>(w: seq<T>, lo: nat, hi: nat, a: nat, b: nat)
    requires lo <= hi <= |w| && a <= b <= hi - lo
    ensures w[lo..hi][a..b] == w[lo + a..lo + b]
  {
    var x, y := w[lo..hi][a..b], w[lo + a..lo + b];
    forall k | 0 <= k < |x|
      ensures x[k] == y[k]
    {
      assert w[lo..hi][a + k] == w[lo + (a + k)];
    }
  }

  lemma Middle<T>(a: seq<T>, p: seq<T>, z: seq<T>)
    ensures (a + (p + z))[|a|..|a| + |p|] == p
  {
  }

  lemma SliceThenSlice<T>(w: seq<T>, a: nat, b: nat, c: nat)
    requires a <= b <= c <= |w|
    ensures w[a..b] + w[b..c] == w[a..c]
  {
  }

  /** Two neighbouring slices, under names of their own, are one. */
  lemma JoinSlices<T>(w: seq<T>, a: nat, b: nat, c: nat, x: seq<T>, y: seq<T>, z: seq<T>)
    requires a <= b <= c <= |w| && x == w[a..b] && y == w[b..c] && z == w[a..c]
    ensures x + y == z
  {
    SliceThenSlice(w, a, b, c);
  }

  lemma SplitAt<T>(s: seq<T>, n: nat, x: seq<T>, y: seq<T>)
    requires n <= |s| && x == s[..n] && y == s[n..]
    ensures s == x + y
  {
  }

  lemma PrefixOfPrefix<T>(a: seq<T>, b: seq<T>, all: seq<T>, w: seq<T>)
    requires a + b == all && all <= w
    ensures a <= w
  {
    assert a == all[..|a|];
  }

  lemma Associate<T>(a: seq<T>, b: seq<T>, c: seq<T>)
    ensures a + (b + c) == (a + b) + c
  {
  }

  function Sum(ns: seq<nat>): nat {
    if |ns| == 0 then 0 else Sum(ns[..|ns| - 1]) + ns[|ns| - 1]
  }

  lemma SumAppend(ns: seq<nat>, n: nat)
    ensures Sum(ns + [n]) == Sum(ns) + n
  {
    assert (ns + [n])[..|ns|] == ns;
  }

  lemma {:induction false} SumAt(ns: seq<nat>, i: nat, v: nat)
    requires i < |ns|
    ensures Sum(ns[i := v]) == Sum(ns) - ns[i] + v
  {
    var n := |ns| - 1;
    if i < n {
      SumAt(ns[..n], i, v);
      assert ns[i := v][..n] == ns[..n][i := v];
    } else {
      assert ns[i := v][..n] == ns[..n];
    }
  }

  /** `b` written at offset `off` of the file `d`; a gap before it reads as zeros, and an empty
      write changes nothing. */
  function Overlay(d: bytes, off: nat, b: bytes): (r: bytes)
    ensures b == [] ==> r == d
    ensures b != [] ==> |r| == Max(|d|, off + |b|)
    ensures b != [] ==> forall x :: 0 <= x < |r| ==>
              r[x] == if off <= x < off + |b| then b[x - off] else if x < |d| then d[x] else 0
  {
    if b == [] then d else
    seq(Max(|d|, off + |b|), x requires 0 <= x < Max(|d|, off + |b|) =>
          if off <= x < off + |b| then b[x - off] else if x < |d| then d[x] else 0)
  }

  /** At most the first `n` elements. */
  function Take<T>(s: seq<T>, n: nat): seq<T> { if n <= |s| then s[..n] else s }

  /** The inclusive byte range `[begin, end]` of `s`, clipped to its length. */
  function Range<T>(s: seq<T>, begin: int, end: int): seq<T> {
    var lo, hi := Max(0, begin), Min(|s|, end + 1);
    if lo < hi then s[lo..hi] else []
  }
}
