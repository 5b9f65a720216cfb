/** Cutting a byte string into parts of one size, the last one short: upload parts
    (`plan_parts`, `_partition`), download pieces (`split_download_pieces`) and the pieces of
    a multi-source read. */
module Tiling {
  import opened Arith
  import opened Bytes

  /** The number of parts of `size` bytes it takes to cut `n` bytes. */
  function Count(n: nat, size: nat): nat
    requires size > 0
  {
    CeilDiv(n, size)
  }

  function Start(n: nat, size: nat, i: nat): (r: nat)
    ensures r <= n
  {
    Min(Mul(i, size), n)
  }

  /** Part `i` of `s`. */
  function Part<T>(s: seq<T>, size: nat, i: nat): seq<T> {
    StartMono(|s|, size, i);
    s[Start(|s|, size, i)..Start(|s|, size, i + 1)]
  }

  lemma StartMono(n: nat, size: nat, i: nat)
    ensures Start(n, size, i) <= Start(n, size, i + 1) <= Start(n, size, i) + size
  {
  }

  /** The first `k` parts. */
  function Parts<T>(s: seq<T>, size: nat, k: nat): (r: seq<seq<T>>)
    ensures |r| == k && forall i :: 0 <= i < k ==> r[i] == Part(s, size, i)
  {
    if k == 0 then [] else Parts(s, size, k - 1) + [Part(s, size, k - 1)]
  }

  lemma SliceJoin<T>(s: seq<T>, a: nat, b: nat)
    requires a <= b <= |s|
    ensures s[..a] + s[a..b] == s[..b]
  {
  }

  /** The first parts, joined, are a prefix of the whole. */
  lemma {:induction false} PartsPrefix<T>(s: seq<T>, size: nat, k: nat)
    ensures Flatten(Parts(s, size, k)) == s[..Start(|s|, size, k)]
  {
    if k > 0 {
      hide Start, Flatten;
      PartsPrefix(s, size, k - 1);
      FlattenAppend(Parts(s, size, k - 1), Part(s, size, k - 1));
      StartMono(|s|, size, k - 1);
      SliceJoin(s, Start(|s|, size, k - 1), Start(|s|, size, k));
    }
  }

  /** All parts, joined, are the whole; every part but the last has exactly `size` elements and
      the last is neither empty nor larger. */
  lemma PartsWhole<T>(s: seq<T>, size: nat)
    requires size > 0
    ensures Flatten(Parts(s, size, Count(|s|, size))) == s
    ensures forall i :: 0 <= i < Count(|s|, size) ==> 0 < |Part(s, size, i)| <= size
    ensures forall i :: 0 <= i < Count(|s|, size) - 1 ==> |Part(s, size, i)| == size
  {
    var n := Count(|s|, size);
    CeilDivBounds(|s|, size);
    PartsPrefix(s, size, n);
    assert s[..Start(|s|, size, n)] == s;
    forall i | 0 <= i < n
      ensures 0 < |Part(s, size, i)| <= size && (i < n - 1 ==> |Part(s, size, i)| == size)
    {
      PartLength(s, size, i);
    }
  }

  lemma PartLength<T>(s: seq<T>, size: nat, i: nat)
    requires size > 0 && i < Count(|s|, size)
    ensures 0 < |Part(s, size, i)| <= size
    ensures i < Count(|s|, size) - 1 ==> |Part(s, size, i)| == size
    ensures i == Count(|s|, size) - 1 ==> |Part(s, size, i)| == |s| - Mul(i, size)
  {
    var n := Count(|s|, size);
    CeilDivBounds(|s|, size);
    MulMono(i, n - 1, size);
    if i < n - 1 {
      MulMono(i + 1, n - 1, size);
    }
  }

  /** `IStore.plan_parts` for a store that cuts at `part` bytes. */
  function PlanParts(size: int, part: nat): seq<int>
    requires part > 0
  {
    if size <= 0 then [0]
    else
      var parts := (size + part - 1) / part;
      CeilDivBounds(size, part);
      seq(parts - 1, _ => part) + [size - (parts - 1) * part]
  }

  /** The planned sizes are the sizes of the parts the bytes are cut into. */
  lemma PlanPartsAreParts<T>(s: seq<T>, part: nat)
    requires part > 0 && |s| > 0
    ensures |PlanParts(|s|, part)| == Count(|s|, part)
    ensures forall i :: 0 <= i < Count(|s|, part) ==> PlanParts(|s|, part)[i] == |Part(s, part, i)|
  {
    var n := Count(|s|, part);
    CeilDivBounds(|s|, part);
    MulIsProduct(n - 1, part);
    forall i | 0 <= i < n
      ensures PlanParts(|s|, part)[i] == |Part(s, part, i)|
    {
      PartLength(s, part, i);
    }
  }

  // -- ranges of a document ---------------------------------------------------------------------

  /** The inclusive range of one piece within a document. */
  datatype Span = Span(begin: nat, end: int)

  /** The spans are the first pieces of the inclusive range `[begin, end]` of `doc`. */
  ghost predicate ArePieces<T>(doc: seq<T>, begin: nat, end: int, size: nat, spans: seq<Span>)
    requires begin <= end + 1 <= |doc|
  {
    forall i :: 0 <= i < |spans| ==>
      && spans[i].begin <= spans[i].end + 1 <= |doc|
      && doc[spans[i].begin..spans[i].end + 1] == Part(doc[begin..end + 1], size, i)
  }

  lemma SpanIsPiece<T>(doc: seq<T>, begin: nat, end: int, size: nat, i: nat, b: nat)
    requires begin <= end + 1 <= |doc| && size > 0 && b == begin + Mul(i, size) <= end
    ensures i < Count(end + 1 - begin, size)
    ensures b <= Min(b + size - 1, end) < |doc|
    ensures doc[b..Min(b + size - 1, end) + 1] == Part(doc[begin..end + 1], size, i)
  {
    var n := end + 1 - begin;
    CeilDivBounds(n, size);
    if i >= Count(n, size) {
      MulMono(Count(n, size), i, size);
    }
    assert Start(n, size, i) == b - begin;
    SubSlice(doc, begin, end + 1, b - begin, Start(n, size, i + 1));
  }

  lemma LastSpan(begin: nat, end: int, size: nat, n: nat)
    requires size > 0 && begin <= end + 1 && n <= Count(end + 1 - begin, size) && end < begin + Mul(n, size)
    ensures n == Count(end + 1 - begin, size)
  {
    CeilDivBounds(end + 1 - begin, size);
    if n < Count(end + 1 - begin, size) {
      MulMono(n, Count(end + 1 - begin, size) - 1, size);
    }
  }

  lemma PiecesGrow<T>(doc: seq<T>, begin: nat, end: int, size: nat, spans: seq<Span>, last: Span)
    requires begin <= end + 1 <= |doc| && ArePieces(doc, begin, end, size, spans)
    requires last.begin <= last.end + 1 <= |doc|
    requires doc[last.begin..last.end + 1] == Part(doc[begin..end + 1], size, |spans|)
    ensures ArePieces(doc, begin, end, size, spans + [last])
  {
    hide Part;
  }

  /** Cutting the inclusive range `[begin, end]`: one span per part, and the parts are the bytes
      between its bounds. */
  method Split<T>(begin: nat, end: int, size: nat, ghost doc: seq<T>) returns (spans: seq<Span>)
    requires begin <= end + 1 <= |doc| && size > 0
    ensures |spans| == Count(end + 1 - begin, size) && ArePieces(doc, begin, end, size, spans)
  {
    hide ArePieces, Part;
    spans := [];
    var b := begin;
    assert ArePieces(doc, begin, end, size, spans) by {
      NoPieces(doc, begin, end, size);
    }
    while b <= end
      invariant b == begin + Mul(|spans|, size) && |spans| <= Count(end + 1 - begin, size)
      invariant ArePieces(doc, begin, end, size, spans)
      decreases end + 1 - b
    {
      SpanIsPiece(doc, begin, end, size, |spans|, b);
      var last := Span(b, if b + size - 1 <= end then b + size - 1 else end);
      PiecesGrow(doc, begin, end, size, spans, last);
      spans := spans + [last];
      b := b + size;
    }
    LastSpan(begin, end, size, |spans|);
  }

  lemma NoPieces<T>(doc: seq<T>, begin: nat, end: int, size: nat)
    requires begin <= end + 1 <= |doc|
    ensures ArePieces(doc, begin, end, size, [])
  {
  }
}
