/** The scheduler object itself: `MultiSourceRead` with the fields its workers and its consumer
    share. Each method is one stretch between awaits, proved to be a step of the machine. */
module MultiSourceObject {
  import opened Bytes
  import opened Tiling
  import opened RangeMap
  import opened MultiSource
  import opened MultiSourceSafety

  lemma KeysWithin(r: Read, known: set<Store>)
    ensures r.Keys() <= known <==> forall j :: 0 <= j < |r.views| ==> r.views[j].key in known
  {
    if r.Keys() <= known {
      forall j | 0 <= j < |r.views|
        ensures r.views[j].key in known
      {
        assert r.views[j] in r.views;
      }
    }
  }

  /** A worker's look at the list turns up `piece`: none exactly when it could claim nothing. */
  ghost predicate Claimed(r: Read, s: State, t: State, w: Worker, piece: Option<nat>)
    requires r.Valid()
  {
    match piece
    case None => t == s && forall at: nat :: !Enabled(r, s, Claim(w, at))
    case Some(p) =>
      exists at: nat :: Enabled(r, s, Claim(w, at)) && p == s.pending[at] && t == Apply(r, s, Claim(w, at))
  }

  lemma EmitsPiece(r: Read, s: State)
    requires r.Valid() && Inv(r, s) && Enabled(r, s, Action.Emit)
    ensures s.results[s.next] == r.Piece(s.next)
  {
  }

  lemma SomeLeft(r: Read, tried: set<Store>, benched: set<Store>)
    ensures r.Keys() <= tried + benched <==> forall v :: v in r.views ==> v.key in tried || v.key in benched
  {
    KeysWithin(r, tried + benched);
  }

  lemma FailedIs(r: Read, s: State, w: Worker)
    requires r.Valid() && Enabled(r, s, Return(w, Err))
    ensures var t, k, p := Apply(r, s, Return(w, Err)), r.Key(w), s.flight[w];
      && t.failures == s.failures[k := s.failures[k] + 1] && t.tried == s.tried[p := s.tried[p] + {k}]
      && t.benched == (if s.failures[k] + 1 >= BENCH_AFTER then s.benched + {k} else s.benched)
      && (if r.Keys() <= t.tried[p] + t.benched then t.fatal == Some(p) && t.pending == s.pending
          else t.fatal == s.fatal && t.pending == Insert(s.pending, p))
      && t == s.(tried := t.tried, failures := t.failures, benched := t.benched, flight := s.flight - {w},
                 log := s.log + [Fetched(k, p, false)], fatal := t.fatal, pending := t.pending)
  {
    hide Insert, Read.Keys, Read.Piece;
  }

  lemma PendingKnown(r: Read, s: State)
    requires r.Valid() && Inv(r, s)
    ensures Shape(r, s) && Ascending(s.pending)
  {
  }

  /** The views whose store has neither failed the piece nor been benched. */
  method Remaining(r: Read, tried: set<Store>, benched: set<Store>) returns (left: seq<View>)
    ensures left == [] <==> r.Keys() <= tried + benched
    ensures forall v :: v in left <==> v in r.views && v.key !in tried && v.key !in benched
  {
    left := [];
    for i := 0 to |r.views|
      invariant left == [] <==> forall j :: 0 <= j < i ==> r.views[j].key in tried + benched
      invariant forall v :: v in left <==> v in r.views[..i] && v.key !in tried && v.key !in benched
    {
      assert r.views[..i + 1] == r.views[..i] + [r.views[i]];
      if r.views[i].key !in tried && r.views[i].key !in benched {
        left := left + [r.views[i]];
      }
    }
    assert r.views[..|r.views|] == r.views;
    KeysWithin(r, tried + benched);
  }

  class MultiSourceRead {
    const read: Read
    const pieces: seq<Span>
    var pending: seq<nat>
    var results: map<nat, bytes>
    var nextToEmit: nat
    var tried: seq<set<Store>>
    var failures: map<Store, nat>
    var benched: set<Store>
    var fatal: Option<nat>
    ghost var flight: map<Worker, nat>
    ghost var exited: set<Worker>
    ghost var over: bool
    ghost var out: bytes
    ghost var log: seq<Fetched>

    ghost function Now(): State
      reads this
    {
      State(pending, results, nextToEmit, tried, failures, benched, fatal, flight, exited, over, out, log)
    }

    ghost predicate Valid()
      reads this
    {
      && read.Valid() && |pieces| == read.Pieces()
      && ArePieces(read.version, read.begin, read.end, read.pieceSize, pieces)
      && Inv(read, Now())
    }

    constructor (r: Read)
      requires r.Valid()
      ensures read == r && Valid() && Now() == Init(r)
    {
      hide Inv, ArePieces;
      var spans := Split(r.begin, r.end, r.pieceSize, r.version);
      InitInv(r);
      read, pieces := r, spans;
      pending, results, nextToEmit := Upto(r.Pieces()), map[], 0;
      tried := seq(r.Pieces(), _ => {});
      failures, benched, fatal := map k | k in r.Keys() :: 0, {}, None;
      flight, exited, over, out, log := map[], {}, false, [], [];
      new;
      assert Now().tried == Init(r).tried;
    }

    /** The next piece this worker's store may take: the first in the list inside the window that
        it has not tried. */
    method Claim(w: Worker) returns (piece: Option<nat>)
      requires Valid() && !over && read.HasWorker(w) && w !in flight && w !in exited
      requires fatal.None? && nextToEmit < read.Pieces() && read.Key(w) !in benched
      modifies this`pending, this`flight
      ensures Valid() && Claimed(read, old(Now()), Now(), w, piece)
      ensures piece.Some? ==> flight == old(flight)[w := piece.value] && piece.value < nextToEmit + read.Window()
      ensures piece.Some? ==> piece.value < |tried| && read.Key(w) !in tried[piece.value]
      ensures piece.Some? ==> exists i ::
                && 0 <= i < |old(pending)| && old(pending)[i] == piece.value
                && pending == old(pending)[..i] + old(pending)[i + 1..]
                && forall j :: 0 <= j < i ==> old(pending)[j] < |tried| && read.Key(w) in tried[old(pending)[j]]
      ensures piece.None? ==> forall p :: p in pending ==>
                p < |tried| && (p >= nextToEmit + read.Window() || read.Key(w) in tried[p])
    {
      hide Inv, ArePieces, Read.Piece, Read.Keys;
      PendingKnown(read, Now());
      var key, limit := read.Key(w), nextToEmit + read.Window();
      var i := 0;
      while i < |pending|
        invariant 0 <= i <= |pending| && Now() == old(Now())
        invariant forall j :: 0 <= j < i ==> pending[j] < limit && key in tried[pending[j]]
      {
        if pending[i] >= limit {
          return None;
        }
        if key !in tried[pending[i]] {
          StepKeepsInv(read, Now(), Action.Claim(w, i));
          piece := Some(pending[i]);
          flight := flight[w := pending[i]];
          pending := pending[..i] + pending[i + 1..];
          return;
        }
        i := i + 1;
      }
      return None;
    }

    /** A fetch failed. The piece goes back to the list for the stores left; with none left the
        read has failed. */
    method FetchFailed(w: Worker, piece: nat)
      requires Valid() && w in flight && flight[w] == piece && Enabled(read, Now(), Return(w, Err))
      modifies this
      ensures Valid() && Now() == Apply(read, old(Now()), Return(w, Err))
      ensures piece < |old(tried)| && read.Key(w) in old(failures) && flight == old(flight) - {w}
      ensures tried == old(tried)[piece := old(tried)[piece] + {read.Key(w)}]
      ensures benched == old(benched) + if old(failures)[read.Key(w)] + 1 >= BENCH_AFTER then {read.Key(w)} else {}
      ensures if forall v :: v in read.views ==> v.key in tried[piece] || v.key in benched
              then fatal == Some(piece) && pending == old(pending)
              else fatal == old(fatal) && multiset(pending) == multiset(old(pending)) + multiset{piece}
      ensures results == old(results) && nextToEmit == old(nextToEmit) && out == old(out)
    {
      hide Inv, ArePieces, Read.Keys, Insert, Read.Piece, Apply, Failed, Read.Valid;
      StepKeepsInv(read, Now(), Return(w, Err));
      FailedIs(read, Now(), w);
      var key := read.Key(w);
      flight := flight - {w};
      log := log + [Fetched(key, piece, false)];
      Charge(key, piece);
      var remaining := Remaining(read, tried[piece], benched);
      SomeLeft(read, tried[piece], benched);
      InsertKeepsAll(pending, piece);
      if remaining == [] {
        fatal := Some(piece);
      } else {
        pending := Insert(pending, piece);
      }
    }

    /** The store has failed this piece; after too many failures in a row it is benched. */
    method Charge(key: Store, piece: nat)
      requires piece < |tried| && key in failures
      modifies this`tried, this`failures, this`benched
      ensures tried == old(tried)[piece := old(tried)[piece] + {key}]
      ensures failures == old(failures)[key := old(failures)[key] + 1]
      ensures benched == if old(failures)[key] + 1 >= BENCH_AFTER then old(benched) + {key} else old(benched)
    {
      tried := tried[piece := tried[piece] + {key}];
      failures := failures[key := failures[key] + 1];
      if failures[key] >= BENCH_AFTER {
        benched := benched + {key};
      }
    }

    method FetchDelivered(w: Worker, piece: nat, data: bytes)
      requires Valid() && w in flight && flight[w] == piece && Enabled(read, Now(), Return(w, Ok(data)))
      modifies this
      ensures Valid() && Now() == Apply(read, old(Now()), Return(w, Ok(data)))
      ensures results == old(results)[piece := data] && flight == old(flight) - {w} && pending == old(pending)
      ensures failures == old(failures)[read.Key(w) := 0] && benched == old(benched) && fatal == old(fatal)
    {
      hide Inv, ArePieces, Read.Keys, Read.Piece;
      StepKeepsInv(read, Now(), Return(w, Ok(data)));
      var key := read.Key(w);
      flight := flight - {w};
      log := log + [Fetched(key, piece, true)];
      failures := failures[key := 0];
      results := results[piece := data];
    }

    /** The consumer takes the piece that is due. */
    method Emit() returns (data: bytes)
      requires Valid() && Enabled(read, Now(), Action.Emit)
      modifies this`results, this`nextToEmit, this`out
      ensures Valid() && Now() == Apply(read, old(Now()), Action.Emit)
      ensures data == read.Piece(old(nextToEmit)) && out == old(out) + data
      ensures nextToEmit == old(nextToEmit) + 1 && results == old(results) - {old(nextToEmit)}
    {
      hide Inv, ArePieces;
      StepKeepsInv(read, Now(), Action.Emit);
      EmitsPiece(read, Now());
      data := results[nextToEmit];
      results := results - {nextToEmit};
      nextToEmit := nextToEmit + 1;
      out := out + data;
    }
  }

  // -- one fetch --------------------------------------------------------------------------------

  /** How a store answers for the messages of one layout: an error, or chunks carrying a prefix of
      the range asked for (a stream may end early). */
  ghost predicate Serves(download: (int, int, int) -> Result<seq<bytes>>, ids: seq<int>, parts: seq<bytes>) {
    && |ids| == |parts|
    && forall i, b, e :: 0 <= i < |parts| && 0 <= b <= e < |parts[i]| && download(ids[i], b, e).Ok? ==>
         Flatten(download(ids[i], b, e).value) <= Range(parts[i], b, e)
  }

  /** The store answers every range in full. */
  ghost predicate ServesAll(download: (int, int, int) -> Result<seq<bytes>>, ids: seq<int>, parts: seq<bytes>) {
    && |ids| == |parts|
    && forall i, b, e :: 0 <= i < |parts| && 0 <= b <= e < |parts[i]| ==>
         download(ids[i], b, e).Ok? && Flatten(download(ids[i], b, e).value) == Range(parts[i], b, e)
  }

  lemma {:induction false} CoveredInPart(ids: seq<int>, sizes: seq<nat>, ranges: seq<PartRange>, begin: int, stop: int,
                                         k: nat)
    requires Covers(ids, sizes, ranges, begin, stop) && k < |ranges|
    ensures InPart(ids, sizes, ranges[k])
  {
    if k < |ranges| - 1 {
      CoveredInPart(ids, sizes, ranges[..|ranges| - 1], begin,
                    Offset(sizes, ranges[|ranges| - 1].part) + ranges[|ranges| - 1].begin, k);
    }
  }

  /** The mapped ranges fetched in order are accepted only when they are the piece; a store that
      answers in full is never turned down. */
  method Fetch(ids: seq<int>, sizes: seq<nat>, begin: nat, end: int,
               download: (int, int, int) -> Result<seq<bytes>>, ghost parts: seq<bytes>)
    returns (res: Result<bytes>)
    requires HasSizes(parts, sizes) && Serves(download, ids, parts)
    requires begin <= end < |Flatten(parts)|
    ensures res.Ok? ==> res.value == Flatten(parts)[begin..end + 1]
    ensures ServesAll(download, ids, parts) ==> res.Ok?
  {
    var size := 0;
    for i := 0 to |sizes|
      invariant size == Offset(sizes, i)
    {
      OffsetNext(sizes, i);
      size := size + sizes[i];
    }
    WholeSize(parts, sizes);
    assert sizes[..|sizes|] == sizes;
    var mapped := MapRange(ids, sizes, size, begin, end);
    if mapped.Err? {
      return Err;
    }
    var ranges := mapped.value;
    CoveredBytes(ids, sizes, ranges, begin, end + 1, parts);
    var out := FetchRanges(ids, sizes, ranges, begin, end + 1, download, parts);
    if out.Err? {
      return Err;
    }
    if |out.value| != end - begin + 1 {
      return Err;
    }
    return out;
  }

  /** What the ranges yield one after the other is no longer than they are, and right if it is as
      long. */
  method FetchRanges(ids: seq<int>, ghost sizes: seq<nat>, ranges: seq<PartRange>, ghost begin: nat, ghost stop: int,
                     download: (int, int, int) -> Result<seq<bytes>>, ghost parts: seq<bytes>)
    returns (res: Result<bytes>)
    requires HasSizes(parts, sizes) && Serves(download, ids, parts) && Covers(ids, sizes, ranges, begin, stop)
    ensures res.Ok? && |res.value| == |Flatten(Slices(parts, ranges))| ==> res.value == Flatten(Slices(parts, ranges))
    ensures ServesAll(download, ids, parts) ==> res == Ok(Flatten(Slices(parts, ranges)))
  {
    hide Flatten, Covers, HasSizes, Range;
    var out: bytes := [];
    ghost var answers: seq<bytes> := [];
    ghost var want := Slices(parts, ranges);
    assert out == Flatten(answers) by {
      FlattenNone<byte>();
    }
    for k := 0 to |ranges|
      invariant |answers| == k && out == Flatten(answers)
      invariant forall j :: 0 <= j < k ==> answers[j] <= want[j]
      invariant ServesAll(download, ids, parts) ==> forall j :: 0 <= j < k ==> answers[j] == want[j]
    {
      CoveredInPart(ids, sizes, ranges, begin, stop, k);
      SameSizes(parts, sizes);
      var answer := download(ranges[k].id, ranges[k].begin, ranges[k].end);
      if answer.Err? {
        return Err;
      }
      var got := Join(answer.value);
      FlattenAppend(answers, got);
      answers := answers + [got];
      out := out + got;
    }
    FullLengthIsExact(answers, want);
    if ServesAll(download, ids, parts) {
      assert answers == want;
    }
    return Ok(out);
  }

  lemma SameSizes(parts: seq<bytes>, sizes: seq<nat>)
    requires HasSizes(parts, sizes)
    ensures |parts| == |sizes| && forall i :: 0 <= i < |parts| ==> |parts[i]| == sizes[i]
  {
  }

  lemma WholeSize(parts: seq<bytes>, sizes: seq<nat>)
    requires HasSizes(parts, sizes)
    ensures Sum(sizes) == |Flatten(parts)|
  {
    OffsetIsLength(parts, sizes, |parts|);
    assert parts[..|parts|] == parts && sizes[..|sizes|] == sizes;
  }

  method Join(chunks: seq<bytes>) returns (out: bytes)
    ensures out == Flatten(chunks)
  {
    out := [];
    for i := 0 to |chunks|
      invariant out == Flatten(chunks[..i])
    {
      assert chunks[..i + 1] == chunks[..i] + [chunks[i]];
      FlattenAppend(chunks[..i], chunks[i]);
      out := out + chunks[i];
    }
    assert chunks[..|chunks|] == chunks;
  }
}
