/** Every schedule of the multi-source read keeps its invariant: each piece is in exactly one
    place, the output is a prefix of the range asked for, the window bounds what is held, and
    the completed fetches are bounded by pieces times stores. */
module MultiSourceSafety {
  import opened Arith
  import opened Bytes
  import opened Sums
  import opened Tiling
  import opened MultiSource

  lemma InitInv(r: Read)
    requires r.Valid()
    ensures Inv(r, Init(r))
  {
    var s := Init(r);
    assert r.views[0] in r.views && r.views[0].key in r.Keys();
    assert Accounted(r, s) by {
      forall p | 0 <= p < r.Pieces()
        ensures p in s.pending
      {
        assert s.pending[p] == p;
      }
    }
    InitLeft(r, s, r.Pieces());
    var left := LeftOver(r, s);
    assert left == left[..r.Pieces()];
  }

  lemma {:induction false} InitLeft(r: Read, s: State, n: nat)
    requires r.Valid() && s == Init(r) && Shape(r, s) && n <= r.Pieces()
    ensures Sum(LeftOver(r, s)[..n]) == Mul(n, |r.Keys()|)
  {
    var left := LeftOver(r, s);
    if n > 0 {
      InitLeft(r, s, n - 1);
      assert left[n - 1] == |r.Keys()|;
      assert left[..n] == left[..n - 1] + [left[n - 1]];
      SumAppend(left[..n - 1], left[n - 1]);
    }
  }

  lemma StepShape(r: Read, s: State, a: Action)
    requires r.Valid() && Shape(r, s) && Enabled(r, s, a)
    ensures Shape(r, Apply(r, s, a))
  {
    match a
    case Return(w, answer) =>
      if answer.Err? {
        ReturnShape(r, s, w);
      }
    case _ =>
  }

  lemma ReturnShape(r: Read, s: State, w: Worker)
    requires r.Valid() && Shape(r, s) && Enabled(r, s, Return(w, Err))
    ensures Shape(r, Apply(r, s, Return(w, Err)))
  {
    var t := Apply(r, s, Return(w, Err));
    var p := s.flight[w];
    forall i | 0 <= i < |t.pending|
      ensures t.pending[i] < r.Pieces()
    {
      InsertMembers(s.pending, p, t.pending[i]);
      assert t.pending[i] in t.pending;
    }
  }

  // -- each piece in one place ----------------------------------------------------------------

  lemma RemoveMembers(q: seq<nat>, at: nat)
    requires Ascending(q) && at < |q|
    ensures Ascending(q[..at] + q[at + 1..])
    ensures forall x :: x in q[..at] + q[at + 1..] <==> x in q && x != q[at]
  {
    var u := q[..at] + q[at + 1..];
    forall x | x in q && x != q[at]
      ensures x in u
    {
      var i :| 0 <= i < |q| && q[i] == x;
      assert u[if i < at then i else i - 1] == x;
    }
  }

  lemma InsertKeeps(pending: seq<nat>, p: nat)
    ensures forall x :: x in Insert(pending, p) <==> x == p || x in pending
    ensures Ascending(pending) && p !in pending ==> Ascending(Insert(pending, p))
  {
    forall x
      ensures x in Insert(pending, p) <==> x == p || x in pending
    {
      if x in Insert(pending, p) || x in pending || x == p {
        InsertMembers(pending, p, x);
      }
    }
    if Ascending(pending) && p !in pending {
      InsertSorts(pending, p);
    }
  }

  lemma ClaimApart(r: Read, s: State, w: Worker, at: nat)
    requires r.Valid() && Shape(r, s) && Apart(r, s) && Enabled(r, s, Claim(w, at))
    ensures Apart(r, Apply(r, s, Claim(w, at)))
  {
    hide Ascending;
    var t := Apply(r, s, Claim(w, at));
    var p := s.pending[at];
    RemoveMembers(s.pending, at);
    assert forall q :: q in t.pending <==> q in s.pending && q != p;
    assert p in s.pending;
    forall x | x in t.flight && x != w
      ensures x in s.flight && t.flight[x] == s.flight[x] != p
    {
    }
  }

  lemma ReturnApart(r: Read, s: State, w: Worker, answer: Result<bytes>)
    requires r.Valid() && Shape(r, s) && Apart(r, s) && Enabled(r, s, Return(w, answer))
    ensures Apart(r, Apply(r, s, Return(w, answer)))
  {
    hide Ascending, Insert;
    InsertKeeps(s.pending, s.flight[w]);
  }

  lemma StepApart(r: Read, s: State, a: Action)
    requires r.Valid() && Shape(r, s) && Apart(r, s) && Enabled(r, s, a)
    ensures Apart(r, Apply(r, s, a))
  {
    hide Ascending, Insert;
    match a
    case Claim(w, at) => ClaimApart(r, s, w, at);
    case Return(w, answer) => ReturnApart(r, s, w, answer);
    case _ =>
  }

  /** A piece that is somewhere stays somewhere. */
  lemma StepAccountsFor(r: Read, s: State, a: Action, p: nat)
    requires r.Valid() && Shape(r, s) && Apart(r, s) && Enabled(r, s, a)
    requires s.next <= p < r.Pieces() && (p in s.pending || p in s.results || InFlight(s, p))
    ensures var t := Apply(r, s, a);
      p < t.next || p in t.pending || p in t.results || InFlight(t, p) || t.fatal == Some(p)
  {
    hide Ascending, Insert;
    var t := Apply(r, s, a);
    if InFlight(s, p) {
      var x :| x in s.flight && s.flight[x] == p;
      if a.Return? && a.w == x {
        InsertKeeps(s.pending, p);
      } else {
        assert x in t.flight && t.flight[x] == p;
      }
    } else if p in s.pending {
      if a.Claim? {
        RemoveMembers(s.pending, a.at);
        assert a.w in t.flight && t.flight[a.w] == s.pending[a.at];
      } else if a.Return? {
        InsertKeeps(s.pending, s.flight[a.w]);
      }
    }
  }

  lemma StepAccounted(r: Read, s: State, a: Action)
    requires r.Valid() && Shape(r, s) && Apart(r, s) && Accounted(r, s) && Enabled(r, s, a)
    ensures Accounted(r, Apply(r, s, a))
  {
    var t := Apply(r, s, a);
    if t.fatal.None? {
      forall p | t.next <= p < r.Pieces()
        ensures p in t.pending || p in t.results || InFlight(t, p)
      {
        StepAccountsFor(r, s, a, p);
      }
    }
  }

  lemma EmitRight(r: Read, s: State)
    requires r.Valid() && Shape(r, s) && Right(r, s) && Enabled(r, s, Emit)
    ensures Right(r, Apply(r, s, Emit))
  {
    hide Flatten, Part, Read.Target, Read.Pieces, Shape;
    var t := Apply(r, s, Emit);
    var parts := Parts(r.Target(), r.pieceSize, s.next);
    FlattenAppend(parts, r.Piece(s.next));
    assert t.out == s.out + r.Piece(s.next);
    assert Parts(r.Target(), r.pieceSize, t.next) == parts + [r.Piece(s.next)];
  }

  lemma StepRight(r: Read, s: State, a: Action)
    requires r.Valid() && Shape(r, s) && Right(r, s) && Enabled(r, s, a)
    ensures Right(r, Apply(r, s, a))
  {
    hide Flatten, Parts, Part, Insert, Read.Target, Read.Pieces, Read.Piece, Shape, Claimable, Failed;
    match a
    case Emit => EmitRight(r, s);
    case Return(w, answer) => ReturnRight(r, s, w, answer);
    case _ =>
  }

  lemma ReturnRight(r: Read, s: State, w: Worker, answer: Result<bytes>)
    requires r.Valid() && Shape(r, s) && Right(r, s) && Enabled(r, s, Return(w, answer))
    ensures Right(r, Apply(r, s, Return(w, answer)))
  {
    hide Flatten, Parts, Part, Insert, Read.Target, Read.Pieces, Read.Piece, Shape;
  }

  // -- what has been fetched ------------------------------------------------------------------

  lemma LogOne(log: seq<Fetched>, f: Fetched, k: Store)
    ensures Streak(log + [f], k)
         == if f.store != k then Streak(log, k) else if f.ok then 0 else Streak(log, k) + 1
    ensures FailedInARow(log + [f], k) <==> Streak(log + [f], k) >= BENCH_AFTER || FailedInARow(log, k)
  {
    assert (log + [f])[..|log|] == log;
  }

  lemma StreakBenches(log: seq<Fetched>, k: Store)
    ensures Streak(log, k) >= BENCH_AFTER ==> FailedInARow(log, k)
  {
  }

  /** Counters and bench of one store after one more fetch. */
  lemma TallyOne(r: Read, s: State, a: Action, k: Store)
    requires r.Valid() && Shape(r, s) && Logged(r, s) && Enabled(r, s, a) && k in r.Keys()
    requires Shape(r, Apply(r, s, a))
    ensures var t := Apply(r, s, a);
      t.failures[k] == Streak(t.log, k) && (k in t.benched <==> FailedInARow(t.log, k))
  {
    hide Streak, FailedInARow, Insert;
    if a.Return? {
      LogOne(s.log, Fetched(r.Key(a.w), s.flight[a.w], a.answer.Ok?), k);
      StreakBenches(s.log, k);
    }
  }

  /** The stores tried on one piece after one more fetch. */
  lemma TriedOne(r: Read, s: State, a: Action, p: nat, k: Store)
    requires r.Valid() && Shape(r, s) && Logged(r, s) && Enabled(r, s, a) && p < r.Pieces()
    requires Shape(r, Apply(r, s, a))
    ensures var t := Apply(r, s, a); k in t.tried[p] <==> Fetched(k, p, false) in t.log
  {
    hide Streak, FailedInARow, Insert;
  }

  lemma LoggedOne(r: Read, s: State, a: Action, f: Fetched)
    requires r.Valid() && Shape(r, s) && Logged(r, s) && Enabled(r, s, a)
    requires f in Apply(r, s, a).log
    ensures f.piece < r.Pieces() && (f.ok ==> Done(Apply(r, s, a), f.piece))
  {
    hide Streak, FailedInARow, Insert;
  }

  lemma StepLogged(r: Read, s: State, a: Action)
    requires r.Valid() && Shape(r, s) && Logged(r, s) && Enabled(r, s, a)
    requires Shape(r, Apply(r, s, a))
    ensures Logged(r, Apply(r, s, a))
  {
    hide Streak, FailedInARow;
    var t := Apply(r, s, a);
    forall k | k in r.Keys()
      ensures t.failures[k] == Streak(t.log, k) && (k in t.benched <==> FailedInARow(t.log, k))
    {
      TallyOne(r, s, a, k);
    }
    forall p, k | 0 <= p < r.Pieces()
      ensures k in t.tried[p] <==> Fetched(k, p, false) in t.log
    {
      TriedOne(r, s, a, p, k);
    }
    forall f | f in t.log
      ensures f.piece < r.Pieces() && (f.ok ==> Done(t, f.piece))
    {
      LoggedOne(r, s, a, f);
    }
  }

  lemma StepUntried(r: Read, s: State, a: Action)
    requires r.Valid() && Shape(r, s) && Apart(r, s) && Untried(r, s) && Enabled(r, s, a)
    requires Shape(r, Apply(r, s, a))
    ensures Untried(r, Apply(r, s, a))
  {
    hide Insert, Ascending;
    if a.Return? {
      ReturnUntried(r, s, a.w, a.answer);
    }
  }

  lemma ReturnUntried(r: Read, s: State, w: Worker, answer: Result<bytes>)
    requires r.Valid() && Shape(r, s) && Apart(r, s) && Untried(r, s) && Enabled(r, s, Return(w, answer))
    requires Shape(r, Apply(r, s, Return(w, answer)))
    ensures Untried(r, Apply(r, s, Return(w, answer)))
  {
    hide Insert, Ascending, Read.Piece, Read.Pieces;
    if answer.Err? {
      FailedUntried(r, s, w);
    }
  }

  lemma FailedUntried(r: Read, s: State, w: Worker)
    requires r.Valid() && Shape(r, s) && Apart(r, s) && Untried(r, s) && Enabled(r, s, Return(w, Err))
    requires Shape(r, Apply(r, s, Return(w, Err)))
    ensures Untried(r, Apply(r, s, Return(w, Err)))
  {
    hide Insert, Ascending, Read.Piece, Read.Pieces, Untried, Read.Keys;
    var t, p := Apply(r, s, Return(w, Err)), s.flight[w];
    assert Untried(r, s);
    UntriedBut(r, s, t, w, p);
  }

  /** Only piece `p` has one more store tried, and `p` is neither done nor in flight any more. */
  lemma UntriedBut(r: Read, s: State, t: State, w: Worker, p: nat)
    requires r.Valid() && Shape(r, s) && Shape(r, t) && Untried(r, s)
    requires t.flight == s.flight - {w} && t.next == s.next && t.results == s.results && p < |s.tried|
    requires forall x :: x in t.flight ==> s.flight[x] != p
    requires !Done(s, p) && forall q :: 0 <= q < |s.tried| && q != p ==> t.tried[q] == s.tried[q]
    ensures Untried(r, t)
  {
  }

  lemma StepEnded(r: Read, s: State, a: Action)
    requires r.Valid() && Shape(r, s) && Ended(r, s) && Enabled(r, s, a)
    requires Shape(r, Apply(r, s, a))
    ensures Ended(r, Apply(r, s, a))
  {
    hide Insert;
  }

  lemma StepNoRepeat(r: Read, s: State, a: Action)
    requires r.Valid() && Shape(r, s) && Apart(r, s) && Logged(r, s) && Untried(r, s) && NoRepeat(s.log)
              && Enabled(r, s, a)
    ensures NoRepeat(Apply(r, s, a).log)
  {
    hide Streak, FailedInARow, Insert;
    if a.Return? {
      var t := Apply(r, s, a);
      var n := |s.log|;
      assert t.log == s.log + [t.log[n]];
      forall i | 0 <= i < n
        ensures t.log[i].store != t.log[n].store || t.log[i].piece != t.log[n].piece
      {
        assert s.log[i] in s.log;
        assert Fetched(s.log[i].store, s.log[i].piece, s.log[i].ok) in s.log;
      }
    }
  }

  // -- how many fetches -------------------------------------------------------------------------

  /** A completed fetch uses up one of the fetches its piece had left; no other step does. */
  lemma LeftAfter(r: Read, s: State, a: Action, p: nat)
    requires r.Valid() && Shape(r, s) && Apart(r, s) && Untried(r, s) && Enabled(r, s, a)
    requires Shape(r, Apply(r, s, a)) && p < r.Pieces()
    ensures if a.Return? && p == s.flight[a.w]
            then Left(r, s, p) > 0 && Left(r, Apply(r, s, a), p) == Left(r, s, p) - 1
            else Left(r, Apply(r, s, a), p) == Left(r, s, p)
  {
    hide Insert, Ascending, Accounted, Claimable, Read.Piece, Read.Pieces;
    if a.Return? {
      LeftAfterReturn(r, s, a.w, a.answer, p);
    }
  }

  lemma LeftAfterReturn(r: Read, s: State, w: Worker, answer: Result<bytes>, p: nat)
    requires r.Valid() && Shape(r, s) && Apart(r, s) && Untried(r, s) && Enabled(r, s, Return(w, answer))
    requires Shape(r, Apply(r, s, Return(w, answer))) && p < r.Pieces()
    ensures if p == s.flight[w]
            then Left(r, s, p) > 0 && Left(r, Apply(r, s, Return(w, answer)), p) == Left(r, s, p) - 1
            else Left(r, Apply(r, s, Return(w, answer)), p) == Left(r, s, p)
  {
    hide Insert, Ascending, Accounted, Claimable, Read.Piece, Read.Pieces;
    if p == s.flight[w] {
      SubsetSize(s.tried[p] + {r.Key(w)}, r.Keys());
    }
  }

  lemma StepCounted(r: Read, s: State, a: Action)
    requires r.Valid() && Shape(r, s) && Apart(r, s) && Untried(r, s) && Counted(r, s) && Enabled(r, s, a)
    requires Shape(r, Apply(r, s, a))
    ensures Counted(r, Apply(r, s, a))
  {
    hide Enabled, Apply, Shape, Apart, Untried, LeftOver;
    var t := Apply(r, s, a);
    var before, now := LeftOver(r, s), LeftOver(r, t);
    LeftOverAfter(r, s, a);
    LogAfter(r, s, a);
    if a.Return? {
      var p := s.flight[a.w];
      SumAt(before, p, before[p] - 1);
    }
  }

  lemma LogAfter(r: Read, s: State, a: Action)
    requires r.Valid() && Enabled(r, s, a)
    ensures |Apply(r, s, a).log| == |s.log| + if a.Return? then 1 else 0
  {
    hide Insert, Claimable, Read.Piece;
  }

  lemma LeftOverAfter(r: Read, s: State, a: Action)
    requires r.Valid() && Shape(r, s) && Apart(r, s) && Untried(r, s) && Enabled(r, s, a)
    requires Shape(r, Apply(r, s, a))
    ensures var before, now := LeftOver(r, s), LeftOver(r, Apply(r, s, a));
      if a.Return? then
        a.w in s.flight && (var p := s.flight[a.w]; p < |before| && before[p] > 0 && now == before[p := before[p] - 1])
      else now == before
  {
    hide Left, Apply, Apart, Untried;
    var before, now := LeftOver(r, s), LeftOver(r, Apply(r, s, a));
    forall p | 0 <= p < r.Pieces()
      ensures if a.Return? && p == s.flight[a.w] then before[p] > 0 && now[p] == before[p] - 1 else now[p] == before[p]
    {
      LeftAfter(r, s, a, p);
    }
  }

  // -- every run ----------------------------------------------------------------------------------

  lemma StepKeepsInv(r: Read, s: State, a: Action)
    requires r.Valid() && Inv(r, s) && Enabled(r, s, a)
    ensures Inv(r, Apply(r, s, a))
  {
    hide Shape, Apart, Accounted, Right, Logged, Untried, Ended, NoRepeat, Counted, Enabled, Apply;
    StepShape(r, s, a);
    StepApart(r, s, a);
    StepAccounted(r, s, a);
    StepRight(r, s, a);
    StepLogged(r, s, a);
    StepUntried(r, s, a);
    StepEnded(r, s, a);
    StepNoRepeat(r, s, a);
    StepCounted(r, s, a);
  }

  lemma {:induction false} RunKeepsInv(r: Read, s: State, actions: seq<Action>)
    requires r.Valid() && Inv(r, s) && Legal(r, s, actions)
    ensures Inv(r, After(r, s, actions))
    decreases |actions|
  {
    hide Inv, Enabled, Apply;
    if |actions| > 0 {
      StepKeepsInv(r, s, actions[0]);
      RunKeepsInv(r, Apply(r, s, actions[0]), actions[1..]);
    }
  }

  ghost predicate Reachable(r: Read, s: State)
    requires r.Valid()
  {
    exists actions :: Legal(r, Init(r), actions) && s == After(r, Init(r), actions)
  }

  lemma ReachableInv(r: Read, s: State)
    requires r.Valid() && Reachable(r, s)
    ensures Inv(r, s)
  {
    hide Inv;
    var actions :| Legal(r, Init(r), actions) && s == After(r, Init(r), actions);
    InitInv(r);
    RunKeepsInv(r, Init(r), actions);
  }

  /** In every reachable state that has not failed, each piece is in exactly one place: emitted,
      waiting, in flight (with one worker) or pending (once). */
  lemma OnePlace(r: Read, s: State, p: nat)
    requires r.Valid() && Reachable(r, s) && s.fatal.None? && p < r.Pieces()
    ensures (if p < s.next then 1 else 0) + (if p in s.results then 1 else 0)
          + (if InFlight(s, p) then 1 else 0) + multiset(s.pending)[p] == 1
    ensures forall w, x :: w in s.flight && x in s.flight && s.flight[w] == s.flight[x] == p ==> w == x
  {
    hide Right, Logged, Untried, Ended, NoRepeat, Counted;
    ReachableInv(r, s);
    Once(s.pending, p);
  }

  lemma {:induction false} Once(q: seq<nat>, p: nat)
    requires Ascending(q)
    ensures multiset(q)[p] == if p in q then 1 else 0
  {
    if |q| > 0 {
      Once(q[1..], p);
      assert q == [q[0]] + q[1..];
    }
  }

  /** The output is the first pieces of the range asked for, each once and in order; when the
      stream ends without an error it is the whole range. */
  lemma OutputIsPrefix(r: Read, s: State)
    requires r.Valid() && Reachable(r, s)
    ensures s.out == r.Target()[..Start(|r.Target()|, r.pieceSize, s.next)]
    ensures s.next == r.Pieces() ==> s.out == r.Target()
  {
    hide Shape, Apart, Accounted, Logged, Untried, Ended, NoRepeat, Counted, Flatten, Start;
    ReachableInv(r, s);
    PartsPrefix(r.Target(), r.pieceSize, s.next);
    PartsWhole(r.Target(), r.pieceSize);
  }

  lemma {:induction false} Interval(lo: nat, n: nat, held: set<nat>)
    requires forall p :: p in held ==> lo <= p < lo + n
    ensures |held| <= n
  {
    if n == 0 {
      assert held == {};
    } else {
      Interval(lo, n - 1, held - {lo + n - 1});
    }
  }

  lemma {:induction false} ValuesCount(m: map<Worker, nat>)
    requires forall w, x :: w in m && x in m && w != x ==> m[w] != m[x]
    ensures |m.Values| == |m|
    decreases |m|
  {
    if m == map[] {
      assert m.Values == {};
    } else {
      var w :| w in m;
      var rest := m - {w};
      ValuesCount(rest);
      forall v | v in m.Values && v != m[w]
        ensures v in rest.Values
      {
        var x :| x in m && m[x] == v;
        assert x in rest && rest[x] == v;
      }
      assert m.Values == rest.Values + {m[w]};
    }
  }

  /** Results and pieces in flight together never exceed the window. */
  lemma WindowBounds(r: Read, s: State)
    requires r.Valid() && Reachable(r, s)
    ensures |s.results| + |s.flight| <= r.Window()
  {
    hide Accounted, Right, Logged, Untried, Ended, NoRepeat, Counted, Reachable, Ascending, Read.Pieces;
    ReachableInv(r, s);
    ValuesCount(s.flight);
    var held := s.results.Keys + s.flight.Values;
    assert s.results.Keys !! s.flight.Values;
    Interval(s.next, r.Window(), held);
  }

  /** No piece is fetched twice from one store, and no read completes more fetches than there are
      pieces times stores. */
  lemma FetchesAreBounded(r: Read, s: State)
    requires r.Valid() && Reachable(r, s)
    ensures NoRepeat(s.log)
    ensures |s.log| <= r.Pieces() * |r.Keys()|
  {
    hide Apart, Accounted, Right, Logged, Untried, Ended;
    ReachableInv(r, s);
    MulIsProduct(r.Pieces(), |r.Keys()|);
  }

  /** The read raises its own error only when some piece has no store left: each has failed that
      very piece or failed several fetches in a row. */
  lemma FatalOnlyWithoutStores(r: Read, s: State)
    requires r.Valid() && Reachable(r, s)
    ensures s.fatal.Some? ==> forall k :: k in r.Keys() ==>
              Fetched(k, s.fatal.value, false) in s.log || FailedInARow(s.log, k)
  {
    hide Apart, Accounted, Right, Untried, NoRepeat, Counted, FailedInARow, Streak;
    ReachableInv(r, s);
  }

  /** The log is what the stores answered: every return adds its store, its piece and whether it delivered, and
      nothing else does. */
  lemma LogIsTheReturns(r: Read, s: State, a: Action)
    requires r.Valid() && Enabled(r, s, a)
    ensures Apply(r, s, a).log
         == s.log + if a.Return? then [Fetched(r.Key(a.w), s.flight[a.w], a.answer.Ok?)] else []
  {
    hide Insert, Claimable, Read.Piece;
  }

  /** A piece that was delivered is there for the consumer; one that was not goes back to the others, or the
      read fails, and that if and only if every store has by now failed this very piece or failed
      several fetches in a row. */
  lemma ReturnDecides(r: Read, s: State, w: Worker, answer: Result<bytes>)
    requires r.Valid() && Reachable(r, s) && Enabled(r, s, Return(w, answer)) && s.fatal.None?
    ensures var t, p := Apply(r, s, Return(w, answer)), s.flight[w];
      && (answer.Ok? ==> t.fatal.None? && p in t.results && t.results[p] == r.Piece(p))
      && (answer.Err? ==> t.results == s.results && (t.fatal.None? <==> p in t.pending))
      && (answer.Err? ==>
            (t.fatal == Some(p)
             <==> forall k :: k in r.Keys() ==> Fetched(k, p, false) in t.log || FailedInARow(t.log, k)))
  {
    hide Apart, Accounted, Right, Untried, NoRepeat, Counted, FailedInARow, Streak, Read.Piece, Insert, Reachable;
    ReachableInv(r, s);
    var a := Return(w, answer);
    StepKeepsInv(r, s, a);
    var t, p := Apply(r, s, a), s.flight[w];
    FlightIsNotPending(r, s, w);
    InsertMembers(s.pending, p, p);
    assert forall k :: k in r.Keys() ==> (k in t.tried[p] <==> Fetched(k, p, false) in t.log);
  }

  lemma FlightIsNotPending(r: Read, s: State, w: Worker)
    requires r.Valid() && Inv(r, s) && w in s.flight
    ensures s.flight[w] !in s.pending
  {
  }

  /** Once the read has failed nothing more is delivered: what is left to do is to raise. */
  lemma FatalEndsOutput(r: Read, s: State, a: Action)
    requires r.Valid() && Enabled(r, s, a) && s.fatal.Some?
    ensures Apply(r, s, a).out == s.out && Apply(r, s, a).fatal.Some? && !a.Claim?
    ensures s.next < r.Pieces() ==> Enabled(r, s, RaiseFatal) && Apply(r, s, RaiseFatal).over
  {
    hide Insert, Claimable, Read.Piece;
  }

  /** The consumer's own "every store gave up" is dead code: the failure that benches the last store
      has made the read fatal before all workers have left. */
  lemma GiveUpIsDead(r: Read, s: State)
    requires r.Valid() && Reachable(r, s)
    ensures !Enabled(r, s, GiveUp)
  {
    hide Apart, Accounted, Right, Logged, Untried, NoRepeat, Counted;
    ReachableInv(r, s);
    if s.fatal.None? {
      var k :| k in r.Keys() && k !in s.benched;
      var v :| v in r.views && v.key == k;
      var i :| 0 <= i < |r.views| && r.views[i] == v;
      assert r.HasWorker(Worker(i, 0)) && r.Key(Worker(i, 0)) == k;
    }
  }

  // -- how long a read can be -------------------------------------------------------------------------

  /** Every step of a run is one of these: half of a completed fetch, a claim still out, a piece emitted,
      a worker gone, the end. */
  function Steps(s: State): nat {
    2 * |s.log| + |s.flight| + s.next + |s.exited| + (if s.over then 1 else 0)
  }

  lemma StepCounts(r: Read, s: State, a: Action)
    requires r.Valid() && Enabled(r, s, a)
    ensures Steps(Apply(r, s, a)) == Steps(s) + 1
  {
    hide Insert, Read.Keys, Read.Piece, Read.Pieces, Claimable;
    match a
    case Return(w, answer) => ReturnCounts(r, s, w, answer);
    case _ =>
  }

  lemma ReturnCounts(r: Read, s: State, w: Worker, answer: Result<bytes>)
    requires r.Valid() && Enabled(r, s, Return(w, answer))
    ensures Steps(Apply(r, s, Return(w, answer))) == Steps(s) + 1
  {
    hide Insert, Read.Keys, Read.Piece, Read.Pieces;
    var t := Apply(r, s, Return(w, answer));
    assert s.flight == t.flight[w := s.flight[w]];
  }

  lemma {:induction false} RunCounts(r: Read, s: State, actions: seq<Action>)
    requires r.Valid() && Legal(r, s, actions)
    ensures Steps(After(r, s, actions)) == Steps(s) + |actions|
    decreases |actions|
  {
    hide Enabled, Apply, Steps;
    if |actions| > 0 {
      StepCounts(r, s, actions[0]);
      RunCounts(r, Apply(r, s, actions[0]), actions[1..]);
    }
  }

  function SlotsOf(view: nat, n: nat): set<Worker> {
    if n == 0 then {} else SlotsOf(view, n - 1) + {Worker(view, n - 1)}
  }

  lemma {:induction false} SlotsBelow(view: nat, n: nat, w: Worker)
    ensures w in SlotsOf(view, n) <==> w.view == view && w.slot < n
  {
    if n > 0 {
      SlotsBelow(view, n - 1, w);
    }
  }

  function WorkersOf(r: Read, n: nat): set<Worker>
    requires n <= |r.views|
  {
    if n == 0 then {}
    else WorkersOf(r, n - 1) + SlotsOf(n - 1, if r.views[n - 1].slots < 1 then 1 else r.views[n - 1].slots)
  }

  /** Every read is over after a bounded number of steps: two per fetch, one per piece and per worker,
      one per place in the window, and the end. */
  lemma RunsAreBounded(r: Read, actions: seq<Action>)
    requires r.Valid() && Legal(r, Init(r), actions)
    ensures |actions| <= 2 * (r.Pieces() * |r.Keys()|) + r.Window() + r.Pieces() + |WorkersOf(r, |r.views|)| + 1
  {
    hide Legal, After, Apart, Accounted, Right, Logged, Untried, NoRepeat, Counted, WorkersOf;
    var s := After(r, Init(r), actions);
    RunCounts(r, Init(r), actions);
    ReachableInv(r, s);
    FetchesAreBounded(r, s);
    WindowBounds(r, s);
    forall w | w in s.exited
      ensures w in WorkersOf(r, |r.views|)
    {
      AllWorkers(r, w);
    }
    SubsetSize(s.exited, WorkersOf(r, |r.views|));
  }

  lemma AllWorkers(r: Read, w: Worker)
    ensures w in WorkersOf(r, |r.views|) <==> r.HasWorker(w)
  {
    WorkersBelow(r, |r.views|, w);
  }

  lemma {:induction false} WorkersBelow(r: Read, n: nat, w: Worker)
    requires n <= |r.views|
    ensures w in WorkersOf(r, n) <==> w.view < n && r.HasWorker(w)
  {
    if n > 0 {
      hide SlotsOf;
      WorkersBelow(r, n - 1, w);
      SlotsBelow(n - 1, if r.views[n - 1].slots < 1 then 1 else r.views[n - 1].slots, w);
    }
  }
}
