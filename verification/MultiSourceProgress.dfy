/** When the multi-source read can go on. A piece sent back for the one store left is stranded if
    other pieces bench that store later: the read then waits forever, and exactly then. */
module MultiSourceProgress {
  import opened Bytes
  import opened MultiSource
  import opened MultiSourceSafety

  /** A worker takes a piece, a fetch ends, or a piece goes out. */
  predicate Advances(a: Action) { a.Claim? || a.Return? || a.Emit? }

  /** Some store may still serve piece `p`. */
  predicate Servable(r: Read, s: State, p: nat)
    requires p < |s.tried|
  {
    exists k :: k in r.Keys() && k !in s.tried[p] && k !in s.benched
  }

  ghost predicate Blocked(r: Read, s: State)
    requires r.Valid()
  {
    forall a :: Advances(a) ==> !Enabled(r, s, a)
  }

  lemma {:induction false} FirstUntried(r: Read, s: State, k: Store, at: nat, lo: nat) returns (first: nat)
    requires r.Valid() && Shape(r, s) && lo <= at < |s.pending| && k !in s.tried[s.pending[at]]
    requires forall j :: 0 <= j < lo ==> k in s.tried[s.pending[j]]
    ensures first <= at && k !in s.tried[s.pending[first]]
    ensures forall j :: 0 <= j < first ==> k in s.tried[s.pending[j]]
    decreases at - lo
  {
    if k in s.tried[s.pending[lo]] {
      first := FirstUntried(r, s, k, at, lo + 1);
    } else {
      first := lo;
    }
  }

  lemma WorkerOf(r: Read, k: Store) returns (w: Worker)
    requires k in r.Keys()
    ensures r.HasWorker(w) && r.Key(w) == k
  {
    var v :| v in r.views && v.key == k;
    var i :| 0 <= i < |r.views| && r.views[i] == v;
    w := Worker(i, 0);
  }

  /** An idle store that may serve a piece inside the window can claim one. */
  lemma SomeClaim(r: Read, s: State, p: nat) returns (a: Action)
    requires r.Valid() && Inv(r, s) && !s.over && s.fatal.None? && s.next < r.Pieces()
    requires s.flight == map[] && p in s.pending && p < s.next + r.Window() && Servable(r, s, p)
    ensures Advances(a) && Enabled(r, s, a)
  {
    hide Accounted, Right, Logged, Untried, NoRepeat, Counted;
    var k :| k in r.Keys() && k !in s.tried[p] && k !in s.benched;
    var w := WorkerOf(r, k);
    var i :| 0 <= i < |s.pending| && s.pending[i] == p;
    var first := FirstUntried(r, s, k, i, 0);
    assert s.pending[first] <= s.pending[i];
    a := Claim(w, first);
  }

  lemma ClaimNeedsStore(r: Read, s: State, w: Worker, at: nat)
    requires r.Valid() && Shape(r, s)
    ensures Enabled(r, s, Claim(w, at)) ==>
              exists p :: p in s.pending && p < s.next + r.Window() && Servable(r, s, p)
  {
    if Enabled(r, s, Claim(w, at)) {
      var k := r.Key(w);
      assert s.pending[at] in s.pending && k !in s.tried[s.pending[at]];
    }
  }

  /** A read that is neither failed nor finished can go on unless nothing is in flight, the piece
      due is not there, and no piece in the window has a store left; in that case it never does. */
  lemma BlockedIff(r: Read, s: State)
    requires r.Valid() && Reachable(r, s) && !s.over && s.fatal.None? && s.next < r.Pieces()
    ensures Shape(r, s)
    ensures Blocked(r, s) <==>
            && s.flight == map[] && s.next !in s.results
            && forall p :: p in s.pending && p < s.next + r.Window() ==> !Servable(r, s, p)
  {
    hide Reachable, Shape, Inv, Blocked, Servable;
    ReachableInv(r, s);
    InvShape(r, s);
    if s.flight == map[] && s.next !in s.results
       && forall p :: p in s.pending && p < s.next + r.Window() ==> !Servable(r, s, p) {
      NothingAdvances(r, s);
    } else {
      var a := SomethingAdvances(r, s);
      AdvancingIsNotBlocked(r, s, a);
    }
  }

  lemma InvShape(r: Read, s: State)
    requires r.Valid() && Inv(r, s)
    ensures Shape(r, s) && s.next <= r.Pieces()
    ensures forall p :: p in s.pending ==> p < |s.tried|
  {
  }

  lemma AdvancingIsNotBlocked(r: Read, s: State, a: Action)
    requires r.Valid() && Advances(a) && Enabled(r, s, a)
    ensures !Blocked(r, s)
  {
  }

  lemma NothingAdvances(r: Read, s: State)
    requires r.Valid() && Shape(r, s) && s.flight == map[] && s.next !in s.results
    requires forall p :: p in s.pending && p < s.next + r.Window() ==> !Servable(r, s, p)
    ensures Blocked(r, s)
  {
    forall a | Advances(a)
      ensures !Enabled(r, s, a)
    {
      if a.Claim? {
        ClaimNeedsStore(r, s, a.w, a.at);
      }
    }
  }

  lemma MayReturn(r: Read, s: State, w: Worker)
    requires r.Valid() && Inv(r, s) && !s.over && w in s.flight
    ensures Enabled(r, s, Return(w, Err))
  {
    hide Apart, Accounted, Right, Logged, Untried, Ended, NoRepeat, Counted;
  }

  lemma SomethingAdvances(r: Read, s: State) returns (a: Action)
    requires r.Valid() && Inv(r, s) && !s.over && s.fatal.None? && s.next < r.Pieces()
    requires forall p :: p in s.pending ==> p < |s.tried|
    requires s.flight != map[] || s.next in s.results
          || exists p :: p in s.pending && p < s.next + r.Window() && Servable(r, s, p)
    ensures Advances(a) && Enabled(r, s, a)
  {
    hide Inv, Servable, Shape;
    if s.flight != map[] {
      var w :| w in s.flight;
      MayReturn(r, s, w);
      a := Return(w, Err);
    } else if s.next in s.results {
      a := Emit;
    } else {
      var p :| p in s.pending && p < s.next + r.Window() && Servable(r, s, p);
      a := SomeClaim(r, s, p);
    }
  }

  /** While every pending piece has a store left, the read goes on. */
  lemma Progress(r: Read, s: State)
    requires r.Valid() && Reachable(r, s) && !s.over && s.fatal.None? && s.next < r.Pieces()
    requires forall p :: p in s.pending && p < |s.tried| ==> Servable(r, s, p)
    ensures exists a :: Advances(a) && Enabled(r, s, a)
  {
    ReachableInv(r, s);
    BlockedIff(r, s);
    hide Right, Logged, Untried, NoRepeat, Counted, Reachable, Blocked;
    if s.flight == map[] && s.next !in s.results {
      assert s.next in s.pending;
      assert s.next < |s.tried|;
      assert !Blocked(r, s);
    }
    assert !Blocked(r, s);
    var a :| Advances(a) && Enabled(r, s, a);
  }

  /** Nothing is left to happen but the caller closing the stream. */
  ghost predicate AtRest(r: Read, s: State)
    requires r.Valid()
  {
    forall a :: Enabled(r, s, a) ==> a.Close?
  }

  /** Where a read that has come to rest stands: it raised its error or was closed, it delivered the
      whole range, or it is blocked with a piece no store is left for. Every read gets there
      (`RunsAreBounded`). */
  lemma AtRestIs(r: Read, s: State)
    requires r.Valid() && Reachable(r, s) && AtRest(r, s)
    ensures Shape(r, s)
    ensures s.over
         || (s.next == r.Pieces() && s.out == r.Target())
         || (s.fatal.None? && s.next < r.Pieces() && s.flight == map[] && s.next !in s.results
             && forall p :: p in s.pending && p < s.next + r.Window() ==> !Servable(r, s, p))
  {
    hide Reachable, Inv, Shape, Blocked, Servable, AtRest, Enabled;
    ReachableInv(r, s);
    InvShape(r, s);
    RestIsBlocked(r, s);
    if !s.over && s.next == r.Pieces() {
      OutputIsPrefix(r, s);
    } else if !s.over && s.fatal.None? {
      BlockedIff(r, s);
    }
  }

  lemma RestIsBlocked(r: Read, s: State)
    requires r.Valid() && AtRest(r, s)
    ensures Blocked(r, s) && (s.over || s.fatal.None? || s.next >= r.Pieces())
  {
    assert !Enabled(r, s, RaiseFatal);
  }

  /** Once blocked, a read stays blocked, whatever else happens. */
  lemma BlockedStays(r: Read, s: State, a: Action)
    requires r.Valid() && Blocked(r, s) && Enabled(r, s, a)
    ensures Blocked(r, Apply(r, s, a)) && Apply(r, s, a).out == s.out
  {
    assert !Advances(a);
    var t := Apply(r, s, a);
    forall b | Advances(b)
      ensures !Enabled(r, t, b)
    {
      assert !Enabled(r, s, b);
    }
  }

  // -- a stranded piece ---------------------------------------------------------------------------

  lemma {:induction false} LegalAppend(r: Read, s: State, actions: seq<Action>, a: Action)
    requires r.Valid() && Legal(r, s, actions) && Enabled(r, After(r, s, actions), a)
    ensures Legal(r, s, actions + [a])
    ensures After(r, s, actions + [a]) == Apply(r, After(r, s, actions), a)
    decreases |actions|
  {
    if |actions| == 0 {
      assert [] + [a] == [a];
      assert [a][1..] == [];
      assert Legal(r, Apply(r, s, a), [a][1..]);
    } else {
      LegalAppend(r, Apply(r, s, actions[0]), actions[1..], a);
      assert (actions + [a])[1..] == actions[1..] + [a];
    }
  }

  lemma ReachableInit(r: Read)
    requires r.Valid()
    ensures Reachable(r, Init(r))
  {
    assert Legal(r, Init(r), []) && After(r, Init(r), []) == Init(r);
  }

  lemma ReachableNext(r: Read, s: State, a: Action)
    requires r.Valid() && Reachable(r, s) && Enabled(r, s, a)
    ensures Reachable(r, Apply(r, s, a))
  {
    hide Enabled, Apply;
    var actions :| Legal(r, Init(r), actions) && s == After(r, Init(r), actions);
    LegalAppend(r, Init(r), actions, a);
  }

  /** Two stores, three one-byte pieces, all within the window: `A` fails piece 0, `B` fails
      pieces 1 and 2 and is benched, `A` serves both. */
  function Stranding(): Read { Read([7, 8, 9], [View("A", 1), View("B", 2)], 0, 2, 1, 3) }

  lemma StrandingShape()
    ensures Stranding().Valid() && Stranding().Pieces() == 3 && Stranding().Keys() == {"A", "B"}
    ensures Stranding().HasWorker(Worker(0, 0)) && Stranding().Key(Worker(0, 0)) == "A"
    ensures Stranding().HasWorker(Worker(1, 0)) && Stranding().Key(Worker(1, 0)) == "B"
    ensures Stranding().HasWorker(Worker(1, 1)) && Stranding().Key(Worker(1, 1)) == "B"
    ensures Init(Stranding()) == State([0, 1, 2], map[], 0, [{}, {}, {}], map["A" := 0, "B" := 0], {}, None,
                                       map[], {}, false, [], [])
  {
    var r := Stranding();
    var keys := r.Keys();
    assert keys == {"A", "B"} by {
      assert r.views[0] in r.views && r.views[1] in r.views;
    }
    assert Upto(3) == [0, 1, 2];
    assert Init(r).tried == [{}, {}, {}];
  }

  lemma AllClaimed() returns (s: State)
    ensures Stranding().Valid() && Reachable(Stranding(), s)
    ensures s == State([], map[], 0, [{}, {}, {}], map["A" := 0, "B" := 0], {}, None,
                       map[Worker(0, 0) := 0, Worker(1, 0) := 1, Worker(1, 1) := 2], {}, false, [], [])
  {
    StrandingShape();
    hide Read.HasWorker, Read.Key, Read.Keys, Read.Pieces, Init, Reachable, Read.Piece;
    var r := Stranding();
    var s0 := Init(r);
    ReachableInit(r);
    ReachableNext(r, s0, Claim(Worker(0, 0), 0));
    var s1 := Apply(r, s0, Claim(Worker(0, 0), 0));
    assert s1.pending == [1, 2];
    ReachableNext(r, s1, Claim(Worker(1, 0), 0));
    var s2 := Apply(r, s1, Claim(Worker(1, 0), 0));
    assert s2.pending == [2];
    ReachableNext(r, s2, Claim(Worker(1, 1), 0));
    s := Apply(r, s2, Claim(Worker(1, 1), 0));
  }

  lemma TwoFailed() returns (s: State)
    ensures Stranding().Valid() && Reachable(Stranding(), s)
    ensures s == State([0, 1], map[], 0, [{"A"}, {"B"}, {}], map["A" := 1, "B" := 1], {}, None,
                       map[Worker(1, 1) := 2], {}, false, [], [Fetched("A", 0, false), Fetched("B", 1, false)])
  {
    StrandingShape();
    var r := Stranding();
    var s0 := AllClaimed();
    hide Read.HasWorker, Read.Key, Read.Keys, Read.Pieces, Init, Reachable, Read.Piece;
    ReachableNext(r, s0, Return(Worker(0, 0), Err));
    var s1 := Apply(r, s0, Return(Worker(0, 0), Err));
    assert s1.tried[0] == {"A"};
    assert s1.tried == [{"A"}, {}, {}] && s1.failures == map["A" := 1, "B" := 0];
    assert s1.flight == map[Worker(1, 0) := 1, Worker(1, 1) := 2] && s1.log == [Fetched("A", 0, false)];
    assert "B" !in s1.tried[0] + s1.benched;
    assert s1.pending == [0] && s1.fatal == None;
    ReachableNext(r, s1, Return(Worker(1, 0), Err));
    s := Apply(r, s1, Return(Worker(1, 0), Err));
    assert s.tried[1] == {"B"};
    assert s.tried == [{"A"}, {"B"}, {}] && s.failures == map["A" := 1, "B" := 1];
    assert s.flight == map[Worker(1, 1) := 2];
    assert "A" !in s.tried[1] + s.benched;
    assert s.pending == [0, 1];
  }

  lemma AllFailed() returns (s: State)
    ensures Stranding().Valid() && Reachable(Stranding(), s)
    ensures s == State([0, 1, 2], map[], 0, [{"A"}, {"B"}, {"B"}], map["A" := 1, "B" := 2], {"B"}, None,
                       map[], {}, false, [],
                       [Fetched("A", 0, false), Fetched("B", 1, false), Fetched("B", 2, false)])
  {
    StrandingShape();
    var r := Stranding();
    var s0 := TwoFailed();
    hide Read.HasWorker, Read.Key, Read.Keys, Read.Pieces, Init, Reachable, Read.Piece;
    ReachableNext(r, s0, Return(Worker(1, 1), Err));
    s := Apply(r, s0, Return(Worker(1, 1), Err));
    assert s.tried[2] == {"B"};
    assert s.tried == [{"A"}, {"B"}, {"B"}] && s.failures == map["A" := 1, "B" := 2];
    assert "A" !in s.tried[2] + s.benched;
    assert [0, 1][1..] == [1] && [1][1..] == [];
    assert Insert([1], 2) == [1, 2];
    assert s.pending == [0, 1, 2];
  }

  /** The read is then reachable, not failed, not finished, and blocked for good: piece 0 failed on
      `A`, and `B` is benched. */
  lemma StrandedPiece() returns (s: State)
    ensures Stranding().Valid() && Reachable(Stranding(), s) && Blocked(Stranding(), s)
    ensures !s.over && s.fatal.None? && s.next < Stranding().Pieces() && !Enabled(Stranding(), s, GiveUp)
  {
    StrandingShape();
    var r := Stranding();
    var s0 := AllFailed();
    hide Read.HasWorker, Read.Key, Read.Keys, Read.Pieces, Init, Reachable, Read.Piece, Insert;
    var w := Worker(0, 0);
    ReachableNext(r, s0, Claim(w, 1));
    var s1 := Apply(r, s0, Claim(w, 1));
    assert s1.pending == [0, 2];
    ReachableNext(r, s1, Return(w, Ok(r.Piece(1))));
    var s2 := Apply(r, s1, Return(w, Ok(r.Piece(1))));
    ReachableNext(r, s2, Claim(w, 1));
    var s3 := Apply(r, s2, Claim(w, 1));
    assert s3.pending == [0];
    ReachableNext(r, s3, Return(w, Ok(r.Piece(2))));
    s := Apply(r, s3, Return(w, Ok(r.Piece(2))));
    assert s.flight == map[] && s.tried[0] == {"A"} && s.benched == {"B"};
    BlockedIff(r, s);
  }
}
