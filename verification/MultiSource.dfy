/** The multi-source read scheduler: one read of `[begin, end]` shared by several stores
    (`core/multisource.py`), as a state machine whose steps are the stretches between awaits. */
module MultiSource {
  import opened Arith
  import opened Bytes
  import opened Tiling

  const BENCH_AFTER := 2

  type Store = string

  /** One store's complete copy of the version, with the number of workers it runs. */
  datatype View = View(key: Store, slots: nat)

  datatype Worker = Worker(view: nat, slot: nat)

  /** What one read is given: the bytes of the version and the constructor's arguments. */
  datatype Read = Read(version: bytes, views: seq<View>, begin: nat, end: int, pieceSize: nat, window: int)
  {
    predicate Valid() {
      |views| > 0 && begin <= end + 1 <= |version| && pieceSize > 0
    }

    /** The bytes asked for. */
    ghost function Target(): bytes
      requires Valid()
    {
      version[begin..end + 1]
    }

    function Pieces(): nat
      requires Valid()
    {
      Count(end + 1 - begin, pieceSize)
    }

    ghost function Piece(i: nat): bytes
      requires Valid()
    {
      Part(Target(), pieceSize, i)
    }

    function Window(): (n: nat)
      ensures n >= 1
    {
      if window < 1 then 1 else window
    }

    function Keys(): set<Store> {
      set v | v in views :: v.key
    }

    predicate HasWorker(w: Worker) {
      w.view < |views| && w.slot < (if views[w.view].slots < 1 then 1 else views[w.view].slots)
    }

    function Key(w: Worker): (k: Store)
      requires HasWorker(w)
      ensures k in Keys()
    {
      assert views[w.view] in views;
      views[w.view].key
    }
  }

  /** One completed fetch: which store, which piece, and whether it delivered. */
  datatype Fetched = Fetched(store: Store, piece: nat, ok: bool)

  /** The scheduler's fields; `flight` holds the local variable `piece` of every worker that is
      fetching, `out` the bytes the consumer has yielded and `log` every completed fetch. */
  datatype State = State(
    pending: seq<nat>,
    results: map<nat, bytes>,
    next: nat,
    tried: seq<set<Store>>,
    failures: map<Store, nat>,
    benched: set<Store>,
    fatal: Option<nat>,
    flight: map<Worker, nat>,
    exited: set<Worker>,
    over: bool,
    out: bytes,
    log: seq<Fetched>)

  function Upto(n: nat): (r: seq<nat>)
    ensures |r| == n && forall i :: 0 <= i < n ==> r[i] == i
  {
    seq(n, i requires 0 <= i < n => i)
  }

  function Init(r: Read): State
    requires r.Valid()
  {
    State(Upto(r.Pieces()), map[], 0, seq(r.Pieces(), _ => {}), map k | k in r.Keys() :: 0, {}, None,
          map[], {}, false, [], [])
  }

  datatype Action =
    | Claim(w: Worker, at: nat)
    | Return(w: Worker, answer: Result<bytes>)
    | Exit(w: Worker)
    | Emit
    | RaiseFatal
    | GiveUp
    | Close

  predicate Claimable(r: Read, s: State, k: Store, at: nat)
    requires r.Valid()
  {
    && at < |s.pending| && s.pending[at] < |s.tried|
    && s.pending[at] < s.next + r.Window() && k !in s.tried[s.pending[at]]
    && forall j :: 0 <= j < at ==> s.pending[j] < |s.tried| && k in s.tried[s.pending[j]]
  }

  ghost predicate Enabled(r: Read, s: State, a: Action)
    requires r.Valid()
  {
    && !s.over
    && match a
       case Claim(w, at) =>
         && r.HasWorker(w) && w !in s.flight && w !in s.exited
         && s.fatal.None? && s.next < r.Pieces() && r.Key(w) !in s.benched
         && Claimable(r, s, r.Key(w), at)
       case Return(w, answer) =>
         && r.HasWorker(w) && w in s.flight && s.flight[w] < |s.tried| && r.Key(w) in s.failures
         && (answer.Ok? ==> answer.value == r.Piece(s.flight[w]))
       case Exit(w) =>
         && r.HasWorker(w) && w !in s.flight && w !in s.exited
         && (s.fatal.Some? || s.next >= r.Pieces() || r.Key(w) in s.benched)
       case Emit => s.next < r.Pieces() && s.fatal.None? && s.next in s.results
       case RaiseFatal => s.next < r.Pieces() && s.fatal.Some?
       case GiveUp =>
         && s.next < r.Pieces() && s.fatal.None? && s.results == map[]
         && forall w :: r.HasWorker(w) ==> w in s.exited
       case Close => true
  }

  /** `pending.append(p); pending.sort()` for a list that is sorted already. */
  function Insert(pending: seq<nat>, p: nat): seq<nat> {
    if |pending| == 0 then [p]
    else if p < pending[0] then [p] + pending
    else [pending[0]] + Insert(pending[1..], p)
  }

  lemma {:induction false} InsertMembers(pending: seq<nat>, p: nat, x: nat)
    ensures x in Insert(pending, p) <==> x == p || x in pending
  {
    if |pending| > 0 && p >= pending[0] {
      InsertMembers(pending[1..], p, x);
    }
  }

  lemma ConsAscending(x: nat, rest: seq<nat>, q: seq<nat>)
    requires q == [x] + rest && Ascending(rest) && forall j :: 0 <= j < |rest| ==> x < rest[j]
    ensures Ascending(q)
  {
    forall i, j | 0 <= i < j < |q|
      ensures q[i] < q[j]
    {
      assert q[j] == rest[j - 1];
      assert i > 0 ==> q[i] == rest[i - 1];
    }
  }

  lemma TailAscending(q: seq<nat>, tail: seq<nat>)
    requires Ascending(q) && |q| > 0 && tail == q[1..]
    ensures Ascending(tail) && forall j :: 0 <= j < |tail| ==> q[0] < tail[j]
  {
    forall i, j | 0 <= i < j < |tail|
      ensures tail[i] < tail[j]
    {
      assert tail[i] == q[i + 1] && tail[j] == q[j + 1];
    }
    forall j | 0 <= j < |tail|
      ensures q[0] < tail[j]
    {
      assert tail[j] == q[j + 1];
    }
  }

  lemma {:induction false} InsertAscends(pending: seq<nat>, p: nat)
    requires Ascending(pending) && p !in pending
    ensures Ascending(Insert(pending, p))
  {
    if |pending| > 0 {
      var tail := pending[1..];
      TailAscending(pending, tail);
      hide Ascending;
      if p < pending[0] {
        forall j | 0 <= j < |pending|
          ensures p < pending[j]
        {
          assert j > 0 ==> pending[j] == tail[j - 1];
        }
        ConsAscending(p, pending, [p] + pending);
      } else {
        InsertAscends(tail, p);
        var rest := Insert(tail, p);
        forall j | 0 <= j < |rest|
          ensures pending[0] < rest[j]
        {
          InsertMembers(tail, p, rest[j]);
        }
        ConsAscending(pending[0], rest, [pending[0]] + rest);
      }
    }
  }

  lemma {:induction false} InsertKeepsAll(pending: seq<nat>, p: nat)
    ensures multiset(Insert(pending, p)) == multiset(pending) + multiset{p}
  {
    if |pending| > 0 && p >= pending[0] {
      var head, tail := pending[0], pending[1..];
      InsertKeepsAll(tail, p);
      assert pending == [head] + tail;
    }
  }

  lemma InsertSorts(pending: seq<nat>, p: nat)
    requires Ascending(pending) && p !in pending
    ensures Ascending(Insert(pending, p))
    ensures multiset(Insert(pending, p)) == multiset(pending) + multiset{p}
  {
    hide Insert, Ascending;
    InsertAscends(pending, p);
    InsertKeepsAll(pending, p);
  }

  predicate Ascending(q: seq<nat>) {
    forall i, j :: 0 <= i < j < |q| ==> q[i] < q[j]
  }

  function Failed(r: Read, s: State, w: Worker, p: nat): State
    requires r.Valid() && r.HasWorker(w) && p < |s.tried| && r.Key(w) in s.failures
  {
    var k := r.Key(w);
    var tried := s.tried[p := s.tried[p] + {k}];
    var failures := s.failures[k := s.failures[k] + 1];
    var benched := if failures[k] >= BENCH_AFTER then s.benched + {k} else s.benched;
    var t := s.(tried := tried, failures := failures, benched := benched, flight := s.flight - {w},
                log := s.log + [Fetched(k, p, false)]);
    if r.Keys() <= tried[p] + benched then t.(fatal := Some(p))
    else t.(pending := Insert(s.pending, p))
  }

  function Apply(r: Read, s: State, a: Action): State
    requires r.Valid() && Enabled(r, s, a)
  {
    match a
    case Claim(w, at) =>
      s.(pending := s.pending[..at] + s.pending[at + 1..], flight := s.flight[w := s.pending[at]])
    case Return(w, answer) =>
      var p := s.flight[w];
      (match answer
       case Ok(data) =>
         s.(failures := s.failures[r.Key(w) := 0], results := s.results[p := data],
            flight := s.flight - {w}, log := s.log + [Fetched(r.Key(w), p, true)])
       case Err => Failed(r, s, w, p))
    case Exit(w) => s.(exited := s.exited + {w})
    case Emit =>
      s.(results := s.results - {s.next}, next := s.next + 1, out := s.out + s.results[s.next])
    case RaiseFatal => s.(over := true)
    case GiveUp => s.(over := true)
    case Close => s.(over := true)
  }

  // -- where every piece is ---------------------------------------------------------------

  predicate Shape(r: Read, s: State)
    requires r.Valid()
  {
    && |s.tried| == r.Pieces() && s.next <= r.Pieces()
    && r.Keys() <= s.failures.Keys
    && (forall p :: 0 <= p < |s.tried| ==> s.tried[p] <= r.Keys())
    && (forall w :: w in s.flight ==> r.HasWorker(w) && s.flight[w] < r.Pieces() && w !in s.exited)
    && (forall i :: 0 <= i < |s.pending| ==> s.pending[i] < r.Pieces())
  }

  ghost predicate InFlight(s: State, p: nat) { exists w :: w in s.flight && s.flight[w] == p }

  /** No piece is in two places, or twice in one. */
  ghost predicate Apart(r: Read, s: State)
    requires r.Valid()
  {
    && Ascending(s.pending)
    && (forall p :: p in s.pending ==> s.next <= p && p !in s.results)
    && (forall p :: p in s.results ==> s.next <= p < r.Pieces() && p < s.next + r.Window())
    && (forall w :: w in s.flight ==>
          && s.next <= s.flight[w] < s.next + r.Window()
          && s.flight[w] !in s.pending && s.flight[w] !in s.results)
    && (forall w, x :: w in s.flight && x in s.flight && w != x ==> s.flight[w] != s.flight[x])
  }

  /** A piece is emitted, waiting in the results, in flight or pending; none of these only once
      the read has failed. */
  ghost predicate Accounted(r: Read, s: State)
    requires r.Valid()
  {
    s.fatal.None? ==> forall p :: s.next <= p < r.Pieces() ==>
      p in s.pending || p in s.results || InFlight(s, p)
  }

  /** What waits is right, and what went out is the pieces in order. */
  ghost predicate Right(r: Read, s: State)
    requires r.Valid()
  {
    && (forall p :: p in s.results ==> s.results[p] == r.Piece(p))
    && s.out == Flatten(Parts(r.Target(), r.pieceSize, s.next))
  }

  // -- what has been fetched ----------------------------------------------------------------

  /** How many fetches from `k` have failed since the last that delivered. */
  ghost function Streak(log: seq<Fetched>, k: Store): nat {
    if |log| == 0 then 0
    else
      var before, last := log[..|log| - 1], log[|log| - 1];
      if last.store != k then Streak(before, k)
      else if last.ok then 0 else 1 + Streak(before, k)
  }

  /** At some moment of the read `k` had failed `BENCH_AFTER` fetches in a row. */
  ghost predicate FailedInARow(log: seq<Fetched>, k: Store) {
    |log| > 0 && (Streak(log, k) >= BENCH_AFTER || FailedInARow(log[..|log| - 1], k))
  }

  predicate Done(s: State, p: nat) { p < s.next || p in s.results }

  ghost predicate Logged(r: Read, s: State)
    requires r.Valid() && Shape(r, s)
  {
    && (forall k :: k in r.Keys() ==> s.failures[k] == Streak(s.log, k))
    && (forall k :: k in r.Keys() ==> (k in s.benched <==> FailedInARow(s.log, k)))
    && (forall p, k :: 0 <= p < r.Pieces() ==> (k in s.tried[p] <==> Fetched(k, p, false) in s.log))
    && (forall f :: f in s.log ==> f.piece < r.Pieces() && (f.ok ==> Done(s, f.piece)))
  }

  ghost predicate Untried(r: Read, s: State)
    requires r.Valid() && Shape(r, s)
  {
    && (forall w :: w in s.flight ==> r.Key(w) !in s.tried[s.flight[w]])
    && (forall p :: 0 <= p < r.Pieces() && Done(s, p) ==> s.tried[p] != r.Keys())
  }

  /** The read fails, and a worker leaves early, only for want of stores. */
  ghost predicate Ended(r: Read, s: State)
    requires r.Valid() && Shape(r, s)
  {
    && (s.fatal.None? ==> !(r.Keys() <= s.benched))
    && (s.fatal.Some? ==> s.fatal.value < r.Pieces() && r.Keys() <= s.tried[s.fatal.value] + s.benched)
    && (forall w :: w in s.exited ==>
          r.HasWorker(w) && (s.fatal.Some? || s.next >= r.Pieces() || r.Key(w) in s.benched))
  }

  /** No store is asked twice for the same piece. */
  ghost predicate NoRepeat(log: seq<Fetched>) {
    forall i, j :: 0 <= i < j < |log| ==> log[i].store != log[j].store || log[i].piece != log[j].piece
  }

  /** The fetches piece `p` can still complete. */
  ghost function Left(r: Read, s: State, p: nat): nat
    requires r.Valid() && Shape(r, s) && p < r.Pieces()
  {
    Max(0, |r.Keys()| - |s.tried[p]| - (if Done(s, p) then 1 else 0))
  }

  ghost function LeftOver(r: Read, s: State): seq<nat>
    requires r.Valid() && Shape(r, s)
  {
    seq(r.Pieces(), p requires 0 <= p < r.Pieces() => Left(r, s, p))
  }

  /** Fetches completed and fetches still possible add up to pieces times stores. */
  ghost predicate Counted(r: Read, s: State)
    requires r.Valid() && Shape(r, s)
  {
    |s.log| + Sum(LeftOver(r, s)) == Mul(r.Pieces(), |r.Keys()|)
  }

  ghost predicate Inv(r: Read, s: State)
    requires r.Valid()
  {
    && Shape(r, s) && Apart(r, s) && Accounted(r, s) && Right(r, s)
    && Logged(r, s) && Untried(r, s) && Ended(r, s) && NoRepeat(s.log) && Counted(r, s)
  }

  // -- runs -----------------------------------------------------------------------------------

  ghost predicate Legal(r: Read, s: State, actions: seq<Action>)
    requires r.Valid()
    decreases |actions|
  {
    |actions| > 0 ==> Enabled(r, s, actions[0]) && Legal(r, Apply(r, s, actions[0]), actions[1..])
  }

  ghost function After(r: Read, s: State, actions: seq<Action>): State
    requires r.Valid() && Legal(r, s, actions)
    decreases |actions|
  {
    if |actions| == 0 then s else After(r, Apply(r, s, actions[0]), actions[1..])
  }
}
