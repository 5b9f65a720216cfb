/** The prefetching chain (`utils/prefetching_chain.py`): several byte streams read concurrently
    and handed to the caller as their concatenation. */
module PrefetchingChain {
  import opened Bytes
  import opened Tiling

  /** What a pump puts into its queue: a chunk, or the end with or without an error. */
  datatype Item = Data(chunk: bytes) | End(failed: bool)

  /** One source: the chunks it yields, and whether it then raises. */
  datatype Source = Source(chunks: seq<bytes>, failed: bool)
  {
    function Items(): (r: seq<Item>)
      ensures |r| == |chunks| + 1 && r[|chunks|] == End(failed)
      ensures forall i :: 0 <= i < |chunks| ==> r[i] == Data(chunks[i])
    {
      seq(|chunks|, i requires 0 <= i < |chunks| => Data(chunks[i])) + [End(failed)]
    }
  }

  datatype Chain = Chain(sources: seq<Source>, concurrency: int, queueDepth: int)
  {
    function Concurrency(): (n: nat)
      ensures n >= 1
    {
      if concurrency < 1 then 1 else concurrency
    }

    function Depth(): (n: nat)
      ensures n >= 1
    {
      if queueDepth < 1 then 1 else queueDepth
    }
  }

  /** A started source: its queue, and how many items its pump has put so far. */
  datatype Segment = Segment(queue: seq<Item>, pumped: nat)

  /** The generator is at the top of its loop (or suspended at a `yield`), waits for the current
      queue, has raised, has ended, or was closed early. */
  datatype Phase = Looping | Waiting | Raised | Ended | Closed

  datatype State = State(segments: map<nat, Segment>, started: nat, current: nat, phase: Phase, out: bytes)

  const NOT_STARTED := State(map[], 0, 0, Looping, [])

  datatype Action = Look | Pump(i: nat) | Get | Close

  function Limit(c: Chain, s: State): nat {
    if |c.sources| <= s.current + c.Concurrency() then |c.sources| else s.current + c.Concurrency()
  }

  predicate Enabled(c: Chain, s: State, a: Action) {
    match a
    case Look => s.phase == Looping
    case Pump(i) =>
      && i in s.segments && i < |c.sources| && s.segments[i].pumped < |c.sources[i].Items()|
      && |s.segments[i].queue| < c.Depth()
    case Get => s.phase == Waiting && s.current in s.segments && s.segments[s.current].queue != []
    case Close => s.phase == Looping
  }

  /** Sources `from` up to `to`, freshly started. */
  function Fresh(from: nat, to: nat): (r: map<nat, Segment>)
    ensures forall i :: i in r <==> from <= i < to
    ensures forall i :: i in r ==> r[i] == Segment([], 0)
  {
    if to <= from then map[] else Fresh(from, to - 1)[to - 1 := Segment([], 0)]
  }

  function Apply(c: Chain, s: State, a: Action): State
    requires Enabled(c, s, a)
  {
    match a
    case Look =>
      if s.current >= |c.sources| then s.(phase := Ended, segments := map[])
      else s.(segments := s.segments + Fresh(s.started, Limit(c, s)), started := Max(s.started, Limit(c, s)),
              phase := Waiting)
    case Pump(i) =>
      var g := s.segments[i];
      s.(segments := s.segments[i := Segment(g.queue + [c.sources[i].Items()[g.pumped]], g.pumped + 1)])
    case Get =>
      var g := s.segments[s.current];
      (match g.queue[0]
       case Data(chunk) =>
         s.(segments := s.segments[s.current := g.(queue := g.queue[1..])], phase := Looping, out := s.out + chunk)
       case End(failed) =>
         s.(segments := if failed then map[] else s.segments - {s.current}, current := s.current + 1,
            phase := if failed then Raised else Looping))
    case Close => s.(phase := Closed, segments := map[])
  }

  // -- the invariant ------------------------------------------------------------------------------

  /** How many items of a started source have been taken off its queue. */
  function Taken(g: Segment): int { g.pumped - |g.queue| }

  /** The plain concatenation of the first `k` sources. */
  function Joined(sources: seq<Source>, k: nat): bytes
    requires k <= |sources|
  {
    if k == 0 then [] else Joined(sources, k - 1) + Flatten(sources[k - 1].chunks)
  }

  predicate Live(s: State) { s.phase == Looping || s.phase == Waiting }

  /** A queue holds a stretch of its source's items, and never all of them have been taken. */
  predicate SegmentOk(c: Chain, i: nat, g: Segment)
    requires i < |c.sources|
  {
    && 0 <= Taken(g) <= g.pumped <= |c.sources[i].Items()| && Taken(g) < |c.sources[i].Items()|
    && |g.queue| <= c.Depth()
    && g.queue == c.sources[i].Items()[Taken(g)..g.pumped]
  }

  ghost predicate Running(c: Chain, s: State) {
    && s.current <= |c.sources| && s.started <= |c.sources|
    && (Live(s) ==>
          && s.current <= s.started <= s.current + c.Concurrency()
          && forall i :: i in s.segments <==> s.current <= i < s.started)
    && (s.phase == Waiting ==> s.current < s.started)
    && (!Live(s) ==> s.segments == map[])
  }

  ghost predicate Queues(c: Chain, s: State)
    requires Running(c, s)
  {
    forall i :: i in s.segments ==>
      i < |c.sources| && SegmentOk(c, i, s.segments[i]) && (i > s.current ==> Taken(s.segments[i]) == 0)
  }

  /** Chunks of the current source already handed out. */
  function TakenOfCurrent(s: State): int {
    if s.current in s.segments then Taken(s.segments[s.current]) else 0
  }

  ghost predicate Output(c: Chain, s: State)
    requires Running(c, s) && Queues(c, s)
  {
    && (Live(s) && s.current < |c.sources| ==>
          && 0 <= TakenOfCurrent(s) <= |c.sources[s.current].chunks|
          && s.out == Joined(c.sources, s.current) + Flatten(c.sources[s.current].chunks[..TakenOfCurrent(s)]))
    && (Live(s) && s.current == |c.sources| ==> s.out == Joined(c.sources, |c.sources|))
    && (s.phase == Ended ==> s.current == |c.sources| && s.out == Joined(c.sources, |c.sources|))
    && (s.phase == Raised ==>
          s.current > 0 && s.out == Joined(c.sources, s.current) && c.sources[s.current - 1].failed)
    && (forall i :: 0 <= i < s.current && (s.phase == Raised ==> i < s.current - 1) ==> !c.sources[i].failed)
    && s.out <= Joined(c.sources, Reached(c, s))
  }

  /** How many sources, the current one included, the output may hold bytes of. */
  function Reached(c: Chain, s: State): nat
    requires s.current <= |c.sources|
  {
    if s.phase == Raised || s.current == |c.sources| then s.current else s.current + 1
  }

  ghost predicate Inv(c: Chain, s: State) { Running(c, s) && Queues(c, s) && Output(c, s) }

  lemma {:induction false} JoinedPrefix(sources: seq<Source>, j: nat, k: nat)
    requires j <= k <= |sources|
    ensures Joined(sources, j) <= Joined(sources, k)
  {
    if j < k {
      JoinedPrefix(sources, j, k - 1);
    }
  }

  lemma FlattenPrefix(chunks: seq<bytes>, t: nat)
    requires t <= |chunks|
    ensures Flatten(chunks[..t]) <= Flatten(chunks)
  {
    assert chunks == chunks[..t] + chunks[t..];
    FlattenConcat(chunks[..t], chunks[t..]);
  }

  /** Some chunks of source `k` after all earlier sources are a prefix of the sources up to `k`. */
  lemma PartialIsPrefix(c: Chain, k: nat, t: nat)
    requires k < |c.sources| && t <= |c.sources[k].chunks|
    ensures Joined(c.sources, k) + Flatten(c.sources[k].chunks[..t]) <= Joined(c.sources, k + 1)
  {
    hide Flatten;
    FlattenPrefix(c.sources[k].chunks, t);
    var whole, head := Flatten(c.sources[k].chunks), Flatten(c.sources[k].chunks[..t]);
    assert Joined(c.sources, k) + head <= Joined(c.sources, k) + whole;
  }

  lemma StepRunning(c: Chain, s: State, a: Action)
    requires Running(c, s) && Queues(c, s) && Enabled(c, s, a)
    ensures Running(c, Apply(c, s, a))
  {
    hide SegmentOk;
  }

  lemma PumpOk(c: Chain, i: nat, g: Segment)
    requires i < |c.sources| && SegmentOk(c, i, g) && g.pumped < |c.sources[i].Items()| && |g.queue| < c.Depth()
    ensures SegmentOk(c, i, Segment(g.queue + [c.sources[i].Items()[g.pumped]], g.pumped + 1))
  {
    var items := c.sources[i].Items();
    assert items[Taken(g)..g.pumped + 1] == items[Taken(g)..g.pumped] + [items[g.pumped]];
  }

  /** A chunk taken off is the next item of its source, and not the last: the end follows. */
  lemma TakeOk(c: Chain, i: nat, g: Segment)
    requires i < |c.sources| && SegmentOk(c, i, g) && g.queue != []
    ensures g.queue[0] == c.sources[i].Items()[Taken(g)]
    ensures g.queue[0].Data? ==> SegmentOk(c, i, g.(queue := g.queue[1..]))
  {
    var items := c.sources[i].Items();
    assert g.queue[0] == items[Taken(g)];
    assert items[Taken(g)..g.pumped][1..] == items[Taken(g) + 1..g.pumped];
  }

  lemma StepQueues(c: Chain, s: State, a: Action)
    requires Running(c, s) && Queues(c, s) && Enabled(c, s, a) && Running(c, Apply(c, s, a))
    ensures Queues(c, Apply(c, s, a))
  {
    hide SegmentOk;
    match a
    case Look => FreshOk(c);
    case Pump(i) => PumpOk(c, i, s.segments[i]);
    case Get => TakeOk(c, s.current, s.segments[s.current]);
    case Close =>
  }

  lemma FreshOk(c: Chain)
    ensures forall i :: 0 <= i < |c.sources| ==> SegmentOk(c, i, Segment([], 0))
  {
  }

  lemma GetOutput(c: Chain, s: State)
    requires Inv(c, s) && Enabled(c, s, Get)
    requires Running(c, Apply(c, s, Get)) && Queues(c, Apply(c, s, Get))
    ensures Output(c, Apply(c, s, Get))
  {
    hide SegmentOk, Flatten;
    var k, g := s.current, s.segments[s.current];
    var chunks := c.sources[k].chunks;
    var n := Taken(g);
    TakeOk(c, k, g);
    SegmentRange(c, k, g);
    if g.queue[0].Data? {
      assert chunks[..n + 1] == chunks[..n] + [chunks[n]];
      FlattenAppend(chunks[..n], chunks[n]);
      PartialIsPrefix(c, k, n + 1);
    } else {
      assert n == |chunks| && chunks[..n] == chunks;
      JoinedPrefix(c.sources, k + 1, Min(k + 2, |c.sources|));
      var t := Apply(c, s, Get);
      if t.current < |c.sources| {
        assert c.sources[t.current].chunks[..0] == [];
        assert Flatten<byte>([]) == [] by {
          FlattenNone<byte>();
        }
      }
    }
  }

  lemma SegmentRange(c: Chain, i: nat, g: Segment)
    requires i < |c.sources| && SegmentOk(c, i, g)
    ensures 0 <= Taken(g) <= |c.sources[i].chunks|
    ensures Taken(g) < |c.sources[i].chunks| <==> c.sources[i].Items()[Taken(g)].Data?
    ensures Taken(g) < |c.sources[i].chunks| ==> c.sources[i].Items()[Taken(g)] == Data(c.sources[i].chunks[Taken(g)])
  {
  }

  lemma StepKeepsInv(c: Chain, s: State, a: Action)
    requires Inv(c, s) && Enabled(c, s, a)
    ensures Inv(c, Apply(c, s, a))
  {
    hide SegmentOk, Joined, Flatten;
    StepRunning(c, s, a);
    StepQueues(c, s, a);
    if a.Get? {
      GetOutput(c, s);
    }
  }

  // -- every run ----------------------------------------------------------------------------------

  ghost predicate Run(c: Chain, states: seq<State>, actions: seq<Action>) {
    && |states| == |actions| + 1 && states[0] == NOT_STARTED
    && forall k :: 0 <= k < |actions| ==>
         Enabled(c, states[k], actions[k]) && states[k + 1] == Apply(c, states[k], actions[k])
  }

  lemma InitInv(c: Chain)
    ensures Inv(c, NOT_STARTED)
  {
    assert |c.sources| > 0 ==> c.sources[0].chunks[..0] == [];
    JoinedPrefix(c.sources, 0, Reached(c, NOT_STARTED));
  }

  lemma {:induction false} RunKeepsInv(c: Chain, states: seq<State>, actions: seq<Action>, k: nat)
    requires Run(c, states, actions) && k < |states|
    ensures Inv(c, states[k])
  {
    hide Inv, Enabled, Apply;
    if k == 0 {
      InitInv(c);
    } else {
      RunKeepsInv(c, states, actions, k - 1);
      StepKeepsInv(c, states[k - 1], actions[k - 1]);
    }
  }

  /** In every run the output is a prefix of the concatenation; a normal end has delivered all of it
      and no source has failed; an error is that of the first failed source and comes after
      every byte up to and including that source's. */
  lemma RefinesConcatenation(c: Chain, states: seq<State>, actions: seq<Action>, k: nat)
    requires Run(c, states, actions) && k < |states|
    ensures var s := states[k];
      && s.out <= Joined(c.sources, |c.sources|)
      && (s.phase == Ended ==>
            s.out == Joined(c.sources, |c.sources|) && forall i :: 0 <= i < |c.sources| ==> !c.sources[i].failed)
      && (s.phase == Raised ==>
            && 0 < s.current <= |c.sources| && c.sources[s.current - 1].failed
            && s.out == Joined(c.sources, s.current)
            && forall i :: 0 <= i < s.current - 1 ==> !c.sources[i].failed)
  {
    hide Run, Joined;
    RunKeepsInv(c, states, actions, k);
    JoinedPrefix(c.sources, Reached(c, states[k]), |c.sources|);
  }

  /** The sources running are those from the current one up to the last started, never more than
      the concurrency, each with a bounded queue; a consumer that waits can either take an
      item now or waits for a pump that can put one. */
  lemma NeverStuck(c: Chain, states: seq<State>, actions: seq<Action>, k: nat)
    requires Run(c, states, actions) && k < |states| && Live(states[k])
    ensures var s := states[k];
      && s.started - s.current <= c.Concurrency()
      && (forall i :: i in s.segments <==> s.current <= i < s.started)
      && (forall i :: i in s.segments ==> |s.segments[i].queue| <= c.Depth())
      && (s.phase == Waiting ==> Enabled(c, s, Get) || Enabled(c, s, Pump(s.current)))
  {
    hide Run, Joined, Output;
    RunKeepsInv(c, states, actions, k);
  }

  // -- sources that carry wanted bytes --------------------------------------------------------------

  /** Source `i` delivers, however chunked, the bytes `want[i]`, or fails on the way with a prefix of
      them. */
  ghost predicate Delivers(want: seq<bytes>, sources: seq<Source>) {
    && |sources| == |want|
    && forall i :: 0 <= i < |want| ==>
         && Flatten(sources[i].chunks) <= want[i]
         && (!sources[i].failed ==> Flatten(sources[i].chunks) == want[i])
  }

  lemma {:induction false} JoinedWant(want: seq<bytes>, sources: seq<Source>, k: nat)
    requires Delivers(want, sources) && k <= |sources|
    requires forall i :: 0 <= i < k - 1 ==> !sources[i].failed
    ensures Joined(sources, k) <= Flatten(want[..k])
    ensures (k > 0 ==> !sources[k - 1].failed) ==> Joined(sources, k) == Flatten(want[..k])
  {
    hide Flatten;
    if k > 0 {
      JoinedWant(want, sources, k - 1);
      assert want[..k] == want[..k - 1] + [want[k - 1]];
      FlattenAppend(want[..k - 1], want[k - 1]);
      var got := Flatten(sources[k - 1].chunks);
      assert got <= want[k - 1];
      assert Joined(sources, k) == Flatten(want[..k - 1]) + got;
    } else {
      FlattenNone<byte>();
    }
  }

  /** What comes out is always a prefix of the wanted bytes, and a normal end has delivered exactly
      them. */
  lemma ChainDelivers(want: seq<bytes>, c: Chain, states: seq<State>, actions: seq<Action>, k: nat)
    requires Delivers(want, c.sources) && Run(c, states, actions) && k < |states|
    ensures states[k].out <= Flatten(want)
    ensures states[k].phase == Ended ==> states[k].out == Flatten(want)
  {
    hide Run, Joined, Flatten;
    RefinesConcatenation(c, states, actions, k);
    RunKeepsInv(c, states, actions, k);
    var s, n := states[k], |want|;
    assert want[..n] == want;
    if s.phase == Ended {
      JoinedWant(want, c.sources, n);
    } else {
      var r := Reached(c, s);
      JoinedWant(want, c.sources, r);
      FlattenPrefix(want, r);
    }
  }

  // -- every chain ends -----------------------------------------------------------------------------------

  /** The steps source `i` can still take: its items to be pumped, and each to be looked at and taken. */
  function SourceSteps(c: Chain, s: State, i: nat): int
    requires i < |c.sources|
  {
    var n := |c.sources[i].Items()|;
    if i < s.current then 0
    else if i in s.segments then (n - s.segments[i].pumped) + 2 * (n - Taken(s.segments[i]))
    else 3 * n
  }

  ghost function AllSteps(c: Chain, s: State, k: nat): int
    requires k <= |c.sources|
  {
    if k == 0 then 0 else AllSteps(c, s, k - 1) + SourceSteps(c, s, k - 1)
  }

  ghost function StepsLeft(c: Chain, s: State): int {
    if !Live(s) then 0 else AllSteps(c, s, |c.sources|) + if s.phase == Looping then 1 else 0
  }

  /** Only source `i` has moved. */
  lemma {:induction false} OneSource(c: Chain, s: State, t: State, i: nat, k: nat)
    requires k <= |c.sources| && i < |c.sources|
    requires forall j :: 0 <= j < |c.sources| && j != i ==> SourceSteps(c, t, j) == SourceSteps(c, s, j)
    ensures AllSteps(c, t, k) == AllSteps(c, s, k) + if i < k then SourceSteps(c, t, i) - SourceSteps(c, s, i) else 0
  {
    hide SourceSteps;
    if k > 0 {
      OneSource(c, s, t, i, k - 1);
    }
  }

  lemma {:induction false} NoSource(c: Chain, s: State, t: State, k: nat)
    requires k <= |c.sources|
    requires forall j :: 0 <= j < |c.sources| ==> SourceSteps(c, t, j) == SourceSteps(c, s, j)
    ensures AllSteps(c, t, k) == AllSteps(c, s, k)
  {
    hide SourceSteps;
    if k > 0 {
      NoSource(c, s, t, k - 1);
    }
  }

  lemma {:induction false} StepsNotNegative(c: Chain, s: State, k: nat)
    requires Inv(c, s) && k <= |c.sources|
    ensures AllSteps(c, s, k) >= 0
    ensures forall j :: 0 <= j < k ==> 0 <= SourceSteps(c, s, j) <= AllSteps(c, s, k)
  {
    if k > 0 {
      hide Output;
      StepsNotNegative(c, s, k - 1);
      assert 0 <= SourceSteps(c, s, k - 1);
    }
  }

  lemma StepCosts(c: Chain, s: State, a: Action)
    requires Inv(c, s) && Enabled(c, s, a)
    ensures StepsLeft(c, Apply(c, s, a)) < StepsLeft(c, s)
  {
    hide Output, AllSteps;
    var t, n := Apply(c, s, a), |c.sources|;
    StepsNotNegative(c, s, n);
    match a
    case Look =>
      if s.current < n {
        NoSource(c, s, t, n);
      }
    case Pump(i) => PumpedLive(c, s, i); OneSource(c, s, t, i, n);
    case Get =>
      GetSteps(c, s);
      if Live(t) {
        OneSource(c, s, t, s.current, n);
      }
    case Close =>
  }

  lemma GetSteps(c: Chain, s: State)
    requires Running(c, s) && Queues(c, s) && Enabled(c, s, Get) && s.current < |c.sources|
    ensures SourceSteps(c, s, s.current) >= 2
    ensures var t := Apply(c, s, Get); Live(t) ==>
      && SourceSteps(c, t, s.current) <= SourceSteps(c, s, s.current) - 2
      && forall j :: 0 <= j < |c.sources| && j != s.current ==> SourceSteps(c, t, j) == SourceSteps(c, s, j)
  {
    TakeOk(c, s.current, s.segments[s.current]);
  }

  lemma PumpedLive(c: Chain, s: State, i: nat)
    requires Running(c, s) && Enabled(c, s, Pump(i))
    ensures Live(s) && s.current <= i
  {
  }

  /** Every chain comes to its end: no run takes more than three steps an item, each source's end being one, and
      one more. */
  lemma {:induction false} RunsAreBounded(c: Chain, states: seq<State>, actions: seq<Action>, k: nat)
    requires Run(c, states, actions) && k < |states|
    ensures k + StepsLeft(c, states[k]) <= AllSteps(c, NOT_STARTED, |c.sources|) + 1 && StepsLeft(c, states[k]) >= 0
  {
    hide AllSteps, Enabled, Apply, Inv;
    RunKeepsInv(c, states, actions, k);
    StepsNotNegative(c, states[k], |c.sources|);
    if k > 0 {
      RunsAreBounded(c, states, actions, k - 1);
      RunKeepsInv(c, states, actions, k - 1);
      StepCosts(c, states[k - 1], actions[k - 1]);
    }
  }

  /** Where a chain that can go no further stands: it was closed, it delivered everything, or it raised the first
      error there was. */
  lemma AtRestIs(c: Chain, states: seq<State>, actions: seq<Action>, k: nat)
    requires Run(c, states, actions) && k < |states| && forall a :: !Enabled(c, states[k], a)
    ensures states[k].phase == Ended || states[k].phase == Raised || states[k].phase == Closed
    ensures states[k].phase == Ended ==> states[k].out == Joined(c.sources, |c.sources|)
  {
    RunKeepsInv(c, states, actions, k);
    var s := states[k];
    assert !Enabled(c, s, Look) && !Enabled(c, s, Get) && !Enabled(c, s, Pump(s.current));
  }

  /** A split download over the chain is the byte range asked for. */
  lemma SplitDownload(doc: bytes, begin: nat, end: int, size: nat, spans: seq<Span>, c: Chain,
                      states: seq<State>, actions: seq<Action>, k: nat)
    requires begin <= end + 1 <= |doc| && size > 0
    requires |spans| == Count(end + 1 - begin, size) && ArePieces(doc, begin, end, size, spans)
    requires Delivers(Cuts(doc, spans), c.sources) && Run(c, states, actions) && k < |states|
    ensures states[k].out <= doc[begin..end + 1]
    ensures states[k].phase == Ended ==> states[k].out == doc[begin..end + 1]
  {
    hide Run, Delivers, Flatten, Part, Cuts, ArePieces, Parts, Count;
    var range, want := doc[begin..end + 1], Cuts(doc, spans);
    ChainDelivers(want, c, states, actions, k);
    PartsWhole(range, size);
    CutsAreParts(doc, begin, end, size, spans);
  }

  lemma CutsAreParts(doc: bytes, begin: nat, end: int, size: nat, spans: seq<Span>)
    requires begin <= end + 1 <= |doc| && ArePieces(doc, begin, end, size, spans)
    ensures Cuts(doc, spans) == Parts(doc[begin..end + 1], size, |spans|)
  {
    hide Part;
  }

  /** The bytes each span names. */
  ghost function Cuts(doc: bytes, spans: seq<Span>): seq<bytes> {
    seq(|spans|, i requires 0 <= i < |spans| =>
      if spans[i].begin <= spans[i].end + 1 <= |doc| then doc[spans[i].begin..spans[i].end + 1] else [])
  }

  lemma FreshGrows(m: map<nat, Segment>, from: nat, k: nat)
    requires from <= k
    ensures m + Fresh(from, k + 1) == (m + Fresh(from, k))[k := Segment([], 0)]
    ensures m + Fresh(from, from) == m
  {
  }

  lemma FreshNone(from: nat, to: nat)
    ensures to <= from ==> Fresh(from, to) == Fresh(from, from) == map[]
  {
  }

  lemma InvStarted(c: Chain, s: State)
    requires Inv(c, s)
    ensures s.started <= |c.sources|
  {
  }

  // -- the generator --------------------------------------------------------------------------------

  /** The generator's local variables and the queues it shares with its pumps. */
  class Generator {
    const chain: Chain
    var segments: map<nat, Segment>
    var started: nat
    var current: nat
    var phase: Phase
    ghost var out: bytes

    ghost function Now(): State
      reads this
    {
      State(segments, started, current, phase, out)
    }

    constructor (c: Chain)
      ensures chain == c && Now() == NOT_STARTED && Inv(c, Now())
    {
      InitInv(c);
      chain := c;
      segments, started, current, phase, out := map[], 0, 0, Looping, [];
    }

    /** `start_window`: the next sources, up to the concurrency, are running. */
    method StartWindow()
      requires Inv(chain, Now()) && phase == Looping && current < |chain.sources|
      modifies this`segments, this`started, this`phase
      ensures Inv(chain, Now()) && Now() == Apply(chain, old(Now()), Look)
    {
      hide Inv, Output, Queues, Fresh, Running;
      InvStarted(chain, Now());
      StepKeepsInv(chain, Now(), Look);
      var limit :=
        if |chain.sources| <= current + chain.Concurrency() then |chain.sources| else current + chain.Concurrency();
      FreshNone(started, limit);
      var running, n := RunUpto(limit);
      segments, started, phase := running, n, Waiting;
    }

    /** The segments with those of the sources before `limit` started. */
    method RunUpto(limit: nat) returns (running: map<nat, Segment>, n: nat)
      ensures n == Max(started, limit) && running == segments + Fresh(started, n)
    {
      hide Fresh;
      FreshGrows(segments, started, started);
      running, n := segments, started;
      while n < limit
        invariant started <= n <= Max(started, limit)
        invariant running == segments + Fresh(started, n)
      {
        FreshGrows(segments, started, n);
        running := running[n := Segment([], 0)];
        n := n + 1;
      }
    }

    /** `_pump` puts the next item of source `i`; the queue had room. */
    method Put(i: nat)
      requires Inv(chain, Now()) && Enabled(chain, Now(), Pump(i))
      modifies this`segments
      ensures Inv(chain, Now()) && Now() == Apply(chain, old(Now()), Pump(i))
    {
      hide Inv, Output, Queues;
      StepKeepsInv(chain, Now(), Pump(i));
      var g := segments[i];
      segments := segments[i := Segment(g.queue + [chain.sources[i].Items()[g.pumped]], g.pumped + 1)];
    }

    /** What the current queue gave: a chunk to yield, the end of a source, or its error. */
    method Take() returns (item: Item)
      requires Inv(chain, Now()) && Enabled(chain, Now(), Get)
      modifies this`segments, this`current, this`phase, this`out
      ensures Inv(chain, Now()) && Now() == Apply(chain, old(Now()), Get)
      ensures item.Data? ==> out == old(out) + item.chunk && phase == Looping && current == old(current)
      ensures item.End? ==> out == old(out) && current == old(current) + 1
      ensures item.End? ==> phase == if item.failed then Raised else Looping
    {
      hide Inv, Output, Queues;
      StepKeepsInv(chain, Now(), Get);
      var g := segments[current];
      item := g.queue[0];
      match item
      case Data(chunk) =>
        segments := segments[current := g.(queue := g.queue[1..])];
        out := out + chunk;
        phase := Looping;
      case End(failed) =>
        segments := if failed then map[] else segments - {current};
        current := current + 1;
        phase := if failed then Raised else Looping;
    }
  }
}
