/** One tee'd upload with any number of mirrors: the producer that reads for the primary, the
    task of every mirror, and the end of the upload by `collect` or `abort`. */
module TeeUpload {
  import opened Bytes
  import opened Tee

  /** What the task that runs the primary upload is doing: between reads, inside `read` handing
      the chunk to branch `i` or marking branch `i` finished, in `collect`, or in `abort`. */
  datatype Phase =
    | Idle
    | Feeding(data: bytes, i: nat)
    | Finishing(i: nat)
    | Collecting(i: nat)
    | Aborting(i: nat)

  /** The task of one mirror: its upload runs, has ended, or has detached the branch. */
  datatype Status = Running | Ended | Done

  /** `consumed` is what the mirror took off its branch; `clean` that it saw the end of it. */
  datatype Sink = Sink(consumed: bytes, status: Status, clean: bool)

  /** `read` is everything the primary has read so far, of the `total` bytes of the upload. */
  datatype State = State(total: nat, read: bytes, phase: Phase, branches: seq<Branch>, sinks: seq<Sink>)

  ghost predicate Init(s: State) {
    && s.read == [] && s.phase == Idle && |s.sinks| == |s.branches|
    && (forall i :: 0 <= i < |s.branches| ==>
          && s.branches[i] == Branch(s.branches[i].capacity, [], 0, false, false)
          && s.branches[i].capacity >= 1)
    && (forall i :: 0 <= i < |s.sinks| ==> s.sinks[i] == Sink([], Running, false))
  }

  datatype Action =
    | Read(data: bytes)
    | Feed
    | Finish
    | StartCollect
    | CollectOne
    | StartAbort
    | AbortOne
    | Next(i: nat)
    | AtEnd(i: nat)
    | Stop(i: nat)
    | Detach(i: nat)

  ghost predicate Enabled(s: State, a: Action) {
    match a
    case Read(data) => s.phase == Idle && |s.read| + |data| <= s.total
    case Feed =>
      s.phase.Feeding? && s.phase.i < |s.branches| && !s.branches[s.phase.i].Full(s.phase.data)
    case Finish => s.phase.Finishing? && s.phase.i < |s.branches|
    case StartCollect => s.phase == Idle
    case CollectOne => s.phase.Collecting? && s.phase.i < |s.branches|
    case StartAbort => s.phase.Idle? || s.phase.Feeding? || s.phase.Finishing?
    case AbortOne => s.phase.Aborting? && s.phase.i < |s.branches|
    case Next(i) =>
      && i < |s.branches| && i < |s.sinks| && s.sinks[i].status == Running && !s.branches[i].detached
      && |s.branches[i].chunks| > 0 && |s.branches[i].chunks[0]| <= s.branches[i].buffered
    case AtEnd(i) => i < |s.branches| && i < |s.sinks| && s.sinks[i].status == Running && s.branches[i].AtEnd()
    case Stop(i) => i < |s.branches| && i < |s.sinks| && s.sinks[i].status == Running
    case Detach(i) => i < |s.branches| && i < |s.sinks| && s.sinks[i].status == Ended
  }

  /** The producer after branch `i` has its chunk: the next branch, then the end if the byte
      count is reached. */
  function AfterFeed(s: State, data: bytes, i: nat): Phase {
    if i < |s.branches| then Feeding(data, i)
    else if |s.read| >= s.total then AfterFinish(s, 0)
    else Idle
  }

  function AfterFinish(s: State, i: nat): Phase { if i < |s.branches| then Finishing(i) else Idle }

  function Apply(s: State, a: Action): State
    requires Enabled(s, a)
  {
    match a
    case Read(data) =>
      if data == [] then s
      else
        var t := s.(read := s.read + data);
        t.(phase := AfterFeed(t, data, 0))
    case Feed =>
      s.(branches := s.branches[s.phase.i := s.branches[s.phase.i].Fed(s.phase.data)],
         phase := AfterFeed(s, s.phase.data, s.phase.i + 1))
    case Finish =>
      s.(branches := s.branches[s.phase.i := s.branches[s.phase.i].Finished()],
         phase := AfterFinish(s, s.phase.i + 1))
    case StartCollect => s.(phase := Collecting(0))
    case CollectOne =>
      s.(branches := s.branches[s.phase.i := s.branches[s.phase.i].Finished()], phase := Collecting(s.phase.i + 1))
    case StartAbort => s.(phase := Aborting(0))
    case AbortOne =>
      s.(branches := s.branches[s.phase.i := s.branches[s.phase.i].Detached()], phase := Aborting(s.phase.i + 1))
    case Next(i) =>
      s.(branches := s.branches[i := s.branches[i].Taken()],
         sinks := s.sinks[i := s.sinks[i].(consumed := s.sinks[i].consumed + s.branches[i].chunks[0])])
    case AtEnd(i) => s.(sinks := s.sinks[i := s.sinks[i].(status := Ended, clean := true)])
    case Stop(i) => s.(sinks := s.sinks[i := s.sinks[i].(status := Ended)])
    case Detach(i) =>
      s.(branches := s.branches[i := s.branches[i].Detached()], sinks := s.sinks[i := s.sinks[i].(status := Done)])
  }

  // -- the invariant ------------------------------------------------------------------------------

  /** What branch `i` has been offered: everything read, except a chunk still on its way to it. */
  function Offered(s: State, i: nat): bytes {
    if s.phase.Feeding? && s.phase.i <= i && |s.phase.data| <= |s.read|
    then s.read[..|s.read| - |s.phase.data|] else s.read
  }

  ghost predicate Shape(s: State) {
    && |s.sinks| == |s.branches| && |s.read| <= s.total
    && (forall i :: 0 <= i < |s.branches| ==> s.branches[i].Sound())
    && (s.phase.Feeding? ==>
          && s.phase.i < |s.branches| && s.phase.data != [] && |s.phase.data| <= |s.read|
          && s.phase.data == s.read[|s.read| - |s.phase.data|..])
    && (s.phase.Finishing? ==> s.phase.i < |s.branches| && |s.read| >= s.total)
    && (s.phase.Collecting? || s.phase.Aborting? ==> s.phase.i <= |s.branches|)
  }

  /** A branch still attached is a lossless queue: taken off plus queued is what it was offered
      (unless an abort broke off the feeding). What was taken off is in any case a prefix of what
      the primary read. */
  ghost predicate LosslessAt(s: State, i: nat)
    requires Shape(s) && i < |s.branches|
  {
    var taken, queued := s.sinks[i].consumed, Flatten(s.branches[i].chunks);
    && taken <= s.read
    && (!s.branches[i].detached ==> taken + queued <= s.read)
    && (!s.branches[i].detached && (s.phase.Aborting? ==> s.branches[i].eof) ==> taken + queued == Offered(s, i))
  }

  ghost predicate Lossless(s: State)
    requires Shape(s)
  {
    forall i :: 0 <= i < |s.branches| ==> LosslessAt(s, i)
  }

  /** A branch is marked finished only once nothing more will be read. */
  ghost predicate EndsOnce(s: State)
    requires Shape(s)
  {
    forall i :: 0 <= i < |s.branches| ==>
      && (s.branches[i].eof ==>
            (|s.read| == s.total && !s.phase.Feeding?) || s.phase.Collecting? || s.phase.Aborting?)
      && (s.sinks[i].clean ==> s.branches[i].eof && s.sinks[i].consumed == s.read && s.sinks[i].status != Running)
      && (s.sinks[i].status == Done ==> s.branches[i].detached)
      && (s.phase.Collecting? && i < s.phase.i ==> s.branches[i].eof)
      && (s.phase.Aborting? && i < s.phase.i ==> s.branches[i].detached)
  }

  ghost predicate Inv(s: State) { Shape(s) && Lossless(s) && EndsOnce(s) }

  lemma InitInv(s: State)
    requires Init(s)
    ensures Inv(s)
  {
  }

  lemma StepShape(s: State, a: Action)
    requires Inv(s) && Enabled(s, a)
    ensures Shape(Apply(s, a))
  {
    hide Lossless, EndsOnce, Flatten, Branch.Sound;
    match a
    case Read(data) =>
    case Feed => FedSound(s.branches[s.phase.i], s.phase.data);
    case Next(i) => TakenSound(s.branches[i]);
    case Finish => MarkedSound(s.branches[s.phase.i]);
    case CollectOne => MarkedSound(s.branches[s.phase.i]);
    case AbortOne => MarkedSound(s.branches[s.phase.i]);
    case Detach(i) => MarkedSound(s.branches[i]);
    case _ =>
  }

  lemma MarkedSound(b: Branch)
    requires b.Sound()
    ensures b.Finished().Sound() && b.Detached().Sound()
  {
  }

  lemma ReadLossless(s: State, data: bytes, i: nat)
    requires Inv(s) && Enabled(s, Read(data)) && Shape(Apply(s, Read(data))) && i < |s.branches|
    ensures LosslessAt(Apply(s, Read(data)), i)
  {
    hide Flatten, Branch.Sound;
    var t := Apply(s, Read(data));
    assert LosslessAt(s, i);
    assert s.read <= t.read;
    if data != [] {
      assert t.read[..|t.read| - |data|] == s.read;
    }
  }

  lemma FeedLossless(s: State, i: nat)
    requires Inv(s) && Enabled(s, Feed) && Shape(Apply(s, Feed)) && i < |s.branches|
    ensures LosslessAt(Apply(s, Feed), i)
  {
    hide Flatten, Branch.Sound, EndsOnce, Lossless;
    AllLossless(s, i);
    var data, read := s.phase.data, s.read;
    var cut := |read| - |data|;
    if i == s.phase.i && !s.branches[i].detached {
      FedSound(s.branches[i], data);
      FedWhole(read, cut, data, s.sinks[i].consumed, Flatten(s.branches[i].chunks));
    }
  }

  lemma FedWhole(read: bytes, cut: nat, data: bytes, taken: bytes, queued: bytes)
    requires cut <= |read| && data == read[cut..] && taken + queued == read[..cut]
    ensures taken + (queued + data) == read
  {
    Associate(taken, queued, data);
    assert read[..cut] + data == read;
  }

  lemma AllLossless(s: State, i: nat)
    requires Inv(s) && i < |s.branches|
    ensures LosslessAt(s, i)
  {
  }

  lemma NextLossless(s: State, j: nat, i: nat)
    requires Inv(s) && Enabled(s, Next(j)) && Shape(Apply(s, Next(j))) && i < |s.branches|
    ensures LosslessAt(Apply(s, Next(j)), i)
  {
    hide Flatten, Branch.Sound;
    var t := Apply(s, Next(j));
    SoundHead(s.branches[j]);
    assert LosslessAt(s, i);
    if i == j {
      var head, rest := s.branches[i].chunks[0], Flatten(t.branches[i].chunks);
      assert s.sinks[i].consumed + (head + rest) == t.sinks[i].consumed + rest;
      assert t.sinks[i].consumed <= t.sinks[i].consumed + rest;
    }
  }

  lemma StepLossless(s: State, a: Action)
    requires Inv(s) && Enabled(s, a) && Shape(Apply(s, a))
    ensures Lossless(Apply(s, a))
  {
    hide Branch.Sound, Flatten;
    forall i | 0 <= i < |s.branches|
      ensures LosslessAt(Apply(s, a), i)
    {
      match a
      case Read(data) => ReadLossless(s, data, i);
      case Feed => FeedLossless(s, i);
      case Next(j) => NextLossless(s, j, i);
      case _ =>
        assert LosslessAt(s, i);
    }
  }

  lemma StepEndsOnce(s: State, a: Action)
    requires Inv(s) && Enabled(s, a) && Shape(Apply(s, a))
    ensures EndsOnce(Apply(s, a))
  {
    hide Branch.Sound;
    if a.AtEnd? {
      assert LosslessAt(s, a.i);
    }
  }

  lemma StepKeepsInv(s: State, a: Action)
    requires Inv(s) && Enabled(s, a)
    ensures Inv(Apply(s, a))
  {
    hide Shape, Lossless, EndsOnce, Enabled, Apply;
    StepShape(s, a);
    StepLossless(s, a);
    StepEndsOnce(s, a);
  }

  // -- every run ----------------------------------------------------------------------------------

  /** A run: the states one step after the other. */
  ghost predicate Run(states: seq<State>, actions: seq<Action>) {
    && |states| == |actions| + 1 && Init(states[0])
    && forall k :: 0 <= k < |actions| ==>
         Enabled(states[k], actions[k]) && states[k + 1] == Apply(states[k], actions[k])
  }

  lemma {:induction false} RunKeepsInv(states: seq<State>, actions: seq<Action>, k: nat)
    requires Run(states, actions) && k < |states|
    ensures Inv(states[k])
  {
    hide Inv, Init, Enabled, Apply;
    if k == 0 {
      InitInv(states[0]);
    } else {
      RunKeepsInv(states, actions, k - 1);
      StepKeepsInv(states[k - 1], actions[k - 1]);
    }
  }

  lemma {:induction false} ReadGrows(states: seq<State>, actions: seq<Action>, k: nat, m: nat)
    requires Run(states, actions) && k <= m < |states|
    ensures states[k].read <= states[m].read && |states[k].branches| == |states[m].branches|
    ensures |states[m].sinks| == |states[k].sinks|
    ensures forall i :: 0 <= i < |states[k].sinks| && states[k].sinks[i].clean ==> states[m].sinks[i].clean
  {
    if k < m {
      ReadGrows(states, actions, k, m - 1);
      assert states[m] == Apply(states[m - 1], actions[m - 1]);
    }
  }

  /** At every moment of every run each attached branch is a lossless FIFO of what the primary read,
      holding no more than the larger of its capacity and the largest chunk queued. */
  lemma BranchIsFifo(states: seq<State>, actions: seq<Action>, k: nat, i: nat, largest: nat)
    requires Run(states, actions) && k < |states| && i < |states[k].branches|
    requires forall j :: 0 <= j < |states[k].branches[i].chunks| ==> |states[k].branches[i].chunks[j]| <= largest
    ensures var s := states[k];
      && |s.sinks| == |s.branches| && s.sinks[i].consumed <= s.read
      && (!s.branches[i].detached && !s.phase.Aborting? ==>
            s.sinks[i].consumed + Flatten(s.branches[i].chunks) == Offered(s, i))
      && s.branches[i].buffered == |Flatten(s.branches[i].chunks)| <= Max(s.branches[i].capacity, largest)
  {
    hide Run, EndsOnce, Flatten;
    RunKeepsInv(states, actions, k);
    BufferedBound(states[k].branches[i], largest);
    assert LosslessAt(states[k], i);
  }

  /** A mirror that saw the end of its branch has every byte the primary has read, then and at
      every later moment of the run: nothing is read after an end was announced. */
  lemma CleanEndIsComplete(states: seq<State>, actions: seq<Action>, k: nat, m: nat, i: nat)
    requires Run(states, actions) && k <= m < |states| && i < |states[k].sinks| && states[k].sinks[i].clean
    ensures |states[m].sinks| == |states[k].sinks|
    ensures states[k].sinks[i].consumed == states[k].read == states[m].read == states[m].sinks[i].consumed
  {
    RunKeepsInv(states, actions, k);
    RunKeepsInv(states, actions, m);
    ReadGrows(states, actions, k, m);
    CleanKeeps(states, actions, k, m, i);
  }

  lemma CleanStep(s: State, a: Action, i: nat)
    requires Inv(s) && Enabled(s, a) && i < |s.sinks| && s.sinks[i].clean
    ensures Apply(s, a).read == s.read
  {
    hide Lossless, Branch.Sound;
  }

  lemma {:induction false} CleanKeeps(states: seq<State>, actions: seq<Action>, k: nat, m: nat, i: nat)
    requires Run(states, actions) && k <= m < |states| && i < |states[k].sinks| && states[k].sinks[i].clean
    ensures |states[m].sinks| == |states[k].sinks| && states[m].read == states[k].read
  {
    hide Inv, Init, Enabled, Apply;
    if k < m {
      CleanKeeps(states, actions, k, m - 1, i);
      ReadGrows(states, actions, k, m - 1);
      ReadGrows(states, actions, k, m);
      RunKeepsInv(states, actions, m - 1);
      CleanStep(states[m - 1], actions[m - 1], i);
    }
  }

  // -- nobody is left out -----------------------------------------------------------------------------

  /** A mirror is cut off only by itself, when its own upload is over, or by an abort; and once all bytes have
      been read and handed on, every branch has been told so. */
  ghost predicate Serving(s: State)
    requires |s.sinks| == |s.branches|
  {
    && (forall i :: 0 <= i < |s.branches| && s.branches[i].detached ==>
          s.sinks[i].status == Done || (s.phase.Aborting? && i < s.phase.i))
    && (s.phase == Idle && |s.read| >= s.total && s.read != [] ==>
          forall i :: 0 <= i < |s.branches| ==> s.branches[i].eof)
    && (s.phase.Finishing? ==> forall i :: 0 <= i < s.phase.i && i < |s.branches| ==> s.branches[i].eof)
    && (s.phase.Collecting? ==> forall i :: 0 <= i < s.phase.i && i < |s.branches| ==> s.branches[i].eof)
  }

  lemma StepServes(s: State, a: Action)
    requires Inv(s) && Serving(s) && Enabled(s, a) && Shape(Apply(s, a))
    ensures Serving(Apply(s, a))
  {
    hide Lossless, EndsOnce, Branch.Sound, Flatten;
  }

  lemma {:induction false} RunServes(states: seq<State>, actions: seq<Action>, k: nat)
    requires Run(states, actions) && k < |states|
    ensures Inv(states[k]) && Serving(states[k])
  {
    hide Inv, Serving, Init, Enabled, Apply;
    RunKeepsInv(states, actions, k);
    if k == 0 {
      ServesAtFirst(states[0]);
    } else {
      RunServes(states, actions, k - 1);
      StepShape(states[k - 1], actions[k - 1]);
      StepServes(states[k - 1], actions[k - 1]);
    }
  }

  lemma ServesAtFirst(s: State)
    requires Init(s)
    ensures |s.sinks| == |s.branches| && Serving(s)
  {
  }

  /** In every run a mirror whose upload still runs gets everything unless the upload is aborted: its branch is
      attached, it is told the end once all bytes have been read or collecting has passed it, and from
      then on it can move until it ends, with every byte the primary has read. */
  lemma RunningMirrorIsServed(states: seq<State>, actions: seq<Action>, k: nat, i: nat)
    requires Run(states, actions) && k < |states| && i < |states[k].sinks|
    requires states[k].sinks[i].status == Running && !states[k].phase.Aborting?
    ensures var s := states[k];
      && i < |s.branches| && !s.branches[i].detached
      && ((s.phase == Idle && |s.read| >= s.total && s.read != []) || (s.phase.Collecting? && i < s.phase.i) ==>
            s.branches[i].eof)
      && (s.branches[i].eof ==>
            || Enabled(s, Next(i))
            || (&& Enabled(s, AtEnd(i)) && s.sinks[i].consumed == s.read
                && Apply(s, AtEnd(i)).sinks[i] == Sink(s.read, Ended, true)))
  {
    RunServes(states, actions, k);
    var s := states[k];
    assert LosslessAt(s, i);
    if s.branches[i].chunks != [] {
      SoundHead(s.branches[i]);
    } else {
      FlattenNone<byte>();
      assert s.sinks[i].consumed + [] == s.sinks[i].consumed;
    }
  }

  // -- nobody waits forever ---------------------------------------------------------------------

  /** The producer is inside `feed`, waiting for room. */
  predicate ProducerWaits(s: State) {
    s.phase.Feeding? && s.phase.i < |s.branches| && s.branches[s.phase.i].Full(s.phase.data)
  }

  /** Mirror `i` is inside `stream`, waiting for bytes. */
  predicate ConsumerWaits(s: State, i: nat) {
    i < |s.branches| && i < |s.sinks| && s.sinks[i].status == Running && s.branches[i].Dry()
  }

  /** When the producer waits, it is for a branch whose own mirror can move: take a chunk, or, its
      upload being over, detach the branch. */
  lemma ProducerIsServed(s: State)
    requires Inv(s) && ProducerWaits(s)
    ensures var i := s.phase.i;
      !ConsumerWaits(s, i) && (Enabled(s, Next(i)) || Enabled(s, Detach(i)))
      && !s.branches[i].Detached().Full(s.phase.data)
  {
    var i := s.phase.i;
    if s.branches[i].chunks != [] {
      SoundHead(s.branches[i]);
    }
  }

  /** When a mirror waits, the task of the primary can move: nothing else can hold it up than the
      primary itself, or a branch whose mirror can move. */
  lemma ConsumerIsServed(s: State, i: nat)
    requires Inv(s) && ConsumerWaits(s, i) && !ProducerWaits(s)
    ensures Enabled(s, StartCollect) || Enabled(s, Feed) || Enabled(s, Finish)
         || Enabled(s, CollectOne) || Enabled(s, AbortOne)
  {
  }

  /** No reachable state has the producer and every live mirror waiting at once. */
  lemma NoDeadlock(states: seq<State>, actions: seq<Action>, k: nat)
    requires Run(states, actions) && k < |states|
    ensures !(ProducerWaits(states[k])
              && forall i :: 0 <= i < |states[k].sinks| && states[k].sinks[i].status != Done ==>
                   ConsumerWaits(states[k], i))
  {
    RunKeepsInv(states, actions, k);
    var s := states[k];
    if ProducerWaits(s) {
      ProducerIsServed(s);
      assert !ConsumerWaits(s, s.phase.i);
    }
  }

  // -- every upload ends ----------------------------------------------------------------------------------

  function Queued(s: State): seq<nat> {
    seq(|s.branches|, i requires 0 <= i < |s.branches| => |s.branches[i].chunks|)
  }

  function Remaining(k: Sink): nat { if k.status == Running then 2 else if k.status == Ended then 1 else 0 }

  function Mirrors(s: State): seq<nat> {
    seq(|s.sinks|, i requires 0 <= i < |s.sinks| => Remaining(s.sinks[i]))
  }

  /** The steps of the producer that are still to come with what has been read. */
  function Ahead(s: State): int {
    var n := |s.branches|;
    match s.phase
    case Idle => (if |s.read| < s.total then n else 0) + n + 1
    case Feeding(_, i) => 2 * (n - i) + n + n + 1
    case Finishing(i) => n - i + n + 1
    case Collecting(i) => n - i
    case Aborting(i) => n - i
  }

  /** The steps an upload can still take: every byte unread may come as a chunk of its own, to be fed to every
      branch and taken off it. */
  function StepsLeft(s: State): int {
    (s.total - |s.read|) * (2 * |s.branches| + 1) + Ahead(s) + Sum(Queued(s)) + Sum(Mirrors(s))
  }

  lemma QueuedAt(s: State, t: State, i: nat)
    requires i < |s.branches| == |t.branches| && t.branches == s.branches[i := t.branches[i]]
    ensures Sum(Queued(t)) == Sum(Queued(s)) - |s.branches[i].chunks| + |t.branches[i].chunks|
  {
    assert Queued(t) == Queued(s)[i := |t.branches[i].chunks|];
    SumAt(Queued(s), i, |t.branches[i].chunks|);
  }

  lemma MirrorsAt(s: State, t: State, i: nat)
    requires i < |s.sinks| == |t.sinks| && t.sinks == s.sinks[i := t.sinks[i]]
    ensures Sum(Mirrors(t)) == Sum(Mirrors(s)) - Remaining(s.sinks[i]) + Remaining(t.sinks[i])
  {
    assert Mirrors(t) == Mirrors(s)[i := Remaining(t.sinks[i])];
    SumAt(Mirrors(s), i, Remaining(t.sinks[i]));
  }

  lemma UnreadBytes(left: nat, m: nat, k: nat)
    requires 0 < k <= left
    ensures (left - k) * m + m <= left * m
  {
    assert left * m == (left - k) * m + k * m;
  }

  /** Every step but a read that returns nothing uses one of them up. */
  lemma StepCosts(s: State, a: Action)
    requires Inv(s) && Enabled(s, a) && (a.Read? ==> a.data != [])
    ensures StepsLeft(Apply(s, a)) < StepsLeft(s)
  {
    hide Sum, Queued, Mirrors, Lossless, EndsOnce, Flatten, Branch.Sound;
    var t := Apply(s, a);
    match a
    case Read(data) =>
      UnreadBytes(s.total - |s.read|, 2 * |s.branches| + 1, |data|);
      SameCounts(s, t);
    case Feed => QueuedAt(s, t, s.phase.i); SameSinks(s, t);
    case Finish => QueuedAt(s, t, s.phase.i); SameSinks(s, t);
    case StartCollect => SameCounts(s, t);
    case CollectOne => QueuedAt(s, t, s.phase.i); SameSinks(s, t);
    case StartAbort => SameCounts(s, t);
    case AbortOne => QueuedAt(s, t, s.phase.i); SameSinks(s, t);
    case Next(i) => QueuedAt(s, t, i); MirrorsAt(s, t, i);
    case AtEnd(i) => SameQueues(s, t); MirrorsAt(s, t, i);
    case Stop(i) => SameQueues(s, t); MirrorsAt(s, t, i);
    case Detach(i) => QueuedAt(s, t, i); MirrorsAt(s, t, i);
  }

  lemma SameQueues(s: State, t: State)
    requires s.branches == t.branches
    ensures Queued(s) == Queued(t)
  {
  }

  lemma SameSinks(s: State, t: State)
    requires s.sinks == t.sinks
    ensures Mirrors(s) == Mirrors(t)
  {
  }

  lemma SameCounts(s: State, t: State)
    requires s.branches == t.branches && s.sinks == t.sinks
    ensures Queued(s) == Queued(t) && Mirrors(s) == Mirrors(t)
  {
  }

  /** The steps of a run that are not reads of nothing. */
  function Moves(actions: seq<Action>, k: nat): nat
    requires k <= |actions|
  {
    if k == 0 then 0 else Moves(actions, k - 1) + if actions[k - 1] == Read([]) then 0 else 1
  }

  /** Every upload comes to its end: the producer gets through its branches, `collect` and `abort` through theirs,
      and every mirror to its own end, within a number of steps the size and the mirrors give. */
  lemma {:induction false} RunsAreBounded(states: seq<State>, actions: seq<Action>, k: nat)
    requires Run(states, actions) && k < |states|
    ensures var n := |states[0].branches|;
      Moves(actions, k) + StepsLeft(states[k]) <= states[0].total * (2 * n + 1) + n + n + 1 + 2 * n
    ensures StepsLeft(states[k]) >= 0
  {
    hide Sum, Queued, Mirrors, Enabled, Apply;
    RunKeepsInv(states, actions, k);
    NotNegative(states[k]);
    if k == 0 {
      FirstSteps(states[0]);
    } else {
      RunsAreBounded(states, actions, k - 1);
      RunKeepsInv(states, actions, k - 1);
      if actions[k - 1] == Read([]) {
        ReadsNothing(states[k - 1]);
      } else {
        StepCosts(states[k - 1], actions[k - 1]);
      }
    }
  }

  lemma ReadsNothing(s: State)
    requires Enabled(s, Read([]))
    ensures Apply(s, Read([])) == s
  {
  }

  lemma NotNegative(s: State)
    requires Inv(s)
    ensures StepsLeft(s) >= 0
  {
    hide Sum, Queued, Mirrors, Lossless, EndsOnce, Branch.Sound;
  }

  lemma FirstSteps(s: State)
    requires Init(s)
    ensures StepsLeft(s) <= s.total * (2 * |s.branches| + 1) + |s.branches| + |s.branches| + 1 + 2 * |s.branches|
  {
    hide Sum;
    SumOf(Queued(s), 0, |s.branches|);
    SumOf(Mirrors(s), 2, |s.sinks|);
  }

  lemma {:induction false} SumOf(ns: seq<nat>, each: nat, n: nat)
    requires n == |ns| && forall i :: 0 <= i < |ns| ==> ns[i] == each
    ensures Sum(ns) == n * each
    decreases n
  {
    if n > 0 {
      SumOf(ns[..n - 1], each, n - 1);
      assert n * each == (n - 1) * each + each;
    }
  }
}
