/** What a failed read of the source does to the parts read after it: they are saved right, for every
    source, if and only if the failed read left the source where the next part begins. */
module UploaderFailures {
  import opened Arith
  import opened Bytes
  import opened Tiling
  import opened Uploader

  // -- the same schedule over another source of the same length -------------------------------------

  predicate SameWork(a: Work, b: Work) {
    match a
    case Saving(part, _, attempt) => b.Saving? && b.part == part && b.attempt == attempt
    case _ => a == b
  }

  /** Two states that differ in the bytes only. */
  predicate SameShape(s: State, t: State) {
    && s.next == t.next && s.lock == t.lock && s.readSize == t.readSize && s.pos == t.pos
    && s.readFailed == t.readFailed && s.outcome == t.outcome
    && |s.workers| == |t.workers| && (forall w :: 0 <= w < |s.workers| ==> SameWork(s.workers[w], t.workers[w]))
    && |s.saved| == |t.saved| && (forall i :: 0 <= i < |s.saved| ==> s.saved[i].part == t.saved[i].part)
  }

  predicate SameSize(job: Job, other: Job) {
    |job.source| == |other.source| && job.chunk == other.chunk
  }

  lemma ShapeStep(job: Job, other: Job, s: State, t: State, a: Action)
    requires job.Valid() && SameSize(job, other) && SameShape(s, t) && Enabled(job, s, a)
    ensures Enabled(other, t, a) && SameShape(Apply(job, s, a), Apply(other, t, a))
  {
    hide Enabled, Apply, SameShape;
    ShapeEnabled(job, other, s, t, a);
    ShapeApplied(job, other, s, t, a);
  }

  lemma ShapeEnabled(job: Job, other: Job, s: State, t: State, a: Action)
    requires job.Valid() && SameSize(job, other) && SameShape(s, t) && Enabled(job, s, a)
    ensures Enabled(other, t, a)
  {
    if a.Raise? {
      var w :| 0 <= w < |s.workers| && s.workers[w].Dead?;
      assert t.workers[w].Dead?;
    }
  }

  lemma ShapeApplied(job: Job, other: Job, s: State, t: State, a: Action)
    requires job.Valid() && SameSize(job, other) && SameShape(s, t) && Enabled(job, s, a) && Enabled(other, t, a)
    ensures SameShape(Apply(job, s, a), Apply(other, t, a))
  {
  }

  lemma ShapeLeaves(job: Job, other: Job, s: State, t: State, a: Action)
    requires SameSize(job, other) && SameShape(s, t)
    ensures LeavesNext(job, s, a) <==> LeavesNext(other, t, a)
  {
  }

  /** Any two runs of one schedule agree but for the bytes. */
  lemma {:induction false} RunsAgree(job: Job, states: seq<State>, actions: seq<Action>,
                                     other: Job, more: seq<State>, steps: seq<Action>, k: nat)
    requires job.Valid() && SameSize(job, other) && Run(job, states, actions) && Run(other, more, steps)
    requires |actions| <= |steps| && steps[..|actions|] == actions && |states[0].workers| == |more[0].workers|
    requires k <= |actions|
    ensures SameShape(states[k], more[k])
  {
    if k > 0 {
      hide Enabled, Apply, SameShape, Init;
      RunsAgree(job, states, actions, other, more, steps, k - 1);
      assert steps[k - 1] == steps[..|actions|][k - 1] == actions[k - 1];
      ShapeStep(job, other, states[k - 1], more[k - 1], actions[k - 1]);
    }
  }

  lemma RunAppend(job: Job, states: seq<State>, actions: seq<Action>, a: Action)
    returns (more: seq<State>, steps: seq<Action>)
    requires job.Valid() && Run(job, states, actions) && |states| == |actions| + 1 && Enabled(job, states[|actions|], a)
    ensures Run(job, more, steps) && |more| == |steps| + 1 && steps == actions + [a]
              && more == states + [Apply(job, states[|actions|], a)]
  {
    hide Enabled, Apply, Init;
    more, steps := states + [Apply(job, states[|actions|], a)], actions + [a];
  }

  /** The schedule can be followed over the other source. */
  lemma {:induction false} Replay(job: Job, states: seq<State>, actions: seq<Action>, other: Job, k: nat)
    returns (more: seq<State>)
    requires job.Valid() && SameSize(job, other) && Run(job, states, actions) && k <= |actions|
    ensures Run(other, more, actions[..k]) && more[0].workers == states[0].workers && SameShape(states[k], more[k])
  {
    hide Enabled, Apply, SameShape;
    if k == 0 {
      more := [states[0]];
      assert SameShape(states[0], states[0]) by {
        ShapeSelf(states[0]);
      }
    } else {
      var before := Replay(job, states, actions, other, k - 1);
      ShapeStep(job, other, states[k - 1], before[k - 1], actions[k - 1]);
      var steps;
      more, steps := RunAppend(other, before, actions[..k - 1], actions[k - 1]);
      assert actions[..k] == actions[..k - 1] + [actions[k - 1]];
    }
  }

  lemma ShapeSelf(s: State)
    ensures SameShape(s, s)
  {
  }

  // -- a wrong part -----------------------------------------------------------------------------------

  ghost predicate AllRight(job: Job, s: State) {
    forall i :: 0 <= i < |s.saved| ==> s.saved[i].content == Part(job.source, job.chunk, s.saved[i].part)
  }

  /** An index is left to read, and a worker to read it. */
  ghost predicate MoreToRead(job: Job, s: State)
    requires job.Valid()
  {
    && |s.lock| <= s.next && s.next - |s.lock| < job.Total() && s.outcome == Uploading
    && exists w :: 0 <= w < |s.workers| && !s.workers[w].Left? && !s.workers[w].Dead?
  }

  /** Some worker gets the lock with the next part to be read; the source is not touched. */
  lemma BringToLock(job: Job, states: seq<State>, actions: seq<Action>)
    returns (more: seq<State>, steps: seq<Action>, w: nat)
    requires job.Valid() && Run(job, states, actions) && Ordered(job, states[|actions|])
              && MoreToRead(job, states[|actions|])
    ensures Run(job, more, steps) && |steps| >= |actions| && steps[..|actions|] == actions && more[0] == states[0]
    ensures forall j :: |actions| <= j < |steps| ==> !steps[j].ReadFails?
    ensures Ordered(job, more[|steps|]) && HoldsLock(more[|steps|], w) && more[|steps|].outcome == Uploading
    ensures var s, t := states[|actions|], more[|steps|];
      t.pos == s.pos && t.next - |t.lock| == s.next - |s.lock|
  {
    var s := states[|actions|];
    if |s.lock| > 0 {
      more, steps, w := states, actions, s.lock[0];
    } else {
      var v :| 0 <= v < |s.workers| && !s.workers[v].Left? && !s.workers[v].Dead?;
      w := v;
      more, steps := states, actions;
      if s.workers[w].Saving? {
        StepOrdered(job, s, SaveEnds(w, true));
        more, steps := RunAppend(job, states, actions, SaveEnds(w, true));
      }
      var t := more[|steps|];
      StepOrdered(job, t, Take(w));
      more, steps := RunAppend(job, more, steps, Take(w));
    }
  }

  lemma FirstOfPart(s: bytes, size: nat, i: nat)
    ensures |Part(s, size, i)| > 0 ==>
              Start(|s|, size, i) < |s| && Part(s, size, i)[0] == s[Start(|s|, size, i)]
  {
    hide Start;
    StartMono(|s|, size, i);
  }

  /** A source with one mark: a part that begins at the mark is not what a read from elsewhere gives. */
  lemma MarkedRead(job: Job, s: State, w: nat)
    requires job.Valid() && Ordered(job, s) && HoldsLock(s, w) && s.outcome == Uploading && !Standing(job, s)
    requires var at := Start(|job.source|, job.chunk, s.next - |s.lock|);
      at < |job.source| && forall x :: 0 <= x < |job.source| ==> (job.source[x] == 1 <==> x == at)
    ensures Enabled(job, s, Read(w))
    ensures Apply(job, s, Read(w)).workers[w].content != Part(job.source, job.chunk, s.workers[w].part)
  {
    LockPassed(job, s, w);
    PartBegins(job, s);
    var q := s.next - |s.lock|;
    PartLength(job.source, job.chunk, q);
    FirstOfPart(job.source, job.chunk, q);
    var n := ReadLength(job, s);
    var content := Range(job.source, s.pos, s.pos + n - 1);
    assert content != [] ==> content[0] == job.source[s.pos];
  }

  /** Wherever else the source stands, another source of its length has a part saved wrong. */
  lemma MisplacedLater(job: Job, states: seq<State>, actions: seq<Action>)
    returns (other: Job, more: seq<State>, steps: seq<Action>)
    requires job.Valid() && Run(job, states, actions) && MoreToRead(job, states[|actions|])
    requires !Standing(job, states[|actions|])
    ensures SameSize(job, other) && Run(other, more, steps) && |actions| <= |steps| && steps[..|actions|] == actions
    ensures |more[0].workers| == |states[0].workers|
    ensures forall j :: |actions| <= j < |steps| ==> !steps[j].ReadFails?
    ensures !AllRight(other, more[|steps|])
  {
    hide Part, Start;
    var s := states[|actions|];
    var at := Start(|job.source|, job.chunk, s.next - |s.lock|);
    other := Job(seq(|job.source|, x => if x == at then 1 else 0), job.chunk);
    assert actions[..|actions|] == actions;
    more := Replay(job, states, actions, other, |actions|);
    RunKeepsInv(other, more, actions, |actions|);
    ShapeMore(job, other, s, more[|actions|]);
    var w;
    more, steps, w := BringToLock(other, more, actions);
    var t := more[|steps|];
    assert at < |other.source| by {
      Begins(other, t, w);
    }
    MarkedRead(other, t, w);
    LockPassed(other, t, w);
    more, steps := RunAppend(other, more, steps, Read(w));
    more, steps := RunAppend(other, more, steps, SaveEnds(w, true));
    var u := more[|steps|];
    assert u.saved[|u.saved| - 1].content != Part(other.source, other.chunk, u.saved[|u.saved| - 1].part);
  }

  lemma Begins(job: Job, s: State, w: nat)
    requires job.Valid() && Ordered(job, s) && HoldsLock(s, w)
    ensures Start(|job.source|, job.chunk, s.next - |s.lock|) < |job.source|
  {
    PartBegins(job, s);
  }

  lemma ShapeMore(job: Job, other: Job, s: State, t: State)
    requires job.Valid() && SameSize(job, other) && SameShape(s, t) && MoreToRead(job, s)
    ensures MoreToRead(other, t) && (Standing(job, s) <==> Standing(other, t))
  {
    var w :| 0 <= w < |s.workers| && !s.workers[w].Left? && !s.workers[w].Dead?;
    assert !t.workers[w].Left? && !t.workers[w].Dead?;
  }

  // -- the exact condition ----------------------------------------------------------------------------

  /** A run that begins with the given schedule, over any source of that length, in which later failed
      reads leave the source in place. */
  ghost predicate Extends(job: Job, states: seq<State>, actions: seq<Action>, other: Job, more: seq<State>,
                          steps: seq<Action>)
    requires job.Valid() && |states| > 0
  {
    && SameSize(job, other) && Run(other, more, steps)
    && |actions| <= |steps| && steps[..|actions|] == actions && |more[0].workers| == |states[0].workers|
    && forall j :: |actions| <= j < |steps| ==> LeavesNext(other, more[j], steps[j])
  }

  /** A failed read is harmless if and only if it left the source where the next part begins: then,
      over every source of that length and however the upload goes on, every part saved is right;
      otherwise, with an index left and a worker to read it, for some source one is not. */
  lemma FailedReadSafeIff(job: Job, states: seq<State>, actions: seq<Action>)
    requires job.Valid() && Run(job, states, actions) && |actions| > 0 && actions[|actions| - 1].ReadFails?
    requires forall j :: 0 <= j < |actions| - 1 ==> LeavesNext(job, states[j], actions[j])
    requires MoreToRead(job, states[|actions|])
    ensures LeavesNext(job, states[|actions| - 1], actions[|actions| - 1])
       <==> forall other, more, steps :: Extends(job, states, actions, other, more, steps) ==>
           AllRight(other, more[|steps|])
  {
    hide Part, Start, Enabled, Apply, Init, SameShape, LeavesNext, MoreToRead, AllRight;
    var n := |actions|;
    if LeavesNext(job, states[n - 1], actions[n - 1]) {
      forall other, more, steps | Extends(job, states, actions, other, more, steps)
        ensures AllRight(other, more[|steps|])
      {
        SafeOver(job, states, actions, other, more, steps);
      }
    } else {
      LastReadStrays(job, states, actions);
      var other, more, steps := MisplacedLater(job, states, actions);
      forall j | n <= j < |steps|
        ensures LeavesNext(other, more[j], steps[j])
      {
        OtherStep(other, more[j], steps[j]);
      }
      assert Extends(job, states, actions, other, more, steps);
    }
  }

  lemma OtherStep(job: Job, s: State, a: Action)
    requires !a.ReadFails?
    ensures LeavesNext(job, s, a)
  {
  }

  lemma LastReadStrays(job: Job, states: seq<State>, actions: seq<Action>)
    requires job.Valid() && Run(job, states, actions) && |actions| > 0 && actions[|actions| - 1].ReadFails?
    requires !LeavesNext(job, states[|actions| - 1], actions[|actions| - 1]) && MoreToRead(job, states[|actions|])
    ensures !Standing(job, states[|actions|])
  {
    var n := |actions| - 1;
    RunKeepsInv(job, states, actions, n);
    assert states[n + 1] == Apply(job, states[n], actions[n]);
    FailedReadIff(job, states[n], actions[n].w, actions[n].pos);
  }

  lemma SafeOver(job: Job, states: seq<State>, actions: seq<Action>, other: Job, more: seq<State>, steps: seq<Action>)
    requires job.Valid() && Run(job, states, actions) && Extends(job, states, actions, other, more, steps)
    requires forall j :: 0 <= j < |actions| ==> LeavesNext(job, states[j], actions[j])
    ensures AllRight(other, more[|steps|])
  {
    hide Part, Start, Enabled, Apply, Init, SameShape, LeavesNext;
    forall j | 0 <= j < |steps|
      ensures LeavesNext(other, more[j], steps[j])
    {
      if j < |actions| {
        RunsAgree(job, states, actions, other, more, steps, j);
        ShapeLeaves(job, other, states[j], more[j], actions[j]);
        assert steps[j] == steps[..|actions|][j];
      }
    }
    RunKeepsRight(other, more, steps, |steps|);
  }

  /** The smallest case: two one-byte parts, two workers. The read for part 0 fails, and before the
      failure reaches `upload` the other worker reads, and saves, byte 0 as part 1. */
  lemma FailedReadMisplaces() returns (job: Job, states: seq<State>, actions: seq<Action>)
    ensures job.Valid() && Run(job, states, actions)
    ensures var s := states[|actions|];
      |s.saved| == 1 && s.saved[0].part == 1 && s.saved[0].content != Part(job.source, job.chunk, 1)
  {
    hide Run, Part;
    job := Job([7, 8], 1);
    assert job.Total() == 2 by {
      CeilDivIs(2, 1, 2);
    }
    states, actions := [State(0, [], [Idle, Idle], 0, 0, false, [], Uploading)], [];
    assert Run(job, states, actions) by {
      RunNone(job, states[0]);
    }
    states, actions := RunAppend(job, states, actions, Take(0));
    states, actions := RunAppend(job, states, actions, Take(1));
    states, actions := RunAppend(job, states, actions, ReadFails(0, 0));
    assert states[3] == State(2, [1], [Dead(0), AtLock(1)], 0, 0, true, [], Uploading);
    states, actions := RunAppend(job, states, actions, Read(1));
    assert states[4].workers[1] == Saving(1, [7], 1);
    states, actions := RunAppend(job, states, actions, SaveEnds(1, true));
    assert Part(job.source, 1, 1) == [8] by {
      SecondByte();
    }
  }

  lemma RunNone(job: Job, s: State)
    requires job.Valid() && Init(job, s)
    ensures Run(job, [s], [])
  {
  }

  lemma SecondByte()
    ensures Part<byte>([7, 8], 1, 1) == [8]
  {
    assert Mul(1, 1) == 1 && Mul(2, 1) == 2;
  }
}
