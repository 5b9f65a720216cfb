/** The Telegram part uploader (`backends/telegram/uploader.py`): workers take part indexes from a
    queue and read the source one at a time under a lock that serves its waiters in order. */
module Uploader {
  import opened Arith
  import opened Bytes
  import opened Tiling

  const MAX_PART_ATTEMPTS := 5

  /** A worker is about to ask for a part, is at the lock with one, is saving it, has left, or died
      with one of the two errors a part can end in. */
  datatype Work =
    | Idle
    | AtLock(part: nat)
    | Saving(part: nat, content: bytes, attempt: nat)
    | Left(cancelled: bool)
    | Dead(part: nat)

  datatype Saved = Saved(part: nat, content: bytes)

  datatype Outcome = Uploading | Returned | Raised

  /** `next` is the head of the index queue, `lock` the workers at the lock, its holder first;
      `pos` is how far the source has been read and `readSize` how far the uploader thinks so. */
  datatype State = State(
    next: nat,
    lock: seq<nat>,
    workers: seq<Work>,
    readSize: nat,
    pos: nat,
    readFailed: bool,
    saved: seq<Saved>,
    outcome: Outcome)

  /** The source message and the part size. */
  datatype Job = Job(source: bytes, chunk: nat)
  {
    predicate Valid() { chunk > 0 }

    function Total(): nat
      requires Valid()
    {
      Count(|source|, chunk)
    }
  }

  predicate Init(job: Job, s: State) {
    && s.next == 0 && s.lock == [] && s.readSize == 0 && s.pos == 0 && !s.readFailed
    && s.saved == [] && s.outcome == Uploading
    && forall w :: 0 <= w < |s.workers| ==> s.workers[w] == Idle
  }

  datatype Action =
    | Cancelled(w: nat)
    | QueueEmpty(w: nat)
    | Take(w: nat)
    | Read(w: nat)
    | ReadFails(w: nat, pos: nat)
    | NothingToRead(w: nat)
    | SaveEnds(w: nat, ok: bool)
    | Return
    | Raise

  predicate Enabled(job: Job, s: State, a: Action)
    requires job.Valid()
  {
    && s.outcome == Uploading
    && match a
       case Cancelled(w) => w < |s.workers| && s.workers[w].Idle?
       case QueueEmpty(w) => w < |s.workers| && s.workers[w].Idle? && s.next >= job.Total()
       case Take(w) => w < |s.workers| && s.workers[w].Idle? && s.next < job.Total()
       case Read(w) => HoldsLock(s, w) && s.readSize < |job.source|
       case ReadFails(w, pos) => HoldsLock(s, w) && s.readSize < |job.source| && s.pos <= pos <= |job.source|
       case NothingToRead(w) => HoldsLock(s, w) && s.readSize >= |job.source|
       case SaveEnds(w, ok) => w < |s.workers| && s.workers[w].Saving?
       case Return => forall w :: 0 <= w < |s.workers| ==> s.workers[w].Left?
       case Raise => exists w :: 0 <= w < |s.workers| && s.workers[w].Dead?
  }

  predicate HoldsLock(s: State, w: nat) {
    w < |s.workers| && s.workers[w].AtLock? && s.lock != [] && s.lock[0] == w
  }

  function ReadLength(job: Job, s: State): nat
    requires s.readSize < |job.source|
  {
    if |job.source| - s.readSize <= job.chunk then |job.source| - s.readSize else job.chunk
  }

  function Apply(job: Job, s: State, a: Action): State
    requires job.Valid() && Enabled(job, s, a)
  {
    match a
    case Cancelled(w) => s.(workers := s.workers[w := Left(true)])
    case QueueEmpty(w) => s.(workers := s.workers[w := Left(false)])
    case Take(w) =>
      s.(workers := s.workers[w := AtLock(s.next)], next := s.next + 1, lock := s.lock + [w])
    case Read(w) =>
      var n := ReadLength(job, s);
      var content := Range(job.source, s.pos, s.pos + n - 1);
      s.(workers := s.workers[w := Saving(s.workers[w].part, content, 1)], lock := s.lock[1..],
         readSize := s.readSize + n, pos := s.pos + |content|)
    case ReadFails(w, pos) =>
      s.(workers := s.workers[w := Dead(s.workers[w].part)], lock := s.lock[1..], pos := pos, readFailed := true)
    case NothingToRead(w) => s.(workers := s.workers[w := Idle], lock := s.lock[1..])
    case SaveEnds(w, ok) =>
      var work := s.workers[w];
      if ok then s.(workers := s.workers[w := Idle], saved := s.saved + [Saved(work.part, work.content)])
      else if work.attempt >= MAX_PART_ATTEMPTS then s.(workers := s.workers[w := Dead(work.part)])
      else s.(workers := s.workers[w := work.(attempt := work.attempt + 1)])
    case Return => s.(outcome := Returned)
    case Raise => s.(outcome := Raised)
  }

  // -- the invariant ------------------------------------------------------------------------------

  predicate Holds(s: State, w: int, part: int)
    requires 0 <= w < |s.workers|
  {
    match s.workers[w]
    case AtLock(p) => p == part
    case Saving(p, _, _) => p == part
    case Dead(p) => p == part
    case _ => false
  }

  /** The workers at the lock, in its order, hold consecutive indexes up to the queue's head: the
      order of the lock is the order of the parts. */
  predicate Ordered(job: Job, s: State)
    requires job.Valid()
  {
    && |s.lock| <= s.next <= job.Total()
    && (forall k :: 0 <= k < |s.lock| ==>
          s.lock[k] < |s.workers| && s.workers[s.lock[k]] == AtLock(s.next - |s.lock| + k))
    && (forall w :: 0 <= w < |s.workers| && s.workers[w].AtLock? ==> w in s.lock)
    && s.readSize <= Start(|job.source|, job.chunk, s.next - |s.lock|)
  }

  ghost predicate InSaved(s: State, part: int) { exists i :: 0 <= i < |s.saved| && s.saved[i].part == part }

  /** Every index handed out is saved or with one worker, never both, never twice. */
  ghost predicate Accounted(s: State) {
    && (forall part :: 0 <= part < s.next ==>
          InSaved(s, part) || exists w :: 0 <= w < |s.workers| && Holds(s, w, part))
    && (forall i :: 0 <= i < |s.saved| ==> s.saved[i].part < s.next)
    && (forall i, j :: 0 <= i < j < |s.saved| ==> s.saved[i].part != s.saved[j].part)
    && (forall w, part :: 0 <= w < |s.workers| && Holds(s, w, part) ==> part < s.next && !InSaved(s, part))
    && (forall w, x, part ::
          0 <= w < |s.workers| && 0 <= x < |s.workers| && Holds(s, w, part) && Holds(s, x, part) ==> w == x)
  }

  /** The source stands where the next part to be read begins. */
  predicate Standing(job: Job, s: State)
    requires |s.lock| <= s.next
  {
    s.pos == Start(|job.source|, job.chunk, s.next - |s.lock|)
  }

  /** It does, and what is being saved, or is saved, under an index is that part. */
  ghost predicate Right(job: Job, s: State)
    requires job.Valid() && Ordered(job, s)
  {
    && Standing(job, s)
    && (forall w :: 0 <= w < |s.workers| && s.workers[w].Saving? ==>
          s.workers[w].content == Part(job.source, job.chunk, s.workers[w].part))
    && (forall i :: 0 <= i < |s.saved| ==> s.saved[i].content == Part(job.source, job.chunk, s.saved[i].part))
  }

  ghost predicate Inv(job: Job, s: State)
    requires job.Valid()
  {
    Ordered(job, s) && Accounted(s) && (s.readFailed ==> exists w :: 0 <= w < |s.workers| && s.workers[w].Dead?)
  }

  lemma InitInv(job: Job, s: State)
    requires job.Valid() && Init(job, s)
    ensures Inv(job, s) && Right(job, s)
  {
  }

  /** The holder of the lock has a part that begins inside the source. */
  lemma PartBegins(job: Job, s: State)
    requires job.Valid() && Ordered(job, s) && s.lock != []
    ensures Mul(s.next - |s.lock|, job.chunk) < |job.source|
    ensures s.readSize < |job.source|
  {
    CeilDivBounds(|job.source|, job.chunk);
    MulMono(s.next - |s.lock|, job.Total() - 1, job.chunk);
  }

  /** The `_done_reading` exit is dead code: a worker that got the lock always has bytes to read. */
  lemma NeverNothingToRead(job: Job, s: State, w: nat)
    requires job.Valid() && Ordered(job, s)
    ensures !Enabled(job, s, NothingToRead(w))
  {
    if s.lock != [] {
      PartBegins(job, s);
    }
  }

  lemma StepOrdered(job: Job, s: State, a: Action)
    requires job.Valid() && Ordered(job, s) && Enabled(job, s, a)
    ensures Ordered(job, Apply(job, s, a))
  {
    hide Start, Mul, Job.Total;
    match a
    case Take(w) => TakeOrdered(job, s, w);
    case Read(w) => ReadOrdered(job, s, w);
    case ReadFails(w, pos) => FailOrdered(job, s, w, pos);
    case NothingToRead(w) => NeverNothingToRead(job, s, w);
    case _ => OffLockOrdered(job, s, a);
  }

  lemma TakeOrdered(job: Job, s: State, w: nat)
    requires job.Valid() && Ordered(job, s) && Enabled(job, s, Take(w))
    ensures Ordered(job, Apply(job, s, Take(w)))
  {
    hide Start, Mul, Job.Total;
  }

  lemma FailOrdered(job: Job, s: State, w: nat, pos: nat)
    requires job.Valid() && Ordered(job, s) && Enabled(job, s, ReadFails(w, pos))
    ensures Ordered(job, Apply(job, s, ReadFails(w, pos)))
  {
    hide Start, Mul, Job.Total;
    LockPassed(job, s, w);
    StartMono(|job.source|, job.chunk, s.next - |s.lock|);
  }

  /** A step of a worker that is not at the lock. */
  lemma OffLockOrdered(job: Job, s: State, a: Action)
    requires job.Valid() && Ordered(job, s) && Enabled(job, s, a)
    requires a.Cancelled? || a.QueueEmpty? || a.SaveEnds? || a.Return? || a.Raise?
    ensures Ordered(job, Apply(job, s, a))
  {
    hide Start, Mul, Job.Total;
  }

  /** Releasing the lock hands it to the next waiter; the rest keep their order. */
  lemma LockPassed(job: Job, s: State, w: nat)
    requires job.Valid() && Ordered(job, s) && HoldsLock(s, w)
    ensures s.workers[w].part == s.next - |s.lock|
    ensures w !in s.lock[1..]
    ensures forall x :: x in s.lock && x != w ==> x in s.lock[1..]
  {
    assert forall k :: 0 < k < |s.lock| ==> s.workers[s.lock[k]].part != s.workers[w].part;
  }

  lemma ReadOrdered(job: Job, s: State, w: nat)
    requires job.Valid() && Ordered(job, s) && Enabled(job, s, Read(w))
    ensures Ordered(job, Apply(job, s, Read(w)))
  {
    LockPassed(job, s, w);
    PartBegins(job, s);
  }

  lemma AccountedOne(job: Job, s: State, a: Action, part: nat)
    requires job.Valid() && Ordered(job, s) && Accounted(s) && Enabled(job, s, a) && part < s.next
    ensures var t := Apply(job, s, a);
      InSaved(t, part) || exists w :: 0 <= w < |t.workers| && Holds(t, w, part)
  {
    hide Ordered;
    var t := Apply(job, s, a);
    if InSaved(s, part) {
      var i :| 0 <= i < |s.saved| && s.saved[i].part == part;
      assert t.saved[i].part == part;
    } else {
      var w :| 0 <= w < |s.workers| && Holds(s, w, part);
      if a.SaveEnds? && a.ok && a.w == w {
        assert t.saved[|s.saved|].part == part;
      } else if a.NothingToRead? && a.w == w {
        NeverNothingToRead(job, s, w);
      } else {
        assert Holds(t, w, part);
      }
    }
  }

  lemma TakeAccounted(job: Job, s: State, w: nat)
    requires job.Valid() && Accounted(s) && Enabled(job, s, Take(w))
    requires forall part :: 0 <= part < s.next ==>
               var t := Apply(job, s, Take(w));
               InSaved(t, part) || exists x :: 0 <= x < |t.workers| && Holds(t, x, part)
    ensures Accounted(Apply(job, s, Take(w)))
  {
    var t := Apply(job, s, Take(w));
    assert Holds(t, w, s.next);
    forall x, part | 0 <= x < |t.workers| && Holds(t, x, part)
      ensures part < t.next && !InSaved(t, part) && (x != w ==> Holds(s, x, part)) && (x == w ==> part == s.next)
    {
      assert x != w ==> Holds(s, x, part);
      forall i | 0 <= i < |t.saved|
        ensures t.saved[i].part != part
      {
        assert InSaved(s, s.saved[i].part);
      }
    }
  }

  lemma SaveAccounted(job: Job, s: State, w: nat, ok: bool)
    requires job.Valid() && Accounted(s) && Enabled(job, s, SaveEnds(w, ok))
    requires forall part :: 0 <= part < s.next ==>
               var t := Apply(job, s, SaveEnds(w, ok));
               InSaved(t, part) || exists x :: 0 <= x < |t.workers| && Holds(t, x, part)
    ensures Accounted(Apply(job, s, SaveEnds(w, ok)))
  {
    var t := Apply(job, s, SaveEnds(w, ok));
    assert Holds(s, w, s.workers[w].part);
    forall x, part | 0 <= x < |t.workers| && Holds(t, x, part)
      ensures Holds(s, x, part) && !InSaved(t, part)
    {
      assert Holds(s, x, part);
      forall i | 0 <= i < |t.saved|
        ensures t.saved[i].part != part
      {
        assert i < |s.saved| ==> InSaved(s, s.saved[i].part);
      }
    }
    forall i | 0 <= i < |s.saved|
      ensures s.saved[i].part != s.workers[w].part
    {
      assert !InSaved(s, s.workers[w].part);
    }
  }

  lemma StepAccounted(job: Job, s: State, a: Action)
    requires job.Valid() && Ordered(job, s) && Accounted(s) && Enabled(job, s, a)
    ensures Accounted(Apply(job, s, a))
  {
    hide Ordered;
    var t := Apply(job, s, a);
    forall part | 0 <= part < s.next
      ensures InSaved(t, part) || exists w :: 0 <= w < |t.workers| && Holds(t, w, part)
    {
      AccountedOne(job, s, a, part);
    }
    match a
    case Take(w) => TakeAccounted(job, s, w);
    case SaveEnds(w, ok) => SaveAccounted(job, s, w, ok);
    case _ =>
      forall x, part | 0 <= x < |t.workers| && Holds(t, x, part)
        ensures Holds(s, x, part) && !InSaved(t, part)
      {
        assert Holds(s, x, part);
        assert t.saved == s.saved;
        assert !InSaved(s, part);
      }
  }

  /** A read from where a part begins delivers exactly that part to the worker that holds it, even if
      the uploader's own count of what has been read lags behind. */
  lemma ReadIsPart(job: Job, s: State, w: nat)
    requires job.Valid() && Ordered(job, s) && Standing(job, s) && Enabled(job, s, Read(w))
    ensures var t := Apply(job, s, Read(w));
      && t.workers[w].content == Part(job.source, job.chunk, s.workers[w].part)
      && |t.lock| <= t.next && Standing(job, t)
  {
    LockPassed(job, s, w);
    PartBegins(job, s);
  }

  /** A read that fails leaves the source at the beginning of the part after its own. */
  predicate LeavesNext(job: Job, s: State, a: Action) {
    a.ReadFails? && a.w < |s.workers| && s.workers[a.w].AtLock? ==>
      a.pos == Start(|job.source|, job.chunk, s.workers[a.w].part + 1)
  }

  /** After a failed read the source stands right if and only if it left it so. */
  lemma FailedReadIff(job: Job, s: State, w: nat, pos: nat)
    requires job.Valid() && Ordered(job, s) && Enabled(job, s, ReadFails(w, pos))
    ensures var t := Apply(job, s, ReadFails(w, pos));
      |t.lock| <= t.next && (Standing(job, t) <==> LeavesNext(job, s, ReadFails(w, pos)))
  {
    LockPassed(job, s, w);
  }

  lemma StepRight(job: Job, s: State, a: Action)
    requires job.Valid() && Ordered(job, s) && Right(job, s) && Enabled(job, s, a) && LeavesNext(job, s, a)
    requires Ordered(job, Apply(job, s, a))
    ensures Right(job, Apply(job, s, a))
  {
    hide Ordered, Part, Start;
    match a
    case Read(w) => ReadIsPart(job, s, w);
    case ReadFails(w, pos) => FailedReadIff(job, s, w, pos);
    case NothingToRead(w) => NeverNothingToRead(job, s, w);
    case _ =>
  }

  lemma StepMourned(job: Job, s: State, a: Action)
    requires job.Valid() && Inv(job, s) && Enabled(job, s, a)
    ensures Apply(job, s, a).readFailed ==>
              exists w :: 0 <= w < |Apply(job, s, a).workers| && Apply(job, s, a).workers[w].Dead?
  {
    hide Ordered, Accounted;
    var t := Apply(job, s, a);
    if a.ReadFails? {
      assert t.workers[a.w].Dead?;
    } else if s.readFailed {
      var w :| 0 <= w < |s.workers| && s.workers[w].Dead?;
      assert t.workers[w].Dead?;
    }
  }

  lemma StepKeepsInv(job: Job, s: State, a: Action)
    requires job.Valid() && Inv(job, s) && Enabled(job, s, a)
    ensures Inv(job, Apply(job, s, a))
  {
    hide Ordered, Accounted, Enabled, Apply;
    StepOrdered(job, s, a);
    StepAccounted(job, s, a);
    StepMourned(job, s, a);
  }

  // -- every schedule -----------------------------------------------------------------------------

  ghost predicate Run(job: Job, states: seq<State>, actions: seq<Action>)
    requires job.Valid()
  {
    && |states| == |actions| + 1 && Init(job, states[0])
    && forall k :: 0 <= k < |actions| ==>
         Enabled(job, states[k], actions[k]) && states[k + 1] == Apply(job, states[k], actions[k])
  }

  lemma {:induction false} RunKeepsInv(job: Job, states: seq<State>, actions: seq<Action>, k: nat)
    requires job.Valid() && Run(job, states, actions) && k < |states|
    ensures Inv(job, states[k])
  {
    hide Inv, Init, Enabled, Apply;
    if k == 0 {
      InitInv(job, states[0]);
    } else {
      RunKeepsInv(job, states, actions, k - 1);
      StepKeepsInv(job, states[k - 1], actions[k - 1]);
    }
  }

  lemma {:induction false} RunKeepsRight(job: Job, states: seq<State>, actions: seq<Action>, k: nat)
    requires job.Valid() && Run(job, states, actions) && k < |states|
    requires forall j :: 0 <= j < k ==> LeavesNext(job, states[j], actions[j])
    ensures Inv(job, states[k]) && Right(job, states[k])
  {
    hide Init, Enabled, Apply, Accounted, Right, Ordered, LeavesNext;
    if k == 0 {
      InitInv(job, states[0]);
    } else {
      RunKeepsInv(job, states, actions, k);
      RunKeepsRight(job, states, actions, k - 1);
      StepRight(job, states[k - 1], actions[k - 1]);
    }
  }

  /** Whatever the schedule, as long as every read that failed left the source where the next part
      begins (in particular while none has failed), every part saved under index `i` is bytes
      `[i*c, min((i+1)*c, size))`, and no index is saved twice. */
  lemma SavedIsPart(job: Job, states: seq<State>, actions: seq<Action>, k: nat, i: nat)
    requires job.Valid() && Run(job, states, actions) && k < |states| && i < |states[k].saved|
    requires forall j :: 0 <= j < k ==> LeavesNext(job, states[j], actions[j])
    ensures var p := states[k].saved[i].part;
      && p < job.Total() && p * job.chunk < |job.source|
      && states[k].saved[i].content == job.source[p * job.chunk..Min((p + 1) * job.chunk, |job.source|)]
    ensures forall j :: 0 <= j < |states[k].saved| && j != i ==> states[k].saved[j].part != states[k].saved[i].part
  {
    hide Run, LeavesNext;
    RunKeepsRight(job, states, actions, k);
    var p := states[k].saved[i].part;
    PartLength(job.source, job.chunk, p);
    MulIsProduct(p, job.chunk);
    MulIsProduct(p + 1, job.chunk);
  }

  lemma {:induction false} NoneFailed(job: Job, states: seq<State>, actions: seq<Action>, k: nat)
    requires job.Valid() && Run(job, states, actions) && k < |states| && !states[k].readFailed
    ensures forall j :: 0 <= j < k ==> !actions[j].ReadFails?
  {
    if k > 0 {
      assert states[k] == Apply(job, states[k - 1], actions[k - 1]);
      NoneFailed(job, states, actions, k - 1);
    }
  }

  lemma {:induction false} LeftMeansEmpty(job: Job, states: seq<State>, actions: seq<Action>, k: nat, w: nat)
    requires job.Valid() && Run(job, states, actions) && k < |states|
    requires w < |states[k].workers| && states[k].workers[w] == Left(false)
    ensures states[k].next >= job.Total()
  {
    if k > 0 {
      assert states[k] == Apply(job, states[k - 1], actions[k - 1]);
      if states[k - 1].workers[w] == Left(false) {
        LeftMeansEmpty(job, states, actions, k - 1, w);
      }
    }
  }

  lemma ReturnedMeansLeft(job: Job, states: seq<State>, actions: seq<Action>, k: nat)
    requires job.Valid() && Run(job, states, actions) && k < |states| && states[k].outcome == Returned
    ensures forall w :: 0 <= w < |states[k].workers| ==> states[k].workers[w].Left?
  {
    if k > 0 {
      assert states[k] == Apply(job, states[k - 1], actions[k - 1]);
    }
  }

  /** An upload that returns without having been cancelled has saved every part, once and right. */
  lemma ReturnedMeansComplete(job: Job, states: seq<State>, actions: seq<Action>, k: nat, part: nat)
    requires job.Valid() && Run(job, states, actions) && k < |states| && states[k].outcome == Returned
    requires |states[k].workers| > 0
    requires forall w :: 0 <= w < |states[k].workers| ==> states[k].workers[w] != Left(true)
    requires part < job.Total()
    ensures exists i :: 0 <= i < |states[k].saved|
              && states[k].saved[i] == Saved(part, Part(job.source, job.chunk, part))
              && forall j :: 0 <= j < |states[k].saved| && j != i ==> states[k].saved[j].part != part
  {
    hide Run;
    var s := states[k];
    ReturnedMeansLeft(job, states, actions, k);
    LeftMeansEmpty(job, states, actions, k, 0);
    RunKeepsInv(job, states, actions, k);
    NoneFailed(job, states, actions, k);
    RunKeepsRight(job, states, actions, k);
    assert InSaved(s, part);
    var i :| 0 <= i < |s.saved| && s.saved[i].part == part;
    assert s.saved[i] == Saved(part, Part(job.source, job.chunk, part));
  }

  // -- failures, and the end of every run -----------------------------------------------------------------

  /** How many saves of worker `w` have failed in a row, up to step `k`, since it last read a part. */
  function Failures(actions: seq<Action>, k: nat, w: nat): nat
    requires k <= |actions|
  {
    if k == 0 || actions[k - 1] == Read(w) then 0
    else Failures(actions, k - 1, w) + if actions[k - 1] == SaveEnds(w, false) then 1 else 0
  }

  lemma {:induction false} AttemptsAreFailures(job: Job, states: seq<State>, actions: seq<Action>, k: nat, w: nat)
    requires job.Valid() && Run(job, states, actions) && k < |states| && w < |states[k].workers|
    ensures states[k].workers[w].Saving? ==>
              states[k].workers[w].attempt == Failures(actions, k, w) + 1 <= MAX_PART_ATTEMPTS
  {
    if k > 0 {
      assert states[k] == Apply(job, states[k - 1], actions[k - 1]);
      AttemptsAreFailures(job, states, actions, k - 1, w);
    }
  }

  /** What becomes of a part whose save has ended: on success it is recorded under its index and the worker goes on;
      on a failure it is tried again, the same bytes under the same index, until the last attempt allowed
      has failed as well. */
  lemma SaveEndsIn(job: Job, states: seq<State>, actions: seq<Action>, k: nat, w: nat)
    requires job.Valid() && Run(job, states, actions) && k < |actions| && actions[k].SaveEnds? && actions[k].w == w
    ensures w < |states[k].workers| == |states[k + 1].workers| && states[k].workers[w].Saving?
    ensures var was, now, t := states[k].workers[w], states[k + 1].workers[w], states[k + 1];
      if actions[k].ok then now == Idle && t.saved == states[k].saved + [Saved(was.part, was.content)]
      else
        && t.saved == states[k].saved
        && (if Failures(actions, k + 1, w) >= MAX_PART_ATTEMPTS then now == Dead(was.part)
            else now.Saving? && now.part == was.part && now.content == was.content)
  {
    assert states[k + 1] == Apply(job, states[k], actions[k]);
    AttemptsAreFailures(job, states, actions, k, w);
  }

  ghost predicate SomeDied(s: State) { exists w :: 0 <= w < |s.workers| && s.workers[w].Dead? }

  /** A worker dies only of a failed read or of the last failed attempt at its part, and the upload raises only where
      one has died. */
  lemma DiesOnlyBy(job: Job, states: seq<State>, actions: seq<Action>, k: nat, w: nat)
    requires job.Valid() && Run(job, states, actions) && k < |actions| && w < |states[k].workers|
    ensures w < |states[k + 1].workers|
    ensures states[k + 1].workers[w].Dead? && !states[k].workers[w].Dead? ==>
              || (actions[k].ReadFails? && actions[k].w == w)
              || (actions[k] == SaveEnds(w, false) && Failures(actions, k + 1, w) >= MAX_PART_ATTEMPTS)
    ensures states[k + 1].outcome == Raised ==> SomeDied(states[k + 1])
  {
    assert states[k + 1] == Apply(job, states[k], actions[k]);
    AttemptsAreFailures(job, states, actions, k, w);
    if states[k + 1].outcome == Raised && states[k].outcome != Raised {
      var v :| 0 <= v < |states[k].workers| && states[k].workers[v].Dead?;
      assert states[k + 1].workers[v].Dead?;
    }
  }

  /** A worker leaves as cancelled only when it found the upload cancelled, and otherwise with no index left. */
  lemma LeavesOnlyBy(job: Job, states: seq<State>, actions: seq<Action>, k: nat, w: nat)
    requires job.Valid() && Run(job, states, actions) && k < |actions| && w < |states[k].workers|
    ensures w < |states[k + 1].workers|
    ensures !states[k].workers[w].Left? ==>
              && (states[k + 1].workers[w] == Left(true) <==> actions[k] == Cancelled(w))
              && (states[k + 1].workers[w] == Left(false) <==> actions[k] == QueueEmpty(w))
              && (actions[k] == QueueEmpty(w) ==> states[k].next >= job.Total())
  {
    assert states[k + 1] == Apply(job, states[k], actions[k]);
  }

  /** The uploader's count of bytes read is where the next part begins. */
  predicate Counts(job: Job, s: State) {
    |s.lock| <= s.next && s.readSize == Start(|job.source|, job.chunk, s.next - |s.lock|)
  }

  lemma StepCounts(job: Job, s: State, a: Action)
    requires job.Valid() && Ordered(job, s) && Enabled(job, s, a) && Counts(job, s) && !a.ReadFails?
    ensures Counts(job, Apply(job, s, a))
  {
    hide Start, Mul, Job.Total, Range;
    if a.Read? {
      PartBegins(job, s);
      NextStart(job, s.next - |s.lock|);
    } else if a.NothingToRead? {
      NeverNothingToRead(job, s, a.w);
    }
  }

  lemma {:induction false} RunCounts(job: Job, states: seq<State>, actions: seq<Action>, k: nat)
    requires job.Valid() && Run(job, states, actions) && k < |states| && !states[k].readFailed
    ensures Counts(job, states[k]) && Ordered(job, states[k])
  {
    hide Enabled, Apply, Counts, Accounted, Ordered;
    RunKeepsInv(job, states, actions, k);
    NoneFailed(job, states, actions, k);
    if k == 0 {
      CountsAtFirst(job, states[0]);
    } else {
      NotFailedBefore(job, states[k - 1], actions[k - 1]);
      RunCounts(job, states, actions, k - 1);
      StepCounts(job, states[k - 1], actions[k - 1]);
    }
  }

  lemma CountsAtFirst(job: Job, s: State)
    requires Init(job, s)
    ensures Counts(job, s)
  {
  }

  lemma NotFailedBefore(job: Job, s: State, a: Action)
    requires job.Valid() && Enabled(job, s, a) && !Apply(job, s, a).readFailed
    ensures !s.readFailed
  {
  }

  /** As long as no read has failed, every read asks for exactly its part: the uploader's count of bytes read is
      where that begins. */
  lemma CountsBytesRead(job: Job, states: seq<State>, actions: seq<Action>, k: nat)
    requires job.Valid() && Run(job, states, actions) && k < |states| && !states[k].readFailed
    ensures var s := states[k];
      && |s.lock| <= s.next && s.readSize == Start(|job.source|, job.chunk, s.next - |s.lock|)
      && (s.lock != [] ==>
            s.readSize < |job.source| && ReadLength(job, s) == |Part(job.source, job.chunk, s.next - |s.lock|)|)
  {
    hide Run, Start, Mul, Part;
    RunCounts(job, states, actions, k);
    if states[k].lock != [] {
      PartBegins(job, states[k]);
      NextStart(job, states[k].next - |states[k].lock|);
    }
  }

  lemma NextStart(job: Job, i: nat)
    requires job.Valid()
    ensures Start(|job.source|, job.chunk, i + 1)
         == Start(|job.source|, job.chunk, i) + Min(job.chunk, |job.source| - Start(|job.source|, job.chunk, i))
    ensures |Part(job.source, job.chunk, i)|
         == Start(|job.source|, job.chunk, i + 1) - Start(|job.source|, job.chunk, i)
  {
    StartMono(|job.source|, job.chunk, i);
  }

  /** An upload that is not over can go on without anybody cancelling it. */
  lemma GoesOn(job: Job, states: seq<State>, actions: seq<Action>, k: nat) returns (a: Action)
    requires job.Valid() && Run(job, states, actions) && k < |states| && states[k].outcome == Uploading
    ensures Enabled(job, states[k], a) && !a.Cancelled? && !a.ReadFails? && !(a.SaveEnds? && !a.ok)
  {
    hide Accounted, Start, Mul;
    RunKeepsInv(job, states, actions, k);
    var s := states[k];
    if s.lock != [] {
      PartBegins(job, s);
      assert s.workers[s.lock[0]] == AtLock(s.next - |s.lock| + 0);
      a := Read(s.lock[0]);
    } else if w :| 0 <= w < |s.workers| && s.workers[w].Idle? {
      a := if s.next < job.Total() then Take(w) else QueueEmpty(w);
    } else if w :| 0 <= w < |s.workers| && s.workers[w].Saving? {
      a := SaveEnds(w, true);
    } else if w :| 0 <= w < |s.workers| && s.workers[w].Dead? {
      a := Raise;
    } else {
      a := Return;
    }
  }

  /** The steps a worker can still take with the part it has. */
  function Effort(w: Work): nat {
    match w
    case Idle => 1
    case AtLock(_) => MAX_PART_ATTEMPTS + 2
    case Saving(_, _, attempt) => if attempt <= MAX_PART_ATTEMPTS then MAX_PART_ATTEMPTS + 2 - attempt else 1
    case Left(_) => 0
    case Dead(_) => 0
  }

  ghost function Efforts(s: State): seq<nat> {
    seq(|s.workers|, w requires 0 <= w < |s.workers| => Effort(s.workers[w]))
  }

  /** The steps a run can still take. */
  ghost function StepsLeft(job: Job, s: State): int
    requires job.Valid()
  {
    Sum(Efforts(s)) + (job.Total() - s.next) * (MAX_PART_ATTEMPTS + 2) + if s.outcome == Uploading then 1 else 0
  }

  lemma OneEffort(s: State, t: State, w: nat)
    requires w < |s.workers| == |t.workers| && t.workers == s.workers[w := t.workers[w]]
    ensures Sum(Efforts(t)) == Sum(Efforts(s)) - Effort(s.workers[w]) + Effort(t.workers[w])
  {
    assert Efforts(t) == Efforts(s)[w := Effort(t.workers[w])];
    SumAt(Efforts(s), w, Effort(t.workers[w]));
  }

  ghost predicate Trying(s: State) {
    forall w :: 0 <= w < |s.workers| && s.workers[w].Saving? ==> s.workers[w].attempt <= MAX_PART_ATTEMPTS
  }

  lemma StillTrying(job: Job, states: seq<State>, actions: seq<Action>, k: nat)
    requires job.Valid() && Run(job, states, actions) && k < |states|
    ensures Trying(states[k])
  {
    var s := states[k];
    forall w | 0 <= w < |s.workers| && s.workers[w].Saving?
      ensures s.workers[w].attempt <= MAX_PART_ATTEMPTS
    {
      AttemptsAreFailures(job, states, actions, k, w);
    }
  }

  lemma StepCosts(job: Job, s: State, a: Action)
    requires job.Valid() && Enabled(job, s, a)
    requires Trying(s)
    ensures StepsLeft(job, Apply(job, s, a)) < StepsLeft(job, s)
  {
    hide Efforts, Sum, Range, Job.Total;
    var t := Apply(job, s, a);
    if a.Return? || a.Raise? {
      SameEfforts(s, t);
    } else {
      OneEffort(s, t, a.w);
    }
  }

  lemma SameEfforts(s: State, t: State)
    requires s.workers == t.workers
    ensures Efforts(s) == Efforts(t)
  {
  }

  /** Every run ends: an upload takes no more steps than its parts, with all their attempts, and its workers allow. */
  lemma {:induction false} RunsAreBounded(job: Job, states: seq<State>, actions: seq<Action>, k: nat)
    requires job.Valid() && Run(job, states, actions) && k < |states|
    ensures k + StepsLeft(job, states[k]) <= job.Total() * (MAX_PART_ATTEMPTS + 2) + |states[0].workers| + 1
    ensures StepsLeft(job, states[k]) >= 0
  {
    hide Sum, Efforts;
    RunKeepsInv(job, states, actions, k);
    if k == 0 {
      IdleEfforts(states[0], |states[0].workers|);
    } else {
      RunsAreBounded(job, states, actions, k - 1);
      StillTrying(job, states, actions, k - 1);
      StepCosts(job, states[k - 1], actions[k - 1]);
    }
  }

  lemma {:induction false} IdleEfforts(s: State, n: nat)
    requires n <= |s.workers| && forall w :: 0 <= w < |s.workers| ==> s.workers[w] == Idle
    ensures Sum(Efforts(s)[..n]) == n && Efforts(s)[..|s.workers|] == Efforts(s)
  {
    if n > 0 {
      IdleEfforts(s, n - 1);
      assert Efforts(s)[..n] == Efforts(s)[..n - 1] + [Efforts(s)[n - 1]];
      SumAppend(Efforts(s)[..n - 1], Efforts(s)[n - 1]);
    }
  }

  // -- the object -------------------------------------------------------------------------------

  function Indexes(from: nat, to: nat): (r: seq<nat>)
    requires from <= to
    ensures |r| == to - from && forall i :: 0 <= i < |r| ==> r[i] == from + i
  {
    seq(to - from, i requires 0 <= i < to - from => from + i)
  }


  /** `FileUploader` with the fields its workers share; each method is a stretch between awaits. */
  class FileUploader {
    const fileSize: nat
    const chunkSize: nat
    const totalParts: nat
    var partIndexes: seq<nat>
    var readSize: nat
    ghost const job: Job
    ghost var now: State

    ghost predicate Valid()
      reads this
    {
      && job.Valid() && fileSize == |job.source| && chunkSize == job.chunk && totalParts == job.Total()
      && Inv(job, now) && (!now.readFailed ==> Standing(job, now))
      && readSize == now.readSize && now.outcome == Uploading
      && now.next <= totalParts && partIndexes == Indexes(now.next, totalParts)
    }

    constructor (size: nat, chunk: nat, workers: nat, ghost source: bytes)
      requires chunk > 0 && size == |source|
      ensures Valid() && job == Job(source, chunk) && Init(job, now) && |now.workers| == workers
    {
      fileSize, chunkSize, job := size, chunk, Job(source, chunk);
      var total := (size + chunk - 1) / chunk;
      totalParts := total;
      readSize := 0;
      now := State(0, [], seq(workers, _ => Idle), 0, 0, false, [], Uploading);
      InitInv(Job(source, chunk), State(0, [], seq(workers, _ => Idle), 0, 0, false, [], Uploading));
      var queue: seq<nat> := [];
      for i := 0 to total
        invariant queue == Indexes(0, i)
      {
        queue := queue + [i];
      }
      partIndexes := queue;
    }

    /** `get_nowait`, and the place at the lock that comes with it: no await separates the two. */
    method TakePart(w: nat) returns (part: Option<nat>)
      requires Valid() && w < |now.workers| && now.workers[w].Idle?
      modifies this`partIndexes, this`now
      ensures Valid()
      ensures part.None? ==> old(now).next == totalParts && now == Apply(job, old(now), QueueEmpty(w))
      ensures part.Some? ==> part.value == old(now).next < totalParts && now == Apply(job, old(now), Take(w))
      ensures part.Some? ==> now.lock == old(now).lock + [w]
    {
      hide Inv;
      if partIndexes == [] {
        StepKeepsInv(job, now, QueueEmpty(w));
        now := Apply(job, now, QueueEmpty(w));
        return None;
      }
      StepKeepsInv(job, now, Take(w));
      part := Some(partIndexes[0]);
      partIndexes := partIndexes[1..];
      now := Apply(job, now, Take(w));
    }

    /** How much the worker holding the lock reads; the source then has that much for it. */
    method SizeToRead(w: nat) returns (n: nat)
      requires Valid() && HoldsLock(now, w)
      ensures now.readSize < |job.source| && 0 < n <= chunkSize && n == ReadLength(job, now)
    {
      NeverNothingToRead(job, now, w);
      PartBegins(job, now);
      n := if fileSize - readSize <= chunkSize then fileSize - readSize else chunkSize;
    }

    /** The read is done: its worker goes on with the part it took, holding exactly that part of the
        source whenever the source stood where that part begins. */
    method ReadDone(w: nat, n: nat, content: bytes)
      requires Valid() && HoldsLock(now, w) && now.readSize < |job.source| && n == ReadLength(job, now)
      requires content == Range(job.source, now.pos, now.pos + n - 1)
      modifies this`readSize, this`now
      ensures Valid() && now == Apply(job, old(now), Read(w))
      ensures old(now).pos == Start(fileSize, chunkSize, old(now).workers[w].part) || !now.readFailed ==>
                content == Part(job.source, chunkSize, old(now).workers[w].part)
    {
      hide Inv, Part, Start;
      StepKeepsInv(job, now, Read(w));
      InvOrdered(job, now);
      LockPassed(job, now, w);
      if Standing(job, now) {
        ReadIsPart(job, now, w);
      }
      readSize := readSize + n;
      now := Apply(job, now, Read(w));
    }
  }

  lemma InvOrdered(job: Job, s: State)
    requires job.Valid() && Inv(job, s)
    ensures Ordered(job, s)
  {
  }
}
