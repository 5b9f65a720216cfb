/** Uploading to Discord (`backends/discord/store.py`): parts read one after the other, each once an
    upload slot is free for it, and sent concurrently by tasks that give the slots back. */
module DiscordUpload {
  import opened Arith
  import opened Bytes
  import opened Tiling

  const READ_CHUNK: nat := 1024 * 1024

  /** The message to send: its bytes, the size it announces (negative when unknown), and the store's
      part limit. */
  datatype Job = Job(source: bytes, size: int, max: nat)
  {
    predicate Valid() { max > 0 }

    /** What is to be sent: no more than announced. */
    function Content(): bytes { if size >= 0 then Take(source, size) else source }

    /** The parts it is cut into; nothing at all is sent as one empty part. */
    ghost function Parts(): seq<bytes>
      requires Valid()
    {
      if Content() == [] then [[]] else Tiling.Parts(Content(), max, Count(|Content()|, max))
    }
  }

  /** `_read_part`: however the message hands out its bytes, the next `limit` of them. */
  method ReadPart(source: bytes, pos: nat, limit: nat, given: nat -> nat) returns (data: bytes)
    requires pos <= |source|
    ensures data == source[pos..Min(pos + limit, |source|)]
  {
    data := [];
    var turn := 0;
    while |data| < limit
      invariant |data| <= limit && pos + |data| <= |source| && data == source[pos..pos + |data|]
      decreases limit - |data|
    {
      var want := if READ_CHUNK <= limit - |data| then READ_CHUNK else limit - |data|;
      var left := |source| - (pos + |data|);
      var most := if want <= left then want else left;
      // A read returns at least one byte unless the message is at its end.
      var n :=
        if most == 0 then 0 else if given(turn) == 0 then 1 else if given(turn) <= most then given(turn) else most;
      turn := turn + 1;
      if n == 0 {
        break;
      }
      data := data + source[pos + |data|..pos + |data| + n];
    }
  }

  /** A send task: created with a slot and not run yet, sending, over (its slot given back), or
      cancelled before its first step, in which case its `finally` never runs. */
  datatype Task = Unstarted | Sending | Over(ok: bool) | Dropped

  datatype Phase = Looping | Reading | Gathering | Cleaning | Returned | Raised

  /** `held` is slots acquired minus slots released by this upload. */
  datatype State = State(phase: Phase, pos: nat, parts: seq<bytes>, tasks: seq<Task>, unstarted: int, held: int,
                         interrupted: bool)

  const NOT_BEGUN := State(Looping, 0, [], [], 0, 0, false)

  datatype Action =
    | Acquire
    | ReadOk
    | ReadFails
    | Begin(i: nat)
    | End(i: nat, ok: bool)
    | GatherOk
    | Fail
    | Cancel(i: nat)
    | Clean
    | CancelAgain

  predicate Enabled(job: Job, s: State, a: Action) {
    match a
    case Acquire => s.phase == Looping
    case ReadOk => s.phase == Reading && s.pos <= |job.source|
    case ReadFails => s.phase == Reading
    case Begin(i) => i < |s.tasks| && s.tasks[i] == Unstarted && s.phase != Cleaning
    case End(i, ok) => i < |s.tasks| && s.tasks[i] == Sending
    case GatherOk => s.phase == Gathering && forall i :: 0 <= i < |s.tasks| ==> s.tasks[i] == Over(true)
    case Fail => s.phase == Looping || s.phase == Gathering
    case Cancel(i) => s.phase == Cleaning && i < |s.tasks| && s.tasks[i] == Unstarted
    case Clean => s.phase == Cleaning && forall i :: 0 <= i < |s.tasks| ==> s.tasks[i].Over? || s.tasks[i].Dropped?
    case CancelAgain => s.phase == Cleaning && Unstarted !in s.tasks
  }

  function Limit(job: Job, s: State): int {
    if job.size >= 0 then Min(job.max, job.size - s.pos) else job.max
  }

  function Apply(job: Job, s: State, a: Action): State
    requires Enabled(job, s, a)
  {
    match a
    case Acquire => s.(phase := Reading, held := s.held + 1)
    case ReadOk =>
      var limit := Limit(job, s);
      var data := if limit > 0 then job.source[s.pos..Min(s.pos + limit, |job.source|)] else [];
      if data == [] && |s.parts| > 0 then s.(phase := Gathering, held := s.held - 1)
      else
        s.(phase := if (job.size >= 0 && job.size - (s.pos + |data|) <= 0) || |data| < job.max
                    then Gathering else Looping,
           pos := s.pos + |data|, parts := s.parts + [data], tasks := s.tasks + [Unstarted],
           unstarted := s.unstarted + 1)
    case ReadFails => s.(phase := Cleaning, held := s.held - 1)
    case Begin(i) => s.(tasks := s.tasks[i := Sending], unstarted := s.unstarted - 1)
    case End(i, ok) => s.(tasks := s.tasks[i := Over(ok)], held := s.held - 1)
    case GatherOk => s.(phase := Returned)
    case Fail => s.(phase := Cleaning)
    case Cancel(i) => s.(tasks := s.tasks[i := Dropped])
    case Clean => s.(phase := Raised, held := s.held - s.unstarted, unstarted := 0)
    case CancelAgain => s.(phase := Raised, interrupted := true)
  }

  // -- slots ----------------------------------------------------------------------------------------

  ghost function Holding(tasks: seq<Task>): nat {
    multiset(tasks)[Unstarted] + multiset(tasks)[Sending] + multiset(tasks)[Dropped]
  }

  /** Every slot held is that of the part being read or of a task that has not given it back. */
  ghost predicate Slots(s: State) {
    && |s.tasks| == |s.parts|
    && (s.phase == Raised && !s.interrupted ==> s.held == 0)
    && (s.phase != Raised ==>
          && s.unstarted == multiset(s.tasks)[Unstarted] + multiset(s.tasks)[Dropped]
          && s.held == Holding(s.tasks) + if s.phase == Reading then 1 else 0)
    && (s.phase != Cleaning && s.phase != Raised ==> Dropped !in s.tasks)
    && (s.phase == Returned ==> forall i :: 0 <= i < |s.tasks| ==> s.tasks[i] == Over(true))
    && (s.phase == Raised && !s.interrupted ==> forall i :: 0 <= i < |s.tasks| ==>
        s.tasks[i].Over? || s.tasks[i].Dropped?)
    && (s.interrupted ==> s.phase == Raised && s.held == Holding(s.tasks) && Unstarted !in s.tasks)
  }

  lemma NoneLeft(tasks: seq<Task>)
    requires forall i :: 0 <= i < |tasks| ==> tasks[i].Over?
    ensures Holding(tasks) == 0
  {
    forall t | t in tasks
      ensures t.Over?
    {
      var i :| 0 <= i < |tasks| && tasks[i] == t;
    }
  }

  lemma ReadSlots(job: Job, s: State)
    requires Slots(s) && Enabled(job, s, ReadOk)
    ensures Slots(Apply(job, s, ReadOk))
  {
    assert multiset(s.tasks + [Unstarted]) == multiset(s.tasks) + multiset{Unstarted};
  }

  lemma StepSlots(job: Job, s: State, a: Action)
    requires Slots(s) && Enabled(job, s, a)
    ensures Slots(Apply(job, s, a))
  {
    var t := Apply(job, s, a);
    match a
    case ReadOk => ReadSlots(job, s);
    case Clean =>
      assert multiset(s.tasks)[Sending] == 0 by {
        assert Sending !in s.tasks;
      }
    case _ =>
  }

  // -- parts ----------------------------------------------------------------------------------------

  /** While parts are being read they are the first parts of the content, all full; then they are
      all of them. */
  ghost predicate Cut(job: Job, s: State)
    requires job.Valid()
  {
    var c, k := job.Content(), |s.parts|;
    && (s.phase == Looping || s.phase == Reading ==>
          && s.parts == Tiling.Parts(c, job.max, k) && s.pos == Mul(k, job.max) <= |c|
          && (job.size >= 0 && k > 0 ==> s.pos < job.size))
    && (s.phase == Gathering || s.phase == Returned ==> s.parts == job.Parts())
  }

  lemma ReadCut(job: Job, s: State)
    requires job.Valid() && Cut(job, s) && Enabled(job, s, ReadOk)
    ensures Cut(job, Apply(job, s, ReadOk))
  {
    hide CeilDiv, Tiling.Parts, Part;
    var c, k, t := job.Content(), |s.parts|, Apply(job, s, ReadOk);
    var limit := Limit(job, s);
    var data := if limit > 0 then job.source[s.pos..Min(s.pos + limit, |job.source|)] else [];
    ReadIsPart(job, s, data);
    PartsGrow(c, job.max, k);
    if data == [] && k > 0 {
      CeilDivIs(|c|, job.max, k);
    } else if t.phase == Gathering {
      LastPart(job, s, data);
    }
  }

  /** The part that ends the reading is the last one. */
  lemma LastPart(job: Job, s: State, data: bytes)
    requires job.Valid() && Cut(job, s) && s.phase == Reading && (data != [] || s.parts == [])
    requires data == Part(job.Content(), job.max, |s.parts|) && |data| == Min(job.max, |job.Content()| - s.pos)
    requires |data| < job.max || (job.size >= 0 && job.size <= s.pos + |data|)
    ensures s.parts + [data] == job.Parts()
  {
    hide CeilDiv, Tiling.Parts, Part;
    var c, k := job.Content(), |s.parts|;
    PartsGrow(c, job.max, k);
    assert s.pos + |data| == |c|;
    if c != [] {
      CeilDivIs(|c|, job.max, k + 1);
    } else {
      assert s.parts == [];
    }
  }

  /** What is read is the next part of the content. */
  lemma ReadIsPart(job: Job, s: State, data: bytes)
    requires job.Valid() && Cut(job, s) && Enabled(job, s, ReadOk)
    requires data == if Limit(job, s) > 0 then job.source[s.pos..Min(s.pos + Limit(job, s), |job.source|)] else []
    ensures data == Part(job.Content(), job.max, |s.parts|)
    ensures |data| == Min(job.max, |job.Content()| - s.pos)
  {
    var c := job.Content();
    assert |data| == Min(job.max, |c| - s.pos);
    assert data == c[s.pos..s.pos + |data|];
  }

  lemma PartsGrow(c: bytes, max: nat, k: nat)
    ensures Tiling.Parts(c, max, k + 1) == Tiling.Parts(c, max, k) + [Part(c, max, k)]
    ensures Tiling.Parts(c, max, 0) == []
  {
  }

  lemma StepCut(job: Job, s: State, a: Action)
    requires job.Valid() && Cut(job, s) && Enabled(job, s, a)
    ensures Cut(job, Apply(job, s, a))
  {
    if a.ReadOk? {
      ReadCut(job, s);
    }
  }

  // -- every run ------------------------------------------------------------------------------------

  ghost predicate Run(job: Job, states: seq<State>, actions: seq<Action>) {
    && |states| == |actions| + 1 && states[0] == NOT_BEGUN
    && forall k :: 0 <= k < |actions| ==>
         Enabled(job, states[k], actions[k]) && states[k + 1] == Apply(job, states[k], actions[k])
  }

  lemma {:induction false} RunKeepsInv(job: Job, states: seq<State>, actions: seq<Action>, k: nat)
    requires job.Valid() && Run(job, states, actions) && k < |states|
    ensures Slots(states[k]) && Cut(job, states[k])
  {
    hide Enabled, Apply;
    if k > 0 {
      hide Slots, Cut;
      RunKeepsInv(job, states, actions, k - 1);
      StepSlots(job, states[k - 1], actions[k - 1]);
      StepCut(job, states[k - 1], actions[k - 1]);
    }
  }

  /** When an upload is over, returned or raised, every slot it acquired has been released exactly
      once, unless it was cancelled a second time while it was cleaning up; then exactly the slots
      of the tasks that never ran are lost. */
  lemma SlotsConserved(job: Job, states: seq<State>, actions: seq<Action>, k: nat)
    requires job.Valid() && Run(job, states, actions) && k < |states|
    requires states[k].phase == Returned || states[k].phase == Raised
    ensures !states[k].interrupted ==> states[k].held == 0
    ensures states[k].interrupted && Sending !in states[k].tasks ==>
              states[k].held == multiset(states[k].tasks)[Dropped]
  {
    hide Run;
    RunKeepsInv(job, states, actions, k);
    if states[k].phase == Returned {
      NoneLeft(states[k].tasks);
    }
  }

  /** While it runs it holds no slot beyond the part being read and the tasks not over. */
  lemma SlotsNeverOverdrawn(job: Job, states: seq<State>, actions: seq<Action>, k: nat)
    requires job.Valid() && Run(job, states, actions) && k < |states| && !states[k].interrupted
    ensures 0 <= states[k].held <= |states[k].tasks| + 1
  {
    hide Run;
    RunKeepsInv(job, states, actions, k);
    TasksBound(states[k].tasks);
  }

  lemma {:induction false} TasksBound(tasks: seq<Task>)
    ensures Holding(tasks) <= |tasks|
  {
    if |tasks| > 0 {
      var n := |tasks| - 1;
      TasksBound(tasks[..n]);
      assert tasks == tasks[..n] + [tasks[n]];
    }
  }

  /** Every part was sent, and the send succeeded. */
  ghost predicate AllSent(s: State) {
    |s.tasks| == |s.parts| && forall i :: 0 <= i < |s.tasks| ==> s.tasks[i] == Over(true)
  }

  lemma ReturnedIsSent(s: State)
    requires Slots(s) && s.phase == Returned
    ensures AllSent(s)
  {
  }

  /** An upload that returns has sent the content as planned: the parts join to it in order, and
      their sizes are what `plan_parts` says, none above the limit. */
  lemma UploadTiles(job: Job, states: seq<State>, actions: seq<Action>, k: nat)
    requires job.Valid() && Run(job, states, actions) && k < |states| && states[k].phase == Returned
    ensures Flatten(states[k].parts) == job.Content()
    ensures |states[k].parts| == |PlanParts(|job.Content()|, job.max)|
    ensures forall i :: 0 <= i < |states[k].parts| ==>
              |states[k].parts[i]| == PlanParts(|job.Content()|, job.max)[i] <= job.max
    ensures AllSent(states[k])
  {
    hide Run, Slots, AllSent;
    RunKeepsInv(job, states, actions, k);
    ReturnedIsSent(states[k]);
    var c := job.Content();
    if c == [] {
      assert states[k].parts == [] + [[]];
      FlattenAppend([], c);
    } else {
      PartsWhole(c, job.max);
      PlanPartsAreParts(c, job.max);
    }
  }

  /** A send that failed is never passed over: from then on the upload does not return. */
  lemma {:induction false} FailedSendRaises(job: Job, states: seq<State>, actions: seq<Action>, k: nat, m: nat, i: nat)
    requires job.Valid() && Run(job, states, actions) && k <= m < |states|
    requires i < |states[k].tasks| && states[k].tasks[i] == Over(false)
    ensures i < |states[m].tasks| && states[m].tasks[i] == Over(false) && states[m].phase != Returned
  {
    if k < m {
      FailedSendRaises(job, states, actions, k, m - 1, i);
      assert states[m] == Apply(job, states[m - 1], actions[m - 1]);
    } else {
      RunKeepsInv(job, states, actions, k);
    }
  }

  /** As long as nothing fails an upload goes on: to the next slot, the next part, the next task, and at the end
      to its return. */
  lemma GoesOn(job: Job, states: seq<State>, actions: seq<Action>, k: nat) returns (a: Action)
    requires job.Valid() && Run(job, states, actions) && k < |states|
    requires states[k].phase == Looping || states[k].phase == Reading || states[k].phase == Gathering
    requires Over(false) !in states[k].tasks
    ensures Enabled(job, states[k], a) && (a.Acquire? || a.ReadOk? || a.Begin? || (a.End? && a.ok) || a.GatherOk?)
  {
    RunKeepsInv(job, states, actions, k);
    var s := states[k];
    if s.phase == Looping {
      a := Acquire;
    } else if s.phase == Reading {
      a := ReadOk;
    } else if i :| 0 <= i < |s.tasks| && s.tasks[i] == Unstarted {
      a := Begin(i);
    } else if i :| 0 <= i < |s.tasks| && s.tasks[i] == Sending {
      a := End(i, true);
    } else {
      forall i | 0 <= i < |s.tasks|
        ensures s.tasks[i] == Over(true)
      {
        assert s.tasks[i] in s.tasks;
      }
      a := GatherOk;
    }
  }

  // -- every upload ends --------------------------------------------------------------------------------

  function TaskSteps(t: Task): nat { if t == Unstarted then 2 else if t == Sending then 1 else 0 }

  function TaskList(s: State): seq<nat> {
    seq(|s.tasks|, i requires 0 <= i < |s.tasks| => TaskSteps(s.tasks[i]))
  }

  /** The steps the loop can still take: every byte unread may come as a part of its own. */
  function LoopSteps(job: Job, s: State): nat {
    var unread := Max(0, |job.source| - s.pos);
    match s.phase
    case Looping => 4 * (unread + 1) + 3
    case Reading => 4 * (unread + 1) + 2
    case Gathering => 2
    case Cleaning => 1
    case Returned => 0
    case Raised => 0
  }

  function StepsLeft(job: Job, s: State): nat { LoopSteps(job, s) + Sum(TaskList(s)) }

  lemma OneTask(s: State, t: State, i: nat)
    requires i < |s.tasks| == |t.tasks| && t.tasks == s.tasks[i := t.tasks[i]]
    ensures Sum(TaskList(t)) == Sum(TaskList(s)) - TaskSteps(s.tasks[i]) + TaskSteps(t.tasks[i])
  {
    assert TaskList(t) == TaskList(s)[i := TaskSteps(t.tasks[i])];
    SumAt(TaskList(s), i, TaskSteps(t.tasks[i]));
  }

  lemma NewTask(s: State, t: State)
    requires t.tasks == s.tasks + [Unstarted]
    ensures Sum(TaskList(t)) == Sum(TaskList(s)) + 2
  {
    assert TaskList(t) == TaskList(s) + [2];
    SumAppend(TaskList(s), 2);
  }

  lemma StepCosts(job: Job, s: State, a: Action)
    requires job.Valid() && Enabled(job, s, a)
    ensures StepsLeft(job, Apply(job, s, a)) < StepsLeft(job, s)
  {
    hide Sum, TaskList;
    var t := Apply(job, s, a);
    match a
    case ReadOk =>
      if |t.tasks| > |s.tasks| {
        NewTask(s, t);
      } else {
        SameTasks(s, t);
      }
    case Begin(i) => OneTask(s, t, i);
    case End(i, _) => OneTask(s, t, i);
    case Cancel(i) => OneTask(s, t, i);
    case _ => SameTasks(s, t);
  }

  lemma SameTasks(s: State, t: State)
    requires s.tasks == t.tasks
    ensures TaskList(s) == TaskList(t)
  {
  }

  /** Every upload comes to its end, with all its tasks, within a number of steps the size gives. */
  lemma {:induction false} RunsAreBounded(job: Job, states: seq<State>, actions: seq<Action>, k: nat)
    requires job.Valid() && Run(job, states, actions) && k < |states|
    ensures k + StepsLeft(job, states[k]) <= 4 * (|job.source| + 1) + 3
  {
    if k > 0 {
      hide StepsLeft;
      RunsAreBounded(job, states, actions, k - 1);
      StepCosts(job, states[k - 1], actions[k - 1]);
    } else {
      assert TaskList(states[0]) == [];
    }
  }

  /** The exception is real: a part read, its task not run yet, the upload cancelled, and cancelled
      again while it waits for its tasks: the task's slot is never given back. */
  lemma SecondCancelLeaks() returns (job: Job, states: seq<State>, actions: seq<Action>)
    ensures job.Valid() && Run(job, states, actions) && |states| > 0
    ensures var s := states[|states| - 1]; s.phase == Raised && s.held == 1 && s.tasks == [Dropped]
  {
    job := Job([7], 1, 1);
    hide Run;
    states, actions := [NOT_BEGUN], [];
    assert Run(job, states, actions) by {
      RunEmpty(job);
    }
    states, actions := RunAppend(job, states, actions, Acquire);
    assert job.source[0..1] == [7];
    states, actions := RunAppend(job, states, actions, ReadOk);
    states, actions := RunAppend(job, states, actions, Fail);
    states, actions := RunAppend(job, states, actions, Cancel(0));
    states, actions := RunAppend(job, states, actions, CancelAgain);
  }

  lemma RunEmpty(job: Job)
    ensures Run(job, [NOT_BEGUN], [])
  {
  }

  lemma RunAppend(job: Job, states: seq<State>, actions: seq<Action>, a: Action)
    returns (more: seq<State>, done: seq<Action>)
    requires Run(job, states, actions) && |states| > 0 && Enabled(job, states[|states| - 1], a)
    ensures Run(job, more, done) && |more| > 0 && more[|more| - 1] == Apply(job, states[|states| - 1], a)
  {
    hide Enabled, Apply;
    more, done := states + [Apply(job, states[|states| - 1], a)], actions + [a];
  }
}
