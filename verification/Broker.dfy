/** The message broker of the Telegram store (`backends/telegram/broker.py`): requests for messages
    collected into batches by one collector task, which answers or fails every one of them. */
module Broker {
  import opened Bytes

  datatype Message = Message(id: int, text: string)

  /** What a caller's future holds. */
  datatype Future = Waiting | Answered(result: seq<Option<Message>>) | Failed | Cancelled

  /** The collector task: none, created but not run yet, in one of its awaits, or cancelled before
      its first step. */
  datatype Collector = Gone | Unstarted | Sleeping | Processing(batch: seq<nat>) | Deciding | Lost

  /** A batch a bot answered, and the messages it sent. */
  datatype Sent = Sent(batch: seq<nat>, messages: seq<Option<Message>>)

  /** Requests are numbered in the order they are made; `queue` lists those not yet taken, and `sent`
      records every answer of a bot. */
  datatype State = State(ids: seq<seq<int>>, futures: seq<Future>, queue: seq<nat>, task: bool, collector: Collector,
                         sent: seq<Sent>)

  const IDLE := State([], [], [], false, Gone, [])

  // -- answers --------------------------------------------------------------------------------------

  /** The answer to a request: position by position the message with the id asked for, `None` exactly
      when the backend returned none with it. */
  ghost predicate Aligned(ids: seq<int>, messages: seq<Option<Message>>, result: seq<Option<Message>>) {
    && |result| == |ids|
    && forall i :: 0 <= i < |ids| ==>
         && (result[i].Some? ==> result[i].value.id == ids[i] && result[i] in messages)
         && (result[i].None? ==> forall m :: Some(m) in messages ==> m.id != ids[i])
  }

  ghost predicate MapOf(messages: seq<Option<Message>>, byId: map<int, Message>) {
    && (forall id :: id in byId ==> byId[id].id == id && Some(byId[id]) in messages)
    && (forall m :: Some(m) in messages ==> m.id in byId)
  }

  method MessagesMap(messages: seq<Option<Message>>) returns (byId: map<int, Message>)
    ensures MapOf(messages, byId)
  {
    byId := map[];
    for i := 0 to |messages|
      invariant MapOf(messages[..i], byId)
    {
      assert messages[..i + 1] == messages[..i] + [messages[i]];
      if messages[i].Some? {
        byId := byId[messages[i].value.id := messages[i].value];
      }
    }
    assert messages[..|messages|] == messages;
  }

  function Pick(ids: seq<int>, byId: map<int, Message>): (r: seq<Option<Message>>)
    ensures |r| == |ids|
    ensures forall i :: 0 <= i < |ids| ==> r[i] == if ids[i] in byId then Some(byId[ids[i]]) else None
  {
    seq(|ids|, i requires 0 <= i < |ids| => if ids[i] in byId then Some(byId[ids[i]]) else None)
  }

  lemma PickIsAligned(ids: seq<int>, messages: seq<Option<Message>>, byId: map<int, Message>)
    requires MapOf(messages, byId)
    ensures Aligned(ids, messages, Pick(ids, byId))
  {
  }

  // -- steps ----------------------------------------------------------------------------------------

  datatype Action =
    | Ask(want: seq<int>)
    | Begin
    | Swap
    | Answer(messages: seq<Option<Message>>, byId: map<int, Message>)
    | AllBotsFail
    | Decide
    | Die
    | CancelUnstarted
    | GiveUp(r: nat)

  predicate Live(c: Collector) { c.Sleeping? || c.Processing? || c.Deciding? }

  ghost predicate Enabled(s: State, a: Action) {
    match a
    case Ask(_) => true
    case Begin => s.collector.Unstarted?
    case Swap => s.collector.Sleeping?
    case Answer(messages, byId) => s.collector.Processing? && MapOf(messages, byId)
    case AllBotsFail => s.collector.Processing?
    case Decide => s.collector.Deciding?
    case Die => Live(s.collector)
    case CancelUnstarted => s.collector.Unstarted?
    case GiveUp(r) => r < |s.futures| && s.futures[r].Waiting?
  }

  /** The futures of `batch` that still wait get `value`. */
  function Settle(futures: seq<Future>, batch: seq<nat>, value: nat -> Future): (r: seq<Future>)
    ensures |r| == |futures|
    ensures forall i :: 0 <= i < |r| ==> r[i] == if i in batch && futures[i].Waiting? then value(i) else futures[i]
  {
    seq(|futures|, i requires 0 <= i < |futures| => if i in batch && futures[i].Waiting? then value(i) else futures[i])
  }

  ghost function Apply(s: State, a: Action): State
    requires Enabled(s, a)
  {
    match a
    case Ask(want) =>
      s.(ids := s.ids + [want], futures := s.futures + [Waiting], queue := s.queue + [|s.futures|], task := true,
         collector := if s.task then s.collector else Unstarted)
    case Begin => s.(collector := Sleeping)
    case Swap => s.(collector := Processing(s.queue), queue := [])
    case Answer(messages, byId) =>
      s.(collector := Deciding, sent := s.sent + [Sent(s.collector.batch, messages)],
         futures := Settle(s.futures, s.collector.batch,
                           (r: nat) => if r < |s.ids| then Answered(Pick(s.ids[r], byId)) else Failed))
    case AllBotsFail => s.(collector := Deciding, futures := Settle(s.futures, s.collector.batch, _ => Failed))
    case Decide => if s.queue == [] then s.(task := false, collector := Gone) else s.(collector := Sleeping)
    case Die =>
      var batch := if s.collector.Processing? then s.collector.batch else [];
      s.(task := false, collector := Gone, queue := [], futures := Settle(s.futures, batch + s.queue, _ => Failed))
    case CancelUnstarted => s.(collector := Lost)
    case GiveUp(r) => s.(futures := s.futures[r := Cancelled])
  }

  // -- the invariant --------------------------------------------------------------------------------

  predicate InBatch(s: State, r: nat) { s.collector.Processing? && r in s.collector.batch }

  /** A request that still waits is queued or in the collector's batch; the task handle is set exactly
      while there is a collector, and a queue is never without one. */
  ghost predicate Inv(s: State) {
    && |s.ids| == |s.futures|
    && (forall r :: 0 <= r < |s.futures| && s.futures[r].Waiting? ==> r in s.queue || InBatch(s, r))
    && (s.task <==> s.collector != Gone)
    && (s.queue != [] ==> s.task)
  }

  predicate InSent(s: State, j: nat, r: nat)
    requires j < |s.sent|
  {
    r in s.sent[j].batch
  }

  /** A request is queued, in the collector's batch, or in one batch that was answered. */
  ghost predicate Batched(s: State) {
    && (forall r :: r in s.queue ==> r < |s.futures| && !InBatch(s, r))
    && (s.collector.Processing? ==> forall r :: r in s.collector.batch ==> r < |s.futures|)
    && (forall j, r: nat :: 0 <= j < |s.sent| && InSent(s, j, r) ==> r < |s.futures| && r !in s.queue && !InBatch(s, r))
    && (forall i, j, r: nat :: 0 <= i < j < |s.sent| && InSent(s, i, r) ==> !InSent(s, j, r))
  }

  lemma StepKeepsInv(s: State, a: Action)
    requires Inv(s) && Enabled(s, a)
    ensures Inv(Apply(s, a))
  {
    var t := Apply(s, a);
    match a
    case Ask(want) =>
      assert t.queue[|s.queue|] == |s.futures|;
    case Die =>
      var batch := if s.collector.Processing? then s.collector.batch else [];
      forall r | 0 <= r < |s.futures| && s.futures[r].Waiting?
        ensures r in batch + s.queue
      {
      }
    case _ =>
  }

  lemma StepKeepsBatched(s: State, a: Action)
    requires Inv(s) && Batched(s) && Enabled(s, a)
    ensures Batched(Apply(s, a))
  {
    var t := Apply(s, a);
    forall j, r: nat | 0 <= j < |t.sent| && InSent(t, j, r)
      ensures r < |t.futures| && r !in t.queue && !InBatch(t, r)
    {
      assert if j < |s.sent| then InSent(s, j, r) else InBatch(s, r);
    }
    forall i, j, r: nat | 0 <= i < j < |t.sent| && InSent(t, i, r)
      ensures !InSent(t, j, r)
    {
      assert InSent(s, i, r);
      assert if j < |s.sent| then !InSent(s, j, r) else !InBatch(s, r);
    }
  }

  /** Every answer given is aligned with the ids of its request, for what a bot sent for the batch that
      held it. */
  ghost predicate Answers(s: State) {
    |s.ids| == |s.futures|
    && forall r :: 0 <= r < |s.futures| && s.futures[r].Answered? ==>
         exists j :: 0 <= j < |s.sent| && InSent(s, j, r) && Aligned(s.ids[r], s.sent[j].messages, s.futures[r].result)
  }

  lemma StepKeepsAnswers(s: State, a: Action)
    requires Answers(s) && Enabled(s, a)
    ensures Answers(Apply(s, a))
  {
    hide Aligned;
    var t := Apply(s, a);
    forall r | 0 <= r < |t.futures| && t.futures[r].Answered?
      ensures exists j ::
                && 0 <= j < |t.sent| && InSent(t, j, r)
                && Aligned(t.ids[r], t.sent[j].messages, t.futures[r].result)
    {
      if r < |s.futures| && t.futures[r] == s.futures[r] {
        var j :| 0 <= j < |s.sent| && InSent(s, j, r) && Aligned(s.ids[r], s.sent[j].messages, s.futures[r].result);
        assert InSent(t, j, r) && t.sent[j] == s.sent[j];
      } else {
        PickIsAligned(s.ids[r], a.messages, a.byId);
        assert InSent(t, |s.sent|, r);
      }
    }
  }

  /** A future once settled is not touched again. */
  lemma SettledStep(s: State, a: Action, r: nat)
    requires Enabled(s, a) && r < |s.futures| && !s.futures[r].Waiting?
    ensures r < |Apply(s, a).futures| && Apply(s, a).futures[r] == s.futures[r]
  {
  }

  // -- every run ------------------------------------------------------------------------------------

  ghost predicate Run(states: seq<State>, actions: seq<Action>) {
    && |states| == |actions| + 1 && states[0] == IDLE
    && forall k :: 0 <= k < |actions| ==>
         Enabled(states[k], actions[k]) && states[k + 1] == Apply(states[k], actions[k])
  }

  lemma {:induction false} RunKeepsInv(states: seq<State>, actions: seq<Action>, k: nat)
    requires Run(states, actions) && k < |states|
    ensures Inv(states[k]) && Batched(states[k]) && Answers(states[k])
  {
    hide Enabled, Apply;
    if k > 0 {
      hide Inv, Batched, Answers;
      RunKeepsInv(states, actions, k - 1);
      StepKeepsInv(states[k - 1], actions[k - 1]);
      StepKeepsBatched(states[k - 1], actions[k - 1]);
      StepKeepsAnswers(states[k - 1], actions[k - 1]);
    }
  }

  /** Every answer given in a run is, position by position, what a bot sent for the one batch that held
      the request: the message with the id asked for, and `None` exactly when none had it. */
  lemma AnswersAreAligned(states: seq<State>, actions: seq<Action>, k: nat, r: nat) returns (j: nat)
    requires Run(states, actions) && k < |states| && r < |states[k].futures| && states[k].futures[r].Answered?
    ensures j < |states[k].sent| && r in states[k].sent[j].batch && r < |states[k].ids|
    ensures Aligned(states[k].ids[r], states[k].sent[j].messages, states[k].futures[r].result)
    ensures forall i :: 0 <= i < |states[k].sent| && InSent(states[k], i, r) ==> i == j
  {
    hide Run, Aligned;
    RunKeepsInv(states, actions, k);
    var s := states[k];
    var i :| 0 <= i < |s.sent| && InSent(s, i, r) && Aligned(s.ids[r], s.sent[i].messages, s.futures[r].result);
    j := i;
  }

  /** What a bot sent reaches everybody who waits for it: at an answer exactly the requests of the batch that
      still wait are answered, each with the messages it asked for, and nobody else's future changes. */
  lemma AnswerReachesBatch(states: seq<State>, actions: seq<Action>, k: nat, r: nat)
    requires Run(states, actions) && k < |actions| && actions[k].Answer? && r < |states[k].futures|
    ensures r < |states[k + 1].futures| && r < |states[k].ids|
    ensures if states[k].futures[r].Waiting? && InBatch(states[k], r)
            then && states[k + 1].futures[r].Answered?
                 && Aligned(states[k].ids[r], actions[k].messages, states[k + 1].futures[r].result)
            else states[k + 1].futures[r] == states[k].futures[r]
  {
    hide Aligned;
    RunKeepsInv(states, actions, k);
    assert states[k + 1] == Apply(states[k], actions[k]);
    PickIsAligned(states[k].ids[r], actions[k].messages, actions[k].byId);
  }

  /** A request fails only where every bot failed its batch or the collector died, and is cancelled only by
      its own caller. */
  lemma FailedOnlyBy(states: seq<State>, actions: seq<Action>, k: nat, r: nat)
    requires Run(states, actions) && k < |actions| && r < |states[k].futures| && states[k].futures[r].Waiting?
    ensures r < |states[k + 1].futures|
    ensures states[k + 1].futures[r].Failed?
       <==> (actions[k] == AllBotsFail && InBatch(states[k], r)) || actions[k] == Die
    ensures states[k + 1].futures[r].Cancelled? <==> actions[k] == GiveUp(r)
  {
    RunKeepsInv(states, actions, k);
    assert states[k + 1] == Apply(states[k], actions[k]);
  }

  /** A request keeps the ids it was made with. */
  lemma {:induction false} AskedStays(states: seq<State>, actions: seq<Action>, k: nat, m: nat, r: nat)
    requires Run(states, actions) && k <= m < |states| && r < |states[k].ids|
    ensures r < |states[m].ids| && states[m].ids[r] == states[k].ids[r]
  {
    if k < m {
      AskedStays(states, actions, k, m - 1, r);
      assert states[m] == Apply(states[m - 1], actions[m - 1]);
    }
  }

  /** End to end: whoever asks waits, and if ever answered gets, for the very ids asked for, what a bot sent for
      the batch the request was in. */
  lemma AskedThenAnswered(states: seq<State>, actions: seq<Action>, k: nat, m: nat) returns (r: nat, j: nat)
    requires Run(states, actions) && k < |actions| && actions[k].Ask? && k < m < |states|
    ensures r == |states[k].futures| < |states[m].futures|
    ensures r < |states[k + 1].futures| && states[k + 1].futures[r].Waiting?
    ensures states[m].futures[r].Answered? ==>
              && j < |states[m].sent| && r in states[m].sent[j].batch
              && Aligned(actions[k].want, states[m].sent[j].messages, states[m].futures[r].result)
  {
    hide Aligned;
    r, j := |states[k].futures|, 0;
    RunKeepsInv(states, actions, k);
    assert states[k + 1] == Apply(states[k], actions[k]);
    AskedStays(states, actions, k + 1, m, r);
    RunKeepsInv(states, actions, m);
    if states[m].futures[r].Answered? {
      j := AnswersAreAligned(states, actions, m, r);
    }
  }

  /** A caller's future, once answered, failed or cancelled, keeps its value for the rest of the run. */
  lemma {:induction false} SettledStays(states: seq<State>, actions: seq<Action>, k: nat, m: nat, r: nat)
    requires Run(states, actions) && k <= m < |states| && r < |states[k].futures| && !states[k].futures[r].Waiting?
    ensures r < |states[m].futures| && states[m].futures[r] == states[k].futures[r]
  {
    hide Enabled, Apply;
    if k < m {
      SettledStays(states, actions, k, m - 1, r);
      SettledStep(states[m - 1], actions[m - 1], r);
    }
  }

  /** No request is stranded: one that still waits is queued with a live collector or in that
      collector's batch, and the collector can move. The one exception is a collector cancelled
      before its first step. */
  lemma NeverStranded(states: seq<State>, actions: seq<Action>, k: nat, r: nat)
    requires Run(states, actions) && k < |states| && r < |states[k].futures| && states[k].futures[r].Waiting?
    ensures var s := states[k];
      s.collector == Lost
      || ((r in s.queue || InBatch(s, r)) && (s.collector == Unstarted || Live(s.collector))
          && (Enabled(s, Begin) || Enabled(s, Swap) || Enabled(s, AllBotsFail) || Enabled(s, Decide)))
  {
    hide Run, Answers, Batched;
    RunKeepsInv(states, actions, k);
  }

  /** The collector's own steps. */
  predicate Turn(a: Action) { a.Begin? || a.Swap? || a.Answer? || a.AllBotsFail? || a.Decide? || a.Die? }

  function Turns(actions: seq<Action>, k: nat, m: nat): nat
    requires k <= m <= |actions|
  {
    if k == m then 0 else Turns(actions, k, m - 1) + if Turn(actions[m - 1]) then 1 else 0
  }

  /** How many steps of the collector, as long as it takes any, a waiting request is from being settled. */
  function Due(s: State, r: nat): (d: nat)
    ensures 1 <= d <= 4
  {
    match s.collector
    case Gone => 1
    case Lost => 1
    case Unstarted => 3
    case Sleeping => 2
    case Processing(batch) => if r in batch then 1 else 4
    case Deciding => 3
  }

  /** Every step of the collector brings a request that still waits after it nearer, and no other step
      takes it further away. */
  lemma TurnIsNearer(s: State, a: Action, r: nat)
    requires Inv(s) && Enabled(s, a) && r < |s.futures| && s.futures[r].Waiting? && Apply(s, a).futures[r].Waiting?
    ensures Due(Apply(s, a), r) + (if Turn(a) then 1 else 0) <= Due(s, r)
  {
  }

  lemma {:induction false} DueOverRun(states: seq<State>, actions: seq<Action>, k: nat, m: nat, r: nat)
    requires Run(states, actions) && k <= m < |states| && r < |states[k].futures|
    requires r < |states[m].futures| && states[m].futures[r].Waiting?
    ensures Due(states[m], r) + Turns(actions, k, m) <= Due(states[k], r)
  {
    hide Enabled, Apply, Due;
    if k < m {
      var s, a := states[m - 1], actions[m - 1];
      FuturesGrow(states, actions, k, m - 1);
      if !s.futures[r].Waiting? {
        SettledStep(s, a, r);
      }
      RunKeepsInv(states, actions, m - 1);
      DueOverRun(states, actions, k, m - 1, r);
      TurnIsNearer(s, a, r);
    }
  }

  lemma {:induction false} FuturesGrow(states: seq<State>, actions: seq<Action>, k: nat, m: nat)
    requires Run(states, actions) && k <= m < |states|
    ensures |states[k].futures| <= |states[m].futures|
  {
    hide Enabled, Apply;
    if k < m {
      FuturesGrow(states, actions, k, m - 1);
      NoFewer(states[m - 1], actions[m - 1]);
    }
  }

  /** Whatever else happens in between, a request is settled by the fourth step the collector takes
      after it was made. */
  lemma {:induction false} SettledWithin(states: seq<State>, actions: seq<Action>, k: nat, m: nat, r: nat)
    requires Run(states, actions) && k <= m < |states| && r < |states[k].futures|
    ensures r < |states[m].futures|
    ensures Turns(actions, k, m) >= 4 ==> !states[m].futures[r].Waiting?
  {
    hide Run, Due, Turns;
    FuturesGrow(states, actions, k, m);
    if states[m].futures[r].Waiting? {
      DueOverRun(states, actions, k, m, r);
    }
  }

  /** A dying collector fails every request of its batch and of the queue. */
  lemma DeathFailsAll(states: seq<State>, actions: seq<Action>, k: nat, r: nat)
    requires Run(states, actions) && k < |actions| && actions[k] == Die && r < |states[k].futures|
    ensures r < |states[k + 1].futures|
    ensures states[k + 1].futures[r] == if states[k].futures[r].Waiting? then Failed else states[k].futures[r]
  {
    RunKeepsInv(states, actions, k);
    assert states[k + 1] == Apply(states[k], actions[k]);
  }

  /** Only a collector that was never run is ever lost. */
  lemma {:induction false} LostMeansNeverRun(states: seq<State>, actions: seq<Action>, k: nat)
    requires Run(states, actions) && k < |states| && states[k].collector == Lost
    ensures exists j :: 0 <= j < k && actions[j] == CancelUnstarted
  {
    if k > 0 {
      assert states[k] == Apply(states[k - 1], actions[k - 1]);
      if states[k - 1].collector == Lost {
        LostMeansNeverRun(states, actions, k - 1);
      } else {
        assert actions[k - 1] == CancelUnstarted;
      }
    }
  }

  /** The exception is real and permanent: the handle of a collector cancelled before its first step
      stays set, so no other is ever started, and no request waiting then or made later is answered. */
  lemma LostStays(s: State, a: Action)
    requires Inv(s) && s.collector == Lost && Enabled(s, a)
    ensures Apply(s, a).collector == Lost
    ensures forall r :: 0 <= r < |Apply(s, a).futures| && (r < |s.futures| ==> s.futures[r].Waiting?) ==>
              Apply(s, a).futures[r].Waiting? || Apply(s, a).futures[r].Cancelled?
  {
  }

  /** A collector is lost exactly when one was cancelled before its first step, and from then on no
      request that waits, or is made later, is ever answered: it waits until its caller gives up. */
  lemma LostIff(states: seq<State>, actions: seq<Action>, k: nat, m: nat, r: nat)
    requires Run(states, actions) && k <= m < |states|
    ensures states[k].collector == Lost <==> exists j :: 0 <= j < k && actions[j] == CancelUnstarted
    ensures states[k].collector == Lost && r < |states[m].futures|
            && (r < |states[k].futures| ==> states[k].futures[r].Waiting?) ==>
              states[m].futures[r].Waiting? || states[m].futures[r].Cancelled?
  {
    hide Enabled, Apply;
    if states[k].collector == Lost {
      LostMeansNeverRun(states, actions, k);
      LostRun(states, actions, k, m, r);
    } else if j :| 0 <= j < k && actions[j] == CancelUnstarted {
      LostAt(states, actions, j);
      LostRun(states, actions, j + 1, k, 0);
    }
  }

  lemma LostAt(states: seq<State>, actions: seq<Action>, j: nat)
    requires Run(states, actions) && j < |actions| && actions[j] == CancelUnstarted
    ensures states[j + 1].collector == Lost
  {
    assert states[j + 1] == Apply(states[j], actions[j]);
  }

  lemma {:induction false} LostRun(states: seq<State>, actions: seq<Action>, k: nat, m: nat, r: nat)
    requires Run(states, actions) && k <= m < |states| && states[k].collector == Lost
    ensures states[m].collector == Lost && |states[k].futures| <= |states[m].futures|
    ensures r < |states[m].futures| && (r < |states[k].futures| ==> states[k].futures[r].Waiting?) ==>
              states[m].futures[r].Waiting? || states[m].futures[r].Cancelled?
  {
    hide Enabled, Apply;
    if k < m {
      LostRun(states, actions, k, m - 1, r);
      RunKeepsInv(states, actions, m - 1);
      LostStays(states[m - 1], actions[m - 1]);
      NoFewer(states[m - 1], actions[m - 1]);
      if r < |states[m - 1].futures| && !states[m - 1].futures[r].Waiting? {
        SettledStep(states[m - 1], actions[m - 1], r);
      }
    }
  }

  lemma NoFewer(s: State, a: Action)
    requires Enabled(s, a)
    ensures |s.futures| <= |Apply(s, a).futures|
  {
  }

  lemma CollectorLost() returns (states: seq<State>, actions: seq<Action>)
    ensures Run(states, actions) && |states| > 0
    ensures var s := states[|states| - 1]; s.collector == Lost && s.futures == [Waiting]
  {
    actions := [Ask([7]), CancelUnstarted];
    var s1 := Apply(IDLE, actions[0]);
    var s2 := Apply(s1, actions[1]);
    states := [IDLE, s1, s2];
  }

  // -- the object -----------------------------------------------------------------------------------

  /** The broker's fields, with the futures of all requests. Each method is a stretch between awaits. */
  class MessageBroker {
    var ids: seq<seq<int>>
    var futures: seq<Future>
    var requests: seq<nat>
    var task: bool
    ghost var collector: Collector
    ghost var sent: seq<Sent>

    ghost function Now(): State
      reads this
    {
      State(ids, futures, requests, task, collector, sent)
    }

    constructor ()
      ensures Now() == IDLE && Inv(Now())
    {
      ids, futures, requests, task, collector, sent := [], [], [], false, Gone, [];
    }

    /** `get_messages`: the request joins the queue, and a collector is started if there is none. */
    method GetMessages(want: seq<int>) returns (r: nat)
      requires Inv(Now())
      modifies this
      ensures Inv(Now()) && Now() == Apply(old(Now()), Ask(want)) && r == |old(futures)|
      ensures ids == old(ids) + [want] && futures == old(futures) + [Waiting] && requests == old(requests) + [r] && task
    {
      StepKeepsInv(Now(), Ask(want));
      r := |futures|;
      ids, futures := ids + [want], futures + [Waiting];
      requests := requests + [r];
      if !task {
        task := true;
        collector := Unstarted;
      }
    }

    /** The collector takes the queue as its batch. */
    method TakeBatch() returns (batch: seq<nat>)
      requires Inv(Now()) && collector.Sleeping?
      modifies this
      ensures Inv(Now()) && Now() == Apply(old(Now()), Swap) && batch == old(requests)
      ensures collector == Processing(batch) && requests == [] && futures == old(futures)
    {
      StepKeepsInv(Now(), Swap);
      batch, requests := requests, [];
      collector := Processing(batch);
    }

    /** What a batch asks of a bot: the ids of all its requests, each once. */
    method BatchIds(batch: seq<nat>) returns (want: set<int>)
      requires forall k :: 0 <= k < |batch| ==> batch[k] < |ids|
      ensures forall id :: id in want <==> exists k :: 0 <= k < |batch| && id in ids[batch[k]]
    {
      want := {};
      for i := 0 to |batch|
        invariant forall id :: id in want <==> exists k :: 0 <= k < i && id in ids[batch[k]]
      {
        want := want + set id | id in ids[batch[i]];
      }
    }

    /** The bots are asked in turn, at least one of them, until one answers; all have failed otherwise. */
    static method AskBots(bots: nat, answer: nat -> Result<seq<Option<Message>>>)
      returns (r: Result<seq<Option<Message>>>, asked: nat)
      ensures 1 <= asked <= Max(1, bots) && r == answer(asked - 1) && forall i :: 0 <= i < asked - 1 ==> answer(i).Err?
      ensures r.Err? ==> asked == Max(1, bots)
    {
      var most := if bots < 1 then 1 else bots;
      r, asked := answer(0), 1;
      while r.Err? && asked < most
        invariant 1 <= asked <= most && r == answer(asked - 1) && forall i :: 0 <= i < asked - 1 ==> answer(i).Err?
        decreases most - asked
      {
        r, asked := answer(asked), asked + 1;
      }
    }

    /** `process_requests` with what a bot sent: each waiting future of the batch gets its answer. */
    method ProcessRequests(batch: seq<nat>, messages: seq<Option<Message>>) returns (ghost byId: map<int, Message>)
      requires Inv(Now()) && Answers(Now()) && collector == Processing(batch)
      requires forall r :: r in batch ==> r < |futures|
      modifies this`futures, this`collector, this`sent
      ensures Inv(Now()) && Answers(Now()) && MapOf(messages, byId)
      ensures Now() == Apply(old(Now()), Answer(messages, byId)) && |ids| == |futures| == |old(futures)|
      ensures forall r :: 0 <= r < |futures| ==>
                if r in batch && old(futures)[r].Waiting?
                then futures[r].Answered? && Aligned(ids[r], messages, futures[r].result)
                else futures[r] == old(futures)[r]
    {
      var found := MessagesMap(messages);
      byId := found;
      StepKeepsInv(Now(), Answer(messages, byId));
      StepKeepsAnswers(Now(), Answer(messages, byId));
      ghost var goal := Apply(Now(), Answer(messages, byId)).futures;
      for k := 0 to |batch|
        invariant sent == old(sent) && collector == old(collector)
        invariant |futures| == |goal| == |ids| && ids == old(ids) && requests == old(requests) && task == old(task)
        invariant forall i :: 0 <= i < |futures| ==> futures[i] == if i in batch[..k] then goal[i] else old(futures)[i]
      {
        var r := batch[k];
        assert batch[..k + 1] == batch[..k] + [r] && r in batch;
        if futures[r].Waiting? {
          futures := futures[r := Answered(Pick(ids[r], found))];
        }
      }
      assert batch[..|batch|] == batch;
      assert futures == goal;
      forall r | 0 <= r < |futures|
        ensures Aligned(ids[r], messages, Pick(ids[r], found))
      {
        PickIsAligned(ids[r], messages, found);
      }
      sent := sent + [Sent(batch, messages)];
      collector := Deciding;
    }

    /** After a batch: the collector retires once the queue has run dry. */
    method Retire() returns (done: bool)
      requires Inv(Now()) && collector.Deciding?
      modifies this`task, this`collector
      ensures Inv(Now()) && Now() == Apply(old(Now()), Decide) && done == (requests == [])
      ensures if done then !task && collector == Gone else task && collector == Sleeping
    {
      StepKeepsInv(Now(), Decide);
      done := requests == [];
      if done {
        task, collector := false, Gone;
      } else {
        collector := Sleeping;
      }
    }
  }
}
