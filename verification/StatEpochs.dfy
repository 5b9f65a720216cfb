/** Listing stats kept on file refs (`core/api/stat.py`, `core/api/file.py`): descriptor reads that
    store what they saw, and writes that drop it, told apart by an epoch per ref. One file, with
    the refs it has had: a move gives it a new one. */
module StatEpochs {
  import opened Bytes
  import opened FileRefs

  /** What the protocol uses of a ref; a stat is identified with the descriptor it was read from. */
  datatype Ref = Ref(stat: Option<nat>, epoch: nat)
  {
    function Invalidated(): Ref { Ref(None, epoch + 1) }

    /** The end of `_fill`, for a read begun in epoch `begun`. */
    function Filled(begun: nat, read: nat, complete: bool, inTree: bool): Ref {
      if complete && epoch == begun && inTree then Ref(Some(read), epoch) else this
    }
  }

  /** A write in progress through `FileApi`: the ref it was given, and whether the descriptor has been
      saved. Its `finally` will invalidate that ref. */
  datatype Write = Write(ref: nat, committed: bool)

  /** A descriptor read in progress: its ref, the epoch it began in, what it read. */
  datatype Fill = Fill(ref: nat, epoch: nat, read: Option<nat>)

  /** `desc` counts the descriptor's states; the last of `refs` is the one in the tree. */
  datatype State = State(desc: nat, refs: seq<Ref>, writes: seq<Write>, fills: seq<Fill>)

  datatype Action =
    | BeginWrite
    | Commit(w: nat)
    | Invalidate(w: nat)
    | BeginFill
    | ReadDescriptor(f: nat)
    | EndFill(f: nat, complete: bool)
    | Move

  const FRESH := State(0, [Ref(None, 0)], [], [])

  function Live(s: State): int { |s.refs| - 1 }

  predicate Enabled(s: State, a: Action) {
    && |s.refs| > 0
    && match a
       case BeginWrite => true
       case Commit(w) => w < |s.writes| && !s.writes[w].committed
       case Invalidate(w) => w < |s.writes| && s.writes[w].ref < |s.refs|
       case BeginFill => s.refs[Live(s)].stat.None?
       case ReadDescriptor(f) => f < |s.fills| && s.fills[f].read.None?
       case EndFill(f, _) => f < |s.fills| && s.fills[f].read.Some? && s.fills[f].ref < |s.refs|
       case Move => true
  }

  function Without<T>(s: seq<T>, i: nat): seq<T>
    requires i < |s|
  {
    s[..i] + s[i + 1..]
  }

  function Apply(s: State, a: Action): State
    requires Enabled(s, a)
  {
    match a
    case BeginWrite => s.(writes := s.writes + [Write(Live(s), false)])
    case Commit(w) => s.(desc := s.desc + 1, writes := s.writes[w := s.writes[w].(committed := true)])
    case Invalidate(w) =>
      var r := s.writes[w].ref;
      s.(refs := s.refs[r := s.refs[r].Invalidated()], writes := Without(s.writes, w))
    case BeginFill => s.(fills := s.fills + [Fill(Live(s), s.refs[Live(s)].epoch, None)])
    case ReadDescriptor(f) => s.(fills := s.fills[f := s.fills[f].(read := Some(s.desc))])
    case EndFill(f, complete) =>
      var fill := s.fills[f];
      var r := fill.ref;
      s.(refs := s.refs[r := s.refs[r].Filled(fill.epoch, fill.read.value, complete, r == Live(s))],
         fills := Without(s.fills, f))
    case Move => s.(refs := s.refs + [s.refs[Live(s)]])
  }

  /** Exactly when a stat is stored: at the end of a fill whose descriptor could be read, of the ref that is in
      the tree, with no invalidate since it began. It is then what the fill read; a stat goes only by an
      invalidate of its ref, and nothing else changes one. */
  lemma StoredIff(s: State, a: Action, r: nat)
    requires Enabled(s, a) && r < |s.refs|
    ensures r < |Apply(s, a).refs|
    ensures var was, now := s.refs[r], Apply(s, a).refs[r];
      if a.EndFill? && s.fills[a.f].ref == r && a.complete && r == Live(s) && s.fills[a.f].epoch == was.epoch
      then now == Ref(s.fills[a.f].read, was.epoch)
      else if a.Invalidate? && s.writes[a.w].ref == r then now.stat.None? && now.epoch == was.epoch + 1
      else now == was
  {
  }

  /** A write that runs through changes the descriptor and leaves no stat of the file, whatever else is going on. */
  lemma WriteDropsStat(s: State)
    requires |s.refs| > 0
    ensures var w := |s.writes|;
      && Enabled(s, BeginWrite)
      && var begun := Apply(s, BeginWrite);
      && Enabled(begun, Commit(w))
      && var committed := Apply(begun, Commit(w));
      && committed.desc == s.desc + 1 && committed.refs == s.refs
      && Enabled(committed, Invalidate(w))
      && var done := Apply(committed, Invalidate(w));
      && done.desc == s.desc + 1 && done.writes == s.writes && done.fills == s.fills
      && done.refs == s.refs[Live(s) := Ref(None, s.refs[Live(s)].epoch + 1)]
  {
    var done := Apply(Apply(Apply(s, BeginWrite), Commit(|s.writes|)), Invalidate(|s.writes|));
    assert done.writes == s.writes;
  }

  // -- freshness --------------------------------------------------------------------------------------

  /** A write of the live ref has changed the descriptor and will still invalidate it. */
  ghost predicate Owed(s: State) {
    exists w :: 0 <= w < |s.writes| && s.writes[w].committed && s.writes[w].ref == Live(s)
  }

  /** What was read is current, or will be dropped. */
  ghost predicate Current(s: State, read: nat) { read == s.desc || Owed(s) }

  /** The property: a stored stat is that of the current descriptor unless a committed write has its
      `invalidate` still pending. */
  ghost predicate NotStale(s: State) {
    |s.refs| > 0 && (s.refs[Live(s)].stat.Some? ==> Current(s, s.refs[Live(s)].stat.value))
  }

  ghost predicate Inv(s: State) {
    && NotStale(s)
    && (forall r :: 0 <= r < |s.refs| && s.refs[r].stat.Some? ==> s.refs[r].stat.value <= s.desc)
    && (forall w :: 0 <= w < |s.writes| ==>
          s.writes[w].ref <= Live(s) && (!s.writes[w].committed ==> s.writes[w].ref == Live(s)))
    && (forall f :: 0 <= f < |s.fills| ==>
          && s.fills[f].ref <= Live(s)
          && (s.fills[f].ref == Live(s) ==> s.fills[f].epoch <= s.refs[Live(s)].epoch)
          && (s.fills[f].read.Some? ==> s.fills[f].read.value <= s.desc)
          && (s.fills[f].ref == Live(s) && s.fills[f].epoch == s.refs[Live(s)].epoch && s.fills[f].read.Some? ==>
                Current(s, s.fills[f].read.value)))
  }

  /** When a move is harmless: no write of the file is still to change the descriptor, and the stat
      carried along is not already out of date. A caller that moves a file only while nothing writes
      it always meets this (`QuietMoveIsSafe`). */
  predicate SafeMove(s: State) {
    && |s.refs| > 0
    && (forall w :: 0 <= w < |s.writes| ==> s.writes[w].committed)
    && (s.refs[Live(s)].stat.Some? ==> s.refs[Live(s)].stat.value == s.desc)
  }

  /** A move while no write of the file is in progress is safe. */
  lemma QuietMoveIsSafe(s: State)
    requires Inv(s) && s.writes == []
    ensures SafeMove(s)
  {
  }

  lemma OwedStays(s: State, t: State)
    requires Live(t) == Live(s) && Owed(s)
    requires forall w :: 0 <= w < |s.writes| && s.writes[w].committed ==> s.writes[w] in t.writes
    ensures Owed(t)
  {
    var w :| 0 <= w < |s.writes| && s.writes[w].committed && s.writes[w].ref == Live(s);
    var v :| 0 <= v < |t.writes| && t.writes[v] == s.writes[w];
  }

  lemma CommitKeeps(s: State, w: nat)
    requires Inv(s) && Enabled(s, Commit(w))
    ensures Inv(Apply(s, Commit(w)))
  {
    var t := Apply(s, Commit(w));
    assert t.writes[w].committed && t.writes[w].ref == Live(t);
    assert Owed(t);
  }

  lemma InvalidateKeeps(s: State, w: nat)
    requires Inv(s) && Enabled(s, Invalidate(w))
    ensures Inv(Apply(s, Invalidate(w)))
  {
    var t := Apply(s, Invalidate(w));
    forall v | 0 <= v < |t.writes|
      ensures t.writes[v] in s.writes
    {
      assert t.writes[v] == s.writes[if v < w then v else v + 1];
    }
    if s.writes[w].ref != Live(s) && Owed(s) {
      var v :| 0 <= v < |s.writes| && s.writes[v].committed && s.writes[v].ref == Live(s);
      assert t.writes[if v < w then v else v - 1] == s.writes[v];
    }
  }

  lemma FillKeeps(s: State, f: nat, complete: bool)
    requires Inv(s) && Enabled(s, EndFill(f, complete))
    ensures Inv(Apply(s, EndFill(f, complete)))
  {
    var t := Apply(s, EndFill(f, complete));
    assert Owed(t) <==> Owed(s);
    forall g | 0 <= g < |t.fills|
      ensures t.fills[g] in s.fills
    {
      assert t.fills[g] == s.fills[if g < f then g else g + 1];
    }
  }

  /** Every step but a move keeps it, and a move does when it is safe. */
  lemma StepKeepsInv(s: State, a: Action)
    requires Inv(s) && Enabled(s, a) && (a.Move? ==> SafeMove(s))
    ensures Inv(Apply(s, a))
  {
    var t := Apply(s, a);
    match a
    case BeginWrite =>
      if Owed(s) {
        OwedStays(s, t);
      }
    case Commit(w) => CommitKeeps(s, w);
    case Invalidate(w) => InvalidateKeeps(s, w);
    case BeginFill => assert Owed(t) <==> Owed(s);
    case ReadDescriptor(f) => assert Owed(t) <==> Owed(s);
    case EndFill(f, complete) => FillKeeps(s, f, complete);
    case Move =>
  }

  ghost predicate Run(states: seq<State>, actions: seq<Action>) {
    && |states| == |actions| + 1 && states[0] == FRESH
    && forall k :: 0 <= k < |actions| ==>
         Enabled(states[k], actions[k]) && states[k + 1] == Apply(states[k], actions[k])
  }

  /** In every interleaving of writes and descriptor reads in which moves are safe, a stored stat is
      current or about to be dropped. */
  lemma {:induction false} StatsNeverStale(states: seq<State>, actions: seq<Action>, k: nat)
    requires Run(states, actions) && k < |states|
    requires forall j :: 0 <= j < k && actions[j].Move? ==> SafeMove(states[j])
    ensures Inv(states[k]) && NotStale(states[k])
  {
    hide Enabled, Apply;
    if k > 0 {
      hide Inv, SafeMove;
      StatsNeverStale(states, actions, k - 1);
      StepKeepsInv(states[k - 1], actions[k - 1]);
      assert NotStale(states[k]) by {
        InvNotStale(states[k]);
      }
    }
  }

  lemma InvNotStale(s: State)
    requires Inv(s)
    ensures NotStale(s)
  {
  }

  // -- moves during a write -------------------------------------------------------------------------

  /** The actions, one after the other, lead from `s` to `t`. */
  ghost predicate Leads(s: State, actions: seq<Action>, t: State)
    decreases |actions|
  {
    if |actions| == 0 then s == t
    else Enabled(s, actions[0]) && Leads(Apply(s, actions[0]), actions[1..], t)
  }

  lemma LeadsFirst(s: State, a: Action, actions: seq<Action>, t: State)
    requires Enabled(s, a) && Leads(Apply(s, a), actions, t)
    ensures Leads(s, [a] + actions, t)
  {
    assert ([a] + actions)[1..] == actions;
  }

  /** A stat carried to another ref is out of reach of the writes of the old one. */
  lemma MoveLeavesWrites(s: State)
    requires Inv(s)
    ensures Enabled(s, Move) && !Owed(Apply(s, Move))
    ensures forall w :: 0 <= w < |s.writes| ==> s.writes[w].ref < Live(Apply(s, Move))
  {
  }

  /** The live ref's stat is the current one, no write will drop it, and a write of an old ref is
      still to change the descriptor: it does, and the stat is stale. */
  lemma LateCommit(s: State, w: nat) returns (t: State)
    requires |s.refs| > 0 && s.refs[Live(s)].stat == Some(s.desc) && !Owed(s)
    requires Enabled(s, Commit(w)) && s.writes[w].ref != Live(s)
    ensures t == Apply(s, Commit(w)) && !NotStale(t)
  {
    t := Apply(s, Commit(w));
  }

  /** Reading the descriptor after the move stores it. */
  lemma FillNow(s: State) returns (t: State)
    requires |s.refs| > 0 && s.refs[Live(s)].stat.None?
    ensures Leads(s, [BeginFill, ReadDescriptor(|s.fills|), EndFill(|s.fills|, true)], t)
    ensures t.desc == s.desc && t.writes == s.writes && |t.refs| == |s.refs| && t.refs[Live(t)].stat == Some(s.desc)
  {
    var n := |s.fills|;
    var s1 := Apply(s, BeginFill);
    var s2 := Apply(s1, ReadDescriptor(n));
    t := Apply(s2, EndFill(n, true));
    assert Leads(t, [], t);
    LeadsFirst(s2, EndFill(n, true), [], t);
    LeadsFirst(s1, ReadDescriptor(n), [EndFill(n, true)], t);
    LeadsFirst(s, BeginFill, [ReadDescriptor(n), EndFill(n, true)], t);
    assert [BeginFill] + [ReadDescriptor(n), EndFill(n, true)] == [BeginFill, ReadDescriptor(n), EndFill(n, true)];
    assert [ReadDescriptor(n)] + [EndFill(n, true)] == [ReadDescriptor(n), EndFill(n, true)];
    assert [EndFill(n, true)] + [] == [EndFill(n, true)];
  }

  lemma {:induction false} LeadsThen(s: State, actions: seq<Action>, t: State, a: Action)
    requires Leads(s, actions, t) && Enabled(t, a)
    ensures Leads(s, actions + [a], Apply(t, a))
    decreases |actions|
  {
    if |actions| == 0 {
      assert actions + [a] == [a] + [];
      LeadsFirst(s, a, [], Apply(t, a));
    } else {
      LeadsThen(Apply(s, actions[0]), actions[1..], t, a);
      assert actions + [a] == [actions[0]] + (actions[1..] + [a]);
      LeadsFirst(s, actions[0], actions[1..] + [a], Apply(t, a));
    }
  }

  /** One move, and then anything else. */
  ghost predicate MovesOnce(actions: seq<Action>) {
    |actions| > 0 && actions[0] == Move && forall i :: 0 < i < |actions| ==> !actions[i].Move?
  }

  lemma {:induction false} LeadsKeepsInv(s: State, actions: seq<Action>, t: State)
    requires Inv(s) && Leads(s, actions, t) && forall i :: 0 <= i < |actions| ==> !actions[i].Move?
    ensures Inv(t)
    decreases |actions|
  {
    hide Inv, Enabled, Apply, SafeMove;
    if |actions| > 0 {
      StepKeepsInv(s, actions[0]);
      LeadsKeepsInv(Apply(s, actions[0]), actions[1..], t);
    }
  }

  /** The condition on moves is exact: from every state, a move is safe if and only if nothing that
      can happen after it makes the stored stat stale for good. */
  lemma SafeMoveIff(s: State)
    requires Inv(s)
    ensures SafeMove(s) <==> forall actions, t :: MovesOnce(actions) && Leads(s, actions, t) ==> NotStale(t)
  {
    if SafeMove(s) {
      forall actions, t | MovesOnce(actions) && Leads(s, actions, t)
        ensures NotStale(t)
      {
        StepKeepsInv(s, Move);
        LeadsKeepsInv(Apply(s, Move), actions[1..], t);
        InvNotStale(t);
      }
    } else {
      var actions, t := UnsafeMoveGoesStale(s);
      assert MovesOnce(actions) && Leads(s, actions, t) && !NotStale(t);
    }
  }

  /** How an unsafe move goes wrong: the stat it carried, or one read after it, is out of reach of the
      write that then changes the descriptor. */
  lemma UnsafeMoveGoesStale(s: State) returns (actions: seq<Action>, t: State)
    requires Inv(s) && !SafeMove(s)
    ensures MovesOnce(actions) && Leads(s, actions, t) && !NotStale(t)
  {
    hide Leads;
    MoveLeavesWrites(s);
    var m := Apply(s, Move);
    assert Leads(m, [], m) by {
      LeadsNone(m);
    }
    if s.refs[Live(s)].stat.Some? && s.refs[Live(s)].stat.value != s.desc {
      actions, t := [Move] + [], m;
      LeadsFirst(s, Move, [], m);
    } else {
      var w :| 0 <= w < |s.writes| && !s.writes[w].committed;
      var steps, u := [], m;
      if m.refs[Live(m)].stat.None? {
        u := FillNow(m);
        steps := [BeginFill, ReadDescriptor(|m.fills|), EndFill(|m.fills|, true)];
      }
      assert !Owed(u);
      t := LateCommit(u, w);
      LeadsThen(m, steps, u, Commit(w));
      LeadsFirst(s, Move, steps + [Commit(w)], t);
      actions := [Move] + (steps + [Commit(w)]);
    }
  }

  lemma LeadsNone(s: State)
    ensures Leads(s, [], s)
  {
  }

  /** The write that made it stale invalidates the ref it was given, which is not the live one. */
  lemma InvalidateMisses(s: State, w: nat)
    requires !NotStale(s) && Enabled(s, Invalidate(w)) && s.writes[w].ref != Live(s)
    ensures !NotStale(Apply(s, Invalidate(w)))
  {
    var t := Apply(s, Invalidate(w));
    forall v | 0 <= v < |t.writes|
      ensures t.writes[v] in s.writes
    {
      assert t.writes[v] == s.writes[if v < w then v else v + 1];
    }
  }

  // -- the methods ----------------------------------------------------------------------------------

  ghost predicate Shows(fr: FileRef, r: Ref)
    reads fr
  {
    fr.statEpoch == r.epoch && fr.stat == r.stat
  }

  /** `FileStatApi.invalidate`. */
  method InvalidateStat(fr: FileRef, ghost r: Ref)
    requires Shows(fr, r)
    modifies fr`stat, fr`statEpoch
    ensures Shows(fr, r.Invalidated())
  {
    fr.statEpoch := fr.statEpoch + 1;
    if fr.stat.None? {
      return;
    }
    fr.stat := None;
  }

  /** The end of `FileStatApi._fill`. */
  method StoreStat(fr: FileRef, begun: nat, read: nat, complete: bool, inTree: bool, ghost r: Ref)
    requires Shows(fr, r)
    modifies fr`stat
    ensures Shows(fr, r.Filled(begun, read, complete, inTree)) && fr.statEpoch == old(fr.statEpoch)
    ensures fr.stat == if complete && old(fr.statEpoch) == begun && inTree then Some(read) else old(fr.stat)
  {
    if complete && fr.statEpoch == begun && inTree {
      fr.stat := Some(read);
    }
  }
}
