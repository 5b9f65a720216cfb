/** Reading a version from its layouts (`core/repository/impl/file_content`): one layout streamed
    through the prefetching chain, and the next layout taking over where one failed. */
module Failover {
  import opened Bytes
  import opened RangeMap
  import opened PrefetchingChain

  /** `_stream_layout`: the parts of one layout over the chain carry exactly the range asked for,
      whatever the layout's part sizes are. */
  lemma LayoutStream(ids: seq<int>, sizes: seq<nat>, parts: seq<bytes>, ranges: seq<PartRange>, begin: nat, stop: int,
                     c: Chain, states: seq<State>, actions: seq<Action>, k: nat)
    requires HasSizes(parts, sizes) && Covers(ids, sizes, ranges, begin, stop) && begin <= |Flatten(parts)|
    requires Delivers(Slices(parts, ranges), c.sources) && Run(c, states, actions) && k < |states|
    ensures begin <= stop <= |Flatten(parts)|
    ensures states[k].out <= Flatten(parts)[begin..stop]
    ensures states[k].phase == Ended ==> states[k].out == Flatten(parts)[begin..stop]
  {
    hide Run, Delivers, Covers, HasSizes, Slices;
    CoveredBytes(ids, sizes, ranges, begin, stop, parts);
    ChainDelivers(Slices(parts, ranges), c, states, actions, k);
  }

  /** The parts of one layout: message ids and sizes. */
  datatype Layout = Layout(ids: seq<int>, sizes: seq<nat>)

  /** What one layout gave, asked for the bytes from some place on. */
  datatype Attempt = Attempt(got: bytes, failed: bool)

  /** A layout whose range could be mapped gives a prefix of what is left from byte `from` on, all of
      it unless it fails. */
  ghost predicate Serves(content: bytes, last: int, from: nat, a: Attempt)
    requires from <= last + 1 <= |content|
  {
    a.got <= content[from..last + 1] && (!a.failed ==> a.got == content[from..last + 1])
  }

  /** A layout as it was tried: from which byte, and what came of it. */
  datatype Try = Try(from: nat, attempt: Attempt)

  lemma Extends(content: bytes, last: int, begin: nat, from: nat, a: Attempt)
    requires begin <= from <= last + 1 <= |content| && Serves(content, last, from, a)
    ensures from + |a.got| <= last + 1 && content[begin..from] + a.got == content[begin..from + |a.got|]
    ensures !a.failed ==> from + |a.got| == last + 1
  {
    SubSlice(content, from, last + 1, 0, |a.got|);
    assert content[from..last + 1][0..|a.got|] == a.got;
    SliceThenSlice(content, begin, from, from + |a.got|);
  }

  /** One layout after the other, each from the byte where the one before stopped; only the last of
      them may have succeeded. */
  ghost predicate Chained(tries: seq<Try>, begin: nat, stop: nat) {
    if |tries| == 0 then begin == stop
    else
      var t := tries[|tries| - 1];
      && t.from + |t.attempt.got| == stop && Chained(tries[..|tries| - 1], begin, t.from)
      && forall i :: 0 <= i < |tries| - 1 ==> tries[i].attempt.failed
  }

  /** This try delivered the last byte and failed all the same. */
  predicate LateFailure(t: Try, last: int) {
    t.attempt.failed && t.from <= last && t.from + |t.attempt.got| == last + 1
  }

  /** `_stream_layouts`: however the layouts fail, the output is a prefix of the range asked for; the
      stream ends normally only with all of it, and fails only when every layout has been tried and
      failed. It can fail with every byte delivered: exactly when a layout failed after the last
      one, because the range that is left is then refused by all that follow. */
  method StreamLayouts(layouts: seq<Layout>, size: nat, begin: nat, end: int, answer: (nat, nat) -> Attempt,
                       ghost content: bytes)
    returns (out: bytes, failed: bool, ghost tries: seq<Try>)
    requires |layouts| > 0 && size == |content| && begin <= LastByte(size, end)
    requires forall i :: 0 <= i < |layouts| ==> Sum(layouts[i].sizes) == size
    requires forall i: nat, from: nat :: from <= LastByte(size, end) ==>
              Serves(content, LastByte(size, end), from, answer(i, from))
    ensures Chained(tries, begin, begin + |out|) && 0 < |tries| <= |layouts|
    ensures out <= content[begin..LastByte(size, end) + 1]
    ensures !failed ==> out == content[begin..LastByte(size, end) + 1] && !tries[|tries| - 1].attempt.failed
    ensures failed ==> |tries| == |layouts| && forall i :: 0 <= i < |tries| ==> tries[i].attempt.failed
    ensures forall i ::
              0 <= i < |tries| && |layouts[i].sizes| <= |layouts[i].ids| && tries[i].from <= LastByte(size, end) ==>
                tries[i].attempt == answer(i, tries[i].from)
    ensures failed && out == content[begin..LastByte(size, end) + 1]
       <==> exists i :: 0 <= i < |tries| && LateFailure(tries[i], LastByte(size, end))
  {
    hide Serves, Covers, Sum, Chained;
    out, failed, tries := [], true, [];
    ghost var last := LastByte(size, end);
    ChainedNone(begin);
    var i := 0;
    while i < |layouts|
      invariant 0 <= i <= |layouts| && |tries| == i && failed
      invariant |out| <= last + 1 - begin && out == content[begin..begin + |out|]
      invariant Chained(tries, begin, begin + |out|)
      invariant forall j :: 0 <= j < i ==> tries[j].attempt.failed && tries[j].from <= begin + |out|
      invariant forall j :: 0 <= j < i && |layouts[j].sizes| <= |layouts[j].ids| && tries[j].from <= last ==>
                  tries[j].attempt == answer(j, tries[j].from)
      invariant |out| == last + 1 - begin <==> exists j :: 0 <= j < i && LateFailure(tries[j], last)
    {
      var from := begin + |out|;
      var mapped := MapRange(layouts[i].ids, layouts[i].sizes, size, from, end);
      var a := if mapped.Ok? then answer(i, from) else Attempt([], true);
      if mapped.Err? {
        NothingServed(content, last, from);
      }
      Extends(content, last, begin, from, a);
      ChainedNext(tries, begin, from, a);
      ghost var before := tries;
      tries := tries + [Try(from, a)];
      out := out + a.got;
      LateOne(before, Try(from, a), last);
      i := i + 1;
      if !a.failed {
        return out, false, tries;
      }
    }
  }

  lemma {:induction false} ChainedFirst(tries: seq<Try>, begin: nat, stop: nat)
    requires Chained(tries, begin, stop) && |tries| > 0
    ensures tries[0].from == begin
  {
    if |tries| > 1 {
      ChainedFirst(tries[..|tries| - 1], begin, tries[|tries| - 1].from);
    }
  }

  /** One byte, two layouts that hold it: the first delivers it and then fails. The byte is out, and the
      stream fails. */
  method FailsWithEverything() returns (out: bytes, failed: bool)
    ensures out == [7] && failed
  {
    var layout := Layout([1], [1]);
    var content: bytes := [7];
    assert [1 as nat][..0] == [] && Sum([1]) == 1;
    var answer := (i: nat, from: nat) => Attempt(if from == 0 then [7] else [], true);
    ghost var tries;
    out, failed, tries := StreamLayouts([layout, layout], 1, 0, 0, answer, content);
    ChainedFirst(tries, 0, |out|);
    assert tries[0].attempt == answer(0, 0);
    assert LateFailure(tries[0], 0);
  }

  lemma LateOne(before: seq<Try>, t: Try, last: int)
    ensures var tries := before + [t];
      (exists j :: 0 <= j < |tries| && LateFailure(tries[j], last))
      <==> (exists j :: 0 <= j < |before| && LateFailure(before[j], last)) || LateFailure(t, last)
  {
    var tries := before + [t];
    if j :| 0 <= j < |before| && LateFailure(before[j], last) {
      assert tries[j] == before[j];
    }
    assert tries[|before|] == t;
  }

  lemma ChainedNone(begin: nat)
    ensures Chained([], begin, begin)
  {
  }

  lemma ChainedNext(tries: seq<Try>, begin: nat, from: nat, a: Attempt)
    requires Chained(tries, begin, from) && forall i :: 0 <= i < |tries| ==> tries[i].attempt.failed
    ensures Chained(tries + [Try(from, a)], begin, from + |a.got|)
  {
    assert (tries + [Try(from, a)])[..|tries|] == tries;
  }

  lemma NothingServed(content: bytes, last: int, from: nat)
    requires from <= last + 1 <= |content|
    ensures Serves(content, last, from, Attempt([], true))
  {
  }
}
