/** The budget of the local cache is a hard ceiling: no interleaving of its steps exceeds it. */
module CacheBudget {
  import opened Arith
  import opened Bytes
  import opened Sums
  import opened CacheBlocks
  import opened CacheEviction
  import opened CacheMachine

  /** What the fills of one entry have claimed and not landed yet. */
  ghost function Claimed(fills: map<nat, Fill>, vid: string, inc: nat): map<nat, nat> {
    map t | t in fills && fills[t].vid == vid && fills[t].inc == inc :: fills[t].added
  }

  predicate Live(m: Entries, vid: string, inc: nat) { vid in m && m[vid].inc == inc }

  ghost predicate FillOk(env: Env, m: Entries, nextInc: nat, f: Fill)
    requires Shaped(env, m)
  {
    && f.inc < nextInc
    && f.first < f.last <= env.Blocks(f.vid) && f.end <= |env.version(f.vid)|
    && f.last == (if f.end >= |env.version(f.vid)| then env.Blocks(f.vid) else f.end / env.bs)
    && (Live(m, f.vid, f.inc) ==> !m[f.vid].writing && Missing(env, f, m[f.vid].present) <= f.added)
  }

  ghost predicate WriterOk(env: Env, m: Entries, nextInc: nat, w: Writer) {
    && w.inc < nextInc && w.offset <= |env.version(w.vid)|
    && (w.failed ==> !Live(m, w.vid, w.inc))
    && (Live(m, w.vid, w.inc) ==> StagedOk(env, m[w.vid], w))
  }

  /** An entry under a writer stops being charged whole exactly when the last byte is marked. */
  ghost predicate StagedOk(env: Env, e: Entry, w: Writer) {
    && (!e.writing ==> e.Complete() && w.offset == |env.version(w.vid)|)
    && (!w.behind && w.offset == |env.version(w.vid)| > 0 ==> !e.writing)
  }

  /** The ledger: entries within the budget, and every claim accounted for. */
  ghost predicate EntriesOk(env: Env, s: State) {
    && Shaped(env, s.entries) && WithinBudget(env.cfg, s.entries)
    && (forall k :: k in s.entries ==> s.entries[k].inc < s.nextInc)
    && (forall k :: k in s.entries ==> s.entries[k].inflight == SumMap(Claimed(s.fills, k, s.entries[k].inc)))
  }

  ghost predicate FillsOk(env: Env, s: State)
    requires Shaped(env, s.entries)
  {
    forall t :: t in s.fills ==> FillOk(env, s.entries, s.nextInc, s.fills[t])
  }

  ghost predicate WritersOk(env: Env, s: State) {
    && (forall w :: w in s.writers ==> WriterOk(env, s.entries, s.nextInc, s.writers[w]))
    && (forall v, w :: v in s.writers && w in s.writers && v != w ==> s.writers[v].inc != s.writers[w].inc)
  }

  ghost predicate MemInv(env: Env, s: State) {
    EntriesOk(env, s) && FillsOk(env, s) && WritersOk(env, s)
  }

  lemma ClaimedRemove(fills: map<nat, Fill>, t: nat, vid: string, inc: nat)
    requires t in fills
    ensures SumMap(Claimed(fills, vid, inc))
         == SumMap(Claimed(fills - {t}, vid, inc))
            + (if fills[t].vid == vid && fills[t].inc == inc then fills[t].added else 0)
  {
    var c := Claimed(fills, vid, inc);
    assert Claimed(fills - {t}, vid, inc) == c - {t};
    if t in c {
      SumRemove(c, t);
    } else {
      assert c - {t} == c;
    }
  }

  lemma ClaimedAdd(fills: map<nat, Fill>, t: nat, f: Fill, vid: string, inc: nat)
    requires t !in fills
    ensures SumMap(Claimed(fills[t := f], vid, inc))
         == SumMap(Claimed(fills, vid, inc)) + (if f.vid == vid && f.inc == inc then f.added else 0)
  {
    ClaimedRemove(fills[t := f], t, vid, inc);
    assert fills[t := f] - {t} == fills;
  }

  /** An entry replaced by one that is charged no more stays within the budget. */
  lemma ReplaceKeepsBudget(cfg: Config, m: Entries, k: string, e: Entry)
    requires AllValid(m) && WithinBudget(cfg, m) && k in m && e.Valid() && e.Charged() <= m[k].Charged()
    ensures AllValid(m[k := e]) && WithinBudget(cfg, m[k := e])
  {
    UsedUpdate(m, k, e);
    UsedRemove(m, k);
    assert m[k := e].Keys == m.Keys;
  }

  lemma AddKeepsBudget(cfg: Config, m: Entries, k: string, e: Entry)
    requires AllValid(m) && WithinBudget(cfg, m) && k !in m && e.Valid() && Fits(cfg, m, e.Charged(), true)
    ensures AllValid(m[k := e]) && WithinBudget(cfg, m[k := e])
  {
    UsedUpdate(m, k, e);
    assert m - {k} == m;
    assert m[k := e].Keys == m.Keys + {k};
  }

  lemma GrowKeepsBudget(cfg: Config, m: Entries, k: string, e: Entry, added: nat)
    requires AllValid(m) && WithinBudget(cfg, m) && k in m && e.Valid() && e.Charged() == m[k].Charged() + added
    requires added > 0 ==> Fits(cfg, m, added, false)
    ensures AllValid(m[k := e]) && WithinBudget(cfg, m[k := e])
  {
    UsedUpdate(m, k, e);
    UsedRemove(m, k);
    assert m[k := e].Keys == m.Keys;
  }

  /** Forgetting entries, whatever their state, keeps the invariant. */
  lemma ForgetKeeps(env: Env, s: State, gone: set<string>)
    requires MemInv(env, s)
    ensures MemInv(env, s.(entries := s.entries - gone))
  {
    UsedSubset(s.entries, gone);
  }

  function Fresh(env: Env, vid: string, staging: bool, now: int, inc: nat): Entry
    requires env.bs > 0
  {
    Entry(|env.version(vid)|, env.bs, Mask(env.Blocks(vid), 0, 0), now, 0, staging, 0, inc)
  }

  /** A new entry is charged its whole size when staged and nothing when reserved. */
  lemma FreshCharge(env: Env, vid: string, staging: bool, now: int, inc: nat)
    requires env.bs > 0
    ensures var e := Fresh(env, vid, staging, now, inc);
            && e.Valid() && e.Charged() == (if staging then |env.version(vid)| else 0)
            && e.inc == inc && e.inflight == 0 && e.bs == env.bs && e.size == |env.version(vid)|
  {
    var e := Fresh(env, vid, staging, now, inc);
    NothingPresent(e.size, e.bs, e.present, |e.present|);
  }

  lemma AdmitEntries(env: Env, s: State, n: State, vid: string, staging: bool, now: int)
    requires EntriesOk(env, s) && FillsOk(env, s) && vid !in s.entries
    requires Fits(env.cfg, s.entries, if staging then |env.version(vid)| else 0, true)
    requires n.entries == s.entries[vid := Fresh(env, vid, staging, now, s.nextInc)]
    requires n.nextInc == s.nextInc + 1 && n.fills == s.fills
    ensures EntriesOk(env, n)
  {
    hide Fresh, Used, WithinBudget, Fits, SumMap;
    var e := Fresh(env, vid, staging, now, s.nextInc);
    FreshCharge(env, vid, staging, now, s.nextInc);
    AddKeepsBudget(env.cfg, s.entries, vid, e);
    assert Claimed(s.fills, vid, s.nextInc) == map[];
    SumNone<nat>();
  }

  lemma AdmitTasks(env: Env, s: State, n: State, vid: string, staging: bool, w: nat, now: int)
    requires MemInv(env, s) && vid !in s.entries && w !in s.writers && Shaped(env, n.entries)
    requires n.entries == s.entries[vid := Fresh(env, vid, staging, now, s.nextInc)]
    requires n.nextInc == s.nextInc + 1 && n.fills == s.fills
    requires n.writers == if staging then s.writers[w := Writer(vid, s.nextInc, 0, false, false)] else s.writers
    ensures FillsOk(env, n) && WritersOk(env, n)
  {
    forall t | t in n.fills
      ensures FillOk(env, n.entries, n.nextInc, n.fills[t])
    {
      assert FillOk(env, s.entries, s.nextInc, s.fills[t]);
    }
    forall v | v in n.writers
      ensures WriterOk(env, n.entries, n.nextInc, n.writers[v])
    {
      assert v in s.writers ==> WriterOk(env, s.entries, s.nextInc, s.writers[v]);
    }
  }

  lemma {:induction false} NothingPresent(size: nat, bs: nat, mask: seq<bool>, k: nat)
    requires bs > 0 && |mask| == BlocksFor(size, bs) && k <= |mask| && forall i :: 0 <= i < |mask| ==> !mask[i]
    ensures Weight(size, bs, mask, k) == 0
  {
    if k > 0 {
      NothingPresent(size, bs, mask, k - 1);
    }
  }

  // One entry changes in place.

  /** `e` is `was` with more blocks marked, and possibly no longer being written. */
  predicate Advances(was: Entry, e: Entry) {
    && e.size == was.size && e.bs == was.bs && e.inc == was.inc && |e.present| == |was.present|
    && (forall i :: 0 <= i < |e.present| && was.present[i] ==> e.present[i])
    && (e.writing ==> was.writing)
  }

  lemma MissingShrinks(env: Env, f: Fill, p: seq<bool>, q: seq<bool>)
    requires env.bs > 0 && |p| == |q| == env.Blocks(f.vid) && forall i :: 0 <= i < |p| && p[i] ==> q[i]
    ensures Missing(env, f, q) <= Missing(env, f, p)
  {
    WeightMono(|env.version(f.vid)|, env.bs, AndNot(FillMask(env, f), q), AndNot(FillMask(env, f), p), |p|);
  }

  lemma UpdateTasks(env: Env, s: State, n: State, vid: string, e: Entry)
    requires MemInv(env, s) && vid in s.entries && Advances(s.entries[vid], e) && Shaped(env, n.entries)
    requires n.entries == s.entries[vid := e] && n.nextInc == s.nextInc
    requires forall t :: t in n.fills ==> t in s.fills && n.fills[t] == s.fills[t]
    requires forall w :: w in n.writers ==> w in s.writers && n.writers[w].inc == s.writers[w].inc
    requires forall w :: w in n.writers ==>
              n.writers[w] == s.writers[w] || WriterOk(env, n.entries, n.nextInc, n.writers[w])
    requires forall w :: w in s.writers && s.writers[w].vid == vid && s.writers[w].inc == e.inc && w in n.writers ==>
              StagedOk(env, e, n.writers[w])
    ensures FillsOk(env, n) && WritersOk(env, n)
  {
    hide WithinBudget, Missing, SumMap, Claimed, Entry.Charged, Entry.Complete;
    forall t | t in n.fills
      ensures FillOk(env, n.entries, n.nextInc, n.fills[t])
    {
      var f := s.fills[t];
      assert FillOk(env, s.entries, s.nextInc, f);
      if Live(s.entries, f.vid, f.inc) && f.vid == vid {
        MissingShrinks(env, f, s.entries[vid].present, e.present);
      }
    }
    forall w | w in n.writers
      ensures WriterOk(env, n.entries, n.nextInc, n.writers[w])
    {
      assert WriterOk(env, s.entries, s.nextInc, s.writers[w]);
    }
  }

  lemma UpdateEntries(env: Env, s: State, n: State, vid: string, e: Entry)
    requires EntriesOk(env, s) && vid in s.entries && Advances(s.entries[vid], e) && e.Valid()
    requires e.Charged() <= s.entries[vid].Charged()
    requires n.entries == s.entries[vid := e] && n.nextInc == s.nextInc
    requires forall k :: k in n.entries ==> n.entries[k].inflight == SumMap(Claimed(n.fills, k, n.entries[k].inc))
    ensures EntriesOk(env, n)
  {
    hide WithinBudget, SumMap, Claimed, Entry.Charged;
    ReplaceKeepsBudget(env.cfg, s.entries, vid, e);
  }

  /** Pinning, unpinning and reading an entry. */
  lemma RelabelKeeps(env: Env, s: State, vid: string, pins: nat, now: int)
    requires MemInv(env, s) && vid in s.entries
    ensures MemInv(env, s.(entries := s.entries[vid := s.entries[vid].(pins := pins, lastAccess := now)]))
  {
    var e := s.entries[vid].(pins := pins, lastAccess := now);
    var n := s.(entries := s.entries[vid := e]);
    UpdateEntries(env, s, n, vid, e);
    assert forall w :: w in s.writers ==> WriterOk(env, s.entries, s.nextInc, s.writers[w]);
    UpdateTasks(env, s, n, vid, e);
  }

  // Fills.

  lemma ClaimEntries(env: Env, s: State, t: nat, f: Fill)
    requires EntriesOk(env, s) && t !in s.fills && Live(s.entries, f.vid, f.inc) && !s.entries[f.vid].writing
    requires f.added > 0 ==> Fits(env.cfg, s.entries, f.added, false)
    ensures var e := s.entries[f.vid];
            EntriesOk(env, s.(entries := s.entries[f.vid := e.(inflight := e.inflight + f.added)],
                              fills := s.fills[t := f]))
  {
    hide WithinBudget, Fits, Used, SumMap, Weight;
    var e := s.entries[f.vid].(inflight := s.entries[f.vid].inflight + f.added);
    GrowKeepsBudget(env.cfg, s.entries, f.vid, e, f.added);
    var m := s.entries[f.vid := e];
    forall k | k in m
      ensures m[k].inflight == SumMap(Claimed(s.fills[t := f], k, m[k].inc))
    {
      ClaimedAdd(s.fills, t, f, k, m[k].inc);
    }
  }

  lemma ClaimKeeps(env: Env, s: State, t: nat, f: Fill)
    requires MemInv(env, s) && t !in s.fills && Live(s.entries, f.vid, f.inc)
    requires FillOk(env, s.entries, s.nextInc, f) && (f.added > 0 ==> Fits(env.cfg, s.entries, f.added, false))
    ensures var e := s.entries[f.vid];
            MemInv(env, s.(entries := s.entries[f.vid := e.(inflight := e.inflight + f.added)],
                           fills := s.fills[t := f]))
  {
    hide WithinBudget, Missing, Fits, SumMap, Claimed, Entry.Charged;
    var e := s.entries[f.vid].(inflight := s.entries[f.vid].inflight + f.added);
    var n := s.(entries := s.entries[f.vid := e]);
    ClaimEntries(env, s, t, f);
    assert forall w :: w in s.writers ==> WriterOk(env, s.entries, s.nextInc, s.writers[w]);
    UpdateTasks(env, s, n, f.vid, e);
    assert FillOk(env, n.entries, s.nextInc, f);
  }

  /** The step where a claim turns into present blocks never charges more. */
  lemma LandCharge(env: Env, e: Entry, f: Fill, now: int)
    requires env.bs > 0 && e.Valid() && e.bs == env.bs && e.size == |env.version(f.vid)| && !e.writing
    requires Missing(env, f, e.present) <= f.added <= e.inflight
    ensures var n := e.(inflight := e.inflight - f.added, present := Or(e.present, FillMask(env, f)),
                        lastAccess := now);
            n.Valid() && Advances(e, n) && n.Charged() <= e.Charged()
  {
    WeightOr(e.size, e.bs, e.present, FillMask(env, f), |e.present|);
  }

  lemma LandSums(s: State, t: nat)
    requires t in s.fills
    ensures var f := s.fills[t];
            forall k :: k in s.entries ==>
              (SumMap(Claimed(s.fills, k, s.entries[k].inc))
               == SumMap(Claimed(s.fills - {t}, k, s.entries[k].inc))
                  + (if f.vid == k && f.inc == s.entries[k].inc then f.added else 0))
  {
    forall k | k in s.entries {
      ClaimedRemove(s.fills, t, k, s.entries[k].inc);
    }
  }

  lemma LandKeeps(env: Env, s: State, t: nat, now: int)
    requires MemInv(env, s) && t in s.fills
    ensures MemInv(env, Land(env, s.(fills := s.fills - {t}), s.fills[t], now))
  {
    hide WithinBudget, Missing, Entry.Charged, Claimed, WritersOk;
    var f := s.fills[t];
    var rest := s.(fills := s.fills - {t});
    LandSums(s, t);
    if Live(s.entries, f.vid, f.inc) {
      assert FillOk(env, s.entries, s.nextInc, f);
      var was := s.entries[f.vid];
      LandCharge(env, was, f, now);
      var e := was.(inflight := was.inflight - f.added, present := Or(was.present, FillMask(env, f)),
                    lastAccess := now);
      LandTail(env, s, rest.(entries := s.entries[f.vid := e]), f.vid, e);
    } else {
      DeadFillKeeps(env, s, t);
    }
  }

  lemma LandTail(env: Env, s: State, n: State, vid: string, e: Entry)
    requires MemInv(env, s) && vid in s.entries && Advances(s.entries[vid], e) && e.Valid()
    requires e.writing == s.entries[vid].writing && e.Charged() <= s.entries[vid].Charged()
    requires n.entries == s.entries[vid := e] && n.nextInc == s.nextInc && n.writers == s.writers
    requires forall t :: t in n.fills ==> t in s.fills && n.fills[t] == s.fills[t]
    requires forall k :: k in n.entries ==> n.entries[k].inflight == SumMap(Claimed(n.fills, k, n.entries[k].inc))
    ensures MemInv(env, n)
  {
    hide WithinBudget, Missing, Entry.Charged;
    UpdateEntries(env, s, n, vid, e);
    assert forall w :: w in s.writers ==> WriterOk(env, s.entries, s.nextInc, s.writers[w]);
    UpdateTasks(env, s, n, vid, e);
  }

  /** Bookkeeping on a fill that leaves its claim alone. */
  lemma FillWriteKeeps(env: Env, s: State, t: nat)
    requires MemInv(env, s) && t in s.fills
    ensures MemInv(env, s.(fills := s.fills[t := s.fills[t].(written := true)]))
  {
    hide WithinBudget, Used, SumMap, WriterOk, StagedOk;
    var fills := s.fills[t := s.fills[t].(written := true)];
    assert forall k, inc :: Claimed(fills, k, inc) == Claimed(s.fills, k, inc);
    assert FillOk(env, s.entries, s.nextInc, s.fills[t]);
    assert FillOk(env, s.entries, s.nextInc, fills[t]);
  }

  /** A fill whose entry is gone disappears without a trace. */
  lemma DeadFillKeeps(env: Env, s: State, t: nat)
    requires MemInv(env, s) && t in s.fills && !Live(s.entries, s.fills[t].vid, s.fills[t].inc)
    ensures MemInv(env, s.(fills := s.fills - {t}))
  {
    forall k | k in s.entries
      ensures SumMap(Claimed(s.fills, k, s.entries[k].inc)) == SumMap(Claimed(s.fills - {t}, k, s.entries[k].inc))
    {
      ClaimedRemove(s.fills, t, k, s.entries[k].inc);
    }
  }

  // Writers.

  lemma WriterMarksAll(env: Env, e: Entry, w: Writer)
    requires env.bs > 0 && |e.present| == env.Blocks(w.vid) && w.offset >= |env.version(w.vid)|
    ensures e.(present := Or(e.present, WriterMask(env, w)), writing := false).Complete()
  {
  }

  /** The step where a staged entry stops being charged whole never charges more. */
  lemma ResumeCharge(env: Env, e: Entry, w: Writer)
    requires env.bs > 0 && e.Valid() && e.bs == env.bs && e.size == |env.version(w.vid)|
    requires w.offset <= |env.version(w.vid)| && StagedOk(env, e, w)
    ensures var n := e.(present := Or(e.present, WriterMask(env, w)),
                        writing := e.writing && w.offset < |env.version(w.vid)|);
            n.Valid() && Advances(e, n) && n.Charged() <= e.Charged() && StagedOk(env, n, w.(behind := false))
  {
    var n := e.(present := Or(e.present, WriterMask(env, w)), writing := e.writing && w.offset < |env.version(w.vid)|);
    if w.offset >= |env.version(w.vid)| {
      WriterMarksAll(env, e, w);
      CompleteWeighsSize(n);
    }
    if !e.writing {
      CompleteWeighsSize(e);
      assert n.present == e.present;
    }
  }

  lemma ResumeKeeps(env: Env, s: State, w: nat)
    requires MemInv(env, s) && w in s.writers
    ensures MemInv(env, Resume(env, s.(writers := s.writers[w := s.writers[w].(behind := false)]), s.writers[w]))
  {
    hide WithinBudget, Missing, SumMap, Claimed, Entry.Charged;
    var x := s.writers[w];
    var rest := s.(writers := s.writers[w := x.(behind := false)]);
    assert WriterOk(env, s.entries, s.nextInc, x);
    if Live(s.entries, x.vid, x.inc) {
      var was := s.entries[x.vid];
      ResumeCharge(env, was, x);
      var e := was.(present := Or(was.present, WriterMask(env, x)),
                    writing := was.writing && x.offset < |env.version(x.vid)|);
      var n := rest.(entries := s.entries[x.vid := e]);
      assert n == Resume(env, rest, x);
      UpdateEntries(env, s, n, x.vid, e);
      UpdateTasks(env, s, n, x.vid, e);
    }
  }

  /** A writer moves on, fails once its entry is gone, or goes away. */
  lemma WriterKeeps(env: Env, s: State, w: nat, x: Writer)
    requires MemInv(env, s) && w in s.writers && x.inc == s.writers[w].inc && WriterOk(env, s.entries, s.nextInc, x)
    ensures MemInv(env, s.(writers := s.writers[w := x])) && MemInv(env, s.(writers := s.writers - {w}))
  {
  }

  // Every step.

  lemma AdmitStep(env: Env, s: State, a: Action)
    requires MemInv(env, s) && Enabled(env, s, a) && a.Admit?
    ensures MemInv(env, Mem(env, s, a))
  {
    hide WithinBudget, Fits, Missing, FillsOk, WritersOk;
    var gone := {a.vid} + Keys(a.victims);
    ForgetKeeps(env, s, gone);
    assert s.entries - gone == s.entries - {a.vid} - Keys(a.victims);
    if a.created {
      var k := s.(entries := s.entries - gone);
      AdmitEntries(env, k, Mem(env, s, a), a.vid, a.staging, a.now);
      AdmitTasks(env, k, Mem(env, s, a), a.vid, a.staging, a.w, a.now);
    }
  }

  lemma NewFillOk(env: Env, s: State, vid: string, first: nat, end: nat)
    requires EntriesOk(env, s) && vid in s.entries && !s.entries[vid].writing && end <= |env.version(vid)|
    requires first < NewFill(env, s, vid, first, end).last
    ensures FillOk(env, s.entries, s.nextInc, NewFill(env, s, vid, first, end))
  {
    if end < |env.version(vid)| {
      BlockOfBounds(end, |env.version(vid)|, env.bs);
    }
  }

  lemma KeptIsNoVictim(m: Entries, vid: string, victims: seq<string>)
    requires vid in m && Keys(victims) <= Candidates(m, Some(vid))
    ensures vid in m - Keys(victims) && (m - Keys(victims))[vid] == m[vid]
  {
    assert vid !in Candidates(m, Some(vid));
  }

  lemma SubsetShaped(env: Env, s: State, gone: set<string>)
    requires MemInv(env, s)
    ensures Shaped(env, s.entries) && Shaped(env, s.entries - gone)
  {
  }

  lemma ClaimAfterEviction(env: Env, s: State, t: nat, f: Fill, victims: seq<string>)
    requires MemInv(env, s) && t !in s.fills && Live(s.entries, f.vid, f.inc) && FillOk(env, s.entries, s.nextInc, f)
    requires Keys(victims) <= Candidates(s.entries, Some(f.vid)) && AllValid(s.entries - Keys(victims))
    requires f.added > 0 ==> Fits(env.cfg, s.entries - Keys(victims), f.added, false)
    ensures var e := s.entries[f.vid];
            MemInv(env, s.(entries := (s.entries - Keys(victims))[f.vid := e.(inflight := e.inflight + f.added)],
                           fills := s.fills[t := f]))
  {
    hide WithinBudget, Fits, FillsOk, WritersOk, Missing, Candidates, Used, BlocksFor, EntriesOk;
    SubsetShaped(env, s, Keys(victims));
    ForgetKeeps(env, s, Keys(victims));
    KeptIsNoVictim(s.entries, f.vid, victims);
    var k := s.(entries := s.entries - Keys(victims));
    assert FillOk(env, k.entries, k.nextInc, f);
    ClaimKeeps(env, k, t, f);
  }

  lemma ClaimStep(env: Env, s: State, a: Action)
    requires MemInv(env, s) && Enabled(env, s, a) && a.Claim?
    ensures MemInv(env, Mem(env, s, a))
  {
    hide WithinBudget, Fits, FillsOk, WritersOk, FillOk, BlocksFor, Missing, MemInv, Candidates, Mul;
    assert EntriesOk(env, s) by {
      MemInvParts(env, s);
    }
    NewFillOk(env, s, a.vid, a.first, a.end);
    ClaimAfterEviction(env, s, a.t, NewFill(env, s, a.vid, a.first, a.end), a.victims);
  }

  lemma MemInvParts(env: Env, s: State)
    requires MemInv(env, s)
    ensures EntriesOk(env, s)
  {
  }

  lemma WriterStep(env: Env, s: State, a: Action)
    requires MemInv(env, s) && Enabled(env, s, a) && (a.WriterWrite? || a.WriterFail? || a.WriterClose?)
    ensures MemInv(env, Mem(env, s, a))
  {
    var x := s.writers[a.w];
    assert WriterOk(env, s.entries, s.nextInc, x);
    match a
    case WriterWrite(w, n, hits) => WriterKeeps(env, s, w, x.(offset := x.offset + n, behind := true));
    case WriterFail(w) =>
      ForgetKeeps(env, s, Keys([x.vid]));
      WriterKeeps(env, Forget(s, [x.vid]), w, x.(failed := true));
    case WriterClose(w) =>
      WriterKeeps(env, s, w, x);
      ForgetKeeps(env, s.(writers := s.writers - {w}), Keys([x.vid]));
  }

  /** Every step of the cache keeps its ledger, and with it both limits. */
  lemma StepKeepsBudget(env: Env, s: State, a: Action)
    requires MemInv(env, s) && Enabled(env, s, a)
    ensures MemInv(env, Next(env, s, a))
  {
    hide WithinBudget, Fits, Missing, FillsOk, WritersOk, Ops, DoAll;
    match a {
      case Admit(_, _, _, _, _, _) => AdmitStep(env, s, a);
      case Drop(vids) => ForgetKeeps(env, s, Keys(vids));
      case Claim(_, _, _, _, _) => ClaimStep(env, s, a);
      case FillWrite(t) => FillWriteKeeps(env, s, t);
      case FillLand(t, now, _) => LandKeeps(env, s, t, now);
      case FillFail(t) =>
        var vid := s.fills[t].vid;
        ForgetKeeps(env, s, Keys([vid]));
        DeadFillKeeps(env, Forget(s, [vid]), t);
      case WriterWrite(_, _, _) => WriterStep(env, s, a);
      case WriterResume(w, _) => ResumeKeeps(env, s, w);
      case WriterFail(_) => WriterStep(env, s, a);
      case WriterClose(_) => WriterStep(env, s, a);
      case SetPins(vid, pins) => RelabelKeeps(env, s, vid, pins, s.entries[vid].lastAccess);
      case Touch(vid, now) => RelabelKeeps(env, s, vid, s.entries[vid].pins, now);
    }
    MemInvIgnoresDisk(env, Mem(env, s, a), Next(env, s, a));
  }

  lemma MemInvIgnoresDisk(env: Env, s: State, n: State)
    requires MemInv(env, s) && n == s.(disk := n.disk)
    ensures MemInv(env, n)
  {
  }

  /** A run: every action enabled in the state the ones before it led to. */
  ghost predicate Run(env: Env, s: State, actions: seq<Action>)
    requires env.bs > 0
    decreases |actions|
  {
    |actions| == 0 || (Enabled(env, s, actions[0]) && Run(env, Next(env, s, actions[0]), actions[1..]))
  }

  function After(env: Env, s: State, actions: seq<Action>): State
    requires env.bs > 0
    decreases |actions|
  {
    if |actions| == 0 then s else After(env, Next(env, s, actions[0]), actions[1..])
  }

  /** The budget is a hard ceiling: whatever the interleaving of stagings, fills, failures,
      removals, pins and sweeps, neither limit is ever exceeded. */
  lemma {:induction false} RunKeepsBudget(env: Env, s: State, actions: seq<Action>)
    requires MemInv(env, s) && Run(env, s, actions)
    ensures MemInv(env, After(env, s, actions)) && WithinBudget(env.cfg, After(env, s, actions).entries)
    decreases |actions|
  {
    if |actions| > 0 {
      StepKeepsBudget(env, s, actions[0]);
      RunKeepsBudget(env, Next(env, s, actions[0]), actions[1..]);
    }
  }
}
