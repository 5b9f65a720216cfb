/** Reading the local cache while it changes, closing a staging, and reloading it after a crash. */
module CacheRecovery {
  import opened Arith
  import opened Bytes
  import opened Sums
  import opened CacheBlocks
  import opened CacheEviction
  import opened CacheMachine
  import opened CacheBudget
  import opened CacheContents

  const READ_CHUNK: nat := 1024 * 1024

  // Reads.

  lemma RangeHeld(env: Env, s: State, vid: string, begin: nat, end: nat)
    requires Inv(env, s) && vid in s.entries && begin <= end < |env.version(vid)| && s.entries[vid].HasRange(begin, end)
    ensures vid in s.disk.data && Holds(s.disk.data[vid], env.version(vid), begin, end + 1)
  {
    hide WithinBudget, FillsOk, WritersOk, TasksOk, Claimed, BlockOf, BlocksFor;
    var e, d := s.entries[vid], s.disk.data[vid];
    assert FileOk(env, vid, e, d, s.disk.maps[vid]);
    HasRangeIffBytes(e, begin, end);
    forall x | begin <= x < end + 1
      ensures x < |d| && d[x] == env.version(vid)[x]
    {
      assert ByteOnDisk(e, x);
      assert Marked(e.present, env.bs, x);
    }
  }

  /** While an entry stays in the cache its present blocks stay present. */
  lemma PresentStays(env: Env, s: State, a: Action, vid: string)
    requires MemInv(env, s) && Enabled(env, s, a) && vid in s.entries
    requires Live(Next(env, s, a).entries, vid, s.entries[vid].inc)
    ensures Subset(s.entries[vid].present, Next(env, s, a).entries[vid].present)
  {
    hide WithinBudget, FillsOk, WritersOk, Fits, Ops, DoAll, BlocksFor, NewFill, Mul;
    if a.FillLand? {
      LandMarks(env, s, a, vid);
    } else if a.WriterResume? {
      ResumeMarks(env, s, a, vid);
    }
  }

  lemma LandMarks(env: Env, s: State, a: Action, vid: string)
    requires MemInv(env, s) && Enabled(env, s, a) && vid in s.entries && a.FillLand?
    requires Live(Next(env, s, a).entries, vid, s.entries[vid].inc)
    ensures Subset(s.entries[vid].present, Next(env, s, a).entries[vid].present)
  {
    hide WithinBudget, FillsOk, WritersOk, Fits, Ops, DoAll, BlocksFor, NewFill, Mul;
    assert |FillMask(env, s.fills[a.t])| == env.Blocks(s.fills[a.t].vid);
  }

  lemma ResumeMarks(env: Env, s: State, a: Action, vid: string)
    requires MemInv(env, s) && Enabled(env, s, a) && vid in s.entries && a.WriterResume?
    requires Live(Next(env, s, a).entries, vid, s.entries[vid].inc)
    ensures Subset(s.entries[vid].present, Next(env, s, a).entries[vid].present)
  {
    hide WithinBudget, FillsOk, WritersOk, Fits, Ops, DoAll, BlocksFor, NewFill, Mul;
    assert |WriterMask(env, s.writers[a.w])| == env.Blocks(s.writers[a.w].vid);
  }

  function States(env: Env, s: State, actions: seq<Action>): (r: seq<State>)
    requires env.bs > 0
    ensures |r| == |actions| + 1
    decreases |actions|
  {
    if |actions| == 0 then [s] else [s] + States(env, Next(env, s, actions[0]), actions[1..])
  }

  /** A stretch of history in which `vid` was never dropped or replaced. */
  ghost predicate Undisturbed(env: Env, history: seq<State>, vid: string) {
    && |history| > 0 && vid in history[0].entries
    && forall i :: 0 <= i < |history| ==>
         Inv(env, history[i]) && Live(history[i].entries, vid, history[0].entries[vid].inc) &&
         Subset(history[0].entries[vid].present, history[i].entries[vid].present)
  }

  lemma {:induction false} RunIsUndisturbed(env: Env, s: State, actions: seq<Action>, vid: string)
    requires Inv(env, s) && Run(env, s, actions) && vid in s.entries
    requires forall i :: 0 <= i <= |actions| ==> Live(States(env, s, actions)[i].entries, vid, s.entries[vid].inc)
    ensures Undisturbed(env, States(env, s, actions), vid)
    decreases |actions|
  {
    hide Inv, Next;
    InvHasMem(env, s);
    var all := States(env, s, actions);
    if |actions| > 0 {
      var n := Next(env, s, actions[0]);
      var rest := States(env, n, actions[1..]);
      assert all[1..] == rest && all[1] == rest[0] == n by {
        assert |actions[1..]| == 0 || rest == [n] + States(env, Next(env, n, actions[1..][0]), actions[1..][1..]);
      }
      StepKeepsInv(env, s, actions[0]);
      PresentStays(env, s, actions[0], vid);
      forall i | 0 <= i <= |actions[1..]|
        ensures Live(rest[i].entries, vid, n.entries[vid].inc)
      {
        assert rest[i] == all[i + 1];
      }
      RunIsUndisturbed(env, n, actions[1..], vid);
      forall i | 0 <= i < |all|
        ensures Inv(env, all[i]) && Live(all[i].entries, vid, s.entries[vid].inc)
                  && Subset(s.entries[vid].present, all[i].entries[vid].present)
      {
        assert i > 0 ==> all[i] == rest[i - 1];
      }
    }
  }

  lemma InvHasMem(env: Env, s: State)
    requires Inv(env, s)
    ensures MemInv(env, s) && env.bs > 0
  {
  }

  /** Reading in chunks, each from whatever state the cache has reached by then, gives exactly
      the requested slice as long as the entry is not dropped; a range that is not on disk is
      an error and never a wrong answer. */
  method ReadStream(env: Env, history: seq<State>, vid: string, begin: nat, end0: int) returns (r: Result<seq<bytes>>)
    requires Undisturbed(env, history, vid)
    ensures var end := if end0 < 0 || end0 >= |env.version(vid)| then |env.version(vid)| - 1 else end0;
            var entry := history[0].entries[vid];
            if |env.version(vid)| > 0 && entry.Valid() && !entry.HasRange(begin, end) then r.Err?
            else r.Ok? && Flatten(r.value) == Range(env.version(vid), begin, end)
  {
    hide Inv, Holds, Entry.HasRange;
    ghost var v := env.version(vid);
    var entry := history[0].entries[vid];
    EntryFields(env, history[0], vid);
    var end := if end0 < 0 || end0 >= entry.size then entry.size - 1 else end0;
    if !entry.HasRange(begin, end) {
      EmptyHasRange(entry, begin, end);
      return Err;
    }
    var offset, now := begin, 0;
    var chunks: seq<bytes> := [];
    assert Range(v, begin, offset - 1) == [];
    while offset <= end
      invariant 0 <= now < |history| && begin <= offset && (offset > begin ==> offset <= end + 1)
      invariant Flatten(chunks) == Range(v, begin, offset - 1)
      decreases end + 1 - offset
    {
      RangeStays(env, history, now, vid, begin, end);
      var file := history[now].disk.data[vid];
      var length := Min(READ_CHUNK, end - offset + 1);
      var n :| 1 <= n <= length;
      assert file[offset..offset + n] == v[offset..offset + n] by {
        HoldsSlice(file, v, begin, end + 1, offset, offset + n);
      }
      FlattenAppend(chunks, file[offset..offset + n]);
      RangeExtend(v, begin, offset, n);
      chunks := chunks + [file[offset..offset + n]];
      offset := offset + n;
      var later :| now <= later < |history|;
      now := later;
    }
    return Ok(chunks);
  }

  lemma EntryFields(env: Env, s: State, vid: string)
    requires Inv(env, s) && vid in s.entries
    ensures s.entries[vid].Valid() && s.entries[vid].size == |env.version(vid)| && s.entries[vid].bs == env.bs
  {
  }

  lemma EmptyHasRange(e: Entry, begin: int, end: int)
    requires e.Valid() && !e.HasRange(begin, end)
    ensures e.size > 0
  {
  }

  lemma HasRangeMono(a: Entry, b: Entry, begin: nat, end: nat)
    requires a.Valid() && b.Valid() && a.size == b.size && a.bs == b.bs && Subset(a.present, b.present)
    requires a.HasRange(begin, end)
    ensures b.HasRange(begin, end)
  {
    if a.size > 0 {
      BlockOfBounds(end, a.size, a.bs);
    }
  }

  lemma RangeStays(env: Env, history: seq<State>, i: nat, vid: string, begin: nat, end: nat)
    requires Undisturbed(env, history, vid) && i < |history| && begin <= end
    requires history[0].entries[vid].Valid() && history[0].entries[vid].HasRange(begin, end) && |env.version(vid)| > 0
    ensures end < |env.version(vid)|
    ensures vid in history[i].disk.data && Holds(history[i].disk.data[vid], env.version(vid), begin, end + 1)
  {
    hide Inv, Holds, BlockOf;
    EntryFields(env, history[0], vid);
    EntryFields(env, history[i], vid);
    HasRangeMono(history[0].entries[vid], history[i].entries[vid], begin, end);
    RangeHeld(env, history[i], vid, begin, end);
  }

  lemma HoldsSlice(d: bytes, v: bytes, lo: nat, hi: nat, a: nat, b: nat)
    requires Holds(d, v, lo, hi) && lo <= a <= b <= hi
    ensures b <= |d| && b <= |v| && d[a..b] == v[a..b]
  {
  }

  lemma RangeExtend(v: bytes, begin: nat, offset: nat, n: nat)
    requires begin <= offset && offset + n <= |v| && n > 0
    ensures Range(v, begin, offset - 1) + v[offset..offset + n] == Range(v, begin, offset + n - 1)
  {
  }

  // Closing a staging.

  /** Closing a writer decides by what was written: one that failed before, or has written its whole
      version, leaves the cache as it is; one that came short takes its entry and both files with it,
      and nothing else. */
  lemma CloseIsExact(env: Env, s: State, w: nat)
    requires Inv(env, s) && Enabled(env, s, WriterClose(w))
    ensures var x, n := s.writers[w], Next(env, s, WriterClose(w));
      && n.writers == s.writers - {w} && n.fills == s.fills && n.nextInc == s.nextInc
      && (x.failed || x.offset == |env.version(x.vid)| ==> n.entries == s.entries && n.disk == s.disk)
      && (!x.failed && x.offset < |env.version(x.vid)| ==>
            && n.entries == s.entries - {x.vid}
            && n.disk == Disk(s.disk.data - {x.vid}, s.disk.maps - {x.vid}))
  {
    hide TasksOk, EntriesOk, FillsOk, DoAll, DropOps;
    var x := s.writers[w];
    assert WriterOk(env, s.entries, s.nextInc, x);
    assert Keys([x.vid]) == {x.vid};
    NoOps(env, s.entries, s.disk);
    DropAll(env, s.entries, s.disk, [x.vid]);
    FilesKeys(env, s);
    if x.vid !in s.entries {
      assert s.entries - {x.vid} == s.entries;
      assert s.disk.data - {x.vid} == s.disk.data && s.disk.maps - {x.vid} == s.disk.maps;
    }
  }

  /** A staging of positive size that did not fail and is still the cached one is kept by its close if and
      only if all of it was written; what a close leaves of it is complete and no longer charged
      whole. */
  lemma ClosedIsKeptIffWhole(env: Env, s: State, w: nat)
    requires Inv(env, s) && Enabled(env, s, WriterClose(w)) && |env.version(s.writers[w].vid)| > 0
    ensures var x, n := s.writers[w], Next(env, s, WriterClose(w)).entries;
      && (Live(n, x.vid, x.inc) ==> n[x.vid].Complete() && !n[x.vid].writing && n[x.vid] == s.entries[x.vid])
      && (!x.failed && Live(s.entries, x.vid, x.inc) ==>
            (Live(n, x.vid, x.inc) <==> x.offset == |env.version(x.vid)|))
  {
    hide Next, TasksOk, EntriesOk, FillsOk, FilesOk;
    CloseIsExact(env, s, w);
    assert WriterOk(env, s.entries, s.nextInc, s.writers[w]);
  }

  /** An entry that is marked as being written, with no writer left to end that. */
  ghost predicate Stuck(s: State, vid: string, inc: nat) {
    && inc < s.nextInc && (forall w :: w in s.writers ==> s.writers[w].inc != inc)
    && (Live(s.entries, vid, inc) ==> s.entries[vid].writing)
  }

  lemma StuckStep(env: Env, s: State, a: Action, vid: string, inc: nat)
    requires Enabled(env, s, a) && Stuck(s, vid, inc)
    ensures Stuck(Next(env, s, a), vid, inc)
  {
    hide WithinBudget, Fits, Ops, DoAll, Used, Candidates, Mul, BlocksFor, Weight;
  }

  lemma {:induction false} StuckRun(env: Env, s: State, actions: seq<Action>, vid: string, inc: nat)
    requires env.bs > 0 && Run(env, s, actions) && Stuck(s, vid, inc)
    ensures Stuck(After(env, s, actions), vid, inc)
    decreases |actions|
  {
    hide Enabled, Next, Stuck;
    if |actions| > 0 {
      StuckStep(env, s, actions[0], vid, inc);
      StuckRun(env, Next(env, s, actions[0]), actions[1..], vid, inc);
    }
  }

  /** An empty version never gets there: its staging, opened and closed, is left as being written for
      good. Whatever happens afterwards, as long as that entry is in the cache it is never complete
      to a reader and never evicted to make room. */
  lemma EmptyStagingStaysWriting(env: Env, s: State, vid: string, w: nat, now: int, actions: seq<Action>)
    requires Inv(env, s) && |env.version(vid)| == 0 && w !in s.writers && vid !in s.entries
    requires Fits(env.cfg, s.entries, 0, true)
    ensures var open := Next(env, s, Admit(vid, true, w, [], now, true));
            && Enabled(env, s, Admit(vid, true, w, [], now, true)) && Enabled(env, open, WriterClose(w))
            && var closed := Next(env, open, WriterClose(w));
            && Live(closed.entries, vid, s.nextInc) && Stuck(closed, vid, s.nextInc)
            && (Run(env, closed, actions) && Live(After(env, closed, actions).entries, vid, s.nextInc) ==>
                  After(env, closed, actions).entries[vid].writing
                  && !After(env, closed, actions).entries[vid].Evictable())
  {
    hide WithinBudget, Fits, Ops, DoAll, Used, TasksOk, FilesOk, FillsOk, Candidates, Run, After;
    var a := Admit(vid, true, w, [], now, true);
    assert s.entries - {vid} - Keys([]) == s.entries;
    assert Enabled(env, s, a);
    StepKeepsInv(env, s, a);
    var closed := Next(env, Next(env, s, a), WriterClose(w));
    assert Stuck(closed, vid, s.nextInc);
    if Run(env, closed, actions) {
      StuckRun(env, closed, actions, vid, s.nextInc);
    }
  }

  // Pins.

  /** A pin is set and an access recorded on the entry named, and nowhere else. */
  lemma PinsAreSet(env: Env, s: State, vid: string, pins: nat, now: int)
    requires env.bs > 0 && vid in s.entries
    ensures Next(env, s, SetPins(vid, pins)) == s.(entries := s.entries[vid := s.entries[vid].(pins := pins)])
    ensures Next(env, s, Touch(vid, now)) == s.(entries := s.entries[vid := s.entries[vid].(lastAccess := now)])
  {
  }

  /** The step names this very entry: to remove, replace or pin it, or because a write of it ended. */
  predicate Names(s: State, a: Action, vid: string) {
    match a
    case Admit(v, _, _, _, _, _) => v == vid
    case Drop(vids) => vid in vids
    case FillFail(t) => t in s.fills && s.fills[t].vid == vid
    case WriterFail(w) => w in s.writers && s.writers[w].vid == vid
    case WriterClose(w) => w in s.writers && s.writers[w].vid == vid
    case SetPins(v, _) => v == vid
    case _ => false
  }

  lemma PinnedStep(env: Env, s: State, a: Action, vid: string)
    requires Enabled(env, s, a) && vid in s.entries && s.entries[vid].pins > 0 && !Names(s, a, vid)
    ensures vid in Next(env, s, a).entries && Next(env, s, a).entries[vid].pins == s.entries[vid].pins
    ensures Next(env, s, a).entries[vid].inc == s.entries[vid].inc
  {
    hide Fits, DoAll, Ops, BlocksFor, Weight, Mul, FillMask, WriterMask;
    if (a.Admit? || a.Claim?) && a.vid != vid {
      EntriesInUseStay(env, s, a, vid);
    } else if a.Claim? {
      KeptIsNoVictim(s.entries, vid, a.victims);
    }
  }

  ghost predicate NeverNamed(env: Env, s: State, actions: seq<Action>, vid: string)
    requires env.bs > 0
    decreases |actions|
  {
    |actions| == 0 || (!Names(s, actions[0], vid) && NeverNamed(env, Next(env, s, actions[0]), actions[1..], vid))
  }

  /** A pin protects: whatever else the cache does, admitting, filling, evicting, a pinned entry stays, with its
      pins, until some step names it. */
  lemma {:induction false} PinnedStays(env: Env, s: State, actions: seq<Action>, vid: string)
    requires env.bs > 0 && Run(env, s, actions) && NeverNamed(env, s, actions, vid)
    requires vid in s.entries && s.entries[vid].pins > 0
    ensures var t := After(env, s, actions).entries;
      vid in t && t[vid].pins == s.entries[vid].pins && t[vid].inc == s.entries[vid].inc
    decreases |actions|
  {
    hide Enabled, Next, Names;
    if |actions| > 0 {
      PinnedStep(env, s, actions[0], vid);
      PinnedStays(env, Next(env, s, actions[0]), actions[1..], vid);
    }
  }

  // Crash and load.

  datatype IndexRow = IndexRow(writing: bool, pinned: bool, lastAccess: int)

  /** The entries `load` accepts: known to the index, not being written there, with a map file
      of the right length and a data file of at least the version's size. */
  function Loaded(env: Env, index: map<string, IndexRow>, d: Disk): Entries
    requires env.bs > 0
  {
    map k | k in index && !index[k].writing && k in d.maps && k in d.data
            && |d.maps[k]| == env.Blocks(k) && |d.data[k]| >= |env.version(k)|
      :: Entry(|env.version(k)|, env.bs, d.maps[k], index[k].lastAccess, if index[k].pinned then 1 else 0, false, 0, 0)
  }

  /** The cache after `load`: everything the index does not vouch for is swept off the disk. */
  function Reload(env: Env, index: map<string, IndexRow>, d: Disk): State
    requires env.bs > 0
  {
    var m := Loaded(env, index, d);
    State(m, map[], map[], 1,
          Disk(map k | k in m && k in d.data :: d.data[k], map k | k in m && k in d.maps :: d.maps[k]))
  }

  lemma {:induction false} SumMonoOrZero(a: map<string, nat>, b: map<string, nat>)
    requires forall k :: k in a ==> a[k] == 0 || (k in b && a[k] <= b[k])
    ensures SumMap(a) <= SumMap(b)
    decreases |a|
  {
    if a != map[] {
      var k :| k in a;
      SumRemove(a, k);
      if k in b {
        SumRemove(b, k);
        SumMonoOrZero(a - {k}, b - {k});
      } else {
        SumMonoOrZero(a - {k}, b);
      }
    }
  }

  /** An entry is charged at least its marked blocks. */
  lemma ChargedCovers(e: Entry, marks: seq<bool>)
    requires e.Valid() && Subset(marks, e.present)
    ensures Weight(e.size, e.bs, marks, |marks|) <= e.Charged()
  {
    WeightMono(e.size, e.bs, marks, e.present, |marks|);
    var full := Mask(|marks|, 0, |marks|);
    WeightMono(e.size, e.bs, marks, full, |marks|);
    WeightFull(e.size, e.bs, full, |marks|);
  }

  /** What is loaded from a safe disk weighs no more than what memory was charging. */
  lemma LoadedWithinCharge(env: Env, index: map<string, IndexRow>, d: Disk, m: Entries)
    requires Shaped(env, m) && Safe(env, m, d)
    ensures Shaped(env, Loaded(env, index, d)) && Used(Loaded(env, index, d)) <= Used(m)
  {
    hide Trusted;
    var l := Loaded(env, index, d);
    assert Shaped(env, l);
    forall k | k in l
      ensures Charges(l)[k] == 0 || (k in Charges(m) && Charges(l)[k] <= Charges(m)[k])
    {
      if k in m {
        ChargedCovers(m[k], d.maps[k]);
      } else {
        NothingPresent(l[k].size, l[k].bs, l[k].present, |l[k].present|);
      }
    }
    SumMonoOrZero(Charges(l), Charges(m));
  }

  lemma ReloadFiles(env: Env, index: map<string, IndexRow>, d: Disk, m: Entries)
    requires env.bs > 0 && Safe(env, m, d)
    ensures FilesOk(env, Reload(env, index, d)) && TasksOk(env, Reload(env, index, d))
  {
  }

  lemma ReloadMem(env: Env, index: map<string, IndexRow>, d: Disk, m: Entries)
    requires Shaped(env, m) && Safe(env, m, d) && WithinBudget(env.cfg, m)
    requires env.cfg.maxFiles > 0 ==> |d.maps| <= env.cfg.maxFiles
    ensures MemInv(env, Reload(env, index, d))
  {
    hide Safe, Trusted, Used;
    var n := Reload(env, index, d);
    LoadedWithinCharge(env, index, d, m);
    assert n.entries.Keys <= d.maps.Keys;
    SubsetSize(n.entries.Keys, d.maps.Keys);
    assert forall k, inc :: Claimed(n.fills, k, inc) == map[];
    assert SumMap<nat>(map[]) == 0;
  }

  // How many map files a crash can leave.

  lemma {:induction false} KeysGrow(d: Disk, ops: seq<DiskOp>, made: set<string>)
    requires forall i :: 0 <= i < |ops| && ops[i].CreateMap? ==> ops[i].vid in made
    ensures DoAll(d, ops).maps.Keys <= d.maps.Keys + made
    decreases |ops|
  {
    if |ops| > 0 {
      KeysGrow(Do(d, ops[0]), ops[1..], made);
    }
  }

  lemma {:induction false} DropOpsMakeNothing(vids: seq<string>)
    ensures forall i :: 0 <= i < |DropOps(vids)| ==> !DropOps(vids)[i].CreateMap?
    decreases |vids|
  {
    if |vids| > 0 {
      DropOpsMakeNothing(vids[1..]);
    }
  }

  lemma {:induction false} BitOpsMakeNothing(vid: string, blocks: seq<nat>)
    ensures forall i :: 0 <= i < |BitOps(vid, blocks)| ==> !BitOps(vid, blocks)[i].CreateMap?
    decreases |blocks|
  {
    if |blocks| > 0 {
      BitOpsMakeNothing(vid, blocks[1..]);
    }
  }

  lemma OnlyAdmitMakes(env: Env, s: State, a: Action)
    requires env.bs > 0 && !a.Admit?
    ensures forall i :: 0 <= i < |Ops(env, s, a)| ==> !Ops(env, s, a)[i].CreateMap?
  {
    hide Mul, FillMask, WriterMask, FillBytes;
    match a
    case Drop(vids) => DropOpsMakeNothing(vids);
    case Claim(_, _, _, _, victims) => DropOpsMakeNothing(victims);
    case FillFail(t) => if t in s.fills { DropOpsMakeNothing([s.fills[t].vid]); }
    case WriterFail(w) => if w in s.writers { DropOpsMakeNothing([s.writers[w].vid]); }
    case WriterClose(w) => if w in s.writers { DropOpsMakeNothing([s.writers[w].vid]); }
    case FillLand(t, _, bits) =>
      if t in s.fills {
        MarkOpsMakeNothing(env, s, s.fills[t].vid, FillMask(env, s.fills[t]), bits);
      }
    case WriterResume(w, bits) =>
      if w in s.writers {
        MarkOpsMakeNothing(env, s, s.writers[w].vid, WriterMask(env, s.writers[w]), bits);
      }
    case _ =>
  }

  lemma MarkOpsMakeNothing(env: Env, s: State, vid: string, mask: seq<bool>, bits: nat)
    ensures forall i :: 0 <= i < |MarkOps(env, s, vid, mask, bits)| ==> !MarkOps(env, s, vid, mask, bits)[i].CreateMap?
  {
    if vid in s.entries && |s.entries[vid].present| == |mask| {
      BitOpsMakeNothing(vid, Take(Changed(s.entries[vid].present, mask, |mask|), bits));
    }
  }

  lemma AdmitKeepsFileCount(env: Env, s: State, a: Action, k: nat)
    requires Inv(env, s) && Enabled(env, s, a) && k <= |Ops(env, s, a)| && env.cfg.maxFiles > 0 && a.Admit?
    requires |s.entries| <= env.cfg.maxFiles
    ensures |DoAll(s.disk, Ops(env, s, a)[..k]).maps| <= env.cfg.maxFiles
  {
    hide DoAll, DropOps, Mul, Ops, MemInv, TasksOk, Used;
    var d := DoAll(s.disk, Ops(env, s, a)[..k]);
    AdmitKeys(env, s, a, k);
    var kept := s.entries - {a.vid} - Keys(a.victims);
    if d.maps.Keys <= s.entries.Keys {
      SubsetSize(d.maps.Keys, s.entries.Keys);
    } else {
      SubsetSize(d.maps.Keys, kept.Keys + {a.vid});
    }
  }

  /** At every point of a step there are no more map files than `max_files`. */
  lemma CrashKeepsFileCount(env: Env, s: State, a: Action, k: nat)
    requires Inv(env, s) && Enabled(env, s, a) && k <= |Ops(env, s, a)| && env.cfg.maxFiles > 0
    ensures |DoAll(s.disk, Ops(env, s, a)[..k]).maps| <= env.cfg.maxFiles
  {
    hide DoAll, DropOps, Mul, Ops, MemInv, TasksOk, Used;
    assert |s.entries| <= env.cfg.maxFiles by {
      InvHasMem(env, s);
      FilesWithin(env, s);
    }
    if a.Admit? {
      AdmitKeepsFileCount(env, s, a, k);
    } else {
      var d := DoAll(s.disk, Ops(env, s, a)[..k]);
      OnlyAdmitMakes(env, s, a);
      KeysGrow(s.disk, Ops(env, s, a)[..k], {});
      SubsetSize(d.maps.Keys, s.entries.Keys);
    }
  }

  lemma FilesWithin(env: Env, s: State)
    requires MemInv(env, s) && env.cfg.maxFiles > 0
    ensures |s.entries| <= env.cfg.maxFiles
  {
  }

  lemma AdmitKeys(env: Env, s: State, a: Action, k: nat)
    requires env.bs > 0 && s.disk.maps.Keys == s.entries.Keys && a.Admit? && k <= |Ops(env, s, a)|
    ensures var d := DoAll(s.disk, Ops(env, s, a)[..k]);
            d.maps.Keys <= s.entries.Keys || d.maps.Keys <= (s.entries - {a.vid} - Keys(a.victims)).Keys + {a.vid}
  {
    hide DoAll, DropOps;
    var vids := if a.vid in s.entries then [a.vid] + a.victims else a.victims;
    assert Ops(env, s, a) == DropOps(vids) + AdmitTail(env, a.vid, a.created);
    AdmitFileCount(env, s, a.vid, a.created, vids, Ops(env, s, a), k);
    assert s.disk.maps.Keys - Keys(vids) + {a.vid} == (s.entries - {a.vid} - Keys(a.victims)).Keys + {a.vid};
  }

  lemma AdmitFileCount(env: Env, s: State, vid: string, created: bool, vids: seq<string>, ops: seq<DiskOp>, k: nat)
    requires env.bs > 0 && s.disk.maps.Keys == s.entries.Keys && k <= |ops|
    requires ops == DropOps(vids) + AdmitTail(env, vid, created)
    ensures var d := DoAll(s.disk, ops[..k]);
            d.maps.Keys <= s.entries.Keys || d.maps.Keys <= s.disk.maps.Keys - Keys(vids) + {vid}
  {
    hide DoAll, DropOps;
    var drops, tail := DropOps(vids), AdmitTail(env, vid, created);
    DropOpsMakeNothing(vids);
    if k <= |drops| {
      assert ops[..k] == drops[..k];
      KeysGrow(s.disk, drops[..k], {});
    } else {
      assert ops[..k] == drops + tail[..k - |drops|];
      DoAllConcat(s.disk, drops, tail[..k - |drops|]);
      DropAll(env, s.entries, s.disk, vids);
      KeysGrow(DoAll(s.disk, drops), tail[..k - |drops|], {vid});
    }
  }

  /** A crash after any number of disk operations of any step, followed by `load` from any
      index, gives a cache that agrees with the versions and is within both limits. */
  lemma CrashThenLoad(env: Env, s: State, a: Action, k: nat, index: map<string, IndexRow>)
    requires Inv(env, s) && Enabled(env, s, a) && k <= |Ops(env, s, a)|
    ensures Inv(env, Reload(env, index, DoAll(s.disk, Ops(env, s, a)[..k])))
  {
    hide Ops, DoAll, Reload, Safe, OpsSafe, Enabled, Fits;
    var m, d := Charging(env, s, a), DoAll(s.disk, Ops(env, s, a)[..k]);
    StepKeepsInv(env, s, a);
    SafeNow(env, s, a);
    PrefixSafe(env, m, s.disk, Ops(env, s, a), k);
    if env.cfg.maxFiles > 0 {
      CrashKeepsFileCount(env, s, a, k);
    }
    ReloadMem(env, index, d, m);
    ReloadFiles(env, index, d, m);
  }

  /** The index as `_save_index` writes it. */
  ghost predicate IndexOf(m: Entries, index: map<string, IndexRow>) {
    && index.Keys == m.Keys
    && forall k :: k in m ==> index[k] == IndexRow(m[k].writing, m[k].pins > 0, m[k].lastAccess)
  }

  /** A clean restart loses nothing: exactly the entries not being written come back, with the marks of
      their map files, their age and their pins, and exactly their files stay on disk, unchanged. */
  lemma CleanRestart(env: Env, s: State, index: map<string, IndexRow>)
    requires Inv(env, s) && IndexOf(s.entries, index)
    ensures var t := Reload(env, index, s.disk);
      && (forall k :: k in t.entries <==> k in s.entries && !s.entries[k].writing)
      && (forall k :: k in t.entries ==>
            && k in s.disk.maps && t.entries[k].present == s.disk.maps[k]
            && t.entries[k].lastAccess == s.entries[k].lastAccess
            && (t.entries[k].pins > 0 <==> s.entries[k].pins > 0)
            && t.entries[k].size == s.entries[k].size && !t.entries[k].writing && t.entries[k].inflight == 0)
      && t.disk.data.Keys == t.disk.maps.Keys == t.entries.Keys
      && (forall k :: k in t.entries ==> t.disk.data[k] == s.disk.data[k] && t.disk.maps[k] == s.disk.maps[k])
      && t.fills == map[] && t.writers == map[]
  {
    hide EntriesOk, FillsOk, WritersOk, TasksOk, Trusted, BlocksFor;
    InvShape(env, s);
    forall k | k in s.entries
      ensures |s.disk.maps[k]| == env.Blocks(k) && |s.disk.data[k]| >= |env.version(k)|
    {
      assert FileOk(env, k, s.entries[k], s.disk.data[k], s.disk.maps[k]);
    }
  }

  /** The operation neither drops nor recreates the files of `vid`. */
  predicate Spares(op: DiskOp, vid: string) {
    op.Pwrite? || op.SetBit? || op.vid != vid
  }

  lemma {:induction false} SparedFiles(d: Disk, ops: seq<DiskOp>, vid: string)
    requires vid in d.data && vid in d.maps && forall i :: 0 <= i < |ops| ==> Spares(ops[i], vid)
    ensures var e := DoAll(d, ops);
      vid in e.data && vid in e.maps && |e.data[vid]| >= |d.data[vid]| && Subset(d.maps[vid], e.maps[vid])
    decreases |ops|
  {
    if |ops| > 0 {
      SparedFiles(Do(d, ops[0]), ops[1..], vid);
    }
  }

  lemma {:induction false} DropOpsSpare(vids: seq<string>, vid: string)
    requires vid !in vids
    ensures forall i :: 0 <= i < |DropOps(vids)| ==> Spares(DropOps(vids)[i], vid)
  {
    if |vids| > 0 {
      DropOpsSpare(vids[1..], vid);
    }
  }

  lemma {:induction false} BitOpsSpare(vid: string, blocks: seq<nat>, other: string)
    ensures forall i :: 0 <= i < |BitOps(vid, blocks)| ==> Spares(BitOps(vid, blocks)[i], other)
  {
    if |blocks| > 0 {
      BitOpsSpare(vid, blocks[1..], other);
    }
  }

  /** A step that keeps an entry keeps its files. */
  lemma OpsSpare(env: Env, s: State, a: Action, vid: string)
    requires Inv(env, s) && Enabled(env, s, a) && vid in s.entries
    requires Live(Next(env, s, a).entries, vid, s.entries[vid].inc)
    ensures forall i :: 0 <= i < |Ops(env, s, a)| ==> Spares(Ops(env, s, a)[i], vid)
  {
    hide FillsOk, WritersOk, TasksOk, FilesOk, EntriesOk, Fits, Candidates, BlocksFor, DoAll, MarkOps, FillMask;
    hide WriterMask;
    match a
    case Admit(_, _, _, _, _, _) => AdmitSpares(env, s, a, vid);
    case Drop(vids) => DropOpsSpare(vids, vid);
    case Claim(_, v, _, _, victims) =>
      KeptIsNoVictim(s.entries, v, victims);
      DropOpsSpare(victims, vid);
    case FillFail(t) => DropOpsSpare([s.fills[t].vid], vid);
    case WriterFail(w) => DropOpsSpare([s.writers[w].vid], vid);
    case WriterClose(w) =>
      if Discards(env, s.writers[w]) {
        DropOpsSpare([s.writers[w].vid], vid);
      }
    case FillLand(t, _, bits) =>
      MarksSpare(env, s, s.fills[t].vid, FillMask(env, s.fills[t]), bits, vid);
    case WriterResume(w, bits) =>
      MarksSpare(env, s, s.writers[w].vid, WriterMask(env, s.writers[w]), bits, vid);
    case _ =>
  }

  lemma AdmitSpares(env: Env, s: State, a: Action, vid: string)
    requires Inv(env, s) && Enabled(env, s, a) && a.Admit? && vid in s.entries
    requires Live(Next(env, s, a).entries, vid, s.entries[vid].inc)
    ensures forall i :: 0 <= i < |Ops(env, s, a)| ==> Spares(Ops(env, s, a)[i], vid)
  {
    hide FillsOk, WritersOk, TasksOk, FilesOk, WithinBudget, Fits, Candidates, BlocksFor, DoAll;
    assert a.vid != vid;
    DropOpsSpare(if a.vid in s.entries then [a.vid] + a.victims else a.victims, vid);
  }

  lemma MarksSpare(env: Env, s: State, vid: string, mask: seq<bool>, bits: nat, other: string)
    ensures forall i :: 0 <= i < |MarkOps(env, s, vid, mask, bits)| ==>
              Spares(MarkOps(env, s, vid, mask, bits)[i], other)
  {
    if vid in s.entries && |s.entries[vid].present| == |mask| {
      BitOpsSpare(vid, Take(Changed(s.entries[vid].present, mask, |mask|), bits), other);
    }
  }

  /** A crash during a step costs no entry but those the step drops: every other one the index has as not
      being written comes back, with every mark its map file had. */
  lemma CrashSparesOthers(env: Env, s: State, a: Action, k: nat, index: map<string, IndexRow>, vid: string)
    requires Inv(env, s) && Enabled(env, s, a) && k <= |Ops(env, s, a)| && vid in s.entries
    requires Live(Next(env, s, a).entries, vid, s.entries[vid].inc) && vid in index && !index[vid].writing
    ensures var t := Reload(env, index, DoAll(s.disk, Ops(env, s, a)[..k])).entries;
      vid in t && vid in s.disk.maps && Subset(s.disk.maps[vid], t[vid].present)
  {
    hide Ops, DoAll, Next, Enabled, Trusted, BlocksFor, EntriesOk, FillsOk, WritersOk, TasksOk;
    InvShape(env, s);
    OpsSpare(env, s, a, vid);
    assert FileOk(env, vid, s.entries[vid], s.disk.data[vid], s.disk.maps[vid]);
    SparedFiles(s.disk, Ops(env, s, a)[..k], vid);
  }

  lemma InvShape(env: Env, s: State)
    requires Inv(env, s)
    ensures Shaped(env, s.entries)
    ensures forall k :: k in s.entries ==>
              |s.entries[k].present| == env.Blocks(k) && s.entries[k].size == |env.version(k)|
  {
  }

  lemma SafeNow(env: Env, s: State, a: Action)
    requires Inv(env, s) && Enabled(env, s, a)
    ensures Safe(env, Charging(env, s, a), s.disk)
  {
    hide Ops, DoAll, EntriesOk, FillsOk, WritersOk, TasksOk, FilesOk, Trusted, Fits, BlocksFor, Mul;
    FilesSafe(env, s);
    if a.FillLand? || a.WriterResume? {
      forall k | k in s.entries
        ensures k in Next(env, s, a).entries && Subset(s.entries[k].present, Next(env, s, a).entries[k].present)
      {
        PresentStays(env, s, a, k);
      }
    }
  }

  lemma FilesSafe(env: Env, s: State)
    requires env.bs > 0 && FilesOk(env, s)
    ensures Safe(env, s.entries, s.disk)
  {
    forall k | k in s.disk.maps && k in s.disk.data
      ensures Trusted(env.version(k), env.bs, s.disk.maps[k], s.disk.data[k])
    {
      assert FileOk(env, k, s.entries[k], s.disk.data[k], s.disk.maps[k]);
      assert forall x: nat :: Marked(s.disk.maps[k], env.bs, x) ==> Marked(s.entries[k].present, env.bs, x);
    }
  }
}
