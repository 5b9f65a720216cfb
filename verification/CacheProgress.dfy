/** What the local cache is for (`core/local_cache.py`): what was staged or filled is there afterwards, byte for
    byte, also after a restart; and the charge of an entry is a number of bytes. */
module CacheProgress {
  import opened Arith
  import opened Bytes
  import opened Sums
  import opened CacheBlocks
  import opened CacheEviction
  import opened CacheMachine
  import opened CacheBudget
  import opened CacheContents
  import opened CacheRecovery

  // -- bytes behind the charge --------------------------------------------------------------------------

  /** The bytes of the version that lie in marked blocks before block `k`. */
  ghost function BytesIn(size: nat, bs: nat, marks: seq<bool>, k: nat): set<nat>
    requires bs > 0
  {
    set x: nat | 0 <= x < size && x / bs < k && x / bs < |marks| && marks[x / bs]
  }

  lemma {:induction false} IntervalSize(a: nat, b: nat, s: set<nat>)
    requires a <= b && forall x :: x in s <==> a <= x < b
    ensures |s| == b - a
    decreases b
  {
    if a == b {
      assert s == {};
    } else {
      IntervalSize(a, b - 1, s - {b - 1});
    }
  }

  /** The weight of marked blocks is the number of bytes in them. */
  lemma {:induction false} WeightCountsBytes(size: nat, bs: nat, marks: seq<bool>, k: nat)
    requires bs > 0 && |marks| == BlocksFor(size, bs) && k <= |marks|
    ensures Weight(size, bs, marks, k) == |BytesIn(size, bs, marks, k)|
    decreases k
  {
    hide BlocksFor, BlockLength, BytesIn;
    if k == 0 {
      NoBytesIn(size, bs, marks);
    } else {
      WeightCountsBytes(size, bs, marks, k - 1);
      var block := NextBytes(size, bs, marks, k - 1);
    }
  }

  lemma NoBytesIn(size: nat, bs: nat, marks: seq<bool>)
    requires bs > 0
    ensures BytesIn(size, bs, marks, 0) == {}
  {
  }

  /** Block `i` adds its own bytes if it is marked. */
  lemma NextBytes(size: nat, bs: nat, marks: seq<bool>, i: nat) returns (block: set<nat>)
    requires bs > 0 && |marks| == BlocksFor(size, bs) && i < |marks|
    ensures |BytesIn(size, bs, marks, i + 1)|
         == |BytesIn(size, bs, marks, i)| + if marks[i] then BlockLength(size, bs, i) else 0
  {
    hide BlocksFor, BlockLength;
    var before, now := BytesIn(size, bs, marks, i), BytesIn(size, bs, marks, i + 1);
    block := now - before;
    assert before <= now;
    JoinedSize(before, block, now);
    forall x: nat
      ensures x in block <==> x < size && x / bs == i && marks[i]
    {
    }
    if marks[i] {
      BlockBytes(size, bs, i, block);
    } else {
      assert block == {};
    }
  }

  lemma JoinedSize(a: set<nat>, b: set<nat>, c: set<nat>)
    requires a <= c && b == c - a
    ensures |c| == |a| + |b|
  {
    assert c == a + b;
  }

  lemma BlockBytes(size: nat, bs: nat, i: nat, block: set<nat>)
    requires bs > 0 && i < BlocksFor(size, bs) && forall x: nat :: x in block <==> x < size && x / bs == i
    ensures |block| == BlockLength(size, bs, i)
  {
    BlocksForBounds(size, bs);
    MulIsProduct(i, bs);
    var n := BlocksFor(size, bs);
    var a, b := Mul(i, bs), Mul(i, bs) + BlockLength(size, bs, i);
    if i < n - 1 {
      MulMono(i + 1, n - 1, bs);
    }
    forall x: nat
      ensures x in block <==> a <= x < b
    {
      BlockOfBefore(x, i, bs);
      BlockOfBefore(x, i + 1, bs);
    }
    IntervalSize(a, b, block);
  }

  /** An entry is charged the bytes of its present blocks and of the fills under way, or its whole size while it
      is being staged. */
  lemma ChargedIsBytes(e: Entry)
    requires e.Valid()
    ensures e.Charged() == if e.writing then e.size
                           else |set x: nat | 0 <= x < e.size && ByteOnDisk(e, x)| + e.inflight
  {
    WeightCountsBytes(e.size, e.bs, e.present, |e.present|);
    assert (set x: nat | 0 <= x < e.size && ByteOnDisk(e, x)) == BytesIn(e.size, e.bs, e.present, |e.present|);
  }

  lemma PresentAtMost(e: Entry)
    requires e.Valid()
    ensures |set x: nat | 0 <= x < e.size && ByteOnDisk(e, x)| <= e.size
  {
    var whole := seq(|e.present|, _ => true);
    WeightCountsBytes(e.size, e.bs, e.present, |e.present|);
    WeightMono(e.size, e.bs, e.present, whole, |whole|);
    WeightFull(e.size, e.bs, whole, |whole|);
    assert (set x: nat | 0 <= x < e.size && ByteOnDisk(e, x)) == BytesIn(e.size, e.bs, e.present, |e.present|);
  }

  /** Over every run the bytes in present blocks of all entries together are within the budget. */
  lemma BytesWithinBudget(env: Env, actions: seq<Action>)
    requires env.bs > 0 && Run(env, EMPTY_CACHE, actions) && env.cfg.maxSize > 0
    ensures var m := After(env, EMPTY_CACHE, actions).entries;
      SumMap(map k | k in m && m[k].bs > 0 :: |set x: nat | 0 <= x < m[k].size && ByteOnDisk(m[k], x)|)
      <= env.cfg.maxSize
  {
    hide Run, After, Entry.Charged;
    ReachableAgrees(env, actions);
    var m := After(env, EMPTY_CACHE, actions).entries;
    var present := map k | k in m && m[k].bs > 0 :: |set x: nat | 0 <= x < m[k].size && ByteOnDisk(m[k], x)|;
    forall k | k in present
      ensures k in Charges(m) && present[k] <= Charges(m)[k]
    {
      ChargedIsBytes(m[k]);
      PresentAtMost(m[k]);
    }
    SumMono(present, Charges(m));
  }

  // -- marks that reach the disk --------------------------------------------------------------------------

  lemma {:induction false} BitsSet(d: Disk, vid: string, blocks: seq<nat>, i: nat)
    requires vid in d.maps && i < |d.maps[vid]|
    ensures var e := DoAll(d, BitOps(vid, blocks));
      && e.data == d.data && vid in e.maps && |e.maps[vid]| == |d.maps[vid]|
      && (e.maps[vid][i] <==> d.maps[vid][i] || i in blocks)
    decreases |blocks|
  {
    if |blocks| > 0 {
      var ops := BitOps(vid, blocks);
      assert ops[0] == SetBit(vid, blocks[0]) && ops[1..] == BitOps(vid, blocks[1..]);
      BitsSet(Do(d, ops[0]), vid, blocks[1..], i);
      assert blocks == [blocks[0]] + blocks[1..];
    }
  }

  lemma {:induction false} ChangedAre(present: seq<bool>, mask: seq<bool>, k: nat, i: nat)
    requires |present| == |mask| && k <= |mask|
    ensures i in Changed(present, mask, k) <==> i < k && mask[i] && !present[i]
    ensures |Changed(present, mask, k)| <= k
    decreases k
  {
    if k > 0 {
      ChangedAre(present, mask, k - 1, i);
    }
  }

  /** With every write to the map file done, it has the marks memory has. */
  lemma MarksReachDisk(env: Env, s: State, vid: string, mask: seq<bool>, bits: nat)
    requires vid in s.entries && |s.entries[vid].present| == |mask| <= bits
    requires vid in s.disk.maps && s.disk.maps[vid] == s.entries[vid].present
    ensures var d := DoAll(s.disk, MarkOps(env, s, vid, mask, bits));
      d.data == s.disk.data && vid in d.maps && d.maps[vid] == Or(s.entries[vid].present, mask)
  {
    var present := s.entries[vid].present;
    var blocks := Changed(present, mask, |mask|);
    ChangedAre(present, mask, |mask|, 0);
    assert blocks[..|blocks|] == blocks;
    assert MarkOps(env, s, vid, mask, bits) == BitOps(vid, blocks);
    var d := DoAll(s.disk, BitOps(vid, blocks));
    if |mask| == 0 {
      assert blocks == [];
    } else {
      BitsSet(s.disk, vid, blocks, 0);
      forall i | 0 <= i < |mask|
        ensures d.maps[vid][i] == Or(present, mask)[i]
      {
        ChangedAre(present, mask, |mask|, i);
        BitsSet(s.disk, vid, blocks, i);
      }
    }
  }

  // -- a staging --------------------------------------------------------------------------------------------

  /** A staging that goes well stands at byte `o`: its marks are those of the whole blocks before it, in memory
      and in the map file. */
  ghost predicate Staged(env: Env, s: State, vid: string, w: nat, inc: nat, o: nat)
    requires env.bs > 0
  {
    && w in s.writers && s.writers[w] == Writer(vid, inc, o, false, false)
    && vid in s.entries && s.entries[vid].inc == inc && s.entries[vid].present == WriterMask(env, s.writers[w])
    && vid in s.disk.maps && s.disk.maps[vid] == s.entries[vid].present
  }

  lemma AdmitStages(env: Env, s: State, vid: string, w: nat, victims: seq<string>, now: int)
    requires Inv(env, s) && Enabled(env, s, Admit(vid, true, w, victims, now, true)) && |env.version(vid)| > 0
    ensures var n := Next(env, s, Admit(vid, true, w, victims, now, true));
      Inv(env, n) && Staged(env, n, vid, w, s.nextInc, 0)
  {
    hide EntriesOk, FillsOk, WritersOk, TasksOk, FilesOk, DoAll, Fits, Candidates, BlocksFor, DropOps;
    var a := Admit(vid, true, w, victims, now, true);
    StepKeepsInv(env, s, a);
    FilesKeys(env, s);
    var vids := if vid in s.entries then [vid] + victims else victims;
    DropAll(env, s.entries, s.disk, vids);
    FreshFiles(env, s, vid, vids);
    assert Ops(env, s, a) == DropOps(vids) + AdmitTail(env, vid, true);
    DivOfZero(env.bs);
  }

  lemma DivOfZero(bs: nat)
    requires bs > 0
    ensures 0 / bs == 0
  {
  }

  lemma FreshFiles(env: Env, s: State, vid: string, vids: seq<string>)
    requires env.bs > 0 && s.disk.data.Keys == s.disk.maps.Keys == s.entries.Keys && (vid in s.entries ==> vid in vids)
    ensures DoAll(s.disk, DropOps(vids) + AdmitTail(env, vid, true)).maps
         == (s.disk.maps - Keys(vids))[vid := seq(env.Blocks(vid), _ => false)]
  {
    hide DoAll, DropOps, BlocksFor;
    DropAll(env, s.entries, s.disk, vids);
    DoAllConcat(s.disk, DropOps(vids), AdmitTail(env, vid, true));
    assert vid in vids ==> vid in Keys(vids);
    AdmitOps(env, s.entries, DoAll(s.disk, DropOps(vids)), vid, true);
  }

  lemma MaskGrows(env: Env, w: Writer, n: nat)
    requires env.bs > 0
    ensures Or(WriterMask(env, w), WriterMask(env, w.(offset := w.offset + n, behind := true)))
         == WriterMask(env, w.(offset := w.offset + n))
  {
    hide BlocksFor;
    DivMono(w.offset, w.offset + n, env.bs);
    assert w.offset < |env.version(w.vid)| || w.offset + n >= |env.version(w.vid)|;
    DoneBlocks(env, w.vid, w.offset);
  }

  /** The whole blocks before any offset are blocks of the version. */
  lemma DoneBlocks(env: Env, vid: string, o: nat)
    requires env.bs > 0
    ensures o < |env.version(vid)| ==> o / env.bs <= env.Blocks(vid)
  {
    if o < |env.version(vid)| {
      BlockOfBounds(o, |env.version(vid)|, env.bs);
    }
  }

  /** The next write and its marks take a staging on. */
  lemma WriteStages(env: Env, s: State, vid: string, w: nat, inc: nat, o: nat, n: nat, bits: nat)
    requires Inv(env, s) && Staged(env, s, vid, w, inc, o) && 0 < n <= |env.version(vid)| - o && bits >= env.Blocks(vid)
    ensures Enabled(env, s, WriterWrite(w, n, true))
    ensures var written := Next(env, s, WriterWrite(w, n, true));
      && Enabled(env, written, WriterResume(w, bits))
      && Inv(env, Next(env, written, WriterResume(w, bits)))
      && Staged(env, Next(env, written, WriterResume(w, bits)), vid, w, inc, o + n)
  {
    hide EntriesOk, FillsOk, WritersOk, TasksOk, FilesOk, DoAll, BlocksFor, WriterMask, MarkOps, Range;
    InvShape(env, s);
    StepKeepsInv(env, s, WriterWrite(w, n, true));
    var written := Next(env, s, WriterWrite(w, n, true));
    OneOp(env, s.entries, s.disk, Ops(env, s, WriterWrite(w, n, true))[0]);
    assert written.entries == s.entries && written.disk.maps == s.disk.maps;
    StepKeepsInv(env, written, WriterResume(w, bits));
    MaskGrows(env, s.writers[w], n);
    MaskLength(env, written.writers[w]);
    MarksReachDisk(env, written, vid, WriterMask(env, written.writers[w]), bits);
  }

  lemma MaskLength(env: Env, w: Writer)
    requires env.bs > 0
    ensures |WriterMask(env, w)| == env.Blocks(w.vid)
    ensures WriterMask(env, w) == WriterMask(env, w.(behind := false))
  {
    hide BlocksFor;
  }

  /** The writes of a staging, each seen by the event loop before the next. */
  function Writes(w: nat, ns: seq<nat>, bits: nat): seq<Action> {
    if |ns| == 0 then []
    else Writes(w, ns[..|ns| - 1], bits) + [WriterWrite(w, ns[|ns| - 1], true), WriterResume(w, bits)]
  }

  lemma {:induction false} WritesStage(env: Env, s: State, vid: string, w: nat, inc: nat, ns: seq<nat>, bits: nat)
    requires env.bs > 0 && Inv(env, s) && Staged(env, s, vid, w, inc, 0) && bits >= env.Blocks(vid)
    requires Sum(ns) <= |env.version(vid)| && forall i :: 0 <= i < |ns| ==> ns[i] > 0
    ensures Run(env, s, Writes(w, ns, bits))
    ensures var t := After(env, s, Writes(w, ns, bits)); Inv(env, t) && Staged(env, t, vid, w, inc, Sum(ns))
    decreases |ns|
  {
    hide Inv, Staged, Next, Enabled;
    if |ns| > 0 {
      var init, n := ns[..|ns| - 1], ns[|ns| - 1];
      WritesStage(env, s, vid, w, inc, init, bits);
      var t := After(env, s, Writes(w, init, bits));
      WriteStages(env, t, vid, w, inc, Sum(init), n, bits);
      var one, two := WriterWrite(w, n, true), WriterResume(w, bits);
      RunTwo(env, s, Writes(w, init, bits), one, two);
    }
  }

  lemma {:induction false} RunTwo(env: Env, s: State, actions: seq<Action>, a: Action, b: Action)
    requires env.bs > 0 && Run(env, s, actions)
    requires var t := After(env, s, actions); Enabled(env, t, a) && Enabled(env, Next(env, t, a), b)
    ensures Run(env, s, actions + [a, b])
    ensures After(env, s, actions + [a, b]) == Next(env, Next(env, After(env, s, actions), a), b)
    decreases |actions|
  {
    hide Enabled, Next;
    if |actions| == 0 {
      assert actions + [a, b] == [a, b];
      assert [a, b][1..] == [b] && [b][1..] == [];
      assert Run(env, Next(env, Next(env, s, a), b), []) && Run(env, Next(env, s, a), [b]);
      assert After(env, Next(env, s, a), [b]) == Next(env, Next(env, s, a), b);
    } else {
      RunTwo(env, Next(env, s, actions[0]), actions[1..], a, b);
      assert (actions + [a, b])[1..] == actions[1..] + [a, b];
    }
  }

  /** A version staged whole is cached: once it is opened, written in pieces of any sizes that add up to it, and
      closed, its entry is complete and readable, its data file is the version, and a restart brings it
      back. */
  lemma StagingIsKept(env: Env, s: State, vid: string, w: nat, victims: seq<string>, now: int, ns: seq<nat>, bits: nat)
    requires env.bs > 0 && bits >= env.Blocks(vid)
    requires Inv(env, s) && Enabled(env, s, Admit(vid, true, w, victims, now, true))
    requires Sum(ns) == |env.version(vid)| > 0 && forall i :: 0 <= i < |ns| ==> ns[i] > 0
    ensures var open := Next(env, s, Admit(vid, true, w, victims, now, true));
      && Run(env, open, Writes(w, ns, bits))
      && var staged := After(env, open, Writes(w, ns, bits));
      && Enabled(env, staged, WriterClose(w))
      && var t := Next(env, staged, WriterClose(w));
      && Kept(env, t, vid)
      && forall index :: IndexOf(t.entries, index) ==> Kept(env, Reload(env, index, t.disk), vid)
  {
    hide Inv, Staged, Next, Enabled, Run, After, Writes, Kept, Reload, IndexOf, BlocksFor;
    AdmitStages(env, s, vid, w, victims, now);
    var open := Next(env, s, Admit(vid, true, w, victims, now, true));
    WritesStage(env, open, vid, w, s.nextInc, ns, bits);
    var staged := After(env, open, Writes(w, ns, bits));
    CloseKeeps(env, staged, vid, w, s.nextInc);
    var t := Next(env, staged, WriterClose(w));
    StepKeepsInv(env, staged, WriterClose(w));
    forall index | IndexOf(t.entries, index)
      ensures Kept(env, Reload(env, index, t.disk), vid)
    {
      RestartKeeps(env, t, index, vid);
    }
  }

  /** The cache holds all of the version, for readers and on disk. */
  ghost predicate Kept(env: Env, s: State, vid: string) {
    && vid in s.entries && s.entries[vid].size == |env.version(vid)|
    && s.entries[vid].Complete() && !s.entries[vid].writing
    && vid in s.disk.data && |s.disk.data[vid]| >= |env.version(vid)|
    && s.disk.data[vid][..|env.version(vid)|] == env.version(vid)
    && vid in s.disk.maps && s.disk.maps[vid] == s.entries[vid].present
  }

  lemma CloseKeeps(env: Env, s: State, vid: string, w: nat, inc: nat)
    requires Inv(env, s) && Staged(env, s, vid, w, inc, |env.version(vid)|) && |env.version(vid)| > 0
    ensures Enabled(env, s, WriterClose(w)) && Kept(env, Next(env, s, WriterClose(w)), vid)
  {
    hide Next, EntriesOk, FillsOk, FilesOk, TasksOk, BlocksFor;
    InvShape(env, s);
    CloseIsExact(env, s, w);
    ClosedIsKeptIffWhole(env, s, w);
    FilesKeys(env, s);
    WrittenWhole(env, s, w);
  }

  lemma WrittenWhole(env: Env, s: State, w: nat)
    requires Inv(env, s) && w in s.writers && s.Live(s.writers[w].vid, s.writers[w].inc)
    requires s.writers[w].offset == |env.version(s.writers[w].vid)|
    ensures var vid := s.writers[w].vid;
      && vid in s.disk.data && |s.disk.data[vid]| >= |env.version(vid)|
      && s.disk.data[vid][..|env.version(vid)|] == env.version(vid)
  {
    hide MemInv;
    assert WriterRight(env, s, s.writers[w]);
  }

  lemma RestartKeeps(env: Env, s: State, index: map<string, IndexRow>, vid: string)
    requires Inv(env, s) && IndexOf(s.entries, index) && Kept(env, s, vid)
    ensures Kept(env, Reload(env, index, s.disk), vid)
  {
    hide Inv, Reload;
    CleanRestart(env, s, index);
  }

  // -- a fill -------------------------------------------------------------------------------------------------

  /** What a fill has made of its entry: exactly the whole blocks of its stretch are marked besides those that
      were, the claim is given back, nothing else about the entry changed but its age. */
  ghost predicate Marks(env: Env, was: Entry, now: Entry, first: nat, end: nat)
    requires env.bs > 0
  {
    && now == was.(present := now.present, lastAccess := now.lastAccess) && |now.present| == |was.present|
    && forall i :: 0 <= i < |was.present| ==>
         (now.present[i] <==> was.present[i] || Covered(env.bs, i, first, end, was.size))
  }

  /** Block `i` lies in the bytes from block `first` on up to `end`, as a whole or as the end of the version. */
  predicate Covered(bs: nat, i: nat, first: nat, end: nat, size: nat) {
    Mul(first, bs) <= Mul(i, bs) && (Mul(i + 1, bs) <= end || end == size)
  }

  /** The blocks of a fill are the whole ones of its stretch. */
  lemma FillBlocks(env: Env, f: Fill, i: nat)
    requires env.bs > 0 && f.end <= |env.version(f.vid)| && i < env.Blocks(f.vid)
    requires f.last == (if f.end >= |env.version(f.vid)| then env.Blocks(f.vid) else f.end / env.bs)
    ensures FillMask(env, f)[i] <==> Covered(env.bs, i, f.first, f.end, |env.version(f.vid)|)
  {
    hide BlocksFor;
    if f.first <= i {
      MulMono(f.first, i, env.bs);
    } else {
      MulMono(i + 1, f.first, env.bs);
    }
    if f.end < |env.version(f.vid)| {
      DivMod(f.end, env.bs);
      if i < f.last {
        MulMono(i + 1, f.last, env.bs);
      } else {
        MulMono(f.last + 1, i + 1, env.bs);
      }
    }
  }

  /** A block fill that goes well is cached: once its room is claimed, its bytes written and landed, the entry has
      exactly the whole blocks of the stretch besides what it had, they are charged where their claim
      was, the data file holds the version's bytes there, and no other entry lost anything to it but
      the victims. */
  lemma FillIsKept(env: Env, s: State, t: nat, vid: string, first: nat, end: nat, victims: seq<string>, now: int,
                   bits: nat)
    requires env.bs > 0 && Inv(env, s) && Enabled(env, s, Claim(t, vid, first, end, victims))
    ensures var claimed := Next(env, s, Claim(t, vid, first, end, victims));
      && Enabled(env, claimed, FillWrite(t))
      && var written := Next(env, claimed, FillWrite(t));
      && Enabled(env, written, FillLand(t, now, bits))
      && var landed := Next(env, written, FillLand(t, now, bits));
      && vid in landed.entries && Marks(env, s.entries[vid], landed.entries[vid], first, end)
      && vid in landed.disk.data && Holds(landed.disk.data[vid], env.version(vid), Mul(first, env.bs), end)
      && landed.entries == (s.entries - Keys(victims))[vid := landed.entries[vid]] && landed.fills == s.fills
  {
    hide Inv, Next, Enabled, Marks, Holds;
    var claimed := Next(env, s, Claim(t, vid, first, end, victims));
    var f := Claims(env, s, t, vid, first, end, victims);
    var written := Next(env, claimed, FillWrite(t));
    WritesFill(env, claimed, t, f);
    Lands(env, written, t, f.(written := true), now, bits, s.entries[vid]);
    assert Next(env, written, FillLand(t, now, bits)).fills == s.fills by {
      assert (s.fills[t := f])[t := f.(written := true)] - {t} == s.fills by {
        ClaimIsNew(env, s, t, vid, first, end, victims);
      }
    }
  }

  lemma ClaimIsNew(env: Env, s: State, t: nat, vid: string, first: nat, end: nat, victims: seq<string>)
    requires Enabled(env, s, Claim(t, vid, first, end, victims))
    ensures t !in s.fills
  {
  }

  /** The claim: the room for exactly the missing bytes is on the entry's account. */
  lemma Claims(env: Env, s: State, t: nat, vid: string, first: nat, end: nat, victims: seq<string>) returns (f: Fill)
    requires env.bs > 0 && Inv(env, s) && Enabled(env, s, Claim(t, vid, first, end, victims))
    ensures vid in s.entries && !s.entries[vid].writing && s.entries[vid].size == |env.version(vid)|
    ensures |s.entries[vid].present| == env.Blocks(vid)
    ensures f == Fill(vid, s.entries[vid].inc, first, f.last, end, f.added, false) && end <= |env.version(vid)|
    ensures f.last == if end >= |env.version(vid)| then env.Blocks(vid) else end / env.bs
    ensures var n := Next(env, s, Claim(t, vid, first, end, victims));
      && Inv(env, n) && n.fills == s.fills[t := f] && vid in (s.entries - Keys(victims))
      && n.entries == (s.entries - Keys(victims))[vid := s.entries[vid].(inflight := s.entries[vid].inflight + f.added)]
  {
    hide EntriesOk, FillsOk, WritersOk, TasksOk, FilesOk, DoAll, BlocksFor, Ops, Fits, Candidates, Missing;
    InvShape(env, s);
    KeptIsNoVictim(s.entries, vid, victims);
    f := NewFill(env, s, vid, first, end);
    StepKeepsInv(env, s, Claim(t, vid, first, end, victims));
  }

  lemma WritesFill(env: Env, s: State, t: nat, f: Fill)
    requires env.bs > 0 && Inv(env, s) && t in s.fills && s.fills[t] == f && !f.written && s.Live(f.vid, f.inc)
    ensures Enabled(env, s, FillWrite(t))
    ensures var n := Next(env, s, FillWrite(t));
      Inv(env, n) && n.entries == s.entries && n.fills == s.fills[t := f.(written := true)]
  {
    hide EntriesOk, FillsOk, WritersOk, TasksOk, FilesOk, DoAll, BlocksFor, Ops;
    InvShape(env, s);
    FilesKeys(env, s);
    StepKeepsInv(env, s, FillWrite(t));
  }

  lemma Lands(env: Env, s: State, t: nat, f: Fill, now: int, bits: nat, was: Entry)
    requires env.bs > 0 && Inv(env, s) && t in s.fills && s.fills[t] == f && f.written && s.Live(f.vid, f.inc)
    requires f.end <= |env.version(f.vid)| && was.size == |env.version(f.vid)| && |was.present| == env.Blocks(f.vid)
    requires f.last == if f.end >= |env.version(f.vid)| then env.Blocks(f.vid) else f.end / env.bs
    requires s.entries[f.vid] == was.(inflight := was.inflight + f.added)
    ensures Enabled(env, s, FillLand(t, now, bits))
    ensures var n := Next(env, s, FillLand(t, now, bits));
      && f.vid in n.entries && Marks(env, was, n.entries[f.vid], f.first, f.end)
      && n.entries == s.entries[f.vid := n.entries[f.vid]] && n.fills == s.fills - {t}
      && f.vid in n.disk.data && Holds(n.disk.data[f.vid], env.version(f.vid), Mul(f.first, env.bs), f.end)
  {
    hide EntriesOk, FillsOk, WritersOk, TasksOk, FilesOk, DoAll, BlocksFor, Ops, Holds, FillMask;
    InvShape(env, s);
    FillOnDisk(env, s, t);
    LandKeepsData(env, s, t, now, bits);
    MaskOf(env, f);
    var e := Next(env, s, FillLand(t, now, bits)).entries[f.vid];
    assert e == was.(present := Or(was.present, FillMask(env, f)), lastAccess := now);
    LandedMarks(env, was, e, f);
  }

  lemma LandedMarks(env: Env, was: Entry, now: Entry, f: Fill)
    requires env.bs > 0 && f.end <= |env.version(f.vid)| == was.size && |was.present| == env.Blocks(f.vid)
    requires f.last == if f.end >= |env.version(f.vid)| then env.Blocks(f.vid) else f.end / env.bs
    requires |FillMask(env, f)| == |was.present|
    requires now == was.(present := Or(was.present, FillMask(env, f)), lastAccess := now.lastAccess)
    ensures Marks(env, was, now, f.first, f.end)
  {
    hide BlocksFor, FillMask, Covered;
    forall i | 0 <= i < |was.present|
      ensures now.present[i] <==> was.present[i] || Covered(env.bs, i, f.first, f.end, was.size)
    {
      FillBlocks(env, f, i);
    }
  }

  lemma MaskOf(env: Env, f: Fill)
    requires env.bs > 0
    ensures |FillMask(env, f)| == env.Blocks(f.vid)
  {
  }

  lemma FillOnDisk(env: Env, s: State, t: nat)
    requires Inv(env, s) && t in s.fills && s.fills[t].written && s.Live(s.fills[t].vid, s.fills[t].inc)
    ensures s.fills[t].vid in s.disk.data
    ensures Holds(s.disk.data[s.fills[t].vid], env.version(s.fills[t].vid), Mul(s.fills[t].first, env.bs),
                  s.fills[t].end)
  {
    hide MemInv;
    assert FillRight(env, s, s.fills[t]);
  }

  /** Marking blocks does not touch the data. */
  lemma LandKeepsData(env: Env, s: State, t: nat, now: int, bits: nat)
    requires env.bs > 0
    ensures Next(env, s, FillLand(t, now, bits)).disk.data == s.disk.data
  {
    if t in s.fills {
      MarkKeepsData(env, s, s.fills[t].vid, FillMask(env, s.fills[t]), bits);
    }
  }

  lemma MarkKeepsData(env: Env, s: State, vid: string, mask: seq<bool>, bits: nat)
    ensures DoAll(s.disk, MarkOps(env, s, vid, mask, bits)).data == s.disk.data && DoAll(s.disk, []) == s.disk
  {
    if vid in s.entries && |s.entries[vid].present| == |mask| {
      BitsKeepData(s.disk, vid, Take(Changed(s.entries[vid].present, mask, |mask|), bits));
    }
  }

  lemma {:induction false} BitsKeepData(d: Disk, vid: string, blocks: seq<nat>)
    ensures DoAll(d, BitOps(vid, blocks)).data == d.data
    decreases |blocks|
  {
    if |blocks| > 0 {
      var ops := BitOps(vid, blocks);
      assert ops[0] == SetBit(vid, blocks[0]) && ops[1..] == BitOps(vid, blocks[1..]);
      BitsKeepData(Do(d, ops[0]), vid, blocks[1..]);
    }
  }

  // -- failures -----------------------------------------------------------------------------------------------

  /** A write that fails takes its entry with it: whatever the cache holds under that id, and both files, are gone,
      and nothing else is touched. */
  lemma FailureDrops(env: Env, s: State, a: Action)
    requires Inv(env, s) && Enabled(env, s, a) && (a.FillFail? || a.WriterFail?)
    ensures var vid, n := if a.FillFail? then s.fills[a.t].vid else s.writers[a.w].vid, Next(env, s, a);
      n.entries == s.entries - {vid} && n.disk == Disk(s.disk.data - {vid}, s.disk.maps - {vid})
    ensures a.FillFail? ==> Next(env, s, a).fills == s.fills - {a.t}
    ensures a.WriterFail? ==> Next(env, s, a).writers == s.writers[a.w := s.writers[a.w].(failed := true)]
  {
    hide TasksOk, EntriesOk, FillsOk, WritersOk, FilesOk, DoAll, DropOps;
    var vid := if a.FillFail? then s.fills[a.t].vid else s.writers[a.w].vid;
    assert Keys([vid]) == {vid};
    NoOps(env, s.entries, s.disk);
    DropAll(env, s.entries, s.disk, [vid]);
    FilesKeys(env, s);
    if vid !in s.entries {
      assert s.entries - {vid} == s.entries;
      assert s.disk.data - {vid} == s.disk.data && s.disk.maps - {vid} == s.disk.maps;
    }
  }
}
