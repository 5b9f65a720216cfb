/** The local cache agrees with the versions it caches: in every reachable state, and after a
    crash at any disk operation followed by `load`. */
module CacheContents {
  import opened Arith
  import opened Bytes
  import opened CacheBlocks
  import opened CacheEviction
  import opened CacheMachine
  import opened CacheBudget

  /** File `d` holds bytes `[lo, hi)` of `v`. */
  predicate Holds(d: bytes, v: bytes, lo: nat, hi: nat) {
    hi <= |d| && hi <= |v| && forall x :: lo <= x < hi ==> d[x] == v[x]
  }

  /** Every byte of a marked block is that byte of the version. */
  ghost predicate Trusted(v: bytes, bs: nat, marks: seq<bool>, d: bytes)
    requires bs > 0
  {
    forall x: nat :: x < |v| && Marked(marks, bs, x) ==> x < |d| && d[x] == v[x]
  }

  predicate Marked(marks: seq<bool>, bs: nat, x: nat)
    requires bs > 0
  {
    BlockOf(x, bs) < |marks| && marks[BlockOf(x, bs)]
  }

  predicate Subset(a: seq<bool>, b: seq<bool>) {
    |a| == |b| && forall i :: 0 <= i < |a| && a[i] ==> b[i]
  }

  /** One entry and its two files. */
  ghost predicate FileOk(env: Env, k: string, e: Entry, data: bytes, marks: seq<bool>)
    requires env.bs > 0
  {
    |data| >= |env.version(k)| && Trusted(env.version(k), env.bs, e.present, data) && Subset(marks, e.present)
  }

  ghost predicate FilesOk(env: Env, s: State)
    requires env.bs > 0
  {
    && s.disk.data.Keys == s.entries.Keys && s.disk.maps.Keys == s.entries.Keys
    && forall k :: k in s.entries ==> FileOk(env, k, s.entries[k], s.disk.data[k], s.disk.maps[k])
  }

  /** The bytes a landed but unmarked fill of a live entry has put on disk. */
  ghost predicate FillRight(env: Env, s: State, f: Fill) {
    f.written && Live(s.entries, f.vid, f.inc) && f.vid in s.disk.data ==>
      Holds(s.disk.data[f.vid], env.version(f.vid), Mul(f.first, env.bs), f.end)
  }

  ghost predicate WriterRight(env: Env, s: State, w: Writer) {
    Live(s.entries, w.vid, w.inc) && w.vid in s.disk.data ==> Holds(s.disk.data[w.vid], env.version(w.vid), 0, w.offset)
  }

  ghost predicate TasksOk(env: Env, s: State) {
    && (forall t :: t in s.fills ==> FillRight(env, s, s.fills[t]))
    && (forall w :: w in s.writers ==> WriterRight(env, s, s.writers[w]))
  }

  ghost predicate Inv(env: Env, s: State) {
    MemInv(env, s) && FilesOk(env, s) && TasksOk(env, s)
  }

  // Writing.

  /** Writing version bytes never spoils a byte that was already right. */
  lemma OverlayKeeps(d: bytes, v: bytes, off: nat, end: nat)
    requires off < end <= |v|
    ensures var r := Overlay(d, off, v[off..end]);
            |r| >= |d| && Holds(r, v, off, end) && forall x :: 0 <= x < |d| && x < |v| && d[x] == v[x] ==> r[x] == v[x]
  {
  }

  /** A version write at `vid` leaves everything that was right about the files right. */
  lemma PwriteKeeps(env: Env, s: State, vid: string, off: nat, end: nat)
    requires env.bs > 0 && FilesOk(env, s) && TasksOk(env, s) && off < end <= |env.version(vid)|
    ensures var n := s.(disk := Do(s.disk, Pwrite(vid, off, env.version(vid)[off..end])));
            && FilesOk(env, n) && TasksOk(env, n)
            && (vid in n.disk.data ==> Holds(n.disk.data[vid], env.version(vid), off, end))
            && (forall lo: nat, hi: nat ::
                  vid in s.disk.data && Holds(s.disk.data[vid], env.version(vid), lo, hi) ==>
                    Holds(n.disk.data[vid], env.version(vid), lo, hi))
  {
    var v := env.version(vid);
    if vid in s.disk.data {
      var d := s.disk.data[vid];
      var r := Overlay(d, off, v[off..end]);
      OverlayKeeps(d, v, off, end);
      assert FileOk(env, vid, s.entries[vid], d, s.disk.maps[vid]);
      assert FileOk(env, vid, s.entries[vid], r, s.disk.maps[vid]);
      assert forall lo: nat, hi: nat :: Holds(d, v, lo, hi) ==> Holds(r, v, lo, hi);
    }
  }

  // Marking.

  /** Blocks whose bytes are on disk may be marked. */
  lemma MarkTrusted(env: Env, vid: string, marks: seq<bool>, mask: seq<bool>, d: bytes, lo: nat, hi: nat)
    requires env.bs > 0 && |marks| == |mask| && Trusted(env.version(vid), env.bs, marks, d)
    requires Holds(d, env.version(vid), lo, hi)
    requires forall x: nat :: x < |env.version(vid)| && Marked(mask, env.bs, x) ==> lo <= x < hi
    ensures Trusted(env.version(vid), env.bs, Or(marks, mask), d)
  {
    forall x: nat | x < |env.version(vid)| && Marked(Or(marks, mask), env.bs, x)
      ensures x < |d| && d[x] == env.version(vid)[x]
    {
      assert Marked(marks, env.bs, x) || Marked(mask, env.bs, x);
    }
  }

  /** The blocks a fill marks are exactly blocks it wrote whole. */
  lemma FillMaskBytes(env: Env, f: Fill, x: nat)
    requires env.bs > 0 && x < |env.version(f.vid)| && Marked(FillMask(env, f), env.bs, x)
    requires f.last == (if f.end >= |env.version(f.vid)| then env.Blocks(f.vid) else f.end / env.bs)
    ensures Mul(f.first, env.bs) <= x < f.end
  {
    BlockOfBefore(x, f.first, env.bs);
    if f.end < |env.version(f.vid)| {
      BlockOfBefore(x, f.last, env.bs);
      DivMod(f.end, env.bs);
    }
  }

  lemma WriterMaskBytes(env: Env, w: Writer, x: nat)
    requires env.bs > 0 && x < |env.version(w.vid)| && Marked(WriterMask(env, w), env.bs, x)
    ensures x < w.offset
  {
    if w.offset < |env.version(w.vid)| {
      BlockOfBefore(x, w.offset / env.bs, env.bs);
      DivMod(w.offset, env.bs);
    }
  }

  // Disk operations that are safe to crash between.

  /** What `load` may rely on: marked blocks are right, and nothing is marked that memory
      (`m`) does not charge. */
  ghost predicate Safe(env: Env, m: Entries, d: Disk)
    requires env.bs > 0
  {
    && (forall k :: k in d.maps && k in d.data ==> Trusted(env.version(k), env.bs, d.maps[k], d.data[k]))
    && (forall k, i :: k in d.maps && 0 <= i < |d.maps[k]| && d.maps[k][i] ==>
        k in m && i < |m[k].present| && m[k].present[i])
  }

  ghost predicate OpSafe(env: Env, m: Entries, d: Disk, op: DiskOp)
    requires env.bs > 0
  {
    match op
    case DropData(_) => true
    case DropMap(_) => true
    case CreateData(vid, _) => vid !in d.maps
    case CreateMap(_, _) => true
    case Pwrite(vid, off, b) => b != [] && off + |b| <= |env.version(vid)| && b == env.version(vid)[off..off + |b|]
    case SetBit(vid, block) =>
      && vid in m && block < |m[vid].present| && m[vid].present[block]
      && vid in d.data && Trusted(env.version(vid), env.bs, m[vid].present, d.data[vid])
  }

  lemma OpKeepsSafe(env: Env, m: Entries, d: Disk, op: DiskOp)
    requires env.bs > 0 && Safe(env, m, d) && OpSafe(env, m, d, op)
    ensures Safe(env, m, Do(d, op))
  {
    match op
    case Pwrite(vid, off, b) =>
      if vid in d.data {
        OverlayKeeps(d.data[vid], env.version(vid), off, off + |b|);
      }
    case SetBit(vid, block) =>
      if vid in d.maps && block < |d.maps[vid]| {
        var marks := d.maps[vid][block := true];
        forall x: nat | x < |env.version(vid)| && Marked(marks, env.bs, x)
          ensures x < |d.data[vid]| && d.data[vid][x] == env.version(vid)[x]
        {
          assert Marked(d.maps[vid], env.bs, x) || Marked(m[vid].present, env.bs, x);
        }
      }
    case _ =>
  }

  ghost predicate OpsSafe(env: Env, m: Entries, d: Disk, ops: seq<DiskOp>)
    requires env.bs > 0
    decreases |ops|
  {
    |ops| == 0 || (OpSafe(env, m, d, ops[0]) && OpsSafe(env, m, Do(d, ops[0]), ops[1..]))
  }

  /** A crash between any two operations of a safe sequence leaves a safe disk. */
  lemma {:induction false} PrefixSafe(env: Env, m: Entries, d: Disk, ops: seq<DiskOp>, k: nat)
    requires env.bs > 0 && Safe(env, m, d) && OpsSafe(env, m, d, ops) && k <= |ops|
    ensures Safe(env, m, DoAll(d, ops[..k]))
    decreases k
  {
    if k > 0 {
      OpKeepsSafe(env, m, d, ops[0]);
      PrefixSafe(env, m, Do(d, ops[0]), ops[1..], k - 1);
      assert ops[..k][1..] == ops[1..][..k - 1];
    }
  }

  lemma {:induction false} DoAllConcat(d: Disk, a: seq<DiskOp>, b: seq<DiskOp>)
    ensures DoAll(d, a + b) == DoAll(DoAll(d, a), b)
    decreases |a|
  {
    if |a| == 0 {
      assert a + b == b;
    } else {
      DoAllConcat(Do(d, a[0]), a[1..], b);
      assert (a + b)[1..] == a[1..] + b;
    }
  }

  lemma {:induction false} OpsSafeConcat(env: Env, m: Entries, d: Disk, a: seq<DiskOp>, b: seq<DiskOp>)
    requires env.bs > 0 && OpsSafe(env, m, d, a) && OpsSafe(env, m, DoAll(d, a), b)
    ensures OpsSafe(env, m, d, a + b)
    decreases |a|
  {
    if |a| == 0 {
      assert a + b == b;
    } else {
      OpsSafeConcat(env, m, Do(d, a[0]), a[1..], b);
      assert (a + b)[1..] == a[1..] + b;
    }
  }

  /** Dropping entries removes both files of each, and may be interrupted anywhere. */
  lemma {:induction false} DropAll(env: Env, m: Entries, d: Disk, vids: seq<string>)
    requires env.bs > 0
    ensures DoAll(d, DropOps(vids)) == Disk(d.data - Keys(vids), d.maps - Keys(vids))
    ensures OpsSafe(env, m, d, DropOps(vids))
    decreases |vids|
  {
    if |vids| == 0 {
      assert d.data - Keys(vids) == d.data && d.maps - Keys(vids) == d.maps;
    } else {
      var one := Do(Do(d, DropData(vids[0])), DropMap(vids[0]));
      DropAll(env, m, one, vids[1..]);
      var ops := DropOps(vids);
      assert ops[1..][1..] == DropOps(vids[1..]) && ops[1..][0] == DropMap(vids[0]);
      assert Keys(vids) == {vids[0]} + Keys(vids[1..]);
      assert one.data - Keys(vids[1..]) == d.data - Keys(vids) && one.maps - Keys(vids[1..]) == d.maps - Keys(vids);
    }
  }

  /** Setting bits touches one map file only, and only those bits. */
  lemma {:induction false} SetAll(env: Env, m: Entries, d: Disk, vid: string, blocks: seq<nat>)
    requires env.bs > 0 && vid in m && vid in d.data && Trusted(env.version(vid), env.bs, m[vid].present, d.data[vid])
    requires forall i :: 0 <= i < |blocks| ==> blocks[i] < |m[vid].present| && m[vid].present[blocks[i]]
    requires vid in d.maps && Subset(d.maps[vid], m[vid].present)
    ensures OpsSafe(env, m, d, BitOps(vid, blocks))
    ensures var n := DoAll(d, BitOps(vid, blocks));
            n.data == d.data && n.maps.Keys == d.maps.Keys && Subset(n.maps[vid], m[vid].present) &&
            forall k :: k in d.maps && k != vid ==> n.maps[k] == d.maps[k]
    decreases |blocks|
  {
    if |blocks| > 0 {
      var ops := BitOps(vid, blocks);
      assert ops[0] == SetBit(vid, blocks[0]) && ops[1..] == BitOps(vid, blocks[1..]);
      SetAll(env, m, Do(d, ops[0]), vid, blocks[1..]);
    }
  }

  // Every step.

  lemma ForgetFiles(env: Env, s: State, n: State, vids: seq<string>)
    requires env.bs > 0 && FilesOk(env, s) && TasksOk(env, s)
    requires n.entries == s.entries - Keys(vids) && n.disk == DoAll(s.disk, DropOps(vids))
    requires forall t :: t in n.fills ==> (t in s.fills && n.fills[t] == s.fills[t]) || !n.fills[t].written
    requires forall w :: w in n.writers ==>
              w in s.writers && n.writers[w].(failed := false) == s.writers[w].(failed := false)
    ensures FilesOk(env, n) && TasksOk(env, n)
  {
    DropAll(env, s.entries, s.disk, vids);
  }

  /** Pins, access times and claims are not on disk. */
  lemma SameFiles(env: Env, s: State, n: State)
    requires env.bs > 0 && FilesOk(env, s) && TasksOk(env, s) && n.disk == s.disk && n.entries.Keys == s.entries.Keys
    requires forall k :: k in s.entries ==>
              n.entries[k].present == s.entries[k].present && n.entries[k].inc == s.entries[k].inc
    requires forall t :: t in n.fills ==> (t in s.fills && n.fills[t] == s.fills[t]) || !n.fills[t].written
    requires forall w :: w in n.writers ==> w in s.writers && n.writers[w] == s.writers[w]
    ensures FilesOk(env, n) && TasksOk(env, n)
  {
    forall k | k in n.entries
      ensures FileOk(env, k, n.entries[k], n.disk.data[k], n.disk.maps[k])
    {
      assert FileOk(env, k, s.entries[k], s.disk.data[k], s.disk.maps[k]);
    }
  }

  lemma AdmitFiles(env: Env, s: State, a: Action)
    requires Inv(env, s) && Enabled(env, s, a) && a.Admit?
    ensures FilesOk(env, Next(env, s, a)) && TasksOk(env, Next(env, s, a))
    ensures OpsSafe(env, s.entries, s.disk, Ops(env, s, a))
  {
    hide Mul, EntriesOk, Fits, BlocksFor, DoAll, DropOps, FilesOk, TasksOk, FillsOk, WritersOk, Candidates, OpsSafe;
    var vids := if a.vid in s.entries then [a.vid] + a.victims else a.victims;
    assert s.entries - Keys(vids) == s.entries - {a.vid} - Keys(a.victims);
    var drops, tail := DropOps(vids), AdmitTail(env, a.vid, a.created);
    var k := s.(entries := s.entries - Keys(vids), disk := DoAll(s.disk, drops));
    DropAll(env, s.entries, s.disk, vids);
    ForgetFiles(env, s, k, vids);
    FilesKeys(env, k);
    AdmitOps(env, s.entries, k.disk, a.vid, a.created);
    assert Ops(env, s, a) == drops + tail;
    DoAllConcat(s.disk, drops, tail);
    OpsSafeConcat(env, s.entries, s.disk, drops, tail);
    if a.created {
      ForgetKeeps(env, s, Keys(vids));
      MemInvIgnoresDisk(env, s.(entries := k.entries), k);
      AdmitFresh(env, k, Next(env, s, a), a.vid, a.staging, a.w, a.now);
    }
  }

  function AdmitTail(env: Env, vid: string, created: bool): seq<DiskOp>
    requires env.bs > 0
  {
    [CreateData(vid, |env.version(vid)|), CreateMap(vid, env.Blocks(vid))]
    + (if created then [] else [DropData(vid), DropMap(vid)])
  }

  lemma AdmitOps(env: Env, m: Entries, d: Disk, vid: string, created: bool)
    requires env.bs > 0 && vid !in d.maps && vid !in d.data
    ensures OpsSafe(env, m, d, AdmitTail(env, vid, created))
    ensures DoAll(d, AdmitTail(env, vid, created)) == if created
              then Disk(d.data[vid := seq(|env.version(vid)|, _ => 0)],
                        d.maps[vid := seq(env.Blocks(vid), _ => false)]) else d
  {
    hide BlocksFor;
    var ops := AdmitTail(env, vid, created);
    var one := Do(d, ops[0]);
    var two := Do(one, ops[1]);
    var rest := if created then [] else DropOps([vid]);
    assert ops == [ops[0], ops[1]] + rest by {
      assert created || DropOps([vid]) == [DropData(vid), DropMap(vid)] + DropOps([vid][1..]);
    }
    TwoOps(env, m, d, ops[0], ops[1], rest);
    if !created {
      DropAll(env, m, two, [vid]);
      assert Keys([vid]) == {vid};
      assert two.data - {vid} == d.data && two.maps - {vid} == d.maps;
    }
  }

  lemma TwoOps(env: Env, m: Entries, d: Disk, a: DiskOp, b: DiskOp, rest: seq<DiskOp>)
    requires env.bs > 0
    ensures DoAll(d, [a, b] + rest) == DoAll(Do(Do(d, a), b), rest)
    ensures OpsSafe(env, m, d, [a, b] + rest)
       <==> OpSafe(env, m, d, a) && OpSafe(env, m, Do(d, a), b) && OpsSafe(env, m, Do(Do(d, a), b), rest)
  {
    var ops := [a, b] + rest;
    assert ops[1..] == [b] + rest && ops[1..][1..] == rest;
  }

  lemma OneOp(env: Env, m: Entries, d: Disk, op: DiskOp)
    requires env.bs > 0
    ensures DoAll(d, [op]) == Do(d, op) && (OpsSafe(env, m, d, [op]) <==> OpSafe(env, m, d, op))
  {
    assert [op][1..] == [];
  }

  lemma FreshTrusted(env: Env, vid: string, d: bytes)
    requires env.bs > 0
    ensures Trusted(env.version(vid), env.bs, Mask(env.Blocks(vid), 0, 0), d)
    ensures Holds(d, env.version(vid), 0, 0)
  {
  }

  lemma AdmitFresh(env: Env, k: State, n: State, vid: string, staging: bool, w: nat, now: int)
    requires env.bs > 0 && MemInv(env, k) && FilesOk(env, k) && TasksOk(env, k) && vid !in k.entries && w !in k.writers
    requires n.entries == k.entries[vid := Fresh(env, vid, staging, now, k.nextInc)] && n.fills == k.fills
    requires n.writers == if staging then k.writers[w := Writer(vid, k.nextInc, 0, false, false)] else k.writers
    requires n.disk == Disk(k.disk.data[vid := seq(|env.version(vid)|, _ => 0)],
                            k.disk.maps[vid := seq(env.Blocks(vid), _ => false)])
    ensures FilesOk(env, n) && TasksOk(env, n)
  {
    hide MemInv, FilesOk, TasksOk, BlocksFor;
    var e := Fresh(env, vid, staging, now, k.nextInc);
    FreshSubset(env, vid, staging, now, k.nextInc);
    FreshTrusted(env, vid, n.disk.data[vid]);
    AdmitFreshFiles(env, k, n, vid, e);
    AdmitFreshTasks(env, k, n, vid, w);
  }

  lemma AdmitFreshFiles(env: Env, k: State, n: State, vid: string, e: Entry)
    requires env.bs > 0 && FilesOk(env, k) && n.entries == k.entries[vid := e]
    requires n.disk == Disk(k.disk.data[vid := seq(|env.version(vid)|, _ => 0)],
                            k.disk.maps[vid := seq(env.Blocks(vid), _ => false)])
    requires Trusted(env.version(vid), env.bs, e.present, n.disk.data[vid]) && Subset(n.disk.maps[vid], e.present)
    ensures FilesOk(env, n)
  {
    hide BlocksFor, Trusted, Subset;
    forall j | j in n.entries
      ensures FileOk(env, j, n.entries[j], n.disk.data[j], n.disk.maps[j])
    {
      assert j != vid ==> FileOk(env, j, k.entries[j], k.disk.data[j], k.disk.maps[j]);
    }
  }

  lemma FreshSubset(env: Env, vid: string, staging: bool, now: int, inc: nat)
    requires env.bs > 0
    ensures Subset(seq(env.Blocks(vid), _ => false), Fresh(env, vid, staging, now, inc).present)
  {
    hide BlocksFor;
  }

  lemma AdmitFreshTasks(env: Env, k: State, n: State, vid: string, w: nat)
    requires MemInv(env, k) && TasksOk(env, k) && vid !in k.entries && vid in n.entries
              && n.entries[vid].inc == k.nextInc
    requires n.entries == k.entries[vid := n.entries[vid]] && n.fills == k.fills
    requires forall v :: v in n.writers ==> (v in k.writers && n.writers[v] == k.writers[v]) || n.writers[v].offset == 0
    requires forall j :: j != vid && j in n.disk.data ==> j in k.disk.data && n.disk.data[j] == k.disk.data[j]
    ensures TasksOk(env, n)
  {
    hide WithinBudget, Missing, BlocksFor, Mul, Claimed;
    forall t | t in n.fills
      ensures FillRight(env, n, n.fills[t])
    {
      assert FillRight(env, k, k.fills[t]) && FillOk(env, k.entries, k.nextInc, k.fills[t]);
    }
    forall v | v in n.writers
      ensures WriterRight(env, n, n.writers[v])
    {
      assert v in k.writers ==> WriterRight(env, k, k.writers[v]) && WriterOk(env, k.entries, k.nextInc, k.writers[v]);
    }
  }

  /** Marks on a live entry whose bytes are on disk. */
  lemma MarkFiles(env: Env, s: State, n: State, vid: string, e: Entry, mask: seq<bool>, bits: nat, lo: nat, hi: nat)
    requires env.bs > 0 && FilesOk(env, s) && TasksOk(env, s) && vid in s.entries
    requires |mask| == |s.entries[vid].present| && e.present == Or(s.entries[vid].present, mask)
              && e.inc == s.entries[vid].inc
    requires Holds(s.disk.data[vid], env.version(vid), lo, hi)
    requires forall x: nat :: x < |env.version(vid)| && Marked(mask, env.bs, x) ==> lo <= x < hi
    requires n.entries == s.entries[vid := e] && n.disk == DoAll(s.disk, MarkOps(env, s, vid, mask, bits))
    requires forall t :: t in n.fills ==> t in s.fills && n.fills[t] == s.fills[t]
    requires forall w :: w in n.writers ==>
              w in s.writers && n.writers[w].(behind := false) == s.writers[w].(behind := false)
    ensures FilesOk(env, n) && TasksOk(env, n)
    ensures OpsSafe(env, n.entries, s.disk, MarkOps(env, s, vid, mask, bits))
  {
    var was := s.entries[vid];
    assert FileOk(env, vid, was, s.disk.data[vid], s.disk.maps[vid]);
    MarkTrusted(env, vid, was.present, mask, s.disk.data[vid], lo, hi);
    var blocks := Take(Changed(was.present, mask, |mask|), bits);
    assert forall i :: 0 <= i < |blocks| ==> blocks[i] < |mask| && mask[blocks[i]];
    SetAll(env, n.entries, s.disk, vid, blocks);
    MarkedFilesOk(env, s, n, vid);
  }

  lemma MarkedFilesOk(env: Env, s: State, n: State, vid: string)
    requires env.bs > 0 && FilesOk(env, s) && TasksOk(env, s) && vid in s.entries && vid in n.entries
    requires n.entries == s.entries[vid := n.entries[vid]] && n.entries[vid].inc == s.entries[vid].inc
    requires n.disk.data == s.disk.data && n.disk.maps.Keys == s.disk.maps.Keys
    requires forall k :: k in s.disk.maps && k != vid ==> n.disk.maps[k] == s.disk.maps[k]
    requires FileOk(env, vid, n.entries[vid], n.disk.data[vid], n.disk.maps[vid])
    requires forall t :: t in n.fills ==> t in s.fills && n.fills[t] == s.fills[t]
    requires forall w :: w in n.writers ==>
              w in s.writers && n.writers[w].(behind := false) == s.writers[w].(behind := false)
    ensures FilesOk(env, n) && TasksOk(env, n)
  {
    hide FileOk, Holds, Mul;
  }

  lemma LandFiles(env: Env, s: State, a: Action)
    requires Inv(env, s) && Enabled(env, s, a) && a.FillLand?
    ensures FilesOk(env, Next(env, s, a)) && TasksOk(env, Next(env, s, a))
    ensures OpsSafe(env, Next(env, s, a).entries, s.disk, Ops(env, s, a))
  {
    hide Mul, WithinBudget, BlocksFor, FilesOk, MarkOps, WritersOk, Holds;
    var f, n := s.fills[a.t], Next(env, s, a);
    assert FillOk(env, s.entries, s.nextInc, f);
    if Live(s.entries, f.vid, f.inc) {
      assert f.vid in s.disk.data by {
        FilesKeys(env, s);
      }
      forall x: nat | x < |env.version(f.vid)| && Marked(FillMask(env, f), env.bs, x)
        ensures Mul(f.first, env.bs) <= x < f.end
      {
        FillMaskBytes(env, f, x);
      }
      MarkFiles(env, s, n, f.vid, n.entries[f.vid], FillMask(env, f), a.bits, Mul(f.first, env.bs), f.end);
    } else {
      SameFiles(env, s, n);
    }
  }

  lemma FilesKeys(env: Env, s: State)
    requires env.bs > 0 && FilesOk(env, s)
    ensures s.disk.data.Keys == s.entries.Keys == s.disk.maps.Keys
  {
  }

  lemma ResumeFiles(env: Env, s: State, a: Action)
    requires Inv(env, s) && Enabled(env, s, a) && a.WriterResume?
    ensures FilesOk(env, Next(env, s, a)) && TasksOk(env, Next(env, s, a))
    ensures OpsSafe(env, Next(env, s, a).entries, s.disk, Ops(env, s, a))
  {
    hide Mul, WithinBudget, BlocksFor, FilesOk, MarkOps, FillsOk, Holds, Claimed;
    var w, n := s.writers[a.w], Next(env, s, a);
    assert WriterOk(env, s.entries, s.nextInc, w);
    FilesKeys(env, s);
    if Live(s.entries, w.vid, w.inc) {
      forall x: nat | x < |env.version(w.vid)| && Marked(WriterMask(env, w), env.bs, x)
        ensures 0 <= x < w.offset
      {
        WriterMaskBytes(env, w, x);
      }
      MarkFiles(env, s, n, w.vid, n.entries[w.vid], WriterMask(env, w), a.bits, 0, w.offset);
    } else {
      MarkedNothing(env, s, n);
    }
  }

  lemma MarkedNothing(env: Env, s: State, n: State)
    requires env.bs > 0 && FilesOk(env, s) && TasksOk(env, s)
    requires n.entries == s.entries && n.disk == s.disk && n.fills == s.fills
    requires forall w :: w in n.writers ==>
              w in s.writers && n.writers[w].(behind := false) == s.writers[w].(behind := false)
    ensures FilesOk(env, n) && TasksOk(env, n)
  {
  }

  lemma FillWriteFiles(env: Env, s: State, a: Action)
    requires Inv(env, s) && Enabled(env, s, a) && a.FillWrite?
    ensures FilesOk(env, Next(env, s, a)) && TasksOk(env, Next(env, s, a))
    ensures OpsSafe(env, s.entries, s.disk, Ops(env, s, a))
  {
    hide WithinBudget, BlocksFor, Missing, FilesOk, Do, Mul, WritersOk, Range;
    var f := s.fills[a.t];
    assert FillOk(env, s.entries, s.nextInc, f);
    FillRange(env, f);
    var op := Pwrite(f.vid, Mul(f.first, env.bs), FillBytes(env, f));
    OneOp(env, s.entries, s.disk, op);
    PwriteKeeps(env, s, f.vid, Mul(f.first, env.bs), f.end);
    TasksChange(env, s.(disk := Do(s.disk, op)), Next(env, s, a));
  }

  lemma WriterWriteFiles(env: Env, s: State, a: Action)
    requires Inv(env, s) && Enabled(env, s, a) && a.WriterWrite?
    ensures FilesOk(env, Next(env, s, a)) && TasksOk(env, Next(env, s, a))
    ensures OpsSafe(env, s.entries, s.disk, Ops(env, s, a))
  {
    hide MemInv, BlocksFor, FilesOk, TasksOk, FillRight, Do, Holds, Range;
    var w := s.writers[a.w];
    if a.hits {
      var data := Range(env.version(w.vid), w.offset, w.offset + a.n - 1);
      var op := Pwrite(w.vid, w.offset, data);
      OneOp(env, s.entries, s.disk, op);
      WriterHits(env, s, a.w, a.n, data);
      TasksChange(env, s.(disk := Do(s.disk, op)), Next(env, s, a));
    } else {
      NoOps(env, s.entries, s.disk);
      TasksChange(env, s, Next(env, s, a));
    }
  }

  /** A writer's next bytes are on disk. */
  lemma WriterHits(env: Env, s: State, w: nat, n: nat, data: bytes)
    requires Inv(env, s) && w in s.writers && 0 < n <= |env.version(s.writers[w].vid)| - s.writers[w].offset
    requires data == Range(env.version(s.writers[w].vid), s.writers[w].offset, s.writers[w].offset + n - 1)
    ensures var x, op := s.writers[w], Pwrite(s.writers[w].vid, s.writers[w].offset, data);
      var m := s.(disk := Do(s.disk, op));
      && OpSafe(env, s.entries, s.disk, op) && FilesOk(env, m) && TasksOk(env, m)
      && WriterRight(env, m, x.(offset := x.offset + n, behind := true))
  {
    hide WithinBudget, BlocksFor, Missing, FilesOk, Do, Mul, FillsOk;
    var x := s.writers[w];
    PwriteKeeps(env, s, x.vid, x.offset, x.offset + n);
    FilesKeys(env, s);
    FilesKeys(env, s.(disk := Do(s.disk, Pwrite(x.vid, x.offset, data))));
    assert WriterRight(env, s, x);
  }

  /** Tasks that moved on, each still right about the disk. */
  lemma TasksChange(env: Env, s: State, n: State)
    requires env.bs > 0 && FilesOk(env, s) && TasksOk(env, s) && n.entries == s.entries && n.disk == s.disk
    requires forall t :: t in n.fills ==> (t in s.fills && n.fills[t] == s.fills[t]) || FillRight(env, s, n.fills[t])
    requires forall w :: w in n.writers ==>
              (w in s.writers && n.writers[w] == s.writers[w]) || WriterRight(env, s, n.writers[w])
    ensures FilesOk(env, n) && TasksOk(env, n)
  {
    hide Holds, FileOk, Mul;
  }

  lemma FillRange(env: Env, f: Fill)
    requires env.bs > 0 && f.end <= |env.version(f.vid)| && f.first < f.last
    requires f.last == (if f.end >= |env.version(f.vid)| then env.Blocks(f.vid) else f.end / env.bs)
    ensures Mul(f.first, env.bs) < f.end && FillBytes(env, f) == env.version(f.vid)[Mul(f.first, env.bs)..f.end]
  {
    BlocksForBounds(|env.version(f.vid)|, env.bs);
    DivMod(f.end, env.bs);
    if f.end >= |env.version(f.vid)| {
      MulMono(f.first, env.Blocks(f.vid) - 1, env.bs);
    } else {
      MulMono(f.first + 1, f.last, env.bs);
    }
  }

  lemma DropFiles(env: Env, s: State, a: Action)
    requires Inv(env, s) && Enabled(env, s, a)
              && (a.Drop? || a.FillFail? || a.WriterFail? || a.WriterClose? || a.Claim?)
    ensures FilesOk(env, Next(env, s, a)) && TasksOk(env, Next(env, s, a))
    ensures OpsSafe(env, s.entries, s.disk, Ops(env, s, a))
  {
    hide MemInv, WithinBudget, Fits, FilesOk, TasksOk, DoAll, NewFill, OpsSafe, DropOps;
    var n := Next(env, s, a);
    match a {
      case Drop(vids) =>
        DropAll(env, s.entries, s.disk, vids);
        ForgetFiles(env, s, n, vids);
      case Claim(_, _, _, _, _) => ClaimFiles(env, s, a);
      case FillFail(t) => ForgetOne(env, s, n, s.fills[t].vid);
      case WriterFail(w) => ForgetOne(env, s, n, s.writers[w].vid);
      case WriterClose(w) =>
        if Discards(env, s.writers[w]) {
          ForgetOne(env, s, n, s.writers[w].vid);
        } else {
          NoOps(env, s.entries, s.disk);
          SameFiles(env, s, n);
        }
    }
  }

  lemma ClaimFiles(env: Env, s: State, a: Action)
    requires Inv(env, s) && Enabled(env, s, a) && a.Claim?
    ensures FilesOk(env, Next(env, s, a)) && TasksOk(env, Next(env, s, a))
    ensures OpsSafe(env, s.entries, s.disk, Ops(env, s, a))
  {
    hide MemInv, WithinBudget, Fits, FilesOk, DoAll, NewFill, OpsSafe, DropOps;
    var n := Next(env, s, a);
    DropAll(env, s.entries, s.disk, a.victims);
    KeptIsNoVictim(s.entries, a.vid, a.victims);
    var k := s.(entries := s.entries - Keys(a.victims), disk := n.disk);
    ForgetFiles(env, s, k, a.victims);
    NewFillUnwritten(env, s, a.vid, a.first, a.end);
    SameFiles(env, k, n);
  }

  lemma NoOps(env: Env, m: Entries, d: Disk)
    requires env.bs > 0
    ensures DoAll(d, []) == d && OpsSafe(env, m, d, [])
  {
  }

  lemma NewFillUnwritten(env: Env, s: State, vid: string, first: nat, end: nat)
    requires env.bs > 0 && vid in s.entries && |s.entries[vid].present| == env.Blocks(vid)
    ensures !NewFill(env, s, vid, first, end).written
  {
  }

  /** `remove` of one id, a no-op when the cache does not know it. */
  lemma ForgetOne(env: Env, s: State, n: State, vid: string)
    requires env.bs > 0 && FilesOk(env, s) && TasksOk(env, s)
    requires n.entries == s.entries - Keys([vid])
    requires n.disk == DoAll(s.disk, if vid in s.entries then DropOps([vid]) else [])
    requires forall t :: t in n.fills ==> t in s.fills && n.fills[t] == s.fills[t]
    requires forall w :: w in n.writers ==>
              w in s.writers && n.writers[w].(failed := false) == s.writers[w].(failed := false)
    ensures FilesOk(env, n) && TasksOk(env, n)
    ensures OpsSafe(env, s.entries, s.disk, if vid in s.entries then DropOps([vid]) else [])
  {
    var vids := if vid in s.entries then [vid] else [];
    DropAll(env, s.entries, s.disk, [vid]);
    NoOps(env, s.entries, s.disk);
    assert n.entries == s.entries - Keys(vids);
    assert DropOps([]) == [];
    ForgetFiles(env, s, n, vids);
  }

  /** The entries a crash during `a` must not exceed: memory is ahead of the map files. */
  function Charging(env: Env, s: State, a: Action): Entries
    requires env.bs > 0
  {
    if a.FillLand? || a.WriterResume? then Next(env, s, a).entries else s.entries
  }

  /** Every step keeps the cache in agreement with the versions. */
  lemma StepKeepsInv(env: Env, s: State, a: Action)
    requires Inv(env, s) && Enabled(env, s, a)
    ensures Inv(env, Next(env, s, a)) && OpsSafe(env, Charging(env, s, a), s.disk, Ops(env, s, a))
  {
    hide MemInv, WithinBudget, Fits, FilesOk, TasksOk, DoAll, NewFill, OpsSafe;
    assert MemInv(env, Next(env, s, a)) by {
      StepKeepsBudget(env, s, a);
    }
    match a {
      case Admit(_, _, _, _, _, _) => AdmitFiles(env, s, a);
      case FillWrite(_) => FillWriteFiles(env, s, a);
      case WriterWrite(_, _, _) => WriterWriteFiles(env, s, a);
      case FillLand(_, _, _) => LandFiles(env, s, a);
      case WriterResume(_, _) => ResumeFiles(env, s, a);
      case SetPins(_, _) => NoOps(env, s.entries, s.disk); SameFiles(env, s, Next(env, s, a));
      case Touch(_, _) => NoOps(env, s.entries, s.disk); SameFiles(env, s, Next(env, s, a));
      case _ => DropFiles(env, s, a);
    }
  }

  /** In every reachable state each block marked present holds exactly the version's bytes, and
      both limits hold. */
  lemma {:induction false} RunKeepsInv(env: Env, s: State, actions: seq<Action>)
    requires Inv(env, s) && Run(env, s, actions)
    ensures Inv(env, After(env, s, actions))
    decreases |actions|
  {
    if |actions| > 0 {
      StepKeepsInv(env, s, actions[0]);
      RunKeepsInv(env, Next(env, s, actions[0]), actions[1..]);
    }
  }

  const EMPTY_CACHE := State(map[], map[], map[], 0, Disk(map[], map[]))

  lemma EmptyInv(env: Env)
    requires env.bs > 0
    ensures Inv(env, EMPTY_CACHE)
  {
    assert Used(EMPTY_CACHE.entries) == 0 by {
      assert Charges(EMPTY_CACHE.entries) == map[];
    }
  }

  /** Every state a cache reaches from an empty directory. */
  lemma ReachableAgrees(env: Env, actions: seq<Action>)
    requires env.bs > 0 && Run(env, EMPTY_CACHE, actions)
    ensures Inv(env, After(env, EMPTY_CACHE, actions))
  {
    hide Inv;
    EmptyInv(env);
    RunKeepsInv(env, EMPTY_CACHE, actions);
  }
}
