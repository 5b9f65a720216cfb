/** `tgdcfs/core/local_cache.py` as a step machine: one step is the code between two awaits.
    An entry's `inc` stands for the identity of the Python object, so a fill or a writer that
    outlives its entry is told apart from one whose entry is still in the cache. */
module CacheMachine {
  import opened Arith
  import opened Bytes
  import opened CacheBlocks
  import opened CacheEviction

  /** `version` gives the immutable bytes behind every version id. */
  datatype Env = Env(cfg: Config, bs: nat, version: string -> bytes) {
    function Blocks(vid: string): nat
      requires bs > 0
    {
      BlocksFor(|version(vid)|, bs)
    }
  }

  /** A `write_blocks` call between its claim and its landing: version bytes `[Mul(first, bs), end)`
      on their way to disk, of which blocks `[first, last)` will be marked. */
  datatype Fill = Fill(vid: string, inc: nat, first: nat, last: nat, end: nat, added: nat, written: bool)

  /** A `StagingWriter`; `behind` while bytes are on disk but not marked yet. */
  datatype Writer = Writer(vid: string, inc: nat, offset: nat, behind: bool, failed: bool)

  datatype Disk = Disk(data: map<string, bytes>, maps: map<string, seq<bool>>)

  datatype DiskOp =
    | DropData(vid: string)
    | DropMap(vid: string)
    | CreateData(vid: string, size: nat)
    | CreateMap(vid: string, blocks: nat)
    | Pwrite(vid: string, offset: nat, bytes: bytes)
    | SetBit(vid: string, block: nat)

  datatype State = State(entries: Entries, fills: map<nat, Fill>, writers: map<nat, Writer>, nextInc: nat, disk: Disk) {
    predicate Live(vid: string, inc: nat) { vid in entries && entries[vid].inc == inc }
  }

  datatype Action =
    /** `open_staging` (a writer named `w`) or `reserve`, after `_make_room` chose its victims. */
    | Admit(vid: string, staging: bool, w: nat, victims: seq<string>, now: int, created: bool)
    /** Anything that only forgets entries: `remove`, eviction, refusals, `sweep`. */
    | Drop(vids: seq<string>)
    | Claim(t: nat, vid: string, first: nat, end: nat, victims: seq<string>)
    | FillWrite(t: nat)
    | FillLand(t: nat, now: int, bits: nat)
    | FillFail(t: nat)
    /** `hits` is false when the descriptor of a stale writer points at an unlinked file. */
    | WriterWrite(w: nat, n: nat, hits: bool)
    | WriterResume(w: nat, bits: nat)
    | WriterFail(w: nat)
    | WriterClose(w: nat)
    | SetPins(vid: string, pins: nat)
    | Touch(vid: string, now: int)

  // The disk.

  function Do(d: Disk, op: DiskOp): Disk {
    match op
    case DropData(vid) => d.(data := d.data - {vid})
    case DropMap(vid) => d.(maps := d.maps - {vid})
    case CreateData(vid, size) => d.(data := d.data[vid := seq(size, _ => 0)])
    case CreateMap(vid, blocks) => d.(maps := d.maps[vid := seq(blocks, _ => false)])
    case Pwrite(vid, offset, bytes) =>
      if vid in d.data then d.(data := d.data[vid := Overlay(d.data[vid], offset, bytes)]) else d
    case SetBit(vid, block) =>
      if vid in d.maps && block < |d.maps[vid]| then d.(maps := d.maps[vid := d.maps[vid][block := true]]) else d
  }

  function DoAll(d: Disk, ops: seq<DiskOp>): Disk
    decreases |ops|
  {
    if |ops| == 0 then d else DoAll(Do(d, ops[0]), ops[1..])
  }

  function DropOps(vids: seq<string>): seq<DiskOp> {
    if |vids| == 0 then [] else [DropData(vids[0]), DropMap(vids[0])] + DropOps(vids[1..])
  }

  function BitOps(vid: string, blocks: seq<nat>): seq<DiskOp> {
    if |blocks| == 0 then [] else [SetBit(vid, blocks[0])] + BitOps(vid, blocks[1..])
  }

  /** The blocks of `mask` not yet present, in order: what `_mark_present` writes to the map file. */
  function Changed(present: seq<bool>, mask: seq<bool>, k: nat): (r: seq<nat>)
    requires |present| == |mask| && k <= |mask|
    ensures forall i :: 0 <= i < |r| ==> r[i] < k && mask[r[i]]
  {
    if k == 0 then []
    else
      var rest := Changed(present, mask, k - 1);
      if mask[k - 1] && !present[k - 1] then rest + [k - 1] else rest
  }

  function WriterMask(env: Env, w: Writer): seq<bool>
    requires env.bs > 0
  {
    var n := env.Blocks(w.vid);
    Mask(n, 0, if w.offset >= |env.version(w.vid)| then n else w.offset / env.bs)
  }

  function FillMask(env: Env, f: Fill): seq<bool>
    requires env.bs > 0
  {
    Mask(env.Blocks(f.vid), f.first, f.last)
  }

  /** The weight of the fill's blocks that `present` lacks. */
  function Missing(env: Env, f: Fill, present: seq<bool>): nat
    requires env.bs > 0 && |present| == env.Blocks(f.vid)
  {
    Weight(|env.version(f.vid)|, env.bs, AndNot(FillMask(env, f), present), |present|)
  }

  function NewFill(env: Env, s: State, vid: string, first: nat, end: nat): Fill
    requires env.bs > 0 && vid in s.entries && |s.entries[vid].present| == env.Blocks(vid)
  {
    var last := if end >= |env.version(vid)| then env.Blocks(vid) else end / env.bs;
    var f := Fill(vid, s.entries[vid].inc, first, last, end, 0, false);
    f.(added := Missing(env, f, s.entries[vid].present))
  }

  function FillBytes(env: Env, f: Fill): bytes {
    Range(env.version(f.vid), Mul(f.first, env.bs), f.end - 1)
  }

  // Steps.

  ghost predicate Shaped(env: Env, m: Entries) {
    && env.bs > 0 && AllValid(m)
    && forall k :: k in m ==> m[k].bs == env.bs && m[k].size == |env.version(k)|
  }

  ghost predicate Enabled(env: Env, s: State, a: Action) {
    Shaped(env, s.entries) &&
    match a
    case Admit(vid, staging, w, victims, now, created) =>
      var kept := s.entries - {vid};
      && w !in s.writers
      && Keys(victims) <= Candidates(kept, None)
      && Fits(env.cfg, kept - Keys(victims), if staging then |env.version(vid)| else 0, true)
    case Drop(vids) => Keys(vids) <= s.entries.Keys
    case Claim(t, vid, first, end, victims) =>
      && t !in s.fills && vid in s.entries && !s.entries[vid].writing
      && Mul(first, env.bs) < end <= |env.version(vid)|
      && (var f := NewFill(env, s, vid, first, end);
          && f.first < f.last
          && Keys(victims) <= Candidates(s.entries, Some(vid))
          && (if f.added == 0 then victims == [] else Fits(env.cfg, s.entries - Keys(victims), f.added, false)))
    case FillWrite(t) => t in s.fills && !s.fills[t].written && s.fills[t].vid in s.disk.data
    case FillLand(t, now, bits) => t in s.fills && s.fills[t].written
    case FillFail(t) => t in s.fills
    case WriterWrite(w, n, hits) =>
      && w in s.writers && !s.writers[w].failed && !s.writers[w].behind
      && 0 < n <= |env.version(s.writers[w].vid)| - s.writers[w].offset
      && (s.Live(s.writers[w].vid, s.writers[w].inc) ==> hits)
    case WriterResume(w, bits) => w in s.writers && s.writers[w].behind && !s.writers[w].failed
    case WriterFail(w) => w in s.writers && !s.writers[w].failed
    case WriterClose(w) => w in s.writers && !s.writers[w].behind
    case SetPins(vid, pins) => vid in s.entries
    case Touch(vid, now) => vid in s.entries
  }

  function Forget(s: State, vids: seq<string>): State {
    s.(entries := s.entries - Keys(vids))
  }

  /** The disk operations of a step, in order. */
  function Ops(env: Env, s: State, a: Action): seq<DiskOp>
    requires env.bs > 0
  {
    match a
    case Admit(vid, staging, w, victims, now, created) =>
      DropOps(if vid in s.entries then [vid] + victims else victims)
      + [CreateData(vid, |env.version(vid)|), CreateMap(vid, env.Blocks(vid))]
      + (if created then [] else [DropData(vid), DropMap(vid)])
    case Drop(vids) => DropOps(vids)
    case Claim(t, vid, first, end, victims) => DropOps(victims)
    case FillWrite(t) =>
      if t in s.fills then [Pwrite(s.fills[t].vid, Mul(s.fills[t].first, env.bs), FillBytes(env, s.fills[t]))] else []
    case FillLand(t, now, bits) =>
      if t in s.fills && s.Live(s.fills[t].vid, s.fills[t].inc)
      then MarkOps(env, s, s.fills[t].vid, FillMask(env, s.fills[t]), bits) else []
    case FillFail(t) => if t in s.fills && s.fills[t].vid in s.entries then DropOps([s.fills[t].vid]) else []
    case WriterWrite(w, n, hits) =>
      if w in s.writers && hits
      then [Pwrite(s.writers[w].vid, s.writers[w].offset,
                   Range(env.version(s.writers[w].vid), s.writers[w].offset, s.writers[w].offset + n - 1))]
      else []
    case WriterResume(w, bits) =>
      if w in s.writers && s.Live(s.writers[w].vid, s.writers[w].inc)
      then MarkOps(env, s, s.writers[w].vid, WriterMask(env, s.writers[w]), bits) else []
    case WriterFail(w) => if w in s.writers && s.writers[w].vid in s.entries then DropOps([s.writers[w].vid]) else []
    case WriterClose(w) =>
      if w in s.writers && Discards(env, s.writers[w]) && s.writers[w].vid in s.entries
      then DropOps([s.writers[w].vid]) else []
    case SetPins(vid, pins) => []
    case Touch(vid, now) => []
  }

  /** `close` after a short write drops the entry. */
  predicate Discards(env: Env, w: Writer) { !w.failed && w.offset < |env.version(w.vid)| }

  function MarkOps(env: Env, s: State, vid: string, mask: seq<bool>, bits: nat): seq<DiskOp> {
    if vid in s.entries && |s.entries[vid].present| == |mask|
    then BitOps(vid, Take(Changed(s.entries[vid].present, mask, |mask|), bits)) else []
  }

  /** The memory after a step. */
  function Mem(env: Env, s: State, a: Action): State
    requires env.bs > 0
  {
    match a
    case Admit(vid, staging, w, victims, now, created) =>
      var kept := s.entries - {vid} - Keys(victims);
      if !created then s.(entries := kept)
      else
        var e := Entry(|env.version(vid)|, env.bs, Mask(env.Blocks(vid), 0, 0), now, 0, staging, 0, s.nextInc);
        State(kept[vid := e], s.fills,
              if staging then s.writers[w := Writer(vid, s.nextInc, 0, false, false)] else s.writers,
              s.nextInc + 1, s.disk)
    case Drop(vids) => Forget(s, vids)
    case Claim(t, vid, first, end, victims) =>
      if vid in s.entries && |s.entries[vid].present| == env.Blocks(vid) then
        var f := NewFill(env, s, vid, first, end);
        var e := s.entries[vid];
        s.(entries := (s.entries - Keys(victims))[vid := e.(inflight := e.inflight + f.added)],
           fills := s.fills[t := f])
      else s
    case FillWrite(t) => if t in s.fills then s.(fills := s.fills[t := s.fills[t].(written := true)]) else s
    case FillLand(t, now, bits) =>
      if t in s.fills then Land(env, s.(fills := s.fills - {t}), s.fills[t], now) else s
    case FillFail(t) => if t in s.fills then Forget(s.(fills := s.fills - {t}), [s.fills[t].vid]) else s
    case WriterWrite(w, n, hits) =>
      if w in s.writers
      then s.(writers := s.writers[w := s.writers[w].(offset := s.writers[w].offset + n, behind := true)]) else s
    case WriterResume(w, bits) =>
      if w in s.writers
      then Resume(env, s.(writers := s.writers[w := s.writers[w].(behind := false)]), s.writers[w]) else s
    case WriterFail(w) =>
      if w in s.writers
      then Forget(s.(writers := s.writers[w := s.writers[w].(failed := true)]), [s.writers[w].vid]) else s
    case WriterClose(w) =>
      if w in s.writers then
        var closed := s.(writers := s.writers - {w});
        if Discards(env, s.writers[w]) then Forget(closed, [s.writers[w].vid]) else closed
      else s
    case SetPins(vid, pins) =>
      if vid in s.entries then s.(entries := s.entries[vid := s.entries[vid].(pins := pins)]) else s
    case Touch(vid, now) =>
      if vid in s.entries then s.(entries := s.entries[vid := s.entries[vid].(lastAccess := now)]) else s
  }

  /** A finished fill: its claim turns into present blocks, if its entry is still there. */
  function Land(env: Env, s: State, f: Fill, now: int): State
    requires env.bs > 0
  {
    if s.Live(f.vid, f.inc) && |s.entries[f.vid].present| == env.Blocks(f.vid) then
      var e := s.entries[f.vid];
      s.(entries := s.entries[f.vid := e.(inflight := Max(0, e.inflight - f.added),
                                          present := Or(e.present, FillMask(env, f)), lastAccess := now)])
    else s
  }

  /** A staged write seen by the event loop: blocks are marked, and at the end the entry stops
      being charged whole. */
  function Resume(env: Env, s: State, w: Writer): State
    requires env.bs > 0
  {
    if s.Live(w.vid, w.inc) && |s.entries[w.vid].present| == env.Blocks(w.vid) then
      var e := s.entries[w.vid];
      s.(entries := s.entries[w.vid := e.(present := Or(e.present, WriterMask(env, w)),
                                          writing := e.writing && w.offset < |env.version(w.vid)|)])
    else s
  }

  function Next(env: Env, s: State, a: Action): State
    requires env.bs > 0
  {
    Mem(env, s, a).(disk := DoAll(s.disk, Ops(env, s, a)))
  }

  /** Making room never costs an entry in use: whatever is pinned, being written or being filled is still
      there, unchanged, after another entry was admitted or filled. */
  lemma EntriesInUseStay(env: Env, s: State, a: Action, k: string)
    requires Enabled(env, s, a) && (a.Admit? || a.Claim?) && a.vid != k && k in s.entries
    requires s.entries[k].pins > 0 || s.entries[k].writing || s.entries[k].inflight > 0
    ensures k in Next(env, s, a).entries && Next(env, s, a).entries[k] == s.entries[k]
  {
    hide Fits, NewFill, DoAll, Ops;
    assert k !in Keys(a.victims);
  }

  /** What `_make_room` leaves is what the admission of an entry needs: the step is enabled with the
      entries it evicted. */
  lemma MakeRoomAdmits(env: Env, s: State, vid: string, staging: bool, w: nat, evicted: seq<string>, now: int,
                       created: bool)
    requires Shaped(env, s.entries) && w !in s.writers
    requires OldestFirst(s.entries - {vid}, evicted, None)
    requires AllValid(s.entries - {vid} - Keys(evicted))
    requires Fits(env.cfg, s.entries - {vid} - Keys(evicted), if staging then |env.version(vid)| else 0, true)
    ensures Enabled(env, s, Admit(vid, staging, w, evicted, now, created))
  {
  }

  /** The same for a block fill: with the room its missing blocks need made around its own entry, the
      claim is enabled, and a fill that adds nothing needs none. */
  lemma MakeRoomClaims(env: Env, s: State, t: nat, vid: string, first: nat, end: nat, evicted: seq<string>)
    requires Shaped(env, s.entries) && t !in s.fills && vid in s.entries && !s.entries[vid].writing
    requires Mul(first, env.bs) < end <= |env.version(vid)|
    requires NewFill(env, s, vid, first, end).first < NewFill(env, s, vid, first, end).last
    requires OldestFirst(s.entries, evicted, Some(vid)) && AllValid(s.entries - Keys(evicted))
    requires var added := NewFill(env, s, vid, first, end).added;
      if added == 0 then evicted == [] else Fits(env.cfg, s.entries - Keys(evicted), added, false)
    ensures Enabled(env, s, Claim(t, vid, first, end, evicted)) && vid !in evicted
  {
    assert vid !in Candidates(s.entries, Some(vid));
    assert vid in evicted ==> vid in Keys(evicted);
  }
}
