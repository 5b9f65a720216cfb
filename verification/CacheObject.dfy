/** The local cache object (`core/local_cache.py`): opening a staging, reserving an entry and filling
    blocks. Each method is one stretch between awaits, proved to be one step of the machine. */
module CacheObject {
  import opened Arith
  import opened Bytes
  import opened CacheBlocks
  import opened CacheEviction
  import opened CacheMachine
  import opened CacheBudget
  import opened CacheContents

  /** Room can be made for `size` more bytes: they fit beside the entries that may not go. */
  ghost predicate RoomFor(cfg: Config, m: Entries, keep: Option<string>, size: nat, newEntry: bool)
    requires AllValid(m)
  {
    SparedIsRest(m, keep);
    && (cfg.maxSize == 0 || Used(Spared(m, keep)) + size <= cfg.maxSize)
    && (!newEntry || cfg.maxFiles == 0 || |Spared(m, keep)| < cfg.maxFiles)
  }

  // -- dropped and admitted entries -----------------------------------------------------------------

  /** The ids a refusal forgets: the old entry of that id, if any, and what was evicted for the new. */
  function Forgotten(m: Entries, vid: string, evicted: seq<string>): seq<string> {
    (if vid in m then [vid] else []) + evicted
  }

  /** Making room and giving up is a step that only forgets. */
  lemma RefusalDrops(env: Env, s: State, vid: string, evicted: seq<string>)
    requires Shaped(env, s.entries) && Keys(evicted) <= (s.entries - {vid}).Keys
    ensures Enabled(env, s, Drop(Forgotten(s.entries, vid, evicted)))
    ensures Mem(env, s, Drop(Forgotten(s.entries, vid, evicted))) == s.(entries := s.entries - {vid} - Keys(evicted))
  {
    var vids := Forgotten(s.entries, vid, evicted);
    assert Keys(vids) == Keys(evicted) + if vid in s.entries then {vid} else {};
    assert s.entries - Keys(vids) == s.entries - {vid} - Keys(evicted);
  }

  lemma NothingDropped(env: Env, s: State)
    requires Shaped(env, s.entries)
    ensures Enabled(env, s, Drop([])) && Next(env, s, Drop([])) == s
  {
    assert s.entries - Keys([]) == s.entries;
  }

  lemma EvictedAreThere(m: Entries, evicted: seq<string>, keep: Option<string>)
    requires OldestFirst(m, evicted, keep)
    ensures Keys(evicted) <= m.Keys && (keep.Some? ==> keep.value !in evicted)
  {
    assert forall v :: v in evicted ==> v in Keys(evicted);
  }

  lemma KeptShaped(env: Env, m: Entries, vid: string)
    requires Shaped(env, m)
    ensures AllValid(m - {vid})
  {
  }

  lemma InvShaped(env: Env, s: State)
    requires Inv(env, s)
    ensures Shaped(env, s.entries)
  {
  }

  // -- what a fill adds -----------------------------------------------------------------------------

  lemma {:induction false} WeightFlat(size: nat, bs: nat, mask: seq<bool>, a: nat, b: nat)
    requires bs > 0 && |mask| == BlocksFor(size, bs) && a <= b <= |mask|
    requires forall i :: a <= i < b ==> !mask[i]
    ensures Weight(size, bs, mask, b) == Weight(size, bs, mask, a)
  {
    if a < b {
      WeightFlat(size, bs, mask, a, b - 1);
    }
  }

  /** The bytes of the blocks `[first, last)` that are not present. */
  method AddedBytes(e: Entry, first: nat, last: nat) returns (added: nat)
    requires e.Valid() && first <= last <= |e.present|
    ensures added == Weight(e.size, e.bs, AndNot(Mask(|e.present|, first, last), e.present), |e.present|)
  {
    hide BlockLength, BlocksFor;
    ghost var mask := AndNot(Mask(|e.present|, first, last), e.present);
    added := 0;
    WeightFlat(e.size, e.bs, mask, 0, first);
    for i := first to last
      invariant added == Weight(e.size, e.bs, mask, i)
    {
      if !e.present[i] {
        added := added + BlockLength(e.size, e.bs, i);
      }
    }
    WeightFlat(e.size, e.bs, mask, last, |e.present|);
  }

  /** Whether `write_blocks` keeps anything of this stretch: it is aligned, inside the version, of an
      entry no writer stages, and completes a block. */
  ghost predicate Fillable(env: Env, s: State, vid: string, begin: nat, length: nat)
    requires Shaped(env, s.entries)
  {
    && vid in s.entries && !s.entries[vid].writing && length > 0
    && begin % env.bs == 0 && begin + length <= |env.version(vid)|
    && (var f := NewFill(env, s, vid, begin / env.bs, begin + length); f.first < f.last)
  }

  /** What `write_blocks` computes before it claims anything is the machine's fill. */
  lemma FillIs(env: Env, s: State, vid: string, first: nat, begin: nat, end: nat)
    requires Shaped(env, s.entries) && vid in s.entries && begin % env.bs == 0 && first == begin / env.bs && begin < end
    requires end <= |env.version(vid)|
    ensures var f, e := NewFill(env, s, vid, first, end), s.entries[vid];
      && Mul(first, env.bs) == begin && e.Valid() && e.bs == env.bs && |e.present| == env.Blocks(vid)
      && f == Fill(vid, e.inc, first, f.last, end, f.added, false) && f.last <= |e.present|
      && f.last == (if end >= |env.version(vid)| then env.Blocks(vid) else end / env.bs)
      && f.added == Weight(e.size, e.bs, AndNot(Mask(|e.present|, f.first, f.last), e.present), |e.present|)
  {
    DivMod(begin, env.bs);
    BlocksForBounds(|env.version(vid)|, env.bs);
    if end < |env.version(vid)| {
      DivMod(end, env.bs);
      if env.Blocks(vid) < end / env.bs {
        MulMono(env.Blocks(vid), end / env.bs, env.bs);
      }
    }
  }

  // -- the object -----------------------------------------------------------------------------------

  class VersionCache {
    const env: Env
    const enabled: bool
    const cache: LocalCache
    var nextInc: nat
    ghost var fills: map<nat, Fill>
    ghost var writers: map<nat, Writer>
    ghost var disk: Disk

    ghost function Now(): State
      reads this, cache
    {
      State(cache.entries, fills, writers, nextInc, disk)
    }

    /** Budget, ledger and contents are in order. */
    ghost predicate Valid()
      reads this, cache
    {
      cache.cfg == env.cfg && Inv(env, Now())
    }

    constructor (e: Env, on: bool)
      requires e.bs > 0
      ensures Valid() && env == e && enabled == on && Now() == EMPTY_CACHE
    {
      hide Inv;
      EmptyInv(e);
      env, enabled := e, on;
      cache := new LocalCache(e.cfg);
      nextInc, fills, writers, disk := 0, map[], map[], Disk(map[], map[]);
    }

    /** A new entry for `vid` in place of any old one, charged `size` bytes: room is made, the files are
        created. `created` says whether the disk took them. */
    method Enter(vid: string, staging: bool, ghost w: nat, size: nat, now: int, created: bool)
      returns (ok: bool, ghost step: Action)
      requires Valid() && w !in writers && size == if staging then |env.version(vid)| else 0
      modifies this, cache
      ensures Valid() && Enabled(env, old(Now()), step) && Now() == Next(env, old(Now()), step)
      ensures ok ==> step.Admit? && step == Admit(vid, staging, w, step.victims, now, true)
      ensures forall k :: k in Spared(old(cache.entries) - {vid}, None) ==>
                k in cache.entries && cache.entries[k] == old(cache.entries)[k]
      ensures !ok ==> vid !in cache.entries && writers == old(writers)
      ensures AllValid(old(cache.entries) - {vid})
      ensures env.cfg.minFree == 0 ==>
                (ok <==> created && RoomFor(env.cfg, old(cache.entries) - {vid}, None, size, true))
    {
      hide Inv, DoAll, Ops, OldestFirst, Candidates, Fits, Forgotten, BlocksFor, Spared, Used;
      ghost var s := Now();
      InvShaped(env, s);
      KeptShaped(env, cache.entries, vid);
      hide Shaped, AllValid;
      cache.entries := cache.entries - {vid};
      ghost var evicted;
      ok, evicted := cache.MakeRoom(size, true, None);
      SparedAreThere(s.entries - {vid}, None);
      EvictedAreThere(s.entries - {vid}, evicted, None);
      if !ok {
        RefusalDrops(env, s, vid, evicted);
        step := Drop(Forgotten(s.entries, vid, evicted));
        StepKeepsInv(env, s, step);
        disk := Next(env, s, step).disk;
        return;
      }
      StayBeside(s.entries, Spared(s.entries - {vid}, None), cache.entries, vid,
                 Fresh(env, vid, staging, now, nextInc));
      step := Create(vid, staging, w, size, now, created, s, evicted);
      ok := created;
    }

    /** The files of a new entry, and the entry itself. */
    method Create(vid: string, staging: bool, ghost w: nat, size: nat, now: int, created: bool, ghost s: State,
                  ghost evicted: seq<string>)
      returns (ghost step: Action)
      requires Inv(env, s) && Shaped(env, s.entries) && cache.cfg == env.cfg && w !in writers
      requires fills == s.fills && writers == s.writers && nextInc == s.nextInc && disk == s.disk
      requires cache.entries == s.entries - {vid} - Keys(evicted) && OldestFirst(s.entries - {vid}, evicted, None)
      requires size == if staging then |env.version(vid)| else 0
      requires AllValid(cache.entries) && Fits(env.cfg, cache.entries, size, true)
      modifies this, cache
      ensures Valid() && step == Admit(vid, staging, w, evicted, now, created)
      ensures Enabled(env, s, step) && Now() == Next(env, s, step)
      ensures if created then cache.entries == old(cache.entries)[vid := Fresh(env, vid, staging, now, s.nextInc)]
              else cache.entries == old(cache.entries) && writers == s.writers
    {
      hide Inv, DoAll, Ops, OldestFirst, Candidates, Fits, BlocksFor, AllValid;
      step := Admit(vid, staging, w, evicted, now, created);
      MakeRoomAdmits(env, s, vid, staging, w, evicted, now, created);
      StepKeepsInv(env, s, step);
      disk := Next(env, s, step).disk;
      if created {
        cache.entries := cache.entries[vid := Fresh(env, vid, staging, now, nextInc)];
        if staging {
          writers := writers[w := Writer(vid, nextInc, 0, false, false)];
        }
        nextInc := nextInc + 1;
      }
    }

    /** `open_staging`: exactly when it opens a writer, and whatever happens it is one step. */
    method OpenStaging(vid: string, ghost w: nat, now: int, created: bool) returns (ok: bool, ghost step: Action)
      requires Valid() && w !in writers
      modifies this, cache
      ensures Valid() && Enabled(env, old(Now()), step) && Now() == Next(env, old(Now()), step)
      ensures ok ==> step.Admit? && step == Admit(vid, true, w, step.victims, now, true)
      ensures forall k :: k in Spared(old(cache.entries) - {vid}, None) ==>
                k in cache.entries && cache.entries[k] == old(cache.entries)[k]
      ensures AllValid(old(cache.entries) - {vid})
      ensures env.cfg.minFree == 0 ==>
                (ok <==> && enabled && created
                         && (env.cfg.maxFileSize == 0 || |env.version(vid)| <= env.cfg.maxFileSize)
                         && RoomFor(env.cfg, old(cache.entries) - {vid}, None, |env.version(vid)|, true))
    {
      hide Inv, DoAll, Ops, Fits, Candidates, Forgotten;
      ghost var s := Now();
      InvShaped(env, s);
      KeptShaped(env, cache.entries, vid);
      if !enabled {
        NothingDropped(env, s);
        return false, Drop([]);
      }
      if env.cfg.maxFileSize > 0 && |env.version(vid)| > env.cfg.maxFileSize {
        RefusalDrops(env, s, vid, []);
        step := Drop(Forgotten(s.entries, vid, []));
        StepKeepsInv(env, s, step);
        assert s.entries - {vid} - Keys([]) == s.entries - {vid};
        cache.entries := cache.entries - {vid};
        disk := Next(env, s, step).disk;
        return false, step;
      }
      ok, step := Enter(vid, true, w, |env.version(vid)|, now, created);
    }

    /** `reserve`: the same for an entry that is charged block by block. */
    method Reserve(vid: string, ghost w: nat, now: int, created: bool) returns (ok: bool, ghost step: Action)
      requires Valid() && w !in writers
      modifies this, cache
      ensures Valid() && Enabled(env, old(Now()), step) && Now() == Next(env, old(Now()), step)
      ensures ok ==> step.Admit? && step == Admit(vid, false, w, step.victims, now, true)
      ensures forall k :: k in Spared(old(cache.entries) - {vid}, None) ==>
                k in cache.entries && cache.entries[k] == old(cache.entries)[k]
      ensures AllValid(old(cache.entries) - {vid})
      ensures env.cfg.minFree == 0 ==>
                (ok <==> enabled && created && RoomFor(env.cfg, old(cache.entries) - {vid}, None, 0, true))
    {
      hide Inv, DoAll, Ops, Fits, Candidates, Forgotten;
      ghost var s := Now();
      InvShaped(env, s);
      KeptShaped(env, cache.entries, vid);
      if !enabled {
        NothingDropped(env, s);
        return false, Drop([]);
      }
      ok, step := Enter(vid, false, w, 0, now, created);
    }

    /** `write_blocks` up to its write: the room for the blocks that are missing is claimed before any
        byte reaches the disk, and never at the expense of their own entry. */
    method ClaimBlocks(ghost t: nat, vid: string, begin: nat, length: nat)
      returns (res: Option<Fill>, ghost step: Action)
      requires Valid() && t !in fills
      modifies this, cache
      ensures Valid() && Enabled(env, old(Now()), step) && Now() == Next(env, old(Now()), step)
      ensures Shaped(env, old(Now()).entries)
      ensures res.Some? ==>
                && Fillable(env, old(Now()), vid, begin, length) && t in fills && fills[t] == res.value
                && step.Claim? && step == Claim(t, vid, begin / env.bs, begin + length, step.victims)
      ensures forall k :: k in Spared(old(cache.entries), Some(vid)) && k != vid ==>
                k in cache.entries && cache.entries[k] == old(cache.entries)[k]
      ensures vid in old(cache.entries) ==> vid in cache.entries
      ensures res.None? ==> fills == old(fills) && step.Drop?
      ensures env.cfg.minFree == 0 ==>
                (res.Some? <==>
                 && Fillable(env, old(Now()), vid, begin, length)
                 && (var added := NewFill(env, old(Now()), vid, begin / env.bs, begin + length).added;
                     added == 0 || RoomFor(env.cfg, old(cache.entries), Some(vid), added, false)))
    {
      hide Inv, DoAll, Ops, OldestFirst, Candidates, Fits, BlocksFor, NewFill, Weight;
      ghost var s := Now();
      InvShaped(env, s);
      NothingDropped(env, s);
      step := Drop([]);
      if vid !in cache.entries || cache.entries[vid].writing || length == 0 {
        return None, step;
      }
      var entry := cache.entries[vid];
      if begin % entry.bs != 0 || begin + length > entry.size {
        return None, step;
      }
      var first, end := begin / entry.bs, begin + length;
      FillIs(env, s, vid, first, begin, end);
      var last := if end >= entry.size then |entry.present| else end / entry.bs;
      if first >= last {
        return None, step;
      }
      var added := AddedBytes(entry, first, last);
      res, step := ClaimRoom(t, vid, first, last, end, added);
    }

    /** Room for the missing bytes of a fill, and its claim. */
    method ClaimRoom(ghost t: nat, vid: string, first: nat, last: nat, end: nat, added: nat)
      returns (res: Option<Fill>, ghost step: Action)
      requires Valid() && Shaped(env, cache.entries) && t !in fills && vid in cache.entries
                && !cache.entries[vid].writing
      requires Mul(first, env.bs) < end <= |env.version(vid)| && first < last
      requires NewFill(env, Now(), vid, first, end) == Fill(vid, cache.entries[vid].inc, first, last, end, added, false)
      modifies this, cache
      ensures Valid() && Enabled(env, old(Now()), step) && Now() == Next(env, old(Now()), step)
      ensures res.Some? ==>
                t in fills && fills[t] == res.value && step.Claim? && step == Claim(t, vid, first, end, step.victims)
      ensures forall k :: k in Spared(old(cache.entries), Some(vid)) && k != vid ==>
                k in cache.entries && cache.entries[k] == old(cache.entries)[k]
      ensures vid in old(cache.entries) ==> vid in cache.entries
      ensures res.None? ==> fills == old(fills) && step.Drop?
      ensures env.cfg.minFree == 0 ==>
                (res.Some? <==> added == 0 || RoomFor(env.cfg, old(cache.entries), Some(vid), added, false))
    {
      hide Inv, DoAll, Ops, OldestFirst, Candidates, Fits, BlocksFor, NewFill, Spared, Used;
      ghost var s := Now();
      SparedAreThere(s.entries, Some(vid));
      SparedEach(s.entries, Some(vid));
      var ok := true;
      ghost var evicted: seq<string> := [];
      NothingEvicted(s.entries, vid);
      if added > 0 {
        ok, evicted := cache.MakeRoom(added, false, Some(vid));
      }
      EvictedAreThere(s.entries, evicted, Some(vid));
      if !ok {
        step := Drop(evicted);
        StepKeepsInv(env, s, step);
        disk := Next(env, s, step).disk;
        return None, step;
      }
      KeptEntry(s.entries, vid, evicted);
      step := PutClaim(t, vid, first, last, end, added, s, evicted);
      res := Some(Fill(vid, cache.entries[vid].inc, first, last, end, added, false));
    }

    /** The claim itself, once there is room. */
    method PutClaim(ghost t: nat, vid: string, first: nat, last: nat, end: nat, added: nat, ghost s: State,
                    ghost evicted: seq<string>)
      returns (ghost step: Action)
      requires Inv(env, s) && Shaped(env, s.entries) && cache.cfg == env.cfg && t !in fills
      requires fills == s.fills && writers == s.writers && nextInc == s.nextInc && disk == s.disk
      requires vid in s.entries && !s.entries[vid].writing && cache.entries == s.entries - Keys(evicted)
      requires vid in cache.entries && cache.entries[vid] == s.entries[vid]
      requires Mul(first, env.bs) < end <= |env.version(vid)| && first < last
      requires NewFill(env, s, vid, first, end) == Fill(vid, s.entries[vid].inc, first, last, end, added, false)
      requires OldestFirst(s.entries, evicted, Some(vid)) && AllValid(cache.entries)
      requires if added == 0 then evicted == [] else Fits(env.cfg, cache.entries, added, false)
      modifies this, cache
      ensures Valid() && step == Claim(t, vid, first, end, evicted)
      ensures Enabled(env, s, step) && Now() == Next(env, s, step)
      ensures fills == s.fills[t := Fill(vid, s.entries[vid].inc, first, last, end, added, false)]
      ensures cache.entries
           == old(cache.entries)[vid := s.entries[vid].(inflight := s.entries[vid].inflight + added)]
    {
      hide Inv, DoAll, Ops, OldestFirst, Candidates, Fits, BlocksFor, NewFill;
      step := Claim(t, vid, first, end, evicted);
      MakeRoomClaims(env, s, t, vid, first, end, evicted);
      StepKeepsInv(env, s, step);
      disk := Next(env, s, step).disk;
      var entry := cache.entries[vid];
      cache.entries := cache.entries[vid := entry.(inflight := entry.inflight + added)];
      fills := fills[t := Fill(vid, entry.inc, first, last, end, added, false)];
    }

    /** The write of a fill is done: its claim turns into present blocks, if its entry is still there. */
    method BlocksWritten(ghost t: nat, f: Fill, now: int, ghost bits: nat)
      requires Valid() && t in fills && fills[t] == f && f.written
      modifies this, cache
      ensures Valid() && Enabled(env, old(Now()), FillLand(t, now, bits))
                && Now() == Next(env, old(Now()), FillLand(t, now, bits))
      ensures fills == old(fills) - {t}
      ensures if f.vid in old(cache.entries) && old(cache.entries)[f.vid].inc == f.inc
              then && f.vid in cache.entries
                   && |cache.entries[f.vid].present| == |old(cache.entries)[f.vid].present|
                   && cache.entries[f.vid].inflight == Max(0, old(cache.entries)[f.vid].inflight - f.added)
                   && (forall i :: 0 <= i < |cache.entries[f.vid].present| ==>
                         (cache.entries[f.vid].present[i]
                          <==> old(cache.entries)[f.vid].present[i] || f.first <= i < f.last))
                   && cache.entries == old(cache.entries)[f.vid := cache.entries[f.vid]]
              else cache.entries == old(cache.entries)
    {
      hide Inv, DoAll, Ops, BlocksFor;
      ghost var s, step := Now(), FillLand(t, now, bits);
      InvShaped(env, s);
      StepKeepsInv(env, s, step);
      disk := Next(env, s, step).disk;
      fills := fills - {t};
      if f.vid in cache.entries && cache.entries[f.vid].inc == f.inc {
        var e := cache.entries[f.vid];
        var left := if e.inflight >= f.added then e.inflight - f.added else 0;
        FilledShape(env, s, f.vid);
        var marked := e.(inflight := left, present := Or(e.present, FillMask(env, f)), lastAccess := now);
        cache.entries := cache.entries[f.vid := marked];
      }
    }

    /** The write failed: whatever entry has that id now is dropped. */
    method BlocksFailed(ghost t: nat, f: Fill)
      requires Valid() && t in fills && fills[t] == f
      modifies this, cache
      ensures Valid() && Enabled(env, old(Now()), FillFail(t)) && Now() == Next(env, old(Now()), FillFail(t))
      ensures cache.entries == old(cache.entries) - {f.vid} && fills == old(fills) - {t}
    {
      hide Inv, DoAll, Ops;
      ghost var s, step := Now(), FillFail(t);
      InvShaped(env, s);
      StepKeepsInv(env, s, step);
      disk := Next(env, s, step).disk;
      fills := fills - {t};
      assert Keys([f.vid]) == {f.vid};
      cache.entries := cache.entries - {f.vid};
    }
  }

  lemma KeptEntry(m: Entries, vid: string, evicted: seq<string>)
    requires vid in m && vid !in evicted
    ensures vid in m - Keys(evicted) && (m - Keys(evicted))[vid] == m[vid]
  {
  }

  /** Entries that stayed so far stay when another is set. */
  lemma StayBeside(m: Entries, kept: Entries, now: Entries, vid: string, e: Entry)
    requires kept.Keys <= (m - {vid}).Keys && forall k :: k in kept ==> k in now && now[k] == (m - {vid})[k]
    ensures forall k :: k in kept ==> k in now[vid := e] && now[vid := e][k] == m[k]
  {
  }

  lemma SparedEach(m: Entries, keep: Option<string>)
    ensures forall k :: k in Spared(m, keep) ==> k in m && Spared(m, keep)[k] == m[k]
    ensures keep.Some? && keep.value in m ==> keep.value in Spared(m, keep)
  {
  }

  lemma SparedAreThere(m: Entries, keep: Option<string>)
    ensures Spared(m, keep).Keys <= m.Keys
  {
  }

  lemma FilledShape(env: Env, s: State, vid: string)
    requires Shaped(env, s.entries) && vid in s.entries
    ensures |s.entries[vid].present| == env.Blocks(vid)
  {
  }

  lemma NothingEvicted(m: Entries, vid: string)
    ensures OldestFirst(m, [], Some(vid)) && m - Keys([]) == m
  {
    assert m - Keys([]) == m;
  }
}
