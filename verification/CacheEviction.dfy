/** `tgdcfs/core/local_cache.py`, `LocalCache._make_room`: eviction under a byte and a file budget. */
module CacheEviction {
  import opened Bytes
  import opened Sums
  import opened CacheBlocks

  /** A limit of 0 is no limit. */
  datatype Config = Config(maxSize: nat, maxFiles: nat, maxFileSize: nat, minFree: nat, keepForReads: bool)

  type Entries = map<string, Entry>

  ghost predicate AllValid(m: Entries) { forall k :: k in m ==> m[k].Valid() }

  ghost function Charges(m: Entries): map<string, nat>
    requires AllValid(m)
  {
    map k | k in m :: m[k].Charged()
  }

  /** `used_bytes`: what all entries are charged together. */
  ghost function Used(m: Entries): nat
    requires AllValid(m)
  {
    SumMap(Charges(m))
  }

  lemma UsedRemove(m: Entries, k: string)
    requires AllValid(m) && k in m
    ensures AllValid(m - {k}) && Used(m) == m[k].Charged() + Used(m - {k})
  {
    SumRemove(Charges(m), k);
    assert Charges(m) - {k} == Charges(m - {k});
  }

  lemma UsedUpdate(m: Entries, k: string, e: Entry)
    requires AllValid(m) && e.Valid()
    ensures AllValid(m[k := e]) && AllValid(m - {k}) && Used(m[k := e]) == Used(m - {k}) + e.Charged()
  {
    UsedRemove(m[k := e], k);
    assert m[k := e] - {k} == m - {k};
  }

  lemma UsedSubset(m: Entries, gone: set<string>)
    requires AllValid(m)
    ensures AllValid(m - gone) && Used(m - gone) <= Used(m) && |m - gone| <= |m|
  {
    SumMono(Charges(m - gone), Charges(m));
    SizeSubset(m, gone);
  }

  lemma SizeSubset(m: Entries, gone: set<string>)
    ensures |m - gone| <= |m|
  {
    assert (m - gone).Keys == m.Keys - gone;
    assert |m.Keys| == |m.Keys - gone| + |m.Keys * gone|;
  }

  ghost predicate WithinBudget(cfg: Config, m: Entries)
    requires AllValid(m)
  {
    (cfg.maxSize > 0 ==> Used(m) <= cfg.maxSize) && (cfg.maxFiles > 0 ==> |m| <= cfg.maxFiles)
  }

  /** `size` more bytes, and one more entry if it is a new one, stay within both limits. */
  ghost predicate Fits(cfg: Config, m: Entries, size: nat, newEntry: bool)
    requires AllValid(m)
  {
    && (cfg.maxSize > 0 ==> Used(m) + size <= cfg.maxSize)
    && (newEntry && cfg.maxFiles > 0 ==> |m| + 1 <= cfg.maxFiles)
  }

  function Candidates(m: Entries, keep: Option<string>): set<string> {
    set k | k in m && m[k].Evictable() && keep != Some(k)
  }

  /** The entries no eviction may touch: pinned, being written, being filled, or the one to keep. */
  function Spared(m: Entries, keep: Option<string>): Entries {
    map k | k in m && (m[k].pins > 0 || m[k].writing || m[k].inflight > 0 || keep == Some(k)) :: m[k]
  }

  /** They are what is left once every candidate is gone. */
  lemma SparedIsRest(m: Entries, keep: Option<string>)
    ensures m - Candidates(m, keep) == Spared(m, keep)
    ensures AllValid(m) ==> AllValid(Spared(m, keep))
  {
  }

  /** So no eviction takes one of them. */
  lemma SparedStay(m: Entries, evicted: seq<string>, keep: Option<string>)
    requires OldestFirst(m, evicted, keep)
    ensures forall k :: k in Spared(m, keep) ==> k !in evicted
    ensures forall v :: v in evicted ==>
              v in m && m[v].pins == 0 && !m[v].writing && m[v].inflight == 0 && keep != Some(v)
  {
    forall v | v in evicted
      ensures v in Candidates(m, keep)
    {
      assert v in Keys(evicted);
    }
  }

  function Keys(s: seq<string>): set<string> { set k | k in s }

  predicate Distinct(s: seq<string>) { forall i, j :: 0 <= i < j < |s| ==> s[i] != s[j] }

  function Age(m: Entries, k: string): int { if k in m then m[k].lastAccess else 0 }

  /** Most recently read first, so that victims are popped off the end. */
  predicate NewestFirst(m: Entries, s: seq<string>) {
    forall i, j :: 0 <= i < j < |s| ==> Age(m, s[i]) >= Age(m, s[j])
  }

  /** `evicted` was taken off the end of `order`, of which `victims` is left. */
  predicate Popped(order: seq<string>, victims: seq<string>, evicted: seq<string>) {
    && |order| == |victims| + |evicted| && victims == order[..|victims|]
    && (forall i :: 0 <= i < |evicted| ==> evicted[i] == order[|order| - 1 - i])
    && (forall j :: |victims| <= j < |order| ==> order[j] == evicted[|order| - 1 - j])
  }

  /** The victims are the oldest candidates, taken in order of their last access. */
  ghost predicate OldestFirst(m: Entries, evicted: seq<string>, keep: Option<string>) {
    && Distinct(evicted) && Keys(evicted) <= Candidates(m, keep)
    && (forall i, j :: 0 <= i < j < |evicted| ==> Age(m, evicted[i]) <= Age(m, evicted[j]))
    && (forall v, c :: v in evicted && c in Candidates(m, keep) && c !in evicted ==> Age(m, v) <= Age(m, c))
  }

  /** Before each eviction the request did not fit. */
  ghost predicate EachNeeded(cfg: Config, m: Entries, evicted: seq<string>, size: nat, newEntry: bool) {
    forall i :: 0 <= i < |evicted| ==> NotYet(cfg, m - Keys(evicted[..i]), size, newEntry)
  }

  ghost predicate NotYet(cfg: Config, m: Entries, size: nat, newEntry: bool) {
    && AllValid(m)
    && (|| (cfg.maxSize > 0 && Used(m) + size > cfg.maxSize)
        || (newEntry && cfg.maxFiles > 0 && |m| >= cfg.maxFiles))
  }

  class LocalCache {
    const cfg: Config
    var entries: Entries

    constructor (cfg: Config)
      ensures this.cfg == cfg && entries == map[]
    {
      this.cfg, entries := cfg, map[];
    }

    method UsedBytes() returns (used: nat)
      requires AllValid(entries)
      ensures used == Used(entries)
    {
      used := 0;
      var todo := entries;
      while |todo.Keys| > 0
        invariant AllValid(todo) && used + Used(todo) == Used(entries)
        decreases |todo|
      {
        var k :| k in todo.Keys;
        UsedRemove(todo, k);
        used := used + todo[k].Charged();
        todo := todo - {k};
      }
      assert todo == map[];
    }

    method LruOrder(keep: Option<string>) returns (victims: seq<string>)
      ensures Keys(victims) == Candidates(entries, keep) && Distinct(victims)
      ensures forall k :: k in victims <==>
                && k in entries && entries[k].pins == 0 && !entries[k].writing && entries[k].inflight == 0
                && keep != Some(k)
      ensures NewestFirst(entries, victims)
    {
      victims := [];
      ghost var all := Candidates(entries, keep);
      var todo := Candidates(entries, keep);
      while todo != {}
        invariant todo <= entries.Keys
        invariant forall k :: k in all <==> k in victims || k in todo
        invariant forall k :: k in victims ==> k !in todo
        invariant Distinct(victims) && NewestFirst(entries, victims)
        invariant forall v, t :: v in victims && t in todo ==> Age(entries, v) >= Age(entries, t)
        decreases |todo|
      {
        var k := Newest(todo);
        victims := victims + [k];
        todo := todo - {k};
      }
    }

    method Newest(todo: set<string>) returns (k: string)
      requires todo != {} && todo <= entries.Keys
      ensures k in todo && forall t :: t in todo ==> entries[k].lastAccess >= entries[t].lastAccess
    {
      k :| k in todo;
      var rest := todo - {k};
      while rest != {}
        invariant k in todo && rest <= todo
        invariant forall t :: t in todo && t !in rest ==> entries[k].lastAccess >= entries[t].lastAccess
        decreases |rest|
      {
        var t :| t in rest;
        if entries[t].lastAccess > entries[k].lastAccess {
          k := t;
        }
        rest := rest - {t};
      }
    }

    /** Evict candidates, oldest first, until the request fits; no entry that is pinned, being written,
        being filled or to be kept is touched. Without a disk headroom the outcome is exact: success
        exactly when the entries that may not go leave room, and each eviction necessary. With one,
        a disk probe may ask for more evictions. */
    method MakeRoom(size: nat, newEntry: bool, keep: Option<string>) returns (ok: bool, ghost evicted: seq<string>)
      requires AllValid(entries)
      modifies this
      ensures entries == old(entries) - Keys(evicted) && AllValid(entries)
      ensures OldestFirst(old(entries), evicted, keep)
      ensures ok ==> Fits(cfg, entries, size, newEntry)
      ensures forall k :: k in Spared(old(entries), keep) ==> k in entries && entries[k] == old(entries)[k]
      ensures forall v :: v in evicted ==>
                && v in old(entries) && old(entries)[v].pins == 0 && !old(entries)[v].writing
                && old(entries)[v].inflight == 0 && keep != Some(v)
      ensures !ok ==> entries == Spared(old(entries), keep)
      ensures cfg.minFree == 0 ==> EachNeeded(cfg, old(entries), evicted, size, newEntry)
      ensures AllValid(Spared(old(entries), keep))
      ensures cfg.minFree == 0 ==>
                (ok <==> && (cfg.maxSize == 0 || Used(Spared(old(entries), keep)) + size <= cfg.maxSize)
                         && (!newEntry || cfg.maxFiles == 0 || |Spared(old(entries), keep)| < cfg.maxFiles))
    {
      hide Used, Candidates, Popped, OldestFirst, EachNeeded, Keys, Distinct, NewestFirst, Spared;
      var used := UsedBytes();
      evicted := [];
      var order := LruOrder(keep);
      var victims := order;
      NothingPopped(cfg, entries, order, size, newEntry);
      while true
        invariant AllValid(entries) && used == Used(entries)
        invariant Popped(order, victims, evicted)
        invariant entries == old(entries) - Keys(evicted)
        invariant cfg.minFree == 0 ==> EachNeeded(cfg, old(entries), evicted, size, newEntry)
        decreases |victims|
      {
        var overDisk := false;
        if cfg.minFree > 0 {
          overDisk := *;
        }
        var overBytes := cfg.maxSize > 0 && used + size > cfg.maxSize;
        var overFiles := newEntry && cfg.maxFiles > 0 && |entries| + 1 > cfg.maxFiles;
        if !overBytes && !overFiles && !overDisk {
          ok := true;
          break;
        }
        if |victims| == 0 {
          ok := false;
          break;
        }
        var v := victims[|victims| - 1];
        assert NotYet(cfg, entries, size, newEntry) || overDisk;
        PopVictim(old(entries), keep, order, victims, evicted);
        NeededStep(cfg, old(entries), evicted, v, size, newEntry);
        UsedRemove(entries, v);
        used := used - entries[v].Charged();
        entries := entries - {v};
        victims := victims[..|victims| - 1];
        evicted := evicted + [v];
      }
      EvictedAreOldest(old(entries), keep, order, victims, evicted);
      EvictRest(cfg, old(entries), evicted, keep, size, newEntry);
      SparedIsRest(old(entries), keep);
      SparedStay(old(entries), evicted, keep);
      StaysBehind(old(entries), Spared(old(entries), keep), evicted);
    }
  }

  lemma StaysBehind(m: Entries, kept: Entries, evicted: seq<string>)
    requires forall k :: k in kept ==> k in m && kept[k] == m[k] && k !in evicted
    ensures forall k :: k in kept ==> k in m - Keys(evicted) && (m - Keys(evicted))[k] == m[k]
  {
  }

  lemma NothingPopped(cfg: Config, m: Entries, order: seq<string>, size: nat, newEntry: bool)
    ensures Popped(order, order, []) && EachNeeded(cfg, m, [], size, newEntry) && m - Keys([]) == m
  {
  }

  /** If the request fits now, it also fits once every candidate is gone. */
  lemma EvictRest(cfg: Config, m: Entries, evicted: seq<string>, keep: Option<string>, size: nat, newEntry: bool)
    requires AllValid(m) && AllValid(m - Keys(evicted)) && OldestFirst(m, evicted, keep)
    ensures var rest := m - Candidates(m, keep);
            && AllValid(rest)
            && (Keys(evicted) == Candidates(m, keep) ==> rest == m - Keys(evicted))
            && (Fits(cfg, m - Keys(evicted), size, newEntry) ==> Fits(cfg, rest, size, newEntry))
  {
    hide Used, Candidates;
    var all := Candidates(m, keep);
    assert m - all == m - Keys(evicted) - all;
    UsedSubset(m - Keys(evicted), all);
  }

  lemma PopVictim(m: Entries, keep: Option<string>, order: seq<string>, victims: seq<string>, evicted: seq<string>)
    requires Distinct(order) && Popped(order, victims, evicted) && |victims| > 0
    requires Keys(order) == Candidates(m, keep)
    ensures var v := victims[|victims| - 1];
            && v in m - Keys(evicted)
            && Popped(order, victims[..|victims| - 1], evicted + [v])
            && m - Keys(evicted + [v]) == m - Keys(evicted) - {v}
  {
    var v := victims[|victims| - 1];
    assert v == order[|victims| - 1];
    assert v in Keys(order);
    assert v !in evicted;
    assert Keys(evicted + [v]) == Keys(evicted) + {v};
  }

  lemma NeededStep(cfg: Config, m: Entries, evicted: seq<string>, v: string, size: nat, newEntry: bool)
    requires cfg.minFree == 0 ==>
              EachNeeded(cfg, m, evicted, size, newEntry) && NotYet(cfg, m - Keys(evicted), size, newEntry)
    ensures cfg.minFree == 0 ==> EachNeeded(cfg, m, evicted + [v], size, newEntry)
  {
    if cfg.minFree == 0 {
      var all := evicted + [v];
      forall i | 0 <= i < |all|
        ensures NotYet(cfg, m - Keys(all[..i]), size, newEntry)
      {
        assert all[..i] == evicted[..i];
        assert i == |evicted| ==> evicted[..i] == evicted;
      }
    }
  }

  lemma EvictedAreOldest(m: Entries, keep: Option<string>, order: seq<string>, victims: seq<string>,
                         evicted: seq<string>)
    requires Keys(order) == Candidates(m, keep) && Distinct(order) && NewestFirst(m, order)
    requires Popped(order, victims, evicted)
    ensures OldestFirst(m, evicted, keep)
    ensures |victims| == 0 ==> Keys(evicted) == Candidates(m, keep)
  {
    forall v | v in evicted
      ensures v in Keys(order)
    {
      var i :| 0 <= i < |evicted| && v == evicted[i];
      assert v == order[|order| - 1 - i];
    }
    forall c | c in Keys(order) && c !in evicted
      ensures exists j :: 0 <= j < |victims| && c == order[j]
    {
      var j :| 0 <= j < |order| && c == order[j];
    }
    forall v, c | v in evicted && c in Candidates(m, keep) && c !in evicted
      ensures Age(m, v) <= Age(m, c)
    {
      var i :| 0 <= i < |evicted| && v == evicted[i];
      assert c in Keys(order);
      var j :| 0 <= j < |victims| && c == order[j];
      assert v == order[|order| - 1 - i];
    }
  }
}
