/** The byte-budgeted LRU over blocks of message content (`utils/chunk_cache.py`). */
module ChunkCache {
  import opened Bytes

  datatype Key = Key(channel: int, message: int, block: int)

  /** One entry of the ordered dictionary; a list of them, oldest first, is its contents. */
  datatype Slot = Slot(key: Key, block: bytes)

  function Total(q: seq<Slot>): nat {
    if |q| == 0 then 0 else |q[0].block| + Total(q[1..])
  }

  ghost predicate Distinct(q: seq<Slot>) {
    forall i, j :: 0 <= i < j < |q| ==> q[i].key != q[j].key
  }

  /** The entries but the one under `key`. */
  function Without(q: seq<Slot>, key: Key): seq<Slot> {
    if |q| == 0 then []
    else if q[0].key == key then q[1..]
    else [q[0]] + Without(q[1..], key)
  }

  /** The position of `key`, or the end. */
  function Find(q: seq<Slot>, key: Key): (i: nat)
    ensures i <= |q|
    ensures i < |q| ==> q[i].key == key
    ensures forall j :: 0 <= j < i ==> q[j].key != key
  {
    if |q| == 0 || q[0].key == key then 0 else 1 + Find(q[1..], key)
  }

  predicate Has(q: seq<Slot>, key: Key) { Find(q, key) < |q| }

  /** Dropping the oldest entries until the budget holds. */
  function Trim(q: seq<Slot>, budget: nat): seq<Slot> {
    if |q| == 0 || Total(q) <= budget then q else Trim(q[1..], budget)
  }

  lemma {:induction false} WithoutMembers(q: seq<Slot>, key: Key)
    requires Distinct(q)
    ensures Distinct(Without(q, key))
    ensures forall s :: s in Without(q, key) <==> s in q && s.key != key
  {
    if |q| > 0 {
      assert q == [q[0]] + q[1..];
      if q[0].key != key {
        WithoutMembers(q[1..], key);
        var rest := Without(q[1..], key);
        forall j | 0 <= j < |rest|
          ensures rest[j].key != q[0].key
        {
          assert rest[j] in rest;
        }
      }
    }
  }

  lemma {:induction false} WithoutTotal(q: seq<Slot>, key: Key)
    ensures Total(Without(q, key)) + (if Has(q, key) then |q[Find(q, key)].block| else 0) == Total(q)
  {
    if |q| > 0 && q[0].key != key {
      WithoutTotal(q[1..], key);
      assert Without(q, key)[1..] == Without(q[1..], key);
    }
  }

  lemma WithoutSpec(q: seq<Slot>, key: Key)
    requires Distinct(q)
    ensures Distinct(Without(q, key))
    ensures forall s :: s in Without(q, key) <==> s in q && s.key != key
    ensures Total(Without(q, key)) + (if Has(q, key) then |q[Find(q, key)].block| else 0) == Total(q)
  {
    hide Without, Total, Find;
    WithoutMembers(q, key);
    WithoutTotal(q, key);
  }

  lemma {:induction false} TotalAppend(q: seq<Slot>, s: Slot)
    ensures Total(q + [s]) == Total(q) + |s.block|
  {
    if |q| == 0 {
      assert q + [s] == [s];
      assert [s][1..] == [];
    } else {
      TotalAppend(q[1..], s);
      assert (q + [s])[1..] == q[1..] + [s];
    }
  }

  /** Eviction is exact: what stays is the longest run of newest entries that fits the budget. */
  lemma {:induction false} TrimSpec(q: seq<Slot>, budget: nat) returns (k: nat)
    ensures k <= |q| && Trim(q, budget) == q[k..] && Total(q[k..]) <= budget
    ensures k > 0 ==> Total(q[k - 1..]) > budget
  {
    if |q| == 0 || Total(q) <= budget {
      k := 0;
      assert q[0..] == q;
    } else {
      var j := TrimSpec(q[1..], budget);
      k := j + 1;
      assert q[k..] == q[1..][j..];
      if j > 0 {
        assert q[k - 1..] == q[1..][j - 1..];
      } else {
        assert q[k - 1..] == q;
      }
    }
  }

  /** The entry put last is never the one evicted, provided it fits on its own. */
  lemma TrimKeepsLast(q: seq<Slot>, budget: nat)
    requires |q| > 0 && |q[|q| - 1].block| <= budget
    ensures |Trim(q, budget)| > 0 && Trim(q, budget)[|Trim(q, budget)| - 1] == q[|q| - 1]
  {
    var k := TrimSpec(q, budget);
    var last := q[|q| - 1];
    assert q[|q| - 1..] == [last];
    assert [last][1..] == [];
    assert Total([last]) == |last.block|;
  }

  /** The cache after `put`. */
  function Put(q: seq<Slot>, budget: nat, key: Key, block: bytes): seq<Slot> {
    if budget == 0 || block == [] || |block| > budget then q
    else Trim(Without(q, key) + [Slot(key, block)], budget)
  }

  /** `put` keeps the cache within its budget and its keys distinct, stores the block if it can be
      stored at all, and changes nothing else than dropping oldest entries. */
  lemma PutSpec(q: seq<Slot>, budget: nat, key: Key, block: bytes)
    requires Distinct(q) && Total(q) <= budget
    ensures Distinct(Put(q, budget, key, block)) && Total(Put(q, budget, key, block)) <= budget
    ensures 0 < |block| <= budget ==> Slot(key, block) in Put(q, budget, key, block)
    ensures forall s :: s in Put(q, budget, key, block) ==> s == Slot(key, block) || s in q
    ensures 0 < |block| <= budget ==> forall s :: s in Put(q, budget, key, block) && s.key == key ==> s.block == block
  {
    if budget > 0 && 0 < |block| <= budget {
      hide Total, Without, Trim, Find, Distinct;
      WithoutSpec(q, key);
      MovedDistinct(q, key, Slot(key, block));
      TrimmedSpec(Without(q, key) + [Slot(key, block)], budget);
    }
  }

  /** Eviction keeps the keys distinct, the newest entry if it fits, and adds nothing. */
  lemma TrimmedSpec(q: seq<Slot>, budget: nat)
    requires Distinct(q) && |q| > 0 && |q[|q| - 1].block| <= budget
    ensures Distinct(Trim(q, budget)) && Total(Trim(q, budget)) <= budget && q[|q| - 1] in Trim(q, budget)
    ensures forall s :: s in Trim(q, budget) ==> s in q
  {
    hide Total, Trim;
    var k := TrimSpec(q, budget);
    TrimKeepsLast(q, budget);
  }

  class Cache {
    const budget: nat
    var blocks: seq<Slot>
    var size: nat
    var hits: nat
    var misses: nat

    ghost predicate Valid()
      reads this
    {
      Distinct(blocks) && size == Total(blocks) <= budget && (budget == 0 ==> blocks == [])
    }

    constructor (budgetBytes: int)
      ensures Valid() && blocks == [] && budget == Max(0, budgetBytes)
    {
      budget := if budgetBytes < 0 then 0 else budgetBytes;
      blocks, size, hits, misses := [], 0, 0, 0;
    }

    /** A hit returns the block and makes it the newest; the contents are otherwise the same. */
    method Get(key: Key) returns (block: Option<bytes>)
      requires Valid()
      modifies this
      ensures Valid() && size == old(size)
      ensures block.Some? <==> Has(old(blocks), key)
      ensures block.Some? ==>
                Slot(key, block.value) in old(blocks)
                && blocks == Without(old(blocks), key) + [Slot(key, block.value)]
      ensures block.None? ==> blocks == old(blocks)
      ensures forall s :: s in blocks <==> s in old(blocks)
      ensures hits == old(hits) + (if block.Some? then 1 else 0)
      ensures misses == old(misses) + if block.None? && budget > 0 then 1 else 0
    {
      if budget == 0 {
        return None;
      }
      var i := Find(blocks, key);
      if i == |blocks| {
        misses := misses + 1;
        return None;
      }
      var found := blocks[i];
      assert found in blocks;
      WithoutSpec(blocks, key);
      TotalAppend(Without(blocks, key), found);
      UniqueSlot(blocks, found);
      MovedDistinct(blocks, key, found);
      blocks := Without(blocks, key) + [found];
      hits := hits + 1;
      block := Some(found.block);
    }

    method Contains(key: Key) returns (held: bool)
      requires Valid()
      ensures held == Has(blocks, key)
    {
      held := budget > 0 && Find(blocks, key) < |blocks|;
    }

    /** Stores the block as the newest and drops the oldest until the budget holds. */
    method Store(key: Key, block: bytes)
      requires Valid()
      modifies this`blocks, this`size
      ensures Valid() && blocks == Put(old(blocks), budget, key, block)
    {
      PutSpec(blocks, budget, key, block);
      if budget == 0 || block == [] || |block| > budget {
        return;
      }
      WithoutSpec(blocks, key);
      ghost var was := blocks;
      var i := Find(blocks, key);
      if i < |blocks| {
        size := size - |blocks[i].block|;
        blocks := Without(blocks, key);
      } else {
        NothingRemoved(blocks, key);
      }
      TotalAppend(blocks, Slot(key, block));
      blocks := blocks + [Slot(key, block)];
      size := size + |block|;
      ghost var all := blocks;
      while size > budget
        invariant Trim(blocks, budget) == Trim(all, budget) && size == Total(blocks)
        decreases |blocks|
      {
        size := size - |blocks[0].block|;
        blocks := blocks[1..];
      }
    }

    /** The keys of one message's blocks. */
    method StaleKeys(channel: int, message: int) returns (stale: seq<Key>)
      ensures forall k :: k in stale ==> k.channel == channel && k.message == message
      ensures forall s :: s in blocks && s.key.channel == channel && s.key.message == message ==> s.key in stale
    {
      stale := [];
      for i := 0 to |blocks|
        invariant forall k :: k in stale ==> k.channel == channel && k.message == message
        invariant forall j :: 0 <= j < i && blocks[j].key.channel == channel && blocks[j].key.message == message ==>
                    blocks[j].key in stale
      {
        if blocks[i].key.channel == channel && blocks[i].key.message == message {
          stale := stale + [blocks[i].key];
        }
      }
    }

    /** Drops every block of one message and nothing else. */
    method Invalidate(channel: int, message: int)
      requires Valid()
      modifies this`blocks, this`size
      ensures Valid()
      ensures forall s :: s in blocks <==> s in old(blocks) && !(s.key.channel == channel && s.key.message == message)
    {
      hide Total, Without, Find, Distinct;
      var stale := StaleKeys(channel, message);
      for i := 0 to |stale|
        invariant Distinct(blocks) && size == Total(blocks) <= budget && (budget == 0 ==> blocks == [])
        invariant forall s :: s in blocks <==> s in old(blocks) && s.key !in stale[..i]
      {
        var key := stale[i];
        WithoutSpec(blocks, key);
        NoBlocks(blocks, key);
        var at := Find(blocks, key);
        size := size - if at < |blocks| then |blocks[at].block| else 0;
        blocks := Without(blocks, key);
        assert stale[..i + 1] == stale[..i] + [key];
      }
      assert stale[..|stale|] == stale;
    }
  }

  lemma NoBlocks(q: seq<Slot>, key: Key)
    ensures q == [] ==> Without(q, key) == []
    ensures Find(q, key) <= |q|
  {
  }

  lemma UniqueSlot(q: seq<Slot>, s: Slot)
    requires Distinct(q) && s in q
    ensures forall t :: t in q && t.key == s.key ==> t == s
  {
  }

  lemma MovedDistinct(q: seq<Slot>, key: Key, s: Slot)
    requires Distinct(q) && s.key == key
    ensures Distinct(Without(q, key) + [s])
  {
    WithoutSpec(q, key);
    var all := Without(q, key) + [s];
    forall i, j | 0 <= i < j < |all|
      ensures all[i].key != all[j].key
    {
      assert all[i] in Without(q, key);
    }
  }

  lemma {:induction false} NothingRemoved(q: seq<Slot>, key: Key)
    requires !Has(q, key)
    ensures Without(q, key) == q
  {
    if |q| > 0 {
      NothingRemoved(q[1..], key);
      assert q == [q[0]] + q[1..];
    }
  }
}
