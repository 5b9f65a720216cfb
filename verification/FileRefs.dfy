/** File refs and the list of them with an index by name (`core/model/directory.py`). */
module FileRefs {
  import opened Bytes

  /** Where the descriptor of a file is kept: message `id` of `store` (of the configured primary when
      no store is named), and its copies in other stores. */
  datatype Descriptor = Descriptor(id: int, store: Option<string>, mirrors: map<string, int>)
  {
    predicate OwnedBy(key: string) { store == None || store == Some(key) }

    /** Every copy known, by store. */
    ghost function Copies(): map<string, int>
      requires store.Some?
    {
      mirrors[store.value := id]
    }

    /** `relocate`: the same descriptor as seen from the store `key`, if that has a copy. */
    function Relocated(key: string): Descriptor {
      if OwnedBy(key) then this
      else
        var kept := if store.value in mirrors then mirrors else mirrors[store.value := id];
        if key in kept && kept[key] > 0 then Descriptor(kept[key], Some(key), kept - {key})
        else this.(mirrors := kept)
    }
  }

  /** Relocating loses no copy and invents none, exactly when no other copy was filed under the old
      store's own key. */
  lemma RelocateKeepsCopies(d: Descriptor, key: string)
    requires d.store.Some? && key in d.mirrors && d.mirrors[key] > 0 && d.store != Some(key)
    ensures d.Relocated(key).store == Some(key) && d.Relocated(key).id == d.mirrors[key]
    ensures d.Relocated(key).Copies() == d.Copies()
            <==> (d.store.value in d.mirrors ==> d.mirrors[d.store.value] == d.id)
  {
    var home := d.store.value;
    var r := d.Relocated(key);
    assert r.Copies()[home] == (if home in d.mirrors then d.mirrors[home] else d.id);
    if home in d.mirrors ==> d.mirrors[home] == d.id {
      assert r.Copies() == d.Copies();
    }
  }

  /** A ref stays where it is unless the new primary has a copy of it, under a real message id; it then has only its
      own message filed as a copy of its store, unless one was filed there. */
  lemma RelocateNeedsCopy(d: Descriptor, key: string)
    ensures d.Relocated(key) == d <==>
            || d.store.None? || d.store == Some(key)
            || (d.store.value in d.mirrors && !(key in d.mirrors && d.mirrors[key] > 0))
    ensures d.store.Some? && d.store != Some(key) ==>
              (d.Relocated(key).store == Some(key) <==> key in d.mirrors && d.mirrors[key] > 0)
    ensures d.store.Some? && d.store != Some(key) && !(key in d.mirrors && d.mirrors[key] > 0) ==>
              && d.Relocated(key).store == d.store && d.Relocated(key).id == d.id
              && d.Relocated(key).mirrors
                 == d.mirrors[d.store.value := if d.store.value in d.mirrors then d.mirrors[d.store.value] else d.id]
  {
    if d.store.Some? && d.store != Some(key) && !(key in d.mirrors && d.mirrors[key] > 0) {
      var home := d.store.value;
      assert home in d.mirrors ==> d.mirrors[home := d.mirrors[home]] == d.mirrors;
      assert home !in d.mirrors ==> home in d.Relocated(key).mirrors;
    }
  }

  /** Promoting a mirror and promoting the old primary again gives the descriptor back. */
  lemma RelocateRoundTrip(d: Descriptor, key: string)
    requires d.store.Some? && d.id > 0 && d.store.value !in d.mirrors
    requires key in d.mirrors && d.mirrors[key] > 0 && key != d.store.value
    ensures d.Relocated(key).Relocated(d.store.value) == d
  {
    var home := d.store.value;
    var back := d.Relocated(key).Relocated(home);
    assert back.mirrors == d.mirrors;
  }

  class FileRef {
    const name: string
    var descriptor: Descriptor
    var stat: Option<nat>
    var statEpoch: nat

    constructor (n: string, id: int)
      ensures name == n && descriptor == Descriptor(id, None, map[]) && stat == None && statEpoch == 0
    {
      name := n;
      descriptor, stat, statEpoch := Descriptor(id, None, map[]), None, 0;
    }

    method Relocate(primary: string)
      modifies this`descriptor
      ensures descriptor == old(descriptor).Relocated(primary)
    {
      if descriptor.OwnedBy(primary) || descriptor.store.None? {
        return;
      }
      var home := descriptor.store.value;
      if home !in descriptor.mirrors {
        descriptor := descriptor.(mirrors := descriptor.mirrors[home := descriptor.id]);
      }
      if primary in descriptor.mirrors && descriptor.mirrors[primary] > 0 {
        var id := descriptor.mirrors[primary];
        descriptor := Descriptor(id, Some(primary), descriptor.mirrors - {primary});
      }
    }
  }

  // -- the list and its index -----------------------------------------------------------------------

  /** The refs called `name`, by scanning the list. */
  function Scan(refs: seq<FileRef>, name: string): seq<FileRef> {
    if |refs| == 0 then []
    else Scan(refs[..|refs| - 1], name) + (if refs[|refs| - 1].name == name then [refs[|refs| - 1]] else [])
  }

  ghost predicate UniqueNames(refs: seq<FileRef>) {
    forall i, j :: 0 <= i < j < |refs| ==> refs[i].name != refs[j].name
  }

  function Lookup(byName: map<string, seq<FileRef>>, name: string): seq<FileRef> {
    if name in byName then byName[name] else []
  }

  /** The index says of every name what a scan would. */
  ghost predicate Indexed(refs: seq<FileRef>, byName: map<string, seq<FileRef>>) {
    && (forall name :: Lookup(byName, name) == Scan(refs, name))
    && (forall name :: name in byName ==> byName[name] != [])
  }

  lemma ScanAppend(refs: seq<FileRef>, r: FileRef, name: string)
    ensures Scan(refs + [r], name) == Scan(refs, name) + if r.name == name then [r] else []
  {
    assert (refs + [r])[..|refs|] == refs;
  }

  lemma {:induction false} ScanConcat(a: seq<FileRef>, b: seq<FileRef>, name: string)
    ensures Scan(a + b, name) == Scan(a, name) + Scan(b, name)
    decreases |b|
  {
    if |b| == 0 {
      assert a + b == a;
    } else {
      var n := |b| - 1;
      ScanConcat(a, b[..n], name);
      ScanAppend(a + b[..n], b[n], name);
      assert a + b == (a + b[..n]) + [b[n]];
    }
  }

  lemma {:induction false} ScanMembers(refs: seq<FileRef>, name: string, r: FileRef)
    ensures r in Scan(refs, name) <==> r in refs && r.name == name
  {
    if |refs| > 0 {
      ScanMembers(refs[..|refs| - 1], name, r);
      assert refs == refs[..|refs| - 1] + [refs[|refs| - 1]];
    }
  }

  lemma ScanSplit(refs: seq<FileRef>, i: nat, name: string)
    requires i < |refs|
    ensures Scan(refs, name)
         == Scan(refs[..i], name) + (if refs[i].name == name then [refs[i]] else []) + Scan(refs[i + 1..], name)
  {
    hide Scan;
    assert refs == (refs[..i] + [refs[i]]) + refs[i + 1..];
    ScanConcat(refs[..i] + [refs[i]], refs[i + 1..], name);
    ScanAppend(refs[..i], refs[i], name);
  }

  /** The list without its `i`-th ref. */
  function Cut(refs: seq<FileRef>, i: nat): seq<FileRef>
    requires i < |refs|
  {
    refs[..i] + refs[i + 1..]
  }

  /** Refs of one directory are equal when they have the same name and describe the same file; being the
      same object is not compared. */
  predicate Same(a: FileRef, b: FileRef)
    reads a, b
  {
    a.name == b.name && a.descriptor == b.descriptor
  }

  /** The position of the first ref equal to `r`, or the end. */
  function FirstSame(refs: seq<FileRef>, r: FileRef): (i: nat)
    reads refs, r
    ensures i <= |refs| && (i < |refs| ==> Same(refs[i], r)) && forall j :: 0 <= j < i ==> !Same(refs[j], r)
  {
    if |refs| == 0 then 0
    else
      var i := FirstSame(refs[..|refs| - 1], r);
      if i < |refs| - 1 || Same(refs[|refs| - 1], r) then i else |refs|
  }

  /** What is left of `s` without the object `r`. */
  function Without(s: seq<FileRef>, r: FileRef): (w: seq<FileRef>)
    ensures |w| <= |s| && (|w| == |s| <==> r !in s)
    ensures r !in s ==> w == s
  {
    if |s| == 0 then [] else (if s[0] == r then [] else [s[0]]) + Without(s[1..], r)
  }

  lemma WithoutFirst(s: seq<FileRef>, r: FileRef, head: FileRef, tail: seq<FileRef>)
    requires s == [head] + tail
    ensures Without(s, r) == (if head == r then [] else [head]) + Without(tail, r)
  {
    assert s[1..] == tail;
  }

  lemma {:induction false} WithoutConcat(a: seq<FileRef>, b: seq<FileRef>, r: FileRef)
    ensures Without(a + b, r) == Without(a, r) + Without(b, r)
  {
    if |a| == 0 {
      assert a + b == b;
    } else {
      hide Without;
      var head, tail := a[0], a[1..];
      WithoutConcat(tail, b, r);
      assert a == [head] + tail;
      Associate([head], tail, b);
      WithoutFirst(a, r, head, tail);
      WithoutFirst(a + b, r, head, tail + b);
      Associate(if head == r then [] else [head], Without(tail, r), Without(b, r));
    }
  }

  lemma {:induction false} NotShifted(x: FileRef, s: seq<FileRef>, r: FileRef)
    requires x != r
    ensures [x] + Without(s, r) != s
  {
    if |s| > 0 {
      hide Without;
      var head, tail := s[0], s[1..];
      assert s == [head] + tail;
      NotShifted(x, tail, r);
      WithoutFirst(s, r, head, tail);
      assert head == x ==> Without(s, r) == [x] + Without(tail, r);
      SameTail([x], Without(s, r), tail);
    }
  }

  /** Taking `x` out of the list and `r` out of the index leaves them in step exactly when `x` is `r` and
      the list does not hold it elsewhere. */
  lemma CutIff(a: seq<FileRef>, x: FileRef, b: seq<FileRef>, r: FileRef)
    requires x == r || r !in a
    ensures Without(a + [x] + b, r) == a + b <==> x == r && r !in a && r !in b
  {
    hide Without;
    WithoutConcat(a + [x], b, r);
    WithoutConcat(a, [x], r);
    var l, m, n := Without(a, r), Without(b, r), Without([x], r);
    assert n == if x == r then [] else [x] by {
      WithoutOne(x, r);
    }
    if x == r {
      assert Without(a + [x] + b, r) == l + m;
      assert |l + m| == |a + b| ==> l == a && m == b;
    } else {
      NotShifted(x, b, r);
      assert l == a;
      Associate(a, [x], m);
      SameTail(a, [x] + m, b);
    }
  }

  lemma WithoutOne(x: FileRef, r: FileRef)
    ensures Without([x], r) == if x == r then [] else [x]
  {
    assert [x][1..] == [];
  }

  lemma SameTail(a: seq<FileRef>, y: seq<FileRef>, z: seq<FileRef>)
    ensures a + y == a + z <==> y == z
  {
    assert y == (a + y)[|a|..] && z == (a + z)[|a|..];
  }

  lemma ScanCut(refs: seq<FileRef>, i: nat, name: string)
    requires i < |refs|
    ensures Scan(Cut(refs, i), name) == Scan(refs[..i], name) + Scan(refs[i + 1..], name)
  {
    ScanConcat(refs[..i], refs[i + 1..], name);
  }

  lemma ScanHolds(refs: seq<FileRef>, r: FileRef)
    ensures r in Scan(refs, r.name) <==> r in refs
  {
    ScanMembers(refs, r.name, r);
  }

  /** With unique names a ref of the list is the only one equal to itself. */
  lemma UniqueIsFirst(refs: seq<FileRef>, r: FileRef)
    requires UniqueNames(refs) && r in refs
    ensures var i := FirstSame(refs, r); i < |refs| && refs[i] == r && r !in refs[i + 1..]
  {
  }

  /** The index after the object `r` has been taken out of it. */
  function Unindexed(byName: map<string, seq<FileRef>>, r: FileRef): map<string, seq<FileRef>> {
    if r.name !in byName then byName
    else
      var left := Without(byName[r.name], r);
      if left == [] then byName - {r.name} else byName[r.name := left]
  }

  lemma UnindexedLookup(byName: map<string, seq<FileRef>>, r: FileRef, name: string)
    ensures Lookup(Unindexed(byName, r), name)
         == if name == r.name then Without(Lookup(byName, name), r) else Lookup(byName, name)
  {
  }

  /** Taking ref `i` out of the list and `r`, of the same name, out of the index. */
  lemma CutIndexedIff(refs: seq<FileRef>, byName: map<string, seq<FileRef>>, i: nat, r: FileRef)
    requires Indexed(refs, byName) && i < |refs| && refs[i].name == r.name && (refs[i] == r || r !in refs[..i])
    ensures Indexed(Cut(refs, i), Unindexed(byName, r)) <==> refs[i] == r && r !in refs[..i] && r !in refs[i + 1..]
  {
    hide Scan, Lookup, Without, Unindexed, Cut;
    var a, x, b := Scan(refs[..i], r.name), refs[i], Scan(refs[i + 1..], r.name);
    var cut, left := Cut(refs, i), Unindexed(byName, r);
    forall name: string | name != r.name
      ensures Lookup(left, name) == Scan(cut, name)
    {
      UnindexedLookup(byName, r, name);
      ScanSplit(refs, i, name);
      ScanCut(refs, i, name);
    }
    UnindexedLookup(byName, r, r.name);
    ScanSplit(refs, i, r.name);
    ScanCut(refs, i, r.name);
    ScanHolds(refs[..i], r);
    ScanHolds(refs[i + 1..], r);
    CutIff(a, x, b, r);
    assert Lookup(left, r.name) == Without(a + [x] + b, r) && Scan(cut, r.name) == a + b;
    NoEmptyLists(byName, r);
  }

  lemma NoEmptyLists(byName: map<string, seq<FileRef>>, r: FileRef)
    requires forall name :: name in byName ==> byName[name] != []
    ensures forall name :: name in Unindexed(byName, r) ==> Unindexed(byName, r)[name] != []
  {
    hide Without;
  }

  lemma LookupAdded(byName: map<string, seq<FileRef>>, r: FileRef, name: string)
    ensures Lookup(byName[r.name := Lookup(byName, r.name) + [r]], name)
         == Lookup(byName, name) + if r.name == name then [r] else []
  {
  }

  lemma {:induction false} Commutes<T>(x: T, s: seq<T>)
    ensures [x] + s == s + [x] <==> forall k :: 0 <= k < |s| ==> s[k] == x
  {
    if |s| > 0 {
      Commutes(x, s[1..]);
      var l, r := [x] + s, s + [x];
      if l == r {
        assert s[0] == r[0] == l[0] == x;
        assert [x] + s[1..] == s == l[1..] == r[1..] == s[1..] + [x];
      }
    }
  }

  lemma HeadCancels<T>(head: seq<T>, x: seq<T>, y: seq<T>)
    ensures head + x + y == head + y + x <==> x + y == y + x
  {
    var l, r := head + (x + y), head + (y + x);
    assert head + x + y == l && head + y + x == r;
    assert l[|head|..] == x + y && r[|head|..] == y + x;
  }

  /** Where a ref of the inserted one's name follows, list order and index order part. */
  lemma InsertedIff(a: seq<FileRef>, b: seq<FileRef>, r: FileRef)
    ensures Scan(a, r.name) + [r] + Scan(b, r.name) == Scan(a, r.name) + Scan(b, r.name) + [r]
       <==> forall j :: 0 <= j < |b| && b[j].name == r.name ==> b[j] == r
  {
    hide Scan;
    var head, s := Scan(a, r.name), Scan(b, r.name);
    Commutes(r, s);
    HeadCancels(head, [r], s);
    forall j | 0 <= j < |b| && b[j].name == r.name
      ensures b[j] in s
    {
      ScanMembers(b, r.name, b[j]);
    }
    forall k | 0 <= k < |s|
      ensures s[k] in b && s[k].name == r.name
    {
      ScanMembers(b, r.name, s[k]);
    }
  }

  class FileRefList {
    var refs: seq<FileRef>
    var byName: map<string, seq<FileRef>>

    /** The index says what a scan would, also for a list that holds a name more than once. */
    ghost predicate Valid()
      reads this
    {
      Indexed(refs, byName)
    }

    constructor ()
      ensures Valid() && refs == []
    {
      refs, byName := [], map[];
    }

    /** A lookup gives what a scan of the list gives. */
    method Find(name: string) returns (found: seq<FileRef>)
      requires Valid()
      ensures found == Scan(refs, name)
      ensures forall r :: r in found <==> r in refs && r.name == name
    {
      found := Lookup(byName, name);
      forall r: FileRef
        ensures r in found <==> r in refs && r.name == name
      {
        ScanMembers(refs, name, r);
      }
    }

    method Append(r: FileRef)
      requires Valid()
      modifies this
      ensures Valid() && refs == old(refs) + [r]
    {
      hide Scan, Lookup;
      var grown := byName[r.name := Lookup(byName, r.name) + [r]];
      forall name: string
        ensures Lookup(grown, name) == Scan(refs + [r], name)
      {
        ScanAppend(refs, r, name);
        LookupAdded(byName, r, name);
      }
      refs := refs + [r];
      byName := grown;
    }

    /** Inserting keeps the index equal to a scan exactly when no other ref of that name lies at or after
        the place: the index appends the ref to its name, wherever it goes in the list. */
    method Insert(i: nat, r: FileRef)
      requires Valid() && i <= |refs|
      modifies this
      ensures refs == old(refs)[..i] + [r] + old(refs)[i..]
      ensures Valid() <==> forall j :: i <= j < |old(refs)| && old(refs)[j].name == r.name ==> old(refs)[j] == r
    {
      hide Scan, Lookup;
      var a, b := refs[..i], refs[i..];
      assert refs == a + b;
      var grown := byName[r.name := Lookup(byName, r.name) + [r]];
      forall name: string
        ensures Lookup(grown, name) == Scan(a, name) + Scan(b, name) + (if r.name == name then [r] else [])
        ensures Scan(a + [r] + b, name) == Scan(a, name) + (if r.name == name then [r] else []) + Scan(b, name)
      {
        LookupAdded(byName, r, name);
        ScanConcat(a, b, name);
        ScanConcat(a + [r], b, name);
        ScanAppend(a, r, name);
      }
      InsertedIff(a, b, r);
      refs := a + [r] + b;
      byName := grown;
    }

    /** `pop`: the index stays equal to a scan exactly when the list does not hold the ref elsewhere. */
    method RemoveAt(i: nat)
      requires Valid() && i < |refs|
      modifies this
      ensures refs == Cut(old(refs), i)
      ensures Valid() <==> old(refs)[i] !in Cut(old(refs), i)
    {
      var r := refs[i];
      CutIndexedIff(refs, byName, i, r);
      refs := Cut(refs, i);
      byName := Unindexed(byName, r);
    }

    /** `remove`: the first ref equal to this one leaves the list, but it is the object itself that leaves
        the index; an error when none is equal. The index stays equal to a scan exactly when the first
        equal one is this very ref and it is not in the list again. */
    method Remove(r: FileRef) returns (ok: bool)
      requires Valid()
      modifies this
      ensures ok == (old(FirstSame(refs, r)) < |old(refs)|)
      ensures !ok ==> Valid() && refs == old(refs)
      ensures ok ==> var i := old(FirstSame(refs, r));
        && refs == Cut(old(refs), i)
        && (Valid() <==> old(refs)[i] == r && r !in old(refs)[i + 1..])
    {
      hide Indexed, Cut, Unindexed;
      var i := 0;
      while i < |refs| && !Same(refs[i], r)
        invariant 0 <= i <= |refs| && forall j :: 0 <= j < i ==> !Same(refs[j], r)
      {
        i := i + 1;
      }
      if i == |refs| {
        return false;
      }
      ghost var before := refs[..i];
      assert r !in before;
      CutIndexedIff(refs, byName, i, r);
      refs := Cut(refs, i);
      byName := Unindexed(byName, r);
      return true;
    }

    method Clear()
      modifies this
      ensures Valid() && refs == []
    {
      refs, byName := [], map[];
    }

    /** `_reindex`: the index built anew from the list. */
    method Reindex()
      modifies this`byName
      ensures Valid()
    {
      byName := map[];
      for i := 0 to |refs|
        invariant Indexed(refs[..i], byName)
      {
        var r := refs[i];
        assert refs[..i + 1] == refs[..i] + [r];
        forall name: string
          ensures Scan(refs[..i] + [r], name) == Scan(refs[..i], name) + if r.name == name then [r] else []
        {
          ScanAppend(refs[..i], r, name);
        }
        byName := byName[r.name := Lookup(byName, r.name) + [r]];
      }
      assert refs[..|refs|] == refs;
    }
  }

  /** Two refs of one name: the second, inserted in front, is last in the index. */
  method InsertedInFront() returns (list: FileRefList, first: FileRef, second: FileRef)
    ensures list.refs == [second, first] && first != second && first.name == second.name && !list.Valid()
  {
    list := new FileRefList();
    first := new FileRef("a", 1);
    second := new FileRef("a", 2);
    list.Append(first);
    list.Insert(0, second);
    assert [first][0] == first;
  }

  /** Two equal refs: removing the second takes the first out of the list and the second out of the index. */
  method RemovedTwin() returns (list: FileRefList, first: FileRef, second: FileRef)
    ensures list.refs == [second] && first != second && !list.Valid()
  {
    list := new FileRefList();
    first := new FileRef("a", 1);
    second := new FileRef("a", 1);
    list.Append(first);
    list.Append(second);
    var refs := list.refs;
    assert refs == [first, second] && Same(refs[0], second);
    var ok := list.Remove(second);
    assert Cut(refs, 0) == [second];
  }
}
