/** Replication of a version into mirror stores (`core/mirror.py`): aligned copies, one message per
    part, and replicas, cut as the target store cuts, under any failures of the stores. */
module Mirror {
  import opened Bytes

  datatype Mode = Auto | Forward | Reupload

  datatype Sent = Sent(id: int, size: nat)

  /** How one upload goes: the store cuts the bytes its own way; on a failure it may have stored
      some of the parts already. */
  datatype Upload = Upload(ok: bool, kept: nat, cut: bytes -> seq<bytes>)

  /** How a server-side copy goes: it raises, is not supported, or is made. */
  datatype Copy = Raises(kept: nat) | Unsupported | Copies

  /** Everything outside this process while one store is written: whether looking up the source's
      messages works, how the server-side copy and each upload go, which reads succeed. */
  datatype Weather = Weather(lookup: bool, copy: Copy, readable: nat -> bool, uploads: nat -> Upload)
  {
    /** The store contract: parts, as cut, join to what was uploaded. */
    ghost predicate Lawful() {
      forall i, b :: Flatten(uploads(i).cut(b)) == b
    }

    /** The store keeps to its part limit: what fits one message is sent as one, and no message holds
        more. */
    ghost predicate Within(max: nat) {
      forall i, b ::
        && (|b| <= max ==> |uploads(i).cut(b)| == 1)
        && (forall k :: 0 <= k < |uploads(i).cut(b)| ==> |uploads(i).cut(b)[k]| <= max)
    }

    /** No read and no upload fails. */
    ghost predicate Fair() {
      (forall i :: readable(i)) && forall i :: uploads(i).ok
    }
  }

  /** Nothing that was there has changed. */
  ghost predicate Grows(a: map<int, bytes>, b: map<int, bytes>) {
    forall k :: k in a ==> k in b && b[k] == a[k]
  }

  /** The messages `ids` hold these parts. */
  ghost predicate Holds(docs: map<int, bytes>, ids: seq<int>, parts: seq<bytes>) {
    |ids| == |parts| && forall i :: 0 <= i < |ids| ==> ids[i] in docs && docs[ids[i]] == parts[i]
  }

  lemma HoldsGrows(a: map<int, bytes>, b: map<int, bytes>, ids: seq<int>, parts: seq<bytes>)
    requires Grows(a, b) && Holds(a, ids, parts)
    ensures Holds(b, ids, parts)
  {
    forall i | 0 <= i < |ids|
      ensures ids[i] in b && b[ids[i]] == parts[i]
    {
      var k := ids[i];
      assert k in a && a[k] == parts[i];
      assert k in b && b[k] == a[k];
    }
  }

  /** One channel of one backend: its documents by message id. Documents are only ever added. */
  class Store {
    const key: string
    const backend: string
    const maxPart: nat
    var docs: map<int, bytes>
    var nextId: int

    ghost predicate Valid()
      reads this
    {
      forall k :: k in docs ==> k < nextId
    }

    method Send(part: bytes) returns (id: int)
      requires Valid()
      modifies this
      ensures Valid() && Grows(old(docs), docs) && id !in old(docs) && docs == old(docs)[id := part]
    {
      id := nextId;
      docs := docs[id := part];
      nextId := nextId + 1;
    }

    /** Sends the first `n` parts, each as a new message. */
    method SendAll(parts: seq<bytes>, n: nat) returns (ids: seq<int>)
      requires Valid() && n <= |parts|
      modifies this
      ensures Valid() && Grows(old(docs), docs) && Holds(docs, ids, parts[..n])
    {
      ids := [];
      for i := 0 to n
        invariant Valid() && Grows(old(docs), docs) && Holds(docs, ids, parts[..i])
      {
        ghost var before := docs;
        var id := Send(parts[i]);
        HoldsGrows(before, docs, ids, parts[..i]);
        assert parts[..i + 1] == parts[..i] + [parts[i]];
        ids := ids + [id];
      }
    }

    /** `IStore.upload`. */
    method UploadBytes(content: bytes, how: Upload) returns (sent: Result<seq<Sent>>)
      requires Valid() && Flatten(how.cut(content)) == content
      modifies this
      ensures Valid() && Grows(old(docs), docs)
      ensures sent.Ok? <==> how.ok
      ensures sent.Ok? ==> Holds(docs, Ids(sent.value), how.cut(content))
      ensures sent.Ok? ==> forall i :: 0 <= i < |sent.value| ==> sent.value[i].size == |how.cut(content)[i]|
    {
      var parts := how.cut(content);
      if !how.ok {
        var strays := SendAll(parts, if how.kept <= |parts| then how.kept else |parts|);
        return Err;
      }
      var ids := SendAll(parts, |parts|);
      assert parts[..|parts|] == parts;
      var res := seq(|parts|, i requires 0 <= i < |parts| && |ids| == |parts| => Sent(ids[i], |parts[i]|));
      assert Ids(res) == ids;
      return Ok(res);
    }

    /** `IStore.copy_from`: the same documents as new messages, without moving their bytes. */
    method CopyFrom(source: map<int, bytes>, ids: seq<int>, how: Copy) returns (res: Result<Option<seq<int>>>)
      requires Valid()
      modifies this
      ensures Valid() && Grows(old(docs), docs)
      ensures res.Ok? && res.value.Some? <==> how.Copies? && forall i :: 0 <= i < |ids| ==> ids[i] in source
      ensures res.Ok? && res.value.None? <==> how.Unsupported?
      ensures res.Ok? && res.value.Some? ==> Holds(docs, res.value.value, Documents(source, ids))
    {
      if how.Unsupported? {
        return Ok(None);
      }
      if exists i :: 0 <= i < |ids| && ids[i] !in source {
        return Err;
      }
      var parts := Documents(source, ids);
      if how.Raises? {
        var strays := SendAll(parts, if how.kept <= |parts| then how.kept else |parts|);
        return Err;
      }
      var copies := SendAll(parts, |parts|);
      assert parts[..|parts|] == parts;
      return Ok(Some(copies));
    }
  }

  function Ids(sent: seq<Sent>): (r: seq<int>)
    ensures |r| == |sent| && forall i :: 0 <= i < |r| ==> r[i] == sent[i].id
  {
    seq(|sent|, i requires 0 <= i < |sent| => sent[i].id)
  }

  function Documents(source: map<int, bytes>, ids: seq<int>): (r: seq<bytes>)
    requires forall i :: 0 <= i < |ids| ==> ids[i] in source
    ensures |r| == |ids| && forall i :: 0 <= i < |r| ==> r[i] == source[ids[i]]
  {
    seq(|ids|, i requires 0 <= i < |ids| => source[ids[i]])
  }

  /** The version being copied: the messages of the source, the parts they hold as far as they are
      still there, and a complete local copy if there is one. */
  datatype Version = Version(ids: seq<int>, parts: seq<bytes>, local: Option<bytes>)
  {
    ghost predicate Valid(source: map<int, bytes>) {
      && |ids| == |parts|
      && (forall i :: 0 <= i < |ids| && ids[i] in source ==> source[ids[i]] == parts[i])
      && (local.Some? ==> local.value == Flatten(parts))
    }

    ghost predicate InSource(source: map<int, bytes>) {
      forall i :: 0 <= i < |ids| ==> ids[i] in source
    }
  }

  ghost predicate SizesOf(sizes: seq<nat>, parts: seq<bytes>) {
    |sizes| == |parts| && forall i :: 0 <= i < |sizes| ==> sizes[i] == |parts[i]|
  }

  datatype Replica = Replica(ids: seq<int>, sizes: seq<nat>)

  /** The store holds the whole version under its own layout. */
  ghost predicate IsReplica(docs: map<int, bytes>, r: Replica, content: bytes) {
    exists parts :: Holds(docs, r.ids, parts) && SizesOf(r.sizes, parts) && Flatten(parts) == content
  }

  // -- copying into one store ---------------------------------------------------------------------

  /** `_part_sizes`: the sizes of the source's messages, an error for one that is gone. */
  method PartSizes(source: map<int, bytes>, ids: seq<int>, ok: bool) returns (sizes: Result<seq<nat>>)
    ensures sizes.Ok? <==> ok && forall i :: 0 <= i < |ids| ==> ids[i] in source
    ensures sizes.Ok? ==> |sizes.value| == |ids|
    ensures sizes.Ok? ==> forall i :: 0 <= i < |ids| && ids[i] in source ==> sizes.value[i] == |source[ids[i]]|
  {
    if !ok {
      return Err;
    }
    var res: seq<nat> := [];
    for i := 0 to |ids|
      invariant |res| == i && forall j :: 0 <= j < i ==> ids[j] in source && res[j] == |source[ids[j]]|
    {
      if ids[i] !in source {
        return Err;
      }
      res := res + [|source[ids[i]]|];
    }
    return Ok(res);
  }

  /** `_fits_aligned`: a store of the same backend takes every part as it is, another one if its
      largest message holds the largest part. */
  method FitsAligned(target: Store, backend: string, sizes: seq<nat>) returns (fits: bool)
    ensures fits <==> target.backend == backend || forall i :: 0 <= i < |sizes| ==> sizes[i] <= target.maxPart
  {
    if target.backend == backend {
      return true;
    }
    var largest := 0;
    for i := 0 to |sizes|
      invariant (forall j :: 0 <= j < i ==> sizes[j] <= largest)
                && (largest > 0 ==> exists j :: 0 <= j < i && sizes[j] == largest)
    {
      if sizes[i] > largest {
        largest := sizes[i];
      }
    }
    return largest <= target.maxPart;
  }

  /** `_reupload_one`: one part, from the local copy or from the source, as one new message. */
  method ReuploadOne(target: Store, source: map<int, bytes>, id: int, local: Option<bytes>, readable: bool,
                     how: Upload, ghost part: bytes)
    returns (res: Result<int>)
    requires target.Valid() && (forall b :: Flatten(how.cut(b)) == b)
    requires (local.Some? ==> local.value == part) && (id in source ==> source[id] == part)
    modifies target
    ensures target.Valid() && Grows(old(target.docs), target.docs)
    ensures res.Ok? ==> res.value in target.docs && target.docs[res.value] == part
    ensures res.Ok? <==> (local.Some? || id in source) && readable && how.ok && |how.cut(part)| == 1
  {
    if local.None? && id !in source {
      return Err;
    }
    if !readable {
      return Err;
    }
    var content := if local.Some? then local.value else source[id];
    var sent := target.UploadBytes(content, how);
    if sent.Err? || |sent.value| != 1 {
      return Err;
    }
    ghost var parts := how.cut(content);
    assert parts == [parts[0]];
    FlattenAppend([], parts[0]);
    assert [] + [parts[0]] == parts;
    return Ok(sent.value[0].id);
  }

  /** Part `i` of a local copy, by the part sizes. */
  lemma LocalPart(parts: seq<bytes>, sizes: seq<nat>, i: nat)
    requires SizesOf(sizes, parts) && i < |parts|
    ensures Sum(sizes[..i]) == |Flatten(parts[..i])|
    ensures Sum(sizes[..i]) + sizes[i] <= |Flatten(parts)|
    ensures Flatten(parts)[Sum(sizes[..i])..Sum(sizes[..i]) + sizes[i]] == parts[i]
  {
    hide Flatten;
    SumIsLength(parts, sizes, i);
    assert parts == parts[..i] + parts[i..];
    FlattenConcat(parts[..i], parts[i..]);
    FlattenDrop(parts, i);
    Middle(Flatten(parts[..i]), parts[i], Flatten(parts[i + 1..]));
  }

  lemma {:induction false} SumIsLength(parts: seq<bytes>, sizes: seq<nat>, i: nat)
    requires SizesOf(sizes, parts) && i <= |parts|
    ensures Sum(sizes[..i]) == |Flatten(parts[..i])|
  {
    if i > 0 {
      SumIsLength(parts, sizes, i - 1);
      assert parts[..i] == parts[..i - 1] + [parts[i - 1]];
      assert sizes[..i] == sizes[..i - 1] + [sizes[i - 1]];
      FlattenAppend(parts[..i - 1], parts[i - 1]);
      SumAppend(sizes[..i - 1], sizes[i - 1]);
    }
  }

  /** Part `i` can be read, and its upload makes it one message. */
  ghost predicate Reuploads(source: map<int, bytes>, v: Version, w: Weather, i: nat)
    requires i < |v.ids| && i < |v.parts|
  {
    (v.local.Some? || v.ids[i] in source) && w.readable(i) && w.uploads(i).ok && |w.uploads(i).cut(v.parts[i])| == 1
  }

  /** In a store that keeps to its limit, what is sent as one message is what fits one. */
  lemma OneMessageIff(w: Weather, max: nat, i: nat, b: bytes)
    requires w.Lawful() && w.Within(max)
    ensures |w.uploads(i).cut(b)| == 1 <==> |b| <= max
  {
    var parts := w.uploads(i).cut(b);
    if |parts| == 1 {
      assert parts == [] + [parts[0]];
      FlattenAppend([], parts[0]);
      FlattenNone<byte>();
      assert Flatten(parts) == b == parts[0];
    }
  }

  /** Every part uploaded again, from the local copy if there is one. */
  method ReuploadAll(target: Store, source: map<int, bytes>, v: Version, sizes: seq<nat>, w: Weather)
    returns (res: Result<seq<int>>)
    requires target.Valid() && w.Lawful() && v.Valid(source) && SizesOf(sizes, v.parts)
    modifies target
    ensures target.Valid() && Grows(old(target.docs), target.docs)
    ensures res.Ok? ==> Holds(target.docs, res.value, v.parts)
    ensures res.Ok? <==> forall i :: 0 <= i < |v.ids| ==> Reuploads(source, v, w, i)
  {
    hide Flatten, Sum;
    assert Sum(sizes[..0]) == 0 by {
      SumNone(sizes);
    }
    var ids: seq<int> := [];
    var begin := 0;
    for i := 0 to |v.ids|
      invariant target.Valid() && Grows(old(target.docs), target.docs)
      invariant begin == Sum(sizes[..i]) && Holds(target.docs, ids, v.parts[..i])
      invariant forall j :: 0 <= j < i ==> Reuploads(source, v, w, j)
    {
      LocalPart(v.parts, sizes, i);
      var local := if v.local.Some? then Some(v.local.value[begin..begin + sizes[i]]) else None;
      ghost var before := target.docs;
      var id := ReuploadOne(target, source, v.ids[i], local, w.readable(i), w.uploads(i), v.parts[i]);
      if id.Err? {
        assert !Reuploads(source, v, w, i);
        return Err;
      }
      HoldsGrows(before, target.docs, ids, v.parts[..i]);
      assert v.parts[..i + 1] == v.parts[..i] + [v.parts[i]];
      assert sizes[..i + 1] == sizes[..i] + [sizes[i]];
      SumAppend(sizes[..i], sizes[i]);
      ids := ids + [id.value];
      begin := begin + sizes[i];
    }
    assert v.parts[..|v.ids|] == v.parts;
    return Ok(ids);
  }

  lemma SumNone(sizes: seq<nat>)
    ensures Sum(sizes[..0]) == 0
  {
  }

  /** When an aligned copy comes about: the server makes it, or every part goes up again. */
  ghost predicate CopySucceeds(mode: Mode, source: map<int, bytes>, v: Version, w: Weather)
    requires |v.ids| == |v.parts|
  {
    || |v.ids| == 0
    || (mode != Reupload && w.copy.Copies? && v.InSource(source))
    || (mode != Forward && forall i :: 0 <= i < |v.ids| ==> Reuploads(source, v, w, i))
  }

  /** `_copy_to`: an aligned copy, one message per part, each holding that very part: copied by the
      server, or uploaded again from the source or from the local copy. */
  method CopyTo(mode: Mode, target: Store, source: map<int, bytes>, v: Version, sizes: seq<nat>, w: Weather)
    returns (res: Result<seq<int>>)
    requires target.Valid() && w.Lawful() && v.Valid(source) && SizesOf(sizes, v.parts)
    modifies target
    ensures target.Valid() && Grows(old(target.docs), target.docs)
    ensures res.Ok? ==> Holds(target.docs, res.value, v.parts)
    ensures res.Ok? <==> CopySucceeds(mode, source, v, w)
  {
    hide Reuploads, Flatten;
    if |v.ids| == 0 {
      return Ok([]);
    }
    if mode != Reupload {
      var copied := target.CopyFrom(source, v.ids, w.copy);
      if copied.Err? && mode == Forward {
        return Err;
      }
      if copied.Ok? && copied.value.Some? {
        assert Documents(source, v.ids) == v.parts;
        return Ok(copied.value.value);
      }
      if mode == Forward {
        return Err;
      }
    }
    res := ReuploadAll(target, source, v, sizes, w);
  }

  /** When the whole content can be read: from the local copy, or every part that is not empty. */
  ghost predicate Streams(source: map<int, bytes>, v: Version, w: Weather)
    requires |v.ids| == |v.parts|
  {
    if v.local.Some? then w.readable(0)
    else forall i :: 0 <= i < |v.ids| && |v.parts[i]| > 0 ==> v.ids[i] in source && w.readable(i)
  }

  /** The bytes `_replicate` streams: the local copy, or every part from the source in order. */
  method Content(source: map<int, bytes>, v: Version, sizes: seq<nat>, w: Weather) returns (res: Result<bytes>)
    requires v.Valid(source) && SizesOf(sizes, v.parts)
    ensures res.Ok? <==> Streams(source, v, w)
    ensures res.Ok? ==> res.value == Flatten(v.parts)
  {
    hide Flatten;
    if v.local.Some? {
      return if w.readable(0) then Ok(v.local.value) else Err;
    }
    var out: bytes := [];
    FlattenNone<byte>();
    assert v.parts[..0] == [];
    for i := 0 to |v.ids|
      invariant out == Flatten(v.parts[..i])
      invariant forall j :: 0 <= j < i && |v.parts[j]| > 0 ==> v.ids[j] in source && w.readable(j)
    {
      assert v.parts[..i + 1] == v.parts[..i] + [v.parts[i]];
      FlattenAppend(v.parts[..i], v.parts[i]);
      if sizes[i] > 0 {
        if v.ids[i] !in source || !w.readable(i) {
          return Err;
        }
        out := out + source[v.ids[i]];
      }
    }
    assert v.parts[..|v.ids|] == v.parts;
    return Ok(out);
  }

  /** `_replicate`: the whole version under the target's own layout. */
  method Replicate(target: Store, source: map<int, bytes>, v: Version, sizes: seq<nat>, w: Weather)
    returns (res: Result<Replica>)
    requires target.Valid() && w.Lawful() && v.Valid(source) && SizesOf(sizes, v.parts)
    modifies target
    ensures target.Valid() && Grows(old(target.docs), target.docs)
    ensures res.Ok? ==> IsReplica(target.docs, res.value, Flatten(v.parts))
    ensures res.Ok? <==> Streams(source, v, w) && w.uploads(0).ok
  {
    hide Flatten, Streams;
    var content := Content(source, v, sizes, w);
    if content.Err? {
      return Err;
    }
    var sent := target.UploadBytes(content.value, w.uploads(0));
    if sent.Err? {
      return Err;
    }
    var r := Replica(Ids(sent.value), seq(|sent.value|, i requires 0 <= i < |sent.value| => sent.value[i].size));
    assert SizesOf(r.sizes, w.uploads(0).cut(content.value));
    return Ok(r);
  }

  // -- copying into every mirror --------------------------------------------------------------------

  datatype MirrorResult = MirrorResult(mirrors: map<string, seq<int>>, replicas: map<string, Replica>)

  /** What is recorded for a store is there, whole: the parts one by one, or joined. */
  ghost predicate Recorded(res: MirrorResult, key: string, docs: map<int, bytes>, parts: seq<bytes>) {
    && (key in res.mirrors ==> Holds(docs, res.mirrors[key], parts))
    && (key in res.replicas ==> IsReplica(docs, res.replicas[key], Flatten(parts)))
    && !(key in res.mirrors && key in res.replicas)
  }

  function Merge(a: MirrorResult, b: MirrorResult): MirrorResult {
    MirrorResult(a.mirrors + b.mirrors, a.replicas + b.replicas)
  }

  ghost predicate Absent(res: MirrorResult, key: string) { key !in res.mirrors && key !in res.replicas }

  lemma MergeAbsent(a: MirrorResult, b: MirrorResult, key: string)
    ensures Absent(Merge(a, b), key) <==> Absent(a, key) && Absent(b, key)
  {
  }

  /** The target takes every part of the source as one message. */
  predicate Aligned(target: Store, source: Store, parts: seq<bytes>) {
    target.backend == source.backend || forall i :: 0 <= i < |parts| ==> |parts[i]| <= target.maxPart
  }

  /** A part of the source above the target's limit, in a store of the same backend, which is taken to
      hold every part as it is. */
  predicate Oversized(target: Store, source: Store, parts: seq<bytes>) {
    target.backend == source.backend && exists i :: 0 <= i < |parts| && |parts[i]| > target.maxPart
  }

  /** When a store gets its copy: aligned where its messages allow it, a replica otherwise. */
  ghost predicate Succeeds(mode: Mode, target: Store, source: Store, docs: map<int, bytes>, v: Version, w: Weather)
    requires |v.ids| == |v.parts|
  {
    if Aligned(target, source, v.parts) then CopySucceeds(mode, docs, v, w) else Streams(docs, v, w) && w.uploads(0).ok
  }

  /** With a store that keeps to its limit: a part above it cannot be uploaded again, so without a copy
      by the server there is none. And when no read or upload fails, that is all that can go wrong:
      forwarding needs the server's copy, the other modes only for such a part. */
  lemma SucceedsIff(mode: Mode, target: Store, source: Store, docs: map<int, bytes>, v: Version, w: Weather)
    requires w.Lawful() && w.Within(target.maxPart) && v.Valid(docs)
    ensures Oversized(target, source, v.parts) && (mode == Reupload || !w.copy.Copies?) ==>
              !Succeeds(mode, target, source, docs, v, w)
    ensures w.Fair() && v.InSource(docs) ==>
              (Succeeds(mode, target, source, docs, v, w)
               <==> || |v.ids| == 0 || !Aligned(target, source, v.parts)
                    || (mode != Reupload && w.copy.Copies?)
                    || (mode != Forward && !Oversized(target, source, v.parts)))
  {
    hide Flatten, Weather.Within, Weather.Lawful;
    forall i | 0 <= i < |v.ids|
      ensures Reuploads(docs, v, w, i) ==> |v.parts[i]| <= target.maxPart
      ensures w.Fair() && v.InSource(docs) && |v.parts[i]| <= target.maxPart ==> Reuploads(docs, v, w, i)
    {
      OneMessageIff(w, target.maxPart, i, v.parts[i]);
    }
  }

  /** The kind of copy recorded for the target is the kind its messages allow. */
  predicate Chosen(res: MirrorResult, target: Store, source: Store, parts: seq<bytes>) {
    if Aligned(target, source, parts) then target.key in res.mirrors else target.key in res.replicas
  }

  /** What the result says of one store is right: its copy, of the kind its messages allow, if it was
      written, and nothing otherwise. */
  ghost predicate Reported(res: MirrorResult, target: Store, source: Store, docs: map<int, bytes>, parts: seq<bytes>,
                           written: bool)
  {
    && Recorded(res, target.key, docs, parts)
    && (if written then Chosen(res, target, source, parts) else Absent(res, target.key))
  }

  lemma NothingReported(res: MirrorResult, target: Store, source: Store, docs: map<int, bytes>, parts: seq<bytes>)
    requires Absent(res, target.key)
    ensures Reported(res, target, source, docs, parts, false)
  {
  }

  /** What is reported of one store stays so when another store's copy is added. */
  lemma MergeOther(a: MirrorResult, b: MirrorResult, target: Store, source: Store, docs: map<int, bytes>,
                   parts: seq<bytes>, written: bool)
    requires Reported(a, target, source, docs, parts, written) && Absent(b, target.key)
    ensures Reported(Merge(a, b), target, source, docs, parts, written)
  {
    hide Holds, IsReplica, Aligned;
  }

  lemma MergeNew(a: MirrorResult, b: MirrorResult, target: Store, source: Store, docs: map<int, bytes>,
                 parts: seq<bytes>)
    requires Absent(a, target.key) && Reported(b, target, source, docs, parts, true)
    ensures Reported(Merge(a, b), target, source, docs, parts, true)
  {
    hide Holds, IsReplica, Aligned;
  }

  class MirrorGroup {
    const stores: seq<Store>
    const mode: Mode
    const strict: bool

    /** Every mirror is its own object under its own key. */
    predicate Distinct() {
      && (forall i, j :: 0 <= i < j < |stores| ==> stores[i].key != stores[j].key)
      && (forall i, j :: 0 <= i < j < |stores| ==> stores[i] != stores[j])
    }

    ghost predicate Valid()
      reads stores
    {
      Distinct() && forall i :: 0 <= i < |stores| ==> stores[i].Valid()
    }

    predicate Wanted(i: nat, source: Store, only: Option<set<string>>)
      requires i < |stores|
    {
      stores[i] != source && (only.Some? ==> stores[i].key in only.value)
    }

    /** The sizes of the parts are known by the time the first `n` stores have been written: they were
        given, or looking them up worked for one of those. */
    ghost predicate Known(n: nat, source: Store, docs: map<int, bytes>, v: Version, given: Option<seq<nat>>,
                          only: Option<set<string>>, w: nat -> Weather)
      requires n <= |stores|
    {
      || (given.Some? && |given.value| == |v.ids|)
      || (exists j :: 0 <= j < n && Wanted(j, source, only) && w(j).lookup && v.InSource(docs))
    }

    /** Exactly when store `i` gets its copy. */
    ghost predicate Written(i: nat, source: Store, docs: map<int, bytes>, v: Version, given: Option<seq<nat>>,
                            only: Option<set<string>>, w: nat -> Weather)
      requires i < |stores| && |v.ids| == |v.parts|
    {
      && Wanted(i, source, only) && Known(i + 1, source, docs, v, given, only, w)
      && Succeeds(mode, stores[i], source, docs, v, w(i))
    }

    /** One store: its sizes, its kind of copy, the copy. */
    method MirrorOne(i: nat, source: Store, v: Version, given: Option<seq<nat>>, w: Weather)
      returns (res: Result<MirrorResult>, sizes: Option<seq<nat>>)
      requires i < |stores| && stores[i] != source && stores[i].Valid() && w.Lawful() && v.Valid(source.docs)
      requires given.Some? && |given.value| == |v.ids| ==> SizesOf(given.value, v.parts)
      modifies stores[i]
      ensures stores[i].Valid() && Grows(old(stores[i].docs), stores[i].docs)
      ensures sizes.Some? && |sizes.value| == |v.ids| ==> SizesOf(sizes.value, v.parts)
      ensures (sizes.Some? && |sizes.value| == |v.ids|)
         <==> (given.Some? && |given.value| == |v.ids|) || (w.lookup && v.InSource(source.docs))
      ensures res.Ok?
         <==> && sizes.Some? && |sizes.value| == |v.ids|
              && Succeeds(mode, stores[i], source, source.docs, v, w)
      ensures res.Ok? ==> Reported(res.value, stores[i], source, stores[i].docs, v.parts, true)
      ensures res.Ok? ==> forall k :: !Absent(res.value, k) ==> k == stores[i].key
    {
      hide Flatten, Reuploads, CopySucceeds, Streams, Holds, IsReplica, Grows, Store.Valid, Weather.Lawful;
      GrowsSelf();
      sizes := given;
      if given.None? || |given.value| != |v.ids| {
        var looked := PartSizes(source.docs, v.ids, w.lookup);
        if looked.Err? {
          return Err, sizes;
        }
        sizes := Some(looked.value);
      }
      var fits := FitsAligned(stores[i], source.backend, sizes.value);
      AlignedIff(stores[i], source, v.parts, sizes.value);
      hide Aligned, SizesOf, Version.Valid;
      if fits {
        var ids := CopyTo(mode, stores[i], source.docs, v, sizes.value, w);
        if ids.Err? {
          return Err, sizes;
        }
        return Ok(MirrorResult(map[stores[i].key := ids.value], map[])), sizes;
      }
      var replica := Replicate(stores[i], source.docs, v, sizes.value, w);
      if replica.Err? {
        return Err, sizes;
      }
      return Ok(MirrorResult(map[], map[stores[i].key := replica.value])), sizes;
    }

    /** The turn of one store, with what the stores before it left. */
    method MirrorNext(i: nat, source: Store, v: Version, sizes0: Option<seq<nat>>, out0: MirrorResult,
                      ghost docs: map<int, bytes>, ghost given: Option<seq<nat>>, only: Option<set<string>>,
                      w: nat -> Weather)
      returns (out: MirrorResult, sizes: Option<seq<nat>>, failed: bool)
      requires i < |stores| && Valid() && source.docs == docs && v.Valid(docs) && w(i).Lawful()
      requires sizes0.Some? && |sizes0.value| == |v.ids| ==> SizesOf(sizes0.value, v.parts)
      requires (sizes0.Some? && |sizes0.value| == |v.ids|) <==> Known(i, source, docs, v, given, only, w)
      requires forall j :: 0 <= j < i ==>
                 Reported(out0, stores[j], source, stores[j].docs, v.parts, Written(j, source, docs, v, given, only, w))
      requires forall k :: !Absent(out0, k) ==> exists j :: 0 <= j < i && stores[j].key == k
      modifies stores[i]
      ensures stores[i].Valid() && Grows(old(stores[i].docs), stores[i].docs) && source.docs == docs
      ensures sizes.Some? && |sizes.value| == |v.ids| ==> SizesOf(sizes.value, v.parts)
      ensures (sizes.Some? && |sizes.value| == |v.ids|) <==> Known(i + 1, source, docs, v, given, only, w)
      ensures forall j :: 0 <= j <= i ==>
                Reported(out, stores[j], source, stores[j].docs, v.parts, Written(j, source, docs, v, given, only, w))
      ensures forall k :: !Absent(out, k) ==> exists j :: 0 <= j <= i && stores[j].key == k
      ensures failed <==> Wanted(i, source, only) && !Written(i, source, docs, v, given, only, w)
    {
      hide Grows, Weather.Lawful, SizesOf, Merge, Reported, Absent, Succeeds, Store.Valid, Known, Version.Valid,
        Version.InSource;
      assert Absent(out0, stores[i].key);
      SizesMatch(v, docs);
      KnownNext(i, source, docs, v, given, only, w);
      out, sizes, failed := out0, sizes0, false;
      if (only.Some? && stores[i].key !in only.value) || stores[i] == source {
        GrowsSelf();
        NothingReported(out, stores[i], source, stores[i].docs, v.parts);
        return;
      }
      var one;
      one, sizes := MirrorOne(i, source, v, sizes, w(i));
      if one.Ok? {
        AddReport(i, out, one.value, source, docs, v, given, only, w);
        out := Merge(out, one.value);
      } else {
        NothingReported(out, stores[i], source, stores[i].docs, v.parts);
        failed := true;
      }
    }

    /** `mirror_parts`: whatever fails, every store recorded holds the version, as an aligned copy or
        as a replica but not both, and no message that was there has changed. A wanted store is
        recorded exactly when its copy came about; with `strict` the first that did not is an error. */
    method MirrorParts(source: Store, v: Version, given: Option<seq<nat>>, only: Option<set<string>>, w: nat -> Weather)
      returns (res: Result<MirrorResult>)
      requires Valid() && v.Valid(source.docs) && forall i :: w(i).Lawful()
      requires given.Some? && |given.value| == |v.ids| ==> SizesOf(given.value, v.parts)
      modifies stores
      ensures Valid() && forall i :: 0 <= i < |stores| ==> Grows(old(stores[i].docs), stores[i].docs)
      ensures source.docs == old(source.docs)
      ensures res.Err?
         <==> strict && |v.ids| > 0
              && exists i ::
                   && 0 <= i < |stores| && Wanted(i, source, only)
                   && !Written(i, source, source.docs, v, given, only, w)
      ensures res.Ok? ==> forall i :: 0 <= i < |stores| ==>
                Reported(res.value, stores[i], source, stores[i].docs, v.parts,
                         |v.ids| > 0 && Written(i, source, source.docs, v, given, only, w))
      ensures res.Ok? ==> forall k :: !Absent(res.value, k) ==> exists i :: 0 <= i < |stores| && stores[i].key == k
    {
      hide Grows, Weather.Lawful, SizesOf, Reported, Absent, Written, Store.Valid, Wanted, Known;
      ghost var docs := source.docs;
      SizesMatch(v, docs);
      hide Version.Valid, Version.InSource;
      GrowsSelf();
      var out := MirrorResult(map[], map[]);
      NothingRecorded();
      if |v.ids| == 0 {
        forall i | 0 <= i < |stores|
          ensures Reported(out, stores[i], source, stores[i].docs, v.parts, false)
        {
          NothingReported(out, stores[i], source, stores[i].docs, v.parts);
        }
        return Ok(out);
      }
      var sizes := given;
      KnownAtFirst(source, docs, v, given, only, w);
      for i := 0 to |stores|
        invariant Valid() && forall j :: 0 <= j < |stores| ==> Grows(old(stores[j].docs), stores[j].docs)
        invariant source.docs == docs
        invariant sizes.Some? && |sizes.value| == |v.ids| ==> SizesOf(sizes.value, v.parts)
        invariant (sizes.Some? && |sizes.value| == |v.ids|) <==> Known(i, source, docs, v, given, only, w)
        invariant forall j :: 0 <= j < i ==>
                    Reported(out, stores[j], source, stores[j].docs, v.parts,
                             Written(j, source, docs, v, given, only, w))
        invariant forall k :: !Absent(out, k) ==> exists j :: 0 <= j < i && stores[j].key == k
        invariant strict ==> forall j :: 0 <= j < i && Wanted(j, source, only) ==>
                    Written(j, source, docs, v, given, only, w)
      {
        ghost var was := stores[i].docs;
        var failed;
        out, sizes, failed := MirrorNext(i, source, v, sizes, out, docs, given, only, w);
        GrowsOn(old(stores[i].docs), was, stores[i].docs);
        if failed && strict {
          return Err;
        }
      }
      return Ok(out);
    }

    lemma AddReport(i: nat, a: MirrorResult, b: MirrorResult, source: Store, docs: map<int, bytes>, v: Version,
                    given: Option<seq<nat>>, only: Option<set<string>>, w: nat -> Weather)
      requires i < |stores| && Distinct() && |v.ids| == |v.parts| && Absent(a, stores[i].key)
      requires forall j :: 0 <= j < i ==>
                 Reported(a, stores[j], source, stores[j].docs, v.parts, Written(j, source, docs, v, given, only, w))
      requires forall k :: !Absent(a, k) ==> exists j :: 0 <= j < i && stores[j].key == k
      requires Reported(b, stores[i], source, stores[i].docs, v.parts, true)
      requires forall k :: !Absent(b, k) ==> k == stores[i].key
      ensures forall j :: 0 <= j < i ==>
                Reported(Merge(a, b), stores[j], source, stores[j].docs, v.parts,
                         Written(j, source, docs, v, given, only, w))
      ensures Reported(Merge(a, b), stores[i], source, stores[i].docs, v.parts, true)
      ensures forall k :: !Absent(Merge(a, b), k) ==> exists j :: 0 <= j <= i && stores[j].key == k
    {
      hide Merge, Reported, Absent, Written;
      forall j | 0 <= j < i
        ensures Reported(Merge(a, b), stores[j], source, stores[j].docs, v.parts,
                         Written(j, source, docs, v, given, only, w))
      {
        MergeOther(a, b, stores[j], source, stores[j].docs, v.parts, Written(j, source, docs, v, given, only, w));
      }
      MergeNew(a, b, stores[i], source, stores[i].docs, v.parts);
      forall k | !Absent(Merge(a, b), k)
        ensures exists j :: 0 <= j <= i && stores[j].key == k
      {
        MergeAbsent(a, b, k);
      }
    }

    lemma KnownAtFirst(source: Store, docs: map<int, bytes>, v: Version, given: Option<seq<nat>>,
                       only: Option<set<string>>, w: nat -> Weather)
      ensures Known(0, source, docs, v, given, only, w) <==> given.Some? && |given.value| == |v.ids|
    {
    }

    lemma KnownNext(i: nat, source: Store, docs: map<int, bytes>, v: Version, given: Option<seq<nat>>,
                    only: Option<set<string>>, w: nat -> Weather)
      requires i < |stores|
      ensures Known(i + 1, source, docs, v, given, only, w)
         <==> || Known(i, source, docs, v, given, only, w)
              || (Wanted(i, source, only) && w(i).lookup && v.InSource(docs))
    {
    }
  }

  lemma SizesMatch(v: Version, docs: map<int, bytes>)
    requires v.Valid(docs)
    ensures |v.ids| == |v.parts|
  {
  }

  lemma NothingRecorded()
    ensures forall key :: Absent(MirrorResult(map[], map[]), key)
  {
  }

  lemma AlignedIff(target: Store, source: Store, parts: seq<bytes>, sizes: seq<nat>)
    requires SizesOf(sizes, parts)
    ensures Aligned(target, source, parts)
       <==> target.backend == source.backend || forall i :: 0 <= i < |sizes| ==> sizes[i] <= target.maxPart
  {
  }

  lemma GrowsSelf()
    ensures forall a :: Grows(a, a)
  {
  }

  lemma GrowsOn(a: map<int, bytes>, b: map<int, bytes>, c: map<int, bytes>)
    requires Grows(a, b) && Grows(b, c)
    ensures Grows(a, c)
  {
    forall k | k in a
      ensures k in c && c[k] == a[k]
    {
      assert k in b && b[k] == a[k];
    }
  }
}
