/** The directory objects themselves (`TGFSDirectory`): methods that change the heap in place, each
    proved to do to the objects what the tree functions do to the tree. */
module Directory {
  import opened Bytes
  import opened DirectoryTree
  import opened FileRefs

  datatype Error = RootCannotMove | InvalidName | IntoItself | AlreadyExists

  /** The objects are the tree `t`. */
  ghost predicate Represents(t: Tree<TGFSDirectory, FileRefList>)
    reads t.dirs.Keys
  {
    forall d :: d in t.dirs ==>
      && d.name == t.dirs[d].name && d.parent == t.dirs[d].parent
      && d.children == t.dirs[d].children && t.dirs[d].files == [d.files]
  }

  class TGFSDirectory {
    var name: string
    var parent: Option<TGFSDirectory>
    var children: seq<TGFSDirectory>
    const files: FileRefList

    constructor (n: string, p: Option<TGFSDirectory>)
      ensures name == n && parent == p && children == [] && fresh(files) && files.Valid() && files.refs == []
    {
      name, parent, children := n, p, [];
      files := new FileRefList();
    }

    /** `find_dirs([name])`. */
    method FindDirs(n: string, ghost t: Tree<TGFSDirectory, FileRefList>) returns (found: seq<TGFSDirectory>)
      requires WellFormed(t) && Represents(t) && this in t.dirs
      ensures found != [] <==> Taken(t, this, n)
      ensures forall d :: d in found <==> d in children && d.name == n
    {
      found := [];
      for i := 0 to |children|
        invariant forall d :: d in found <==> d in children[..i] && d.name == n
      {
        assert children[..i + 1] == children[..i] + [children[i]];
        if children[i].name == n {
          found := found + [children[i]];
        }
      }
      assert children[..|children|] == children;
      if found != [] {
        assert found[0] in found;
        var i :| 0 <= i < |children| && children[i] == found[0];
        assert t.dirs[t.dirs[this].children[i]].name == n;
      } else {
        forall i | 0 <= i < |children|
          ensures t.dirs[t.dirs[this].children[i]].name != n
        {
          assert children[i] !in found;
        }
      }
    }

    /** Walks up the parents. */
    method IsAncestorOf(other: TGFSDirectory, ghost t: Tree<TGFSDirectory, FileRefList>) returns (yes: bool)
      requires WellFormed(t) && Represents(t) && this in t.dirs && other in t.dirs
      ensures yes == Below(t, this, other)
    {
      var node := Some(other);
      while node.Some?
        invariant node.Some? ==> node.value in t.dirs && (Below(t, this, other) <==> Below(t, this, node.value))
        invariant node.None? ==> !Below(t, this, other)
        decreases if node.Some? && node.value in t.depth then t.depth[node.value] + 1 else 0
      {
        if node.value == this {
          return true;
        }
        node := node.value.parent;
      }
      return false;
    }

    method AbsolutePath(ghost t: Tree<TGFSDirectory, FileRefList>) returns (path: string)
      requires WellFormed(t) && Represents(t) && this in t.dirs
      ensures path == Path(t, this)
      decreases t.depth[this]
    {
      if parent.None? {
        return "";
      }
      var above := parent.value.AbsolutePath(t);
      return above + "/" + name;
    }

    /** Creates an empty child; the tree is otherwise the same. */
    method CreateDir(n: string, ghost t: Tree<TGFSDirectory, FileRefList>)
      returns (res: Result<TGFSDirectory>, ghost u: Tree<TGFSDirectory, FileRefList>)
      requires WellFormed(t) && Represents(t) && this in t.dirs
      modifies this`children
      ensures WellFormed(u) && Represents(u)
      ensures res.Ok? <==> ValidName(n) && !Taken(t, this, n)
      ensures res.Ok? ==> n != "" && n[0] != '-' && '/' !in n
      ensures res.Err? ==> u == t
      ensures res.Ok? ==> fresh(res.value) && u.dirs.Keys == t.dirs.Keys + {res.value}
                          && Path(u, res.value) == Path(t, this) + "/" + n
    {
      hide Linked, Leveled, Named, Path, Taken;
      var found := FindDirs(n, t);
      u := t;
      if found != [] {
        return Err, u;
      }
      if |n| == 0 || n[0] == '-' || '/' in n {
        return Err, u;
      }
      var child := AddChild(n, t);
      u := Created(t, this, child, n, [child.files]);
      res := Ok(child);
    }

    /** The assignments of a creation. */
    method AddChild(n: string, ghost t: Tree<TGFSDirectory, FileRefList>) returns (child: TGFSDirectory)
      requires WellFormed(t) && Represents(t) && this in t.dirs && ValidName(n) && !Taken(t, this, n)
      modifies this`children
      ensures fresh(child) && child !in t.dirs
      ensures var u := Created(t, this, child, n, [child.files]);
        && WellFormed(u) && Represents(u) && u.dirs.Keys == t.dirs.Keys + {child}
        && Path(u, child) == Path(t, this) + "/" + n
    {
      hide Linked, Leveled, Named, Path, Taken;
      child := new TGFSDirectory(n, Some(this));
      CreateKeepsTree(t, this, child, n, [child.files]);
      CreatedPath(t, this, child, n, [child.files]);
      children := children + [child];
    }

    /** `move_to`: refused for the root, a bad name, a place inside itself or a name taken there;
        otherwise the tree with this directory re-parented, and nothing else changed. */
    method MoveTo(newParent: TGFSDirectory, newName: string, ghost t: Tree<TGFSDirectory, FileRefList>)
      returns (error: Option<Error>, ghost u: Tree<TGFSDirectory, FileRefList>)
      requires WellFormed(t) && Represents(t) && this in t.dirs && newParent in t.dirs
      modifies t.dirs.Keys
      ensures WellFormed(u) && Represents(u)
      ensures var n := if newName != "" then newName else t.dirs[this].name;
        var stays := Some(newParent) == t.dirs[this].parent && n == t.dirs[this].name;
        && (error == Some(RootCannotMove) <==> this == t.root)
        && (error == Some(InvalidName) <==> this != t.root && !ValidName(n))
        && (error == Some(IntoItself) <==> this != t.root && ValidName(n) && !stays && Below(t, this, newParent))
        && (error == Some(AlreadyExists) <==>
              this != t.root && ValidName(n) && !stays && !Below(t, this, newParent) && Taken(t, newParent, n))
        && (error.Some? || stays ==> u == t)
        && (error.None? && !stays ==> MayMove(t, this, newParent, n) && u == Moved(t, this, newParent, n))
    {
      hide Below, Moved, Taken;
      u := t;
      if parent.None? {
        return Some(RootCannotMove), u;
      }
      var n := if newName != "" then newName else name;
      if n == "" || n[0] == '-' || '/' in n {
        return Some(InvalidName), u;
      }
      if Some(newParent) == parent && n == name {
        return None, u;
      }
      var inside := IsAncestorOf(newParent, t);
      if inside {
        return Some(IntoItself), u;
      }
      var there := newParent.FindDirs(n, t);
      if there != [] {
        return Some(AlreadyExists), u;
      }
      MoveKeepsTree(t, this, newParent, n);
      u := Moved(t, this, newParent, n);
      Reparent(newParent, n, t);
      return None, u;
    }

    /** The assignments of a move. */
    method Reparent(newParent: TGFSDirectory, n: string, ghost t: Tree<TGFSDirectory, FileRefList>)
      requires WellFormed(t) && Represents(t) && MayMove(t, this, newParent, n)
      modifies t.dirs.Keys
      ensures Represents(Moved(t, this, newParent, n))
    {
      hide Below, Taken, Linked, Leveled, Named, DirectoryTree.Remove, Moved;
      MovedNode(t, this, newParent, n, this);
      assert parent.Some? && parent.value in t.dirs by {
        HasParent(t, this);
      }
      var oldParent := parent.value;
      oldParent.children := DirectoryTree.Remove(oldParent.children, this);
      name := n;
      parent := Some(newParent);
      newParent.children := newParent.children + [this];
      forall d | d in t.dirs
        ensures var m := Moved(t, this, newParent, n);
          && d in m.dirs && d.name == m.dirs[d].name && d.parent == m.dirs[d].parent
          && d.children == m.dirs[d].children && m.dirs[d].files == [d.files]
      {
        MovedNode(t, this, newParent, n, d);
      }
    }

    /** `delete`: this directory leaves the tree with all below it; the root is only emptied. */
    method Delete(ghost t: Tree<TGFSDirectory, FileRefList>) returns (ghost u: Tree<TGFSDirectory, FileRefList>)
      requires WellFormed(t) && Represents(t) && this in t.dirs
      modifies t.dirs.Keys, files
      ensures u == Deleted(t, this) && WellFormed(u) && Represents(u)
      ensures this == t.root ==> files.Valid() && files.refs == []
      ensures this != t.root ==> files.refs == old(files.refs) && files.byName == old(files.byName)
    {
      hide Linked, Leveled, Named, Deleted;
      assert parent.None? <==> this == t.root by {
        RootIff(t, this);
      }
      u := Deleted(t, this);
      if parent.None? {
        EmptyRoot(t);
      } else {
        LeaveTree(t);
      }
    }

    method EmptyRoot(ghost t: Tree<TGFSDirectory, FileRefList>)
      requires WellFormed(t) && Represents(t) && this == t.root && this in t.dirs
      modifies this`children, files
      ensures WellFormed(Deleted(t, this)) && Represents(Deleted(t, this)) && files.Valid() && files.refs == []
    {
      DeleteRoot(t);
      children := [];
      files.Clear();
    }

    method LeaveTree(ghost t: Tree<TGFSDirectory, FileRefList>)
      requires WellFormed(t) && Represents(t) && this in t.dirs && this != t.root
      modifies t.dirs.Keys
      ensures WellFormed(Deleted(t, this)) && Represents(Deleted(t, this))
    {
      hide Below, Linked, Leveled, Named, DirectoryTree.Remove, Deleted;
      HasParent(t, this);
      DeleteKeepsTree(t, this, this);
      ghost var u := Deleted(t, this);
      var above := parent.value;
      above.children := DirectoryTree.Remove(above.children, this);
      forall d | d in u.dirs
        ensures d in t.dirs && d.name == u.dirs[d].name && d.parent == u.dirs[d].parent
        ensures d.children == u.dirs[d].children && u.dirs[d].files == [d.files]
      {
        DeletedRest(t, this);
        DeletedFields(t, this, d);
      }
    }

    // -- file refs ------------------------------------------------------------------------------------

    /** `create_file_ref`: refused when the name is taken. */
    method CreateFileRef(n: string, id: int) returns (res: Result<FileRef>)
      requires files.Valid()
      modifies files
      ensures files.Valid()
      ensures res.Err? <==> exists i :: 0 <= i < |old(files.refs)| && old(files.refs)[i].name == n
      ensures res.Err? ==> files.refs == old(files.refs)
      ensures res.Ok? ==> fresh(res.value) && res.value.name == n && files.refs == old(files.refs) + [res.value]
                          && res.value.descriptor == Descriptor(id, None, map[])
    {
      var found := files.Find(n);
      if found != [] {
        assert found[0] in found;
        return Err;
      }
      forall i | 0 <= i < |files.refs|
        ensures files.refs[i].name != n
      {
        assert files.refs[i] !in found;
      }
      var fr := new FileRef(n, id);
      files.Append(fr);
      return Ok(fr);
    }

    /** `relocate_file_ref`: a new ref with the same descriptor, copies, stat and epoch stands under its
        new name in `to`, and the first ref here that equals `fr` is gone; refused, with nothing
        changed, when the name is taken there or no ref here equals `fr`. The indexes stay equal to a
        scan exactly when that first ref is `fr` and is not listed again, which unique names give. */
    method RelocateFileRef(fr: FileRef, to: TGFSDirectory, newName: string) returns (res: Result<FileRef>)
      requires files.Valid() && to.files.Valid() && (this != to ==> files != to.files)
      modifies files, to.files
      ensures var n, i := if newName != "" then newName else fr.name, old(FirstSame(files.refs, fr));
        && (res.Err? || (to == this && n == fr.name) ==>
              && files.Valid() && files.refs == old(files.refs)
              && to.files.Valid() && to.files.refs == old(to.files.refs))
        && (to == this && n == fr.name ==> res == Ok(fr))
        && (!(to == this && n == fr.name) ==>
              && (res.Ok? <==> i < |old(files.refs)| && !NameInUse(old(to.files.refs), n))
              && (res.Ok? ==>
                    && fresh(res.value) && res.value.name == n && res.value.descriptor == fr.descriptor
                    && res.value.stat == fr.stat && res.value.statEpoch == fr.statEpoch
                    && to.files.refs
                       == (if this == to then Cut(old(files.refs), i) else old(to.files.refs)) + [res.value]
                    && (this != to ==> files.refs == Cut(old(files.refs), i) && to.files.Valid())
                    && (files.Valid() <==> old(files.refs)[i] == fr && fr !in old(files.refs)[i + 1..])
                    && (UniqueNames(old(files.refs)) && fr in old(files.refs) ==> files.Valid())))
    {
      hide Indexed, Cut, FirstSame, UniqueNames, NameInUse;
      var n := if newName != "" then newName else fr.name;
      if to == this && n == fr.name {
        return Ok(fr);
      }
      ghost var was := files.refs;
      if UniqueNames(was) && fr in was {
        UniqueIsFirst(was, fr);
      }
      var moved := to.AttachLike(fr, n);
      if moved.Err? {
        return Err;
      }
      if this == to {
        FirstBefore(was, moved.value, fr);
      }
      var gone := files.Remove(fr);
      if !gone {
        to.Detach(moved.value, old(to.files.refs));
        return Err;
      }
      return moved;
    }

    /** A new ref at the end of this directory that describes what `fr` does. */
    method AttachLike(fr: FileRef, n: string) returns (res: Result<FileRef>)
      requires files.Valid()
      modifies files
      ensures files.Valid()
      ensures res.Err? <==> NameInUse(old(files.refs), n)
      ensures res.Err? ==> files.refs == old(files.refs)
      ensures res.Ok? ==>
                && fresh(res.value) && files.refs == old(files.refs) + [res.value]
                && res.value.name == n && res.value.descriptor == fr.descriptor
                && res.value.stat == fr.stat && res.value.statEpoch == fr.statEpoch
    {
      hide Indexed;
      res := CreateFileRef(n, fr.descriptor.id);
      if res.Ok? {
        var moved := res.value;
        moved.descriptor := fr.descriptor;
        moved.stat := fr.stat;
        moved.statEpoch := fr.statEpoch;
      }
    }

    /** The ref put last is taken out again. */
    method Detach(moved: FileRef, ghost before: seq<FileRef>)
      requires files.Valid() && files.refs == before + [moved] && !NameInUse(before, moved.name)
      modifies files
      ensures files.Valid() && files.refs == before
    {
      hide Indexed;
      OnlyLast(before, moved);
      var undone := files.Remove(moved);
    }
  }

  predicate NameInUse(refs: seq<FileRef>, name: string) {
    exists i :: 0 <= i < |refs| && refs[i].name == name
  }

  /** A ref of another name at the end is not the one found. */
  lemma FirstBefore(refs: seq<FileRef>, moved: FileRef, fr: FileRef)
    requires moved.name != fr.name && moved !in refs
    ensures var i := FirstSame(refs, fr);
      if i < |refs| then
        && FirstSame(refs + [moved], fr) == i && Cut(refs + [moved], i) == Cut(refs, i) + [moved]
        && (fr in (refs + [moved])[i + 1..] <==> fr in refs[i + 1..])
      else FirstSame(refs + [moved], fr) == |refs + [moved]|
  {
    var all, i := refs + [moved], FirstSame(refs, fr);
    assert all[..|all| - 1] == refs;
    if i < |refs| {
      assert all[i + 1..] == refs[i + 1..] + [moved];
    }
  }

  /** A ref put last under a name nobody had is the one found, and taking it out restores the list. */
  lemma OnlyLast(refs: seq<FileRef>, moved: FileRef)
    requires !NameInUse(refs, moved.name)
    ensures FirstSame(refs + [moved], moved) == |refs| && Cut(refs + [moved], |refs|) == refs
  {
    assert (refs + [moved])[..|refs|] == refs;
  }

  lemma RootIff(t: Tree<TGFSDirectory, FileRefList>, d: TGFSDirectory)
    requires WellFormed(t) && d in t.dirs
    ensures t.dirs[d].parent.None? <==> d == t.root
  {
  }

  lemma HasParent(t: Tree<TGFSDirectory, FileRefList>, d: TGFSDirectory)
    requires WellFormed(t) && d in t.dirs && d != t.root
    ensures t.dirs[d].parent.Some? && t.dirs[d].parent.value in t.dirs
  {
  }
}
