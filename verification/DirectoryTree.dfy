/** The directory tree as a value: what the objects of `core/model/directory.py` hold at one moment,
    and what creating, moving and deleting directories make of it. */
module DirectoryTree {
  import opened Bytes

  /** The fields of one directory. `D` identifies directories, `F` file refs. */
  datatype Node<D, F> = Node(name: string, parent: Option<D>, children: seq<D>, files: seq<F>)

  /** A tree: its root, its directories, and how deep each lies. */
  datatype Tree<D, F> = Tree(root: D, dirs: map<D, Node<D, F>>, depth: map<D, nat>)

  predicate ValidName(name: string) { name != [] && name[0] != '-' && '/' !in name }

  /** Parents and children agree, and only the root has no parent. */
  ghost predicate Linked<D, F>(t: Tree<D, F>) {
    && t.root in t.dirs && t.dirs[t.root].parent == None
    && (forall d :: d in t.dirs && d != t.root ==>
          && t.dirs[d].parent.Some? && t.dirs[d].parent.value in t.dirs
          && d in t.dirs[t.dirs[d].parent.value].children)
    && (forall p, i :: p in t.dirs && 0 <= i < |t.dirs[p].children| ==>
          t.dirs[p].children[i] in t.dirs && t.dirs[t.dirs[p].children[i]].parent == Some(p))
  }

  /** Every directory lies one below its parent, so following parents ends at the root. */
  ghost predicate Leveled<D, F>(t: Tree<D, F>)
    requires Linked(t)
  {
    && (forall d :: d in t.dirs ==> d in t.depth)
    && (forall d :: d in t.dirs && d != t.root ==> t.depth[d] == t.depth[t.dirs[d].parent.value] + 1)
  }

  /** Names are valid, and no two children of a directory share one. */
  ghost predicate Named<D, F>(t: Tree<D, F>)
    requires Linked(t)
  {
    && (forall d :: d in t.dirs && d != t.root ==> ValidName(t.dirs[d].name))
    && (forall p, i, j :: p in t.dirs && 0 <= i < j < |t.dirs[p].children| ==>
          t.dirs[t.dirs[p].children[i]].name != t.dirs[t.dirs[p].children[j]].name)
  }

  ghost predicate WellFormed<D, F>(t: Tree<D, F>) { Linked(t) && Leveled(t) && Named(t) }

  ghost function Parent<D, F>(t: Tree<D, F>, d: D): (p: D)
    requires WellFormed(t) && d in t.dirs && d != t.root
    ensures p in t.dirs && t.depth[p] < t.depth[d]
  {
    t.dirs[d].parent.value
  }

  /** `absolute_path`. */
  ghost function Path<D, F>(t: Tree<D, F>, d: D): string
    requires WellFormed(t) && d in t.dirs
    decreases t.depth[d]
  {
    if d == t.root then "" else Path(t, Parent(t, d)) + "/" + t.dirs[d].name
  }

  /** `a.is_ancestor_of(d)`: `d` is `a` or lies somewhere below it. */
  ghost predicate Below<D, F>(t: Tree<D, F>, a: D, d: D)
    requires WellFormed(t) && d in t.dirs
    decreases t.depth[d]
  {
    d == a || (d != t.root && Below(t, a, Parent(t, d)))
  }

  /** `p.find_dirs([name])` finds something. */
  ghost predicate Taken<D, F>(t: Tree<D, F>, p: D, name: string)
    requires Linked(t) && p in t.dirs
  {
    exists i :: 0 <= i < |t.dirs[p].children| && t.dirs[t.dirs[p].children[i]].name == name
  }

  // -- paths ----------------------------------------------------------------------------------------

  /** In a path the last slash is the one before the name. */
  lemma SlashAt(p: string, a: string)
    requires '/' !in a
    ensures var s := p + "/" + a; s[|p|] == '/' && forall k :: |p| < k < |s| ==> s[k] != '/'
  {
    var s := p + "/" + a;
    forall k | |p| < k < |s|
      ensures s[k] != '/'
    {
      assert s[k] == a[k - |p| - 1];
    }
  }

  lemma LastSlash(p: string, q: string, a: string, b: string)
    requires '/' !in a && '/' !in b && p + "/" + a == q + "/" + b
    ensures p == q && a == b
  {
    var s := p + "/" + a;
    SlashAt(p, a);
    SlashAt(q, b);
    assert |p| == |q|;
    assert p == s[..|p|] == q;
    assert a == s[|p| + 1..] == b;
  }

  lemma PathEmptyIff<D, F>(t: Tree<D, F>, d: D)
    requires WellFormed(t) && d in t.dirs
    ensures Path(t, d) == "" <==> d == t.root
  {
  }

  /** A path names at most one directory. */
  lemma {:induction false} PathsAreUnique<D, F>(t: Tree<D, F>, d: D, e: D)
    requires WellFormed(t) && d in t.dirs && e in t.dirs && Path(t, d) == Path(t, e)
    ensures d == e
    decreases t.depth[d]
  {
    PathEmptyIff(t, d);
    PathEmptyIff(t, e);
    if d != t.root {
      LastSlash(Path(t, Parent(t, d)), Path(t, Parent(t, e)), t.dirs[d].name, t.dirs[e].name);
      PathsAreUnique(t, Parent(t, d), Parent(t, e));
      var p := Parent(t, d);
      var i :| 0 <= i < |t.dirs[p].children| && t.dirs[p].children[i] == d;
      var j :| 0 <= j < |t.dirs[p].children| && t.dirs[p].children[j] == e;
    }
  }

  // -- moving ---------------------------------------------------------------------------------------

  /** `list.remove`: without the first occurrence. */
  function Remove<D(==)>(s: seq<D>, d: D): seq<D> {
    if |s| == 0 then [] else if s[0] == d then s[1..] else [s[0]] + Remove(s[1..], d)
  }

  /** How deep `x` lies after `d` has come to lie under `np`. */
  ghost function SunkTo<D, F>(t: Tree<D, F>, d: D, np: D, x: D): nat
    requires WellFormed(t) && d in t.dirs && np in t.dirs && x in t.dirs
  {
    if !Below(t, d, x) then t.depth[x]
    else (if t.depth[x] >= t.depth[d] then t.depth[x] - t.depth[d] else 0) + t.depth[np] + 1
  }

  ghost function Sunk<D, F>(t: Tree<D, F>, d: D, np: D): map<D, nat>
    requires WellFormed(t) && d in t.dirs && np in t.dirs
  {
    map x | x in t.dirs :: SunkTo(t, d, np, x)
  }

  /** `d.move_to(np, name)` once its checks are passed. */
  ghost function Moved<D, F>(t: Tree<D, F>, d: D, np: D, name: string): Tree<D, F>
    requires WellFormed(t) && d in t.dirs && d != t.root && np in t.dirs
  {
    var from := Parent(t, d);
    var cut := t.dirs[from := t.dirs[from].(children := Remove(t.dirs[from].children, d))];
    var set0 := cut[d := cut[d].(name := name, parent := Some(np))];
    t.(dirs := set0[np := set0[np].(children := set0[np].children + [d])], depth := Sunk(t, d, np))
  }

  lemma {:induction false} RemoveSpec<D>(s: seq<D>, d: D)
    requires d in s && (forall i, j :: 0 <= i < j < |s| ==> s[i] != s[j])
    ensures forall x :: x in Remove(s, d) <==> x in s && x != d
    ensures forall i, j :: 0 <= i < j < |Remove(s, d)| ==> Remove(s, d)[i] != Remove(s, d)[j]
  {
    if s[0] != d {
      var rest := s[1..];
      RemoveSpec(rest, d);
      assert s == [s[0]] + rest;
      forall j | 0 <= j < |Remove(rest, d)|
        ensures Remove(rest, d)[j] != s[0]
      {
        assert Remove(rest, d)[j] in Remove(rest, d);
      }
    } else {
      assert s == [d] + s[1..];
    }
  }

  lemma {:induction false} BelowDeeper<D, F>(t: Tree<D, F>, a: D, x: D)
    requires WellFormed(t) && a in t.dirs && x in t.dirs && Below(t, a, x)
    ensures t.depth[x] >= t.depth[a]
    decreases t.depth[x]
  {
    if x != a {
      BelowDeeper(t, a, Parent(t, x));
    }
  }

  lemma ChildrenDistinct<D, F>(t: Tree<D, F>, p: D)
    requires WellFormed(t) && p in t.dirs
    ensures forall i, j :: 0 <= i < j < |t.dirs[p].children| ==> t.dirs[p].children[i] != t.dirs[p].children[j]
  {
  }

  /** The checks `move_to` makes. */
  ghost predicate MayMove<D, F>(t: Tree<D, F>, d: D, np: D, name: string)
    requires WellFormed(t)
  {
    && d in t.dirs && d != t.root && np in t.dirs
    && ValidName(name) && !Below(t, d, np) && !Taken(t, np, name)
  }

  /** The fields of every directory after a move. */
  lemma MovedNode<D, F>(t: Tree<D, F>, d: D, np: D, name: string, x: D)
    requires WellFormed(t) && MayMove(t, d, np, name) && x in t.dirs
    ensures var m := Moved(t, d, np, name); var from := Parent(t, d);
      && m.root == t.root && m.dirs.Keys == t.dirs.Keys && d != np && d != from
      && m.dirs[x].files == t.dirs[x].files
      && m.dirs[x].name == (if x == d then name else t.dirs[x].name)
      && m.dirs[x].parent == (if x == d then Some(np) else t.dirs[x].parent)
      && m.dirs[x].children
         == (if x == from then Remove(t.dirs[x].children, d) else t.dirs[x].children) + (if x == np then [d] else [])
  {
    assert Below(t, d, d);
  }

  /** The children after a move: `d` has left its parent and joined `np`, nothing else changed. */
  lemma MovedChildren<D, F>(t: Tree<D, F>, d: D, np: D, name: string, x: D, c: D)
    requires WellFormed(t) && MayMove(t, d, np, name) && x in t.dirs
    ensures x in Moved(t, d, np, name).dirs
    ensures c in Moved(t, d, np, name).dirs[x].children <==> if c == d then x == np else c in t.dirs[x].children
  {
    MovedNode(t, d, np, name, x);
    ChildrenDistinct(t, x);
    if x == Parent(t, d) {
      RemoveSpec(t.dirs[x].children, d);
    } else {
      NotAChild(t, d, x);
    }
  }

  lemma NotAChild<D, F>(t: Tree<D, F>, d: D, x: D)
    requires WellFormed(t) && d in t.dirs && d != t.root && x in t.dirs && x != Parent(t, d)
    ensures d !in t.dirs[x].children
  {
    forall i | 0 <= i < |t.dirs[x].children|
      ensures t.dirs[x].children[i] != d
    {
      assert t.dirs[t.dirs[x].children[i]].parent == Some(x);
    }
  }

  lemma MovedLinked<D, F>(t: Tree<D, F>, d: D, np: D, name: string)
    requires WellFormed(t) && MayMove(t, d, np, name)
    ensures Linked(Moved(t, d, np, name))
  {
    hide Moved, Leveled, Named, Below, Taken;
    var m := Moved(t, d, np, name);
    MovedNode(t, d, np, name, t.root);
    forall x | x in m.dirs && x != m.root
      ensures m.dirs[x].parent.Some? && m.dirs[x].parent.value in m.dirs && x in m.dirs[m.dirs[x].parent.value].children
    {
      MovedNode(t, d, np, name, x);
      MovedChildren(t, d, np, name, m.dirs[x].parent.value, x);
    }
    forall p, i | p in m.dirs && 0 <= i < |m.dirs[p].children|
      ensures m.dirs[p].children[i] in m.dirs && m.dirs[m.dirs[p].children[i]].parent == Some(p)
    {
      var c := m.dirs[p].children[i];
      MovedNode(t, d, np, name, p);
      MovedChildren(t, d, np, name, p, c);
      assert c in t.dirs;
      MovedNode(t, d, np, name, c);
    }
  }

  lemma MovedLeveled<D, F>(t: Tree<D, F>, d: D, np: D, name: string)
    requires WellFormed(t) && MayMove(t, d, np, name) && Linked(Moved(t, d, np, name))
    ensures Leveled(Moved(t, d, np, name))
  {
    hide Moved, Named, Below, Taken;
    var m := Moved(t, d, np, name);
    MovedNode(t, d, np, name, t.root);
    forall x | x in m.dirs
      ensures x in m.depth
    {
      DepthMoved(t, d, np, name, x);
    }
    forall x | x in m.dirs && x != m.root
      ensures m.depth[x] == m.depth[m.dirs[x].parent.value] + 1
    {
      LevelMoved(t, d, np, name, x);
    }
  }

  lemma LevelMoved<D, F>(t: Tree<D, F>, d: D, np: D, name: string, x: D)
    requires WellFormed(t) && MayMove(t, d, np, name) && x in t.dirs && x != t.root
    ensures var m := Moved(t, d, np, name);
      && x in m.dirs && x in m.depth && m.dirs[x].parent.Some? && m.dirs[x].parent.value in m.depth
      && m.depth[x] == m.depth[m.dirs[x].parent.value] + 1
  {
    hide Moved, Named, Below, Taken, SunkTo, Leveled;
    MovedNode(t, d, np, name, x);
    DepthMoved(t, d, np, name, x);
    MovedDepth(t, d, np, x);
    var p := if x == d then np else Parent(t, x);
    DepthMoved(t, d, np, name, p);
  }

  lemma DepthMoved<D, F>(t: Tree<D, F>, d: D, np: D, name: string, x: D)
    requires WellFormed(t) && MayMove(t, d, np, name) && x in t.dirs
    ensures x in Moved(t, d, np, name).depth && Moved(t, d, np, name).depth[x] == SunkTo(t, d, np, x)
  {
    hide Named, Taken, Below, SunkTo;
  }

  lemma MovedDepth<D, F>(t: Tree<D, F>, d: D, np: D, x: D)
    requires WellFormed(t) && d in t.dirs && d != t.root && np in t.dirs && !Below(t, d, np) && x in t.dirs
              && x != t.root
    ensures SunkTo(t, d, np, x) == SunkTo(t, d, np, if x == d then np else Parent(t, x)) + 1
  {
    if x != d && Below(t, d, x) {
      BelowDeeper(t, d, Parent(t, x));
    }
  }

  lemma SiblingNames<D, F>(t: Tree<D, F>, p: D, c: D, e: D)
    requires WellFormed(t) && p in t.dirs && c in t.dirs[p].children && e in t.dirs[p].children && c != e
    ensures c in t.dirs && e in t.dirs && t.dirs[c].name != t.dirs[e].name
  {
    var i :| 0 <= i < |t.dirs[p].children| && t.dirs[p].children[i] == c;
    var j :| 0 <= j < |t.dirs[p].children| && t.dirs[p].children[j] == e;
  }

  lemma MovedDistinct<D, F>(t: Tree<D, F>, d: D, np: D, name: string, p: D)
    requires WellFormed(t) && MayMove(t, d, np, name) && p in t.dirs
    ensures p in Moved(t, d, np, name).dirs
    ensures var cs := Moved(t, d, np, name).dirs[p].children; forall i, j :: 0 <= i < j < |cs| ==> cs[i] != cs[j]
  {
    hide Moved, Below, Taken;
    MovedNode(t, d, np, name, p);
    ChildrenDistinct(t, p);
    if p == Parent(t, d) {
      RemoveSpec(t.dirs[p].children, d);
    } else {
      NotAChild(t, d, p);
    }
  }

  lemma MovedNamed<D, F>(t: Tree<D, F>, d: D, np: D, name: string)
    requires WellFormed(t) && MayMove(t, d, np, name) && Linked(Moved(t, d, np, name))
    ensures Named(Moved(t, d, np, name))
  {
    hide Moved, Below, Taken, Leveled;
    var m := Moved(t, d, np, name);
    MovedNode(t, d, np, name, t.root);
    forall x | x in m.dirs && x != m.root
      ensures ValidName(m.dirs[x].name)
    {
      MovedNode(t, d, np, name, x);
    }
    forall p, i, j | p in m.dirs && 0 <= i < j < |m.dirs[p].children|
      ensures m.dirs[m.dirs[p].children[i]].name != m.dirs[m.dirs[p].children[j]].name
    {
      MovedNode(t, d, np, name, p);
      MovedDistinct(t, d, np, name, p);
      MovedSiblings(t, d, np, name, p, m.dirs[p].children[i], m.dirs[p].children[j]);
    }
  }

  lemma MovedSiblings<D, F>(t: Tree<D, F>, d: D, np: D, name: string, p: D, c: D, e: D)
    requires WellFormed(t) && MayMove(t, d, np, name) && p in t.dirs && p in Moved(t, d, np, name).dirs && c != e
    requires c in Moved(t, d, np, name).dirs[p].children && e in Moved(t, d, np, name).dirs[p].children
    ensures c in Moved(t, d, np, name).dirs && e in Moved(t, d, np, name).dirs
    ensures Moved(t, d, np, name).dirs[c].name != Moved(t, d, np, name).dirs[e].name
  {
    hide Moved, Below, Leveled;
    MovedChildren(t, d, np, name, p, c);
    MovedChildren(t, d, np, name, p, e);
    MovedNode(t, d, np, name, p);
    ChildIn(t, p, c);
    ChildIn(t, p, e);
    MovedNode(t, d, np, name, c);
    MovedNode(t, d, np, name, e);
    if c != d && e != d {
      SiblingNames(t, p, c, e);
    }
  }

  lemma ChildIn<D, F>(t: Tree<D, F>, p: D, c: D)
    requires WellFormed(t) && p in t.dirs
    ensures c in t.dirs[p].children ==> c in t.dirs
    ensures c in t.dirs[p].children ==> exists i :: 0 <= i < |t.dirs[p].children| && t.dirs[p].children[i] == c
  {
  }

  lemma ChildParent<D, F>(t: Tree<D, F>, p: D, c: D)
    requires WellFormed(t) && p in t.dirs && c in t.dirs[p].children
    ensures c in t.dirs && t.dirs[c].parent == Some(p) && c != t.root
  {
    var i :| 0 <= i < |t.dirs[p].children| && t.dirs[p].children[i] == c;
    assert t.dirs[t.dirs[p].children[i]].parent == Some(p);
  }

  /** A move keeps the tree well formed. */
  lemma MoveKeepsTree<D, F>(t: Tree<D, F>, d: D, np: D, name: string)
    requires WellFormed(t) && MayMove(t, d, np, name)
    ensures WellFormed(Moved(t, d, np, name))
  {
    hide Moved, Linked, Leveled, Named;
    MovedLinked(t, d, np, name);
    MovedLeveled(t, d, np, name);
    MovedNamed(t, d, np, name);
  }

  /** The path of `x` from `a` down. */
  ghost function Suffix<D, F>(t: Tree<D, F>, a: D, x: D): string
    requires WellFormed(t) && x in t.dirs && Below(t, a, x)
    decreases t.depth[x]
  {
    if x == a then "" else Suffix(t, a, Parent(t, x)) + "/" + t.dirs[x].name
  }

  lemma {:induction false} PathSuffix<D, F>(t: Tree<D, F>, a: D, x: D)
    requires WellFormed(t) && a in t.dirs && x in t.dirs && Below(t, a, x)
    ensures Path(t, x) == Path(t, a) + Suffix(t, a, x)
    decreases t.depth[x]
  {
    if x != a {
      PathSuffix(t, a, Parent(t, x));
      var p := Parent(t, x);
      assert Path(t, a) + (Suffix(t, a, p) + "/" + t.dirs[x].name)
          == (Path(t, a) + Suffix(t, a, p)) + "/" + t.dirs[x].name;
    }
  }

  lemma {:induction false} PathOutside<D, F>(t: Tree<D, F>, d: D, np: D, name: string, x: D)
    requires WellFormed(t) && MayMove(t, d, np, name) && WellFormed(Moved(t, d, np, name)) && x in t.dirs
              && !Below(t, d, x)
    ensures x in Moved(t, d, np, name).dirs && Path(Moved(t, d, np, name), x) == Path(t, x)
    decreases t.depth[x]
  {
    hide Moved, Linked, Named;
    MovedNode(t, d, np, name, x);
    if x != t.root {
      PathOutside(t, d, np, name, Parent(t, x));
    }
  }

  lemma {:induction false} PathInside<D, F>(t: Tree<D, F>, d: D, np: D, name: string, x: D)
    requires WellFormed(t) && MayMove(t, d, np, name) && WellFormed(Moved(t, d, np, name)) && x in t.dirs
              && Below(t, d, x)
    ensures x in Moved(t, d, np, name).dirs
    ensures Path(Moved(t, d, np, name), x) == Path(t, np) + "/" + name + Suffix(t, d, x)
    decreases t.depth[x]
  {
    hide Moved, Linked, Named;
    MovedNode(t, d, np, name, x);
    if x == d {
      PathOutside(t, d, np, name, np);
    } else {
      var p := Parent(t, x);
      PathInside(t, d, np, name, p);
      assert Path(t, np) + "/" + name + (Suffix(t, d, p) + "/" + t.dirs[x].name)
          == (Path(t, np) + "/" + name + Suffix(t, d, p)) + "/" + t.dirs[x].name;
    }
  }

  /** A move is pure re-parenting: the same directories with the same file refs, every path below
      the moved directory re-prefixed, every other path as it was. */
  lemma MoveReprefixes<D, F>(t: Tree<D, F>, d: D, np: D, name: string, x: D)
    requires WellFormed(t) && MayMove(t, d, np, name) && x in t.dirs
    ensures var m := Moved(t, d, np, name);
      && WellFormed(m) && m.dirs.Keys == t.dirs.Keys && m.dirs[x].files == t.dirs[x].files
      && (!Below(t, d, x) ==> Path(m, x) == Path(t, x))
      && (Below(t, d, x) ==>
            && Path(t, x) == Path(t, d) + Suffix(t, d, x)
            && Path(m, x) == Path(t, np) + "/" + name + Suffix(t, d, x))
  {
    hide Moved, Linked, Leveled, Named;
    MoveKeepsTree(t, d, np, name);
    MovedNode(t, d, np, name, x);
    if Below(t, d, x) {
      PathSuffix(t, d, x);
      PathInside(t, d, np, name, x);
    } else {
      PathOutside(t, d, np, name, x);
    }
  }

  // -- moving a directory into itself -----------------------------------------------------------------

  /** Below `d`, every level assignment of the moved structure still counts down from `d`. */
  lemma {:induction false} StillBelow<D, F>(t: Tree<D, F>, d: D, np: D, name: string, level: map<D, nat>, x: D)
    requires WellFormed(t) && d in t.dirs && d != t.root && np in t.dirs && x in t.dirs && Below(t, d, x)
    requires Linked(Moved(t, d, np, name)) && Leveled(Moved(t, d, np, name).(depth := level))
    ensures x in level && d in level && level[x] >= level[d]
    decreases t.depth[x]
  {
    var m := Moved(t, d, np, name);
    assert x in m.dirs && d in m.dirs;
    if x != d {
      assert m.dirs[x].parent == t.dirs[x].parent;
      StillBelow(t, d, np, name, level, Parent(t, x));
    }
  }

  /** The check against moving a directory into itself is needed: without it the parents run in a
      circle, and no assignment of levels fits. */
  lemma MoveIntoSelfIsCircular<D, F>(t: Tree<D, F>, d: D, np: D, name: string, level: map<D, nat>)
    requires WellFormed(t) && d in t.dirs && d != t.root && np in t.dirs && Below(t, d, np)
    ensures !(Linked(Moved(t, d, np, name)) && Leveled(Moved(t, d, np, name).(depth := level)))
  {
    var m := Moved(t, d, np, name);
    assert d in m.dirs && m.dirs[d].parent == Some(np) && m.root == t.root;
    if Linked(m) && Leveled(m.(depth := level)) {
      StillBelow(t, d, np, name, level, np);
    }
  }

  // -- creating and deleting --------------------------------------------------------------------------

  /** `p.create_dir(name)` with the new directory `c`, which starts with `files`. */
  ghost function Created<D, F>(t: Tree<D, F>, p: D, c: D, name: string, files: seq<F>): Tree<D, F>
    requires WellFormed(t) && p in t.dirs
  {
    var grown := t.dirs[c := Node(name, Some(p), [], files)];
    t.(dirs := grown[p := t.dirs[p].(children := t.dirs[p].children + [c])], depth := t.depth[c := t.depth[p] + 1])
  }

  lemma CreatedNode<D, F>(t: Tree<D, F>, p: D, c: D, name: string, files: seq<F>, x: D)
    requires WellFormed(t) && p in t.dirs && c !in t.dirs
    ensures var m := Created(t, p, c, name, files);
      && m.root == t.root && m.dirs.Keys == t.dirs.Keys + {c} && m.dirs[c] == Node(name, Some(p), [], files)
      && (x in t.dirs ==>
            && m.dirs[x].name == t.dirs[x].name && m.dirs[x].parent == t.dirs[x].parent
            && m.dirs[x].files == t.dirs[x].files
            && m.dirs[x].children == t.dirs[x].children + (if x == p then [c] else []))
  {
  }

  lemma CreatedLinked<D, F>(t: Tree<D, F>, p: D, c: D, name: string, files: seq<F>)
    requires WellFormed(t) && p in t.dirs && c !in t.dirs
    ensures Linked(Created(t, p, c, name, files)) && Leveled(Created(t, p, c, name, files))
  {
    hide Named;
    var m := Created(t, p, c, name, files);
    CreatedNode(t, p, c, name, files, p);
    assert m.dirs[p].children[|t.dirs[p].children|] == c;
    forall x | x in m.dirs && x != m.root
      ensures m.dirs[x].parent.Some? && m.dirs[x].parent.value in m.dirs && x in m.dirs[m.dirs[x].parent.value].children
    {
      CreatedNode(t, p, c, name, files, x);
      if x != c {
        CreatedNode(t, p, c, name, files, Parent(t, x));
      }
    }
    forall q, i | q in m.dirs && 0 <= i < |m.dirs[q].children|
      ensures m.dirs[q].children[i] in m.dirs && m.dirs[m.dirs[q].children[i]].parent == Some(q)
    {
      CreatedNode(t, p, c, name, files, q);
      CreatedNode(t, p, c, name, files, m.dirs[q].children[i]);
    }
  }

  lemma CreatedNamed<D, F>(t: Tree<D, F>, p: D, c: D, name: string, files: seq<F>)
    requires WellFormed(t) && p in t.dirs && c !in t.dirs && ValidName(name) && !Taken(t, p, name)
    requires Linked(Created(t, p, c, name, files))
    ensures Named(Created(t, p, c, name, files))
  {
    hide Leveled, Created;
    var m := Created(t, p, c, name, files);
    CreatedNode(t, p, c, name, files, p);
    forall x | x in m.dirs && x != m.root
      ensures ValidName(m.dirs[x].name)
    {
      CreatedNode(t, p, c, name, files, x);
    }
    forall q, i, j | q in m.dirs && 0 <= i < j < |m.dirs[q].children|
      ensures m.dirs[m.dirs[q].children[i]].name != m.dirs[m.dirs[q].children[j]].name
    {
      CreatedNode(t, p, c, name, files, q);
      assert t.dirs[q].children[i] in t.dirs;
      CreatedNode(t, p, c, name, files, t.dirs[q].children[i]);
      if j < |t.dirs[q].children| {
        CreatedNode(t, p, c, name, files, t.dirs[q].children[j]);
      }
    }
  }

  /** A new directory keeps the tree well formed and every other directory, with its files, in it. */
  lemma CreateKeepsTree<D, F>(t: Tree<D, F>, p: D, c: D, name: string, files: seq<F>)
    requires WellFormed(t) && p in t.dirs && c !in t.dirs && ValidName(name) && !Taken(t, p, name)
    ensures WellFormed(Created(t, p, c, name, files))
    ensures Created(t, p, c, name, files).dirs.Keys == t.dirs.Keys + {c}
    ensures forall x :: x in t.dirs ==> Created(t, p, c, name, files).dirs[x].files == t.dirs[x].files
  {
    hide Linked, Leveled, Named;
    CreatedLinked(t, p, c, name, files);
    CreatedNamed(t, p, c, name, files);
  }

  lemma {:induction false} CreatedOther<D, F>(t: Tree<D, F>, p: D, c: D, name: string, files: seq<F>, x: D)
    requires WellFormed(t) && p in t.dirs && c !in t.dirs && WellFormed(Created(t, p, c, name, files)) && x in t.dirs
    ensures Path(Created(t, p, c, name, files), x) == Path(t, x)
    decreases t.depth[x]
  {
    hide Linked, Named, Created;
    CreatedNode(t, p, c, name, files, x);
    if x != t.root {
      CreatedOther(t, p, c, name, files, Parent(t, x));
    }
  }

  /** The new directory lies where it was asked for. */
  lemma CreatedPath<D, F>(t: Tree<D, F>, p: D, c: D, name: string, files: seq<F>)
    requires WellFormed(t) && p in t.dirs && c !in t.dirs && WellFormed(Created(t, p, c, name, files))
    ensures c in Created(t, p, c, name, files).dirs
    ensures Path(Created(t, p, c, name, files), c) == Path(t, p) + "/" + name
  {
    CreatedNode(t, p, c, name, files, p);
    CreatedOther(t, p, c, name, files, p);
  }

  /** `d.delete()`: its whole subtree leaves the tree; the root only loses what is below it. */
  ghost function Deleted<D, F>(t: Tree<D, F>, d: D): Tree<D, F>
    requires WellFormed(t) && d in t.dirs
  {
    if d == t.root then t.(dirs := map[d := t.dirs[d].(children := [])])
    else
      var p := Parent(t, d);
      var cut := t.dirs[p := t.dirs[p].(children := Remove(t.dirs[p].children, d))];
      t.(dirs := map x | x in t.dirs && !Below(t, d, x) :: cut[x])
  }

  lemma DeletedNode<D, F>(t: Tree<D, F>, d: D, x: D)
    requires WellFormed(t) && d in t.dirs && d != t.root && x in t.dirs
    ensures x in Deleted(t, d).dirs <==> !Below(t, d, x)
    ensures !Below(t, d, x) ==>
              var m := Deleted(t, d).dirs[x];
              && m.name == t.dirs[x].name && m.parent == t.dirs[x].parent && m.files == t.dirs[x].files
              && forall c :: c in m.children <==> c in t.dirs[x].children && c != d
    ensures !Below(t, d, x) ==>
              var cs := Deleted(t, d).dirs[x].children; forall i, j :: 0 <= i < j < |cs| ==> cs[i] != cs[j]
  {
    ChildrenDistinct(t, x);
    if x == Parent(t, d) {
      RemoveSpec(t.dirs[x].children, d);
    } else {
      NotAChild(t, d, x);
    }
  }

  lemma {:induction false} RootStays<D, F>(t: Tree<D, F>, d: D)
    requires WellFormed(t) && d in t.dirs && d != t.root
    ensures !Below(t, d, t.root) && !Below(t, d, Parent(t, d))
  {
    if Below(t, d, Parent(t, d)) {
      BelowDeeper(t, d, Parent(t, d));
    }
  }

  /** What is left keeps its fields, but for the child its parent lost. */
  lemma DeletedFields<D, F>(t: Tree<D, F>, d: D, x: D)
    requires WellFormed(t) && d in t.dirs && d != t.root && x in t.dirs && x in Deleted(t, d).dirs
    ensures Deleted(t, d).dirs[x]
         == t.dirs[x].(children := if x == Parent(t, d) then Remove(t.dirs[x].children, d) else t.dirs[x].children)
  {
  }

  lemma DeletedChild<D, F>(t: Tree<D, F>, d: D, x: D, c: D)
    requires WellFormed(t) && d in t.dirs && d != t.root && x in t.dirs && !Below(t, d, x)
    ensures x in Deleted(t, d).dirs
    ensures c in Deleted(t, d).dirs[x].children <==> c in t.dirs[x].children && c != d
  {
    DeletedNode(t, d, x);
  }

  lemma DeletedLinked<D, F>(t: Tree<D, F>, d: D)
    requires WellFormed(t) && d in t.dirs && d != t.root
    ensures Linked(Deleted(t, d)) && Leveled(Deleted(t, d))
  {
    hide Named, Deleted;
    var m := Deleted(t, d);
    assert m.root == t.root && m.depth == t.depth by {
      DeletedRest(t, d);
    }
    RootStays(t, d);
    DeletedNode(t, d, t.root);
    forall x | x in m.dirs && x != m.root
      ensures m.dirs[x].parent.Some? && m.dirs[x].parent.value in m.dirs && x in m.dirs[m.dirs[x].parent.value].children
      ensures x in t.dirs && m.dirs[x].parent == t.dirs[x].parent
    {
      DeletedRest(t, d);
      DeletedNode(t, d, x);
      DeletedNode(t, d, Parent(t, x));
    }
    forall q, i | q in m.dirs && 0 <= i < |m.dirs[q].children|
      ensures m.dirs[q].children[i] in m.dirs && m.dirs[m.dirs[q].children[i]].parent == Some(q)
    {
      DeletedRest(t, d);
      DeletedNode(t, d, q);
      var c := m.dirs[q].children[i];
      DeletedChild(t, d, q, c);
      ChildIn(t, q, c);
      ChildParent(t, q, c);
      DeletedNode(t, d, c);
    }
  }

  lemma DeletedRest<D, F>(t: Tree<D, F>, d: D)
    requires WellFormed(t) && d in t.dirs && d != t.root
    ensures Deleted(t, d).root == t.root && Deleted(t, d).depth == t.depth
    ensures forall x :: x in Deleted(t, d).dirs ==> x in t.dirs
  {
  }

  lemma DeletedNamed<D, F>(t: Tree<D, F>, d: D)
    requires WellFormed(t) && d in t.dirs && d != t.root && Linked(Deleted(t, d))
    ensures Named(Deleted(t, d))
  {
    hide Deleted, Below, Leveled;
    var m := Deleted(t, d);
    DeletedRest(t, d);
    forall x | x in m.dirs && x != m.root
      ensures ValidName(m.dirs[x].name)
    {
      DeletedNode(t, d, x);
    }
    forall q, i, j | q in m.dirs && 0 <= i < j < |m.dirs[q].children|
      ensures m.dirs[m.dirs[q].children[i]].name != m.dirs[m.dirs[q].children[j]].name
    {
      DeletedNode(t, d, q);
      var c, e := m.dirs[q].children[i], m.dirs[q].children[j];
      assert c in m.dirs[q].children && e in m.dirs[q].children;
      SiblingNames(t, q, c, e);
      DeletedNode(t, d, c);
      DeletedNode(t, d, e);
    }
  }

  /** Deleting keeps the tree well formed and removes exactly what lies below; everything else stays
      under the same path with the same file refs. */
  lemma DeleteKeepsTree<D, F>(t: Tree<D, F>, d: D, x: D)
    requires WellFormed(t) && d in t.dirs && d != t.root && x in t.dirs
    ensures WellFormed(Deleted(t, d))
    ensures x in Deleted(t, d).dirs <==> !Below(t, d, x)
    ensures x in Deleted(t, d).dirs ==>
              Deleted(t, d).dirs[x].files == t.dirs[x].files && Path(Deleted(t, d), x) == Path(t, x)
  {
    hide Deleted, Linked, Leveled, Named, Below;
    DeletedLinked(t, d);
    DeletedNamed(t, d);
    DeletedNode(t, d, x);
    if !Below(t, d, x) {
      DeletedPath(t, d, x);
    }
  }

  lemma {:induction false} DeletedPath<D, F>(t: Tree<D, F>, d: D, x: D)
    requires WellFormed(t) && d in t.dirs && d != t.root && WellFormed(Deleted(t, d)) && x in t.dirs && !Below(t, d, x)
    ensures x in Deleted(t, d).dirs && Path(Deleted(t, d), x) == Path(t, x)
    decreases t.depth[x]
  {
    hide Deleted, Linked, Named;
    DeletedRest(t, d);
    DeletedNode(t, d, x);
    if x != t.root {
      DeletedPath(t, d, Parent(t, x));
    }
  }

  /** Emptying the root leaves the root alone. */
  lemma DeleteRoot<D, F>(t: Tree<D, F>)
    requires WellFormed(t)
    ensures WellFormed(Deleted(t, t.root)) && Deleted(t, t.root).dirs.Keys == {t.root}
  {
  }
}
