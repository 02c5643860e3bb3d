/** The lexical pre-order walk over one extracted layer
    (cmd/aetheria-agent/oci.go:519-570), and the order in which it visits files. */
module LayerWalk {
  import opened FileTree

  /** One visited file. A layer is the sequence of its files in the order in which
      filepath.Walk visits them; the layer directory itself (`[]`) may come first. */
  datatype Entry = Entry(path: Path, node: Node)
  type Layer = seq<Entry>

  const OPAQUE := ".wh..wh..opq"
  const WHITEOUT := ".wh."

  predicate IsMarkerName(n: Name) {
    |WHITEOUT| <= |n| && n[..|WHITEOUT|] == WHITEOUT
  }

  predicate IsMarker(e: Entry) {
    e.path != [] && IsMarkerName(Base(e.path))
  }

  // ---------- The walk ----------

  /** filepath.Join(filepath.Dir(dest), name) after cleaning; the empty path stands
      for the target and everything above it. */
  function WhiteoutTarget(dir: Path, name: Name): Path {
    if name == "" || name == "." then dir
    else if name == ".." then (if dir == [] then [] else Parent(dir))
    else dir + [name]
  }

  /** What the walk function does for one file. */
  function Step(t: Tree, e: Entry): Outcome {
    if e.path == [] then Done(t) else
    var dir, name := Parent(e.path), Base(e.path);
    if name == OPAQUE then EmptyOut(t, dir)
    else if IsMarkerName(name) then RemoveAll(t, WhiteoutTarget(dir, name[|WHITEOUT|..]))
    else match e.node
      case Dir => MkdirAll(t, e.path)
      case Link(target) => Symlink(t, e.path, target)
      case File(content) => CopyFile(t, e.path, content)
  }

  /** The walk over a whole layer; it stops at the first error. */
  function Walk(t: Tree, es: Layer): Outcome {
    if es == [] then Done(t)
    else
      match Walk(t, es[..|es| - 1])
      case Done(t1) => Step(t1, es[|es| - 1])
      case other => other
  }

  /** Once it has stopped, the walk visits nothing more. */
  lemma {:induction false} WalkStopped(t: Tree, es: Layer, n: nat)
    requires n <= |es| && !Walk(t, es[..n]).Done?
    ensures Walk(t, es) == Walk(t, es[..n])
    decreases |es|
  {
    if n == |es| {
      assert es[..n] == es;
    } else {
      assert es[..|es| - 1][..n] == es[..n];
      WalkStopped(t, es[..|es| - 1], n);
    }
  }

  /** The visit of the layer directory itself changes nothing, whatever is there. */
  lemma {:induction false} RootVisit(t: Tree, root: Entry, es: Layer)
    requires root.path == []
    ensures Walk(t, [root] + es) == Walk(t, es)
    decreases |es|
  {
    var all := [root] + es;
    if es == [] {
      assert all[..|all| - 1] == [];
    } else {
      RootVisit(t, root, es[..|es| - 1]);
      assert all[..|all| - 1] == [root] + es[..|es| - 1];
    }
  }

  // ---------- The order of the walk ----------

  /** Byte order of names (sort.Strings). */
  ghost predicate NameLess(a: Name, b: Name) {
    || (|a| < |b| && a == b[..|a|])
    || exists k :: 0 <= k < |a| && k < |b| && a[..k] == b[..k] && a[k] < b[k]
  }

  lemma NameLessAsymmetric(a: Name, b: Name)
    requires NameLess(a, b)
    ensures !NameLess(b, a)
  {
  }

  /** Pre-order with sorted siblings: a directory before its contents, otherwise the
      first differing component decides. */
  ghost predicate PathLess(a: Path, b: Path) {
    || (a != b && Under(b, a))
    || exists k :: DiffersAt(a, b, k)
  }

  ghost predicate DiffersAt(a: Path, b: Path, k: int) {
    0 <= k < |a| && k < |b| && a[..k] == b[..k] && NameLess(a[k], b[k])
  }

  lemma PathLessAsymmetric(a: Path, b: Path)
    requires PathLess(a, b)
    ensures !PathLess(b, a)
  {
    forall k, l | DiffersAt(a, b, k) && DiffersAt(b, a, l) ensures false {
      if k == l { NameLessAsymmetric(a[k], b[k]); }
    }
  }

  /** Going deeper does not move a path past another one that is no longer. */
  lemma DescendantsStayBefore(p: Path, q: Path, m: Path)
    requires Under(p, q) && |m| <= |q| && PathLess(q, m)
    ensures PathLess(p, m)
  {
    assert !(q != m && Under(m, q));
    var k :| DiffersAt(q, m, k);
    assert p[..k] == p[..|q|][..k];
    assert DiffersAt(p, m, k);
  }

  /** The sequence is the walk of some directory tree in which no marker is a
      directory with contents, with or without the layer directory itself. */
  ghost predicate WellFormed(es: Layer) {
    && (forall i :: 0 <= i < |es| && es[i].path == [] ==> es[i].node.Dir?)
    && (forall i, j :: 0 <= i < j < |es| ==> InOrder(es, i, j))
    && (forall i :: 0 <= i < |es| ==> HasParent(es, i))
  }

  ghost predicate InOrder(es: Layer, i: int, j: int)
    requires 0 <= i < |es| && 0 <= j < |es|
  {
    PathLess(es[i].path, es[j].path)
  }

  /** The directory of entry i is the layer directory or an entry itself. */
  ghost predicate HasParent(es: Layer, i: int)
    requires 0 <= i < |es|
  {
    es[i].path == [] || Parent(es[i].path) == [] || exists k :: DirAt(es, k, Parent(es[i].path))
  }

  ghost predicate DirAt(es: Layer, k: int, p: Path) {
    0 <= k < |es| && es[k].path == p && es[k].node.Dir? && !IsMarker(es[k])
  }

  /** Every whiteout names a child of its own directory: the name after the prefix is
      not empty, "." or "..". */
  ghost predicate ProperMarkers(es: Layer) {
    forall i :: 0 <= i < |es| && IsMarker(es[i]) ==> ProperMarkerName(Base(es[i].path))
  }

  predicate ProperMarkerName(n: Name)
    requires IsMarkerName(n)
  {
    n[|WHITEOUT|..] != "" && n[|WHITEOUT|..] != "." && n[|WHITEOUT|..] != ".."
  }

  /** A path occurs at one position only. */
  lemma PathsDistinct(es: Layer, i: int, j: int)
    requires WellFormed(es) && 0 <= i < |es| && 0 <= j < |es| && es[i].path == es[j].path
    ensures i == j
  {
    if i < j { assert InOrder(es, i, j); PathLessAsymmetric(es[i].path, es[j].path); }
    if j < i { assert InOrder(es, j, i); PathLessAsymmetric(es[j].path, es[i].path); }
  }

  /** A directory is visited before the files in it. */
  lemma ParentFirst(es: Layer, i: int, k: int)
    requires WellFormed(es) && 0 <= i < |es| && 0 <= k < |es|
    requires es[k].path != es[i].path && Under(es[i].path, es[k].path)
    ensures k < i
  {
    if i < k { assert InOrder(es, i, k); PathLessAsymmetric(es[i].path, es[k].path); }
  }

  lemma PrefixWellFormed(es: Layer, n: nat)
    requires WellFormed(es) && n <= |es|
    ensures WellFormed(es[..n])
    ensures ProperMarkers(es) ==> ProperMarkers(es[..n])
  {
    var s := es[..n];
    forall i, j | 0 <= i < j < |s| ensures InOrder(s, i, j) { assert InOrder(es, i, j); }
    forall i | 0 <= i < |s| ensures HasParent(s, i) {
      assert HasParent(es, i);
      if s[i].path != [] && Parent(s[i].path) != [] {
        var k :| DirAt(es, k, Parent(es[i].path));
        ParentFirst(es, i, k);
        assert DirAt(s, k, Parent(s[i].path));
      }
    }
  }
}
