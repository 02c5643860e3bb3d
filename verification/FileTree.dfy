/** The file tree that image layers are merged into, and the file operations
    mergeLayerWithWhiteouts performs on it (cmd/aetheria-agent/oci.go:517-601).

    A tree maps the path of each existing file, relative to the merge target, to
    what is there; `[]` is the target directory itself. */
module FileTree {

  type Name = string
  type Path = seq<Name>

  datatype Node = Dir | File(content: string) | Link(target: string)

  type Tree = map<Path, Node>

  /** How an operation ends. `ThroughLink` marks the boundary of the model: the
      operation would be resolved through an existing symbolic link. */
  datatype Outcome = Done(tree: Tree) | Failed | ThroughLink

  // ---------- Paths ----------

  /** p is root or lies below it. */
  predicate Under(p: Path, root: Path) {
    |root| <= |p| && p[..|root|] == root
  }

  function Parent(p: Path): Path
    requires p != []
  {
    p[..|p| - 1]
  }

  function Base(p: Path): Name
    requires p != []
  {
    p[|p| - 1]
  }

  lemma UnderTransitive(p: Path, q: Path, r: Path)
    requires Under(p, q) && Under(q, r)
    ensures Under(p, r)
  {
    assert p[..|r|] == p[..|q|][..|r|];
  }

  // ---------- Trees ----------

  /** The target is a directory and every file is in a directory of the tree. */
  ghost predicate Rooted(t: Tree) {
    && [] in t && t[[]].Dir?
    && forall p :: p in t && p != [] ==> Parent(p) in t && t[Parent(p)].Dir?
  }

  lemma {:induction false} AncestorsAreDirs(t: Tree, p: Path, q: Path)
    requires Rooted(t) && p in t && Under(p, q) && q != p
    ensures q in t && t[q].Dir?
    decreases |p|
  {
    assert p != [] && Under(Parent(p), q) by { assert Parent(p)[..|q|] == p[..|q|]; }
    if q != Parent(p) {
      AncestorsAreDirs(t, Parent(p), q);
    }
  }

  function WithoutSubtree(t: Tree, root: Path): Tree {
    map p | p in t && !Under(p, root) :: t[p]
  }

  function WithoutContents(t: Tree, dir: Path): Tree {
    map p | p in t && !(Under(p, dir) && p != dir) :: t[p]
  }

  /** Some existing path at or above p satisfies the test. */
  predicate LinkOnWay(t: Tree, p: Path) {
    exists q :: q in t && Under(p, q) && t[q].Link?
  }

  predicate FileOnWay(t: Tree, p: Path) {
    exists q :: q in t && Under(p, q) && t[q].File?
  }

  lemma NothingOnWay(t: Tree, p: Path)
    requires Rooted(t) && p in t && t[p].Dir?
    ensures !LinkOnWay(t, p) && !FileOnWay(t, p)
  {
    forall q | q in t && Under(p, q) ensures t[q].Dir? {
      if q != p { AncestorsAreDirs(t, p, q); }
    }
  }

  // ---------- Operations ----------

  /** os.MkdirAll: creates every missing directory on the way to p. */
  function MkdirAll(t: Tree, p: Path): Outcome {
    if LinkOnWay(t, p) then ThroughLink
    else if FileOnWay(t, p) then Failed
    else Done(t + map k | 0 <= k <= |p| :: p[..k] := Dir)
  }

  /** copyFile: creates the parents (ignoring errors), then opens p with
      O_CREATE|O_TRUNC and writes the content. */
  function CopyFile(t: Tree, p: Path, content: string): Outcome
    requires p != []
  {
    match MkdirAll(t, Parent(p))
    case Done(t1) =>
      if p !in t1 || t1[p].File? then Done(t1[p := File(content)])
      else if t1[p].Dir? then Failed
      else ThroughLink
    case other => other
  }

  predicate EmptyDir(t: Tree, p: Path) {
    forall q :: q in t && Under(q, p) ==> q == p
  }

  /** os.Remove (error ignored), then os.Symlink. A non-empty directory cannot be
      removed and makes the second call fail. */
  function Symlink(t: Tree, p: Path, target: string): Outcome
    requires p != []
  {
    if LinkOnWay(t, Parent(p)) then ThroughLink
    else if Parent(p) !in t || t[Parent(p)].File? then Failed
    else if p in t && t[p].Dir? && !EmptyDir(t, p) then Failed
    else Done(t[p := Link(target)])
  }

  /** os.RemoveAll of a child of an existing directory; no error is reported. */
  function RemoveAll(t: Tree, p: Path): Outcome {
    if p != [] && LinkOnWay(t, Parent(p)) then ThroughLink
    else Done(WithoutSubtree(t, p))
  }

  /** os.ReadDir, then os.RemoveAll of each child. */
  function EmptyOut(t: Tree, dir: Path): Outcome {
    if LinkOnWay(t, dir) then ThroughLink
    else Done(WithoutContents(t, dir))
  }
}
