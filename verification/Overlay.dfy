/** What merging a layer means, and the proof that the one-pass walk computes it.

    The OCI image format ("Image Layer Filesystem Changeset", sections "Whiteouts" and
    "Opaque Whiteout") applies all whiteouts of a layer to the lower layers and then
    adds the layer's own files. The walk interleaves the two, so a file visited before a
    marker that covers it is copied and then erased. */
module Overlay {
  import opened FileTree
  import opened LayerWalk

  // ---------- The meaning of one layer ----------

  /** The files removed by the marker at path m. */
  predicate Covers(m: Path, p: Path)
    requires m != [] && IsMarkerName(Base(m))
  {
    if Base(m) == OPAQUE then Under(p, Parent(m)) && p != Parent(m)
    else Under(p, Parent(m) + [Base(m)[|WHITEOUT|..]])
  }

  predicate CoversAt(es: Layer, j: int, p: Path) {
    0 <= j < |es| && IsMarker(es[j]) && Covers(es[j].path, p)
  }

  ghost predicate Covered(es: Layer, p: Path) {
    exists j :: CoversAt(es, j, p)
  }

  /** Entry i lists p, as a file and not as a marker. */
  predicate ListsAt(es: Layer, i: int, p: Path) {
    0 <= i < |es| && !IsMarker(es[i]) && es[i].path == p
  }

  ghost predicate Lists(es: Layer, p: Path) {
    exists i :: ListsAt(es, i, p)
  }

  /** Entry i lists p and no marker visited later covers p. */
  ghost predicate SuppliesAt(es: Layer, i: int, p: Path) {
    ListsAt(es, i, p) && forall j :: i < j ==> !CoversAt(es, j, p)
  }

  ghost predicate Supplies(es: Layer, p: Path) {
    exists i :: SuppliesAt(es, i, p)
  }

  /** Listed, but erased by a marker visited later. */
  ghost predicate Erased(es: Layer, p: Path) {
    Lists(es, p) && !Supplies(es, p)
  }

  ghost function NodeAt(es: Layer, p: Path): Node
    requires Lists(es, p)
  {
    var i :| ListsAt(es, i, p);
    es[i].node
  }

  lemma NodeAtIs(es: Layer, i: int, p: Path)
    requires WellFormed(es) && ListsAt(es, i, p)
    ensures Lists(es, p) && NodeAt(es, p) == es[i].node
  {
    forall k | ListsAt(es, k, p) ensures k == i { PathsDistinct(es, i, k); }
  }

  function PathsOf(es: Layer): set<Path> {
    set i | 0 <= i < |es| :: es[i].path
  }

  /** The standard's two phases: all whiteouts on the lower tree, then all additions. */
  ghost function TwoPhase(t: Tree, es: Layer): Tree {
    map p | p in t.Keys + PathsOf(es) && (Lists(es, p) || (p in t && !Covered(es, p)))
      :: if Lists(es, p) then NodeAt(es, p) else t[p]
  }

  /** The same with the erased files left out. */
  ghost function Merged(t: Tree, es: Layer): Tree {
    map p | p in t.Keys + PathsOf(es) && (Supplies(es, p) || (p in t && !Covered(es, p)))
      :: if Supplies(es, p) then NodeAt(es, p) else t[p]
  }

  lemma ListedIsPath(es: Layer, p: Path)
    requires Lists(es, p)
    ensures p in PathsOf(es)
  {
    var i :| ListsAt(es, i, p);
    assert es[i].path in PathsOf(es);
  }

  lemma SuppliesLists(es: Layer, p: Path)
    requires Supplies(es, p)
    ensures Lists(es, p)
  {
    var i :| SuppliesAt(es, i, p);
    assert ListsAt(es, i, p);
  }

  lemma MergedKeys(t: Tree, es: Layer, p: Path)
    ensures p in Merged(t, es) <==> Supplies(es, p) || (p in t && !Covered(es, p))
  {
    if Supplies(es, p) { SuppliesLists(es, p); ListedIsPath(es, p); }
  }

  // ---------- Adding one entry ----------

  lemma CoveredSnoc(es: Layer, e: Entry, p: Path)
    ensures Covered(es + [e], p) <==> Covered(es, p) || (IsMarker(e) && Covers(e.path, p))
  {
    var s := es + [e];
    forall j | CoversAt(es, j, p) ensures CoversAt(s, j, p) {}
    if IsMarker(e) && Covers(e.path, p) { assert CoversAt(s, |es|, p); }
    forall j | CoversAt(s, j, p) && j != |es| ensures CoversAt(es, j, p) {}
  }

  lemma SuppliesSnoc(es: Layer, e: Entry, p: Path)
    ensures Supplies(es + [e], p) <==>
            (if IsMarker(e) then Supplies(es, p) && !Covers(e.path, p) else Supplies(es, p) || e.path == p)
    ensures Lists(es + [e], p) <==> Lists(es, p) || (!IsMarker(e) && e.path == p)
  {
    var s := es + [e];
    forall j ensures CoversAt(s, j, p) <==> CoversAt(es, j, p) || (j == |es| && IsMarker(e) && Covers(e.path, p)) {}
    forall i ensures ListsAt(s, i, p) <==> ListsAt(es, i, p) || (i == |es| && !IsMarker(e) && e.path == p) {}
    if Supplies(es, p) && !(IsMarker(e) && Covers(e.path, p)) {
      var i :| SuppliesAt(es, i, p);
      assert SuppliesAt(s, i, p);
    }
    if !IsMarker(e) && e.path == p { assert SuppliesAt(s, |es|, p); assert ListsAt(s, |es|, p); }
    if Supplies(s, p) {
      var i :| SuppliesAt(s, i, p);
      if i < |es| {
        assert SuppliesAt(es, i, p) by {
          forall j | i < j ensures !CoversAt(es, j, p) { assert !CoversAt(s, j, p); }
        }
        assert !CoversAt(s, |es|, p);
      }
    }
    if Lists(es, p) { var i :| ListsAt(es, i, p); assert ListsAt(s, i, p); }
    if Lists(s, p) { var i :| ListsAt(s, i, p); assert ListsAt(es, i, p) || i == |es|; }
  }

  lemma NodeAtSnoc(es: Layer, e: Entry, p: Path)
    requires WellFormed(es + [e]) && Lists(es, p)
    ensures Lists(es + [e], p) && NodeAt(es + [e], p) == NodeAt(es, p)
    ensures IsMarker(e) || e.path != p
  {
    var s := es + [e];
    var i :| ListsAt(es, i, p);
    assert ListsAt(s, i, p);
    NodeAtIs(s, i, p);
    PrefixWellFormed(s, |es|);
    assert s[..|es|] == es;
    NodeAtIs(es, i, p);
    if !IsMarker(e) && e.path == p { PathsDistinct(s, i, |es|); }
  }

  lemma MergedMarker(t: Tree, es: Layer, e: Entry)
    requires WellFormed(es + [e]) && IsMarker(e)
    ensures Merged(t, es + [e]) == map p | p in Merged(t, es) && !Covers(e.path, p) :: Merged(t, es)[p]
  {
    var l, r := Merged(t, es + [e]), map p | p in Merged(t, es) && !Covers(e.path, p) :: Merged(t, es)[p];
    forall p ensures p in l <==> p in r {
      MergedKeys(t, es, p); MergedKeys(t, es + [e], p); CoveredSnoc(es, e, p); SuppliesSnoc(es, e, p);
    }
    forall p | p in l ensures l[p] == r[p] {
      MergedKeys(t, es + [e], p); SuppliesSnoc(es, e, p);
      if Supplies(es, p) { SuppliesLists(es, p); NodeAtSnoc(es, e, p); }
    }
  }

  lemma MergedFile(t: Tree, es: Layer, e: Entry)
    requires WellFormed(es + [e]) && !IsMarker(e)
    ensures Merged(t, es + [e]) == Merged(t, es)[e.path := e.node]
  {
    var s := es + [e];
    var l, r := Merged(t, s), Merged(t, es)[e.path := e.node];
    forall p ensures p in l <==> p in r {
      MergedKeys(t, es, p); MergedKeys(t, s, p); CoveredSnoc(es, e, p); SuppliesSnoc(es, e, p);
    }
    forall p | p in l ensures l[p] == r[p] {
      MergedKeys(t, s, p); SuppliesSnoc(es, e, p);
      if p == e.path {
        assert ListsAt(s, |es|, p);
        NodeAtIs(s, |es|, p);
      } else if Supplies(es, p) {
        SuppliesLists(es, p); NodeAtSnoc(es, e, p);
      }
    }
  }

  // ---------- Parents stay in place during the walk ----------

  /** A file's directory is not erased between its own visit and the file's. */
  lemma ParentSupplied(es: Layer, n: int)
    requires WellFormed(es) && ProperMarkers(es) && 0 <= n < |es|
    requires es[n].path != [] && Parent(es[n].path) != []
    ensures Supplies(es[..n], Parent(es[n].path))
    ensures NodeAt(es[..n], Parent(es[n].path)) == Dir
  {
    var p, q := es[n].path, Parent(es[n].path);
    assert HasParent(es, n);
    var k :| DirAt(es, k, q);
    ParentFirst(es, n, k);
    var s := es[..n];
    PrefixWellFormed(es, n);
    assert ListsAt(s, k, q);
    NodeAtIs(s, k, q);
    forall j | k < j ensures !CoversAt(s, j, q) {
      if CoversAt(s, j, q) {
        assert InOrder(es, k, j) && InOrder(es, j, n);
        assert |es[j].path| <= |q|;
        DescendantsStayBefore(p, q, es[j].path);
        PathLessAsymmetric(p, es[j].path);
      }
    }
    assert SuppliesAt(s, k, q);
  }

  /** A marker never covers the directory it lies in. */
  lemma MarkerSparesItsDirectory(e: Entry)
    requires IsMarker(e) && ProperMarkerName(Base(e.path))
    ensures !Covers(e.path, Parent(e.path)) && !Covers(e.path, [])
  {
  }

  // ---------- One step, in a tree that has the file's directory ----------

  /** The existing file at the entry's path makes the copy fail. */
  ghost predicate Conflicts(t: Tree, e: Entry) {
    && e.path in t
    && match e.node
       case Dir => t[e.path].File?
       case File(_) => t[e.path].Dir?
       case Link(_) => t[e.path].Dir? && !EmptyDir(t, e.path)
  }

  /** The copy goes through an existing symbolic link, where the model ends. */
  predicate MeetsLink(t: Tree, e: Entry) {
    e.path in t && t[e.path].Link? && !e.node.Link?
  }

  ghost predicate Fits(t: Tree, e: Entry) {
    !Conflicts(t, e) && !MeetsLink(t, e)
  }

  /** The entry lies in an existing directory, or is the layer directory itself. */
  predicate InPlace(t: Tree, e: Entry) {
    if e.path == [] then e.node.Dir? else Parent(e.path) in t && t[Parent(e.path)].Dir?
  }

  function Uncovered(t: Tree, e: Entry): Tree
    requires IsMarker(e)
  {
    map p | p in t && !Covers(e.path, p) :: t[p]
  }

  lemma StepMarker(t: Tree, e: Entry)
    requires Rooted(t) && IsMarker(e) && ProperMarkerName(Base(e.path)) && InPlace(t, e)
    ensures Step(t, e) == Done(Uncovered(t, e)) && Rooted(Uncovered(t, e))
  {
    var dir, name := Parent(e.path), Base(e.path);
    NothingOnWay(t, dir);
    var r := Uncovered(t, e);
    if name == OPAQUE {
      assert r == WithoutContents(t, dir);
    } else {
      var x := name[|WHITEOUT|..];
      assert WhiteoutTarget(dir, x) == dir + [x] && Parent(dir + [x]) == dir;
      assert r == WithoutSubtree(t, dir + [x]);
    }
    forall p | p in r && p != [] ensures Parent(p) in r {
      if Covers(e.path, Parent(p)) {
        if name == OPAQUE { UnderTransitive(p, Parent(p), dir); }
        else { UnderTransitive(p, Parent(p), dir + [name[|WHITEOUT|..]]); }
      }
    }
    MarkerSparesItsDirectory(e);
  }

  lemma StepFile(t: Tree, e: Entry)
    requires Rooted(t) && !IsMarker(e) && InPlace(t, e)
    ensures Step(t, e) == Failed <==> Conflicts(t, e)
    ensures Step(t, e) == ThroughLink <==> MeetsLink(t, e)
    ensures Step(t, e).Done? ==> Step(t, e) == Done(t[e.path := e.node]) && Rooted(t[e.path := e.node])
  {
    var p := e.path;
    if p == [] {
      assert t[[] := Dir] == t;
      return;
    }
    assert Base(p) != OPAQUE by { assert IsMarkerName(OPAQUE); }
    NothingOnWay(t, Parent(p));
    match e.node
    case Dir =>
      MkdirInDir(t, p);
      if Fits(t, e) { RootedWith(t, e); }
    case File(content) =>
      MkdirExisting(t, Parent(p));
      if Fits(t, e) { RootedWith(t, e); }
    case Link(target) =>
      if Fits(t, e) { RootedWith(t, e); }
  }

  lemma RootedWith(t: Tree, e: Entry)
    requires Rooted(t) && e.path != [] && Fits(t, e) && InPlace(t, e)
    ensures Rooted(t[e.path := e.node])
  {
    var r := t[e.path := e.node];
    forall q | q in r && q != [] ensures Parent(q) in r && r[Parent(q)].Dir? {
      if Parent(q) == e.path {
        assert Under(q, e.path) && q != e.path;
        assert q in t && t[e.path].Dir?;
      }
    }
  }

  /** A directory and everything above it is there. */
  lemma PrefixesAreDirs(t: Tree, p: Path, k: nat)
    requires Rooted(t) && p in t && t[p].Dir? && k <= |p|
    ensures p[..k] in t && t[p[..k]] == Dir
  {
    if p[..k] != p { AncestorsAreDirs(t, p, p[..k]); }
  }

  lemma MkdirExisting(t: Tree, p: Path)
    requires Rooted(t) && p in t && t[p].Dir?
    ensures MkdirAll(t, p) == Done(t)
  {
    NothingOnWay(t, p);
    forall k | 0 <= k <= |p| ensures p[..k] in t && t[p[..k]] == Dir { PrefixesAreDirs(t, p, k); }
    assert t + (map k | 0 <= k <= |p| :: p[..k] := Dir) == t;
  }

  /** On the way to a path in a directory there are directories only. */
  lemma AboveAreDirs(t: Tree, p: Path, q: Path)
    requires Rooted(t) && p != [] && Parent(p) in t && t[Parent(p)].Dir?
    requires Under(p, q) && q != p
    ensures q in t && t[q].Dir?
  {
    var d := Parent(p);
    assert d[..|q|] == p[..|q|];
    if q != d { AncestorsAreDirs(t, d, q); }
  }

  lemma MkdirAddsOne(t: Tree, p: Path)
    requires Rooted(t) && p != [] && Parent(p) in t && t[Parent(p)].Dir?
    ensures t + (map k | 0 <= k <= |p| :: p[..k] := Dir) == t[p := Dir]
  {
    forall k | 0 <= k < |p| ensures p[..k] in t && t[p[..k]] == Dir { AboveAreDirs(t, p, p[..k]); }
    assert p[..|p|] == p;
  }

  lemma MkdirInDir(t: Tree, p: Path)
    requires Rooted(t) && p != [] && Parent(p) in t && t[Parent(p)].Dir?
    ensures MkdirAll(t, p) == Failed <==> p in t && t[p].File?
    ensures MkdirAll(t, p) == ThroughLink <==> p in t && t[p].Link?
    ensures MkdirAll(t, p).Done? ==> MkdirAll(t, p) == Done(t[p := Dir])
  {
    forall q | q in t && Under(p, q) && q != p ensures t[q].Dir? { AboveAreDirs(t, p, q); }
    assert Under(p, p);
    MkdirAddsOne(t, p);
  }

  /** The tree r is t with directories at and above p. */
  ghost predicate Extends(r: Tree, t: Tree, p: Path) {
    && (forall q :: q in r <==> q in t || Under(p, q))
    && (forall q :: q in r ==> r[q] == if q in t then t[q] else Dir)
  }

  /** os.MkdirAll wherever it is used: it makes exactly the missing directories on the way, unless
      a file or a link is in their place. */
  lemma MkdirAllMeans(t: Tree, p: Path)
    requires Rooted(t)
    ensures MkdirAll(t, p).Done? <==> forall q :: q in t && Under(p, q) ==> t[q].Dir?
    ensures MkdirAll(t, p).Done? ==> Rooted(MkdirAll(t, p).tree) && Extends(MkdirAll(t, p).tree, t, p)
  {
    if MkdirAll(t, p).Done? {
      var r := MkdirAll(t, p).tree;
      forall q | Under(p, q) ensures q in r && r[q] == Dir { assert q == p[..|q|]; }
      forall q | q in r && q != [] ensures Parent(q) in r && r[Parent(q)].Dir? {
        if q !in t || Under(p, q) { assert Parent(q) == p[..|q| - 1]; }
      }
    }
  }

  // ---------- The walk computes the merge ----------

  lemma SuppliesEmpty(t: Tree)
    ensures Merged(t, []) == t
  {
    forall p ensures !Supplies([], p) && !Covered([], p) {}
  }

  lemma ParentPresent(t: Tree, es: Layer, n: int)
    requires WellFormed(es) && ProperMarkers(es) && 0 <= n < |es| && Rooted(Merged(t, es[..n]))
    ensures InPlace(Merged(t, es[..n]), es[n])
  {
    if es[n].path != [] && Parent(es[n].path) != [] {
      ParentSupplied(es, n);
      MergedKeys(t, es[..n], Parent(es[n].path));
    }
  }

  /** The walk has completed over es and left the merge. */
  ghost predicate Completed(t: Tree, es: Layer) {
    Walk(t, es) == Done(Merged(t, es)) && Rooted(Merged(t, es))
  }

  lemma WalkSnoc(t: Tree, es: Layer, e: Entry)
    ensures !Walk(t, es).Done? ==> !Walk(t, es + [e]).Done?
    ensures Walk(t, es).Done? ==> Walk(t, es + [e]) == Step(Walk(t, es).tree, e)
  {
    assert (es + [e])[..|es|] == es;
  }

  /** Entry i is a marker or fits into the tree that is there when it is visited. */
  ghost predicate FitAt(t: Tree, es: Layer, i: int)
    requires 0 <= i < |es|
  {
    IsMarker(es[i]) || Fits(Merged(t, es[..i]), es[i])
  }

  ghost predicate AllFit(t: Tree, es: Layer, n: nat)
    requires n <= |es|
  {
    n == 0 || (AllFit(t, es, n - 1) && FitAt(t, es, n - 1))
  }

  lemma AllFitIs(t: Tree, es: Layer, n: nat)
    requires n <= |es|
    ensures AllFit(t, es, n) <==> forall i :: 0 <= i < n ==> FitAt(t, es, i)
  {
  }

  /** One more entry: the walk fails exactly when the entry conflicts with what is there, meets
      a link exactly when the entry does, and otherwise goes on and extends the merge. */
  lemma WalkNext(t: Tree, es: Layer, n: nat)
    requires WellFormed(es) && ProperMarkers(es) && n < |es| && Completed(t, es[..n])
    ensures Walk(t, es[..n + 1]) == Failed <==> !IsMarker(es[n]) && Conflicts(Merged(t, es[..n]), es[n])
    ensures Walk(t, es[..n + 1]) == ThroughLink <==> !IsMarker(es[n]) && MeetsLink(Merged(t, es[..n]), es[n])
    ensures Walk(t, es[..n + 1]).Done? ==> Completed(t, es[..n + 1])
  {
    var s, e, m := es[..n], es[n], Merged(t, es[..n]);
    assert es[..n + 1] == s + [e];
    PrefixWellFormed(es, n + 1);
    ParentPresent(t, es, n);
    WalkSnoc(t, s, e);
    if IsMarker(e) {
      StepMarker(m, e);
      MergedMarker(t, s, e);
    } else {
      StepFile(m, e);
      MergedFile(t, s, e);
    }
  }

  /** A walk that stopped stays stopped. */
  lemma WalkStops(t: Tree, es: Layer, n: nat)
    requires n < |es| && !Walk(t, es[..n]).Done?
    ensures !Walk(t, es[..n + 1]).Done?
  {
    assert es[..n + 1] == es[..n] + [es[n]];
    WalkSnoc(t, es[..n], es[n]);
  }

  lemma WalkStart(t: Tree, es: Layer)
    requires Rooted(t)
    ensures Completed(t, es[..0])
  {
    assert es[..0] == [];
    SuppliesEmpty(t);
  }

  /** The first n entries are walked exactly when they fit, and then merged. */
  ghost predicate PrefixMerged(t: Tree, es: Layer, n: nat)
    requires n <= |es|
  {
    && (Walk(t, es[..n]).Done? <==> AllFit(t, es, n))
    && (AllFit(t, es, n) ==> Completed(t, es[..n]))
  }

  lemma PrefixNext(t: Tree, es: Layer, n: nat)
    requires WellFormed(es) && ProperMarkers(es) && n < |es| && PrefixMerged(t, es, n)
    ensures PrefixMerged(t, es, n + 1)
  {
    if AllFit(t, es, n) { WalkNext(t, es, n); } else { WalkStops(t, es, n); }
  }

  lemma {:induction false} WalkPrefix(t: Tree, es: Layer, n: nat)
    requires Rooted(t) && WellFormed(es) && ProperMarkers(es) && n <= |es|
    ensures PrefixMerged(t, es, n)
  {
    if n == 0 {
      WalkStart(t, es);
    } else {
      WalkPrefix(t, es, n - 1);
      PrefixNext(t, es, n - 1);
    }
  }

  /** The walk, when it completes, leaves exactly the lower files no marker covers and
      the layer's files that no later marker covers. */
  lemma WalkIsMerged(t: Tree, es: Layer)
    requires Rooted(t) && WellFormed(es) && ProperMarkers(es) && Walk(t, es).Done?
    ensures Walk(t, es).tree == Merged(t, es) && Rooted(Merged(t, es))
  {
    WalkPrefix(t, es, |es|);
    assert es[..|es|] == es;
  }
}
