/** Laws of the layer merge, and the fold of all layers of an image into one root file
    system (cmd/aetheria-agent/oci.go:429-445). */
module Flatten {
  import opened FileTree
  import opened LayerWalk
  import opened Overlay

  // ---------- When the walk completes ----------

  /** A lower file is still at the path of entry i when it is visited. */
  ghost predicate LowerAt(t: Tree, es: Layer, i: int) {
    0 <= i < |es| && !IsMarker(es[i]) && es[i].path in t && !Covered(es[..i], es[i].path)
  }

  /** Entry i meets a lower file that makes its copy fail: a directory meets a regular file,
      a regular file a directory, a symbolic link a directory that still has contents. */
  ghost predicate ConflictAt(t: Tree, es: Layer, i: int) {
    && LowerAt(t, es, i)
    && match es[i].node
       case Dir => t[es[i].path].File?
       case File(_) => t[es[i].path].Dir?
       case Link(_) => t[es[i].path].Dir? && exists q :: LeftBelow(t, es[..i], es[i].path, q)
  }

  /** Entry i, a directory or a regular file, meets a symbolic link, which is followed. */
  ghost predicate LinkAt(t: Tree, es: Layer, i: int) {
    LowerAt(t, es, i) && t[es[i].path].Link? && !es[i].node.Link?
  }

  ghost predicate BlockedAt(t: Tree, es: Layer, i: int) {
    ConflictAt(t, es, i) || LinkAt(t, es, i)
  }

  /** Entry i is the first to be blocked. */
  ghost predicate BlockedFirstAt(t: Tree, es: Layer, i: int) {
    BlockedAt(t, es, i) && forall j :: 0 <= j < i ==> !BlockedAt(t, es, j)
  }

  ghost predicate LeftBelow(t: Tree, es: Layer, p: Path, q: Path) {
    q in t && Under(q, p) && q != p && !Covered(es, q)
  }

  /** Nothing at or below a path is supplied before the path itself is visited. */
  lemma NotYetSupplied(es: Layer, i: int, q: Path)
    requires WellFormed(es) && 0 <= i < |es| && Under(q, es[i].path)
    ensures !Supplies(es[..i], q)
  {
    if Supplies(es[..i], q) {
      var k :| SuppliesAt(es[..i], k, q);
      if q == es[i].path { PathsDistinct(es, i, k); } else { ParentFirst(es, k, i); }
    }
  }

  lemma BlockedByWhat(t: Tree, es: Layer, i: int)
    requires WellFormed(es) && 0 <= i < |es|
    ensures ConflictAt(t, es, i) <==> !IsMarker(es[i]) && Conflicts(Merged(t, es[..i]), es[i])
    ensures LinkAt(t, es, i) <==> !IsMarker(es[i]) && MeetsLink(Merged(t, es[..i]), es[i])
  {
    var m, p := Merged(t, es[..i]), es[i].path;
    NotYetSupplied(es, i, p);
    MergedKeys(t, es[..i], p);
    if es[i].node.Link? && p in m && m[p].Dir? {
      forall q | Under(q, p) && q != p ensures q in m <==> LeftBelow(t, es[..i], p, q) {
        NotYetSupplied(es, i, q);
        MergedKeys(t, es[..i], q);
      }
    }
  }

  lemma FitsUnlessBlocked(t: Tree, es: Layer, i: int)
    requires WellFormed(es) && 0 <= i < |es|
    ensures FitAt(t, es, i) <==> !BlockedAt(t, es, i)
  {
    BlockedByWhat(t, es, i);
  }

  /** The walk completes if and only if no entry is blocked by a lower file. */
  lemma WalkCompletesIff(t: Tree, es: Layer)
    requires Rooted(t) && WellFormed(es) && ProperMarkers(es)
    ensures Walk(t, es).Done? <==> forall i :: !BlockedAt(t, es, i)
  {
    WalkPrefix(t, es, |es|);
    AllFitIs(t, es, |es|);
    assert es[..|es|] == es;
    forall i | 0 <= i < |es| ensures FitAt(t, es, i) <==> !BlockedAt(t, es, i) {
      FitsUnlessBlocked(t, es, i);
    }
  }

  /** The first blocked entry decides how the walk ends. */
  lemma WalkEndsAt(t: Tree, es: Layer, i: int)
    requires Rooted(t) && WellFormed(es) && ProperMarkers(es) && BlockedFirstAt(t, es, i)
    ensures Walk(t, es) == if ConflictAt(t, es, i) then Failed else ThroughLink
  {
    WalkPrefix(t, es, i);
    AllFitIs(t, es, i);
    forall j | 0 <= j < i ensures FitAt(t, es, j) { FitsUnlessBlocked(t, es, j); }
    WalkNext(t, es, i);
    BlockedByWhat(t, es, i);
    WalkStopped(t, es, i + 1);
  }

  lemma {:induction false} SomeBlockedFirst(t: Tree, es: Layer, k: int) returns (i: int)
    requires BlockedAt(t, es, k)
    ensures BlockedFirstAt(t, es, i)
    decreases k
  {
    if j :| 0 <= j < k && BlockedAt(t, es, j) { i := SomeBlockedFirst(t, es, j); } else { i := k; }
  }

  /** The walk returns an error if and only if the first entry that is blocked by a lower file
      conflicts with it; it follows a link, and so leaves the model, if and only if that
      entry meets one. */
  lemma WalkOutcomeIff(t: Tree, es: Layer)
    requires Rooted(t) && WellFormed(es) && ProperMarkers(es)
    ensures Walk(t, es) == Failed <==> exists i :: BlockedFirstAt(t, es, i) && ConflictAt(t, es, i)
    ensures Walk(t, es) == ThroughLink <==> exists i :: BlockedFirstAt(t, es, i) && LinkAt(t, es, i)
  {
    WalkCompletesIff(t, es);
    if k :| BlockedAt(t, es, k) {
      var i := SomeBlockedFirst(t, es, k);
      WalkEndsAt(t, es, i);
      forall j | BlockedFirstAt(t, es, j) ensures j == i {}
    }
  }

  // ---------- The walk against the two phases of the standard ----------

  lemma ErasedIsCovered(es: Layer, p: Path)
    requires Erased(es, p)
    ensures exists i, j :: i < j && ListsAt(es, i, p) && CoversAt(es, j, p)
  {
    var i :| ListsAt(es, i, p);
    assert !SuppliesAt(es, i, p);
  }

  /** A completed walk leaves the standard's result without the erased files. */
  lemma WalkIsTwoPhaseWithoutErased(t: Tree, es: Layer)
    requires Rooted(t) && WellFormed(es) && ProperMarkers(es) && Walk(t, es).Done?
    ensures Walk(t, es).tree == map p | p in TwoPhase(t, es) && !Erased(es, p) :: TwoPhase(t, es)[p]
  {
    WalkIsMerged(t, es);
    forall p ensures p in Merged(t, es) <==> p in TwoPhase(t, es) && !Erased(es, p) {
      MergedKeys(t, es, p);
      if Lists(es, p) { ListedIsPath(es, p); }
      if Supplies(es, p) { SuppliesLists(es, p); }
      if Erased(es, p) { ErasedIsCovered(es, p); }
    }
  }

  /** The walk agrees with the standard exactly when no file is erased. */
  lemma WalkIsTwoPhaseIff(t: Tree, es: Layer)
    requires Rooted(t) && WellFormed(es) && ProperMarkers(es) && Walk(t, es).Done?
    ensures Walk(t, es).tree == TwoPhase(t, es) <==> forall p :: !Erased(es, p)
  {
    WalkIsTwoPhaseWithoutErased(t, es);
    forall p | Erased(es, p) ensures p in TwoPhase(t, es) {
      ListedIsPath(es, p);
    }
  }

  /** Which files are erased, by names alone: those whose component beside a covering
      marker sorts before the marker. */
  lemma ErasedIff(es: Layer, p: Path)
    requires WellFormed(es) && ProperMarkers(es)
    ensures Erased(es, p) <==> Lists(es, p) && exists j :: CoversAt(es, j, p) && SortsBefore(p, es[j].path)
  {
    if Erased(es, p) {
      ErasedIsCovered(es, p);
      var i, j :| i < j && ListsAt(es, i, p) && CoversAt(es, j, p);
      assert InOrder(es, i, j);
      CoverBeside(es[j].path, p);
    }
    if Lists(es, p) && exists j :: CoversAt(es, j, p) && SortsBefore(p, es[j].path) {
      var j :| CoversAt(es, j, p) && SortsBefore(p, es[j].path);
      CoverBeside(es[j].path, p);
      forall i | ListsAt(es, i, p) ensures !SuppliesAt(es, i, p) {
        if j < i { assert InOrder(es, j, i); PathLessAsymmetric(p, es[j].path); }
        assert i != j;
      }
    }
  }

  /** Agreement does fail: a file that sorts before the opaque marker of its own
      directory is lost. */
  lemma DotFileIsErased()
    ensures var es := [Entry([".bashrc"], File("x")), Entry([OPAQUE], File(""))];
            && WellFormed(es) && ProperMarkers(es) && Walk(EMPTY_ROOTFS, es).Done?
            && Erased(es, [".bashrc"])
            && [".bashrc"] in TwoPhase(EMPTY_ROOTFS, es) && [".bashrc"] !in Walk(EMPTY_ROOTFS, es).tree
  {
    var es := [Entry([".bashrc"], File("x")), Entry([OPAQUE], File(""))];
    assert NameLess(".bashrc", OPAQUE) by {
      assert ".bashrc"[..1] == OPAQUE[..1] && ".bashrc"[1] < OPAQUE[1];
    }
    assert DiffersAt([".bashrc"], [OPAQUE], 0);
    assert ListsAt(es, 0, [".bashrc"]) && CoversAt(es, 1, [".bashrc"]);
    forall i ensures !SuppliesAt(es, i, [".bashrc"]) {}
    ListedIsPath(es, [".bashrc"]);
    forall i ensures !BlockedAt(EMPTY_ROOTFS, es, i) {}
    WalkCompletesIff(EMPTY_ROOTFS, es);
    WalkIsMerged(EMPTY_ROOTFS, es);
    MergedKeys(EMPTY_ROOTFS, es, [".bashrc"]);
  }

  /** A whiteout does what the standard says exactly when it names a child: after ".wh." an
      empty name or "." makes the walk delete the directory itself with all its contents, and
      ".." the one above it, if there is one in the layer. */
  lemma MarkerStepIff(t: Tree, e: Entry)
    requires Rooted(t) && IsMarker(e) && InPlace(t, e)
    ensures Step(t, e) == Done(Uncovered(t, e)) <==> ProperMarkerName(Base(e.path))
    ensures !ProperMarkerName(Base(e.path)) ==> Step(t, e) == Done(map p | p in t && !Under(p, DeletedBy(e)) :: t[p])
  {
    if ProperMarkerName(Base(e.path)) {
      StepMarker(t, e);
    } else {
      ImproperStep(t, e);
      assert Under(Parent(e.path), DeletedBy(e));
      assert Parent(e.path) in Uncovered(t, e) && Parent(e.path) !in Step(t, e).tree;
    }
  }

  /** The directory that such a whiteout deletes. */
  function DeletedBy(e: Entry): Path
    requires IsMarker(e)
  {
    var dir := Parent(e.path);
    if Base(e.path) == ".wh..." && dir != [] then Parent(dir) else dir
  }

  lemma ImproperStep(t: Tree, e: Entry)
    requires Rooted(t) && IsMarker(e) && InPlace(t, e) && !ProperMarkerName(Base(e.path))
    ensures Step(t, e) == Done(map p | p in t && !Under(p, DeletedBy(e)) :: t[p])
  {
    var dir, rest := Parent(e.path), Base(e.path)[|WHITEOUT|..];
    assert Base(e.path) == WHITEOUT + rest;
    assert WhiteoutTarget(dir, rest) == DeletedBy(e);
    NothingOnWay(t, dir);
    if DeletedBy(e) != [] {
      var above := Parent(DeletedBy(e));
      assert Under(dir, above);
      forall q | Under(above, q) ensures Under(dir, q) { UnderTransitive(dir, above, q); }
    }
  }

  ghost predicate SortsBefore(p: Path, m: Path)
    requires m != []
  {
    |m| <= |p| && NameLess(p[|m| - 1], Base(m))
  }

  lemma CoverBeside(m: Path, p: Path)
    requires m != [] && IsMarkerName(Base(m)) && ProperMarkerName(Base(m)) && Covers(m, p)
    ensures |m| <= |p| && p[..|m| - 1] == Parent(m)
    ensures PathLess(p, m) <==> SortsBefore(p, m)
  {
    var d := Parent(m);
    if Base(m) != OPAQUE {
      var x := d + [Base(m)[|WHITEOUT|..]];
      assert p[..|x|] == x && p[..|d|] == p[..|x|][..|d|] == x[..|d|] == d;
    }
    assert m[..|d|] == d;
    if SortsBefore(p, m) { assert DiffersAt(p, m, |d|); }
    forall k | DiffersAt(p, m, k) ensures k == |d| {
      if k < |d| { NameLessAsymmetric(p[k], m[k]); }
    }
  }

  // ---------- Merging twice ----------

  /** A path of the layer that exists after the walk holds the layer's own file. */
  lemma SameKindAfterwards(t: Tree, es: Layer, i: int)
    requires WellFormed(es) && ProperMarkers(es) && 0 <= i < |es| && !IsMarker(es[i])
    requires es[i].path in Merged(t, es)
    ensures Merged(t, es)[es[i].path] == es[i].node
  {
    var p := es[i].path;
    assert ListsAt(es, i, p);
    NodeAtIs(es, i, p);
    MergedKeys(t, es, p);
    assert SuppliesAt(es, i, p) || Covered(es, p) by {
      if !SuppliesAt(es, i, p) {
        var j :| i < j && CoversAt(es, j, p);
      }
    }
  }

  lemma MergedAgain(t: Tree, es: Layer)
    ensures Merged(Merged(t, es), es) == Merged(t, es)
  {
    var m := Merged(t, es);
    forall p ensures p in Merged(m, es) <==> p in m {
      MergedKeys(m, es, p);
      MergedKeys(t, es, p);
    }
  }

  /** Merging a layer again changes nothing, and is possible whenever it was once. */
  lemma MergeTwice(t: Tree, es: Layer)
    requires Rooted(t) && WellFormed(es) && ProperMarkers(es) && Walk(t, es).Done?
    ensures Walk(Walk(t, es).tree, es) == Walk(t, es)
  {
    WalkIsMerged(t, es);
    var m := Merged(t, es);
    forall i ensures !BlockedAt(m, es, i) {
      if BlockedAt(m, es, i) { SameKindAfterwards(t, es, i); }
    }
    WalkCompletesIff(m, es);
    WalkIsMerged(m, es);
    MergedAgain(t, es);
  }

  // ---------- No marker survives ----------

  ghost predicate Unmarked(p: Path) {
    forall k :: 0 <= k < |p| ==> !IsMarkerName(p[k])
  }

  ghost predicate NoMarkers(t: Tree) {
    forall p :: p in t ==> Unmarked(p)
  }

  lemma {:induction false} FilesUnmarked(es: Layer, i: int)
    requires WellFormed(es) && 0 <= i < |es| && !IsMarker(es[i])
    ensures Unmarked(es[i].path)
    decreases i
  {
    var p := es[i].path;
    if p != [] && Parent(p) != [] {
      assert HasParent(es, i);
      var k :| DirAt(es, k, Parent(p));
      ParentFirst(es, i, k);
      FilesUnmarked(es, k);
      forall l | 0 <= l < |p| ensures !IsMarkerName(p[l]) {
        if l < |p| - 1 { assert p[l] == Parent(p)[l]; }
      }
    }
  }

  /** A completed walk brings no ".wh." name into a tree that had none. */
  lemma NoMarkerSurvives(t: Tree, es: Layer)
    requires Rooted(t) && NoMarkers(t) && WellFormed(es) && ProperMarkers(es) && Walk(t, es).Done?
    ensures NoMarkers(Walk(t, es).tree)
  {
    WalkIsMerged(t, es);
    forall p | p in Merged(t, es) ensures Unmarked(p) {
      MergedKeys(t, es, p);
      if Supplies(es, p) {
        var i :| SuppliesAt(es, i, p);
        FilesUnmarked(es, i);
      }
    }
  }

  // ---------- The fold over all layers ----------

  const EMPTY_ROOTFS: Tree := map[[] := Dir]

  function Fold(layers: seq<Layer>): Outcome {
    if layers == [] then Done(EMPTY_ROOTFS)
    else
      match Fold(layers[..|layers| - 1])
      case Done(t) => Walk(t, layers[|layers| - 1])
      case other => other
  }

  ghost predicate AllWellFormed(layers: seq<Layer>) {
    forall k :: 0 <= k < |layers| ==> WellFormed(layers[k]) && ProperMarkers(layers[k])
  }

  /** Layer k supplies p with the node v, and no later layer supplies p or has a marker
      covering it. */
  ghost predicate TopSupplier(layers: seq<Layer>, k: int, p: Path, v: Node) {
    && 0 <= k < |layers|
    && Supplies(layers[k], p) && (SuppliesLists(layers[k], p); NodeAt(layers[k], p) == v)
    && forall l :: k < l < |layers| ==> !Supplies(layers[l], p) && !Covered(layers[l], p)
  }

  ghost predicate Supplied(layers: seq<Layer>, p: Path, v: Node) {
    exists k :: TopSupplier(layers, k, p, v)
  }

  predicate Holds(t: Tree, p: Path, v: Node) {
    p in t && t[p] == v
  }

  /** What a completed fold holds, file by file. */
  lemma {:induction false} FoldMeans(layers: seq<Layer>)
    requires AllWellFormed(layers) && Fold(layers).Done?
    ensures Rooted(Fold(layers).tree) && NoMarkers(Fold(layers).tree)
    ensures forall p, v :: p != [] ==>
              (Holds(Fold(layers).tree, p, v) <==> Supplied(layers, p, v))
  {
    if layers != [] {
      var n := |layers| - 1;
      var lower, top := layers[..n], layers[n];
      FoldMeans(lower);
      var t := Fold(lower).tree;
      WalkIsMerged(t, top);
      NoMarkerSurvives(t, top);
      forall p, v | p != []
        ensures Holds(Merged(t, top), p, v) <==> Supplied(layers, p, v)
      {
        MergedKeys(t, top, p);
        TopSupplierSnoc(layers, p, v);
      }
    }
  }

  lemma TopSupplierSnoc(layers: seq<Layer>, p: Path, v: Node)
    requires layers != []
    ensures Supplied(layers, p, v) <==>
            var n := |layers| - 1;
            if Supplies(layers[n], p) then (SuppliesLists(layers[n], p); NodeAt(layers[n], p) == v)
            else !Covered(layers[n], p) && Supplied(layers[..n], p, v)
  {
    var n := |layers| - 1;
    forall k | k < n
      ensures TopSupplier(layers, k, p, v) <==>
              TopSupplier(layers[..n], k, p, v) && !Supplies(layers[n], p) && !Covered(layers[n], p)
    {
      if TopSupplier(layers[..n], k, p, v) && !Supplies(layers[n], p) && !Covered(layers[n], p) {
        forall l | k < l < |layers| ensures !Supplies(layers[l], p) && !Covered(layers[l], p) {
          if l < n { assert layers[l] == layers[..n][l]; }
        }
      }
      if TopSupplier(layers, k, p, v) {
        forall l | k < l < n ensures !Supplies(layers[..n][l], p) && !Covered(layers[..n][l], p) {
          assert layers[l] == layers[..n][l];
        }
      }
    }
    if Supplies(layers[n], p) {
      SuppliesLists(layers[n], p);
      if NodeAt(layers[n], p) == v { assert TopSupplier(layers, n, p, v); }
      forall k | TopSupplier(layers, k, p, v) ensures k == n {}
    } else {
      if !Covered(layers[n], p) && Supplied(layers[..n], p, v) {
        var k :| TopSupplier(layers[..n], k, p, v);
        assert TopSupplier(layers, k, p, v);
      }
      forall k | TopSupplier(layers, k, p, v) ensures k < n {}
    }
  }

  // ---------- When the fold completes ----------

  ghost predicate SupplyFile(lower: seq<Layer>, p: Path) {
    exists content :: Supplied(lower, p, File(content))
  }

  ghost predicate SupplyLink(lower: seq<Layer>, p: Path) {
    exists target :: Supplied(lower, p, Link(target))
  }

  ghost predicate LeftInside(lower: seq<Layer>, es: Layer, p: Path, q: Path, v: Node) {
    Under(q, p) && q != p && !Covered(es, q) && Supplied(lower, q, v)
  }

  /** Entry i of a layer is blocked by what the lower layers supply. */
  ghost predicate EntryBlocked(lower: seq<Layer>, es: Layer, i: int) {
    && 0 <= i < |es| && !IsMarker(es[i]) && !Covered(es[..i], es[i].path)
    && var p := es[i].path;
       match es[i].node
       case Dir => SupplyFile(lower, p) || SupplyLink(lower, p)
       case File(_) => Supplied(lower, p, Dir) || SupplyLink(lower, p)
       case Link(_) => Supplied(lower, p, Dir) && exists q, v :: LeftInside(lower, es[..i], p, q, v)
  }

  ghost predicate LayerBlocked(layers: seq<Layer>, k: int, i: int) {
    0 <= k < |layers| && EntryBlocked(layers[..k], layers[k], i)
  }

  /** A layer supplies the root as a directory only. */
  lemma RootSuppliesDir(lower: seq<Layer>, v: Node)
    requires AllWellFormed(lower) && Supplied(lower, [], v)
    ensures v.Dir?
  {
    var k :| TopSupplier(lower, k, [], v);
    SuppliesLists(lower[k], []);
    var i :| ListsAt(lower[k], i, []);
    NodeAtIs(lower[k], i, []);
  }

  /** No marker covers the root. */
  lemma RootNotErased(es: Layer)
    requires ProperMarkers(es)
    ensures !Erased(es, [])
  {
    forall j ensures !CoversAt(es, j, []) {}
    if Erased(es, []) { ErasedIsCovered(es, []); }
  }

  lemma BlockedByLayers(lower: seq<Layer>, es: Layer, i: int)
    requires AllWellFormed(lower) && WellFormed(es) && Fold(lower).Done?
    ensures EntryBlocked(lower, es, i) <==> BlockedAt(Fold(lower).tree, es, i)
  {
    if 0 <= i < |es| {
      var t, p := Fold(lower).tree, es[i].path;
      FoldMeans(lower);
      if p == [] {
        forall v | Supplied(lower, [], v) ensures v.Dir? { RootSuppliesDir(lower, v); }
        return;
      }
      if p in t { assert Holds(t, p, t[p]) && Supplied(lower, p, t[p]); }
      forall v | Supplied(lower, p, v) ensures p in t && t[p] == v { assert Holds(t, p, v); }
      forall q | LeftBelow(t, es[..i], p, q) ensures LeftInside(lower, es[..i], p, q, t[q]) {
        assert Holds(t, q, t[q]);
      }
      forall q, v | LeftInside(lower, es[..i], p, q, v) ensures LeftBelow(t, es[..i], p, q) {
        assert Holds(t, q, v);
      }
    }
  }

  /** One more layer is merged if and only if none of its entries is blocked. */
  lemma FoldNextIff(lower: seq<Layer>, es: Layer)
    requires AllWellFormed(lower) && WellFormed(es) && ProperMarkers(es) && Fold(lower).Done?
    ensures Walk(Fold(lower).tree, es).Done? <==> forall i :: !EntryBlocked(lower, es, i)
  {
    FoldMeans(lower);
    WalkCompletesIff(Fold(lower).tree, es);
    forall i ensures EntryBlocked(lower, es, i) <==> BlockedAt(Fold(lower).tree, es, i) {
      BlockedByLayers(lower, es, i);
    }
  }

  lemma BlockedSnoc(layers: seq<Layer>)
    requires layers != []
    ensures var n := |layers| - 1;
            (forall k, i :: !LayerBlocked(layers, k, i)) <==>
            (forall k, i :: !LayerBlocked(layers[..n], k, i)) && forall i :: !EntryBlocked(layers[..n], layers[n], i)
  {
    var n := |layers| - 1;
    var lower := layers[..n];
    forall k, i | k < n ensures LayerBlocked(layers, k, i) <==> LayerBlocked(lower, k, i) {
      if 0 <= k { assert lower[..k] == layers[..k]; }
    }
    forall i ensures LayerBlocked(layers, n, i) <==> EntryBlocked(lower, layers[n], i) {}
    forall k, i | n <= k ensures !LayerBlocked(lower, k, i) {}
  }

  /** The fold completes if and only if no layer has a blocked entry: a condition on the layers
      alone. */
  lemma {:induction false} FoldCompletesIff(layers: seq<Layer>)
    requires AllWellFormed(layers)
    ensures Fold(layers).Done? <==> forall k, i :: !LayerBlocked(layers, k, i)
  {
    if layers != [] {
      var n := |layers| - 1;
      BlockedSnoc(layers);
      FoldCompletesIff(layers[..n]);
      if Fold(layers[..n]).Done? { FoldNextIff(layers[..n], layers[n]); }
    }
  }

  // ---------- The overlay view ----------

  /** The overlay view: layer k is the highest one listing p, and no later layer has a
      marker covering it. */
  ghost predicate OverlayShows(layers: seq<Layer>, k: int, p: Path, v: Node) {
    && 0 <= k < |layers|
    && Lists(layers[k], p) && NodeAt(layers[k], p) == v
    && forall l :: k < l < |layers| ==> !Lists(layers[l], p) && !Covered(layers[l], p)
  }

  ghost predicate Shown(layers: seq<Layer>, p: Path, v: Node) {
    exists k :: OverlayShows(layers, k, p, v)
  }

  /** Layer k lists p, erases it, and no later layer says anything about p. */
  ghost predicate LostAt(layers: seq<Layer>, k: int, p: Path) {
    && 0 <= k < |layers| && Erased(layers[k], p)
    && forall l :: k < l < |layers| ==> !Lists(layers[l], p) && !Covered(layers[l], p)
  }

  lemma ShownIsSupplied(layers: seq<Layer>, k: int, p: Path, v: Node)
    requires !LostAt(layers, k, p)
    ensures OverlayShows(layers, k, p, v) ==> TopSupplier(layers, k, p, v)
  {
    if OverlayShows(layers, k, p, v) {
      forall l | k < l < |layers| ensures !Supplies(layers[l], p) {
        if Supplies(layers[l], p) { SuppliesLists(layers[l], p); }
      }
    }
  }

  /** The highest layer that lists or covers p supplies it, if any layer does on top. */
  lemma SuppliedIsShown(layers: seq<Layer>, k: int, p: Path, v: Node)
    requires TopSupplier(layers, k, p, v)
    requires forall l :: !LostAt(layers, l, p)
    ensures OverlayShows(layers, k, p, v)
  {
    SuppliesLists(layers[k], p);
    if l :| k < l < |layers| && Lists(layers[l], p) { LastListed(layers, k, l, p); }
  }

  /** If files above layer k are listed but neither supplied nor covered, the last is lost. */
  lemma LastListed(layers: seq<Layer>, k: int, l: int, p: Path)
    requires 0 <= k < l < |layers| && Lists(layers[l], p)
    requires forall j :: k < j < |layers| ==> !Supplies(layers[j], p) && !Covered(layers[j], p)
    ensures exists j :: LostAt(layers, j, p)
    decreases |layers| - l
  {
    if j :| l < j < |layers| && Lists(layers[j], p) {
      LastListed(layers, k, j, p);
    } else {
      assert LostAt(layers, l, p);
    }
  }

  /** An erased file that no later layer mentions is shown by the overlay view only. */
  lemma LostIsOnlyShown(layers: seq<Layer>, k: int, p: Path)
    requires LostAt(layers, k, p)
    ensures OverlayShows(layers, k, p, NodeAt(layers[k], p)) && forall v :: !Supplied(layers, p, v)
  {
    ErasedIsCovered(layers[k], p);
    forall j, v ensures !TopSupplier(layers, j, p, v) {
      if TopSupplier(layers, j, p, v) && k < j { SuppliesLists(layers[j], p); }
    }
  }

  /** Flattening refines the overlay view exactly when every erased file is listed or
      covered again by a later layer; in particular when none is erased. */
  lemma FoldIsOverlayIff(layers: seq<Layer>)
    requires AllWellFormed(layers) && Fold(layers).Done?
    ensures (forall p, v :: p != [] ==> (Holds(Fold(layers).tree, p, v) <==> Shown(layers, p, v)))
            <==> forall k, p :: !LostAt(layers, k, p)
  {
    FoldMeans(layers);
    if forall k, p :: !LostAt(layers, k, p) {
      forall p, v ensures Shown(layers, p, v) <==> Supplied(layers, p, v) {
        if k :| OverlayShows(layers, k, p, v) { ShownIsSupplied(layers, k, p, v); }
        if k :| TopSupplier(layers, k, p, v) { SuppliedIsShown(layers, k, p, v); }
      }
    } else {
      var k, p :| LostAt(layers, k, p);
      LostIsOnlyShown(layers, k, p);
      RootNotErased(layers[k]);
      var i :| ListsAt(layers[k], i, p);
      var v := NodeAt(layers[k], p);
      assert Shown(layers, p, v) && !Supplied(layers, p, v) && p != [];
    }
  }
}
