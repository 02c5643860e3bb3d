/** mergeLayerWithWhiteouts and copyFile as they run: in place, one file operation at a
    time (cmd/aetheria-agent/oci.go:517-601). */
module RootFs {
  import opened FileTree
  import opened LayerWalk
  import opened Overlay

  /** How a call returns; `Outside` is the model's boundary (see FileTree.Outcome). */
  datatype Status = Ok | Error | Outside

  function StatusOf(o: Outcome): Status {
    match o
    case Done(_) => Ok
    case Failed => Error
    case ThroughLink => Outside
  }

  /** os.ReadDir: the names in a directory. */
  function ChildNames(t: Tree, dir: Path): set<Name> {
    set p | p in t && Under(p, dir) && p != dir :: p[|dir|]
  }

  /** The tree once the named children of a directory are gone. */
  function WithoutChildren(t: Tree, dir: Path, names: set<Name>): Tree {
    map p | p in t && !(Under(p, dir) && p != dir && p[|dir|] in names) :: t[p]
  }

  lemma WithoutOneMore(t: Tree, dir: Path, names: set<Name>, name: Name)
    ensures WithoutSubtree(WithoutChildren(t, dir, names), dir + [name]) == WithoutChildren(t, dir, names + {name})
  {
    forall p ensures Under(p, dir + [name]) <==> Under(p, dir) && p != dir && p[|dir|] == name {
      if Under(p, dir + [name]) { assert p[..|dir|] == p[..|dir| + 1][..|dir|]; }
    }
  }

  lemma WithoutAll(t: Tree, dir: Path, names: set<Name>)
    requires names == ChildNames(t, dir)
    ensures WithoutChildren(t, dir, names) == WithoutContents(t, dir)
  {
  }

  /** A directory on disk. A tree without the path `[]` is a missing directory. */
  class Directory {
    var tree: Tree

    constructor ()
      ensures tree == map[]
    {
      tree := map[];
    }

    /** Takes the outcome of one system call. */
    method Apply(o: Outcome) returns (s: Status)
      modifies this
      ensures s == StatusOf(o)
      ensures tree == if o.Done? then o.tree else old(tree)
    {
      if o.Done? { tree := o.tree; }
      s := StatusOf(o);
    }

    /** Deletes the contents of a directory child by child. */
    method DeleteContents(dir: Path) returns (s: Status)
      modifies this
      ensures s == StatusOf(EmptyOut(old(tree), dir))
      ensures s.Ok? ==> EmptyOut(old(tree), dir) == Done(tree)
      ensures !s.Ok? ==> tree == old(tree)
    {
      if LinkOnWay(tree, dir) { return Outside; }
      ghost var before := tree;
      var entries := ChildNames(tree, dir);
      ghost var deleted: set<Name> := {};
      while entries != {}
        invariant entries + deleted == ChildNames(before, dir)
        invariant tree == WithoutChildren(before, dir, deleted)
        decreases |entries|
      {
        var name :| name in entries;
        WithoutOneMore(before, dir, deleted, name);
        tree := WithoutSubtree(tree, dir + [name]);
        entries, deleted := entries - {name}, deleted + {name};
      }
      assert deleted == ChildNames(before, dir);
      WithoutAll(before, dir, deleted);
      s := Ok;
    }

    /** copyFile. */
    method WriteFile(p: Path, content: string) returns (s: Status)
      requires p != []
      modifies this
      ensures s == StatusOf(CopyFile(old(tree), p, content))
      ensures s.Ok? ==> CopyFile(old(tree), p, content) == Done(tree)
      ensures !s.Ok? ==>
                tree == match MkdirAll(old(tree), Parent(p)) case Done(t) => t case _ => old(tree)
    {
      s := Apply(MkdirAll(tree, Parent(p)));
      if !s.Ok? { return; }
      if p in tree && tree[p].Dir? { return Error; }
      if p in tree && tree[p].Link? { return Outside; }
      tree := tree[p := File(content)];
    }

    /** The function passed to filepath.Walk. */
    method Visit(e: Entry) returns (s: Status)
      modifies this
      ensures s == StatusOf(Step(old(tree), e))
      ensures s.Ok? ==> Step(old(tree), e) == Done(tree)
      ensures e.path == [] ==> s == Ok && tree == old(tree)
    {
      if e.path == [] { return Ok; }
      var name := Base(e.path);
      if name == OPAQUE {
        s := DeleteContents(Parent(e.path));
      } else if IsMarkerName(name) {
        s := Apply(RemoveAll(tree, WhiteoutTarget(Parent(e.path), name[|WHITEOUT|..])));
      } else {
        match e.node
        case Dir => s := Apply(MkdirAll(tree, e.path));
        case Link(target) => s := Apply(Symlink(tree, e.path, target));
        case File(content) => s := WriteFile(e.path, content);
      }
    }

    /** mergeLayerWithWhiteouts. On the files of a directory tree, with or without the layer
        directory itself, a success leaves the merge. */
    method MergeLayer(es: Layer) returns (s: Status)
      modifies this
      ensures s == StatusOf(Walk(old(tree), es))
      ensures s.Ok? ==> Walk(old(tree), es) == Done(tree)
      ensures s.Ok? && Rooted(old(tree)) && WellFormed(es) && ProperMarkers(es) ==>
                tree == Merged(old(tree), es) && Rooted(tree)
    {
      s := Ok;
      for i := 0 to |es|
        invariant s == Ok && Walk(old(tree), es[..i]) == Done(tree)
      {
        assert es[..i + 1][..i] == es[..i];
        s := Visit(es[i]);
        if !s.Ok? {
          WalkStopped(old(tree), es, i + 1);
          return;
        }
      }
      assert es[..|es|] == es;
      if Rooted(old(tree)) && WellFormed(es) && ProperMarkers(es) { WalkIsMerged(old(tree), es); }
    }
  }
}
