/** Pulling an image into its cache directory, with a crash allowed between any two file
    operations (cmd/aetheria-agent/oci.go:339-381 and 383-466). */
module ImagePull {
  import opened FileTree
  import opened LayerWalk
  import opened Overlay
  import opened Flatten
  import opened Options
  import opened RootFs

  /** A downloaded file: all of the blob, or what an interrupted download left. */
  datatype Blob = Whole(layer: Layer) | Partial

  /** How a step of the pull ends. `Beyond` marks the boundary of the model: a layer leads
      through a symbolic link of a lower one, and what the code does then is left open. */
  datatype Result = Pulled | Failure | Crashed | Beyond

  const ETC: Path := ["etc"]
  const DNS_PATH: Path := ["etc", "resolv.conf"]
  const DNS_TEXT := "nameserver 8.8.8.8\nnameserver 1.1.1.1\n"

  /** Step 6 of the pull, which makes the directory and then the file; errors are ignored. */
  function WithDns(t: Tree): Tree {
    var t1 := match MkdirAll(t, Parent(DNS_PATH)) case Done(r) => r case _ => t;
    match CopyFile(t, DNS_PATH, DNS_TEXT)
    case Done(r) => r
    case _ => t1
  }

  /** Neither the layers nor the resolver file lead through a symbolic link. */
  predicate WithinModel(layers: seq<Layer>) {
    match Fold(layers)
    case Done(t) => CopyFile(t, DNS_PATH, DNS_TEXT) != ThroughLink
    case Failed => true
    case ThroughLink => false
  }

  /** Writing the resolver file follows a link exactly if /etc or the file is one; otherwise
      it puts the file in place, or changes nothing. */
  lemma DnsWritten(t: Tree)
    requires Rooted(t)
    ensures var etc, file := ["etc"], ["etc", "resolv.conf"];
            var outcome := CopyFile(t, DNS_PATH, DNS_TEXT);
            && (outcome == ThroughLink <==> (etc in t && t[etc].Link?) || (file in t && t[file].Link?))
            && (outcome == Failed <==> (etc in t && t[etc].File?) || (file in t && t[file].Dir?))
            && (outcome == Failed ==> WithDns(t) == t)
            && (outcome.Done? ==>
                  WithDns(t) == t[etc := Dir][file := File("nameserver 8.8.8.8\nnameserver 1.1.1.1\n")])
  {
    assert Parent(DNS_PATH) == ETC && Parent(ETC) == [];
    MkdirInDir(t, ETC);
    assert DNS_PATH in t ==> ETC in t;
    if ETC in t && t[ETC].Dir? { MkdirExisting(t, ETC); }
  }

  /** An outcome other than a tree stays the outcome of the whole fold. */
  lemma {:induction false} FoldStopped(layers: seq<Layer>, n: nat)
    requires n <= |layers| && !Fold(layers[..n]).Done?
    ensures Fold(layers) == Fold(layers[..n])
    decreases |layers|
  {
    if n == |layers| {
      assert layers[..n] == layers;
    } else {
      assert layers[..|layers| - 1][..n] == layers[..n];
      FoldStopped(layers[..|layers| - 1], n);
    }
  }

  /** An image cache directory, <storage>/images/oci/<short name>/<config digest>. */
  class CacheDir {
    /** The layers of the manifest with this config digest. */
    const layers: seq<Layer>
    const rootfs: Directory
    var layerFiles: map<nat, Blob>  // layer-<i>.tar.gz
    var layerTemps: map<nat, Blob>  // layer-<i>.tar.gz.tmp
    var configFile: bool            // config.json
    var complete: bool              // .oci-complete

    constructor (layers: seq<Layer>)
      ensures this.layers == layers && fresh(rootfs) && Consistent() && !complete
    {
      this.layers := layers;
      rootfs := new Directory();
      layerFiles, layerTemps, configFile, complete := map[], map[], false, false;
    }

    /** Whatever is under a final name is whole; the marker vouches for the root file system
        of every image within the model. */
    ghost predicate Consistent()
      reads this, rootfs
    {
      && (forall i :: i in layerFiles ==> i < |layers| && layerFiles[i] == Whole(layers[i]))
      && (complete && WithinModel(layers) ==> Fold(layers).Done? && rootfs.tree == WithDns(Fold(layers).tree))
    }

    /** What an interrupted download of layer i has left. */
    function TempOf(i: nat): Option<Blob>
      reads this
    {
      if i in layerTemps then Some(layerTemps[i]) else None
    }

    /** fetchBlob for layer i. */
    method FetchLayer(i: nat) returns (r: Result)
      requires Consistent() && i < |layers|
      modifies this`layerFiles, this`layerTemps
      ensures Consistent()
      ensures r == Pulled ==> i in layerFiles && i !in layerTemps
      ensures r != Beyond
      ensures forall j :: j != i ==> (j in layerFiles <==> j in old(layerFiles)) && TempOf(j) == old(TempOf(j))
    {
      if * { return Failure; }                        // HTTP error
      layerTemps := layerTemps[i := Partial];
      if * { return Crashed; }
      if * {                                          // broken download
        layerTemps := layerTemps - {i};
        return Failure;
      }
      layerTemps := layerTemps[i := Whole(layers[i])];
      if * { return Crashed; }
      if * {                                          // rename fails
        layerTemps := layerTemps - {i};
        return Failure;
      }
      layerFiles := layerFiles[i := layerTemps[i]];
      layerTemps := layerTemps - {i};
      r := Pulled;
    }

    /** extractOCILayer: merges one layer file into the root file system. */
    method ExtractLayer(i: nat) returns (r: Result)
      requires Consistent() && !complete && i in layerFiles
      requires Fold(layers[..i]) == Done(rootfs.tree)
      modifies rootfs
      ensures r == Pulled ==> Fold(layers[..i + 1]) == Done(rootfs.tree)
      ensures r == Beyond ==> Fold(layers[..i + 1]) == ThroughLink
    {
      assert layers[..i + 1][..i] == layers[..i];
      if * {                                          // a crash within the walk
        rootfs.tree := *;
        return Crashed;
      }
      if * {                                          // gzip, tar or a write fails
        rootfs.tree := *;
        return Failure;
      }
      var s := rootfs.MergeLayer(layerFiles[i].layer);
      r := match s case Ok => Pulled case Error => Failure case Outside => Beyond;
    }

    /** Steps 5 and 6, then the marker. */
    method Finish() returns (r: Result)
      requires Consistent() && !complete && Fold(layers) == Done(rootfs.tree)
      modifies this`configFile, this`complete, rootfs
      ensures Consistent()
      ensures r == Pulled ==> complete
      ensures r != Failure && r != Beyond
    {
      if * { return Crashed; }
      if * { configFile := true; }                    // a failed download is only logged
      if * { return Crashed; }
      var s := rootfs.WriteFile(DNS_PATH, DNS_TEXT);
      if s.Outside? { rootfs.tree := *; }             // some file is written through a link
      if * { return Crashed; }
      complete := true;
      if * { return Crashed; }
      r := Pulled;
    }

    /** pullOCIImage, after the manifest is known. An image outside the model may end in any
        way and leave any root file system. A layer that is there is not fetched again. */
    method Pull() returns (r: Result)
      requires Consistent()
      modifies this, rootfs
      ensures Consistent()
      ensures old(complete) ==> r == Pulled && complete && rootfs.tree == old(rootfs.tree)
      ensures r == Pulled ==> complete
      ensures r == Pulled && WithinModel(layers) ==>
                Fold(layers).Done? && rootfs.tree == WithDns(Fold(layers).tree)
      ensures r == Beyond ==> !WithinModel(layers)
      ensures forall i :: i in old(layerFiles) ==> i in layerFiles && TempOf(i) == old(TempOf(i))
    {
      if complete { return Pulled; }
      rootfs.tree := map[];
      if * { return Crashed; }
      rootfs.tree := EMPTY_ROOTFS;
      for i := 0 to |layers|
        invariant Consistent() && !complete
        invariant Fold(layers[..i]) == Done(rootfs.tree)
        invariant forall i :: i in old(layerFiles) ==> i in layerFiles && TempOf(i) == old(TempOf(i))
      {
        if * { return Crashed; }
        if i !in layerFiles {
          r := FetchLayer(i);
          if r != Pulled { return; }
          if * { return Crashed; }
        }
        r := ExtractLayer(i);
        if r == Beyond {
          FoldStopped(layers, i + 1);
          rootfs.tree, complete := *, *;
        }
        if r != Pulled { return; }
      }
      assert layers[..|layers|] == layers;
      r := Finish();
    }

    /** Any number of pulls, each of which may crash anywhere: a marker, once there,
        stays and keeps vouching for the same root file system. */
    method PullAgainAndAgain(times: nat)
      requires Consistent()
      modifies this, rootfs
      ensures Consistent()
      ensures old(complete) ==> complete && rootfs.tree == old(rootfs.tree)
    {
      for i := 0 to times
        invariant Consistent()
        invariant old(complete) ==> complete && rootfs.tree == old(rootfs.tree)
      {
        var r := Pull();
      }
    }
  }
}
