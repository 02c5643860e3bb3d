/** Where an image's root file system is: the memo of OCI paths over the cache on disk
    (cmd/aetheria-agent/images.go:58-138 and oci.go:86-93). */
module ImagePaths {
  import opened OciRef
  import opened Options
  import opened Text

  /** ShortName, the key of both the memo and the cache; it ignores the tag. */
  function ShortName(r: Ref): string {
    var name := if r.registry != DEFAULT_REGISTRY then r.registry + "/" + r.repo else r.repo;
    seq(|name|, i requires 0 <= i < |name| => if name[i] == '/' || name[i] == ':' then '-' else name[i])
  }

  function Key(image: string): string {
    ShortName(Parse(image))
  }

  /** A directory entry under images/oci/<short name>; `complete` tells of a completion
      marker inside. */
  datatype DirEntry = DirEntry(name: string, isDir: bool, complete: bool)

  /** os.ReadDir of images/oci/<short name>, in its order; missing directories are empty. */
  type Disk = map<string, seq<DirEntry>>
  type Memo = map<string, string>

  datatype Rootfs = Oci(key: string, dir: string) | Distro(name: string)

  function Listing(disk: Disk, key: string): seq<DirEntry> {
    if key in disk then disk[key] else []
  }

  predicate Marked(e: DirEntry) { e.isDir && e.complete }

  /** The first directory listed with a marker. */
  function FirstMarked(es: seq<DirEntry>): Option<string> {
    if es == [] then None
    else if Marked(es[0]) then Some(es[0].name)
    else FirstMarked(es[1..])
  }

  /** The directory that answers for a short name. */
  function Found(memo: Memo, disk: Disk, key: string): Option<string> {
    if key in memo then Some(memo[key]) else FirstMarked(Listing(disk, key))
  }

  /** The path that imageExtractPath returns. */
  function PathOf(memo: Memo, disk: Disk, image: string): Rootfs {
    match Found(memo, disk, Key(image))
    case Some(dir) => Oci(Key(image), dir)
    case None => Distro(image)
  }

  predicate MarkedAt(es: seq<DirEntry>, i: int, dir: string) {
    0 <= i < |es| && es[i].name == dir && Marked(es[i])
  }

  ghost predicate HasMarker(disk: Disk, key: string, dir: string) {
    exists i :: MarkedAt(Listing(disk, key), i, dir)
  }

  ghost predicate DistinctNames(es: seq<DirEntry>) {
    forall i, j :: 0 <= i < j < |es| ==> NamesDiffer(es, i, j)
  }

  predicate NamesDiffer(es: seq<DirEntry>, i: int, j: int)
    requires 0 <= i < |es| && 0 <= j < |es|
  {
    es[i].name != es[j].name
  }

  /** Names in a directory are distinct, and the memo names directories with markers. */
  ghost predicate Consistent(memo: Memo, disk: Disk) {
    && (forall key :: DistinctNames(Listing(disk, key)))
    && (forall key :: key in memo ==> HasMarker(disk, key, memo[key]))
  }

  /** Position i is that of the first marker, or the end. */
  predicate FirstAt(es: seq<DirEntry>, i: nat) {
    i <= |es| && (i < |es| ==> Marked(es[i])) && forall k :: 0 <= k < i ==> !Marked(es[k])
  }

  lemma {:induction false} FirstMarkedIs(es: seq<DirEntry>, i: nat)
    requires FirstAt(es, i)
    ensures FirstMarked(es) == if i < |es| then Some(es[i].name) else None
    decreases |es|
  {
    if i > 0 { FirstMarkedIs(es[1..], i - 1); }
  }

  lemma {:induction false} FirstExists(es: seq<DirEntry>) returns (i: nat)
    ensures FirstAt(es, i)
  {
    i := 0;
    while i < |es| && !Marked(es[i])
      invariant i <= |es| && forall k :: 0 <= k < i ==> !Marked(es[k])
    {
      i := i + 1;
    }
  }

  /** Whatever OCI path is returned has a completion marker. */
  lemma PathIsComplete(memo: Memo, disk: Disk, image: string)
    requires Consistent(memo, disk) && PathOf(memo, disk, image).Oci?
    ensures HasMarker(disk, Key(image), PathOf(memo, disk, image).dir)
  {
    var es := Listing(disk, Key(image));
    if Key(image) !in memo {
      var i := FirstExists(es);
      FirstMarkedIs(es, i);
      assert MarkedAt(es, i, es[i].name);
    }
  }

  lemma NamesApart(es: seq<DirEntry>, i: int, k: int)
    requires DistinctNames(es) && 0 <= i < |es| && 0 <= k < |es| && i != k
    ensures es[i].name != es[k].name
  {
    if k < i { assert NamesDiffer(es, k, i); } else { assert NamesDiffer(es, i, k); }
  }

  /** After a restart, with the memo gone, an image is still found where it was exactly if
      no other complete pull of its short name is listed before it. */
  lemma RestartKeepsIff(memo: Memo, disk: Disk, image: string)
    requires Consistent(memo, disk)
    ensures var key := Key(image);
            var es := Listing(disk, key);
            PathOf(map[], disk, image) == PathOf(memo, disk, image) <==>
            key !in memo || forall i, j :: MarkedAt(es, i, memo[key]) && 0 <= j < i ==> !Marked(es[j])
  {
    var key := Key(image);
    var es := Listing(disk, key);
    if key in memo {
      var i :| MarkedAt(es, i, memo[key]);
      var f := FirstExists(es);
      FirstMarkedIs(es, f);
      forall k | 0 <= k < |es| && k != i ensures es[k].name != memo[key] { NamesApart(es, i, k); }
    }
  }

  /** For example: of two complete pulls, the memo names the second. */
  lemma RestartFindsAnother(image: string, first: string, second: string)
    requires first != second
    ensures var key := Key(image);
            var memo := map[key := second];
            var disk := map[key := [DirEntry(first, true, true), DirEntry(second, true, true)]];
            && Consistent(memo, disk)
            && PathOf(memo, disk, image) == Oci(key, second) && PathOf(map[], disk, image) == Oci(key, first)
  {
    var key := Key(image);
    var memo := map[key := second];
    var disk := map[key := [DirEntry(first, true, true), DirEntry(second, true, true)]];
    assert MarkedAt(Listing(disk, key), 1, second);
    FirstMarkedIs(Listing(disk, key), 0);
  }

  // ---------- Which names share a key ----------

  predicate Joins(c: char) { c == '/' || c == ':' || c == '-' }

  /** Equal but for what separates the parts. */
  predicate Alike(s: string, t: string) {
    |s| == |t| && forall i :: 0 <= i < |s| ==> s[i] == t[i] || (Joins(s[i]) && Joins(t[i]))
  }

  lemma KeyAt(image: string, i: nat)
    requires i < |PrintName(Parse(image))|
    ensures |Key(image)| == |PrintName(Parse(image))|
    ensures var c := PrintName(Parse(image))[i]; Key(image)[i] == if Joins(c) then '-' else c
  {
  }

  /** Two images share a key if and only if their full names, registry included, are equal but
      for what separates the parts. */
  lemma SameKeyIff(a: string, b: string)
    ensures Key(a) == Key(b) <==> Alike(PrintName(Parse(a)), PrintName(Parse(b)))
  {
    var s, t := PrintName(Parse(a)), PrintName(Parse(b));
    forall i | 0 <= i < |s| && i < |t|
      ensures Key(a)[i] == Key(b)[i] <==> s[i] == t[i] || (Joins(s[i]) && Joins(t[i]))
    {
      KeyAt(a, i);
      KeyAt(b, i);
    }
  }

  /** A key is the name of one directory. */
  lemma KeyIsOneName(image: string)
    ensures '/' !in Key(image) && ':' !in Key(image)
  {
    forall i | 0 <= i < |Key(image)| ensures Key(image)[i] != '/' && Key(image)[i] != ':' { KeyAt(image, i); }
  }

  lemma Untagged(image: string)
    requires ':' !in image
    ensures Parse(image).tag == DEFAULT_TAG
  {
  }

  lemma ParsedName(image: string)
    requires '-' !in image && ':' !in image
    ensures PrintName(Parse(image)) == if '/' in image then image else LIBRARY + image
    ensures PrintableName(Parse(image))
  {
    if '/' in image { NameWithSlash(image); } else { NameWithoutSlash(image); }
  }

  lemma NameWithSlash(image: string)
    requires '-' !in image && ':' !in image && '/' in image
    ensures PrintName(Parse(image)) == image && PrintableName(Parse(image))
  {
    var i := Index(image, '/');
    var first := image[..i];
    assert image == first + "/" + image[i + 1..];
    NotTheDefault(first);
    ReferenceParts(first, image[i + 1..]);
  }

  lemma NotTheDefault(first: string)
    requires '-' !in first
    ensures first != DEFAULT_REGISTRY
  {
    assert DEFAULT_REGISTRY[8] == '-';
  }

  lemma NameWithoutSlash(image: string)
    requires ':' !in image && '/' !in image
    ensures PrintName(Parse(image)) == LIBRARY + image && PrintableName(Parse(image))
  {
    SplitSlash(image);
    SlashPosition("library", image);
    assert LIBRARY + image == "library" + "/" + image;
    assert (LIBRARY + image)[..7] == "library";
  }

  /** So, where no name contains a separator of its own, a path is shared only within one
      repository of one registry. */
  lemma SameKeySameRepository(a: string, b: string)
    requires '-' !in a && ':' !in a && '-' !in b && ':' !in b
    ensures Key(a) == Key(b) <==> Parse(a) == Parse(b)
  {
    SameKeyIff(a, b);
    if Key(a) == Key(b) {
      PlainChars(a);
      PlainChars(b);
      AlikeIsEqual(PrintName(Parse(a)), PrintName(Parse(b)));
      SameParse(a, b);
    }
  }

  lemma PlainChars(image: string)
    requires '-' !in image && ':' !in image
    ensures '-' !in PrintName(Parse(image)) && ':' !in PrintName(Parse(image))
  {
    ParsedName(image);
  }

  lemma AlikeIsEqual(s: string, t: string)
    requires Alike(s, t) && '-' !in s && ':' !in s && '-' !in t && ':' !in t
    ensures s == t
  {
    forall i | 0 <= i < |s| ensures s[i] == t[i] { assert s[i] in s && t[i] in t; }
  }

  lemma SameParse(a: string, b: string)
    requires '-' !in a && ':' !in a && '-' !in b && ':' !in b
    requires PrintName(Parse(a)) == PrintName(Parse(b))
    ensures Parse(a) == Parse(b)
  {
    ParsedName(a);
    ParsedName(b);
    NameRoundTripIff(Parse(a));
    NameRoundTripIff(Parse(b));
    Untagged(a);
    Untagged(b);
  }

  // ---------- One path for many names ----------

  /** The image is the name as it is, or with a tag. */
  predicate Names(image: string, name: string, tag: string) {
    (image == name && !HasTag(name)) || (image == name + ":" + tag && !Contains(tag, ':') && !Contains(tag, '/'))
  }

  lemma KeyOfNamed(image: string, name: string, tag: string)
    requires name != "" && Names(image, name, tag)
    ensures Key(image) == ShortName(Ref(ParseName(name).0, ParseName(name).1, ""))
  {
    if image != name { NameOfTagged(name, tag); }
  }

  /** Images that differ in the tag alone, or have none, share a path: whatever was pulled for
      one is found for the other. */
  lemma TagsShareAPath(memo: Memo, disk: Disk, name: string, a: string, tagA: string, b: string, tagB: string)
    requires name != "" && Names(a, name, tagA) && Names(b, name, tagB)
    ensures PathOf(memo, disk, a).Oci? ==> PathOf(memo, disk, b) == PathOf(memo, disk, a)
  {
    KeyOfNamed(a, name, tagA);
    KeyOfNamed(b, name, tagB);
  }

  lemma KeyOfPlain(name: string)
    requires name != "" && !Contains(name, '/') && !Contains(name, ':')
    ensures Key(name) == "library-" + name
  {
    PlainName(name, "latest");
    var s := LIBRARY + name;
    assert s == "library" + "/" + name;
    forall i | 0 <= i < |s| ensures ShortName(Parse(name))[i] == ("library-" + name)[i] {
      if i >= 8 { assert s[i] == name[i - 8] && s[i] in name; }
    }
  }

  /** Every image, whatever its name, is looked for among the distributions if and only if no
      complete pull of its short name is in the cache. */
  lemma DistroIff(memo: Memo, disk: Disk, image: string)
    requires Consistent(memo, disk)
    ensures PathOf(memo, disk, image) == Distro(image) <==> forall dir :: !HasMarker(disk, Key(image), dir)
    ensures PathOf(memo, disk, image) != Distro(image) ==>
              PathOf(memo, disk, image).Oci? && PathOf(memo, disk, image).key == Key(image)
  {
    var key := Key(image);
    if key in memo { assert HasMarker(disk, key, memo[key]); }
    var es := Listing(disk, key);
    var i := FirstExists(es);
    FirstMarkedIs(es, i);
    if i < |es| {
      assert MarkedAt(es, i, es[i].name);
      assert HasMarker(disk, key, es[i].name);
    }
    if dir :| HasMarker(disk, key, dir) { var j :| MarkedAt(es, j, dir); }
  }

  /** A built-in distribution is found under another path than its own if and only if an image
      of the same short name has been pulled, such as the same name with a tag. */
  lemma BuiltinShadowedIff(memo: Memo, disk: Disk, name: string)
    requires name != "" && !Contains(name, '/') && !Contains(name, ':') && Consistent(memo, disk)
    ensures PathOf(memo, disk, name) != Distro(name) <==> exists dir :: HasMarker(disk, "library-" + name, dir)
  {
    KeyOfPlain(name);
    DistroIff(memo, disk, name);
  }

  /** Pulling a built-in name with a tag shadows it: both have one short name. */
  lemma TaggedBuiltinKey(name: string, tag: string)
    requires name != "" && !Contains(name, '/') && !Contains(name, ':')
    requires !Contains(tag, ':') && !Contains(tag, '/')
    ensures Key(name + ":" + tag) == Key(name) == "library-" + name
  {
    KeyOfPlain(name);
    KeyOfNamed(name, name, tag);
    KeyOfNamed(name + ":" + tag, name, tag);
  }

  // ---------- What a pull does to the listing ----------

  function Inserted(es: seq<DirEntry>, at: nat, e: DirEntry): seq<DirEntry>
    requires at <= |es|
  {
    seq(|es| + 1, k requires 0 <= k <= |es| => if k < at then es[k] else if k == at then e else es[k - 1])
  }

  lemma InsertedFirstAt(es: seq<DirEntry>, at: nat, e: DirEntry, i: nat)
    requires at <= |es| && !Marked(e) && FirstAt(es, i)
    ensures FirstAt(Inserted(es, at, e), if i < at then i else i + 1)
  {
    var r, j := Inserted(es, at, e), if i < at then i else i + 1;
    forall k | 0 <= k < j ensures !Marked(r[k]) {
      assert r[k] == if k < at then es[k] else if k == at then e else es[k - 1];
    }
    assert i < |es| ==> r[j] == es[i];
  }

  /** A directory without a marker is not found. */
  lemma InsertedFirst(es: seq<DirEntry>, at: nat, e: DirEntry)
    requires at <= |es| && !Marked(e)
    ensures FirstMarked(Inserted(es, at, e)) == FirstMarked(es)
  {
    var i := FirstExists(es);
    FirstMarkedIs(es, i);
    InsertedFirstAt(es, at, e, i);
    FirstMarkedIs(Inserted(es, at, e), if i < at then i else i + 1);
  }

  lemma InsertedDistinct(es: seq<DirEntry>, at: nat, e: DirEntry)
    requires at <= |es| && DistinctNames(es) && forall i :: 0 <= i < |es| ==> es[i].name != e.name
    ensures DistinctNames(Inserted(es, at, e))
  {
    var r := Inserted(es, at, e);
    forall i, j | 0 <= i < j < |r| ensures NamesDiffer(r, i, j) {
      var i', j' := if i < at then i else i - 1, if j < at then j else j - 1;
      if i == at { assert r[j] == es[j']; } else if j == at { assert r[i] == es[i']; }
      else { assert r[i] == es[i'] && r[j] == es[j'] && NamesDiffer(es, i', j'); }
    }
  }

  lemma InsertedKeeps(memo: Memo, disk: Disk, key: string, at: nat, dir: string)
    requires Consistent(memo, disk) && at <= |Listing(disk, key)|
    requires forall i :: 0 <= i < |Listing(disk, key)| ==> Listing(disk, key)[i].name != dir
    ensures var d := disk[key := Inserted(Listing(disk, key), at, DirEntry(dir, true, false))];
            Consistent(memo, d) && forall k :: Found(memo, d, k) == Found(memo, disk, k)
  {
    var es, e := Listing(disk, key), DirEntry(dir, true, false);
    var d := disk[key := Inserted(es, at, e)];
    assert DistinctNames(Listing(disk, key));
    InsertedDistinct(es, at, e);
    forall k ensures DistinctNames(Listing(d, k)) { assert DistinctNames(Listing(disk, k)); }
    forall k | k in memo ensures HasMarker(d, k, memo[k]) {
      var i :| MarkedAt(Listing(disk, k), i, memo[k]);
      assert MarkedAt(Listing(d, k), if k != key || i < at then i else i + 1, memo[k]);
    }
    InsertedFirst(es, at, e);
  }

  lemma MarkingKeeps(memo: Memo, disk: Disk, key: string, i: nat)
    requires Consistent(memo, disk) && key in disk && i < |disk[key]|
    ensures Consistent(memo, disk[key := disk[key][i := DirEntry(disk[key][i].name, true, true)]])
  {
    var d := disk[key := disk[key][i := DirEntry(disk[key][i].name, true, true)]];
    forall k | k in memo ensures HasMarker(d, k, memo[k]) {
      var j :| MarkedAt(Listing(disk, k), j, memo[k]);
      assert MarkedAt(Listing(d, k), j, memo[k]);
    }
    forall k ensures DistinctNames(Listing(d, k)) {
      assert DistinctNames(Listing(disk, k));
      forall a, b | 0 <= a < b < |Listing(d, k)| ensures NamesDiffer(Listing(d, k), a, b) {
        assert NamesDiffer(Listing(disk, k), a, b);
      }
    }
  }

  /** Filling the memo with what the scan found changes no answer. */
  lemma RememberKeeps(memo: Memo, disk: Disk, key: string, i: nat)
    requires Consistent(memo, disk) && key !in memo && i < |Listing(disk, key)| && FirstAt(Listing(disk, key), i)
    ensures var m := memo[key := Listing(disk, key)[i].name];
            Consistent(m, disk) && forall k :: Found(m, disk, k) == Found(memo, disk, k)
  {
    var es := Listing(disk, key);
    FirstMarkedIs(es, i);
    assert MarkedAt(es, i, es[i].name);
  }

  // ---------- The code ----------

  class ImageCache {
    const distros: set<string>   // imageRegistry
    var ociImagePaths: Memo
    var disk: Disk

    ghost predicate Valid()
      reads this
    {
      Consistent(ociImagePaths, disk)
    }

    constructor (distros: set<string>, disk: Disk)
      requires Consistent(map[], disk)
      ensures this.distros == distros && this.disk == disk && ociImagePaths == map[] && Valid()
    {
      this.distros, this.disk, ociImagePaths := distros, disk, map[];
    }

    /** imageExtractPath. What is found is remembered; this changes the answer for no short name. */
    method ImageExtractPath(image: string) returns (r: Rootfs)
      requires Valid()
      modifies this`ociImagePaths
      ensures Valid() && r == PathOf(old(ociImagePaths), disk, image)
      ensures forall k :: Found(ociImagePaths, disk, k) == Found(old(ociImagePaths), disk, k)
      ensures ociImagePaths == if r.Oci? then old(ociImagePaths)[Key(image) := r.dir] else old(ociImagePaths)
    {
      var key := Key(image);
      if key in ociImagePaths { return Oci(key, ociImagePaths[key]); }
      var es := Listing(disk, key);
      for i := 0 to |es|
        invariant forall k :: 0 <= k < i ==> !Marked(es[k])
      {
        if es[i].isDir {
          if es[i].complete {
            FirstMarkedIs(es, i);
            RememberKeeps(ociImagePaths, disk, key, i);
            ociImagePaths := ociImagePaths[key := es[i].name];
            return Oci(key, es[i].name);
          }
        }
      }
      FirstMarkedIs(es, |es|);
      r := Distro(image);
    }

    /** The entry of the directory of one pull: found, or made where its name sorts. */
    method CacheDir(key: string, dir: string) returns (i: nat)
      requires Valid()
      modifies this`disk
      ensures Valid() && key in disk && i < |disk[key]| && disk[key][i].name == dir
      ensures forall k :: Found(ociImagePaths, disk, k) == Found(ociImagePaths, old(disk), k)
    {
      var es := Listing(disk, key);
      i := 0;
      while i < |es|
        invariant i <= |es| && forall k :: 0 <= k < i ==> es[k].name != dir
      {
        if es[i].name == dir { return; }
        i := i + 1;
      }
      i :| 0 <= i <= |es|;
      InsertedKeeps(ociImagePaths, disk, key, i, dir);
      disk := disk[key := Inserted(es, i, DirEntry(dir, true, false))];
    }

    /** PullImage; `dir` is the short digest of the configuration that the registry names.
        A pull that succeeds moves exactly the images of its short name to that directory;
        one that fails moves none. */
    method PullImage(image: string, dir: string) returns (ok: bool)
      requires Valid()
      modifies this
      ensures Valid()
      ensures ok && image !in distros ==>
                forall k :: Found(ociImagePaths, disk, k) ==
                  if k == Key(image) then Some(dir) else Found(old(ociImagePaths), old(disk), k)
      ensures !ok || image in distros ==>
                forall k :: Found(ociImagePaths, disk, k) == Found(old(ociImagePaths), old(disk), k)
    {
      if image in distros {
        if * { return false; }                         // download fails
        var dest := ImageExtractPath(image);
        ok := *;
        return;
      }
      var key := Key(image);
      if * { return false; }                           // no token or manifest
      var i := CacheDir(key, dir);
      MarkingKeeps(ociImagePaths, disk, key, i);
      if !disk[key][i].isDir { return false; }         // nothing can be made below a file
      if !disk[key][i].complete {
        if * { return false; }                         // a layer fails
        disk := disk[key := disk[key][i := DirEntry(dir, true, true)]];
      }
      assert MarkedAt(Listing(disk, key), i, dir);
      ociImagePaths := ociImagePaths[key := dir];
      ok := true;
    }
  }
}
