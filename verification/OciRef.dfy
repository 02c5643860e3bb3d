/** Image references (cmd/aetheria-agent/oci.go:31-94). */
module OciRef {
  import opened Text

  const DEFAULT_REGISTRY := "registry-1.docker.io"
  const DEFAULT_TAG := "latest"
  const LIBRARY := "library/"

  datatype Ref = Ref(registry: string, repo: string, tag: string)

  /** A first component that names a registry. */
  predicate RegistryLike(s: string) {
    Contains(s, '.') || Contains(s, ':') || s == "localhost"
  }

  /** The tag is split off at the last colon, unless it is the first character or a
      slash follows it. */
  predicate HasTag(s: string) {
    var i := LastIndex(s, ':');
    i > 0 && !Contains(s[i..], '/')
  }

  /** The part without the tag. */
  function ParseName(name: string): (string, string) {
    var parts := SplitN(name, '/', 2);
    var (registry, repo) :=
      if |parts| == 2 && RegistryLike(parts[0]) then (parts[0], parts[1]) else (DEFAULT_REGISTRY, name);
    if registry == DEFAULT_REGISTRY && !Contains(repo, '/') then (registry, LIBRARY + repo) else (registry, repo)
  }

  /** ParseOCIRef. */
  function Parse(s: string): Ref {
    var i := LastIndex(s, ':');
    var (name, tag) := if HasTag(s) then (s[..i], s[i + 1..]) else (s, DEFAULT_TAG);
    var (registry, repo) := ParseName(name);
    Ref(registry, repo, tag)
  }

  function PrintName(r: Ref): string {
    if r.registry != DEFAULT_REGISTRY then r.registry + "/" + r.repo else r.repo
  }

  /** OCIRef.String. */
  function Print(r: Ref): string {
    if r.tag != DEFAULT_TAG then PrintName(r) + ":" + r.tag else PrintName(r)
  }

  // ---------- Registry and repository ----------

  /** What the first component of a default-registry repository must not look like. */
  predicate PrintableName(r: Ref) {
    if r.registry == DEFAULT_REGISTRY then
      Contains(r.repo, '/') && !RegistryLike(r.repo[..Index(r.repo, '/')])
    else
      !Contains(r.registry, '/') && RegistryLike(r.registry)
  }

  lemma SplitSlash(s: string)
    ensures SplitN(s, '/', 2) == if Contains(s, '/') then [s[..Index(s, '/')], s[Index(s, '/') + 1..]] else [s]
  {
    if Contains(s, '/') {
      var i := Index(s, '/');
      assert s == s[..i] + ['/'] + s[i + 1..];
      SplitFirst(s[..i], '/', s[i + 1..], 2);
    }
  }

  lemma SlashPosition(a: string, b: string)
    ensures Index(a + "/" + b, '/') <= |a| && Contains(a + "/" + b, '/')
    ensures Index(a + "/" + b, '/') == |a| <==> !Contains(a, '/')
  {
    var s := a + "/" + b;
    assert s[|a|] == '/';
    if Contains(a, '/') {
      var k :| 0 <= k < |a| && a[k] == '/';
      assert s[k] == '/';
    }
  }

  /** A registry other than the default one comes from a registry-like first component. */
  lemma ParseSplit(s: string)
    ensures var i := Index(s, '/');
            if Contains(s, '/') && RegistryLike(s[..i]) && s[..i] != DEFAULT_REGISTRY
            then ParseName(s) == (s[..i], s[i + 1..])
            else ParseName(s).0 == DEFAULT_REGISTRY
  {
    SplitSlash(s);
  }

  lemma OtherRegistry(r: Ref)
    requires r.registry != DEFAULT_REGISTRY
    ensures ParseName(PrintName(r)) == (r.registry, r.repo) <==> PrintableName(r)
  {
    var s := r.registry + "/" + r.repo;
    ParseSplit(s);
    SlashPosition(r.registry, r.repo);
    var i := Index(s, '/');
    if Contains(r.registry, '/') {
      assert |s[..i]| < |r.registry|;
    } else {
      assert s[..i] == r.registry && s[i + 1..] == r.repo;
    }
  }

  lemma DefaultRegistry(repo: string)
    ensures ParseName(repo) == (DEFAULT_REGISTRY, repo) <==>
            Contains(repo, '/') && !RegistryLike(repo[..Index(repo, '/')])
  {
    SplitSlash(repo);
    var i := Index(repo, '/');
    if !Contains(repo, '/') {
      assert |LIBRARY + repo| == |repo| + 8;
    } else if RegistryLike(repo[..i]) && repo[..i] == DEFAULT_REGISTRY {
      assert i == 20;
      assert |LIBRARY + repo[i + 1..]| == |repo| - 13;
    }
  }

  /** The registry and repository survive printing exactly for printable names. */
  lemma NameRoundTripIff(r: Ref)
    ensures ParseName(PrintName(r)) == (r.registry, r.repo) <==> PrintableName(r)
  {
    if r.registry != DEFAULT_REGISTRY { OtherRegistry(r); } else { DefaultRegistry(r.repo); }
  }

  // ---------- The round trip ----------

  lemma TagAtEnd(name: string, tag: string)
    requires !Contains(tag, ':')
    ensures LastIndex(name + ":" + tag, ':') == |name|
  {
    var s := name + ":" + tag;
    var i := LastIndex(s, ':');
    assert s[|name|] == ':';
    assert i <= |name|;
  }

  /** Lengths rule out that a default tag printed as nothing comes back from a name. */
  lemma NameLengths(s: string)
    ensures var (registry, repo) := ParseName(s);
            var n := PrintName(Ref(registry, repo, DEFAULT_TAG));
            |n| <= |s| || |n| == |s| + 8
  {
    SplitSlash(s);
    assert |LIBRARY| == 8;
    if Contains(s, '/') {
      var i := Index(s, '/');
      assert |s[..i]| + 1 + |s[i + 1..]| == |s|;
    }
  }

  lemma DefaultTagReadsBackIff(r: Ref)
    requires r.tag == DEFAULT_TAG
    ensures Parse(Print(r)) == r <==> PrintableName(r) && !HasTag(PrintName(r))
  {
    var s := PrintName(r);
    NameRoundTripIff(r);
    if HasTag(s) {
      // the name shrinks by seven characters and could only grow back by eight
      var i := LastIndex(s, ':');
      assert |s[i + 1..]| == |s| - i - 1;
      NameLengths(s[..i]);
    }
  }

  /** A colon in the tag moves the split into the tag. */
  lemma ColonInTag(r: Ref)
    requires r.tag != DEFAULT_TAG && Contains(r.tag, ':')
    ensures Parse(Print(r)) != r
  {
    var name, s := PrintName(r), Print(r);
    var i := LastIndex(s, ':');
    var k :| 0 <= k < |r.tag| && r.tag[k] == ':';
    assert s[|name| + 1 + k] == ':';
    assert |s[i + 1..]| < |r.tag|;
    if !HasTag(s) { assert Parse(s).tag == DEFAULT_TAG; }
  }

  /** What follows the colon is a tag unless it contains a slash. */
  lemma TaggedParse(name: string, tag: string)
    requires !Contains(tag, ':')
    ensures var s := name + ":" + tag;
            if name != "" && !Contains(tag, '/')
            then Parse(s) == Ref(ParseName(name).0, ParseName(name).1, tag)
            else Parse(s).tag == DEFAULT_TAG
  {
    var s := name + ":" + tag;
    TagAtEnd(name, tag);
    assert s[|name|..] == ":" + tag && s[..|name|] == name && s[|name| + 1..] == tag;
    assert Contains(s[|name|..], '/') <==> Contains(tag, '/');
  }

  lemma OtherTagReadsBackIff(r: Ref)
    requires r.tag != DEFAULT_TAG && !Contains(r.tag, ':')
    ensures Parse(Print(r)) == r <==> PrintableName(r) && !Contains(r.tag, '/')
  {
    TaggedParse(PrintName(r), r.tag);
    NameRoundTripIff(r);
    if PrintName(r) == "" { assert !PrintableName(r); }
  }

  /** Printing and parsing again gives back the reference if and only if its name is
      printable and its tag either is the default one and nothing in the name looks like
      a tag, or contains neither a colon nor a slash. */
  lemma RoundTripIff(r: Ref)
    ensures Parse(Print(r)) == r <==>
            && PrintableName(r)
            && (if r.tag == DEFAULT_TAG then !HasTag(PrintName(r)) else !Contains(r.tag, ':') && !Contains(r.tag, '/'))
  {
    if r.tag == DEFAULT_TAG { DefaultTagReadsBackIff(r); }
    else if Contains(r.tag, ':') { ColonInTag(r); }
    else { OtherTagReadsBackIff(r); }
  }

  /** Parsing a name with a tag. */
  lemma NameOfTagged(name: string, tag: string)
    requires name != "" && !Contains(tag, ':') && !Contains(tag, '/')
    ensures var r := Parse(name + ":" + tag); (r.registry, r.repo) == ParseName(name) && r.tag == tag
  {
    TaggedParse(name, tag);
  }

  /** A name without a slash is an official image of the default registry, whatever its tag. */
  lemma PlainName(name: string, tag: string)
    requires name != "" && !Contains(name, '/') && !Contains(name, ':')
    requires !Contains(tag, '/') && !Contains(tag, ':')
    ensures Parse(name) == Ref("registry-1.docker.io", "library/" + name, "latest")
    ensures Parse(name + ":" + tag) == Ref("registry-1.docker.io", "library/" + name, tag)
  {
    SplitSlash(name);
    TaggedParse(name, tag);
  }

  predicate EndsWith(s: string, end: string) {
    |end| <= |s| && s[|s| - |end|..] == end
  }

  lemma EndStays(a: string, end: string)
    ensures EndsWith(a + end, end) && EndsWith(LIBRARY + (a + end), end)
  {
    assert LIBRARY + (a + end) == (LIBRARY + a) + end;
  }

  /** What is left of a name when its registry is taken off. */
  function Rest(s: string): string {
    if Contains(s, '/') && RegistryLike(s[..Index(s, '/')]) then s[Index(s, '/') + 1..] else s
  }

  lemma RepoOfRest(s: string)
    ensures ParseName(s).1 == Rest(s) || ParseName(s).1 == LIBRARY + Rest(s)
  {
    SplitSlash(s);
  }

  lemma RestEnds(name: string, end: string) returns (a: string)
    requires !Contains(end, '/')
    ensures Rest(name + end) == a + end
  {
    var s := name + end;
    forall k | |name| <= k < |s| ensures s[k] != '/' { assert s[k] == end[k - |name|]; }
    var i := Index(s, '/');
    a := if Contains(s, '/') && RegistryLike(s[..i]) then name[i + 1..] else name;
  }

  /** The end of a name, without a slash, stays the end of its repository. */
  lemma EndOfName(name: string, end: string)
    requires !Contains(end, '/')
    ensures EndsWith(ParseName(name + end).1, end)
  {
    RepoOfRest(name + end);
    var a := RestEnds(name, end);
    EndStays(a, end);
  }

  /** A digest is not recognised, in whatever registry and namespace: its algorithm stays at the
      end of the repository and its hash becomes the tag. */
  lemma DigestIsATag(name: string, algorithm: string, hash: string)
    requires !Contains(algorithm, '/') && !Contains(hash, ':') && !Contains(hash, '/')
    ensures var r := Parse(name + "@" + algorithm + ":" + hash);
            && r.tag == hash && (r.registry, r.repo) == ParseName(name + "@" + algorithm)
            && EndsWith(r.repo, "@" + algorithm)
  {
    var n := name + "@" + algorithm;
    NameOfTagged(n, hash);
    assert n == name + ("@" + algorithm);
    EndOfName(name, "@" + algorithm);
  }

  /** Printing a parsed reference is a normal form under the same condition, whatever
      was parsed. */
  lemma NormalForm(s: string)
    ensures var r := Parse(s);
            Parse(Print(r)) == r <==>
            PrintableName(r) && (r.tag == DEFAULT_TAG ==> !HasTag(PrintName(r)))
  {
    var r := Parse(s);
    RoundTripIff(r);
    if HasTag(s) {
      var i := LastIndex(s, ':');
      assert forall c :: c in s[i + 1..] ==> c in s[i..];
    }
  }

  /** A colon before a slash starts no tag. */
  lemma ColonBeforeSlash(first: string, rest: string)
    requires ':' !in rest
    ensures !HasTag(first + "/" + rest)
  {
    var s := first + "/" + rest;
    var i := LastIndex(s, ':');
    if i >= 0 {
      assert i < |first|;
      assert s[i..][|first| - i] == '/';
    }
  }

  lemma JoinedName(first: string, rest: string)
    requires '/' !in first
    ensures var n := ParseName(first + "/" + rest);
            if !('.' in first || ':' in first || first == "localhost")
            then n == ("registry-1.docker.io", first + "/" + rest)
            else if first == "registry-1.docker.io" && '/' !in rest then n == (first, "library/" + rest)
            else n == (first, rest)
  {
    assert first + "/" + rest == first + ['/'] + rest;
    SplitFirst(first, '/', rest, 2);
    assert SplitN(rest, '/', 1) == [rest];
    assert (first + "/" + rest)[|first|] == '/';
  }

  /** How a reference with a slash and without a tag is read: the first component is the
      registry exactly if it contains a dot or a colon or is "localhost". */
  lemma ReferenceParts(first: string, rest: string)
    requires '/' !in first && ':' !in rest
    ensures Parse(first + "/" + rest) ==
            if !('.' in first || ':' in first || first == "localhost")
            then Ref("registry-1.docker.io", first + "/" + rest, "latest")
            else if first == "registry-1.docker.io" && '/' !in rest
            then Ref("registry-1.docker.io", "library/" + rest, "latest")
            else Ref(first, rest, "latest")
  {
    ColonBeforeSlash(first, rest);
    JoinedName(first, rest);
  }

  /** It does fail: an explicit Docker Hub registry is dropped when printing, and a
      first component like "my.org" is then read as the registry. */
  lemma ExplicitDefaultRegistry(first: string, rest: string)
    requires !Contains(first, '/') && !Contains(rest, ':')
    requires RegistryLike(first) && first != DEFAULT_REGISTRY && !Contains(first, ':')
    ensures var r := Parse(DEFAULT_REGISTRY + "/" + (first + "/" + rest));
            r == Ref(DEFAULT_REGISTRY, first + "/" + rest, DEFAULT_TAG)
            && Parse(Print(r)) == Ref(first, rest, DEFAULT_TAG)
  {
    assert (first + "/" + rest)[|first|] == '/';
    ReferenceParts(DEFAULT_REGISTRY, first + "/" + rest);
    ReferenceParts(first, rest);
  }
}
