/** Volume options on their way from the command line (cmd/aetheria/main.go:727-741)
    through the environment of the container's init process
    (cmd/aetheria-agent/container.go:435-442) to the mounts it makes (lines 722-746). */
module Volumes {
  import opened Text
  import opened Manager
  import opened Options

  const PREFIX := "__AETHERIA_VOL_"

  function FromParts(parts: seq<string>): Option<VolumeMount> {
    if |parts| < 2 then None
    else Some(VolumeMount(parts[0], parts[1], |parts| == 3 && parts[2] == "ro"))
  }

  /** parseVolumeMount: host:container[:ro]. */
  function Parse(s: string): Option<VolumeMount> {
    FromParts(SplitN(s, ':', 3))
  }

  function Flag(v: VolumeMount): string {
    if v.readOnly then "ro" else "rw"
  }

  function ValueText(v: VolumeMount): string {
    v.hostPath + ":" + (v.containerPath + ":" + Flag(v))
  }

  function Encode(i: nat, v: VolumeMount): string {
    PREFIX + Decimal(i) + "=" + ValueText(v)
  }

  /** What containerInit makes of one environment entry; without '=' the whole entry is
      taken for the value. */
  function Decode(env: string): Option<VolumeMount> {
    if !(PREFIX <= env) then None
    else
      var i := Index(env, '=');
      FromParts(SplitN(if i < |env| then env[i + 1..] else env, ':', 3))
  }

  function EncodeAll(vols: seq<VolumeMount>): (env: seq<string>)
    ensures |env| == |vols|
  {
    if vols == [] then [] else EncodeAll(vols[..|vols| - 1]) + [Encode(|vols| - 1, vols[|vols| - 1])]
  }

  /** The values that are there, in order. */
  function Somes<T>(xs: seq<Option<T>>): seq<T> {
    if xs == [] then []
    else Somes(xs[..|xs| - 1]) + match xs[|xs| - 1] case None => [] case Some(v) => [v]
  }

  function Map<A, B>(f: A -> B, xs: seq<A>): seq<B> {
    seq(|xs|, i requires 0 <= i < |xs| => f(xs[i]))
  }

  function DecodeAll(env: seq<string>): seq<VolumeMount> {
    Somes(Map(Decode, env))
  }

  // ---------- The code ----------

  /** The loop in Start that extends the process environment. */
  method AppendVolumes(base: seq<string>, vols: seq<VolumeMount>) returns (env: seq<string>)
    ensures env == base + EncodeAll(vols)
  {
    env := base;
    for i := 0 to |vols|
      invariant env == base + EncodeAll(vols[..i])
    {
      assert vols[..i + 1][..i] == vols[..i];
      env := env + [Encode(i, vols[i])];
    }
    assert vols[..|vols|] == vols;
  }

  /** The loop in containerInit; the result lists the mounts in the order they are made. */
  method ReadVolumes(env: seq<string>) returns (mounts: seq<VolumeMount>)
    ensures mounts == DecodeAll(env)
  {
    mounts := [];
    for i := 0 to |env|
      invariant mounts == DecodeAll(env[..i])
    {
      var v := Decode(env[i]);
      MapSnoc(Decode, env[..i], env[i]);
      assert env[..i + 1] == env[..i] + [env[i]];
      if v.Some? { mounts := mounts + [v.value]; }
    }
    assert env[..|env|] == env;
  }

  // ---------- Round trip ----------

  /** The key of an entry contains no '='. */
  lemma KeyEnds(i: nat)
    ensures '=' !in PREFIX + Decimal(i)
  {
    forall k | 0 <= k < |PREFIX| ensures PREFIX[k] != '=' {}
    forall k | 0 <= k < |Decimal(i)| ensures Decimal(i)[k] != '=' {}
  }

  /** An entry's key ends at its first '='. */
  lemma KeyOf(key: string, value: string)
    requires '=' !in key
    ensures var env := key + "=" + value; Index(env, '=') == |key| && env[..|key|] == key && env[|key| + 1..] == value
  {
    var env := key + "=" + value;
    assert env[|key|] == '=';
    forall k | 0 <= k < |key| ensures env[k] != '=' { assert env[k] == key[k]; }
  }

  lemma ValueOf(i: nat, v: VolumeMount)
    ensures Decode(Encode(i, v)) == Parse(ValueText(v))
  {
    var key := PREFIX + Decimal(i);
    KeyEnds(i);
    KeyOf(key, ValueText(v));
    assert PREFIX <= key <= Encode(i, v);
  }

  /** No entry has the key of another, so none overrides another in the environment. */
  lemma KeysDistinct(i: nat, v: VolumeMount, j: nat, w: VolumeMount)
    ensures var a, b := Encode(i, v), Encode(j, w);
            '=' in a && '=' in b && (a[..Index(a, '=')] == b[..Index(b, '=')] <==> i == j)
  {
    var k, l := PREFIX + Decimal(i), PREFIX + Decimal(j);
    KeyEnds(i);
    KeyEnds(j);
    KeyOf(k, ValueText(v));
    KeyOf(l, ValueText(w));
    assert Encode(i, v)[|k|] == '=' && Encode(j, w)[|l|] == '=';
    if k == l {
      assert k[|PREFIX|..] == Decimal(i) && l[|PREFIX|..] == Decimal(j);
      DecimalInjective(i, j);
    }
  }

  /** Splitting at the first separator takes off exactly a first part that has none. */
  lemma FirstPartIff(a: string, c: char, b: string, n: nat)
    requires n >= 2
    ensures SplitN(a + [c] + b, c, n)[0] == a <==> !Contains(a, c)
  {
    var s := a + [c] + b;
    assert s[|a|] == c;
    if Contains(a, c) {
      var k :| 0 <= k < |a| && a[k] == c;
      assert s[k] == c;
    } else {
      SplitFirst(a, c, b, n);
    }
  }

  /** The part behind the host path, split in two. */
  lemma TailParts(v: VolumeMount)
    ensures var parts := SplitN(v.containerPath + [':'] + Flag(v), ':', 2);
            if Contains(v.containerPath, ':') then parts[0] != v.containerPath
            else parts == [v.containerPath, Flag(v)]
  {
    FirstPartIff(v.containerPath, ':', Flag(v), 2);
    if !Contains(v.containerPath, ':') {
      SplitFirst(v.containerPath, ':', Flag(v), 2);
      assert SplitN(Flag(v), ':', 1) == [Flag(v)];
    }
  }

  /** What an option means: host path, container path, and "ro" for a read-only mount; any
      other third part, whatever it contains, and a missing one make it writable. */
  lemma OptionMeaning(host: string, dir: string, flag: string)
    requires !Contains(host, ':') && !Contains(dir, ':')
    ensures Parse(host) == None
    ensures Parse(host + ":" + dir) == Some(VolumeMount(host, dir, false))
    ensures Parse(host + ":" + dir + ":" + flag) == Some(VolumeMount(host, dir, flag == "ro"))
  {
    TwoFields(host, dir);
    ThreeFields(host, dir, flag);
    Regrouped(host, dir, flag);
  }

  lemma Regrouped(a: string, b: string, c: string)
    ensures a + ":" + b + ":" + c == a + [':'] + (b + [':'] + c)
  {
  }

  lemma TwoFields(host: string, dir: string)
    requires !Contains(host, ':') && !Contains(dir, ':')
    ensures SplitN(host, ':', 3) == [host] && SplitN(host + ":" + dir, ':', 3) == [host, dir]
  {
    SplitFirst(host, ':', dir, 3);
  }

  lemma ThreeFields(host: string, dir: string, flag: string)
    requires !Contains(host, ':') && !Contains(dir, ':')
    ensures SplitN(host + [':'] + (dir + [':'] + flag), ':', 3) == [host, dir, flag]
  {
    SplitFirst(host, ':', dir + [':'] + flag, 3);
    SplitFirst(dir, ':', flag, 2);
    assert SplitN(flag, ':', 1) == [flag];
  }

  lemma ThreeParts(v: VolumeMount)
    ensures var parts := SplitN(v.hostPath + [':'] + (v.containerPath + [':'] + Flag(v)), ':', 3);
            if Contains(v.hostPath, ':') then parts[0] != v.hostPath
            else if Contains(v.containerPath, ':') then |parts| >= 2 && parts[1] != v.containerPath
            else parts == [v.hostPath, v.containerPath, Flag(v)]
  {
    var tail := v.containerPath + [':'] + Flag(v);
    var rest := SplitN(tail, ':', 2);
    FirstPartIff(v.hostPath, ':', tail, 3);
    if !Contains(v.hostPath, ':') {
      SplitFirst(v.hostPath, ':', tail, 3);
      TailParts(v);
      assert ([v.hostPath] + rest)[1] == rest[0];
    }
  }

  lemma ValueRoundTripIff(v: VolumeMount)
    ensures Parse(ValueText(v)) == Some(v) <==> !Contains(v.hostPath, ':') && !Contains(v.containerPath, ':')
  {
    assert ValueText(v) == v.hostPath + [':'] + (v.containerPath + [':'] + Flag(v));
    ThreeParts(v);
  }

  /** A mount survives the environment exactly if neither path contains a colon. */
  lemma EntryRoundTripIff(i: nat, v: VolumeMount)
    ensures Decode(Encode(i, v)) == Some(v) <==> !Contains(v.hostPath, ':') && !Contains(v.containerPath, ':')
  {
    ValueOf(i, v);
    ValueRoundTripIff(v);
  }

  /** An accepted option yields paths without colons. */
  lemma ParsedHasNoColons(s: string)
    requires Parse(s).Some?
    ensures !Contains(Parse(s).value.hostPath, ':') && !Contains(Parse(s).value.containerPath, ':')
  {
    var i := Index(s, ':');
    var parts := SplitN(s, ':', 3);
    assert parts[0] == s[..i] && parts[1] == SplitN(s[i + 1..], ':', 2)[0];
    var j := Index(s[i + 1..], ':');
    assert parts[1] == s[i + 1..][..j];
  }

  lemma MapSnoc<A, B>(f: A -> B, xs: seq<A>, x: A)
    ensures Map(f, xs + [x]) == Map(f, xs) + [f(x)]
  {
  }

  /** Reading entries that all have a value adds those values. */
  lemma {:induction false} SomesAppended<A, B>(f: A -> Option<B>, xs: seq<A>, ys: seq<A>, vs: seq<B>)
    requires |ys| == |vs| && forall i :: 0 <= i < |ys| ==> f(ys[i]) == Some(vs[i])
    ensures Somes(Map(f, xs + ys)) == Somes(Map(f, xs)) + vs
  {
    if ys == [] {
      assert xs + ys == xs;
    } else {
      var n := |vs| - 1;
      SomesAppended(f, xs, ys[..n], vs[..n]);
      assert xs + ys == (xs + ys[..n]) + [ys[n]];
      MapSnoc(f, xs + ys[..n], ys[n]);
      assert Map(f, xs + ys)[..|xs| + n] == Map(f, xs + ys[..n]);
      assert vs[..n] + [vs[n]] == vs;
    }
  }

  lemma {:induction false} EncodeAllAt(vols: seq<VolumeMount>, i: nat)
    requires i < |vols|
    ensures EncodeAll(vols)[i] == Encode(i, vols[i])
    decreases |vols|
  {
    if i < |vols| - 1 { EncodeAllAt(vols[..|vols| - 1], i); }
  }

  lemma AcceptedSurvives(option: string, i: nat, v: VolumeMount)
    requires Parse(option) == Some(v)
    ensures Decode(Encode(i, v)) == Some(v)
  {
    ParsedHasNoColons(option);
    EntryRoundTripIff(i, v);
  }

  /** Every list of accepted options comes out of the environment as the same mounts in
      the same order, after whatever the rest of the environment is read as. */
  lemma OptionsRoundTrip(base: seq<string>, options: seq<string>, vols: seq<VolumeMount>)
    requires |options| == |vols| && forall i :: 0 <= i < |options| ==> Parse(options[i]) == Some(vols[i])
    ensures DecodeAll(base + EncodeAll(vols)) == DecodeAll(base) + vols
  {
    var env := EncodeAll(vols);
    forall i | 0 <= i < |env| ensures Decode(env[i]) == Some(vols[i]) {
      EncodeAllAt(vols, i);
      AcceptedSurvives(options[i], i, vols[i]);
    }
    SomesAppended(Decode, base, env, vols);
  }

  /** Other entries of the environment, whatever they contain, make no mount. */
  lemma OthersMakeNoMount(env: seq<string>)
    requires forall i :: 0 <= i < |env| ==> !("__AETHERIA_VOL_" <= env[i])
    ensures DecodeAll(env) == []
  {
    forall i | 0 <= i < |env| ensures Decode(env[i]) == None { assert !(PREFIX <= env[i]); }
    NonesAreNothing(Map(Decode, env));
  }

  lemma {:induction false} NonesAreNothing<T>(xs: seq<Option<T>>)
    requires forall i :: 0 <= i < |xs| ==> xs[i] == None
    ensures Somes(xs) == []
  {
    if xs != [] { NonesAreNothing(xs[..|xs| - 1]); }
  }

  /** So in an environment without such entries the mounts are those of the options. */
  lemma OptionsAreTheMounts(base: seq<string>, options: seq<string>, vols: seq<VolumeMount>)
    requires |options| == |vols| && forall i :: 0 <= i < |options| ==> Parse(options[i]) == Some(vols[i])
    requires forall i :: 0 <= i < |base| ==> !("__AETHERIA_VOL_" <= base[i])
    ensures DecodeAll(base + EncodeAll(vols)) == vols
  {
    OptionsRoundTrip(base, options, vols);
    OthersMakeNoMount(base);
  }
}
