/** The writer that caps a command's output (cmd/aetheria-agent/main.go:318-339). */
module CappedWriter {
  type Data = seq<char>

  function Concat(writes: seq<Data>): Data {
    if writes == [] then [] else Concat(writes[..|writes| - 1]) + writes[|writes| - 1]
  }

  /** The first limit bytes; none for a limit that is not positive. */
  function Capped(limit: int, data: Data): Data {
    if limit <= 0 then [] else if |data| <= limit then data else data[..limit]
  }

  class LimitedWriter {
    var buf: Data
    const limit: int
    var truncated: bool
    ghost var writes: seq<Data>

    constructor (limit: int)
      ensures this.limit == limit && writes == [] && Valid()
    {
      this.limit, buf, truncated, writes := limit, [], false, [];
      new;
      assert buf == Capped(limit, Concat(writes));
    }

    /** The buffer is the capped concatenation of all writes; the flag says that more was
        written, or that something, if only nothing at all, was written to a full buffer. */
    ghost predicate Valid()
      reads this
    {
      && buf == Capped(limit, Concat(writes))
      && (truncated <==> Flag(limit, writes))
    }

    method Write(p: Data) returns (n: nat)
      requires Valid()
      modifies this
      ensures Valid() && writes == old(writes) + [p] && n == |p|
    {
      ghost var before := writes;
      writes := writes + [p];
      assert writes[..|before|] == before;
      WrittenWhenFullSnoc(limit, before, p);
      var remaining := limit - |buf|;
      n := |p|;
      if remaining <= 0 {
        truncated := true;
        return;
      }
      if |p| > remaining {
        buf := buf + p[..remaining];
        truncated := true;
        return;
      }
      buf := buf + p;
    }
  }

  /** Some write found no room at all. */
  ghost predicate WrittenWhenFull(limit: int, writes: seq<Data>) {
    exists i :: FullAt(limit, writes, i)
  }

  ghost predicate FullAt(limit: int, writes: seq<Data>, i: int) {
    0 <= i < |writes| && |Concat(writes[..i])| >= limit
  }

  lemma WrittenWhenFullSnoc(limit: int, writes: seq<Data>, p: Data)
    ensures WrittenWhenFull(limit, writes + [p]) <==> WrittenWhenFull(limit, writes) || |Concat(writes)| >= limit
  {
    var w := writes + [p];
    assert w[..|writes|] == writes;
    forall i | 0 <= i < |writes| ensures FullAt(limit, writes, i) <==> FullAt(limit, w, i) {
      assert w[..i] == writes[..i];
    }
    if |Concat(writes)| >= limit { assert FullAt(limit, w, |writes|); }
  }

  lemma {:induction false} ConcatGrows(writes: seq<Data>, i: nat)
    requires i <= |writes|
    ensures |Concat(writes[..i])| <= |Concat(writes)|
    ensures i < |writes| && writes[|writes| - 1] != [] ==> |Concat(writes[..i])| < |Concat(writes)|
    decreases |writes|
  {
    if i == |writes| {
      assert writes[..i] == writes;
    } else {
      var n := |writes| - 1;
      assert writes[..n][..i] == writes[..i];
      ConcatGrows(writes[..n], i);
    }
  }

  /** What `truncated` is after these writes (see LimitedWriter.Valid). */
  ghost predicate Flag(limit: int, writes: seq<Data>) {
    |Concat(writes)| > |Capped(limit, Concat(writes))| || WrittenWhenFull(limit, writes)
  }

  function Room(limit: int): nat {
    if limit < 0 then 0 else limit
  }

  predicate EndsEmpty(writes: seq<Data>) {
    writes != [] && writes[|writes| - 1] == []
  }

  /** When exactly as much was written as there is room for, the flag is set if and only if
      the last write was empty. */
  lemma FullFlagIff(limit: int, writes: seq<Data>)
    requires |Concat(writes)| == Room(limit)
    ensures Flag(limit, writes) <==> EndsEmpty(writes)
  {
    if EndsEmpty(writes) {
      var n := |writes| - 1;
      assert Concat(writes) == Concat(writes[..n]);
      assert FullAt(limit, writes, n);
    }
    if i :| FullAt(limit, writes, i) { ConcatGrows(writes, i); }
  }

  /** The flag says whether more was written than there is room for, except for one case: it
      is also set when nothing was cut but the last of the writes was an empty one to a full
      buffer. This covers every limit and every sequence of writes. */
  lemma FlagIsExactIff(limit: int, writes: seq<Data>)
    ensures (Flag(limit, writes) <==> |Concat(writes)| > Room(limit)) <==>
            !(|Concat(writes)| == Room(limit) && EndsEmpty(writes))
  {
    if |Concat(writes)| == Room(limit) { FullFlagIff(limit, writes); }
    if i :| FullAt(limit, writes, i) { ConcatGrows(writes, i); }
  }

  /** So for writes that are not empty the flag means exactly that the output was cut. */
  lemma TruncatedIff(limit: int, writes: seq<Data>)
    requires forall k :: 0 <= k < |writes| ==> writes[k] != []
    ensures Flag(limit, writes) <==> |Concat(writes)| > Room(limit)
  {
    FlagIsExactIff(limit, writes);
  }
}
