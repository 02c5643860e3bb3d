/** The header in front of a data channel: the agent writes a decimal port and a newline
    (cmd/aetheria-agent/portforward.go:78-84), the daemon reads it byte by byte so that
    nothing after the newline is lost (cmd/aetheria/main.go:1151-1172). */
module HeaderReader {
  import opened Text

  /** What successive reads of one byte give: a byte, nothing without an error, or an
      error. After the last of them the connection is at its end, which is an error too. */
  datatype Event = Byte(c: char) | Nothing | Broken
  type Input = seq<Event>

  datatype Result = Line(text: string) | Error

  const MAX_HEADER := 256
  const NEWLINE: Event := Byte('\n')

  predicate IsSpace(c: char) {
    c == ' ' || '\t' <= c <= '\r'
  }

  /** strings.TrimSpace, for single-byte white space. */
  function TrimSpace(s: string): string {
    if s == "" then s
    else if IsSpace(s[0]) then TrimSpace(s[1..])
    else if IsSpace(s[|s| - 1]) then TrimSpace(s[..|s| - 1])
    else s
  }

  predicate AllSpace(s: string) {
    forall k :: 0 <= k < |s| ==> IsSpace(s[k])
  }

  /** What is taken off is white space, and all of it at both ends. */
  lemma {:induction false} Trimmed(s: string) returns (left: string, right: string)
    ensures s == left + TrimSpace(s) + right && AllSpace(left) && AllSpace(right)
    ensures TrimSpace(s) != "" ==> !IsSpace(TrimSpace(s)[0]) && !IsSpace(TrimSpace(s)[|TrimSpace(s)| - 1])
    decreases |s|
  {
    TrimmedEnds(s);
    left, right := "", "";
    if s != "" && IsSpace(s[0]) {
      var l, r := Trimmed(s[1..]);
      left, right := [s[0]] + l, r;
      assert s == [s[0]] + s[1..];
    } else if s != "" && IsSpace(s[|s| - 1]) {
      var l, r := Trimmed(s[..|s| - 1]);
      left, right := l, r + [s[|s| - 1]];
      assert s == s[..|s| - 1] + [s[|s| - 1]];
    }
  }

  lemma {:induction false} TrimmedEnds(s: string)
    ensures TrimSpace(s) != "" ==> !IsSpace(TrimSpace(s)[0]) && !IsSpace(TrimSpace(s)[|TrimSpace(s)| - 1])
    decreases |s|
  {
    if s != "" && IsSpace(s[0]) { TrimmedEnds(s[1..]); }
    else if s != "" && IsSpace(s[|s| - 1]) { TrimmedEnds(s[..|s| - 1]); }
  }

  function Bytes(input: Input): (s: string)
    ensures |s| <= |input|
  {
    if input == [] then ""
    else
      var e := input[|input| - 1];
      Bytes(input[..|input| - 1]) + if e.Byte? then [e.c] else []
  }

  /** Position k ends the header: the first newline, with no failed read before it, and
      with at most 256 bytes before it. */
  ghost predicate EndsHeader(input: Input, k: int) {
    && 0 <= k < |input| && input[k] == NEWLINE
    && (forall j :: 0 <= j < k ==> input[j] != NEWLINE && input[j] != Broken)
    && |Bytes(input[..k])| <= MAX_HEADER
  }

  lemma HeaderEndUnique(input: Input, j: int, k: int)
    requires EndsHeader(input, j) && EndsHeader(input, k)
    ensures j == k
  {
  }

  /** The line that readLineRaw returns for an input, as a function. */
  ghost function LineOf(input: Input): Result {
    if exists k :: EndsHeader(input, k) then
      var k :| EndsHeader(input, k);
      Line(TrimSpace(Bytes(input[..k])))
    else Error
  }

  class Conn {
    var input: Input

    /** Reads one byte, like net.Conn.Read with a buffer of length one. */
    method Read() returns (e: Event)
      modifies this
      ensures old(input) == [] ==> e == Broken && input == []
      ensures old(input) != [] ==> e == old(input)[0] && input == old(input)[1..]
    {
      if input == [] { return Broken; }
      e, input := input[0], input[1..];
    }
  }

  /** readLineRaw: succeeds exactly if there is a header, and then consumes it and its
      newline and nothing else. */
  method ReadLineRaw(conn: Conn) returns (r: Result)
    modifies conn
    ensures r == LineOf(old(conn.input))
    ensures r.Line? <==> exists k :: EndsHeader(old(conn.input), k)
    ensures forall k :: EndsHeader(old(conn.input), k) ==>
              r == Line(TrimSpace(Bytes(old(conn.input)[..k]))) && conn.input == old(conn.input)[k + 1..]
    ensures exists n :: 0 <= n <= |old(conn.input)| && conn.input == old(conn.input)[n..]
  {
    ghost var all := conn.input;
    ghost var n := 0;
    var buf := "";
    while true
      invariant 0 <= n <= |all| && conn.input == all[n..]
      invariant forall j :: 0 <= j < n ==> all[j] != NEWLINE && all[j] != Broken
      invariant buf == Bytes(all[..n]) && |buf| <= MAX_HEADER
      decreases |all| - n
    {
      var e := conn.Read();
      if e == Broken { return Error; }
      assert e == all[n];
      if e == NEWLINE {
        assert EndsHeader(all, n);
        return Line(TrimSpace(buf));
      }
      assert all[..n + 1][..n] == all[..n];
      n := n + 1;
      if e.Byte? {
        buf := buf + [e.c];
        if |buf| > MAX_HEADER {
          forall k | EndsHeader(all, k) ensures false { BytesGrow(all, n, k); }
          return Error;
        }
      }
    }
  }

  lemma {:induction false} BytesGrow(input: Input, n: int, k: int)
    requires 0 <= n <= k <= |input|
    ensures |Bytes(input[..n])| <= |Bytes(input[..k])|
    decreases k
  {
    if n < k {
      BytesGrow(input, n, k - 1);
      assert input[..k][..k - 1] == input[..k - 1];
    }
  }

  // ---------- The agent's header ----------

  function AsInput(s: string): Input {
    seq(|s|, i requires 0 <= i < |s| => Byte(s[i]))
  }

  lemma {:induction false} BytesOfInput(s: string)
    ensures Bytes(AsInput(s)) == s
  {
    if s != "" {
      BytesOfInput(s[..|s| - 1]);
      assert AsInput(s)[..|s| - 1] == AsInput(s[..|s| - 1]);
    }
  }

  /** A line is read if and only if it has at most 256 bytes before its newline, whatever they
      are and whatever follows. */
  lemma LineLimitIff(s: string, payload: Input)
    requires '\n' !in s
    ensures LineOf(AsInput(s + "\n") + payload) == if |s| <= 256 then Line(TrimSpace(s)) else Error
  {
    var input := AsInput(s + "\n") + payload;
    LineEndsIff(s, payload, |s|);
    forall k ensures EndsHeader(input, k) <==> k == |s| && |s| <= 256 { LineEndsIff(s, payload, k); }
    assert Bytes(input[..|s|]) == s;
  }

  lemma LineEndsIff(s: string, payload: Input, k: int)
    requires '\n' !in s
    ensures var input := AsInput(s + "\n") + payload;
            Bytes(input[..|s|]) == s && (EndsHeader(input, k) <==> k == |s| && |s| <= 256)
  {
    var input := AsInput(s + "\n") + payload;
    assert input[..|s|] == AsInput(s);
    BytesOfInput(s);
    assert input[|s|] == NEWLINE;
    forall j | 0 <= j < |s| ensures input[j] == Byte(s[j]) && s[j] != '\n' { assert s[j] in s; }
  }

  /** The header for a port, as the agent writes it. */
  function Header(port: nat): string {
    Decimal(port) + "\n"
  }

  lemma {:induction false} DigitsStay(s: string)
    requires AllDigits(s)
    ensures TrimSpace(s) == s
  {
  }

  lemma DigitsBeforeNewline(port: nat, payload: Input)
    requires port < 0x1_0000
    ensures var input := AsInput(Header(port)) + payload;
            Bytes(input[..|Decimal(port)|]) == Decimal(port) && EndsHeader(input, |Decimal(port)|)
  {
    assert Pow10(5) == 100000;
    DecimalLength(port, 5);
    LineEndsIff(Decimal(port), payload, |Decimal(port)|);
  }

  /** Whatever follows it on the channel, the header of a 16-bit port reads back as the
      daemon's key for that port, and the payload is untouched. */
  lemma HeaderReadsBack(port: nat, payload: Input)
    requires port < 0x1_0000
    ensures var input := AsInput(Header(port)) + payload;
            EndsHeader(input, |Decimal(port)|)
            && TrimSpace(Bytes(input[..|Decimal(port)|])) == Decimal(port)
            && input[|Decimal(port)| + 1..] == payload
  {
    DigitsBeforeNewline(port, payload);
    DigitsStay(Decimal(port));
  }

  lemma LineOfHeader(port: nat)
    requires port < 0x1_0000
    ensures LineOf(AsInput(Header(port))) == Line(Decimal(port))
  {
    var input := AsInput(Header(port));
    assert input + [] == input;
    HeaderReadsBack(port, []);
    forall k | EndsHeader(input, k) ensures k == |Decimal(port)| { HeaderEndUnique(input, k, |Decimal(port)|); }
  }

  /** A header without its newline is never taken for one. */
  lemma CutHeaderFails(port: nat, n: nat)
    requires n <= |Decimal(port)|
    ensures LineOf(AsInput(Header(port)[..n])) == Error
  {
  }
}
