/** The serialized RPC between daemon and agent: the response ID is never compared with
    the request ID (cmd/aetheria/main.go:245-291 and cmd/aetheria-agent/main.go:182-207,
    349-359). */
module Rpc {
  import opened Options

  /** A response line: the ID it bears, or the rest of a line whose beginning was consumed
      by a read that then timed out. */
  datatype Line = Id(id: nat) | Garbage

  /** How one call ends: the write fails; a response line is read; the read times out with
      no part of a line read; or it times out inside a line. */
  datatype Outcome = WriteFails | Answers | TimesOut | TimesOutMidLine

  predicate LosesResponse(o: Outcome) { o == TimesOut || o == TimesOutMidLine }

  // ---------- Calls as a function of the outstanding responses ----------

  /** The responses still to come on the connection, after a call with this ID, and the ID
      on the response the caller gets, if it gets one. Responses come in request order. */
  function Exchange(outstanding: seq<Line>, id: nat, o: Outcome): (seq<Line>, Option<nat>) {
    var q := outstanding + [Id(id)];
    match o
    case WriteFails => (outstanding, None)
    case Answers => (q[1..], if q[0].Id? then Some(q[0].id) else None)
    case TimesOut => (q, None)
    case TimesOutMidLine => (q[0 := Garbage], None)
  }

  /** All calls on one connection, from the counter value at its start: what is
      outstanding at the end, and what each caller got. Call i (from 0) has ID
      start + i + 1. */
  function Calls(start: nat, outcomes: seq<Outcome>): (r: (seq<Line>, seq<Option<nat>>))
    ensures |r.1| == |outcomes|
  {
    if outcomes == [] then ([], [])
    else
      var n := |outcomes| - 1;
      var (q, results) := Calls(start, outcomes[..n]);
      var (q', result) := Exchange(q, start + n + 1, outcomes[n]);
      (q', results + [result])
  }

  function Losses(outcomes: seq<Outcome>): nat {
    if outcomes == [] then 0
    else Losses(outcomes[..|outcomes| - 1]) + if LosesResponse(outcomes[|outcomes| - 1]) then 1 else 0
  }

  /** Every call that timed out leaves one response behind, of an earlier ID. */
  lemma {:induction false} OutstandingAreLosses(start: nat, outcomes: seq<Outcome>)
    ensures |Calls(start, outcomes).0| == Losses(outcomes)
    ensures forall k :: 0 <= k < |Calls(start, outcomes).0| && Calls(start, outcomes).0[k].Id? ==>
              start < Calls(start, outcomes).0[k].id <= start + |outcomes|
  {
    if outcomes != [] {
      OutstandingAreLosses(start, outcomes[..|outcomes| - 1]);
    }
  }

  lemma {:induction false} ResultOf(start: nat, outcomes: seq<Outcome>, i: nat)
    requires i < |outcomes|
    ensures Calls(start, outcomes).1[i] ==
            Exchange(Calls(start, outcomes[..i]).0, start + i + 1, outcomes[i]).1
    decreases |outcomes|
  {
    var n := |outcomes| - 1;
    if i < n {
      assert outcomes[..n][..i] == outcomes[..i];
      ResultOf(start, outcomes[..n], i);
    }
  }

  /** A caller that reads a line has the response to its own request exactly if no earlier
      call on the connection timed out; and while none has, nothing is outstanding. */
  lemma PairedIff(start: nat, outcomes: seq<Outcome>, i: nat)
    requires i < |outcomes| && outcomes[i] == Answers
    ensures Calls(start, outcomes).1[i] == Some(start + i + 1) <==> Losses(outcomes[..i]) == 0
    ensures Losses(outcomes[..i]) == 0 ==> Calls(start, outcomes[..i]).0 == []
  {
    ResultOf(start, outcomes, i);
    OutstandingAreLosses(start, outcomes[..i]);
  }

  /** What the j-th caller to read a line gets, counting from 0, when these responses are
      outstanding and the next call has this ID. */
  function ReadAfter(outstanding: seq<Line>, next: nat, j: nat): Option<nat> {
    if j < |outstanding| then (if outstanding[j].Id? then Some(outstanding[j].id) else None)
    else Some(next + j - |outstanding|)
  }

  /** The responses outstanding after so many calls that read a line: the first go, and those
      of the calls follow. */
  function Queue(outstanding: seq<Line>, next: nat, calls: nat): seq<Line> {
    seq(|outstanding|, k requires 0 <= k < |outstanding| =>
      if calls + k < |outstanding| then outstanding[calls + k] else Id(next + calls + k - |outstanding|))
  }

  lemma QueueNext(outstanding: seq<Line>, next: nat, calls: nat)
    ensures Exchange(Queue(outstanding, next, calls), next + calls, Answers) ==
            (Queue(outstanding, next, calls + 1), ReadAfter(outstanding, next, calls))
  {
    var q := Queue(outstanding, next, calls) + [Id(next + calls)];
    assert q[1..] == Queue(outstanding, next, calls + 1);
  }

  /** After any calls, time-outs among them, every later caller reads the response of the call
      as many calls earlier as time-outs there were, for as long as the connection lasts. */
  lemma {:induction false} ShiftedByLosses(start: nat, prefix: seq<Outcome>, answered: nat)
    ensures var q := Calls(start, prefix).0;
            var os := prefix + seq(answered, _ => Answers);
            && |q| == Losses(prefix)
            && Calls(start, os).0 == Queue(q, start + |prefix| + 1, answered)
            && forall i :: |prefix| <= i < |os| ==>
                 Calls(start, os).1[i] == ReadAfter(q, start + |prefix| + 1, i - |prefix|)
  {
    var q := Calls(start, prefix).0;
    var os := prefix + seq(answered, _ => Answers);
    OutstandingAreLosses(start, prefix);
    if answered == 0 {
      assert os == prefix && Queue(q, start + |prefix| + 1, 0) == q;
    } else {
      var before := prefix + seq(answered - 1, _ => Answers);
      assert os[..|os| - 1] == before;
      ShiftedByLosses(start, prefix, answered - 1);
      QueueNext(q, start + |prefix| + 1, answered - 1);
    }
  }

  /** In particular, after one time-out with nothing read every later caller gets its
      predecessor's response. */
  lemma ShiftedByOne(start: nat, prefix: seq<Outcome>, answered: nat)
    requires Losses(prefix) == 0
    ensures var os := prefix + [TimesOut] + seq(answered, _ => Answers);
            forall i :: |prefix| < i < |os| ==> Calls(start, os).1[i] == Some(start + i)
  {
    var late := prefix + [TimesOut];
    OutstandingAreLosses(start, prefix);
    assert late[..|prefix|] == prefix;
    assert Calls(start, late).0 == [Id(start + |prefix| + 1)];
    ShiftedByLosses(start, late, answered);
  }

  /** A time-out inside a line costs the next caller its answer too: it reads the rest of that
      line, which does not parse; the later ones get their predecessor's response. */
  lemma CutLineIsUnreadable(start: nat, prefix: seq<Outcome>, answered: nat)
    requires Losses(prefix) == 0 && answered > 0
    ensures var os := prefix + [TimesOutMidLine] + seq(answered, _ => Answers);
            && Calls(start, os).1[|prefix| + 1] == None
            && forall i :: |prefix| + 1 < i < |os| ==> Calls(start, os).1[i] == Some(start + i)
  {
    var late := prefix + [TimesOutMidLine];
    OutstandingAreLosses(start, prefix);
    assert late[..|prefix|] == prefix;
    assert Calls(start, late).0 == [Garbage];
    ShiftedByLosses(start, late, answered);
  }

  // ---------- The code ----------

  /** One agent connection: a request stream, a response stream, and the agent's loop. */
  class Connection {
    var toAgent: seq<nat>   // IDs of requests written and not yet handled
    var toHost: seq<Line>   // response lines not yet read

    constructor ()
      ensures Outstanding() == []
    {
      toAgent, toHost := [], [];
    }

    /** All responses still to come, in order. */
    function Outstanding(): seq<Line>
      reads this
    {
      toHost + seq(|toAgent|, i requires 0 <= i < |toAgent| reads this => Id(toAgent[i]))
    }

    /** handleConnection: takes one request, handles it, writes the response with its ID. */
    method AgentServesOne()
      requires toAgent != []
      modifies this
      ensures Outstanding() == old(Outstanding())
      ensures |toAgent| == |old(toAgent)| - 1 && |toHost| == |old(toHost)| + 1
    {
      var id := toAgent[0];
      toAgent := toAgent[1..];
      toHost := toHost + [Id(id)];
    }

    /** The agent serves some of the requests. */
    method AgentServesSome()
      modifies this
      ensures Outstanding() == old(Outstanding())
    {
      while toAgent != []
        invariant Outstanding() == old(Outstanding())
        decreases |toAgent|
      {
        if * { return; }
        AgentServesOne();
      }
    }
  }

  class Daemon {
    var conn: Connection?
    var idCounter: nat

    constructor ()
      ensures conn == null && idCounter == 0
    {
      conn, idCounter := null, 0;
    }

    /** The accept loop installs a new connection under the lock; the counter goes on. */
    method Reconnect()
      modifies this`conn
      ensures conn != null && fresh(conn) && conn.Outstanding() == [] && idCounter == old(idCounter)
    {
      conn := new Connection();
    }

    /** sendToAgent, with the lock held from beginning to end. The caller's result and what
        stays outstanding are those of one Exchange; without an agent nothing happens. */
    method SendToAgent() returns (r: Option<nat>, ghost o: Outcome)
      modifies this`idCounter, if conn == null then {} else {conn}
      ensures conn == old(conn)
      ensures conn == null ==> r == None && idCounter == old(idCounter)
      ensures conn != null ==>
                idCounter == old(idCounter) + 1
                && (conn.Outstanding(), r) == Exchange(old(conn.Outstanding()), idCounter, o)
      ensures r.Some? ==> o == Answers
    {
      if conn == null { return None, WriteFails; }
      idCounter := idCounter + 1;
      if * { return None, WriteFails; }
      conn.toAgent := conn.toAgent + [idCounter];
      ghost var q := old(conn.Outstanding()) + [Id(idCounter)];
      assert conn.Outstanding() == q;
      conn.AgentServesSome();
      var late: bool, midLine: bool := *, *;
      if conn.toHost == [] || late {
        if conn.toHost != [] && midLine {
          conn.toHost := conn.toHost[0 := Garbage];
          assert conn.Outstanding() == q[0 := Garbage];
          return None, TimesOutMidLine;
        }
        return None, TimesOut;
      }
      var line := conn.toHost[0];
      conn.toHost := conn.toHost[1..];
      assert line == q[0] && conn.Outstanding() == q[1..];
      o := Answers;
      r := if line.Id? then Some(line.id) else None;
    }

    /** All calls on one connection, from its installation: what each caller gets and what
        stays outstanding are given by Calls. */
    method CallRepeatedly(n: nat) returns (results: seq<Option<nat>>, ghost outcomes: seq<Outcome>)
      modifies this
      ensures conn != null && fresh(conn) && |outcomes| == n && idCounter == old(idCounter) + n
      ensures (conn.Outstanding(), results) == Calls(old(idCounter), outcomes)
    {
      Reconnect();
      results, outcomes := [], [];
      for i := 0 to n
        invariant conn != null && fresh(conn) && |outcomes| == i && idCounter == old(idCounter) + i
        invariant (conn.Outstanding(), results) == Calls(old(idCounter), outcomes)
      {
        var r;
        ghost var o;
        r, o := SendToAgent();
        assert (outcomes + [o])[..i] == outcomes;
        results, outcomes := results + [r], outcomes + [o];
      }
    }
  }
}
