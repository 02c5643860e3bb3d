/** Which reply a tunnel client reads: its requests share one response stream with all other
    calls, and the daemon does not compare IDs (cmd/aetheria/main.go:258-291 and 1061-1076,
    cmd/aetheria-agent/portforward.go:51-91). */
module TunnelReplies {
  import opened HeaderReader
  import opened Options
  import opened Tunnel
  import Rpc

  // ---------- The stream of responses ----------

  /** The requests whose response has not been read, in order. */
  function Asked(s: Sys): seq<Request> {
    Answered(s.responses) + s.requests
  }

  function Answered(rs: seq<Response>): seq<Request> {
    seq(|rs|, i requires 0 <= i < |rs| => rs[i].to)
  }

  /** The caller's request is the last one, and one response is outstanding for each call on
      the connection that timed out. */
  ghost predicate WireOk(s: Sys) {
    && |Asked(s)| == s.lost + (if s.caller.Some? then 1 else 0)
    && (forall i :: 0 <= i < |Asked(s)| ==> Asked(s)[i].id <= s.idCounter)
    && (forall i, j :: 0 <= i < j < |Asked(s)| ==> Asked(s)[i].id < Asked(s)[j].id)
    && (s.caller.Some? ==>
          && Asked(s)[s.lost] == Request(s.idCounter, s.caller.value)
          && Outstanding(s) == s.before + [Rpc.Id(s.idCounter)])
  }

  /** Steps that leave the connection alone. */
  predicate OffWire(step: Step) {
    step.Connect? || step.CallFails? || step.Accept? || step.Poll? || step.GiveUp?
  }

  lemma OffWireKeeps(s: Sys, step: Step)
    requires Enabled(s, step) && OffWire(step)
    ensures var t := Apply(s, step);
            && Asked(t) == Asked(s) && Outstanding(t) == Outstanding(s) && t.responses == s.responses
            && t.requests == s.requests && t.caller == s.caller && t.before == s.before && t.lost == s.lost
            && s.idCounter <= t.idCounter && (step.CallFails? || t.idCounter == s.idCounter) && t.foreign == s.foreign
  {
  }

  lemma SentOnWire(s: Sys, who: Caller)
    ensures Asked(Sent(s, who)) == Asked(s) + [Request(s.idCounter + 1, who)]
    ensures Outstanding(Sent(s, who)) == Outstanding(s) + [Rpc.Id(s.idCounter + 1)]
  {
  }

  lemma RespondedOnWire(s: Sys, reply: Reply)
    requires s.requests != [] && reply != Cut
    ensures Asked(Responded(s, reply)) == Asked(s) && Outstanding(Responded(s, reply)) == Outstanding(s)
  {
  }

  predicate ByAgent(step: Step) {
    step.AgentFails? || step.AgentCutOff? || step.AgentConnects? || step.AgentAnswersOther?
  }

  /** The agent's steps move a request along the stream and change nothing else on it. */
  lemma AgentOnWire(s: Sys, step: Step)
    requires Enabled(s, step) && ByAgent(step)
    ensures var t := Apply(s, step);
            && Asked(t) == Asked(s) && Outstanding(t) == Outstanding(s)
            && t.caller == s.caller && t.before == s.before && t.lost == s.lost && t.idCounter == s.idCounter
            && t.clients == s.clients && t.foreign == s.foreign
  {
    RespondedOnWire(s, Success);
    RespondedOnWire(s, Failure);
  }

  lemma ReadOnWire(s: Sys)
    requires Enabled(s, Read)
    ensures Asked(ApplyRead(s)) == Asked(s)[1..] && Outstanding(ApplyRead(s)) == Outstanding(s)[1..]
  {
    var t := ApplyRead(s);
    assert t.responses == s.responses[1..] && t.requests == s.requests;
    assert Answered(t.responses) == Answered(s.responses)[1..];
    assert LinesFor(t.responses) == LinesFor(s.responses)[1..];
  }

  lemma TimeOutOnWire(s: Sys, midLine: bool)
    requires Enabled(s, TimeOut(midLine))
    ensures Asked(ApplyTimeOut(s, midLine)) == Asked(s)
    ensures Outstanding(s) == [] ==> !midLine
    ensures if midLine then Outstanding(ApplyTimeOut(s, midLine)) == Outstanding(s)[0 := Rpc.Garbage]
            else Outstanding(ApplyTimeOut(s, midLine)) == Outstanding(s)
  {
    if midLine {
      assert LinesFor(ApplyTimeOut(s, midLine).responses) == LinesFor(s.responses)[0 := Rpc.Garbage];
    }
  }

  predicate EndsCall(step: Step) { step.Read? || step.TimeOut? }

  lemma SentKeepsWire(s: Sys, who: Caller, t: Sys)
    requires WireOk(s) && s.caller == None && t == Sent(s, who).(clients := t.clients)
    ensures WireOk(t)
  {
    SentOnWire(s, who);
    assert Asked(t) == Asked(Sent(s, who)) && Outstanding(t) == Outstanding(Sent(s, who));
  }

  lemma EndOfCallKeepsWire(s: Sys, step: Step)
    requires WireOk(s) && Enabled(s, step) && EndsCall(step)
    ensures WireOk(Apply(s, step))
  {
    match step
    case Read => ReadOnWire(s);
    case TimeOut(midLine) => TimeOutOnWire(s, midLine);
  }

  lemma StepKeepsWire(s: Sys, step: Step)
    requires WireOk(s) && Enabled(s, step)
    ensures WireOk(Apply(s, step))
  {
    if OffWire(step) { OffWireKeeps(s, step); }
    else if ByAgent(step) { AgentOnWire(s, step); }
    else {
      match step
      case Call(c) => SentKeepsWire(s, ForClient(c), Apply(s, step));
      case OtherCall => SentKeepsWire(s, Other, Apply(s, step));
      case Read => EndOfCallKeepsWire(s, step);
      case TimeOut(_) => EndOfCallKeepsWire(s, step);
      case Reconnect =>
    }
  }

  lemma {:induction false} ReachedWire(steps: seq<Step>)
    requires Exec(steps).Some?
    ensures WireOk(Exec(steps).value)
  {
    if steps != [] {
      var before := steps[..|steps| - 1];
      ReachedWire(before);
      StepKeepsWire(Exec(before).value, steps[|steps| - 1]);
    }
  }

  function OutcomeOf(step: Step): Rpc.Outcome
    requires EndsCall(step)
  {
    match step
    case Read => Rpc.Answers
    case TimeOut(midLine) => if midLine then Rpc.TimesOutMidLine else Rpc.TimesOut
  }

  /** However agent, clients and channels run in between, a call is one exchange on what was
      outstanding when it began. */
  lemma CallIsExchange(steps: seq<Step>, s: Sys, step: Step)
    requires Exec(steps) == Some(s) && Enabled(s, step) && EndsCall(step)
    ensures Outstanding(Apply(s, step)) == Rpc.Exchange(s.before, s.idCounter, OutcomeOf(step)).0
    ensures step == Read ==>
              Rpc.Exchange(s.before, s.idCounter, Rpc.Answers).1 ==
              if s.responses[0].reply == Cut then None else Some(s.responses[0].to.id)
    ensures |s.before| == s.lost
  {
    ReachedWire(steps);
    if step == Read { ReadOnWire(s); } else { TimeOutOnWire(s, step.midLine); }
    assert |Outstanding(s)| == |Asked(s)|;
  }

  /** The caller reads the response to its own request if and only if no call on this
      connection has timed out. */
  lemma ReplyIsOwnIff(steps: seq<Step>, s: Sys)
    requires Exec(steps) == Some(s) && Enabled(s, Read)
    ensures s.responses[0].to == Request(s.idCounter, s.caller.value) <==> s.lost == 0
  {
    ReachedWire(steps);
    assert Asked(s)[0] == s.responses[0].to;
  }

  // ---------- One channel per "connected" ----------

  predicate DialledFor(s: Sys, ch: nat, c: nat) {
    ch < |s.channels| && s.channels[ch].client == c
  }

  /** Dialled for c, with the whole header of its port. */
  predicate Opened(s: Sys, ch: nat, c: nat) {
    c in s.clients && DialledFor(s, ch, c) && s.channels[ch].header == AsInput(Header(s.clients[c].port))
  }

  /** The client has read a reply without an error and has not given up. */
  predicate Connected(p: Phase) {
    p.Polling? || p.Bridged?
  }

  ghost predicate HasChannel(s: Sys, c: nat) {
    exists ch: nat :: Opened(s, ch, c)
  }

  predicate AsksFor(s: Sys, i: int, c: nat) {
    0 <= i < |Asked(s)| && Asked(s)[i].from == ForClient(c)
  }

  predicate WaitsToBeServed(s: Sys, c: nat) {
    exists i :: 0 <= i < |s.requests| && s.requests[i].from == ForClient(c)
  }

  /** A client asks once, with the lock. */
  ghost predicate AskersOk(s: Sys) {
    && (forall i, c :: AsksFor(s, i, c) ==> c in s.clients && s.clients[c].phase != Arrived)
    && (forall i, j, c :: AsksFor(s, i, c) && AsksFor(s, j, c) ==> i == j)
    && (forall c :: c in s.clients && s.clients[c].phase == Asking ==> s.caller == Some(ForClient(c)))
    && (forall c :: c in s.foreign ==> c in s.clients && s.clients[c].phase != Arrived && s.clients[c].phase != Asking)
    && (s.caller.Some? && s.caller.value.ForClient? ==>
          s.caller.value.c in s.clients && s.clients[s.caller.value.c].phase == Asking)
  }

  /** Channels are dialled when a request is served, at most one for each client. */
  ghost predicate DialsOk(s: Sys) {
    && (forall ch :: 0 <= ch < |s.channels| ==>
          var c := s.channels[ch].client;
          c in s.clients && s.clients[c].phase != Arrived && !WaitsToBeServed(s, c))
    && (forall ch, dh | 0 <= ch < |s.channels| && 0 <= dh < |s.channels| ::
          s.channels[ch].client == s.channels[dh].client ==> ch == dh)
  }

  /** The agent's reply to c tells whether it dialled a channel for c. */
  ghost predicate RepliesOk(s: Sys) {
    forall i :: 0 <= i < |s.responses| ==> ReplyOk(s, s.responses[i])
  }

  ghost predicate ReplyOk(s: Sys, r: Response) {
    r.to.from.ForClient? ==>
      && (r.reply == Success ==> HasChannel(s, r.to.from.c))
      && (r.reply == Failure ==> !HasChannel(s, r.to.from.c))
  }

  ghost predicate ConnectedOk(s: Sys) {
    forall c :: c in s.clients && Connected(s.clients[c].phase) && c !in s.foreign ==> HasChannel(s, c)
  }

  ghost predicate PairingOk(s: Sys) {
    AskersOk(s) && DialsOk(s) && RepliesOk(s) && ConnectedOk(s)
  }

  // ---------- Every step keeps it ----------

  /** HasChannel depends on the channels and ports alone. */
  lemma OthersKeepChannels(s: Sys, t: Sys, c: nat)
    requires c in s.clients && c in t.clients && t.clients[c].port == s.clients[c].port
    requires s.channels <= t.channels
    requires forall ch :: |s.channels| <= ch < |t.channels| ==> t.channels[ch].client != c
    ensures HasChannel(t, c) <==> HasChannel(s, c)
  {
    forall ch: nat ensures Opened(t, ch, c) <==> Opened(s, ch, c) {
      if ch < |s.channels| { assert t.channels[ch] == s.channels[ch]; }
    }
  }

  ghost predicate SamePorts(s: Sys, t: Sys) {
    forall c :: c in s.clients ==> c in t.clients && t.clients[c].port == s.clients[c].port
  }

  /** Responses come from clients that have asked. */
  lemma ResponderAsked(s: Sys, i: nat)
    requires AskersOk(s) && i < |s.responses| && s.responses[i].to.from.ForClient?
    ensures s.responses[i].to.from.c in s.clients && AsksFor(s, i, s.responses[i].to.from.c)
  {
    assert AsksFor(s, i, s.responses[i].to.from.c);
  }

  lemma RepliesStay(s: Sys, t: Sys)
    requires AskersOk(s) && RepliesOk(s) && SamePorts(s, t) && t.channels == s.channels
    requires forall i :: 0 <= i < |t.responses| ==> t.responses[i].reply == Cut || t.responses[i] in s.responses
    ensures RepliesOk(t)
  {
    forall i | 0 <= i < |t.responses| ensures ReplyOk(t, t.responses[i]) {
      var r := t.responses[i];
      if r.reply != Cut && r.to.from.ForClient? {
        var k :| 0 <= k < |s.responses| && s.responses[k] == r;
        ResponderAsked(s, k);
        assert ReplyOk(s, s.responses[k]);
        OthersKeepChannels(s, t, r.to.from.c);
      }
    }
  }

  lemma ConnectedStay(s: Sys, t: Sys)
    requires ConnectedOk(s) && SamePorts(s, t) && t.channels == s.channels && s.foreign <= t.foreign
    requires forall c :: c in t.clients && Connected(t.clients[c].phase) && c !in t.foreign ==>
               c in s.clients && (Connected(s.clients[c].phase) || HasChannel(s, c))
    ensures ConnectedOk(t)
  {
    forall c | c in t.clients && Connected(t.clients[c].phase) && c !in t.foreign ensures HasChannel(t, c) {
      OthersKeepChannels(s, t, c);
    }
  }

  lemma OffWireKeepsAskers(s: Sys, step: Step)
    requires AskersOk(s) && DialsOk(s) && Enabled(s, step) && OffWire(step)
    ensures AskersOk(Apply(s, step)) && DialsOk(Apply(s, step))
  {
    OffWireKeeps(s, step);
    var t := Apply(s, step);
    forall i, c ensures AsksFor(t, i, c) <==> AsksFor(s, i, c) {}
    forall c ensures WaitsToBeServed(t, c) <==> WaitsToBeServed(s, c) {}
  }

  lemma OffWireKeepsPairing(s: Sys, step: Step)
    requires PairingOk(s) && Enabled(s, step) && OffWire(step)
    ensures PairingOk(Apply(s, step))
  {
    OffWireKeeps(s, step);
    OffWireKeepsAskers(s, step);
    RepliesStay(s, Apply(s, step));
    ConnectedStay(s, Apply(s, step));
  }

  lemma CallKeepsPairing(s: Sys, c: nat)
    requires PairingOk(s) && Enabled(s, Call(c))
    ensures PairingOk(Apply(s, Call(c)))
  {
    var t := Apply(s, Call(c));
    SentOnWire(s, ForClient(c));
    assert Asked(t) == Asked(s) + [Request(s.idCounter + 1, ForClient(c))];
    forall i, d ensures AsksFor(t, i, d) <==> AsksFor(s, i, d) || (i == |Asked(s)| && d == c) {}
    forall d ensures WaitsToBeServed(t, d) ==> WaitsToBeServed(s, d) || d == c {}
    RepliesStay(s, t);
    ConnectedStay(s, t);
  }

  lemma OtherCallKeepsPairing(s: Sys)
    requires PairingOk(s) && Enabled(s, OtherCall)
    ensures PairingOk(Apply(s, OtherCall))
  {
    var t := Apply(s, OtherCall);
    SentOnWire(s, Other);
    forall i, d ensures AsksFor(t, i, d) <==> AsksFor(s, i, d) {}
    forall d ensures WaitsToBeServed(t, d) ==> WaitsToBeServed(s, d) {}
    RepliesStay(s, t);
    ConnectedStay(s, t);
  }

  /** Serving takes the first request off; nobody else's is affected. */
  lemma RespondedKeepsAskers(s: Sys, reply: Reply)
    requires AskersOk(s) && s.requests != [] && reply != Cut
    ensures AskersOk(Responded(s, reply))
    ensures forall c :: WaitsToBeServed(Responded(s, reply), c) <==>
              WaitsToBeServed(s, c) && s.requests[0].from != ForClient(c)
  {
    var t := Responded(s, reply);
    RespondedOnWire(s, reply);
    forall i, c ensures AsksFor(t, i, c) <==> AsksFor(s, i, c) {}
    forall c ensures WaitsToBeServed(t, c) <==> WaitsToBeServed(s, c) && s.requests[0].from != ForClient(c) {
      if i :| 0 <= i < |s.requests| && s.requests[i].from == ForClient(c) {
        assert AsksFor(s, |s.responses| + i, c);
        if i == 0 {
          if j :| 0 <= j < |t.requests| && t.requests[j].from == ForClient(c) {
            assert AsksFor(s, |s.responses| + j + 1, c);
          }
        } else {
          assert t.requests[i - 1].from == ForClient(c);
          assert s.requests[0].from == ForClient(c) ==> AsksFor(s, |s.responses|, c);
        }
      }
      if j :| 0 <= j < |t.requests| && t.requests[j].from == ForClient(c) {
        assert s.requests[j + 1].from == ForClient(c);
      }
    }
  }

  lemma NewReplyOk(s: Sys, t: Sys, r: Response)
    requires AskersOk(s) && RepliesOk(s) && SamePorts(s, t) && s.channels <= t.channels
    requires t.responses == s.responses + [r] && ReplyOk(t, r)
    requires forall i, ch :: 0 <= i < |s.responses| && |s.channels| <= ch < |t.channels| ==>
               s.responses[i].to.from != ForClient(t.channels[ch].client)
    ensures RepliesOk(t)
  {
    forall i | 0 <= i < |s.responses| && s.responses[i].to.from.ForClient? ensures ReplyOk(t, t.responses[i]) {
      ResponderAsked(s, i);
      assert ReplyOk(s, s.responses[i]);
      OthersKeepChannels(s, t, s.responses[i].to.from.c);
    }
  }

  /** A client whose request waits has no channel. */
  lemma NoneYet(s: Sys)
    requires AskersOk(s) && DialsOk(s) && ServesClient(s)
    ensures var c := s.requests[0].from.c;
            WaitsToBeServed(s, c) && !HasChannel(s, c)
            && forall i :: 0 <= i < |s.responses| ==> s.responses[i].to.from != ForClient(c)
  {
    var c := s.requests[0].from.c;
    assert WaitsToBeServed(s, c) && AsksFor(s, |s.responses|, c);
    forall i | 0 <= i < |s.responses| ensures AsksFor(s, i, c) <==> s.responses[i].to.from == ForClient(c) {}
  }

  lemma UndialledKeepsPairing(s: Sys, reply: Reply)
    requires PairingOk(s) && s.requests != [] && reply != Cut
    requires s.requests[0].from == Other || (ServesClient(s) && reply == Failure)
    ensures PairingOk(Responded(s, reply))
  {
    var t := Responded(s, reply);
    RespondedKeepsAskers(s, reply);
    if ServesClient(s) {
      NoneYet(s);
      OthersKeepChannels(s, t, s.requests[0].from.c);
    }
    NewReplyOk(s, t, Response(s.requests[0], reply));
    ConnectedStay(s, t);
  }

  lemma DialKeepsDials(s: Sys, header: Input, reply: Reply)
    requires AskersOk(s) && DialsOk(s) && ServesClient(s) && reply != Cut
    ensures AskersOk(Served(s, header, reply)) && DialsOk(Served(s, header, reply))
  {
    NoneYet(s);
    var c := s.requests[0].from.c;
    assert AsksFor(s, |s.responses|, c);
    var u := Dialled(s, Channel(header, c));
    forall i, d ensures AsksFor(u, i, d) <==> AsksFor(s, i, d) {}
    RespondedKeepsAskers(u, reply);
    forall d ensures WaitsToBeServed(u, d) <==> WaitsToBeServed(s, d) {}
  }

  lemma DialKeepsPairing(s: Sys, header: Input, reply: Reply)
    requires PairingOk(s) && ServesClient(s) && reply != Cut
    requires reply == Success <==> header == AsInput(HeaderFor(s))
    ensures PairingOk(Served(s, header, reply))
  {
    var t, c := Served(s, header, reply), s.requests[0].from.c;
    NoneYet(s);
    DialKeepsDials(s, header, reply);
    assert DialledFor(t, |s.channels|, c);
    assert reply == Success ==> Opened(t, |s.channels|, c);
    assert reply == Failure ==> forall ch: nat :: !Opened(t, ch, c) by {
      forall ch: nat | reply == Failure ensures !Opened(t, ch, c) {
        if ch < |s.channels| { assert t.channels[ch] == s.channels[ch]; assert !Opened(s, ch, c); }
      }
    }
    NewReplyOk(s, t, Response(s.requests[0], reply));
    forall d | d in t.clients && Connected(t.clients[d].phase) && d !in t.foreign ensures HasChannel(t, d) {
      if d != c { OthersKeepChannels(s, t, d); }
    }
  }

  lemma ReadKeepsPairing(s: Sys)
    requires PairingOk(s) && Enabled(s, Read)
    ensures PairingOk(ApplyRead(s))
  {
    var t := ApplyRead(s);
    ReadOnWire(s);
    forall i, c ensures AsksFor(t, i, c) ==> AsksFor(s, i + 1, c) {}
    forall c ensures WaitsToBeServed(t, c) <==> WaitsToBeServed(s, c) {}
    RepliesStay(s, t);
    assert ReplyOk(s, s.responses[0]);
    ConnectedStay(s, t);
  }

  lemma TimeOutKeepsPairing(s: Sys, midLine: bool)
    requires PairingOk(s) && Enabled(s, TimeOut(midLine))
    ensures PairingOk(ApplyTimeOut(s, midLine))
  {
    var t := ApplyTimeOut(s, midLine);
    TimeOutOnWire(s, midLine);
    forall i, c ensures AsksFor(t, i, c) <==> AsksFor(s, i, c) {}
    forall c ensures WaitsToBeServed(t, c) <==> WaitsToBeServed(s, c) {}
    RepliesStay(s, t);
    ConnectedStay(s, t);
  }

  lemma ReconnectKeepsPairing(s: Sys)
    requires PairingOk(s) && Enabled(s, Reconnect)
    ensures PairingOk(Apply(s, Reconnect))
  {
    var t := Apply(s, Reconnect);
    RepliesStay(s, t);
    ConnectedStay(s, t);
  }

  lemma StepKeepsPairing(s: Sys, step: Step)
    requires PairingOk(s) && Enabled(s, step)
    ensures PairingOk(Apply(s, step))
  {
    if OffWire(step) { OffWireKeepsPairing(s, step); } else {
      match step
      case Call(c) => CallKeepsPairing(s, c);
      case OtherCall => OtherCallKeepsPairing(s);
      case AgentFails => UndialledKeepsPairing(s, Failure);
      case AgentCutOff(n) =>
        assert |HeaderFor(s)[..n]| < |HeaderFor(s)|;
        DialKeepsPairing(s, AsInput(HeaderFor(s)[..n]), Failure);
      case AgentConnects => DialKeepsPairing(s, AsInput(HeaderFor(s)), Success);
      case AgentAnswersOther(ok) => UndialledKeepsPairing(s, if ok then Success else Failure);
      case Read => ReadKeepsPairing(s);
      case TimeOut(midLine) => TimeOutKeepsPairing(s, midLine);
      case Reconnect => ReconnectKeepsPairing(s);
    }
  }

  lemma {:induction false} ReachedPairing(steps: seq<Step>)
    requires Exec(steps).Some?
    ensures PairingOk(Exec(steps).value)
  {
    if steps != [] {
      var before := steps[..|steps| - 1];
      ReachedPairing(before);
      StepKeepsPairing(Exec(before).value, steps[|steps| - 1]);
    }
  }

  // ---------- What a "connected" reply means ----------

  /** Behind the "connected" reply to a client's own request is exactly one channel dialled
      for that client, and it carries the header of the client's port. */
  lemma ConnectedMeansOneChannel(steps: seq<Step>, s: Sys, c: nat)
    requires Exec(steps) == Some(s) && c in s.clients && Connected(s.clients[c].phase) && c !in s.foreign
    ensures exists ch: nat :: Opened(s, ch, c) && forall dh: nat :: DialledFor(s, dh, c) ==> dh == ch
  {
    ReachedPairing(steps);
    var ch: nat :| Opened(s, ch, c);
    forall dh: nat | DialledFor(s, dh, c) ensures dh == ch {}
  }

  /** A client reads the reply to its own request if and only if no call on this connection
      has timed out; otherwise it joins those that have read another's. */
  lemma ForeignIff(steps: seq<Step>, s: Sys, c: nat)
    requires Exec(steps) == Some(s) && Enabled(s, Read) && s.caller == Some(ForClient(c))
    ensures c in ApplyRead(s).foreign <==> s.lost != 0
  {
    ReachedWire(steps);
    ReachedPairing(steps);
    ReplyIsOwnIff(steps, s);
    assert AsksFor(s, s.lost, c);
    if s.responses[0].to.from == ForClient(c) { assert AsksFor(s, 0, c); }
  }

  /** A client that reads "connected" has a channel if and only if the agent has by then
      answered the client's own request with "connected". */
  lemma ChannelBehindReplyIff(steps: seq<Step>, s: Sys, c: nat)
    requires Exec(steps) == Some(s) && Enabled(s, Read) && s.caller == Some(ForClient(c))
    ensures HasChannel(ApplyRead(s), c) <==>
            exists i :: 0 <= i < |s.responses|
              && s.responses[i] == Response(Request(s.idCounter, ForClient(c)), Success)
  {
    ReachedWire(steps);
    ReachedPairing(steps);
    OthersKeepChannels(s, ApplyRead(s), c);
    OwnRequest(s, c);
    if s.lost < |s.responses| { AnsweredBySuccess(s, c); }
  }

  /** The request of the calling client is the last one asked; if it has not been answered, no channel
      has been dialled for the client. */
  lemma OwnRequest(s: Sys, c: nat)
    requires WireOk(s) && AskersOk(s) && DialsOk(s) && s.caller == Some(ForClient(c))
    ensures var own := Request(s.idCounter, ForClient(c));
            && (forall i :: 0 <= i < |s.responses| && s.responses[i].to == own ==> i == s.lost)
            && (s.lost < |s.responses| ==> s.responses[s.lost].to == own)
            && (s.lost >= |s.responses| ==> !HasChannel(s, c))
  {
    var own := Request(s.idCounter, ForClient(c));
    assert Asked(s)[s.lost] == own && AsksFor(s, s.lost, c);
    forall i | 0 <= i < |s.responses| && s.responses[i].to == own ensures i == s.lost { assert AsksFor(s, i, c); }
    if s.lost >= |s.responses| {
      assert s.requests[s.lost - |s.responses|] == own;
      assert WaitsToBeServed(s, c);
    }
  }

  lemma AnsweredBySuccess(s: Sys, c: nat)
    requires WireOk(s) && RepliesOk(s) && s.caller == Some(ForClient(c)) && s.lost < |s.responses|
    requires s.responses[s.lost].to == Request(s.idCounter, ForClient(c))
    ensures HasChannel(s, c) <==> s.responses[s.lost].reply == Success
  {
    assert ReplyOk(s, s.responses[s.lost]);
    assert LineFor(s.responses[s.lost]) == Outstanding(s)[s.lost] == Rpc.Id(s.idCounter);
  }

  /** While no call on the connection has timed out, a client that reads its reply polls if and only
      if a channel has been dialled for it, and otherwise is closed; a line that was cut by a
      time-out, whoever reads it, closes the client. */
  lemma PollsIffDialled(steps: seq<Step>, s: Sys, c: nat)
    requires Exec(steps) == Some(s) && Enabled(s, Read) && s.caller == Some(ForClient(c))
    ensures s.lost == 0 ==>
              ApplyRead(s).clients[c].phase == if HasChannel(ApplyRead(s), c) then Polling(0) else Closed
    ensures LineFor(s.responses[0]) == Rpc.Garbage ==> ApplyRead(s).clients[c].phase == Closed
  {
    ReachedWire(steps);
    ReachedPairing(steps);
    OthersKeepChannels(s, ApplyRead(s), c);
    if s.lost == 0 {
      assert Asked(s)[0] == s.responses[0].to;
      assert LineFor(s.responses[0]) == Outstanding(s)[0] == Rpc.Id(s.idCounter);
      assert ReplyOk(s, s.responses[0]);
    }
  }

  /** A new connection starts afresh, whatever timed out on the last one: nothing is outstanding,
      so the next caller reads its own response; clients and channels stay as they are. */
  lemma FreshConnection(steps: seq<Step>, s: Sys)
    requires Exec(steps) == Some(s) && Enabled(s, Reconnect)
    ensures var t := Apply(s, Reconnect);
            && Outstanding(t) == [] && t.lost == 0
            && t == s.(requests := t.requests, responses := t.responses, lost := 0)
  {
  }

  /** The calls that get as far as an ID: all but those made without an agent. */
  function Numbered(steps: seq<Step>): nat {
    if steps == [] then 0
    else
      var step := steps[|steps| - 1];
      Numbered(steps[..|steps| - 1])
      + if step.Call? || step.OtherCall? || (step.CallFails? && step.agent) then 1 else 0
  }

  /** IDs are given out one by one, over all connections, to every such call. */
  lemma {:induction false} IdsAreNumbers(steps: seq<Step>)
    requires Exec(steps).Some?
    ensures Exec(steps).value.idCounter == Numbered(steps)
  {
    if steps != [] { IdsAreNumbers(steps[..|steps| - 1]); }
  }

  // ---------- Nobody is stuck ----------

  /** Each goroutine can take its next step: whoever holds the lock can read what is there or time
      out, and whoever waits for it can have it once it is free; the agent can answer its next
      request in every way; clients poll or give up, and channels are taken in. */
  predicate CanGoOn(s: Sys, c: nat, ok: bool) {
    && (s.caller == None ==> Enabled(s, OtherCall) && Enabled(s, Reconnect))
    && (s.caller.Some? ==> Enabled(s, TimeOut(false)))
    && (s.caller.Some? && s.responses != [] ==> Enabled(s, Read) && Enabled(s, TimeOut(true)))
    && (s.requests != [] && s.requests[0].from == Other ==> Enabled(s, AgentAnswersOther(ok)))
    && (s.requests != [] && s.requests[0].from == ForClient(c) ==>
          Enabled(s, AgentFails) && Enabled(s, AgentConnects) && Enabled(s, AgentCutOff(0)))
    && (s.backlog != [] ==> Enabled(s, Accept))
    && (c in s.clients && s.clients[c].phase == Arrived && s.caller == None ==>
          Enabled(s, Call(c)) && Enabled(s, CallFails(c, ok)))
    && (c in s.clients && s.clients[c].phase.Polling? ==> Enabled(s, Poll(c)) || Enabled(s, GiveUp(c)))
  }

  /** In every reachable state nobody is stuck. */
  lemma NobodyIsStuck(steps: seq<Step>, s: Sys, c: nat, ok: bool)
    requires Exec(steps) == Some(s)
    ensures CanGoOn(s, c, ok)
  {
    ReachedPairing(steps);
    Tunnel.ReachedInv(steps);
    ReachedTries(steps);
    EveryoneGoesOn(s, c, ok);
  }

  lemma EveryoneGoesOn(s: Sys, c: nat, ok: bool)
    requires AskersOk(s) && BacklogOk(s) && TriesOk(s)
    ensures CanGoOn(s, c, ok)
  {
    if s.requests != [] && s.requests[0].from == ForClient(c) { AskerIsKnown(s, c); }
  }

  lemma AskerIsKnown(s: Sys, c: nat)
    requires AskersOk(s) && s.requests != [] && s.requests[0].from == ForClient(c)
    ensures c in s.clients
  {
    assert AsksFor(s, |s.responses|, c);
  }

  lemma {:induction false} ReachedTries(steps: seq<Step>)
    requires Exec(steps).Some?
    ensures TriesOk(Exec(steps).value)
  {
    if steps != [] {
      var before := steps[..|steps| - 1];
      ReachedTries(before);
      var s, step := Exec(before).value, steps[|steps| - 1];
      if step.Read? || step.TimeOut? { TriesAfterCall(s, step); } else { TriesOtherwise(s, step); }
    }
  }

  ghost predicate TriesOk(s: Sys) {
    forall c :: c in s.clients && s.clients[c].phase.Polling? ==> s.clients[c].phase.tries <= MAX_TRIES
  }

  lemma TriesAfterCall(s: Sys, step: Step)
    requires TriesOk(s) && Enabled(s, step) && EndsCall(step)
    ensures TriesOk(Apply(s, step))
  {
  }

  lemma TriesOtherwise(s: Sys, step: Step)
    requires TriesOk(s) && Enabled(s, step) && !EndsCall(step)
    ensures TriesOk(Apply(s, step))
  {
  }

  // ---------- Clients move forward ----------

  /** How far a client is. */
  function Rank(p: Phase): nat {
    match p
    case Arrived => 0
    case Asking => 1
    case Polling(tries) => 2 + tries
    case Bridged(_) => 1000
    case Closed => 1000
  }

  /** The step is one of this client's goroutine. */
  predicate Moves(s: Sys, step: Step, c: nat) {
    || step == Call(c) || step == Poll(c) || step == GiveUp(c)
    || (step.CallFails? && step.c == c)
    || ((step.Read? || step.TimeOut?) && s.caller == Some(ForClient(c)))
  }

  ghost predicate Advances(s: Sys, step: Step, c: nat)
    requires Enabled(s, step) && c in s.clients
  {
    var t := Apply(s, step);
    && c in t.clients && t.clients[c].port == s.clients[c].port
    && (if Moves(s, step, c) then Rank(t.clients[c].phase) > Rank(s.clients[c].phase)
        else t.clients[c].phase == s.clients[c].phase)
  }

  /** Every step of a client's goroutine takes the client further, from its arrival to its end, and
      no other step moves it. */
  lemma ClientsAdvance(steps: seq<Step>, s: Sys, step: Step, c: nat)
    requires Exec(steps) == Some(s) && Enabled(s, step) && c in s.clients
    ensures Advances(s, step, c)
  {
    ReachedPairing(steps);
    if step.Read? || step.TimeOut? { EndOfCallAdvances(s, step, c); } else { OthersAdvance(s, step, c); }
  }

  lemma EndOfCallAdvances(s: Sys, step: Step, c: nat)
    requires AskersOk(s) && Enabled(s, step) && EndsCall(step) && c in s.clients
    ensures Advances(s, step, c)
  {
  }

  lemma OthersAdvance(s: Sys, step: Step, c: nat)
    requires Enabled(s, step) && !EndsCall(step) && c in s.clients
    ensures Advances(s, step, c)
  {
  }

  lemma Extend(steps: seq<Step>, s: Sys, step: Step) returns (t: Sys)
    requires Exec(steps) == Some(s) && Enabled(s, step)
    ensures Exec(steps + [step]) == Some(t) && t == Apply(s, step)
  {
    assert (steps + [step])[..|steps|] == steps;
    t := Apply(s, step);
  }

  /** Two clients, the first of which has timed out in its call, and the second calls. */
  lemma AfterTimeOut(port: nat, other: nat) returns (steps: seq<Step>, s: Sys)
    requires port < 0x1_0000 && other < 0x1_0000
    ensures Exec(steps) == Some(s)
    ensures s == INIT.(clients := map[0 := Client(port, Closed), 1 := Client(other, Asking)],
                       caller := Some(ForClient(1)), idCounter := 2, lost := 1, before := [Rpc.Id(1)],
                       requests := [Request(1, ForClient(0)), Request(2, ForClient(1))])
  {
    var s1 := Extend([], INIT, Connect(0, port));
    var s2 := Extend([] + [Connect(0, port)], s1, Connect(1, other));
    steps := [] + [Connect(0, port)] + [Connect(1, other)];
    var s3 := Extend(steps, s2, Call(0));
    steps := steps + [Call(0)];
    var s4 := Extend(steps, s3, TimeOut(false));
    steps := steps + [TimeOut(false)];
    s := Extend(steps, s4, Call(1));
    steps := steps + [Call(1)];
    assert Outstanding(s4) == [Rpc.Id(1)];
  }

  /** It does fail after a time-out: the next client takes the "connected" for the one that
      gave up as its own, and polls for a channel that was never dialled. */
  lemma ForeignReply(port: nat, other: nat)
    requires port < 0x1_0000 && other < 0x1_0000
    ensures exists steps, s :: Exec(steps) == Some(s)
              && s.clients == map[0 := Client(port, Closed), 1 := Client(other, Polling(0))]
              && s.channels == [Channel(AsInput(Header(port)), 0)]
  {
    var steps, s := AfterTimeOut(port, other);
    var t := Extend(steps, s, AgentConnects);
    var u := Extend(steps + [AgentConnects], t, Read);
    assert u.clients == map[0 := Client(port, Closed), 1 := Client(other, Polling(0))];
  }
}
