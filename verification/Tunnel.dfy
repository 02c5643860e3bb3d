/** Port-forward tunnels: TCP clients of the daemon, the connection to the agent on which
    their requests share one stream with all other calls, the data channels of the agent,
    and the map that matches channels to clients (cmd/aetheria/main.go:258-291 and
    1059-1149, cmd/aetheria-agent/portforward.go:51-91). */
module Tunnel {
  import opened HeaderReader
  import opened Options
  import opened Text
  import Rpc

  // ---------- State ----------

  /** Where handlePortForwardConn is for one client. */
  datatype Phase =
    | Arrived                 // before sendToAgent has the lock
    | Asking                  // in sendToAgent, with the lock
    | Polling(tries: nat)
    | Bridged(channel: nat)
    | Closed

  datatype Client = Client(port: nat, phase: Phase)

  /** A data channel: the header bytes on it, and the client it was dialled for. */
  datatype Channel = Channel(header: Input, client: nat)

  /** Who calls sendToAgent: a client's goroutine, or anything else in the daemon. */
  datatype Caller = ForClient(c: nat) | Other

  datatype Request = Request(id: nat, from: Caller)

  /** What a response line says; Cut is the rest of a line a read timed out in. */
  datatype Reply = Success | Failure | Cut
  datatype Response = Response(to: Request, reply: Reply)

  datatype Sys = Sys(
    clients: map<nat, Client>,
    caller: Option<Caller>,      // who holds the daemon's lock in sendToAgent
    idCounter: nat,
    requests: seq<Request>,      // written on the connection, not yet handled by the agent
    responses: seq<Response>,    // written by the agent, not yet read
    before: seq<Rpc.Line>,       // history: the responses outstanding when the caller called
    lost: nat,                   // history: calls on this connection that timed out
    foreign: set<nat>,           // history: clients that read the response to another request
    channels: seq<Channel>,      // history: every channel dialled
    backlog: seq<nat>,           // dialled, not yet read by bridgePortForwards
    pending: map<string, nat>,   // pendingPFConns
    accepted: set<nat>,          // history: stored in pending at some time
    claimed: set<nat>,           // history: picked up by a client
    overwritten: set<nat>)       // history: replaced in pending before being picked up

  const MAX_TRIES := 50

  datatype Step =
    | Connect(c: nat, port: nat)
    | Call(c: nat)
    | CallFails(c: nat, agent: bool) // without an agent, or the write fails
    | OtherCall                      // any other request of the daemon
    | AgentFails                     // no mapping, or a dial fails
    | AgentCutOff(n: nat)            // the header write fails after n bytes
    | AgentConnects
    | AgentAnswersOther(ok: bool)
    | Read                           // the caller reads the next response line
    | TimeOut(midLine: bool)         // or its read fails, perhaps within the line
    | Reconnect
    | Accept
    | Poll(c: nat)
    | GiveUp(c: nat)

  const INIT := Sys(map[], None, 0, [], [], [], 0, {}, [], [], map[], {}, {}, {})

  // ---------- Steps ----------

  /** The agent's next request is a client's. */
  predicate ServesClient(s: Sys) {
    s.requests != [] && s.requests[0].from.ForClient? && s.requests[0].from.c in s.clients
  }

  predicate CallerKnown(s: Sys) {
    s.caller.Some? && (s.caller.value.ForClient? ==> s.caller.value.c in s.clients)
  }

  predicate Enabled(s: Sys, step: Step) {
    match step
    case Connect(c, port) => c !in s.clients && port < 0x1_0000
    case Call(c) => s.caller == None && c in s.clients && s.clients[c].phase == Arrived
    case CallFails(c, _) => s.caller == None && c in s.clients && s.clients[c].phase == Arrived
    case OtherCall => s.caller == None
    case AgentFails => ServesClient(s)
    case AgentCutOff(n) => ServesClient(s) && n <= |Decimal(s.clients[s.requests[0].from.c].port)|
    case AgentConnects => ServesClient(s)
    case AgentAnswersOther(_) => s.requests != [] && s.requests[0].from == Other
    case Read => CallerKnown(s) && s.responses != []
    case TimeOut(midLine) => CallerKnown(s) && (midLine ==> s.responses != [])
    case Reconnect => s.caller == None
    case Accept => s.backlog != [] && s.backlog[0] < |s.channels|
    case Poll(c) => c in s.clients && s.clients[c].phase.Polling? && s.clients[c].phase.tries < MAX_TRIES
    case GiveUp(c) => c in s.clients && s.clients[c].phase == Polling(MAX_TRIES)
  }

  function WithPhase(s: Sys, c: nat, p: Phase): Sys
    requires c in s.clients
  {
    s.(clients := s.clients[c := s.clients[c].(phase := p)])
  }

  function LineFor(r: Response): Rpc.Line {
    if r.reply == Cut then Rpc.Garbage else Rpc.Id(r.to.id)
  }

  function LinesFor(rs: seq<Response>): seq<Rpc.Line> {
    seq(|rs|, i requires 0 <= i < |rs| => LineFor(rs[i]))
  }

  /** The response lines still to come on the connection, in order. */
  function Outstanding(s: Sys): seq<Rpc.Line> {
    LinesFor(s.responses) + seq(|s.requests|, i requires 0 <= i < |s.requests| => Rpc.Id(s.requests[i].id))
  }

  /** A request takes the lock and is written. */
  function Sent(s: Sys, who: Caller): Sys {
    s.(caller := Some(who), idCounter := s.idCounter + 1, before := Outstanding(s),
       requests := s.requests + [Request(s.idCounter + 1, who)])
  }

  /** The agent is done with its next request. */
  function Responded(s: Sys, reply: Reply): Sys
    requires s.requests != []
  {
    s.(requests := s.requests[1..], responses := s.responses + [Response(s.requests[0], reply)])
  }

  function Dialled(s: Sys, ch: Channel): Sys {
    s.(channels := s.channels + [ch], backlog := s.backlog + [|s.channels|])
  }

  /** The agent dials a channel for its next request and writes this header on it. */
  function Served(s: Sys, header: Input, reply: Reply): Sys
    requires ServesClient(s)
  {
    Responded(Dialled(s, Channel(header, s.requests[0].from.c)), reply)
  }

  /** The caller takes the next line for the response to its own request. A client that
      finds no error in it begins to poll. */
  function ApplyRead(s: Sys): Sys
    requires Enabled(s, Read)
  {
    var r, t := s.responses[0], s.(responses := s.responses[1..], caller := None);
    match s.caller.value
    case Other => t
    case ForClient(c) =>
      WithPhase(t, c, if r.reply == Success then Polling(0) else Closed)
        .(foreign := if r.to.from == ForClient(c) then s.foreign else s.foreign + {c})
  }

  /** The caller leaves; the response, or the rest of the line it was reading, stays. */
  function ApplyTimeOut(s: Sys, midLine: bool): Sys
    requires Enabled(s, TimeOut(midLine))
  {
    var t := s.(caller := None, lost := s.lost + 1,
                responses := if midLine then s.responses[0 := s.responses[0].(reply := Cut)] else s.responses);
    match s.caller.value
    case Other => t
    case ForClient(c) => WithPhase(t, c, Closed)
  }

  /** A channel under its key; what was there is forgotten. */
  function Stored(pending: map<string, nat>, key: string, ch: nat): map<string, nat> {
    pending[key := ch]
  }

  function PickedUp(pending: map<string, nat>, key: string): map<string, nat> {
    pending - {key}
  }

  /** One round of bridgePortForwards: read the header of the next channel, store the
      channel under it. */
  ghost function ApplyAccept(s: Sys): Sys
    requires Enabled(s, Accept)
  {
    var ch, t := s.backlog[0], s.(backlog := s.backlog[1..]);
    match LineOf(s.channels[ch].header)
    case Error => t
    case Line(key) =>
      t.(pending := Stored(s.pending, key, ch), accepted := s.accepted + {ch},
         overwritten := if key in s.pending then s.overwritten + {s.pending[key]} else s.overwritten)
  }

  function ApplyPoll(s: Sys, c: nat): Sys
    requires Enabled(s, Poll(c))
  {
    var key := Decimal(s.clients[c].port);
    if key in s.pending then
      WithPhase(s, c, Bridged(s.pending[key]))
        .(pending := PickedUp(s.pending, key), claimed := s.claimed + {s.pending[key]})
    else WithPhase(s, c, Polling(s.clients[c].phase.tries + 1))
  }

  /** What the agent writes on a channel for its next request. */
  function HeaderFor(s: Sys): string
    requires ServesClient(s)
  {
    Header(s.clients[s.requests[0].from.c].port)
  }

  ghost function Apply(s: Sys, step: Step): Sys
    requires Enabled(s, step)
  {
    match step
    case Connect(c, port) => s.(clients := s.clients[c := Client(port, Arrived)])
    case Call(c) => WithPhase(Sent(s, ForClient(c)), c, Asking)
    case CallFails(c, agent) => WithPhase(s, c, Closed).(idCounter := if agent then s.idCounter + 1 else s.idCounter)
    case OtherCall => Sent(s, Other)
    case AgentFails => Responded(s, Failure)
    case AgentCutOff(n) => Served(s, AsInput(HeaderFor(s)[..n]), Failure)
    case AgentConnects => Served(s, AsInput(HeaderFor(s)), Success)
    case AgentAnswersOther(ok) => Responded(s, if ok then Success else Failure)
    case Read => ApplyRead(s)
    case TimeOut(midLine) => ApplyTimeOut(s, midLine)
    case Reconnect => s.(requests := [], responses := [], lost := 0)
    case Accept => ApplyAccept(s)
    case Poll(c) => ApplyPoll(s, c)
    case GiveUp(c) => WithPhase(s, c, Closed)
  }

  ghost function Exec(steps: seq<Step>): Option<Sys> {
    if steps == [] then Some(INIT)
    else
      match Exec(steps[..|steps| - 1])
      case None => None
      case Some(s) => if Enabled(s, steps[|steps| - 1]) then Some(Apply(s, steps[|steps| - 1])) else None
  }

  // ---------- Invariant of all runs ----------

  ghost predicate FullHeader(s: Sys, ch: nat)
    requires ch < |s.channels| && s.channels[ch].client in s.clients
  {
    s.channels[ch].header == AsInput(Header(s.clients[s.channels[ch].client].port))
  }

  ghost predicate ClientsOk(s: Sys) {
    forall c :: c in s.clients ==> s.clients[c].port < 0x1_0000
  }

  /** A channel carries the header of the port it was dialled for, or part of it. */
  ghost predicate ChannelOk(s: Sys, ch: nat)
    requires ch < |s.channels|
  {
    && s.channels[ch].client in s.clients
    && var port := s.clients[s.channels[ch].client].port;
       LineOf(s.channels[ch].header) == (if FullHeader(s, ch) then Line(Decimal(port)) else Error)
  }

  ghost predicate ChannelsOk(s: Sys) {
    forall ch :: 0 <= ch < |s.channels| ==> ChannelOk(s, ch)
  }

  ghost predicate BacklogOk(s: Sys) {
    && (forall i :: 0 <= i < |s.backlog| ==> s.backlog[i] < |s.channels| && s.backlog[i] !in s.accepted)
    && (forall i, j :: 0 <= i < j < |s.backlog| ==> s.backlog[i] < s.backlog[j])
    && (forall ch :: ch in s.accepted ==> ch < |s.channels|)
  }

  ghost predicate Holds(s: Sys, key: string, ch: nat) {
    key in s.pending && s.pending[key] == ch
  }

  /** The accepted channels are the pending, the claimed and the overwritten ones. */
  ghost predicate MatchOk(s: Sys) {
    && (forall key :: key in s.pending ==>
          s.pending[key] < |s.channels| && LineOf(s.channels[s.pending[key]].header) == Line(key)
          && s.pending[key] in s.accepted && s.pending[key] !in s.claimed && s.pending[key] !in s.overwritten)
    && (forall ch :: ch in s.accepted ==> ch in s.claimed || ch in s.overwritten || exists key :: Holds(s, key, ch))
    && s.claimed <= s.accepted && s.overwritten <= s.accepted && s.claimed !! s.overwritten
  }

  ghost predicate BridgesOk(s: Sys) {
    && (forall c :: c in s.clients && s.clients[c].phase.Bridged? ==> BridgeOk(s, c, s.clients[c].phase.channel))
    && (forall c, d | c in s.clients && d in s.clients && c != d ::
          s.clients[c].phase.Bridged? && s.clients[d].phase.Bridged?
          ==> s.clients[c].phase.channel != s.clients[d].phase.channel)
  }

  ghost predicate BridgeOk(s: Sys, c: nat, ch: nat)
    requires c in s.clients
  {
    ch in s.claimed && ch < |s.channels| && LineOf(s.channels[ch].header) == Line(Decimal(s.clients[c].port))
  }

  ghost predicate Inv(s: Sys) {
    ClientsOk(s) && ChannelsOk(s) && BacklogOk(s) && MatchOk(s) && BridgesOk(s)
  }

  // ---------- Every step keeps it ----------

  lemma DialledOk(s: Sys, c: nat, header: Input)
    requires ClientsOk(s) && ChannelsOk(s) && c in s.clients
    requires header == AsInput(Header(s.clients[c].port))
             || exists n :: 0 <= n <= |Decimal(s.clients[c].port)| && header == AsInput(Header(s.clients[c].port)[..n])
    ensures ChannelsOk(Dialled(s, Channel(header, c)))
  {
    var t, port := Dialled(s, Channel(header, c)), s.clients[c].port;
    LineOfHeader(port);
    if header != AsInput(Header(port)) {
      var n :| 0 <= n <= |Decimal(port)| && header == AsInput(Header(port)[..n]);
      CutHeaderFails(port, n);
    }
    forall ch | 0 <= ch < |t.channels| ensures ChannelOk(t, ch) {
      if ch < |s.channels| { assert ChannelOk(s, ch); }
    }
  }

  /** Channels and ports never change. */
  lemma PortsKeepChannels(s: Sys, t: Sys)
    requires ChannelsOk(s) && t.channels == s.channels
    requires forall c :: c in s.clients ==> c in t.clients && t.clients[c].port == s.clients[c].port
    ensures ChannelsOk(t)
  {
    forall ch | 0 <= ch < |t.channels| ensures ChannelOk(t, ch) { assert ChannelOk(s, ch); }
  }

  lemma StoreKeepsMatch(s: Sys, key: string)
    requires BacklogOk(s) && MatchOk(s) && Enabled(s, Accept) && LineOf(s.channels[s.backlog[0]].header) == Line(key)
    ensures MatchOk(ApplyAccept(s))
  {
    var t, got := ApplyAccept(s), s.backlog[0];
    assert got !in s.accepted;
    assert Holds(t, key, got);
    forall ch | ch in t.accepted && ch !in t.claimed && ch !in t.overwritten ensures exists k :: Holds(t, k, ch) {
      if ch != got {
        var k :| Holds(s, k, ch);
        assert Holds(t, k, ch);
      }
    }
  }

  lemma MatchStays(s: Sys, t: Sys)
    requires MatchOk(s) && s.channels <= t.channels
    requires t.pending == s.pending && t.accepted == s.accepted
    requires t.claimed == s.claimed && t.overwritten == s.overwritten
    ensures MatchOk(t)
  {
    forall key | key in t.pending ensures LineOf(t.channels[t.pending[key]].header) == Line(key) {
      assert s.pending[key] < |s.channels|;
    }
    forall ch | ch in t.accepted && ch !in t.claimed && ch !in t.overwritten ensures exists k :: Holds(t, k, ch) {
      var k :| Holds(s, k, ch);
      assert Holds(t, k, ch);
    }
  }

  lemma AcceptKeepsMatch(s: Sys)
    requires Inv(s) && Enabled(s, Accept)
    ensures MatchOk(ApplyAccept(s))
  {
    match LineOf(s.channels[s.backlog[0]].header)
    case Line(key) => StoreKeepsMatch(s, key);
    case Error => MatchStays(s, ApplyAccept(s));
  }

  /** Two entries of the map hold different channels: a channel has one header. */
  lemma PickUpKeepsMatch(s: Sys, c: nat)
    requires MatchOk(s) && Enabled(s, Poll(c)) && Decimal(s.clients[c].port) in s.pending
    ensures MatchOk(ApplyPoll(s, c))
  {
    var t, key := ApplyPoll(s, c), Decimal(s.clients[c].port);
    forall ch | ch in t.accepted && ch !in t.claimed && ch !in t.overwritten ensures exists k :: Holds(t, k, ch) {
      var k :| Holds(s, k, ch);
      assert Holds(t, k, ch);
    }
  }

  lemma BridgesStay(s: Sys, t: Sys)
    requires BridgesOk(s) && s.channels <= t.channels && s.claimed <= t.claimed
    requires forall c :: c in t.clients && t.clients[c].phase.Bridged? ==>
               c in s.clients && s.clients[c] == t.clients[c]
    ensures BridgesOk(t)
  {
    forall c | c in t.clients && t.clients[c].phase.Bridged? ensures BridgeOk(t, c, t.clients[c].phase.channel) {
      assert BridgeOk(s, c, s.clients[c].phase.channel);
    }
  }

  lemma PollKeepsBridges(s: Sys, c: nat)
    requires Inv(s) && Enabled(s, Poll(c)) && Decimal(s.clients[c].port) in s.pending
    ensures BridgesOk(ApplyPoll(s, c))
  {
    var t := ApplyPoll(s, c);
    forall d | d in t.clients && t.clients[d].phase.Bridged? ensures BridgeOk(t, d, t.clients[d].phase.channel) {
      if d != c { assert BridgeOk(s, d, s.clients[d].phase.channel); }
    }
  }

  /** Nothing changes but calls and the phases of clients that are not bridged. */
  ghost predicate SameMatching(s: Sys, t: Sys) {
    && t.channels == s.channels && t.backlog == s.backlog && t.pending == s.pending
    && t.accepted == s.accepted && t.claimed == s.claimed && t.overwritten == s.overwritten
    && (forall c :: c in s.clients ==> c in t.clients && t.clients[c].port == s.clients[c].port)
    && (forall c :: c in t.clients ==> t.clients[c].port < 0x1_0000)
    && (forall c :: c in t.clients && t.clients[c].phase.Bridged? ==> c in s.clients && s.clients[c] == t.clients[c])
  }

  lemma SameMatchingKeepsInv(s: Sys, t: Sys)
    requires Inv(s) && SameMatching(s, t)
    ensures Inv(t)
  {
    PortsKeepChannels(s, t);
    MatchStays(s, t);
    BridgesStay(s, t);
  }

  predicate Matches(step: Step) {
    step.AgentCutOff? || step.AgentConnects? || step.Accept? || step.Poll?
  }

  lemma EndOfCallKeepsMatching(s: Sys, step: Step)
    requires ClientsOk(s) && Enabled(s, step) && (step.Read? || step.TimeOut?)
    ensures SameMatching(s, Apply(s, step))
  {
  }

  lemma ConnectKeepsMatching(s: Sys, step: Step)
    requires ClientsOk(s) && Enabled(s, step) && (step.Connect? || step.Call? || step.CallFails? || step.GiveUp?)
    ensures SameMatching(s, Apply(s, step))
  {
  }

  lemma CallsKeepMatching(s: Sys, step: Step)
    requires ClientsOk(s) && Enabled(s, step) && !Matches(step)
    ensures SameMatching(s, Apply(s, step))
  {
    if step.Read? || step.TimeOut? { EndOfCallKeepsMatching(s, step); }
    else if step.Connect? || step.Call? || step.CallFails? || step.GiveUp? { ConnectKeepsMatching(s, step); }
  }

  lemma ServedKeepsInv(s: Sys, header: Input, reply: Reply)
    requires Inv(s) && ServesClient(s)
    requires header == AsInput(HeaderFor(s))
             || exists n :: 0 <= n < |HeaderFor(s)| && header == AsInput(HeaderFor(s)[..n])
    ensures Inv(Served(s, header, reply))
  {
    var t, c := Served(s, header, reply), s.requests[0].from.c;
    DialledOk(s, c, header);
    PortsKeepChannels(Dialled(s, Channel(header, c)), t);
    MatchStays(s, t);
    BridgesStay(s, t);
  }

  lemma AcceptKeepsInv(s: Sys)
    requires Inv(s) && Enabled(s, Accept)
    ensures Inv(ApplyAccept(s))
  {
    var t := ApplyAccept(s);
    PortsKeepChannels(s, t);
    AcceptKeepsMatch(s);
    BridgesStay(s, t);
  }

  lemma PollKeepsInv(s: Sys, c: nat)
    requires Inv(s) && Enabled(s, Poll(c))
    ensures Inv(ApplyPoll(s, c))
  {
    var t := ApplyPoll(s, c);
    PortsKeepChannels(s, t);
    if Decimal(s.clients[c].port) in s.pending {
      PickUpKeepsMatch(s, c);
      PollKeepsBridges(s, c);
    } else {
      MatchStays(s, t);
      BridgesStay(s, t);
    }
  }

  lemma StepKeepsInv(s: Sys, step: Step)
    requires Inv(s) && Enabled(s, step)
    ensures Inv(Apply(s, step))
  {
    if !Matches(step) {
      CallsKeepMatching(s, step);
      SameMatchingKeepsInv(s, Apply(s, step));
    } else {
      match step
      case AgentCutOff(n) => ServedKeepsInv(s, AsInput(HeaderFor(s)[..n]), Failure);
      case AgentConnects => ServedKeepsInv(s, AsInput(HeaderFor(s)), Success);
      case Accept => AcceptKeepsInv(s);
      case Poll(c) => PollKeepsInv(s, c);
    }
  }

  lemma {:induction false} ReachedInv(steps: seq<Step>)
    requires Exec(steps).Some?
    ensures Inv(Exec(steps).value)
  {
    if steps != [] {
      ReachedInv(steps[..|steps| - 1]);
      StepKeepsInv(Exec(steps[..|steps| - 1]).value, steps[|steps| - 1]);
    }
  }

  // ---------- Where a channel is ----------

  predicate BridgedTo(s: Sys, c: nat, ch: nat) {
    c in s.clients && s.clients[c].phase == Bridged(ch)
  }

  /** A whole channel is in the backlog until it is accepted, and a claimed one is with the
      client that claimed it. */
  ghost predicate SeenOk(s: Sys) {
    && (forall ch :: 0 <= ch < |s.channels| && LineOf(s.channels[ch].header).Line? ==> Seen(s, ch))
    && (forall ch :: ch in s.claimed ==> exists c :: BridgedTo(s, c, ch))
  }

  predicate Seen(s: Sys, ch: nat) {
    ch in s.backlog || ch in s.accepted
  }

  lemma ClaimsStay(s: Sys, t: Sys)
    requires SeenOk(s) && t.claimed == s.claimed
    requires forall c, ch :: BridgedTo(s, c, ch) ==> BridgedTo(t, c, ch)
    ensures forall ch :: ch in t.claimed ==> exists c :: BridgedTo(t, c, ch)
  {
    forall ch | ch in t.claimed ensures exists c :: BridgedTo(t, c, ch) {
      var c :| BridgedTo(s, c, ch);
      assert BridgedTo(t, c, ch);
    }
  }

  lemma ServedKeepsSeen(s: Sys, header: Input, reply: Reply)
    requires SeenOk(s) && ServesClient(s)
    ensures SeenOk(Served(s, header, reply))
  {
    var t := Served(s, header, reply);
    ClaimsStay(s, t);
    assert t.backlog[|s.backlog|] == |s.channels|;
    forall ch | 0 <= ch < |t.channels| && LineOf(t.channels[ch].header).Line? ensures Seen(t, ch) {
      if ch < |s.channels| { assert Seen(s, ch); }
    }
  }

  lemma AcceptKeepsSeen(s: Sys)
    requires SeenOk(s) && Enabled(s, Accept)
    ensures SeenOk(ApplyAccept(s))
  {
    var t := ApplyAccept(s);
    ClaimsStay(s, t);
    assert s.backlog == [s.backlog[0]] + t.backlog;
    forall ch | 0 <= ch < |t.channels| && LineOf(t.channels[ch].header).Line? ensures Seen(t, ch) {
      assert Seen(s, ch);
    }
  }

  lemma PollKeepsSeen(s: Sys, c: nat)
    requires SeenOk(s) && Enabled(s, Poll(c))
    ensures SeenOk(ApplyPoll(s, c))
  {
    var t := ApplyPoll(s, c);
    forall ch | ch in t.claimed ensures exists d :: BridgedTo(t, d, ch) {
      if ch in s.claimed {
        var d :| BridgedTo(s, d, ch);
        assert BridgedTo(t, d, ch);
      } else {
        assert BridgedTo(t, c, ch);
      }
    }
    forall ch | 0 <= ch < |t.channels| && LineOf(t.channels[ch].header).Line? ensures Seen(t, ch) {
      assert Seen(s, ch);
    }
  }

  /** The caller's client is not bridged: it has yet to poll. */
  ghost predicate CallerAsks(s: Sys) {
    s.caller.Some? && s.caller.value.ForClient? ==>
      s.caller.value.c in s.clients && s.clients[s.caller.value.c].phase == Asking
  }

  lemma BridgedStay(s: Sys, step: Step)
    requires CallerAsks(s) && Enabled(s, step) && !Matches(step)
    ensures forall c, ch :: BridgedTo(s, c, ch) ==> BridgedTo(Apply(s, step), c, ch)
  {
  }

  lemma CallsKeepSeen(s: Sys, step: Step)
    requires ClientsOk(s) && SeenOk(s) && CallerAsks(s) && Enabled(s, step) && !Matches(step)
    ensures SeenOk(Apply(s, step))
  {
    var t := Apply(s, step);
    CallsKeepMatching(s, step);
    BridgedStay(s, step);
    ClaimsStay(s, t);
    forall ch | 0 <= ch < |t.channels| && LineOf(t.channels[ch].header).Line? ensures Seen(t, ch) {
      assert Seen(s, ch);
    }
  }

  lemma StepKeepsCallerAsks(s: Sys, step: Step)
    requires CallerAsks(s) && Enabled(s, step)
    ensures CallerAsks(Apply(s, step))
  {
  }

  lemma StepKeepsSeen(s: Sys, step: Step)
    requires Inv(s) && SeenOk(s) && CallerAsks(s) && Enabled(s, step)
    ensures SeenOk(Apply(s, step))
  {
    if !Matches(step) { CallsKeepSeen(s, step); } else {
      match step
      case AgentCutOff(n) => ServedKeepsSeen(s, AsInput(HeaderFor(s)[..n]), Failure);
      case AgentConnects => ServedKeepsSeen(s, AsInput(HeaderFor(s)), Success);
      case Accept => AcceptKeepsSeen(s);
      case Poll(c) => PollKeepsSeen(s, c);
    }
  }

  lemma {:induction false} ReachedSeen(steps: seq<Step>)
    requires Exec(steps).Some?
    ensures SeenOk(Exec(steps).value) && CallerAsks(Exec(steps).value)
  {
    if steps != [] {
      var before, step := steps[..|steps| - 1], steps[|steps| - 1];
      ReachedInv(before);
      ReachedSeen(before);
      StepKeepsSeen(Exec(before).value, step);
      StepKeepsCallerAsks(Exec(before).value, step);
    }
  }

  // ---------- Matching and conservation ----------

  /** A client is bridged only to a channel on which the agent wrote that client's port;
      it was dialled for a client of the same port. */
  lemma BridgedToOwnPort(steps: seq<Step>, s: Sys, c: nat)
    requires Exec(steps) == Some(s) && c in s.clients && s.clients[c].phase.Bridged?
    ensures var ch, port := s.clients[c].phase.channel, s.clients[c].port;
            && ch < |s.channels| && s.channels[ch].header == AsInput(Header(port))
            && s.channels[ch].client in s.clients && s.clients[s.channels[ch].client].port == port
  {
    ReachedInv(steps);
    var ch := s.clients[c].phase.channel;
    assert BridgeOk(s, c, ch) && ChannelOk(s, ch);
    DecimalInjective(s.clients[c].port, s.clients[s.channels[ch].client].port);
  }

  /** No channel serves two clients. */
  lemma OneClientPerChannel(steps: seq<Step>, s: Sys, c: nat, d: nat)
    requires Exec(steps) == Some(s) && c in s.clients && d in s.clients
    requires s.clients[c].phase.Bridged? && s.clients[d].phase == s.clients[c].phase
    ensures c == d
  {
    ReachedInv(steps);
  }

  ghost function Keyed(s: Sys, chs: set<nat>, key: string): set<nat> {
    set ch | ch in chs && ch < |s.channels| && LineOf(s.channels[ch].header) == Line(key)
  }

  function PendingFor(s: Sys, key: string): set<nat> {
    if key in s.pending then {s.pending[key]} else {}
  }

  lemma AcceptedParts(s: Sys, key: string)
    requires Inv(s)
    ensures Keyed(s, s.accepted, key) == Keyed(s, s.claimed, key) + Keyed(s, s.overwritten, key) + PendingFor(s, key)
    ensures PendingFor(s, key) !! s.claimed + s.overwritten
  {
    forall ch | ch in Keyed(s, s.accepted, key) && ch !in s.claimed && ch !in s.overwritten
      ensures ch in PendingFor(s, key)
    {
      var k :| Holds(s, k, ch);
    }
  }

  /** For each key: accepted = claimed + overwritten + pending, the last being 0 or 1. */
  lemma ChannelsConserved(steps: seq<Step>, s: Sys, key: string)
    requires Exec(steps) == Some(s)
    ensures |Keyed(s, s.accepted, key)| ==
            |Keyed(s, s.claimed, key)| + |Keyed(s, s.overwritten, key)| + if key in s.pending then 1 else 0
  {
    ReachedInv(steps);
    AcceptedParts(s, key);
    assert Keyed(s, s.claimed, key) !! Keyed(s, s.overwritten, key);
    assert Keyed(s, s.claimed, key) + Keyed(s, s.overwritten, key) !! PendingFor(s, key);
  }

  // ---------- When a channel is overwritten ----------

  lemma AcceptKeepsBacklog(s: Sys)
    requires BacklogOk(s) && s.backlog != []
    ensures Enabled(s, Accept) && BacklogOk(ApplyAccept(s)) && |ApplyAccept(s).backlog| < |s.backlog|
  {
  }

  /** bridgePortForwards catches up with the backlog, and nobody picks anything up. */
  ghost function AcceptAll(s: Sys): Sys
    requires BacklogOk(s)
    decreases |s.backlog|
  {
    if s.backlog == [] then s else AcceptAll(ApplyAccept(s))
  }

  /** A channel that is in the backlog or pending, with the header of a key. */
  ghost predicate Live(s: Sys, ch: nat, key: string) {
    ch < |s.channels| && LineOf(s.channels[ch].header) == Line(key) && (ch in s.backlog || Holds(s, key, ch))
  }

  ghost predicate Collide(s: Sys, key: string, ch: nat, dh: nat) {
    ch != dh && Live(s, ch, key) && Live(s, dh, key)
  }

  lemma {:induction false} AcceptAllGrows(s: Sys)
    requires BacklogOk(s)
    ensures s.overwritten <= AcceptAll(s).overwritten
    decreases |s.backlog|
  {
    if s.backlog != [] {
      AcceptKeepsBacklog(s);
      AcceptAllGrows(ApplyAccept(s));
    }
  }

  lemma LiveAfterAccept(s: Sys, ch: nat, key: string)
    requires Inv(s) && Enabled(s, Accept) && LineOf(s.channels[s.backlog[0]].header) != Error
    requires LineOf(s.channels[s.backlog[0]].header).text !in s.pending
    ensures Live(ApplyAccept(s), ch, key) <==> Live(s, ch, key)
  {
    var t, got := ApplyAccept(s), s.backlog[0];
    assert s.backlog == [got] + t.backlog;
    if got == ch { assert Live(s, ch, key) ==> Holds(t, key, ch); }
  }

  lemma LiveAfterRefusal(s: Sys, ch: nat, key: string)
    requires Inv(s) && Enabled(s, Accept) && LineOf(s.channels[s.backlog[0]].header) == Error
    ensures Live(ApplyAccept(s), ch, key) <==> Live(s, ch, key)
  {
    assert s.backlog == [s.backlog[0]] + ApplyAccept(s).backlog;
  }

  /** Catching up overwrites a channel if and only if two channels of one key are in the
      backlog or pending. */
  lemma {:induction false} OverwritesIff(s: Sys)
    requires Inv(s)
    ensures AcceptAll(s).overwritten != s.overwritten <==> exists key, ch, dh :: Collide(s, key, ch, dh)
    decreases |s.backlog|
  {
    if s.backlog != [] {
      var t, got := ApplyAccept(s), s.backlog[0];
      AcceptKeepsInv(s);
      OverwritesIff(t);
      if LineOf(s.channels[got].header) == Error {
        forall key, ch ensures Live(t, ch, key) <==> Live(s, ch, key) { LiveAfterRefusal(s, ch, key); }
        CollideAlike(s, t);
      } else {
        var key := LineOf(s.channels[got].header).text;
        if key in s.pending {
          AcceptAllGrows(t);
          assert s.pending[key] in t.overwritten && got !in s.accepted;
          assert Collide(s, key, got, s.pending[key]);
        } else {
          forall k, ch ensures Live(t, ch, k) <==> Live(s, ch, k) { LiveAfterAccept(s, ch, k); }
          CollideAlike(s, t);
        }
      }
    }
  }

  /** The same for every reachable state. */
  lemma CatchingUpOverwritesIff(steps: seq<Step>, s: Sys)
    requires Exec(steps) == Some(s)
    ensures BacklogOk(s)
    ensures AcceptAll(s).overwritten != s.overwritten <==> exists key, ch, dh :: Collide(s, key, ch, dh)
  {
    ReachedInv(steps);
    OverwritesIff(s);
  }

  lemma CollideAlike(s: Sys, t: Sys)
    requires forall key, ch :: Live(t, ch, key) <==> Live(s, ch, key)
    ensures (exists key, ch, dh :: Collide(s, key, ch, dh)) <==> exists key, ch, dh :: Collide(t, key, ch, dh)
  {
    if key, ch, dh :| Collide(s, key, ch, dh) { assert Collide(t, key, ch, dh); }
    if key, ch, dh :| Collide(t, key, ch, dh) { assert Collide(s, key, ch, dh); }
  }

  // ---------- The code ----------

  class Daemon {
    var pendingPFConns: map<string, nat>

    constructor ()
      ensures pendingPFConns == map[]
    {
      pendingPFConns := map[];
    }

    /** The body of the loop in bridgePortForwards, for the accepted connection of channel
        ch: afterwards the connection is at the first byte behind the header. */
    method StoreChannel(conn: Conn, ch: nat)
      modifies this, conn
      ensures match LineOf(old(conn.input))
              case Error => pendingPFConns == old(pendingPFConns)
              case Line(key) =>
                && pendingPFConns == Stored(old(pendingPFConns), key, ch)
                && exists k :: EndsHeader(old(conn.input), k) && conn.input == old(conn.input)[k + 1..]
    {
      var r := ReadLineRaw(conn);
      match r {
        case Error =>
        case Line(key) => pendingPFConns := pendingPFConns[key := ch];
      }
    }

    /** One round of the polling loop in handlePortForwardConn. */
    method TryPickUp(hostPort: nat) returns (ch: Option<nat>)
      modifies this
      ensures var key := Decimal(hostPort);
              if key in old(pendingPFConns)
              then ch == Some(old(pendingPFConns)[key]) && pendingPFConns == PickedUp(old(pendingPFConns), key)
              else ch == None && pendingPFConns == old(pendingPFConns)
    {
      var key := Decimal(hostPort);
      if key !in pendingPFConns { return None; }
      ch := Some(pendingPFConns[key]);
      pendingPFConns := pendingPFConns - {key};
    }
  }
}
