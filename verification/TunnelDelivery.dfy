/** Exact delivery: in orderly runs every client gets the channel dialled for its own request
    (cmd/aetheria/main.go:1061-1149, cmd/aetheria-agent/portforward.go:51-91). */
module TunnelDelivery {
  import opened HeaderReader
  import opened Options
  import opened Text
  import opened Tunnel
  import opened TunnelReplies

  // ---------- Orderly runs ----------

  /** Between the beginning of the RPC and the pick-up. */
  predicate Expects(p: Phase) {
    p == Asking || p.Polling?
  }

  /** A client calls only when no response is outstanding on the connection and no other client
      of its port is between its RPC and its pick-up; its call and its poll do not time out.
      Other calls may, and any number of clients may wait for the lock. */
  ghost predicate Orderly(s: Sys, step: Step) {
    match step
    case Call(c) =>
      && Outstanding(s) == []
      && (c in s.clients ==>
            forall d :: d in s.clients && d != c && s.clients[d].port == s.clients[c].port ==>
              !Expects(s.clients[d].phase))
    case TimeOut(_) => s.caller == Some(Other)
    case GiveUp(_) => false
    case _ => true
  }

  ghost predicate OrderlyRun(steps: seq<Step>) {
    steps == [] ||
    (var before := steps[..|steps| - 1];
     OrderlyRun(before) && (Exec(before).Some? ==> Orderly(Exec(before).value, steps[|steps| - 1])))
  }

  // ---------- Invariant of orderly runs ----------

  /** A whole channel nobody has picked up. */
  predicate Waiting(s: Sys, ch: nat, c: nat) {
    Opened(s, ch, c) && ch !in s.claimed
  }

  /** No two clients of one port are between RPC and pick-up. */
  ghost predicate OneExpects(s: Sys) {
    forall c, d :: (c in s.clients && d in s.clients && s.clients[c].port == s.clients[d].port
                    && Expects(s.clients[c].phase) && Expects(s.clients[d].phase)) ==> c == d
  }

  /** A waiting channel is waited for by its own client. */
  ghost predicate Expected(s: Sys) {
    forall c, ch: nat :: Waiting(s, ch, c) ==> Expects(s.clients[c].phase)
  }

  ghost predicate OwnChannels(s: Sys) {
    forall c :: c in s.clients && s.clients[c].phase.Bridged? ==> DialledFor(s, s.clients[c].phase.channel, c)
  }

  /** A client is alone on the connection while it calls, and nobody reads another's reply. */
  ghost predicate AloneOk(s: Sys) {
    && s.foreign == {}
    && (s.caller.Some? && s.caller.value.ForClient? ==> s.lost == 0)
    && (forall i, c :: AsksFor(s, i, c) ==> s.caller == Some(ForClient(c)))
  }

  ghost predicate DeliveryOk(s: Sys) {
    s.overwritten == {} && OneExpects(s) && Expected(s) && OwnChannels(s)
  }

  /** Everything known of a reachable state of an orderly run. */
  ghost predicate OrderlyOk(s: Sys) {
    Tunnel.Inv(s) && WireOk(s) && PairingOk(s) && AloneOk(s) && DeliveryOk(s)
  }

  // ---------- The connection in orderly runs ----------

  lemma OutstandingIsLost(s: Sys)
    requires WireOk(s) && s.caller == None && (Outstanding(s) == [] || s.lost == 0)
    ensures s.lost == 0 && s.responses == [] && s.requests == [] && Asked(s) == []
  {
    assert |Outstanding(s)| == |Asked(s)|;
  }

  lemma StepKeepsAlone(s: Sys, step: Step)
    requires WireOk(s) && AskersOk(s) && AloneOk(s) && Enabled(s, step) && Orderly(s, step)
    ensures AloneOk(Apply(s, step))
  {
    var t := Apply(s, step);
    if OffWire(step) {
      OffWireKeeps(s, step);
      forall i, c ensures AsksFor(t, i, c) <==> AsksFor(s, i, c) {}
    } else if ByAgent(step) {
      AgentOnWire(s, step);
      forall i, c ensures AsksFor(t, i, c) <==> AsksFor(s, i, c) {}
    } else {
      match step
      case Call(c) =>
        OutstandingIsLost(s);
        SentOnWire(s, ForClient(c));
        assert Asked(t) == [Request(s.idCounter + 1, ForClient(c))];
      case OtherCall =>
        SentOnWire(s, Other);
        forall i, c ensures AsksFor(t, i, c) <==> AsksFor(s, i, c) {}
      case Read => ReadKeepsAlone(s);
      case TimeOut(midLine) =>
        TimeOutOnWire(s, midLine);
        forall i, c ensures AsksFor(t, i, c) <==> AsksFor(s, i, c) {}
      case Reconnect =>
    }
  }

  lemma ReadKeepsAlone(s: Sys)
    requires WireOk(s) && AskersOk(s) && AloneOk(s) && Enabled(s, Read)
    ensures AloneOk(ApplyRead(s))
  {
    var t := ApplyRead(s);
    ReadOnWire(s);
    if s.caller.value.ForClient? {
      assert Asked(s)[0] == s.responses[0].to;
      assert Asked(t) == [];
    } else {
      forall i, c ensures !AsksFor(t, i, c) { assert !AsksFor(s, i + 1, c); }
    }
  }

  /** The only response a calling client can read is the whole line of its own. */
  lemma ClientReadsOwn(s: Sys)
    requires WireOk(s) && AloneOk(s) && Enabled(s, Read) && s.caller.value.ForClient?
    ensures s.responses[0].to.from == s.caller.value && s.responses[0].reply != Cut
  {
    assert Asked(s)[0] == s.responses[0].to;
    assert Outstanding(s)[0] == LineFor(s.responses[0]);
  }

  // ---------- Channels in orderly runs ----------

  /** Two waiting channels of one port are the same one. */
  lemma WaitingUnique(s: Sys, ch: nat, c: nat, dh: nat, d: nat)
    requires DialsOk(s) && OneExpects(s) && Expected(s) && Waiting(s, ch, c) && Waiting(s, dh, d)
    requires s.clients[c].port == s.clients[d].port
    ensures c == d && ch == dh
  {
  }

  /** What is stored or about to be stored under a key is waiting, for a client of that port. */
  lemma KeyedWaits(s: Sys, ch: nat, key: string)
    requires ChannelsOk(s) && ch < |s.channels| && LineOf(s.channels[ch].header) == Line(key) && ch !in s.claimed
    ensures var c := s.channels[ch].client; Waiting(s, ch, c) && key == Decimal(s.clients[c].port)
  {
    assert ChannelOk(s, ch);
  }

  lemma SameKeySameChannel(s: Sys, ch: nat, dh: nat, key: string)
    requires ChannelsOk(s) && DialsOk(s) && OneExpects(s) && Expected(s)
    requires ch < |s.channels| && LineOf(s.channels[ch].header) == Line(key) && ch !in s.claimed
    requires dh < |s.channels| && LineOf(s.channels[dh].header) == Line(key) && dh !in s.claimed
    ensures ch == dh
  {
    KeyedWaits(s, ch, key);
    KeyedWaits(s, dh, key);
    var c, d := s.channels[ch].client, s.channels[dh].client;
    DecimalInjective(s.clients[c].port, s.clients[d].port);
    WaitingUnique(s, ch, c, dh, d);
  }

  lemma AcceptDelivers(s: Sys)
    requires OrderlyOk(s) && Enabled(s, Accept)
    ensures DeliveryOk(ApplyAccept(s))
  {
    var t, ch := ApplyAccept(s), s.backlog[0];
    assert ch !in s.accepted;
    if LineOf(s.channels[ch].header).Line? {
      var key := LineOf(s.channels[ch].header).text;
      if key in s.pending { SameKeySameChannel(s, ch, s.pending[key], key); }
    }
    forall c, dh: nat | Waiting(t, dh, c) ensures Waiting(s, dh, c) {}
  }

  /** The channel pending for the port of a polling client is the client's own. */
  lemma PendingIsOwn(s: Sys, c: nat)
    requires Tunnel.Inv(s) && DeliveryOk(s) && c in s.clients && s.clients[c].phase.Polling?
    requires Decimal(s.clients[c].port) in s.pending
    ensures var ch := s.pending[Decimal(s.clients[c].port)]; Waiting(s, ch, c) && s.channels[ch].client == c
  {
    var key := Decimal(s.clients[c].port);
    var ch := s.pending[key];
    KeyedWaits(s, ch, key);
    DecimalInjective(s.clients[c].port, s.clients[s.channels[ch].client].port);
  }

  lemma PickUpDelivers(s: Sys, c: nat)
    requires Tunnel.Inv(s) && DialsOk(s) && DeliveryOk(s) && Enabled(s, Poll(c))
    requires Decimal(s.clients[c].port) in s.pending
    ensures DeliveryOk(ApplyPoll(s, c))
  {
    var t, ch := ApplyPoll(s, c), s.pending[Decimal(s.clients[c].port)];
    PendingIsOwn(s, c);
    forall d, dh: nat | Waiting(t, dh, d) ensures Expects(t.clients[d].phase) {
      assert Waiting(s, dh, d);
      if d == c { WaitingUnique(s, ch, c, dh, c); }
    }
  }

  lemma DialDelivers(s: Sys, header: Input, reply: Reply)
    requires OrderlyOk(s) && ServesClient(s)
    ensures DeliveryOk(Served(s, header, reply))
  {
    var t, c := Served(s, header, reply), s.requests[0].from.c;
    assert AsksFor(s, |s.responses|, c);
    forall d, dh: nat | Waiting(t, dh, d) ensures Expects(t.clients[d].phase) {
      if dh < |s.channels| {
        assert t.channels[dh] == s.channels[dh];
        assert Waiting(s, dh, d);
      }
    }
  }

  lemma ReadDelivers(s: Sys)
    requires OrderlyOk(s) && Enabled(s, Read)
    ensures DeliveryOk(ApplyRead(s))
  {
    var t := ApplyRead(s);
    if s.caller.value.ForClient? { ClientReadsOwn(s); }
    assert ReplyOk(s, s.responses[0]);
    forall d, dh: nat | Waiting(t, dh, d) ensures Expects(t.clients[d].phase) {
      assert Waiting(s, dh, d) && Opened(s, dh, d);
    }
  }

  /** Steps that dial nothing and end no client's call. */
  predicate Quiet(step: Step) {
    step.Connect? || step.Call? || step.CallFails? || step.OtherCall? || step.AgentFails?
    || step.AgentAnswersOther? || step.TimeOut? || step.Reconnect?
  }

  lemma QuietDelivers(s: Sys, step: Step)
    requires DialsOk(s) && DeliveryOk(s) && Enabled(s, step) && Orderly(s, step) && Quiet(step)
    ensures DeliveryOk(Apply(s, step))
  {
    var t := Apply(s, step);
    forall d, dh: nat | Waiting(t, dh, d) ensures Waiting(s, dh, d) {}
  }

  lemma StepDelivers(s: Sys, step: Step)
    requires OrderlyOk(s) && Enabled(s, step) && Orderly(s, step)
    ensures DeliveryOk(Apply(s, step))
  {
    if Quiet(step) { QuietDelivers(s, step); } else {
      match step
      case Accept => AcceptDelivers(s);
      case Poll(c) =>
        if Decimal(s.clients[c].port) in s.pending { PickUpDelivers(s, c); } else { MissDelivers(s, c); }
      case AgentCutOff(n) => DialDelivers(s, AsInput(HeaderFor(s)[..n]), Failure);
      case AgentConnects => DialDelivers(s, AsInput(HeaderFor(s)), Success);
      case Read => ReadDelivers(s);
    }
  }

  lemma MissDelivers(s: Sys, c: nat)
    requires DeliveryOk(s) && Enabled(s, Poll(c)) && Decimal(s.clients[c].port) !in s.pending
    ensures DeliveryOk(ApplyPoll(s, c))
  {
    forall d, dh: nat | Waiting(ApplyPoll(s, c), dh, d) ensures Waiting(s, dh, d) {}
  }

  lemma {:induction false} ReachedDelivery(steps: seq<Step>)
    requires Exec(steps).Some? && OrderlyRun(steps)
    ensures OrderlyOk(Exec(steps).value)
  {
    if steps != [] {
      var before, step := steps[..|steps| - 1], steps[|steps| - 1];
      ReachedDelivery(before);
      StepKeepsOrderly(Exec(before).value, step);
    }
  }

  lemma StepKeepsOrderly(s: Sys, step: Step)
    requires OrderlyOk(s) && Enabled(s, step) && Orderly(s, step)
    ensures OrderlyOk(Apply(s, step))
  {
    Tunnel.StepKeepsInv(s, step);
    StepKeepsWire(s, step);
    StepKeepsPairing(s, step);
    StepKeepsAlone(s, step);
    StepDelivers(s, step);
  }

  // ---------- Exact delivery ----------

  /** In an orderly run a client that is bridged has the very channel that was dialled for
      its own request, with its port's whole header; no channel is overwritten, nor would one
      be if the backlog were taken in now. */
  lemma ExactDelivery(steps: seq<Step>, s: Sys)
    requires Exec(steps) == Some(s) && OrderlyRun(steps)
    ensures forall c :: c in s.clients && s.clients[c].phase.Bridged? ==> Opened(s, s.clients[c].phase.channel, c)
    ensures BacklogOk(s) && AcceptAll(s).overwritten == s.overwritten == {}
  {
    ReachedDelivery(steps);
    forall c | c in s.clients && s.clients[c].phase.Bridged? ensures Opened(s, s.clients[c].phase.channel, c) {
      var ch: nat :| Opened(s, ch, c);
    }
    CatchingUpOverwritesIff(steps, s);
    forall key, ch, dh ensures !Collide(s, key, ch, dh) {
      if Live(s, ch, key) && Live(s, dh, key) {
        assert ch !in s.claimed && dh !in s.claimed;
        SameKeySameChannel(s, ch, dh, key);
      }
    }
  }

  lemma {:induction false} AcceptAllRuns(steps: seq<Step>, s: Sys) returns (more: seq<Step>)
    requires Exec(steps) == Some(s) && OrderlyRun(steps)
    ensures BacklogOk(s) && Exec(more) == Some(AcceptAll(s)) && OrderlyRun(more)
    decreases |s.backlog|
  {
    ReachedDelivery(steps);
    if s.backlog == [] {
      more := steps;
    } else {
      var t := Extend(steps, s, Accept);
      assert (steps + [Accept])[..|steps|] == steps;
      more := AcceptAllRuns(steps + [Accept], t);
    }
  }

  lemma ClaimedIsBridged(s: Sys, ch: nat, c: nat)
    requires OrderlyOk(s) && SeenOk(s) && ch in s.claimed && Opened(s, ch, c)
    ensures s.clients[c].phase == Bridged(ch)
  {
    var d :| BridgedTo(s, d, ch);
  }

  /** And it need not wait long: the channel of every polling client is pending under its key,
      or in the backlog. */
  lemma PollingHasChannel(steps: seq<Step>, s: Sys, c: nat)
    requires Exec(steps) == Some(s) && OrderlyRun(steps)
    requires c in s.clients && s.clients[c].phase.Polling?
    ensures exists ch: nat :: Opened(s, ch, c) && (ch in s.backlog || Holds(s, Decimal(s.clients[c].port), ch))
  {
    ReachedDelivery(steps);
    ReachedSeen(steps);
    var ch: nat :| Opened(s, ch, c);
    LineOfHeader(s.clients[c].port);
    assert ch in s.backlog || ch in s.accepted;
    if ch in s.claimed { ClaimedIsBridged(s, ch, c); }
    if ch !in s.backlog { var key :| Holds(s, key, ch); }
  }

  lemma {:induction false} AcceptAllKeepsClients(s: Sys)
    requires BacklogOk(s)
    ensures AcceptAll(s).clients == s.clients && AcceptAll(s).channels == s.channels && AcceptAll(s).backlog == []
    decreases |s.backlog|
  {
    if s.backlog != [] {
      AcceptKeepsBacklog(s);
      AcceptAllKeepsClients(ApplyAccept(s));
    }
  }

  /** Once the backlog is taken in, its next poll bridges the client to that channel. */
  lemma NextPollBridges(steps: seq<Step>, s: Sys, c: nat)
    requires Exec(steps) == Some(s) && OrderlyRun(steps)
    requires c in s.clients && s.clients[c].phase.Polling? && s.clients[c].phase.tries < MAX_TRIES
    ensures BacklogOk(s) && Enabled(AcceptAll(s), Poll(c))
    ensures exists ch: nat :: Opened(s, ch, c) && Apply(AcceptAll(s), Poll(c)).clients[c].phase == Bridged(ch)
  {
    ReachedDelivery(steps);
    AcceptAllKeepsClients(s);
    var more := AcceptAllRuns(steps, s);
    PollingHasChannel(more, AcceptAll(s), c);
    var ch: nat :| Opened(AcceptAll(s), ch, c) && Holds(AcceptAll(s), Decimal(s.clients[c].port), ch);
    assert Opened(s, ch, c);
  }

  // ---------- One client alone ----------

  /** A client that misses its channel keeps polling, and may give up after exactly 50 misses. */
  lemma MissesAndGivesUp(steps: seq<Step>, s: Sys, c: nat, misses: nat) returns (all: seq<Step>, t: Sys)
    requires Exec(steps) == Some(s) && c in s.clients && s.clients[c].phase == Polling(0) && misses <= 50
    requires Decimal(s.clients[c].port) !in s.pending
    ensures all == steps + Polls(c, misses) && Exec(all) == Some(t)
    ensures t == WithPhase(s, c, Polling(misses))
    ensures (Enabled(t, GiveUp(c)) <==> misses == 50) && (Enabled(t, Poll(c)) <==> misses < 50)
  {
    all, t := Misses(steps, s, c, misses);
  }

  lemma {:induction false} Misses(steps: seq<Step>, s: Sys, c: nat, misses: nat) returns (all: seq<Step>, t: Sys)
    requires Exec(steps) == Some(s) && c in s.clients && s.clients[c].phase == Polling(0) && misses <= MAX_TRIES
    requires Decimal(s.clients[c].port) !in s.pending
    ensures all == steps + Polls(c, misses) && Exec(all) == Some(t)
    ensures t == WithPhase(s, c, Polling(misses))
  {
    if misses == 0 {
      all, t := steps, s;
    } else {
      var before, u := Misses(steps, s, c, misses - 1);
      LastPhase(s, c, Polling(misses - 1), Polling(misses));
      PollsNext(steps, c, misses);
      all, t := PollMisses(before, u, c);
    }
  }

  function Polls(c: nat, n: nat): seq<Step> {
    seq(n, _ => Poll(c))
  }

  lemma PollsNext(steps: seq<Step>, c: nat, n: nat)
    requires n > 0
    ensures steps + Polls(c, n) == steps + Polls(c, n - 1) + [Poll(c)]
  {
  }

  lemma PollMisses(steps: seq<Step>, s: Sys, c: nat) returns (more: seq<Step>, t: Sys)
    requires Exec(steps) == Some(s) && Enabled(s, Poll(c)) && Decimal(s.clients[c].port) !in s.pending
    ensures more == steps + [Poll(c)] && Exec(more) == Some(t)
    ensures t == WithPhase(s, c, Polling(s.clients[c].phase.tries + 1))
  {
    t := Extend(steps, s, Poll(c));
    more := steps + [Poll(c)];
  }

  lemma LastPhase(s: Sys, c: nat, p: Phase, q: Phase)
    requires c in s.clients
    ensures WithPhase(WithPhase(s, c, p), c, q) == WithPhase(s, c, q)
  {
    assert s.clients[c := s.clients[c].(phase := p)][c := s.clients[c].(phase := q)]
        == s.clients[c := s.clients[c].(phase := q)];
  }

  /** On a free connection with nothing under way, a client is bridged to a new channel with the
      header of its port, and nothing else is changed by it. */
  lemma ClientIsBridged(steps: seq<Step>, s: Sys, c: nat, port: nat) returns (more: seq<Step>, t: Sys)
    requires Exec(steps) == Some(s) && c !in s.clients && port < 0x1_0000
    requires s.caller == None && s.requests == [] && s.responses == [] && s.backlog == []
    requires Decimal(port) !in s.pending
    ensures Exec(more) == Some(t)
    ensures t == s.(clients := s.clients[c := Client(port, Bridged(|s.channels|))], idCounter := s.idCounter + 1,
                    before := [], channels := s.channels + [Channel(AsInput(Header(port)), c)],
                    accepted := s.accepted + {|s.channels|}, claimed := s.claimed + {|s.channels|})
  {
    LineOfHeader(port);
    var s1;
    more, s1 := ConnectThrough(steps, s, c, port);
    var s2 := Extend(more, s1, Accept);
    more := more + [Accept];
    t := Extend(more, s2, Poll(c));
    more := more + [Poll(c)];
    assert t.pending == s.pending;
  }

  // ---------- Two clients of one port ----------

  /** A client that connects and calls on a free connection. */
  lemma ConnectAndCall(steps: seq<Step>, s: Sys, c: nat, port: nat) returns (more: seq<Step>, t: Sys)
    requires Exec(steps) == Some(s) && c !in s.clients && port < 0x1_0000
    requires s.caller == None && s.requests == [] && s.responses == []
    ensures Exec(more) == Some(t)
    ensures t == s.(clients := s.clients[c := Client(port, Asking)], caller := Some(ForClient(c)),
                    idCounter := s.idCounter + 1, before := [], requests := [Request(s.idCounter + 1, ForClient(c))])
  {
    var s1 := Extend(steps, s, Connect(c, port));
    t := CallAlone(steps + [Connect(c, port)], s1, c);
    more := steps + [Connect(c, port)] + [Call(c)];
    assert t.clients == s.clients[c := Client(port, Asking)];
  }

  /** A client that has connected calls on a free connection. */
  lemma CallAlone(steps: seq<Step>, s: Sys, c: nat) returns (t: Sys)
    requires Exec(steps) == Some(s) && Enabled(s, Call(c)) && s.requests == [] && s.responses == []
    ensures Exec(steps + [Call(c)]) == Some(t)
    ensures t == WithPhase(s, c, Asking).(caller := Some(ForClient(c)), idCounter := s.idCounter + 1, before := [],
                                          requests := [Request(s.idCounter + 1, ForClient(c))])
  {
    assert Outstanding(s) == [];
    t := Extend(steps, s, Call(c));
  }

  /** And then reads "connected". */
  lemma ConnectThrough(steps: seq<Step>, s: Sys, c: nat, port: nat) returns (more: seq<Step>, t: Sys)
    requires Exec(steps) == Some(s) && c !in s.clients && port < 0x1_0000
    requires s.caller == None && s.requests == [] && s.responses == []
    ensures Exec(more) == Some(t)
    ensures t == s.(clients := s.clients[c := Client(port, Polling(0))], idCounter := s.idCounter + 1, before := [],
                    channels := s.channels + [Channel(AsInput(Header(port)), c)],
                    backlog := s.backlog + [|s.channels|])
  {
    var s1, s2;
    more, s1 := ConnectAndCall(steps, s, c, port);
    s2 := Extend(more, s1, AgentConnects);
    more := more + [AgentConnects];
    t := Extend(more, s2, Read);
    more := more + [Read];
    assert t.responses == [] && t.requests == [];
  }

  /** Orderliness matters: of two clients of one port in flight together, one can lose its
      channel to the other's. */
  lemma TwoClientsOverwrite(port: nat)
    requires port < 0x1_0000
    ensures exists steps, s :: Exec(steps) == Some(s) && s.overwritten == {0} && s.lost == 0
              && s.clients == map[0 := Client(port, Polling(0)), 1 := Client(port, Polling(0))]
  {
    LineOfHeader(port);
    var steps, s := ConnectThrough([], INIT, 0, port);
    steps, s := ConnectThrough(steps, s, 1, port);
    assert s.backlog == [0, 1];
    var t := Extend(steps, s, Accept);
    var u := Extend(steps + [Accept], t, Accept);
    assert u.overwritten == {0} && u.clients == s.clients;
  }
}
