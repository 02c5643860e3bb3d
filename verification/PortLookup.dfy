/** Which container a forwarded host port leads to
    (cmd/aetheria-agent/portforward.go:119-145). */
module PortLookup {
  import opened IpPool
  import opened Lifecycle
  import opened Linearization
  import opened Manager
  import opened ManagerRuns
  import opened Options
  import opened RunProperties

  datatype Answer =
    | Target(name: string, containerPort: nat, ip: string)
    | NoAddress(name: string)
    | NoMapping

  const LOOPBACK := "127.0.0.1"

  /** Position i is the first mapping of the host port. */
  ghost predicate MapsAt(ports: seq<PortMapping>, hostPort: nat, i: int) {
    0 <= i < |ports| && ports[i].hostPort == hostPort && forall j :: 0 <= j < i ==> ports[j].hostPort != hostPort
  }

  ghost predicate Forwards(r: Record, hostPort: nat) {
    r.status == Running && exists i :: MapsAt(r.config.ports, hostPort, i)
  }

  /** Where services of a running container listen. */
  function AddressOf(r: Record): Option<string> {
    if r.ip != "" then Some(r.ip)
    else if r.config.network == NET_HOST then Some(LOOPBACK)
    else None
  }

  /** The answer names this container, this port inside it and its address. */
  predicate AnswersFor(r: Record, containerPort: nat, a: Answer) {
    match a
    case Target(name, port, ip) => name == r.name && port == containerPort && AddressOf(r) == Some(ip)
    case NoAddress(name) => name == r.name && AddressOf(r) == None
    case NoMapping => false
  }

  /** The answer is right for this container, whose first mapping of the port decides. */
  ghost predicate Answers(r: Record, hostPort: nat, a: Answer) {
    && r.status == Running
    && exists i :: MapsAt(r.config.ports, hostPort, i) && AnswersFor(r, r.config.ports[i].containerPort, a)
  }

  /** The container runs, its first mapping of the port names this port inside it, and it is
      reached under its own address, or on the VM's loopback if it shares the VM's network. */
  ghost predicate LeadsTo(r: Record, hostPort: nat, a: Answer)
    requires a.Target?
  {
    && r.status == Running && a.name == r.name
    && (exists i :: MapsAt(r.config.ports, hostPort, i) && a.containerPort == r.config.ports[i].containerPort)
    && (if r.ip != "" then a.ip == r.ip else r.config.network == "host" && a.ip == "127.0.0.1")
  }

  method FirstMapping(ports: seq<PortMapping>, hostPort: nat) returns (i: nat)
    ensures i <= |ports|
    ensures i < |ports| ==> MapsAt(ports, hostPort, i)
    ensures i == |ports| ==> forall j :: !MapsAt(ports, hostPort, j)
  {
    i := 0;
    while i < |ports|
      invariant 0 <= i <= |ports|
      invariant forall j :: 0 <= j < i ==> ports[j].hostPort != hostPort
    {
      if ports[i].hostPort == hostPort { return; }
      i := i + 1;
    }
  }

  /** lookupPortForward: a running container that forwards the port, if there is one. Go's
      map iteration decides between several. */
  method LookupPortForward(cm: ContainerManager, hostPort: nat) returns (a: Answer)
    requires cm.Valid()
    ensures a != NoMapping ==> exists n :: n in cm.containers && Answers(cm.containers[n].View(), hostPort, a)
    ensures a == NoMapping <==> forall n :: n in cm.containers ==> !Forwards(cm.containers[n].View(), hostPort)
    ensures a.Target? ==> exists n :: n in cm.containers && LeadsTo(cm.containers[n].View(), hostPort, a)
    ensures a.NoAddress? ==> exists n :: n in cm.containers && Forwards(cm.containers[n].View(), hostPort)
                               && cm.containers[n].ip == "" && cm.containers[n].config.network != "host"
  {
    var todo := cm.containers.Keys;
    while todo != {}
      invariant todo <= cm.containers.Keys
      invariant forall n :: n in cm.containers.Keys - todo ==> !Forwards(cm.containers[n].View(), hostPort)
      decreases |todo|
    {
      var n :| n in todo;
      var c := cm.containers[n];
      todo := todo - {n};
      if c.status == Running {
        var i := FirstMapping(c.config.ports, hostPort);
        if i < |c.config.ports| {
          assert MapsAt(c.View().config.ports, hostPort, i);
          var ip := c.ip;
          if ip == "" {
            if c.config.network != NET_HOST {
              a := NoAddress(c.name);
              assert Forwards(c.View(), hostPort);
              assert Answers(c.View(), hostPort, a);
              return;
            }
            ip := LOOPBACK;
          }
          a := Target(c.name, c.config.ports[i].containerPort, ip);
          assert LeadsTo(c.View(), hostPort, a);
          assert Answers(c.View(), hostPort, a);
          return;
        }
      }
    }
    a := NoMapping;
  }

  /** In every reachable state the network decides: on the host's the loopback answers, on the
      bridge one of its addresses or, if it could not be set up, none, and otherwise none. */
  lemma AnswerByNetwork(s0: Sys, steps: seq<Step>, s: Sys, o: nat, hostPort: nat, a: Answer)
    requires Reaches(s0, steps, s) && o < |s.m.objects| && Answers(s.m.objects[o], hostPort, a)
    ensures var network, ip := s.m.objects[o].config.network, s.m.objects[o].ip;
            if network == "host" then a.Target? && a.ip == "127.0.0.1"
            else if network == "bridge" && ip != "" then
              a.Target? && exists k: nat :: k < s.allocs && a.ip == Address(k) && HasAddress(s, o, k)
            else a == NoAddress(s.m.objects[o].name)
  {
    ReachedInv(s0, steps);
    ReachedBridged(s0, steps);
    assert ObjectOk(s, o);
    if s.m.objects[o].ip != "" {
      var k := s.runs[s.m.objects[o].cmd.value].alloc.value;
      assert HasAddress(s, o, k);
    }
  }

  /** In every reachable state with at most 253 allocations since the oldest address in use, the
      bridge address in an answer belongs to the container it names and to no other. */
  lemma AnswerBelongsToOne(s0: Sys, steps: seq<Step>, s: Sys, o: nat, hostPort: nat, port: nat, ip: string)
    requires Reaches(s0, steps, s) && RecentlyAllocated(s) && o < |s.m.objects|
    requires Answers(s.m.objects[o], hostPort, Target(s.m.objects[o].name, port, ip)) && ip != LOOPBACK
    ensures forall p :: 0 <= p < |s.m.objects| ==> (s.m.objects[p].ip == ip <==> p == o)
  {
    forall p | 0 <= p < |s.m.objects| && p != o ensures s.m.objects[p].ip != ip {
      AddressesDistinct(s0, steps, s, o, p);
    }
  }
}
