/** The daemon's table of host-port listeners under every interleaving of starts, restores
    and stops (cmd/aetheria/main.go:1021-1057, 1112-1123 and 1174-1212). */
module Listeners {
  import opened Options

  /** Listeners are numbered in the order in which they are opened. */
  datatype Sys = Sys(
    made: nat,                    // listeners opened so far
    open: map<nat, nat>,          // open listeners and their host ports
    table: map<nat, nat>,         // pfListeners: host port to listener
    spawned: map<nat, nat>,       // listenPortForward goroutines before net.Listen: their ports
    bound: map<nat, nat>)         // after net.Listen, before the table: their listeners

  /** startPortForwards and restorePortForwards spawn one goroutine for each port. */
  datatype Step =
    | Spawn(g: nat, port: nat)
    | Listen(g: nat)
    | ListenFails(g: nat)         // for another reason than a listener on the port
    | Insert(g: nat)
    | Stop(ports: seq<nat>)

  const INIT := Sys(0, map[], map[], map[], map[])

  predicate PortTaken(s: Sys, port: nat) {
    exists ln :: ln in s.open && s.open[ln] == port
  }

  predicate Enabled(s: Sys, step: Step) {
    match step
    case Spawn(g, _) => g !in s.spawned && g !in s.bound
    case Listen(g) => g in s.spawned
    case ListenFails(g) => g in s.spawned
    case Insert(g) => g in s.bound && s.bound[g] in s.open
    case Stop(_) => true
  }

  // ---------- Stopping, port by port ----------

  /** The listeners that stopPortForwards closes. */
  function ToClose(table: map<nat, nat>, ports: seq<nat>): set<nat> {
    set p | p in ports && p in table :: table[p]
  }

  function WithoutPorts<V>(table: map<nat, V>, ports: seq<nat>): map<nat, V> {
    map p | p in table && p !in ports :: table[p]
  }

  function Apply(s: Sys, step: Step): Sys
    requires Enabled(s, step)
  {
    match step
    case Spawn(g, port) => s.(spawned := s.spawned[g := port])
    case Listen(g) =>
      var t := s.(spawned := s.spawned - {g});
      if PortTaken(s, s.spawned[g]) then t
      else t.(made := s.made + 1, open := s.open[s.made := s.spawned[g]], bound := s.bound[g := s.made])
    case ListenFails(g) => s.(spawned := s.spawned - {g})
    case Insert(g) => s.(table := s.table[s.open[s.bound[g]] := s.bound[g]], bound := s.bound - {g})
    case Stop(ports) => s.(open := s.open - ToClose(s.table, ports), table := WithoutPorts(s.table, ports))
  }

  function Exec(s: Sys, steps: seq<Step>): Option<Sys> {
    if steps == [] then Some(s)
    else
      match Exec(s, steps[..|steps| - 1])
      case None => None
      case Some(t) => if Enabled(t, steps[|steps| - 1]) then Some(Apply(t, steps[|steps| - 1])) else None
  }

  // ---------- Soundness of the table ----------

  predicate InTable(s: Sys, ln: nat) {
    ln in s.open && s.open[ln] in s.table && s.table[s.open[ln]] == ln
  }

  predicate BoundBy(s: Sys, g: nat, ln: nat) {
    g in s.bound && s.bound[g] == ln
  }

  ghost predicate IsBound(s: Sys, ln: nat) {
    exists g :: BoundBy(s, g, ln)
  }

  /** Entries are open, ports have one open listener, and an open listener is in the table
      or with exactly one goroutine between its bind and its insert. */
  ghost predicate Inv(s: Sys) {
    && (forall ln :: ln in s.open ==> ln < s.made)
    && s.spawned.Keys !! s.bound.Keys
    && (forall p :: p in s.table ==> s.table[p] in s.open && s.open[s.table[p]] == p)
    && (forall k, l :: k in s.open && l in s.open && s.open[k] == s.open[l] ==> k == l)
    && (forall g :: g in s.bound ==> s.bound[g] in s.open && !InTable(s, s.bound[g]))
    && (forall g, h :: g in s.bound && h in s.bound && s.bound[g] == s.bound[h] ==> g == h)
    && (forall ln :: ln in s.open && !InTable(s, ln) ==> IsBound(s, ln))
  }

  lemma BindKeepsInv(s: Sys, g: nat)
    requires Inv(s) && g in s.spawned && !PortTaken(s, s.spawned[g])
    ensures Inv(Apply(s, Listen(g)))
  {
    var t := Apply(s, Listen(g));
    forall ln | ln in t.open && !InTable(t, ln) ensures IsBound(t, ln) {
      if ln in s.open {
        assert !InTable(s, ln);
        var h :| BoundBy(s, h, ln);
        assert BoundBy(t, h, ln);
      } else {
        assert BoundBy(t, g, ln);
      }
    }
  }

  /** Only the goroutines before net.Listen change. */
  lemma SpawnedKeepInv(s: Sys, t: Sys)
    requires Inv(s) && t == s.(spawned := t.spawned) && t.spawned.Keys !! s.bound.Keys
    ensures Inv(t)
  {
    forall ln | ln in t.open && !InTable(t, ln) ensures IsBound(t, ln) {
      assert !InTable(s, ln);
      var h :| BoundBy(s, h, ln);
      assert BoundBy(t, h, ln);
    }
  }

  lemma InsertKeepsInv(s: Sys, g: nat)
    requires Inv(s) && Enabled(s, Insert(g))
    ensures Inv(Apply(s, Insert(g)))
  {
    var t := Apply(s, Insert(g));
    assert s.open[s.bound[g]] !in s.table;
    forall ln | ln in t.open && !InTable(t, ln) ensures IsBound(t, ln) {
      assert !InTable(s, ln);
      var h :| BoundBy(s, h, ln);
      assert BoundBy(t, h, ln);
    }
  }

  lemma StopKeepsInv(s: Sys, ports: seq<nat>)
    requires Inv(s)
    ensures Inv(Apply(s, Stop(ports)))
  {
    var t := Apply(s, Stop(ports));
    forall ln | InTable(s, ln) && s.open[ln] in ports ensures ln in ToClose(s.table, ports) {}
    forall ln | ln in t.open ensures InTable(t, ln) <==> InTable(s, ln) {}
    forall ln | ln in t.open && !InTable(t, ln) ensures IsBound(t, ln) {
      assert !InTable(s, ln);
      var h :| BoundBy(s, h, ln);
      assert BoundBy(t, h, ln);
    }
  }

  lemma StepKeepsInv(s: Sys, step: Step)
    requires Inv(s) && Enabled(s, step)
    ensures Inv(Apply(s, step))
  {
    match step
    case Listen(g) =>
      if PortTaken(s, s.spawned[g]) { SpawnedKeepInv(s, Apply(s, step)); } else { BindKeepsInv(s, g); }
    case Insert(g) => InsertKeepsInv(s, g);
    case Stop(ports) => StopKeepsInv(s, ports);
    case _ => SpawnedKeepInv(s, Apply(s, step));
  }

  lemma {:induction false} ReachedInv(steps: seq<Step>)
    requires Exec(INIT, steps).Some?
    ensures Inv(Exec(INIT, steps).value)
  {
    if steps != [] {
      ReachedInv(steps[..|steps| - 1]);
      StepKeepsInv(Exec(INIT, steps[..|steps| - 1]).value, steps[|steps| - 1]);
    }
  }

  /** An entry of the table is the one open listener on its port. */
  lemma EntryIsTheListener(steps: seq<Step>, s: Sys, port: nat, ln: nat)
    requires Exec(INIT, steps) == Some(s) && port in s.table
    ensures s.table[port] == ln <==> ln in s.open && s.open[ln] == port
  {
    ReachedInv(steps);
  }

  /** No open listener is lost: it is in the table, or a goroutine is about to enter it
      there, and never both. */
  lemma OpenIsAccountedFor(steps: seq<Step>, s: Sys, ln: nat)
    requires Exec(INIT, steps) == Some(s) && ln in s.open
    ensures InTable(s, ln) <==> !IsBound(s, ln)
  {
    ReachedInv(steps);
  }

  // ---------- Restoring twice ----------

  /** Only goroutines for ports that have an entry, and only starting. */
  predicate Restores(s: Sys, step: Step) {
    match step
    case Spawn(_, port) => port in s.table
    case Listen(g) => g in s.spawned && s.spawned[g] in s.table
    case ListenFails(g) => g in s.spawned && s.spawned[g] in s.table
    case _ => false
  }

  ghost predicate AllRestore(s: Sys, steps: seq<Step>) {
    steps == [] ||
    (var before := steps[..|steps| - 1];
     AllRestore(s, before) && (Exec(s, before).Some? ==> Restores(Exec(s, before).value, steps[|steps| - 1])))
  }

  /** Restoring ports that are already forwarded changes no listener and no entry. */
  lemma {:induction false} RestoringAgainChangesNothing(s: Sys, steps: seq<Step>)
    requires Inv(s) && Exec(s, steps).Some? && AllRestore(s, steps)
    ensures var t := Exec(s, steps).value;
            Inv(t) && t.open == s.open && t.table == s.table && t.bound == s.bound && t.made == s.made
  {
    if steps != [] {
      RestoringAgainChangesNothing(s, steps[..|steps| - 1]);
      StepKeepsInv(Exec(s, steps[..|steps| - 1]).value, steps[|steps| - 1]);
    }
  }

  // ---------- What a stop can miss ----------

  /** After a stop of its port, a listener is still open exactly if it was between its bind
      and its insert. */
  lemma StopMissesIff(steps: seq<Step>, s: Sys, ports: seq<nat>, ln: nat)
    requires Exec(INIT, steps) == Some(s) && ln in s.open && s.open[ln] in ports
    ensures ln in Apply(s, Stop(ports)).open <==> IsBound(s, ln)
  {
    ReachedInv(steps);
    OpenIsAccountedFor(steps, s, ln);
  }

  /** A stopped port is free for the next start, unless a listener was missed. */
  lemma StoppedPortIsFree(steps: seq<Step>, s: Sys, ports: seq<nat>, port: nat)
    requires Exec(INIT, steps) == Some(s) && port in ports && s.bound == map[]
    ensures port !in Apply(s, Stop(ports)).table && !PortTaken(Apply(s, Stop(ports)), port)
  {
    ReachedInv(steps);
    forall ln | ln in s.open && s.open[ln] == port ensures ln !in Apply(s, Stop(ports)).open {
      StopMissesIff(steps, s, ports, ln);
    }
  }

  // ---------- What starts and stops do ----------

  /** A stop closes exactly the listeners in the table under its ports, and forgets exactly
      their entries; all other listeners and entries stay. */
  lemma StopClosesIff(steps: seq<Step>, s: Sys, ports: seq<nat>)
    requires Exec(INIT, steps) == Some(s)
    ensures var t := Apply(s, Stop(ports));
            && t.open == (map ln | ln in s.open && !(s.open[ln] in ports && InTable(s, ln)) :: s.open[ln])
            && t.table == (map p | p in s.table && p !in ports :: s.table[p])
            && t.bound == s.bound && t.spawned == s.spawned && t.made == s.made
  {
    ReachedInv(steps);
    forall ln | ln in s.open ensures ln in ToClose(s.table, ports) <==> s.open[ln] in ports && InTable(s, ln) {
      if InTable(s, ln) && s.open[ln] in ports { assert s.table[s.open[ln]] == ln; }
    }
  }

  /** One more listener, open and in the table. */
  function WithListener(s: Sys, port: nat): Sys {
    s.(made := s.made + 1, open := s.open[s.made := port], table := s.table[port := s.made])
  }

  /** A start on a free port, run to its end: the port has an open listener and an entry, every
      other one keeps its own. */
  lemma StartForwards(steps: seq<Step>, s: Sys, g: nat, port: nat)
    requires Exec(INIT, steps) == Some(s) && Enabled(s, Spawn(g, port)) && !PortTaken(s, port)
    ensures var all := steps + [Spawn(g, port)] + [Listen(g)] + [Insert(g)];
            Exec(INIT, all) == Some(WithListener(s, port))
  {
    ReachedInv(steps);
    var s1 := Extend(steps, s, Spawn(g, port));
    var s2 := Extend(steps + [Spawn(g, port)], s1, Listen(g));
    var s3 := Extend(steps + [Spawn(g, port)] + [Listen(g)], s2, Insert(g));
    assert s3.spawned == s.spawned && s3.bound == s.bound;
  }

  lemma Extend(steps: seq<Step>, s: Sys, step: Step) returns (t: Sys)
    requires Exec(INIT, steps) == Some(s) && Enabled(s, step)
    ensures Exec(INIT, steps + [step]) == Some(t) && t == Apply(s, step)
  {
    assert (steps + [step])[..|steps|] == steps;
    t := Apply(s, step);
  }

  /** Stopping undoes starting: the listeners and entries are those of before. */
  lemma StopUndoesStart(steps: seq<Step>, s: Sys, g: nat, port: nat)
    requires Exec(INIT, steps) == Some(s) && Enabled(s, Spawn(g, port)) && !PortTaken(s, port)
    ensures var all := steps + [Spawn(g, port)] + [Listen(g)] + [Insert(g)] + [Stop([port])];
            Exec(INIT, all) == Some(s.(made := s.made + 1))
  {
    ReachedInv(steps);
    StartForwards(steps, s, g, port);
    var all := steps + [Spawn(g, port)] + [Listen(g)] + [Insert(g)];
    var t := Exec(INIT, all).value;
    var u := Extend(all, t, Stop([port]));
    StopAfterStart(s, port);
  }

  lemma StopAfterStart(s: Sys, port: nat)
    requires Inv(s) && !PortTaken(s, port)
    ensures Apply(WithListener(s, port), Stop([port])) == s.(made := s.made + 1)
  {
    var t := WithListener(s, port);
    var u := Apply(t, Stop([port]));
    assert port !in s.table && s.made !in s.open;
    assert port in [port] && t.table[port] == s.made;
    assert ToClose(t.table, [port]) == {s.made};
    assert u.open == s.open && u.table == s.table;
  }

  /** A start that finds its port taken, or cannot listen for another reason, changes nothing. */
  lemma FailedStartChangesNothing(steps: seq<Step>, s: Sys, g: nat, port: nat)
    requires Exec(INIT, steps) == Some(s) && Enabled(s, Spawn(g, port))
    ensures Exec(INIT, steps + [Spawn(g, port)] + [ListenFails(g)]) == Some(s)
    ensures PortTaken(s, port) ==> Exec(INIT, steps + [Spawn(g, port)] + [Listen(g)]) == Some(s)
  {
    var t := Extend(steps, s, Spawn(g, port));
    assert t.spawned - {g} == s.spawned;
    var u := Extend(steps + [Spawn(g, port)], t, ListenFails(g));
    if PortTaken(s, port) {
      var ln :| ln in s.open && s.open[ln] == port;
      assert PortTaken(t, port);
      var v := Extend(steps + [Spawn(g, port)], t, Listen(g));
    }
  }

  /** In every reachable state ports can be stopped and a new goroutine can start on any port, and
      every goroutine can go on. */
  lemma NobodyIsStuck(steps: seq<Step>, s: Sys, g: nat, port: nat, ports: seq<nat>)
    requires Exec(INIT, steps) == Some(s)
    ensures Enabled(s, Stop(ports))
    ensures g !in s.spawned && g !in s.bound ==> Enabled(s, Spawn(g, port))
    ensures g in s.spawned ==> Enabled(s, Listen(g)) && Enabled(s, ListenFails(g))
    ensures g in s.bound ==> Enabled(s, Insert(g))
  {
    ReachedInv(steps);
  }

  // ---------- The code ----------

  class Listener {
    const port: nat
    var open: bool

    constructor (port: nat)
      ensures this.port == port && open
    {
      this.port, open := port, true;
    }

    method Close()
      modifies this
      ensures !open
    {
      open := false;
    }
  }

  class Daemon {
    var pfListeners: map<nat, Listener>

    /** The table's invariant: each entry is open, on its own port. */
    ghost predicate Valid()
      reads this, pfListeners.Values
    {
      forall p :: p in pfListeners ==> pfListeners[p].port == p && pfListeners[p].open
    }

    constructor ()
      ensures Valid() && pfListeners == map[]
    {
      pfListeners := map[];
    }

    /** stopPortForwards: closes and forgets the listeners of the given ports, in one
        critical section; the others stay open. */
    method StopPortForwards(ports: seq<nat>)
      requires Valid()
      modifies this, pfListeners.Values
      ensures Valid() && pfListeners == WithoutPorts(old(pfListeners), ports)
      ensures forall p :: p in old(pfListeners) && p in ports ==> !old(pfListeners)[p].open
      ensures forall p :: p in old(pfListeners) && p !in ports ==> old(pfListeners)[p].open
    {
      ghost var before := pfListeners;
      for i := 0 to |ports|
        invariant pfListeners == WithoutPorts(before, ports[..i])
        invariant forall p :: p in before ==> before[p].port == p && before[p].open == (p !in ports[..i])
      {
        var port := ports[i];
        assert ports[..i + 1] == ports[..i] + [port];
        if port in pfListeners {
          pfListeners[port].Close();
          pfListeners := pfListeners - {port};
        }
      }
      assert ports[..|ports|] == ports;
    }
  }
}
