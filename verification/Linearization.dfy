/** Whole runs of the container manager: the events of every interleaving are a run of a
    sequential map from names to containers (cmd/aetheria-agent/container.go:302-560). */
module Linearization {
  import opened Manager
  import opened Options
  import opened ManagerRuns

  // ---------- Runs ----------

  /** The state and the events after a sequence of steps; None if one is not enabled. */
  function Exec(s: Sys, steps: seq<Step>): (r: Option<(Sys, seq<Event>)>)
    requires InRange(s)
    ensures r.Some? ==> InRange(r.value.0) && |r.value.1| == |steps|
  {
    if steps == [] then Some((s, []))
    else
      match Exec(s, steps[..|steps| - 1])
      case None => None
      case Some((t, events)) =>
        var step := steps[|steps| - 1];
        if !Enabled(t, step) || !InRange(Apply(t, step).0) then None
        else Some((Apply(t, step).0, events + [Apply(t, step).1]))
  }

  /** Reached from an initial state by some steps. */
  ghost predicate Reaches(s0: Sys, steps: seq<Step>, s: Sys) {
    Initial(s0) && InRange(s0) && Exec(s0, steps).Some? && Exec(s0, steps).value.0 == s
  }

  /** The range check in Exec never stops a run: only a step that is not enabled does. */
  lemma {:induction false} ReachedInv(s0: Sys, steps: seq<Step>)
    requires Initial(s0) && InRange(s0)
    ensures Exec(s0, steps).Some? ==> Inv(Exec(s0, steps).value.0)
    ensures steps != [] && Exec(s0, steps[..|steps| - 1]).Some? ==>
              (Exec(s0, steps).Some? <==> Enabled(Exec(s0, steps[..|steps| - 1]).value.0, steps[|steps| - 1]))
  {
    if steps == [] {
      InitialInv(s0);
    } else {
      var before := steps[..|steps| - 1];
      ReachedInv(s0, before);
      if Exec(s0, before).Some? {
        var t, step := Exec(s0, before).value.0, steps[|steps| - 1];
        if Enabled(t, step) {
          StepKeepsInv(t, step);
          InvInRange(Apply(t, step).0);
        }
      }
    }
  }

  // ---------- The sequential specification ----------

  datatype Entry = Entry(status: Status, cfg: Config)
  type Registry = map<string, Entry>

  /** What one operation does, and when it may refuse. A refusal for want of a root file
      system, for a process that does not come up, or because the container was replaced
      meanwhile, is always possible; every other refusal must be right. */
  ghost predicate Allows(a: Registry, e: Event, b: Registry) {
    match e
    case Made(n, cfg) => n !in a && ValidName(n) && b == a[n := Entry(Created, cfg)]
    case Started(n) => n in a && a[n].status != Running && b == a[n := a[n].(status := Running)]
    case Stopping(n) => n in a && a[n].status == Running && b == a
    case Removed(n) => n in a && a[n].status != Running && b == a - {n}
    case Exited(n) => n in a && a[n].status == Running && b == a[n := a[n].(status := Stopped)]
    case Listed(l) =>
      && l.Keys == a.Keys && (forall n :: n in l ==> Entry(l[n].status, l[n].config) == a[n])
      && b == a
    case Refused(op, n, error) => b == a && Justified(a, op, n, error)
    case Decided(_) => b == a
    case Hit(_, _) => b == a
    case Silent => b == a
  }

  ghost predicate Justified(a: Registry, op: Operation, n: string, error: Error) {
    match error
    case InvalidName => op == Create && !ValidName(n)
    case AlreadyExists => op == Create && n in a
    case BadRestartPolicy => op == Create
    case RootfsUnavailable => op == Create || op == Start
    case NotFound => op != Create && n !in a
    case AlreadyRunning => op == Start && n in a && a[n].status == Running
    case ModifiedDuringStart => op == Start
    case LaunchFailed => op == Start
    case NotRunning => op == Stop && n in a && a[n].status != Running
    case StillRunning => op == Remove && n in a && a[n].status == Running
  }

  function Abstract(m: State): Registry
    requires Consistent(m)
  {
    map n | n in m.names :: Entry(m.objects[m.names[n]].status, m.objects[m.names[n]].config)
  }

  /** Calls of Create in progress have a valid name. */
  ghost predicate CallsValid(s: Sys) {
    forall id :: id in s.calls && s.calls[id].Creating? ==> ValidName(s.calls[id].name)
  }

  // ---------- Every step is one sequential operation ----------

  lemma InsertAbstract(m: State, name: string, rootfs: string, cfg: Config)
    requires Consistent(m) && name !in m.names && Normalize(cfg).Some?
    ensures Consistent(Insert(m, name, rootfs, cfg).0)
    ensures Abstract(Insert(m, name, rootfs, cfg).0) == Abstract(m)[name := Entry(Created, Normalize(cfg).value)]
  {
  }

  lemma CreateAllowed(s: Sys, id: nat, rootfs: string, cfg: Config)
    requires Consistent(s.m) && CallsValid(s) && id in s.calls && s.calls[id].Creating?
    ensures var (t, e) := ApplyCreateEnd(s, id, rootfs, cfg);
            Consistent(t.m) && Allows(Abstract(s.m), e, Abstract(t.m))
  {
    var name := s.calls[id].name;
    if name !in s.m.names && Normalize(cfg).Some? { InsertAbstract(s.m, name, rootfs, cfg); }
  }

  /** Changing the status of a registered object changes one entry. */
  lemma UpdateAbstract(m: State, name: string, r: Record)
    requires Registered(m) && name in m.names && r.name == name && r.config == m.objects[m.names[name]].config
    ensures var t := m.(objects := m.objects[m.names[name] := r]);
            Consistent(t) && Abstract(t) == Abstract(m)[name := Abstract(m)[name].(status := r.status)]
  {
    forall n | n in m.names && n != name ensures m.names[n] != m.names[name] {}
  }

  lemma StartAllowed(s: Sys, id: nat, pid: nat, net: Network, made: bool)
    requires Registered(s.m) && Consistent(s.m) && id in s.calls && CallOk(s, s.calls[id]) && s.calls[id].Starting?
    ensures var (t, e) := ApplyStartEnd(s, id, pid, net, made);
            Consistent(t.m) && Allows(Abstract(s.m), e, Abstract(t.m))
  {
    var (t, e) := ApplyStartEnd(s, id, pid, net, made);
    if e.Started? { UpdateAbstract(s.m, e.name, t.m.objects[s.calls[id].obj]); }
  }

  lemma ReapAllowed(s: Sys, run: nat)
    requires Inv(s) && InRange(s) && run in s.reapers
    ensures var name := s.m.objects[s.runs[run].obj].name;
            Consistent(ApplyReap(s, run).m) && Allows(Abstract(s.m), Exited(name), Abstract(ApplyReap(s, run).m))
  {
    var o := s.runs[run].obj;
    assert ReaperOk(s, run) && ObjectOk(s, o);
    UpdateAbstract(s.m, s.m.objects[o].name, ApplyReap(s, run).m.objects[o]);
  }

  lemma RemoveAllowed(m: State, name: string)
    requires Consistent(m)
    ensures Consistent(Delete(m, name).0)
    ensures match Delete(m, name)
            case (t, Ok(_)) => Allows(Abstract(m), Event.Removed(name), Abstract(t))
            case (t, Err(e)) => t == m && Justified(Abstract(m), Remove, name, e)
  {
    var t := Delete(m, name).0;
    if t != m { assert Abstract(t) == Abstract(m) - {name}; }
  }

  lemma StopAllowed(s: Sys, name: string)
    requires Inv(s) && InRange(s)
    ensures match FindToStop(s.m, name)
            case Ok(_) => Allows(Abstract(s.m), Stopping(name), Abstract(s.m))
            case Err(e) => Justified(Abstract(s.m), Stop, name, e)
  {
    if name in s.m.names { assert ObjectOk(s, s.m.names[name]); }
  }

  lemma TimerAllowed(s: Sys, step: Step)
    requires InRange(s) && Enabled(s, step) && (step.SendSignal? || step.TimerChecks?)
    ensures Apply(s, step).0.m == s.m && Allows(Abstract(s.m), Apply(s, step).1, Abstract(s.m))
  {
  }

  /** First sections, failures outside the lock, exits and clean-up leave the registry alone. */
  lemma BookkeepingAllowed(s: Sys, step: Step)
    requires Inv(s) && InRange(s) && CallsValid(s) && Enabled(s, step)
    requires OnlyBookkeeping(step) || step.StartBegin? || step.Exit? || step.CleanUp?
    ensures Apply(s, step).0.m == s.m && Allows(Abstract(s.m), Apply(s, step).1, Abstract(s.m))
  {
  }

  /** The state change of a step is that of the one operation its event names. */
  lemma StepAllowed(s: Sys, step: Step)
    requires Inv(s) && InRange(s) && CallsValid(s) && Enabled(s, step)
    ensures Consistent(Apply(s, step).0.m)
    ensures Allows(Abstract(s.m), Apply(s, step).1, Abstract(Apply(s, step).0.m))
  {
    if step.SendSignal? || step.TimerChecks? { TimerAllowed(s, step); }
    else if OnlyBookkeeping(step) || step.StartBegin? || step.Exit? || step.CleanUp? { BookkeepingAllowed(s, step); }
    else {
      match step
      case CreateEnd(id, rootfs, cfg) => CreateAllowed(s, id, rootfs, cfg);
      case StartEnd(id, pid, net, made) => StartAllowed(s, id, pid, net, made);
      case StopCall(_, name) => StopAllowed(s, name);
      case RemoveCall(name) => RemoveAllowed(s.m, name);
      case Reap(r) => ReapAllowed(s, r);
    }
  }

  lemma StepKeepsCallsValid(s: Sys, step: Step)
    requires InRange(s) && CallsValid(s) && Enabled(s, step)
    ensures CallsValid(Apply(s, step).0)
  {
  }

  /** The registry before each event and after the last one is a run of the specification. */
  ghost predicate SequentialRun(trace: seq<Registry>, events: seq<Event>) {
    |trace| == |events| + 1 && forall i :: 0 <= i < |events| ==> Allows(trace[i], events[i], trace[i + 1])
  }

  lemma SequentialSnoc(trace: seq<Registry>, events: seq<Event>, e: Event, b: Registry)
    requires SequentialRun(trace, events) && Allows(trace[|events|], e, b)
    ensures SequentialRun(trace + [b], events + [e])
  {
    var t, es := trace + [b], events + [e];
    forall i | 0 <= i < |es| ensures Allows(t[i], es[i], t[i + 1]) {
      if i < |events| { assert Allows(trace[i], events[i], trace[i + 1]); }
    }
  }

  /** Refinement: the events of any interleaving, in the order of the critical sections,
      are a run of the sequential specification that ends in the manager's registry. */
  lemma {:induction false} RunsAreSequential(s0: Sys, steps: seq<Step>) returns (trace: seq<Registry>)
    requires Initial(s0) && InRange(s0) && Exec(s0, steps).Some?
    ensures SequentialRun(trace, Exec(s0, steps).value.1)
    ensures trace[0] == Abstract(s0.m)
    ensures trace[|steps|] == Abstract(Exec(s0, steps).value.0.m)
    ensures CallsValid(Exec(s0, steps).value.0)
  {
    if steps == [] {
      trace := [Abstract(s0.m)];
    } else {
      var before, step := steps[..|steps| - 1], steps[|steps| - 1];
      var earlier := RunsAreSequential(s0, before);
      var (s, events) := Exec(s0, before).value;
      ReachedInv(s0, before);
      StepAllowed(s, step);
      StepKeepsCallsValid(s, step);
      var after := Abstract(Apply(s, step).0.m);
      SequentialSnoc(earlier, events, Apply(s, step).1, after);
      trace := earlier + [after];
    }
  }
}
