/** The container manager under every interleaving of its critical sections with process
    exits, reapers and kill timers (cmd/aetheria-agent/container.go:302-560), and the
    resources a run owns by name: the veth link, the cgroup and the bridge address
    (cmd/aetheria-agent/network.go:107-182). */
module ManagerRuns {
  import opened Manager
  import opened Options
  import opened IpPool

  /** A process that was started, with the object it ran for; its position in the history
      identifies it. `alloc` is the number of the allocateIP call made for it. */
  datatype Process = Process(obj: nat, name: string, pid: nat, alloc: Option<nat>)

  /** A call between its two critical sections. */
  datatype Call = Creating(name: string) | Starting(name: string, obj: nat)

  /** A reaper goroutine: waiting for its process and cleaning up, or about to enter its
      critical section. */
  datatype Reaper = Waiting | CleanedUp

  datatype Signal = Term | Kill

  /** A Stop call past its critical section: about to send a signal, or its timer waiting. The
      run is the one that was current when Stop read the pid. */
  datatype Stage = Sending(signal: Signal) | Asleep
  datatype Timer = Timer(obj: nat, pid: nat, run: nat, stage: Stage)

  datatype Sys = Sys(
    m: State,
    calls: map<nat, Call>,
    reapers: map<nat, Reaper>,    // the unfinished ones, by run
    timers: map<nat, Timer>,
    runs: seq<Process>,           // history
    live: set<nat>,               // runs whose process has not been waited for
    links: map<string, nat>,      // veth name to the run that created it
    cgroups: map<string, nat>,    // cgroup directories by name, with the run they were last made for
    allocs: nat)                  // calls of allocateIP so far

  /** How far setupBridgeNetwork gets: before allocateIP, before or after the link is
      created, or to the end. */
  datatype Network = NoBridge | NoLink | PartialNetwork | FullNetwork

  datatype Step =
    | CreateBegin(id: nat, name: string)
    | CreateFail(id: nat)                       // no root file system
    | CreateEnd(id: nat, rootfs: string, cfg: Config)
    | StartBegin(id: nat, name: string)
    | StartFail(id: nat)                        // no root file system
    | StartNoProcess(id: nat)                   // cmd.Start fails, if it is reached
    | StartEnd(id: nat, pid: nat, net: Network, made: bool) // cmd.Start succeeds, if it is reached
    | StopCall(timer: nat, name: string)
    | SendSignal(timer: nat)                    // SIGTERM by Stop, or SIGKILL by its timer
    | TimerChecks(timer: nat)                   // the timer's critical section
    | RemoveCall(name: string)
    | ListCall
    | Exit(run: nat, linkGone: bool)            // the process has exited and cmd.Wait returns
    | CleanUp(run: nat, cgroupGone: bool)       // the reaper's clean-up by name
    | Reap(run: nat)                            // the reaper's critical section

  datatype Operation = Create | Start | Stop | Remove

  /** What a caller or an observer sees of a step. */
  datatype Event =
    | Made(name: string, cfg: Config)
    | Started(name: string)
    | Stopping(name: string)
    | Removed(name: string)
    | Listed(contents: map<string, Record>)
    | Exited(name: string)
    | Refused(op: Operation, name: string, error: Error)
    | Decided(run: nat)                  // a timer will kill, seeing this run
    | Hit(run: nat, signal: Signal)      // a signal reaches the process of this run
    | Silent

  const IFNAMSIZ := 15

  /** The host end of a container's veth pair. */
  function Veth(name: string): string {
    var v := "veth-" + name;
    if |v| > IFNAMSIZ then v[..IFNAMSIZ] else v
  }

  predicate UsesBridge(c: Config) { c.network == NET_BRIDGE }

  // ---------- Steps ----------

  /** Start's second section when the object may run: the process joins the history with
      a reaper, and acquires a cgroup and network resources by name. */
  function Launched(s: Sys, name: string, o: nat, pid: nat, net: Network, made: bool): Sys
    requires o < |s.m.objects|
  {
    var run, cfg := |s.runs|, s.m.objects[o].config;
    var bridged := UsesBridge(cfg) && net != NoBridge;
    var alloc := if bridged then Some(s.allocs) else None;
    var linked := bridged && net != NoLink && Veth(name) !in s.links;
    var ip := if linked && net == FullNetwork then Address(s.allocs) else "";
    Sys(Run(s.m, name, o, Some(Launch(pid, run, ip))).0, s.calls, s.reapers[run := Waiting], s.timers,
        s.runs + [Process(o, name, pid, alloc)], s.live + {run},
        if linked then s.links[Veth(name) := run] else s.links,
        if cfg.resources.IsEmpty() || !made then s.cgroups else s.cgroups[name := run],
        if bridged then s.allocs + 1 else s.allocs)
  }

  function NoLongerPending(s: Sys, id: nat): Sys {
    s.(calls := s.calls - {id})
  }

  function ApplyCreateEnd(s: Sys, id: nat, rootfs: string, cfg: Config): (Sys, Event)
    requires id in s.calls
  {
    var name := s.calls[id].name;
    match Insert(s.m, name, rootfs, cfg)
    case (m, None) => (NoLongerPending(s, id).(m := m), Made(name, Normalize(cfg).value))
    case (m, Some(e)) => (NoLongerPending(s, id), Refused(Create, name, e))
  }

  function ApplyStartEnd(s: Sys, id: nat, pid: nat, net: Network, made: bool): (Sys, Event)
    requires id in s.calls && s.calls[id].Starting? && s.calls[id].obj < |s.m.objects|
  {
    var c := s.calls[id];
    match Run(s.m, c.name, c.obj, Some(Launch(pid, |s.runs|, ""))).1
    case None => (Launched(NoLongerPending(s, id), c.name, c.obj, pid, net, made), Started(c.name))
    case Some(e) => (NoLongerPending(s, id), Refused(Start, c.name, e))
  }

  function ApplyCleanUp(s: Sys, run: nat, cgroupGone: bool): Sys
    requires run < |s.runs| && s.runs[run].obj < |s.m.objects|
  {
    var name, cfg := s.runs[run].name, s.m.objects[s.runs[run].obj].config;
    s.(reapers := s.reapers[run := CleanedUp],
       links := if UsesBridge(cfg) then s.links - {Veth(name)} else s.links,
       cgroups := if !cfg.resources.IsEmpty() && cgroupGone then s.cgroups - {name} else s.cgroups)
  }

  /** Names and numbers in the bookkeeping refer to existing things. */
  predicate InRange(s: Sys) {
    && Consistent(s.m)
    && (forall id :: id in s.calls && s.calls[id].Starting? ==> s.calls[id].obj < |s.m.objects|)
    && (forall r :: 0 <= r < |s.runs| ==> s.runs[r].obj < |s.m.objects|)
    && (forall r :: r in s.reapers ==> r < |s.runs|)
    && (forall t :: t in s.timers ==> s.timers[t].obj < |s.m.objects|)
  }

  /** May this step be taken? Call and timer numbers are chosen fresh, a new process gets
      a positive pid no live process has, and a reaper moves when its process is gone. */
  predicate Enabled(s: Sys, step: Step) {
    match step
    case CreateBegin(id, _) => id !in s.calls
    case StartBegin(id, _) => id !in s.calls
    case CreateFail(id) => id in s.calls && s.calls[id].Creating?
    case CreateEnd(id, _, _) => id in s.calls && s.calls[id].Creating?
    case StartFail(id) => id in s.calls && s.calls[id].Starting?
    case StartNoProcess(id) => id in s.calls && s.calls[id].Starting?
    case StartEnd(id, pid, _, _) =>
      && id in s.calls && s.calls[id].Starting? && pid > 0
      && forall r :: r in s.live && r < |s.runs| ==> s.runs[r].pid != pid
    case StopCall(t, _) => t !in s.timers
    case SendSignal(t) => t in s.timers && s.timers[t].stage.Sending?
    case TimerChecks(t) => t in s.timers && s.timers[t].stage == Asleep
    case RemoveCall(_) => true
    case ListCall => true
    case Exit(r, _) => r in s.live
    case CleanUp(r, _) => r in s.reapers && s.reapers[r] == Waiting && r !in s.live
    case Reap(r) => r in s.reapers && s.reapers[r] == CleanedUp
  }

  /** syscall.Kill: the process that has the pid by now, if it is a container's. */
  function LiveWith(runs: seq<Process>, live: set<nat>, pid: nat): (r: Option<nat>)
    ensures r.Some? ==> r.value < |runs| && r.value in live && runs[r.value].pid == pid
    ensures r == None ==> forall q :: 0 <= q < |runs| && q in live ==> runs[q].pid != pid
  {
    if runs == [] then None
    else
      var last := |runs| - 1;
      if last in live && runs[last].pid == pid then Some(last) else LiveWith(runs[..last], live, pid)
  }

  /** After SIGTERM the timer starts; after SIGKILL the call is over. */
  function AfterSignal(s: Sys, t: nat): Sys
    requires Enabled(s, SendSignal(t))
  {
    var x := s.timers[t];
    s.(timers := if x.stage.signal == Term then s.timers[t := x.(stage := Asleep)] else s.timers - {t})
  }

  function AfterCheck(s: Sys, t: nat): (Sys, Event)
    requires InRange(s) && Enabled(s, TimerChecks(t))
  {
    var x := s.timers[t];
    if DecidesToKill(s.m, x.obj, x.pid) && s.m.objects[x.obj].cmd.Some?
    then (s.(timers := s.timers[t := x.(stage := Sending(Kill))]), Decided(s.m.objects[x.obj].cmd.value))
    else (s.(timers := s.timers - {t}), Silent)
  }

  function Apply(s: Sys, step: Step): (Sys, Event)
    requires InRange(s) && Enabled(s, step)
  {
    match step
    case CreateBegin(id, name) =>
      (match CheckNew(s.m, name)
       case None => (s.(calls := s.calls[id := Creating(name)]), Silent)
       case Some(e) => (s, Refused(Create, name, e)))
    case CreateFail(id) => (NoLongerPending(s, id), Refused(Create, s.calls[id].name, RootfsUnavailable))
    case CreateEnd(id, rootfs, cfg) => ApplyCreateEnd(s, id, rootfs, cfg)
    case StartBegin(id, name) =>
      (match FindToStart(s.m, name)
       case Ok(o) => (s.(calls := s.calls[id := Starting(name, o)]), Silent)
       case Err(e) => (s, Refused(Start, name, e)))
    case StartFail(id) => (NoLongerPending(s, id), Refused(Start, s.calls[id].name, RootfsUnavailable))
    case StartNoProcess(id) =>
      var c := s.calls[id];
      (NoLongerPending(s, id), Refused(Start, c.name, Run(s.m, c.name, c.obj, None).1.value))
    case StartEnd(id, pid, net, made) => ApplyStartEnd(s, id, pid, net, made)
    case StopCall(t, name) =>
      (match FindToStop(s.m, name)
       case Ok((o, pid)) =>
         (s.(timers := s.timers[t := Timer(o, pid, s.m.objects[o].cmd.value, Sending(Term))]), Stopping(name))
       case Err(e) => (s, Refused(Stop, name, e)))
    case SendSignal(t) =>
      (AfterSignal(s, t),
       match LiveWith(s.runs, s.live, s.timers[t].pid)
       case Some(r) => Hit(r, s.timers[t].stage.signal)
       case None => Silent)
    case TimerChecks(t) => AfterCheck(s, t)
    case RemoveCall(name) =>
      (match Delete(s.m, name)
       case (m, Ok(_)) => (s.(m := m), Removed(name))
       case (_, Err(e)) => (s, Refused(Remove, name, e)))
    case ListCall => (s, Listed(map n | n in s.m.names :: s.m.objects[s.m.names[n]]))
    case Exit(r, linkGone) =>
      (s.(live := s.live - {r},
          links := if linkGone then map v | v in s.links && s.links[v] != r :: s.links[v] else s.links),
       Silent)
    case CleanUp(r, cgroupGone) => (ApplyCleanUp(s, r, cgroupGone), Silent)
    case Reap(r) =>
      (ApplyReap(s, r), Exited(s.m.objects[s.runs[r].obj].name))
  }

  // ---------- Invariant ----------

  /** The manager after NewContainerManager: everything restored from disk is stopped. */
  ghost predicate Initial(s: Sys) {
    && s == Sys(s.m, map[], map[], map[], [], {}, map[], map[], 0)
    && Registered(s.m)
    && forall o :: 0 <= o < |s.m.objects| ==> Idle(s.m.objects[o])
  }

  predicate Idle(r: Record) {
    r.status != Running && r.pid == 0 && r.cmd == None && r.ip == ""
  }

  /** A registry entry leads to an object of that name. */
  ghost predicate Registered(m: State) {
    forall n :: n in m.names ==> m.names[n] < |m.objects| && m.objects[m.names[n]].name == n
  }

  /** An object is idle, or it is running: registered under its name, with the pid of a
      run of its own that has an unfinished reaper. */
  ghost predicate ObjectOk(s: Sys, o: nat)
    requires o < |s.m.objects|
  {
    var r := s.m.objects[o];
    Idle(r) ||
    (&& r.status == Running && r.pid != 0 && r.cmd.Some?
     && r.name in s.m.names && s.m.names[r.name] == o
     && r.cmd.value in s.reapers && r.cmd.value < |s.runs|
     && var p := s.runs[r.cmd.value];
        p.obj == o && p.name == r.name && p.pid == r.pid
        && (r.ip != "" ==> p.alloc.Some? && r.ip == Address(p.alloc.value)))
  }

  /** An unfinished reaper belongs to the current run of its object. */
  ghost predicate ReaperOk(s: Sys, r: nat) {
    && r < |s.runs| && s.runs[r].obj < |s.m.objects|
    && s.m.objects[s.runs[r].obj].cmd == Some(r)
  }

  ghost predicate LinkOk(s: Sys, v: string)
    requires v in s.links
  {
    var r := s.links[v];
    && r < |s.runs| && r in s.reapers && s.reapers[r] == Waiting && v == Veth(s.runs[r].name)
    && s.runs[r].obj < |s.m.objects| && UsesBridge(s.m.objects[s.runs[r].obj].config)
  }

  ghost predicate CallOk(s: Sys, c: Call) {
    c.Starting? ==> c.obj < |s.m.objects| && s.m.objects[c.obj].name == c.name
  }

  ghost predicate TimerOk(s: Sys, t: Timer) {
    && t.obj < |s.m.objects| && t.run < |s.runs|
    && s.runs[t.run].obj == t.obj && s.runs[t.run].pid == t.pid
  }

  ghost predicate HistoryOk(s: Sys) {
    && (forall r :: 0 <= r < |s.runs| ==> s.runs[r].obj < |s.m.objects|)
    && (forall r :: 0 <= r < |s.runs| && s.runs[r].alloc.Some? ==> s.runs[r].alloc.value < s.allocs)
    && (forall q, r :: 0 <= q < r < |s.runs| && s.runs[q].alloc.Some? && s.runs[r].alloc.Some? ==>
          s.runs[q].alloc.value < s.runs[r].alloc.value)
  }

  ghost predicate ObjectsOk(s: Sys) {
    forall o :: 0 <= o < |s.m.objects| ==> ObjectOk(s, o)
  }

  ghost predicate ReapersOk(s: Sys) {
    && (forall r :: r in s.reapers ==> ReaperOk(s, r))
    && (forall r :: r in s.live ==> r in s.reapers && s.reapers[r] == Waiting)
  }

  ghost predicate LinksOk(s: Sys) {
    forall v :: v in s.links ==> LinkOk(s, v)
  }

  ghost predicate RecordsOk(s: Sys) {
    && (forall n :: n in s.cgroups ==> s.cgroups[n] < |s.runs| && s.runs[s.cgroups[n]].name == n)
    && (forall id :: id in s.calls ==> CallOk(s, s.calls[id]))
    && (forall t :: t in s.timers ==> TimerOk(s, s.timers[t]))
  }

  ghost predicate Inv(s: Sys) {
    Registered(s.m) && ObjectsOk(s) && ReapersOk(s) && LinksOk(s) && RecordsOk(s) && HistoryOk(s)
  }

  lemma InvInRange(s: Sys)
    requires Inv(s)
    ensures InRange(s)
  {
  }

  lemma InitialInv(s: Sys)
    requires Initial(s)
    ensures Inv(s)
  {
  }

  /** Objects, reapers and links do not depend on pending calls, timers and live processes. */
  lemma BookkeepingKeepsInv(s: Sys, t: Sys)
    requires Inv(s) && t == s.(calls := t.calls, timers := t.timers)
    requires forall id :: id in t.calls ==> CallOk(s, t.calls[id])
    requires forall x :: x in t.timers ==> TimerOk(s, t.timers[x])
    ensures Inv(t)
  {
    forall o | 0 <= o < |s.m.objects| ensures ObjectOk(t, o) { assert ObjectOk(s, o); }
    forall r | r in s.reapers ensures ReaperOk(t, r) { assert ReaperOk(s, r); }
    forall v | v in s.links ensures LinkOk(t, v) { assert LinkOk(s, v); }
  }

  lemma CreateKeepsObjects(s: Sys, id: nat, rootfs: string, cfg: Config)
    requires Registered(s.m) && ObjectsOk(s) && id in s.calls && s.calls[id].Creating?
    ensures Registered(ApplyCreateEnd(s, id, rootfs, cfg).0.m) && ObjectsOk(ApplyCreateEnd(s, id, rootfs, cfg).0)
  {
    var t := ApplyCreateEnd(s, id, rootfs, cfg).0;
    forall o | 0 <= o < |t.m.objects| ensures ObjectOk(t, o) { if o < |s.m.objects| { assert ObjectOk(s, o); } }
  }

  /** Reapers, links and the history do not depend on the registry, nor on new objects. */
  lemma GrowthKeepsRuns(s: Sys, t: Sys)
    requires t == s.(m := t.m, calls := t.calls) && s.m.objects <= t.m.objects
    requires ReapersOk(s) && LinksOk(s) && HistoryOk(s)
    ensures ReapersOk(t) && LinksOk(t) && HistoryOk(t)
  {
    forall r | r in t.reapers ensures ReaperOk(t, r) { assert ReaperOk(s, r); }
    forall v | v in t.links ensures LinkOk(t, v) { assert LinkOk(s, v); }
  }

  lemma GrowthKeepsRecords(s: Sys, t: Sys)
    requires t == s.(m := t.m, calls := t.calls) && s.m.objects <= t.m.objects
    requires RecordsOk(s) && forall id :: id in t.calls ==> id in s.calls && t.calls[id] == s.calls[id]
    ensures RecordsOk(t)
  {
    forall id | id in t.calls ensures CallOk(t, t.calls[id]) { assert CallOk(s, s.calls[id]); }
    forall x | x in t.timers ensures TimerOk(t, t.timers[x]) { assert TimerOk(s, s.timers[x]); }
  }

  lemma CreateKeepsInv(s: Sys, id: nat, rootfs: string, cfg: Config)
    requires Inv(s) && id in s.calls && s.calls[id].Creating?
    ensures Inv(ApplyCreateEnd(s, id, rootfs, cfg).0)
  {
    var t := ApplyCreateEnd(s, id, rootfs, cfg).0;
    CreateKeepsObjects(s, id, rootfs, cfg);
    GrowthKeepsRuns(s, t);
    GrowthKeepsRecords(s, t);
  }

  /** The object may run: it is registered and idle, so it has no unfinished reaper. */
  ghost predicate MayRun(s: Sys, name: string, o: nat) {
    && name in s.m.names && s.m.names[name] == o && o < |s.m.objects|
    && s.m.objects[o].status != Running
  }

  lemma IdleHasNoReaper(s: Sys, name: string, o: nat)
    requires ObjectsOk(s) && ReapersOk(s) && MayRun(s, name, o)
    ensures Idle(s.m.objects[o]) && |s.runs| !in s.reapers
    ensures forall r :: r in s.reapers ==> r < |s.runs| && s.runs[r].obj != o
  {
    assert ObjectOk(s, o);
    forall r | r in s.reapers ensures r < |s.runs| && s.runs[r].obj != o { assert ReaperOk(s, r); }
  }

  lemma LaunchKeepsObjects(s: Sys, name: string, o: nat, pid: nat, net: Network, made: bool)
    requires Registered(s.m) && ObjectsOk(s) && MayRun(s, name, o) && Idle(s.m.objects[o]) && pid > 0
    ensures ObjectsOk(Launched(s, name, o, pid, net, made))
  {
    var t := Launched(s, name, o, pid, net, made);
    forall x | 0 <= x < |t.m.objects| ensures ObjectOk(t, x) { assert ObjectOk(s, x); }
  }

  lemma LaunchKeepsReapers(s: Sys, name: string, o: nat, pid: nat, net: Network, made: bool)
    requires ReapersOk(s) && MayRun(s, name, o)
    requires forall r :: r in s.reapers ==> r < |s.runs| && s.runs[r].obj != o
    ensures ReapersOk(Launched(s, name, o, pid, net, made))
  {
    var t := Launched(s, name, o, pid, net, made);
    forall r | r in t.reapers ensures ReaperOk(t, r) { if r in s.reapers { assert ReaperOk(s, r); } }
  }

  lemma LaunchKeepsLinks(s: Sys, name: string, o: nat, pid: nat, net: Network, made: bool)
    requires LinksOk(s) && MayRun(s, name, o) && |s.runs| !in s.reapers
    ensures LinksOk(Launched(s, name, o, pid, net, made))
  {
    var t := Launched(s, name, o, pid, net, made);
    forall v | v in t.links ensures LinkOk(t, v) { if v in s.links { assert LinkOk(s, v); } }
  }

  lemma LaunchKeepsRecords(s: Sys, name: string, o: nat, pid: nat, net: Network, made: bool)
    requires RecordsOk(s) && MayRun(s, name, o)
    ensures RecordsOk(Launched(s, name, o, pid, net, made))
  {
    var t := Launched(s, name, o, pid, net, made);
    forall id | id in t.calls ensures CallOk(t, t.calls[id]) { assert CallOk(s, s.calls[id]); }
    forall x | x in t.timers ensures TimerOk(t, t.timers[x]) { assert TimerOk(s, s.timers[x]); }
  }

  lemma LaunchKeepsHistory(s: Sys, name: string, o: nat, pid: nat, net: Network, made: bool)
    requires HistoryOk(s) && MayRun(s, name, o)
    ensures HistoryOk(Launched(s, name, o, pid, net, made))
  {
  }

  lemma LaunchKeepsInv(s: Sys, name: string, o: nat, pid: nat, net: Network, made: bool)
    requires Inv(s) && MayRun(s, name, o) && pid > 0
    ensures Inv(Launched(s, name, o, pid, net, made))
  {
    IdleHasNoReaper(s, name, o);
    LaunchKeepsObjects(s, name, o, pid, net, made);
    LaunchKeepsReapers(s, name, o, pid, net, made);
    LaunchKeepsLinks(s, name, o, pid, net, made);
    LaunchKeepsRecords(s, name, o, pid, net, made);
    LaunchKeepsHistory(s, name, o, pid, net, made);
  }

  lemma RemoveKeepsInv(s: Sys, name: string)
    requires Inv(s) && InRange(s)
    ensures Inv(s.(m := Delete(s.m, name).0))
  {
    var t := s.(m := Delete(s.m, name).0);
    forall o | 0 <= o < |t.m.objects| ensures ObjectOk(t, o) { assert ObjectOk(s, o); }
    GrowthKeepsRuns(s, t);
    GrowthKeepsRecords(s, t);
  }

  /** The objects do not depend on links, cgroups and how far the reapers are. */
  lemma SameRunsKeepObjects(s: Sys, t: Sys)
    requires ObjectsOk(s) && ReapersOk(s) && RecordsOk(s) && HistoryOk(s)
    requires t == s.(reapers := t.reapers, live := t.live, links := t.links, cgroups := t.cgroups)
    requires t.reapers.Keys == s.reapers.Keys
    ensures ObjectsOk(t) && HistoryOk(t) && forall r :: r in t.reapers ==> ReaperOk(t, r)
  {
    forall o | 0 <= o < |t.m.objects| ensures ObjectOk(t, o) { assert ObjectOk(s, o); }
    forall r | r in t.reapers ensures ReaperOk(t, r) { assert ReaperOk(s, r); }
  }

  lemma SameCallsKeepRecords(s: Sys, t: Sys)
    requires RecordsOk(s)
    requires t == s.(reapers := t.reapers, live := t.live, links := t.links, cgroups := t.cgroups)
    requires forall n :: n in t.cgroups ==> n in s.cgroups && t.cgroups[n] == s.cgroups[n]
    ensures RecordsOk(t)
  {
    forall x | x in t.timers ensures TimerOk(t, t.timers[x]) { assert TimerOk(s, s.timers[x]); }
  }

  lemma ExitKeepsInv(s: Sys, run: nat, linkGone: bool)
    requires Inv(s) && InRange(s) && run in s.live
    ensures Inv(Apply(s, Exit(run, linkGone)).0)
  {
    var t := Apply(s, Exit(run, linkGone)).0;
    SameRunsKeepObjects(s, t);
    SameCallsKeepRecords(s, t);
    forall v | v in t.links ensures LinkOk(t, v) { assert LinkOk(s, v); }
  }

  /** Two unfinished reapers are for different names. */
  lemma ReapersDistinct(s: Sys, q: nat, r: nat)
    requires Inv(s) && q in s.reapers && r in s.reapers
    requires q < |s.runs| && r < |s.runs| && s.runs[q].name == s.runs[r].name
    ensures q == r
  {
    assert ReaperOk(s, q) && ReaperOk(s, r);
    assert ObjectOk(s, s.runs[q].obj) && ObjectOk(s, s.runs[r].obj);
  }

  lemma CleanUpKeepsInv(s: Sys, run: nat, cgroupGone: bool)
    requires Inv(s) && run in s.reapers && s.reapers[run] == Waiting && run !in s.live
    requires run < |s.runs| && s.runs[run].obj < |s.m.objects|
    ensures Inv(ApplyCleanUp(s, run, cgroupGone))
  {
    var t := ApplyCleanUp(s, run, cgroupGone);
    SameRunsKeepObjects(s, t);
    SameCallsKeepRecords(s, t);
    forall v | v in t.links ensures LinkOk(t, v) { assert LinkOk(s, v); }
  }

  function ApplyReap(s: Sys, run: nat): Sys
    requires run < |s.runs| && s.runs[run].obj < |s.m.objects|
  {
    s.(m := Finish(s.m, s.runs[run].obj), reapers := s.reapers - {run})
  }

  lemma ReapKeepsObjects(s: Sys, run: nat)
    requires Registered(s.m) && ObjectsOk(s) && ReapersOk(s) && run in s.reapers
    requires run < |s.runs| && s.runs[run].obj < |s.m.objects|
    ensures ObjectsOk(ApplyReap(s, run))
  {
    var t, o := ApplyReap(s, run), s.runs[run].obj;
    assert ReaperOk(s, run);
    forall x | 0 <= x < |t.m.objects| ensures ObjectOk(t, x) { assert ObjectOk(s, x); }
  }

  lemma ReapKeepsReapers(s: Sys, run: nat)
    requires ReapersOk(s) && LinksOk(s) && HistoryOk(s) && run in s.reapers && s.reapers[run] == CleanedUp
    requires run < |s.runs| && s.runs[run].obj < |s.m.objects|
    ensures ReapersOk(ApplyReap(s, run)) && LinksOk(ApplyReap(s, run)) && HistoryOk(ApplyReap(s, run))
  {
    var t := ApplyReap(s, run);
    assert ReaperOk(s, run);
    forall r | r in t.reapers ensures ReaperOk(t, r) { assert ReaperOk(s, r); }
    forall v | v in t.links ensures LinkOk(t, v) { assert LinkOk(s, v); }
  }

  lemma ReapKeepsRecords(s: Sys, run: nat)
    requires Registered(s.m) && RecordsOk(s) && run < |s.runs| && s.runs[run].obj < |s.m.objects|
    ensures Registered(ApplyReap(s, run).m) && RecordsOk(ApplyReap(s, run))
  {
    var t := ApplyReap(s, run);
    forall id | id in t.calls ensures CallOk(t, t.calls[id]) { assert CallOk(s, s.calls[id]); }
    forall x | x in t.timers ensures TimerOk(t, t.timers[x]) { assert TimerOk(s, s.timers[x]); }
  }

  lemma ReapKeepsInv(s: Sys, run: nat)
    requires Inv(s) && run in s.reapers && s.reapers[run] == CleanedUp
    requires run < |s.runs| && s.runs[run].obj < |s.m.objects|
    ensures Inv(ApplyReap(s, run))
  {
    ReapKeepsObjects(s, run);
    ReapKeepsReapers(s, run);
    ReapKeepsRecords(s, run);
  }

  lemma StartKeepsInv(s: Sys, id: nat, pid: nat, net: Network, made: bool)
    requires Inv(s) && InRange(s) && Enabled(s, StartEnd(id, pid, net, made))
    ensures Inv(ApplyStartEnd(s, id, pid, net, made).0)
  {
    var u := NoLongerPending(s, id);
    BookkeepingKeepsInv(s, u);
    if ApplyStartEnd(s, id, pid, net, made).1.Started? {
      LaunchKeepsInv(u, s.calls[id].name, s.calls[id].obj, pid, net, made);
    }
  }

  lemma StopKeepsInv(s: Sys, timer: nat, name: string)
    requires Inv(s) && InRange(s) && Enabled(s, StopCall(timer, name))
    ensures Inv(Apply(s, StopCall(timer, name)).0)
  {
    if FindToStop(s.m, name).Ok? { assert ObjectOk(s, s.m.names[name]); }
    BookkeepingKeepsInv(s, Apply(s, StopCall(timer, name)).0);
  }

  lemma StartBeginKeepsInv(s: Sys, id: nat, name: string)
    requires Inv(s) && InRange(s) && Enabled(s, StartBegin(id, name))
    ensures Inv(Apply(s, StartBegin(id, name)).0)
  {
    if name in s.m.names { assert s.m.objects[s.m.names[name]].name == name; }
    BookkeepingKeepsInv(s, Apply(s, StartBegin(id, name)).0);
  }

  lemma TimerKeepsInv(s: Sys, step: Step)
    requires Inv(s) && InRange(s) && Enabled(s, step) && (step.SendSignal? || step.TimerChecks?)
    ensures Inv(Apply(s, step).0)
  {
    var t := Apply(s, step).0;
    forall x | x in t.timers ensures TimerOk(s, t.timers[x]) { assert TimerOk(s, s.timers[x]); }
    BookkeepingKeepsInv(s, t);
  }

  /** Steps that only drop a pending call, or note a call of Create. */
  predicate OnlyBookkeeping(step: Step) {
    step.CreateBegin? || step.CreateFail? || step.StartFail? || step.StartNoProcess?
    || step.ListCall?
  }

  lemma BookkeepingStepKeepsInv(s: Sys, step: Step)
    requires Inv(s) && InRange(s) && Enabled(s, step) && OnlyBookkeeping(step)
    ensures Inv(Apply(s, step).0)
  {
    var t := Apply(s, step).0;
    assert t == s.(calls := t.calls, timers := t.timers);
    BookkeepingKeepsInv(s, t);
  }

  /** Every step keeps the invariant. */
  lemma StepKeepsInv(s: Sys, step: Step)
    requires Inv(s) && InRange(s) && Enabled(s, step)
    ensures Inv(Apply(s, step).0)
  {
    if OnlyBookkeeping(step) { BookkeepingStepKeepsInv(s, step); } else {
      match step
      case CreateEnd(id, rootfs, cfg) => CreateKeepsInv(s, id, rootfs, cfg);
      case StartBegin(id, name) => StartBeginKeepsInv(s, id, name);
      case StartEnd(id, pid, net, made) => StartKeepsInv(s, id, pid, net, made);
      case StopCall(timer, name) => StopKeepsInv(s, timer, name);
      case SendSignal(_) => TimerKeepsInv(s, step);
      case TimerChecks(_) => TimerKeepsInv(s, step);
      case RemoveCall(name) => RemoveKeepsInv(s, name);
      case Exit(r, linkGone) => ExitKeepsInv(s, r, linkGone);
      case CleanUp(r, cgroupGone) => CleanUpKeepsInv(s, r, cgroupGone);
      case Reap(r) => ReapKeepsInv(s, r);
    }
  }
}
