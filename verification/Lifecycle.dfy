/** What Create, Start and a Stop's timer do in every run, and that a whole life of a container
    leaves nothing behind (cmd/aetheria-agent/container.go:302-560,
    cmd/aetheria-agent/network.go:107-182). */
module Lifecycle {
  import opened Manager
  import opened Options
  import opened ManagerRuns
  import opened Linearization
  import opened RunProperties
  import opened IpPool
  import Collisions

  // ---------- Create ----------

  /** The name is one component of a path, and neither "." nor "..". */
  predicate OneComponent(name: string) {
    1 <= |name| <= 64 && '/' !in name && '\\' !in name && '.' !in name && ' ' !in name && '\t' !in name && '\n' !in name
  }

  lemma ValidIsOneComponent(name: string)
    ensures ValidName(name) <==> OneComponent(name)
  {
    forall c | c in "/\\. \t\n" ensures c == '/' || c == '\\' || c == '.' || c == ' ' || c == '\t' || c == '\n' {}
    assert "/\\. \t\n"[0] == '/' && "/\\. \t\n"[1] == '\\' && "/\\. \t\n"[2] == '.';
    assert "/\\. \t\n"[3] == ' ' && "/\\. \t\n"[4] == '\t' && "/\\. \t\n"[5] == '\n';
  }

  /** Create goes on from its first section exactly with a valid name that is free. */
  lemma CreateBeginsIff(s: Sys, id: nat, name: string)
    requires InRange(s) && Enabled(s, CreateBegin(id, name))
    ensures var (t, e) := Apply(s, CreateBegin(id, name));
            && t.m == s.m
            && (e == Refused(Create, name, InvalidName) <==> !OneComponent(name))
            && (e == Refused(Create, name, AlreadyExists) <==> OneComponent(name) && name in s.m.names)
            && (id in t.calls <==> OneComponent(name) && name !in s.m.names)
            && (id in t.calls ==> t.calls == s.calls[id := Creating(name)])
  {
    ValidIsOneComponent(name);
  }

  /** A Create without a root file system fails, and leaves everything as it was. */
  lemma FailedCreate(s: Sys, id: nat, name: string)
    requires InRange(s) && id in s.calls && s.calls[id] == Creating(name)
    ensures Apply(s, CreateFail(id)) == (s.(calls := s.calls - {id}), Refused(Create, name, RootfsUnavailable))
  {
  }

  /** One more object, registered under the name and made from the parameters. */
  predicate OneMore(m: State, t: State, name: string, rootfs: string, cfg: Config) {
    && |t.objects| == |m.objects| + 1 && t.objects[..|m.objects|] == m.objects
    && t.names == m.names[name := |m.objects|]
    && MadeFrom(t.objects[|m.objects|], name, rootfs, cfg)
  }

  /** The second section makes the container that was asked for, or says rightly why not. */
  lemma CreateOutcome(s0: Sys, steps: seq<Step>, s: Sys, id: nat, rootfs: string, cfg: Config)
    requires Reaches(s0, steps, s) && Enabled(s, CreateEnd(id, rootfs, cfg))
    ensures var name := s.calls[id].name;
            var (t, e) := Apply(s, CreateEnd(id, rootfs, cfg));
            && OneComponent(name)
            && (e == Refused(Create, name, AlreadyExists) <==> name in s.m.names)
            && (e == Refused(Create, name, BadRestartPolicy) <==>
                  name !in s.m.names && cfg.restart !in {"", "no", "always"})
            && (e.Made? <==> name !in s.m.names && cfg.restart in {"", "no", "always"})
            && (e.Made? ==> OneMore(s.m, t.m, name, rootfs, cfg) && e == Made(name, t.m.objects[|s.m.objects|].config))
            && t == s.(m := t.m, calls := s.calls - {id}) && (!e.Made? ==> t.m == s.m)
  {
    var trace := RunsAreSequential(s0, steps);
    ValidIsOneComponent(s.calls[id].name);
  }

  // ---------- Start ----------

  /** The object of the call runs with the new pid, for a new run with a reaper. On the bridge it
      has the next address if the whole network could be set up, and otherwise no address. */
  ghost predicate Runs(s: Sys, t: Sys, c: Call, pid: nat, net: Network)
    requires c.Starting? && c.obj < |s.m.objects|
  {
    var was, run := s.m.objects[c.obj], |s.runs|;
    var whole := was.config.network == "bridge" && net == FullNetwork && Veth(c.name) !in s.links;
    var ip := if whole then Address(s.allocs) else "";
    && t.m == s.m.(objects := s.m.objects[c.obj := was.(status := Running, pid := pid, cmd := Some(run), ip := ip)])
    && run !in s.live && t.live == s.live + {run}
    && run !in s.reapers && t.reapers == s.reapers[run := Waiting]
  }

  /** The new run holds a link, a cgroup and the number of its address as far as they were set up,
      and nobody else's change. */
  ghost predicate Acquires(s: Sys, t: Sys, c: Call, pid: nat, net: Network, made: bool)
    requires c.Starting? && c.obj < |s.m.objects|
  {
    var cfg, run := s.m.objects[c.obj].config, |s.runs|;
    var bridge, limited := cfg.network == "bridge", cfg.resources != Limits(0, 0.0, 0);
    var linked := bridge && net in {PartialNetwork, FullNetwork} && Veth(c.name) !in s.links;
    var alloc := if bridge && net != NoBridge then Some(s.allocs) else None;
    && t.links == (if linked then s.links[Veth(c.name) := run] else s.links)
    && t.cgroups == (if limited && made then s.cgroups[c.name := run] else s.cgroups)
    && t.runs == s.runs + [Process(c.obj, c.name, pid, alloc)]
    && t.allocs == (if alloc.Some? then s.allocs + 1 else s.allocs)
    && t.timers == s.timers
  }

  lemma StartedRuns(s: Sys, id: nat, pid: nat, net: Network, made: bool)
    requires Inv(s) && InRange(s) && Enabled(s, StartEnd(id, pid, net, made))
    requires ApplyStartEnd(s, id, pid, net, made).1.Started?
    ensures Runs(s, ApplyStartEnd(s, id, pid, net, made).0, s.calls[id], pid, net)
  {
    assert CallOk(s, s.calls[id]);
    IdleHasNoReaper(s, s.calls[id].name, s.calls[id].obj);
  }

  lemma StartedAcquires(s: Sys, id: nat, pid: nat, net: Network, made: bool)
    requires InRange(s) && Enabled(s, StartEnd(id, pid, net, made))
    requires ApplyStartEnd(s, id, pid, net, made).1.Started?
    ensures Acquires(s, ApplyStartEnd(s, id, pid, net, made).0, s.calls[id], pid, net, made)
  {
  }

  /** What a successful Start does, in every reachable state. */
  lemma StartAcquires(s0: Sys, steps: seq<Step>, s: Sys, id: nat, pid: nat, net: Network, made: bool)
    requires Reaches(s0, steps, s) && Enabled(s, StartEnd(id, pid, net, made))
    requires Apply(s, StartEnd(id, pid, net, made)).1.Started?
    ensures s.calls[id].obj < |s.m.objects|
    ensures var t := Apply(s, StartEnd(id, pid, net, made)).0;
            && Runs(s, t, s.calls[id], pid, net) && Acquires(s, t, s.calls[id], pid, net, made)
            && t.calls == s.calls - {id}
  {
    ReachedInv(s0, steps);
    StartedRuns(s, id, pid, net, made);
    StartedAcquires(s, id, pid, net, made);
  }

  /** Start goes on from its first section exactly with a registered container that is not running,
      and notes its object. */
  lemma StartBeginsIff(s: Sys, id: nat, name: string)
    requires InRange(s) && Enabled(s, StartBegin(id, name))
    ensures var (t, e) := Apply(s, StartBegin(id, name));
            && t == s.(calls := t.calls)
            && (e == Refused(Start, name, NotFound) <==> name !in s.m.names)
            && (e == Refused(Start, name, AlreadyRunning) <==>
                  name in s.m.names && s.m.objects[s.m.names[name]].status == Running)
            && (id in t.calls <==> name in s.m.names && s.m.objects[s.m.names[name]].status != Running)
            && t.calls == if id in t.calls then s.calls[id := Starting(name, s.m.names[name])] else s.calls
  {
  }

  /** Why the second section refuses to run an object. */
  function WhyRefused(m: State, o: nat): Error
    requires o < |m.objects|
  {
    if !IsRegistered(m, o) then ModifiedDuringStart
    else if m.objects[o].status == Running then AlreadyRunning
    else LaunchFailed
  }

  /** A Start that fails says rightly why, and leaves everything as it was. */
  lemma FailedStart(s0: Sys, steps: seq<Step>, s: Sys, id: nat, pid: nat, net: Network, made: bool)
    requires Reaches(s0, steps, s) && id in s.calls && s.calls[id].Starting?
    ensures var o, name, over := s.calls[id].obj, s.calls[id].name, s.(calls := s.calls - {id});
            && o < |s.m.objects|
            && Apply(s, StartFail(id)) == (over, Refused(Start, name, RootfsUnavailable))
            && Apply(s, StartNoProcess(id)) == (over, Refused(Start, name, WhyRefused(s.m, o)))
            && (Enabled(s, StartEnd(id, pid, net, made)) && !Apply(s, StartEnd(id, pid, net, made)).1.Started? ==>
                  Apply(s, StartEnd(id, pid, net, made)) == (over, Refused(Start, name, WhyRefused(s.m, o))))
  {
    ReachedInv(s0, steps);
    assert CallOk(s, s.calls[id]);
  }

  // ---------- Every call is answered ----------

  predicate IsCall(step: Step) {
    step.CreateBegin? || step.StartBegin? || step.StopCall? || step.RemoveCall?
  }

  predicate IsAnswer(e: Event) {
    e.Made? || e.Started? || e.Stopping? || e.Removed? || e.Refused?
  }

  function Begun(steps: seq<Step>): nat {
    if steps == [] then 0 else Begun(steps[..|steps| - 1]) + if IsCall(steps[|steps| - 1]) then 1 else 0
  }

  function Answers(events: seq<Event>): nat {
    if events == [] then 0 else Answers(events[..|events| - 1]) + if IsAnswer(events[|events| - 1]) then 1 else 0
  }

  lemma StepAnswers(s: Sys, step: Step)
    requires InRange(s) && Enabled(s, step)
    ensures AnswersOnce(s, step)
  {
    if IsCall(step) { BeginningAnswers(s, step); }
    else if EndsCall(step) { EndingAnswers(s, step); }
    else { OthersAnswerNothing(s, step); }
  }

  predicate AnswersOnce(s: Sys, step: Step)
    requires InRange(s) && Enabled(s, step)
  {
    var (t, e) := Apply(s, step);
    |t.calls| + (if IsAnswer(e) then 1 else 0) == |s.calls| + if IsCall(step) then 1 else 0
  }

  lemma BeginningAnswers(s: Sys, step: Step)
    requires InRange(s) && Enabled(s, step) && IsCall(step)
    ensures AnswersOnce(s, step)
  {
    if step.CreateBegin? || step.StartBegin? { NotedOrAnswered(s, step); } else { AnsweredAtOnce(s, step); }
  }

  lemma NotedOrAnswered(s: Sys, step: Step)
    requires InRange(s) && Enabled(s, step) && (step.CreateBegin? || step.StartBegin?)
    ensures var (t, e) := Apply(s, step);
            step.id !in s.calls
            && if IsAnswer(e) then t.calls == s.calls
               else step.id in t.calls && t.calls == s.calls[step.id := t.calls[step.id]]
  {
  }

  lemma AnsweredAtOnce(s: Sys, step: Step)
    requires InRange(s) && Enabled(s, step) && (step.StopCall? || step.RemoveCall?)
    ensures IsAnswer(Apply(s, step).1) && Apply(s, step).0.calls == s.calls
  {
  }

  predicate EndsCall(step: Step) {
    step.CreateFail? || step.CreateEnd? || step.StartFail? || step.StartNoProcess? || step.StartEnd?
  }

  lemma EndingAnswers(s: Sys, step: Step)
    requires InRange(s) && Enabled(s, step) && EndsCall(step)
    ensures IsAnswer(Apply(s, step).1) && step.id in s.calls && Apply(s, step).0.calls == s.calls - {step.id}
  {
  }

  lemma OthersAnswerNothing(s: Sys, step: Step)
    requires InRange(s) && Enabled(s, step) && !IsCall(step) && !EndsCall(step)
    ensures !IsAnswer(Apply(s, step).1) && Apply(s, step).0.calls == s.calls
  {
  }

  /** In every run each call is pending or has had exactly one answer. */
  lemma {:induction false} CallsAreAnswered(s0: Sys, steps: seq<Step>)
    requires Initial(s0) && InRange(s0) && Exec(s0, steps).Some?
    ensures |Exec(s0, steps).value.0.calls| + Answers(Exec(s0, steps).value.1) == Begun(steps)
  {
    if steps != [] {
      var before := steps[..|steps| - 1];
      CallsAreAnswered(s0, before);
      var (s, events) := Exec(s0, before).value;
      StepAnswers(s, steps[|steps| - 1]);
      assert Exec(s0, steps).value.1[..|before|] == events;
    }
  }

  // ---------- Nobody is stuck ----------

  /** In every state new calls may come, a call between its sections can end in every way,
      a run in progress goes through exit, clean-up and the reaper's section, and a Stop goes on. */
  lemma NobodyIsStuck(s: Sys, id: nat, name: string, cfg: Config, pid: nat, net: Network, b: bool)
    ensures id !in s.calls ==> Enabled(s, CreateBegin(id, name)) && Enabled(s, StartBegin(id, name))
    ensures Enabled(s, RemoveCall(name)) && Enabled(s, ListCall) && (id !in s.timers ==> Enabled(s, StopCall(id, name)))
    ensures id in s.calls && s.calls[id].Creating? ==>
              Enabled(s, CreateFail(id)) && Enabled(s, CreateEnd(id, name, cfg))
    ensures id in s.calls && s.calls[id].Starting? ==>
              Enabled(s, StartFail(id)) && Enabled(s, StartNoProcess(id))
              && (pid > 0 && (forall r :: r in s.live && r < |s.runs| ==> s.runs[r].pid != pid) ==>
                    Enabled(s, StartEnd(id, pid, net, b)))
    ensures id in s.reapers ==>
              if id in s.live then Enabled(s, Exit(id, b))
              else if s.reapers[id] == Waiting then Enabled(s, CleanUp(id, b)) else Enabled(s, Reap(id))
    ensures id in s.timers ==>
              if s.timers[id].stage == Asleep then Enabled(s, TimerChecks(id)) else Enabled(s, SendSignal(id))
  {
  }

  // ---------- Names of interfaces ----------

  /** Two containers share an interface name exactly if their names agree in the first ten
      characters; the name fits into IFNAMSIZ. */
  lemma SameVethIff(a: string, b: string)
    ensures |Veth(a)| <= 15
    ensures Veth(a) == Veth(b) <==> a == b || (|a| >= 10 && |b| >= 10 && a[..10] == b[..10])
  {
    VethIs(a);
    VethIs(b);
    assert (if |a| > 10 then a[..10] else a) == Veth(a)[5..];
    assert (if |b| > 10 then b[..10] else b) == Veth(b)[5..];
  }

  lemma VethIs(name: string)
    ensures Veth(name) == "veth-" + if |name| > 10 then name[..10] else name
  {
    if |name| > 10 { assert ("veth-" + name)[..15] == "veth-" + name[..10]; }
  }

  // ---------- Addresses and networks ----------

  /** Only containers on the bridge have an address. */
  ghost predicate AddressesBridged(s: Sys) {
    forall o :: 0 <= o < |s.m.objects| && s.m.objects[o].ip != "" ==> s.m.objects[o].config.network == "bridge"
  }

  lemma LaunchKeepsBridged(s: Sys, id: nat, pid: nat, net: Network, made: bool)
    requires InRange(s) && Enabled(s, StartEnd(id, pid, net, made)) && AddressesBridged(s)
    ensures AddressesBridged(ApplyStartEnd(s, id, pid, net, made).0)
  {
  }

  /** Other steps give no object an address, nor another configuration. */
  lemma OthersKeepBridged(s: Sys, step: Step)
    requires InRange(s) && Enabled(s, step) && AddressesBridged(s) && !step.StartEnd?
    ensures AddressesBridged(Apply(s, step).0)
  {
    if step.CreateEnd? || step.RemoveCall? || step.Reap? {} else { RegistryKept(s, step); }
  }

  lemma StepKeepsBridged(s: Sys, step: Step)
    requires InRange(s) && Enabled(s, step) && AddressesBridged(s)
    ensures AddressesBridged(Apply(s, step).0)
  {
    match step
    case StartEnd(id, pid, net, made) => LaunchKeepsBridged(s, id, pid, net, made);
    case _ => OthersKeepBridged(s, step);
  }

  lemma {:induction false} ReachedBridged(s0: Sys, steps: seq<Step>)
    requires Initial(s0) && InRange(s0) && Exec(s0, steps).Some?
    ensures AddressesBridged(Exec(s0, steps).value.0)
  {
    if steps != [] {
      var before := steps[..|steps| - 1];
      ReachedBridged(s0, before);
      ReachedInv(s0, before);
      StepKeepsBridged(Exec(s0, before).value.0, steps[|steps| - 1]);
    }
  }

  // ---------- List ----------

  /** The list shows every registered container under its name, as it is. */
  lemma ListedIs(s0: Sys, steps: seq<Step>, s: Sys, o: nat, name: string)
    requires Reaches(s0, steps, s) && o < |s.m.objects|
    ensures var e := Apply(s, ListCall).1;
            && e.Listed? && (name in e.contents ==> e.contents[name].name == name)
            && (IsRegistered(s.m, o) <==> exists n :: n in e.contents && s.m.names[n] == o)
            && (IsRegistered(s.m, o) ==> e.contents[s.m.objects[o].name] == s.m.objects[o])
  {
    ReachedInv(s0, steps);
    if IsRegistered(s.m, o) { assert s.m.objects[o].name in Apply(s, ListCall).1.contents; }
  }

  // ---------- Stop and its timer ----------

  /** A Stop call begins with the running object of that name and its pid, and changes nothing else. */
  lemma StopBegins(s0: Sys, steps: seq<Step>, s: Sys, timer: nat, name: string)
    requires Reaches(s0, steps, s) && Enabled(s, StopCall(timer, name))
    requires Apply(s, StopCall(timer, name)).1.Stopping?
    ensures name in s.m.names && s.m.names[name] < |s.m.objects|
    ensures var o := s.m.names[name];
            s.m.objects[o].status == Running && s.m.objects[o].cmd.Some?
            && Apply(s, StopCall(timer, name)).0 ==
               s.(timers := s.timers[timer := Timer(o, s.m.objects[o].pid, s.m.objects[o].cmd.value, Sending(Term))])
  {
  }

  /** It sends SIGTERM once, sleeps, and then sends SIGKILL once or nothing: each step moves it one
      stage on, with the pid that Stop saw. */
  lemma StopGoesOn(s: Sys, timer: nat)
    requires InRange(s)
    ensures Enabled(s, SendSignal(timer)) ==>
              Apply(s, SendSignal(timer)).0 ==
              if s.timers[timer].stage == Sending(Term) then InStage(s, timer, Asleep)
              else s.(timers := s.timers - {timer})
    ensures Enabled(s, TimerChecks(timer)) ==>
              Apply(s, TimerChecks(timer)).0 ==
              if Apply(s, TimerChecks(timer)).1.Decided? then InStage(s, timer, Sending(Kill))
              else s.(timers := s.timers - {timer})
  {
  }

  /** The same Stop call, in another stage. */
  function InStage(s: Sys, timer: nat, stage: Stage): Sys
    requires timer in s.timers
  {
    s.(timers := s.timers[timer := s.timers[timer].(stage := stage)])
  }

  // ---------- A whole life ----------

  lemma CreateNow(s0: Sys, steps: seq<Step>, s: Sys, id: nat, name: string, rootfs: string, cfg: Config)
    returns (more: seq<Step>, t: Sys)
    requires Reaches(s0, steps, s) && id !in s.calls && OneComponent(name) && name !in s.m.names
    requires cfg.restart in {"", "no", "always"}
    ensures more == steps + [CreateBegin(id, name)] + [CreateEnd(id, rootfs, cfg)]
    ensures Reaches(s0, more, t) && t == s.(m := t.m) && OneMore(s.m, t.m, name, rootfs, cfg)
  {
    ReachedInv(s0, steps);
    CreateBeginsIff(s, id, name);
    var u := Collisions.Extend(s0, steps, s, CreateBegin(id, name));
    var noted := steps + [CreateBegin(id, name)];
    assert u.calls - {id} == s.calls;
    CreateOutcome(s0, noted, u, id, rootfs, cfg);
    t := Collisions.Extend(s0, noted, u, CreateEnd(id, rootfs, cfg));
    more := noted + [CreateEnd(id, rootfs, cfg)];
  }

  /** Steps taken one by one are the steps taken together. */
  lemma OneByOne<T>(s: seq<T>, t: seq<T>)
    ensures |t| == 4 ==> s + [t[0]] + [t[1]] + [t[2]] + [t[3]] == s + t
    ensures |t| == 7 ==> s + [t[0]] + [t[1]] + [t[2]] + [t[3]] + [t[4]] + [t[5]] + [t[6]] == s + t
  {
  }

  /** A new container is running, and nothing but what its run holds has changed since s. */
  predicate JustStarted(s: Sys, t: Sys, name: string) {
    var o, r := |s.m.objects|, |s.runs|;
    && t.m.names == s.m.names[name := o] && |t.m.objects| == o + 1 && t.m.objects[..o] == s.m.objects
    && t.m.objects[o].status == Running && t.m.objects[o].cmd == Some(r) && t.m.objects[o].pid != 0
    && |t.runs| == r + 1 && t.runs[..r] == s.runs && t.runs[r].obj == o && t.runs[r].name == name
    && t.live == s.live + {r} && t.reapers == s.reapers[r := Waiting]
    && t.calls == s.calls && t.timers == s.timers
    && (t.links == if t.m.objects[o].config.network == "bridge" then s.links[Veth(name) := r] else s.links)
    && (t.cgroups == if t.m.objects[o].config.resources == Limits(0, 0.0, 0) then s.cgroups else s.cgroups[name := r])
  }

  lemma CreateAndStart(s0: Sys, steps: seq<Step>, s: Sys, id: nat, name: string, rootfs: string, cfg: Config, pid: nat)
    returns (more: seq<Step>, t: Sys)
    requires Reaches(s0, steps, s) && OneComponent(name) && name !in s.m.names && cfg.restart in {"", "no", "always"}
    requires id !in s.calls && pid > 0 && forall r :: r in s.live && r < |s.runs| ==> s.runs[r].pid != pid
    requires Veth(name) !in s.links
    ensures more == steps + Beginning(id, name, rootfs, cfg, pid)
    ensures Reaches(s0, more, t) && JustStarted(s, t, name)
  {
    var s1;
    more, s1 := CreateNow(s0, steps, s, id, name, rootfs, cfg);
    more, t := Collisions.StartNow(s0, more, s1, id, name, pid, FullNetwork, true);
    OneByOne(steps, Beginning(id, name, rootfs, cfg, pid));
    LaunchedIsJust(s, s1, name, rootfs, cfg, pid);
  }

  lemma LaunchedIsJust(s: Sys, t: Sys, name: string, rootfs: string, cfg: Config, pid: nat)
    requires t == s.(m := t.m) && OneMore(s.m, t.m, name, rootfs, cfg) && pid > 0 && Veth(name) !in s.links
    ensures JustStarted(s, Launched(t, name, |s.m.objects|, pid, FullNetwork, true), name)
  {
  }

  /** A run ends, and a sleeping timer of its container finds nothing left to kill. */
  lemma EndStopped(s0: Sys, steps: seq<Step>, s: Sys, timer: nat, r: nat) returns (more: seq<Step>, t: Sys)
    requires Reaches(s0, steps, s) && r in s.live && r in s.reapers && s.reapers[r] == Waiting
    requires r < |s.runs| && s.runs[r].obj < |s.m.objects|
    requires timer in s.timers && s.timers[timer].stage == Asleep && s.timers[timer].obj == s.runs[r].obj
    ensures more == steps + [Exit(r, false)] + [CleanUp(r, true)] + [Reap(r)] + [TimerChecks(timer)]
    ensures Reaches(s0, more, t) && Collisions.Ended(s, t, r) && t.timers == s.timers - {timer}
  {
    var u;
    more, u := Collisions.EndNow(s0, steps, s, r);
    t := Collisions.Extend(s0, more, u, TimerChecks(timer));
    more := more + [TimerChecks(timer)];
  }

  lemma StopAndEnd(s0: Sys, steps: seq<Step>, s: Sys, timer: nat, name: string, r: nat)
    returns (more: seq<Step>, t: Sys)
    requires Reaches(s0, steps, s) && timer !in s.timers
    requires r < |s.runs| && s.runs[r].obj < |s.m.objects| && r in s.live && r in s.reapers && s.reapers[r] == Waiting
    requires name in s.m.names && s.m.names[name] == s.runs[r].obj
    requires s.m.objects[s.runs[r].obj].status == Running && s.m.objects[s.runs[r].obj].cmd == Some(r)
    ensures more == steps + [StopCall(timer, name)] + [SendSignal(timer)]
                    + [Exit(r, false)] + [CleanUp(r, true)] + [Reap(r)] + [TimerChecks(timer)]
    ensures Reaches(s0, more, t) && Collisions.Ended(s, t, r) && t.timers == s.timers - {timer}
  {
    var u;
    more, u := Collisions.StopNow(s0, steps, s, timer, name);
    more, t := EndStopped(s0, more, u, timer, r);
    assert u.timers - {timer} == s.timers - {timer};
  }

  /** A container that has been stopped is removed. */
  lemma StopAndRemove(s0: Sys, steps: seq<Step>, s: Sys, t: Sys, timer: nat, name: string)
    returns (more: seq<Step>, u: Sys)
    requires Reaches(s0, steps, t) && JustStarted(s, t, name) && timer !in s.timers && name !in s.m.names
    requires Inv(s) && Veth(name) !in s.links && name !in s.cgroups
    ensures more == steps + Ending(timer, name, |s.runs|)
    ensures Reaches(s0, more, u) && NothingLeft(s, u)
  {
    var v;
    more, v := StopAndEnd(s0, steps, t, timer, name, |s.runs|);
    u := RemoveNow(s0, more, v, name);
    more := more + [RemoveCall(name)];
    OneByOne(steps, Ending(timer, name, |s.runs|));
    EndedLeavesNothing(s, t, v, timer, name);
  }

  lemma RemoveNow(s0: Sys, steps: seq<Step>, s: Sys, name: string) returns (t: Sys)
    requires Reaches(s0, steps, s) && name in s.m.names && s.m.names[name] < |s.m.objects|
    requires s.m.objects[s.m.names[name]].status != Running
    ensures Reaches(s0, steps + [RemoveCall(name)], t) && t == s.(m := s.m.(names := s.m.names - {name}))
  {
    t := Collisions.Extend(s0, steps, s, RemoveCall(name));
  }

  lemma EndedLeavesNothing(s: Sys, t: Sys, v: Sys, timer: nat, name: string)
    requires Inv(s) && JustStarted(s, t, name) && Collisions.Ended(t, v, |s.runs|) && v.timers == t.timers - {timer}
    requires name !in s.m.names && timer !in s.timers && Veth(name) !in s.links && name !in s.cgroups
    ensures NothingLeft(s, v.(m := v.m.(names := v.m.names - {name})))
  {
    RunGivenBack(s, t, name);
    NamesGivenBack(s, t, name);
    assert s.timers - {timer} == s.timers;
  }

  lemma RunGivenBack(s: Sys, t: Sys, name: string)
    requires Inv(s) && JustStarted(s, t, name)
    ensures t.live - {|s.runs|} == s.live && t.reapers - {|s.runs|} == s.reapers
  {
    assert |s.runs| !in s.live && |s.runs| !in s.reapers;
  }

  lemma NamesGivenBack(s: Sys, t: Sys, name: string)
    requires JustStarted(s, t, name) && name !in s.m.names && Veth(name) !in s.links && name !in s.cgroups
    ensures t.m.names - {name} == s.m.names && t.links - {Veth(name)} == s.links && t.cgroups - {name} == s.cgroups
  {
  }

  /** A container's life from Create to Start, and from Stop to Remove, with nothing in between. */
  function Beginning(id: nat, name: string, rootfs: string, cfg: Config, pid: nat): seq<Step> {
    [CreateBegin(id, name), CreateEnd(id, rootfs, cfg), StartBegin(id, name), StartEnd(id, pid, FullNetwork, true)]
  }

  function Ending(timer: nat, name: string, run: nat): seq<Step> {
    [StopCall(timer, name), SendSignal(timer), Exit(run, false), CleanUp(run, true), Reap(run), TimerChecks(timer),
     RemoveCall(name)]
  }

  /** Registry, calls, reapers, timers, processes, links and cgroups are as before; only the
      history has grown, by one object and one run. */
  predicate NothingLeft(s: Sys, t: Sys) {
    && t.m.names == s.m.names && s.m.objects <= t.m.objects && |t.m.objects| == |s.m.objects| + 1
    && s.runs <= t.runs && |t.runs| == |s.runs| + 1
    && t.calls == s.calls && t.reapers == s.reapers && t.timers == s.timers
    && t.live == s.live && t.links == s.links && t.cgroups == s.cgroups
  }

  /** In every reachable state a container of a free and valid name can live its whole life, and
      leaves nothing behind. */
  lemma WholeLife(s0: Sys, steps: seq<Step>, s: Sys, id: nat, timer: nat,
                  name: string, rootfs: string, cfg: Config, pid: nat) returns (running: Sys, over: Sys)
    requires Reaches(s0, steps, s) && OneComponent(name) && name !in s.m.names && cfg.restart in {"", "no", "always"}
    requires id !in s.calls && timer !in s.timers && pid > 0
    requires forall r :: r in s.live && r < |s.runs| ==> s.runs[r].pid != pid
    requires Veth(name) !in s.links && name !in s.cgroups
    ensures var begun := steps + Beginning(id, name, rootfs, cfg, pid);
            && Reaches(s0, begun, running) && JustStarted(s, running, name)
            && Reaches(s0, begun + Ending(timer, name, |s.runs|), over) && NothingLeft(s, over)
  {
    ReachedInv(s0, steps);
    var more;
    more, running := CreateAndStart(s0, steps, s, id, name, rootfs, cfg, pid);
    more, over := StopAndRemove(s0, more, s, running, timer, name);
  }
}
