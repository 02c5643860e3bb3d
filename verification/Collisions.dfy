/** Two hypotheses of RunProperties are needed: concrete runs in which they fail. */
module Collisions {
  import opened Manager
  import opened Options
  import opened RunProperties
  import opened ManagerRuns
  import opened Linearization

  lemma Extend(s0: Sys, steps: seq<Step>, s: Sys, step: Step) returns (t: Sys)
    requires Reaches(s0, steps, s) && Enabled(s, step)
    ensures Reaches(s0, steps + [step], t) && t == Apply(s, step).0
  {
    t := Apply(s, step).0;
    assert (steps + [step])[..|steps|] == steps;
    ReachedInv(s0, steps);
    ReachedInv(s0, steps + [step]);
  }

  function StoppedContainer(name: string, network: string): Record {
    Record(name, "/", Config("", network, [], Limits(0, 0.0, 0), "no", [], []), Stopped, 0, None, "")
  }

  function AfterRestart(m: State): Sys {
    Sys(m, map[], map[], map[], [], {}, map[], map[], 0)
  }

  /** Looks a container up and starts it, with nothing in between. */
  lemma StartNow(s0: Sys, steps: seq<Step>, s: Sys, id: nat, name: string, pid: nat, net: Network, made: bool)
    returns (more: seq<Step>, t: Sys)
    requires Reaches(s0, steps, s) && id !in s.calls && pid > 0
    requires name in s.m.names && s.m.names[name] < |s.m.objects| && s.m.objects[s.m.names[name]].status != Running
    requires forall r :: r in s.live && r < |s.runs| ==> s.runs[r].pid != pid
    ensures more == steps + [StartBegin(id, name)] + [StartEnd(id, pid, net, made)]
    ensures Reaches(s0, more, t) && t == Launched(s, name, s.m.names[name], pid, net, made)
  {
    var u := Extend(s0, steps, s, StartBegin(id, name));
    more := steps + [StartBegin(id, name)];
    t := Extend(s0, more, u, StartEnd(id, pid, net, made));
    more := more + [StartEnd(id, pid, net, made)];
    assert NoLongerPending(u, id) == s;
  }

  /** What run r held is gone, and its object is idle. */
  predicate Ended(s: Sys, t: Sys, r: nat)
    requires r < |s.runs| && s.runs[r].obj < |s.m.objects|
  {
    var o, name := s.runs[r].obj, s.runs[r].name;
    var was := s.m.objects[o];
    var bridge, limited := was.config.network == "bridge", was.config.resources != Limits(0, 0.0, 0);
    && t.m == s.m.(objects := s.m.objects[o := was.(status := Stopped, pid := 0, cmd := None, ip := "")])
    && t == s.(m := t.m, timers := t.timers, live := s.live - {r}, reapers := s.reapers - {r},
               links := if bridge then s.links - {Veth(name)} else s.links,
               cgroups := if limited then s.cgroups - {name} else s.cgroups)
  }

  /** The process of run r exits and its reaper does its work. */
  lemma EndNow(s0: Sys, steps: seq<Step>, s: Sys, r: nat) returns (more: seq<Step>, t: Sys)
    requires Reaches(s0, steps, s) && r in s.live && r in s.reapers && s.reapers[r] == Waiting
    requires r < |s.runs| && s.runs[r].obj < |s.m.objects|
    ensures more == steps + [Exit(r, false)] + [CleanUp(r, true)] + [Reap(r)]
    ensures Reaches(s0, more, t)
    ensures Ended(s, t, r) && t.timers == s.timers
  {
    var s1 := Extend(s0, steps, s, Exit(r, false));
    more := steps + [Exit(r, false)];
    var s2 := Extend(s0, more, s1, CleanUp(r, true));
    more := more + [CleanUp(r, true)];
    t := Extend(s0, more, s2, Reap(r));
    more := more + [Reap(r)];
    assert s.reapers[r := CleanedUp] - {r} == s.reapers - {r};
  }

  /** A Stop call on a running container, up to its timer. */
  lemma StopNow(s0: Sys, steps: seq<Step>, s: Sys, timer: nat, name: string) returns (more: seq<Step>, t: Sys)
    requires Reaches(s0, steps, s) && timer !in s.timers
    requires name in s.m.names && s.m.names[name] < |s.m.objects|
    requires s.m.objects[s.m.names[name]].status == Running && s.m.objects[s.m.names[name]].cmd.Some?
    ensures more == steps + [StopCall(timer, name)] + [SendSignal(timer)]
    ensures Reaches(s0, more, t)
    ensures var o := s.m.names[name];
            t == s.(timers := s.timers[timer := Timer(o, s.m.objects[o].pid, s.m.objects[o].cmd.value, Asleep)])
  {
    var u := Extend(s0, steps, s, StopCall(timer, name));
    t := Extend(s0, steps + [StopCall(timer, name)], u, SendSignal(timer));
    more := steps + [StopCall(timer, name)] + [SendSignal(timer)];
  }

  /** One whole run of container "c", with a Stop call whose timer is still to come. */
  lemma FirstRun(pid: nat, s0: Sys) returns (steps: seq<Step>, s: Sys)
    requires pid > 0 && s0 == AfterRestart(State([StoppedContainer("c", NET_HOST)], map["c" := 0]))
    ensures Reaches(s0, steps, s)
    ensures s == s0.(timers := map[0 := Timer(0, pid, 0, Asleep)], runs := [Process(0, "c", pid, None)])
  {
    var r := StoppedContainer("c", NET_HOST);
    assert Reaches(s0, [], s0);
    var s1, s2;
    steps, s1 := StartNow(s0, [], s0, 0, "c", pid, NoBridge, true);
    assert s1.m.objects == [r.(status := Running, pid := pid, cmd := Some(0))];
    steps, s2 := StopNow(s0, steps, s1, 0, "c");
    steps, s := EndNow(s0, steps, s2, 0);
    assert s.m.objects == [r] && s.live == {} && s.reapers == map[];
  }

  /** A timer that is about to send its signal, to the process of run q. */
  ghost predicate WillKill(s: Sys, q: nat) {
    Enabled(s, SendSignal(0)) && InRange(s) && Apply(s, SendSignal(0)).1 == Hit(q, Kill)
  }

  /** The timer's check, when it finds the pid in the record. */
  lemma CheckNow(s0: Sys, steps: seq<Step>, s: Sys, run: nat) returns (t: Sys)
    requires Reaches(s0, steps, s) && Enabled(s, TimerChecks(0)) && s.timers[0].obj < |s.m.objects|
    requires DecidesToKill(s.m, s.timers[0].obj, s.timers[0].pid) && s.m.objects[s.timers[0].obj].cmd == Some(run)
    ensures Reaches(s0, steps + [TimerChecks(0)], t) && InRange(t)
    ensures t == s.(timers := s.timers[0 := s.timers[0].(stage := Sending(Kill))])
  {
    t := Extend(s0, steps, s, TimerChecks(0));
    ReachedInv(s0, steps + [TimerChecks(0)]);
  }

  /** If the kernel gives a restarted container the pid of its previous run, a timer of
      the previous run kills the new one. */
  lemma ReusedPidIsKilled(pid: nat)
    requires pid > 0
    ensures exists s0, steps, s :: Reaches(s0, steps, s) && WillKill(s, 1) && s.timers[0].run == 0
              && s.runs[1].obj == s.runs[0].obj
  {
    var s0 := AfterRestart(State([StoppedContainer("c", NET_HOST)], map["c" := 0]));
    var steps, s := FirstRun(pid, s0);
    var more, t := StartNow(s0, steps, s, 0, "c", pid, NoBridge, true);
    assert t.m.objects == [StoppedContainer("c", NET_HOST).(status := Running, pid := pid, cmd := Some(1))];
    var u := CheckNow(s0, more, t, 1);
    SignalHitsIff(s0, more + [TimerChecks(0)], u, 0, 1);
    assert WillKill(u, 1);
  }

  lemma StoppedButNotReaped(pid: nat, s0: Sys) returns (steps: seq<Step>, s: Sys)
    requires pid > 0 && s0 == AfterRestart(TwoHosts())
    ensures Reaches(s0, steps, s)
    ensures s == Launched(s0, "a", 0, pid, NoBridge, true).(timers := map[0 := Timer(0, pid, 0, Asleep)], live := {})
  {
    assert Reaches(s0, [], s0);
    var s1, s2;
    steps, s1 := StartNow(s0, [], s0, 0, "a", pid, NoBridge, true);
    steps, s2 := StopNow(s0, steps, s1, 0, "a");
    s := Extend(s0, steps, s2, Exit(0, false));
    steps := steps + [Exit(0, false)];
  }

  /** A run of container "a" is stopped and its process exits; before its reaper has cleared
      the record, container "b" is started with the pid that has become free. */
  lemma PidTakenBeforeReap(pid: nat, s0: Sys) returns (steps: seq<Step>, s: Sys)
    requires pid > 0 && s0 == AfterRestart(TwoHosts())
    ensures Reaches(s0, steps, s) && |s.runs| == 2 && s.live == {1} && s.runs[1] == Process(1, "b", pid, None)
    ensures s.timers == map[0 := Timer(0, pid, 0, Asleep)] && s.runs[0] == Process(0, "a", pid, None)
    ensures s.m.objects[0].status == Running && s.m.objects[0].pid == pid && s.m.objects[0].cmd == Some(0)
  {
    var s1;
    steps, s1 := StoppedButNotReaped(pid, s0);
    steps, s := StartNow(s0, steps, s1, 0, "b", pid, NoBridge, true);
  }

  function TwoHosts(): State {
    State([StoppedContainer("a", NET_HOST), StoppedContainer("b", NET_HOST)], map["a" := 0, "b" := 1])
  }

  /** Then the timer of "a" kills "b", although no pid is reused within a container: the
      decision is right by the record, and the signal goes by pid. */
  lemma ExitedPidIsKilled(pid: nat)
    requires pid > 0
    ensures exists s0, steps, s :: Reaches(s0, steps, s) && WillKill(s, 1) && PidNotReused(s, 0)
              && s.timers[0].run == 0 && s.runs[0].name == "a" && s.runs[1].name == "b"
  {
    var s0 := AfterRestart(TwoHosts());
    var steps, s := PidTakenBeforeReap(pid, s0);
    var t := CheckNow(s0, steps, s, 0);
    SignalHitsIff(s0, steps + [TimerChecks(0)], t, 0, 1);
    WillKillB(t);
    assert Reaches(s0, steps + [TimerChecks(0)], t);
  }

  lemma WillKillB(s: Sys)
    requires InRange(s) && Enabled(s, SendSignal(0)) && Apply(s, SendSignal(0)).1 == Hit(1, s.timers[0].stage.signal)
    requires s.timers[0].stage == Sending(Kill) && s.timers[0].obj == 0 && |s.runs| == 2 && s.runs[1].obj == 1
    ensures WillKill(s, 1) && PidNotReused(s, 0)
  {
  }

  function TwoStopped(a: string, b: string): State {
    State([StoppedContainer(a, NET_BRIDGE), StoppedContainer(b, NET_BRIDGE)], map[a := 0, b := 1])
  }

  /** The first of two containers runs and its process exits; its reaper has yet to clean up. */
  lemma FirstExits(a: string, b: string, s0: Sys) returns (steps: seq<Step>, s: Sys)
    requires a != b && s0 == AfterRestart(TwoStopped(a, b))
    ensures Reaches(s0, steps, s)
    ensures s == Launched(s0, a, 0, 1, FullNetwork, true).(live := {}, links := map[])
  {
    assert Reaches(s0, [], s0);
    var t;
    steps, t := StartNow(s0, [], s0, 0, a, 1, FullNetwork, true);
    assert t.links == map[Veth(a) := 0];
    s := Extend(s0, steps, t, Exit(0, true));
    steps := steps + [Exit(0, true)];
  }

  /** Whenever two names are cut to the same interface name, a reaper of one container
      can delete the link of the other while that one is running. */
  lemma CutNamesCollide(a: string, b: string)
    requires a != b && Veth(a) == Veth(b)
    ensures exists s0, steps, s :: Reaches(s0, steps, s) && Enabled(s, CleanUp(0, true))
              && |s.runs| == 2 && s.runs[0].name == a && s.runs[1].name == b && 1 in s.live
              && Veth(b) in s.links && s.links[Veth(b)] == 1
              && Veth(b) !in Apply(s, CleanUp(0, true)).0.links
  {
    var s0 := AfterRestart(TwoStopped(a, b));
    var steps, s2 := FirstExits(a, b, s0);
    var steps', s3 := StartNow(s0, steps, s2, 0, b, 2, FullNetwork, true);
    assert s3.links == map[Veth(b) := 1];
    assert Reaches(s0, steps', s3) && Enabled(s3, CleanUp(0, true));
  }
}
