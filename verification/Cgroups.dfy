/** Which run holds which cgroup directory (cmd/aetheria-agent/container.go:456-461 and 489-492,
    cmd/aetheria-agent/cgroup.go:74-142). */
module Cgroups {
  import opened Manager
  import opened ManagerRuns
  import opened Linearization
  import opened Lifecycle

  /** Run r is in progress and not yet cleaned up, and its container has limits. */
  predicate Limited(s: Sys, r: nat) {
    && r in s.reapers && s.reapers[r] == Waiting && r < |s.runs| && s.runs[r].obj < |s.m.objects|
    && s.m.objects[s.runs[r].obj].config.resources != Limits(0, 0.0, 0)
  }

  predicate InCgroup(s: Sys, r: nat, name: string) {
    name in s.cgroups && s.cgroups[name] == r
  }

  ghost predicate LimitsApplied(s: Sys) {
    forall r: nat :: Limited(s, r) ==> InCgroup(s, r, s.runs[r].name)
  }

  ghost predicate NoStaleCgroup(s: Sys) {
    forall n :: n in s.cgroups ==> Limited(s, s.cgroups[n]) && s.runs[s.cgroups[n]].name == n
  }

  /** Every removal of a cgroup succeeds. */
  predicate AllRemoved(steps: seq<Step>) {
    forall i :: 0 <= i < |steps| && steps[i].CleanUp? ==> steps[i].cgroupGone
  }

  /** Every cgroup directory can be made. */
  predicate AllMade(steps: seq<Step>) {
    forall i :: 0 <= i < |steps| && steps[i].StartEnd? ==> steps[i].made
  }

  /** Who is limited depends on reapers, runs and configurations alone. */
  lemma LimitedStays(s: Sys, t: Sys, r: nat)
    requires r < |s.runs| && s.runs <= t.runs && (r in s.reapers <==> r in t.reapers)
    requires r in s.reapers ==> s.reapers[r] == t.reapers[r]
    requires s.runs[r].obj < |s.m.objects| <= |t.m.objects|
    requires t.m.objects[s.runs[r].obj].config == s.m.objects[s.runs[r].obj].config
    ensures Limited(t, r) <==> Limited(s, r)
  {
  }

  /** Who is limited after a Start: whoever was, and the new run if its container has limits. */
  lemma StartedLimits(s: Sys, id: nat, pid: nat, net: Network, made: bool, r: nat)
    requires Inv(s) && InRange(s) && Enabled(s, StartEnd(id, pid, net, made)) && r <= |s.runs|
    requires ApplyStartEnd(s, id, pid, net, made).1.Started?
    ensures Limited(ApplyStartEnd(s, id, pid, net, made).0, r) <==>
            if r < |s.runs| then Limited(s, r)
            else s.m.objects[s.calls[id].obj].config.resources != Limits(0, 0.0, 0)
  {
    StartedRuns(s, id, pid, net, made);
    StartedAcquires(s, id, pid, net, made);
    if r < |s.runs| { LimitedStays(s, ApplyStartEnd(s, id, pid, net, made).0, r); }
  }

  /** A container that starts has no other run in progress. */
  lemma OtherName(s: Sys, id: nat, pid: nat, net: Network, r: nat)
    requires Inv(s) && InRange(s) && Enabled(s, StartEnd(id, pid, net, true)) && r in s.reapers
    requires ApplyStartEnd(s, id, pid, net, true).1.Started?
    ensures s.runs[r].name != s.calls[id].name
  {
    assert CallOk(s, s.calls[id]) && ReaperOk(s, r) && ObjectOk(s, s.runs[r].obj);
    IdleHasNoReaper(s, s.calls[id].name, s.calls[id].obj);
  }

  lemma LaunchKeepsLimits(s: Sys, id: nat, pid: nat, net: Network)
    requires Inv(s) && InRange(s) && Enabled(s, StartEnd(id, pid, net, true)) && LimitsApplied(s)
    requires ApplyStartEnd(s, id, pid, net, true).1.Started?
    ensures LimitsApplied(ApplyStartEnd(s, id, pid, net, true).0)
  {
    var t := ApplyStartEnd(s, id, pid, net, true).0;
    StartedAcquires(s, id, pid, net, true);
    StartedLimits(s, id, pid, net, true, |s.runs|);
    forall r: nat | Limited(t, r) ensures InCgroup(t, r, t.runs[r].name) {
      if r < |s.runs| {
        StartedLimits(s, id, pid, net, true, r);
        OtherName(s, id, pid, net, r);
      }
    }
  }

  lemma CleanUpKeepsLimits(s: Sys, r: nat, gone: bool)
    requires Inv(s) && InRange(s) && Enabled(s, CleanUp(r, gone)) && LimitsApplied(s)
    ensures LimitsApplied(ApplyCleanUp(s, r, gone))
  {
    var t := ApplyCleanUp(s, r, gone);
    forall q: nat | Limited(t, q) ensures InCgroup(t, q, t.runs[q].name) {
      assert Limited(s, q);
      if s.runs[q].name == s.runs[r].name { ReapersDistinct(s, q, r); }
    }
  }

  /** Cgroups, and who is limited, are as before. */
  ghost predicate SameLimits(s: Sys, t: Sys) {
    t.cgroups == s.cgroups && t.runs == s.runs && forall r: nat :: Limited(t, r) <==> Limited(s, r)
  }

  lemma RegistryKeepsLimits(s: Sys, step: Step)
    requires InRange(s) && Enabled(s, step) && (step.CreateEnd? || step.RemoveCall?)
    ensures SameLimits(s, Apply(s, step).0)
  {
    forall r: nat | r < |s.runs| ensures Limited(Apply(s, step).0, r) <==> Limited(s, r) {
      LimitedStays(s, Apply(s, step).0, r);
    }
  }

  lemma ReapKeepsLimits(s: Sys, r: nat)
    requires InRange(s) && Enabled(s, Reap(r))
    ensures SameLimits(s, Apply(s, Reap(r)).0)
  {
    forall q: nat | q < |s.runs| && q != r ensures Limited(Apply(s, Reap(r)).0, q) <==> Limited(s, q) {
      LimitedStays(s, Apply(s, Reap(r)).0, q);
    }
  }

  /** Other steps change neither cgroups nor who is limited. */
  lemma OthersKeepLimits(s: Sys, step: Step)
    requires Inv(s) && InRange(s) && Enabled(s, step) && !step.StartEnd? && !step.CleanUp?
    ensures SameLimits(s, Apply(s, step).0)
  {
    if step.CreateEnd? || step.RemoveCall? { RegistryKeepsLimits(s, step); }
    else if step.Reap? { ReapKeepsLimits(s, step.run); }
    else { QuietStep(s, step); }
  }

  lemma QuietStep(s: Sys, step: Step)
    requires InRange(s) && Enabled(s, step) && !step.StartEnd? && !step.CleanUp?
    requires !step.CreateEnd? && !step.RemoveCall? && !step.Reap?
    ensures var t := Apply(s, step).0;
            t.cgroups == s.cgroups && t.runs == s.runs && t.reapers == s.reapers && t.m == s.m
  {
  }

  /** A Start that is refused changes nothing but its own call. */
  lemma RefusedStart(s: Sys, id: nat, pid: nat, net: Network, made: bool)
    requires InRange(s) && Enabled(s, StartEnd(id, pid, net, made))
    requires !ApplyStartEnd(s, id, pid, net, made).1.Started?
    ensures SameLimits(s, ApplyStartEnd(s, id, pid, net, made).0)
  {
  }

  lemma StepKeepsLimits(s: Sys, step: Step)
    requires Inv(s) && InRange(s) && Enabled(s, step) && LimitsApplied(s) && (step.StartEnd? ==> step.made)
    ensures LimitsApplied(Apply(s, step).0)
  {
    match step
    case StartEnd(id, pid, net, made) =>
      if ApplyStartEnd(s, id, pid, net, made).1.Started? { LaunchKeepsLimits(s, id, pid, net); }
      else { RefusedStart(s, id, pid, net, made); }
    case CleanUp(r, gone) => CleanUpKeepsLimits(s, r, gone);
    case _ => OthersKeepLimits(s, step);
  }

  lemma LaunchKeepsFresh(s: Sys, id: nat, pid: nat, net: Network, made: bool)
    requires Inv(s) && InRange(s) && Enabled(s, StartEnd(id, pid, net, made)) && NoStaleCgroup(s)
    requires ApplyStartEnd(s, id, pid, net, made).1.Started?
    ensures NoStaleCgroup(ApplyStartEnd(s, id, pid, net, made).0)
  {
    var t := ApplyStartEnd(s, id, pid, net, made).0;
    StartedAcquires(s, id, pid, net, made);
    StartedLimits(s, id, pid, net, made, |s.runs|);
    forall n | n in t.cgroups ensures Limited(t, t.cgroups[n]) && t.runs[t.cgroups[n]].name == n {
      if t.cgroups[n] < |s.runs| { StartedLimits(s, id, pid, net, made, t.cgroups[n]); }
    }
  }

  lemma CleanUpKeepsFresh(s: Sys, r: nat)
    requires Inv(s) && InRange(s) && Enabled(s, CleanUp(r, true)) && NoStaleCgroup(s)
    ensures NoStaleCgroup(ApplyCleanUp(s, r, true))
  {
  }

  lemma StepKeepsFresh(s: Sys, step: Step)
    requires Inv(s) && InRange(s) && Enabled(s, step) && NoStaleCgroup(s) && (step.CleanUp? ==> step.cgroupGone)
    ensures NoStaleCgroup(Apply(s, step).0)
  {
    match step
    case StartEnd(id, pid, net, made) =>
      if ApplyStartEnd(s, id, pid, net, made).1.Started? { LaunchKeepsFresh(s, id, pid, net, made); }
      else { RefusedStart(s, id, pid, net, made); }
    case CleanUp(r, _) => CleanUpKeepsFresh(s, r);
    case _ => OthersKeepLimits(s, step);
  }

  lemma {:induction false} ReachedCgroups(s0: Sys, steps: seq<Step>)
    requires Initial(s0) && InRange(s0) && Exec(s0, steps).Some?
    ensures AllMade(steps) ==> LimitsApplied(Exec(s0, steps).value.0)
    ensures AllRemoved(steps) ==> NoStaleCgroup(Exec(s0, steps).value.0)
  {
    if steps != [] {
      var before, step := steps[..|steps| - 1], steps[|steps| - 1];
      ReachedCgroups(s0, before);
      ReachedInv(s0, before);
      var s := Exec(s0, before).value.0;
      if AllMade(steps) { StepKeepsLimits(s, step); }
      if AllRemoved(steps) { StepKeepsFresh(s, step); }
    }
  }

  /** As long as its directory can be made, a limited run in progress has the cgroup of its name;
      as long as removals succeed, no cgroup outlives the clean-up of its run; so, if both do,
      exactly these runs have one. */
  lemma CgroupIff(s0: Sys, steps: seq<Step>, s: Sys, r: nat, name: string)
    requires Reaches(s0, steps, s)
    ensures AllMade(steps) && Limited(s, r) && s.runs[r].name == name ==> InCgroup(s, r, name)
    ensures AllRemoved(steps) && InCgroup(s, r, name) ==> Limited(s, r) && s.runs[r].name == name
    ensures AllMade(steps) && AllRemoved(steps) ==>
              (InCgroup(s, r, name) <==> Limited(s, r) && s.runs[r].name == name)
  {
    ReachedCgroups(s0, steps);
  }
}
