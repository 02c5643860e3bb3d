/** What holds in every reachable state of the container manager. */
module RunProperties {
  import opened Manager
  import opened Options
  import opened ManagerRuns
  import opened Linearization
  import opened IpPool

  // ---------- Running objects and their reapers ----------

  predicate ReapsFor(s: Sys, r: nat, o: nat) {
    r in s.reapers && r < |s.runs| && s.runs[r].obj == o
  }

  predicate IsRegistered(m: State, o: nat) {
    o < |m.objects| && m.objects[o].name in m.names && m.names[m.objects[o].name] == o
  }

  /** An object is running exactly if it has a pid, exactly if it has a process handle,
      exactly if it has an unfinished reaper; then it has only one and is registered. */
  lemma RunningIff(s0: Sys, steps: seq<Step>, s: Sys, o: nat)
    requires Reaches(s0, steps, s) && o < |s.m.objects|
    ensures var r := s.m.objects[o];
            && (r.status == Running <==> r.pid != 0)
            && (r.status == Running <==> r.cmd.Some?)
            && (r.status == Running <==> exists q: nat :: ReapsFor(s, q, o))
            && (r.status == Running ==> IsRegistered(s.m, o))
    ensures forall q: nat, r: nat :: ReapsFor(s, q, o) && ReapsFor(s, r, o) ==> q == r
  {
    ReachedInv(s0, steps);
    assert ObjectOk(s, o);
    forall q: nat | ReapsFor(s, q, o) ensures s.m.objects[o].cmd == Some(q) { assert ReaperOk(s, q); }
    if s.m.objects[o].cmd.Some? {
      assert ReapsFor(s, s.m.objects[o].cmd.value, o);
    }
  }

  // ---------- Clean-up by name ----------

  /** The clean-up of run r takes a link away from run q. */
  predicate TakesLink(s: Sys, r: nat, gone: bool, v: string, q: nat)
    requires r < |s.runs| && s.runs[r].obj < |s.m.objects|
  {
    v in s.links && s.links[v] == q && v !in ApplyCleanUp(s, r, gone).links
  }

  /** The link under r's cut name belongs to a run, in progress, of a container with another
      name. */
  predicate CutNameTaken(s: Sys, r: nat)
    requires r < |s.runs|
  {
    var v := Veth(s.runs[r].name);
    v in s.links && s.links[v] < |s.runs| && s.links[v] in s.reapers && s.runs[s.links[v]].name != s.runs[r].name
  }

  lemma TakenLink(s: Sys, r: nat, gone: bool, v: string, q: nat)
    requires r < |s.runs| && s.runs[r].obj < |s.m.objects|
    ensures TakesLink(s, r, gone, v, q) <==>
            UsesBridge(s.m.objects[s.runs[r].obj].config)
            && v == Veth(s.runs[r].name) && v in s.links && s.links[v] == q
  {
  }

  lemma LinkOwner(s: Sys, r: nat)
    requires Inv(s) && r in s.reapers && r < |s.runs| && s.runs[r].obj < |s.m.objects|
    ensures var v := Veth(s.runs[r].name);
            v in s.links ==>
              s.links[v] < |s.runs| && s.links[v] in s.reapers
              && (s.runs[s.links[v]].name == s.runs[r].name <==> s.links[v] == r)
  {
    var v := Veth(s.runs[r].name);
    if v in s.links {
      assert LinkOk(s, v);
      if s.runs[s.links[v]].name == s.runs[r].name { ReapersDistinct(s, s.links[v], r); }
    }
  }

  /** A reaper's clean-up deletes a link of another run if and only if its container uses the
      bridge and its cut name is taken by a container of another name. */
  lemma CleanUpDeletesOtherIff(s0: Sys, steps: seq<Step>, s: Sys, r: nat, gone: bool)
    requires Reaches(s0, steps, s) && r in s.reapers
    ensures r < |s.runs| && s.runs[r].obj < |s.m.objects|
    ensures (exists v, q :: TakesLink(s, r, gone, v, q) && q != r) <==>
            UsesBridge(s.m.objects[s.runs[r].obj].config) && CutNameTaken(s, r)
  {
    ReachedInv(s0, steps);
    var v := Veth(s.runs[r].name);
    LinkOwner(s, r);
    if UsesBridge(s.m.objects[s.runs[r].obj].config) && CutNameTaken(s, r) {
      TakenLink(s, r, gone, v, s.links[v]);
    }
    if w, q :| TakesLink(s, r, gone, w, q) && q != r { TakenLink(s, r, gone, w, q); }
  }

  /** No run in progress has another name that is cut to r's interface name. */
  ghost predicate CutNameUnique(s: Sys, r: nat)
    requires r < |s.runs|
  {
    forall q :: q in s.reapers && q < |s.runs| && Veth(s.runs[q].name) == Veth(s.runs[r].name) ==>
      s.runs[q].name == s.runs[r].name
  }

  /** So, while no other run in progress shares the cut name, it deletes its own link only. */
  lemma CleanUpDeletesOwnLink(s0: Sys, steps: seq<Step>, s: Sys, r: nat, gone: bool)
    requires Reaches(s0, steps, s) && r in s.reapers && r < |s.runs| && CutNameUnique(s, r)
    ensures s.runs[r].obj < |s.m.objects|
    ensures forall v :: v in s.links && v !in ApplyCleanUp(s, r, gone).links ==> s.links[v] == r
  {
    ReachedInv(s0, steps);
    CleanUpDeletesOtherIff(s0, steps, s, r, gone);
    var v := Veth(s.runs[r].name);
    if v in s.links { assert LinkOk(s, v); }
    forall w | w in s.links && w !in ApplyCleanUp(s, r, gone).links ensures s.links[w] == r {
      assert TakesLink(s, r, gone, w, s.links[w]);
    }
  }

  /** It removes a cgroup only from its own run or from one that is over; names of
      cgroups are not cut. */
  lemma CleanUpRemovesOwnCgroup(s0: Sys, steps: seq<Step>, s: Sys, r: nat, gone: bool)
    requires Reaches(s0, steps, s) && Enabled(s, CleanUp(r, gone))
    ensures forall n :: n in s.cgroups && n !in ApplyCleanUp(s, r, gone).cgroups ==>
              s.cgroups[n] == r || s.cgroups[n] !in s.reapers
  {
    ReachedInv(s0, steps);
    forall n | n in s.cgroups && n == s.runs[r].name && s.cgroups[n] in s.reapers
      ensures s.cgroups[n] == r
    {
      ReapersDistinct(s, s.cgroups[n], r);
    }
  }

  // ---------- Kill timers: the decision ----------

  /** Run r is the last one of its object. */
  ghost predicate Last(s: Sys, r: nat) {
    r < |s.runs| && forall q :: r < q < |s.runs| ==> s.runs[q].obj != s.runs[r].obj
  }

  ghost predicate ReapersLast(s: Sys) {
    forall r :: r in s.reapers ==> Last(s, r)
  }

  /** Only the second section of Start makes a run. */
  lemma RunsKept(s: Sys, step: Step)
    requires InRange(s) && Enabled(s, step) && !step.StartEnd?
    ensures Apply(s, step).0.runs == s.runs && Apply(s, step).0.reapers.Keys <= s.reapers.Keys
  {
  }

  lemma LaunchKeepsLast(s: Sys, id: nat, pid: nat, net: Network, made: bool)
    requires Inv(s) && InRange(s) && Enabled(s, StartEnd(id, pid, net, made)) && ReapersLast(s)
    ensures ReapersLast(ApplyStartEnd(s, id, pid, net, made).0)
  {
    var t := ApplyStartEnd(s, id, pid, net, made).0;
    if ApplyStartEnd(s, id, pid, net, made).1.Started? {
      IdleHasNoReaper(s, s.calls[id].name, s.calls[id].obj);
      NewestLast(s, t, s.calls[id].obj);
    } else {
      forall r | r in t.reapers ensures Last(t, r) { assert Last(s, r); }
    }
  }

  lemma NewestLast(s: Sys, t: Sys, o: nat)
    requires ReapersLast(s) && forall r :: r in s.reapers ==> r < |s.runs| && s.runs[r].obj != o
    requires |t.runs| == |s.runs| + 1 && t.runs[..|s.runs|] == s.runs && t.runs[|s.runs|].obj == o
    requires forall r :: r in t.reapers ==> r in s.reapers || r == |s.runs|
    ensures ReapersLast(t)
  {
    forall r | r in t.reapers ensures Last(t, r) {
      if r in s.reapers {
        assert Last(s, r);
        forall q | r < q < |t.runs| ensures t.runs[q].obj != t.runs[r].obj {
          if q < |s.runs| { assert t.runs[q] == s.runs[q] && t.runs[r] == s.runs[r]; }
        }
      }
    }
  }

  lemma StepKeepsLast(s: Sys, step: Step)
    requires Inv(s) && InRange(s) && Enabled(s, step) && ReapersLast(s)
    ensures ReapersLast(Apply(s, step).0)
  {
    if step.StartEnd? {
      LaunchKeepsLast(s, step.id, step.pid, step.net, step.made);
    } else {
      RunsKept(s, step);
      forall r | r in Apply(s, step).0.reapers ensures Last(Apply(s, step).0, r) { assert Last(s, r); }
    }
  }

  /** An unfinished reaper is for the last run of its object. */
  lemma {:induction false} ReachedLast(s0: Sys, steps: seq<Step>)
    requires Initial(s0) && InRange(s0) && Exec(s0, steps).Some?
    ensures ReapersLast(Exec(s0, steps).value.0)
  {
    if steps != [] {
      var before := steps[..|steps| - 1];
      ReachedLast(s0, before);
      ReachedInv(s0, before);
      StepKeepsLast(Exec(s0, before).value.0, steps[|steps| - 1]);
    }
  }

  /** Run r is in progress, of the timer's container, with the pid Stop saw. */
  predicate Matches(s: Sys, t: nat, r: nat)
    requires t in s.timers
  {
    && r in s.reapers && r < |s.runs|
    && s.runs[r].obj == s.timers[t].obj && s.runs[r].pid == s.timers[t].pid
  }

  /** At its locked check a timer decides to kill exactly if there is such a run, and then it is
      this run that it sees in the container's record. */
  lemma TimerDecidesIff(s0: Sys, steps: seq<Step>, s: Sys, t: nat, r: nat)
    requires Reaches(s0, steps, s) && Enabled(s, TimerChecks(t))
    ensures Apply(s, TimerChecks(t)).1 == Decided(r) <==> Matches(s, t, r)
  {
    ReachedInv(s0, steps);
    assert TimerOk(s, s.timers[t]) && ObjectOk(s, s.timers[t].obj);
    if r in s.reapers { assert ReaperOk(s, r); }
  }

  /** It decides for another run than its own if and only if a later run of the container has
      been given the same pid and is in progress. */
  lemma TimerDecidesForOtherIff(s0: Sys, steps: seq<Step>, s: Sys, t: nat)
    requires Reaches(s0, steps, s) && Enabled(s, TimerChecks(t))
    ensures var e := Apply(s, TimerChecks(t)).1;
            (e.Decided? && e.run != s.timers[t].run) <==> exists q: nat :: s.timers[t].run < q && Matches(s, t, q)
  {
    ReachedInv(s0, steps);
    ReachedLast(s0, steps);
    var e := Apply(s, TimerChecks(t)).1;
    assert TimerOk(s, s.timers[t]);
    if e.Decided? {
      TimerDecidesIff(s0, steps, s, t, e.run);
      assert Last(s, e.run);
    }
    if q: nat :| s.timers[t].run < q && Matches(s, t, q) { TimerDecidesIff(s0, steps, s, t, q); }
  }

  /** No later run of the timer's container has been given the pid Stop saw. */
  ghost predicate PidNotReused(s: Sys, t: nat)
    requires t in s.timers
  {
    forall q :: s.timers[t].run < q < |s.runs| && s.runs[q].obj == s.timers[t].obj ==> s.runs[q].pid != s.timers[t].pid
  }

  /** So, unless a pid is reused by a later run of the container, the timer decides exactly if
      the run it was made for is still the current one, and for that run only. */
  lemma TimerDecidesForOwnRun(s0: Sys, steps: seq<Step>, s: Sys, t: nat)
    requires Reaches(s0, steps, s) && Enabled(s, TimerChecks(t)) && PidNotReused(s, t)
    ensures Apply(s, TimerChecks(t)).1 == if s.timers[t].run in s.reapers then Decided(s.timers[t].run) else Silent
  {
    ReachedInv(s0, steps);
    var own, e := s.timers[t].run, Apply(s, TimerChecks(t)).1;
    assert TimerOk(s, s.timers[t]);
    TimerDecidesIff(s0, steps, s, t, own);
    TimerDecidesForOtherIff(s0, steps, s, t);
    if e.Decided? { TimerDecidesIff(s0, steps, s, t, e.run); }
  }

  // ---------- Kill timers: the signal ----------

  /** No run was given the pid of an earlier one that has not been waited for. */
  ghost predicate LivePidsKept(s: Sys) {
    forall q, r :: q in s.live && q < r < |s.runs| ==> PidsDiffer(s, q, r)
  }

  predicate PidsDiffer(s: Sys, q: nat, r: nat)
    requires q < |s.runs| && r < |s.runs|
  {
    s.runs[q].pid != s.runs[r].pid
  }

  lemma LaunchKeepsLivePids(s: Sys, id: nat, pid: nat, net: Network, made: bool)
    requires InRange(s) && Enabled(s, StartEnd(id, pid, net, made)) && LivePidsKept(s)
    ensures LivePidsKept(ApplyStartEnd(s, id, pid, net, made).0)
  {
    var t := ApplyStartEnd(s, id, pid, net, made).0;
    forall q, r | q in t.live && q < r < |t.runs| ensures PidsDiffer(t, q, r) {
      if r < |s.runs| { assert PidsDiffer(s, q, r); }
    }
  }

  lemma StepKeepsLivePids(s: Sys, step: Step)
    requires InRange(s) && Enabled(s, step) && LivePidsKept(s)
    ensures LivePidsKept(Apply(s, step).0)
  {
    if step.StartEnd? {
      LaunchKeepsLivePids(s, step.id, step.pid, step.net, step.made);
    } else {
      RunsKept(s, step);
      var t := Apply(s, step).0;
      forall q, r | q in t.live && q < r < |t.runs| ensures PidsDiffer(t, q, r) { assert PidsDiffer(s, q, r); }
    }
  }

  lemma {:induction false} ReachedLivePids(s0: Sys, steps: seq<Step>)
    requires Initial(s0) && InRange(s0) && Exec(s0, steps).Some?
    ensures LivePidsKept(Exec(s0, steps).value.0)
  {
    if steps != [] {
      var before := steps[..|steps| - 1];
      ReachedLivePids(s0, before);
      StepKeepsLivePids(Exec(s0, before).value.0, steps[|steps| - 1]);
    }
  }

  /** A signal reaches the run, of whatever container, whose process has the pid by then. */
  lemma SignalHitsIff(s0: Sys, steps: seq<Step>, s: Sys, t: nat, r: nat)
    requires Reaches(s0, steps, s) && Enabled(s, SendSignal(t))
    ensures Apply(s, SendSignal(t)).1 == Hit(r, s.timers[t].stage.signal) <==>
            r in s.live && r < |s.runs| && s.runs[r].pid == s.timers[t].pid
  {
    ReachedInv(s0, steps);
    ReachedLivePids(s0, steps);
    var found := LiveWith(s.runs, s.live, s.timers[t].pid);
    if found.Some? && r in s.live && r < |s.runs| && r != found.value {
      assert PidsDiffer(s, if r < found.value then r else found.value, if r < found.value then found.value else r);
    }
  }

  /** It reaches the run Stop was called for if and only if that run's process has not been
      waited for; and it reaches another's if and only if it has, and another container's
      process, or a later one of the same container, has its pid. */
  lemma SignalMissesIff(s0: Sys, steps: seq<Step>, s: Sys, t: nat)
    requires Reaches(s0, steps, s) && Enabled(s, SendSignal(t))
    ensures var own, e := s.timers[t].run, Apply(s, SendSignal(t)).1;
            && (e.Hit? && e.run == own <==> own in s.live)
            && (e.Hit? && e.run != own <==>
                own !in s.live && exists q :: own < q < |s.runs| && q in s.live && s.runs[q].pid == s.timers[t].pid)
  {
    ReachedInv(s0, steps);
    ReachedLivePids(s0, steps);
    var own, e := s.timers[t].run, Apply(s, SendSignal(t)).1;
    assert TimerOk(s, s.timers[t]);
    SignalHitsIff(s0, steps, s, t, own);
    forall q | q in s.live && q < own ensures PidsDiffer(s, q, own) {}
    if e.Hit? { SignalHitsIff(s0, steps, s, t, e.run); }
  }

  /** No later run, of any container, has been given the pid Stop saw. */
  ghost predicate PidNotTaken(s: Sys, t: nat)
    requires t in s.timers
  {
    forall q :: s.timers[t].run < q < |s.runs| ==> s.runs[q].pid != s.timers[t].pid
  }

  /** So a signal goes astray only if a later run has its pid. */
  lemma SignalHitsOwnRun(s0: Sys, steps: seq<Step>, s: Sys, t: nat)
    requires Reaches(s0, steps, s) && Enabled(s, SendSignal(t)) && PidNotTaken(s, t)
    ensures Apply(s, SendSignal(t)).1 ==
            if s.timers[t].run in s.live then Hit(s.timers[t].run, s.timers[t].stage.signal) else Silent
  {
    SignalMissesIff(s0, steps, s, t);
    if s.timers[t].run in s.live {
      ReachedInv(s0, steps);
      assert TimerOk(s, s.timers[t]);
      SignalHitsIff(s0, steps, s, t, s.timers[t].run);
    }
  }

  // ---------- Addresses ----------

  ghost predicate HasAddress(s: Sys, o: nat, k: nat) {
    && o < |s.m.objects| && s.m.objects[o].ip != "" && s.m.objects[o].cmd.Some?
    && s.m.objects[o].cmd.value < |s.runs|
    && s.runs[s.m.objects[o].cmd.value].alloc == Some(k)
  }

  /** Every address in use comes from one allocation, and two containers have the same
      address exactly when a multiple of 253 lies between theirs. */
  lemma AddressesClashIff(s0: Sys, steps: seq<Step>, s: Sys, o: nat, p: nat)
    requires Reaches(s0, steps, s) && o < |s.m.objects| && p < |s.m.objects| && o != p
    requires s.m.objects[o].ip != "" && s.m.objects[p].ip != ""
    ensures exists j: nat, k: nat ::
              HasAddress(s, o, j) && HasAddress(s, p, k) && j != k && j < s.allocs && k < s.allocs
              && (s.m.objects[o].ip == s.m.objects[p].ip <==> j % POOL_SIZE == k % POOL_SIZE)
  {
    ReachedInv(s0, steps);
    assert ObjectOk(s, o) && ObjectOk(s, p);
    var q, r := s.m.objects[o].cmd.value, s.m.objects[p].cmd.value;
    var j, k := s.runs[q].alloc.value, s.runs[r].alloc.value;
    assert q != r;
    assert HasAddress(s, o, j) && HasAddress(s, p, k);
    SameAddressIff(j, k);
  }

  /** At most 253 allocations have been made, counting from the oldest one in use. */
  ghost predicate RecentlyAllocated(s: Sys) {
    forall o: nat, k: nat :: HasAddress(s, o, k) ==> s.allocs - k <= POOL_SIZE
  }

  lemma AddressesDistinct(s0: Sys, steps: seq<Step>, s: Sys, o: nat, p: nat)
    requires Reaches(s0, steps, s) && RecentlyAllocated(s)
    requires o < |s.m.objects| && p < |s.m.objects| && o != p && s.m.objects[o].ip != ""
    ensures s.m.objects[o].ip != s.m.objects[p].ip
  {
    if s.m.objects[p].ip != "" {
      AddressesClashIff(s0, steps, s, o, p);
      var j: nat, k: nat :| HasAddress(s, o, j) && HasAddress(s, p, k) && j != k && j < s.allocs && k < s.allocs
        && (s.m.objects[o].ip == s.m.objects[p].ip <==> j % POOL_SIZE == k % POOL_SIZE);
      if j < k { WindowDistinct(j, k); SameAddressIff(j, k); } else { WindowDistinct(k, j); SameAddressIff(j, k); }
    }
  }

  // ---------- A start runs the object it found ----------

  /** Start's second section succeeds exactly if the object found in the first is still the
      registered one and not running, and blames a modification exactly if it is not. */
  lemma StartSucceedsIff(s0: Sys, steps: seq<Step>, s: Sys, id: nat, pid: nat, net: Network, made: bool)
    requires Reaches(s0, steps, s) && Enabled(s, StartEnd(id, pid, net, made))
    ensures var o, e := s.calls[id].obj, Apply(s, StartEnd(id, pid, net, made)).1;
            && (e == Started(s.calls[id].name) <==> IsRegistered(s.m, o) && s.m.objects[o].status != Running)
            && (e == Refused(Start, s.calls[id].name, ModifiedDuringStart) <==> !IsRegistered(s.m, o))
  {
    ReachedInv(s0, steps);
    assert CallOk(s, s.calls[id]);
  }

  lemma UnregisteredForGood(s: Sys, step: Step, o: nat)
    requires InRange(s) && Enabled(s, step) && o < |s.m.objects| && !IsRegistered(s.m, o)
    ensures o < |Apply(s, step).0.m.objects| && !IsRegistered(Apply(s, step).0.m, o)
  {
    if !step.CreateEnd? && !step.StartEnd? && !step.RemoveCall? && !step.Reap? { RegistryKept(s, step); }
  }

  lemma RegistryKept(s: Sys, step: Step)
    requires InRange(s) && Enabled(s, step)
    requires !step.CreateEnd? && !step.StartEnd? && !step.RemoveCall? && !step.Reap?
    ensures Apply(s, step).0.m == s.m
  {
  }

  /** The state before step i of a run. */
  function Before(s0: Sys, steps: seq<Step>, i: nat): Option<Sys>
    requires InRange(s0) && i <= |steps|
  {
    match Exec(s0, steps[..i])
    case None => None
    case Some((s, _)) => Some(s)
  }

  lemma {:induction false} PrefixRuns(s0: Sys, steps: seq<Step>, i: nat)
    requires Initial(s0) && InRange(s0) && Exec(s0, steps).Some? && i <= |steps|
    ensures Exec(s0, steps[..i]).Some?
    decreases |steps|
  {
    if i == |steps| {
      assert steps[..i] == steps;
    } else {
      assert steps[..|steps| - 1][..i] == steps[..i];
      PrefixRuns(s0, steps[..|steps| - 1], i);
    }
  }

  /** An object once unregistered is never registered again. */
  lemma {:induction false} StaysUnregistered(s0: Sys, steps: seq<Step>, i: nat, o: nat)
    requires Initial(s0) && InRange(s0) && Exec(s0, steps).Some? && i <= |steps|
    requires Before(s0, steps, i).Some? && o < |Before(s0, steps, i).value.m.objects|
    requires !IsRegistered(Before(s0, steps, i).value.m, o)
    ensures !IsRegistered(Exec(s0, steps).value.0.m, o) && o < |Exec(s0, steps).value.0.m.objects|
    decreases |steps|
  {
    if i == |steps| {
      assert steps[..i] == steps;
    } else {
      var before := steps[..|steps| - 1];
      assert before[..i] == steps[..i];
      StaysUnregistered(s0, before, i, o);
      ReachedInv(s0, before);
      UnregisteredForGood(Exec(s0, before).value.0, steps[|steps| - 1], o);
    }
  }

  /** Step i is the first section of the Start call, and it found object o. */
  ghost predicate FoundAt(s0: Sys, steps: seq<Step>, i: nat, id: nat, name: string, o: nat)
    requires InRange(s0)
  {
    && i < |steps| && steps[i] == StartBegin(id, name)
    && Before(s0, steps, i).Some?
    && FindToStart(Before(s0, steps, i).value.m, name) == Ok(o)
  }

  lemma CallAppears(s: Sys, step: Step, id: nat)
    requires InRange(s) && Enabled(s, step)
    requires id in Apply(s, step).0.calls && Apply(s, step).0.calls[id].Starting?
    ensures var c := Apply(s, step).0.calls[id];
            || (id in s.calls && s.calls[id] == c)
            || (step == StartBegin(id, c.name) && FindToStart(s.m, c.name) == Ok(c.obj))
  {
  }

  /** Exec, one step back. */
  lemma LastStep(s0: Sys, steps: seq<Step>) returns (t: Sys, step: Step)
    requires InRange(s0) && Exec(s0, steps).Some? && steps != []
    ensures step == steps[|steps| - 1] && Before(s0, steps, |steps| - 1) == Some(t)
    ensures InRange(t) && Enabled(t, step) && Exec(s0, steps).value.0 == Apply(t, step).0
  {
    t, step := Exec(s0, steps[..|steps| - 1]).value.0, steps[|steps| - 1];
  }

  lemma FoundInPrefix(s0: Sys, steps: seq<Step>, i: nat, id: nat, name: string, o: nat)
    requires InRange(s0) && steps != [] && FoundAt(s0, steps[..|steps| - 1], i, id, name, o)
    ensures FoundAt(s0, steps, i, id, name, o)
  {
    assert steps[..|steps| - 1][..i] == steps[..i];
  }

  lemma {:induction false} CallHasOrigin(s0: Sys, steps: seq<Step>, id: nat, c: Call)
    requires Initial(s0) && InRange(s0) && Exec(s0, steps).Some? && c.Starting?
    requires id in Exec(s0, steps).value.0.calls && Exec(s0, steps).value.0.calls[id] == c
    ensures exists i: nat :: FoundAt(s0, steps, i, id, c.name, c.obj)
    decreases |steps|
  {
    assert steps != [];
    var before := steps[..|steps| - 1];
    var t, step := LastStep(s0, steps);
    CallAppears(t, step, id);
    if id in t.calls && t.calls[id] == c {
      CallHasOrigin(s0, before, id, c);
      var i: nat :| FoundAt(s0, before, i, id, c.name, c.obj);
      FoundInPrefix(s0, steps, i, id, c.name, c.obj);
    } else {
      assert FoundAt(s0, steps, |steps| - 1, id, c.name, c.obj);
    }
  }

  lemma ObjectsGrow(s: Sys, step: Step)
    requires InRange(s) && Enabled(s, step)
    ensures |s.m.objects| <= |Apply(s, step).0.m.objects|
  {
  }

  /** Objects are never forgotten. */
  lemma {:induction false} ObjectsStay(s0: Sys, steps: seq<Step>, i: nat)
    requires Initial(s0) && InRange(s0) && Exec(s0, steps).Some? && i <= |steps|
    ensures Before(s0, steps, i).Some?
    ensures |Before(s0, steps, i).value.m.objects| <= |Exec(s0, steps).value.0.m.objects|
    decreases |steps|
  {
    if i == |steps| {
      assert steps[..i] == steps;
    } else {
      var t, step := LastStep(s0, steps);
      assert steps[..|steps| - 1][..i] == steps[..i];
      ObjectsStay(s0, steps[..|steps| - 1], i);
      ObjectsGrow(t, step);
    }
  }

  /** An object that was found and is registered at the end was registered all the while. */
  lemma RegisteredSince(s0: Sys, steps: seq<Step>, i: nat, j: nat, o: nat)
    requires Initial(s0) && InRange(s0) && Exec(s0, steps).Some? && i <= j <= |steps|
    requires Before(s0, steps, i).Some? && o < |Before(s0, steps, i).value.m.objects|
    requires IsRegistered(Exec(s0, steps).value.0.m, o)
    ensures Before(s0, steps, j).Some? && IsRegistered(Before(s0, steps, j).value.m, o)
  {
    PrefixRuns(s0, steps, j);
    assert steps[..j][..i] == steps[..i];
    ObjectsStay(s0, steps[..j], i);
    if !IsRegistered(Before(s0, steps, j).value.m, o) { StaysUnregistered(s0, steps, j, o); }
  }

  /** Object o has been registered since the Start call found it. */
  ghost predicate RegisteredSinceFound(s0: Sys, steps: seq<Step>, id: nat, name: string, o: nat)
    requires InRange(s0)
  {
    exists i: nat :: FoundAt(s0, steps, i, id, name, o)
      && forall j :: i <= j <= |steps| ==> Before(s0, steps, j).Some? && IsRegistered(Before(s0, steps, j).value.m, o)
  }

  lemma FoundIsRegistered(s0: Sys, steps: seq<Step>, id: nat, c: Call)
    requires Initial(s0) && InRange(s0) && Exec(s0, steps).Some? && c.Starting?
    requires id in Exec(s0, steps).value.0.calls && Exec(s0, steps).value.0.calls[id] == c
    requires IsRegistered(Exec(s0, steps).value.0.m, c.obj)
    ensures RegisteredSinceFound(s0, steps, id, c.name, c.obj)
  {
    CallHasOrigin(s0, steps, id, c);
    var i: nat :| FoundAt(s0, steps, i, id, c.name, c.obj);
    forall j | i <= j <= |steps|
      ensures Before(s0, steps, j).Some? && IsRegistered(Before(s0, steps, j).value.m, c.obj)
    {
      RegisteredSince(s0, steps, i, j, c.obj);
    }
  }

  /** A successful Start runs the very object its first section found, and that object
      has been registered all the while: had it been removed meanwhile, a new container of
      the same name would not be mistaken for it. */
  lemma StartRunsWhatItFound(s0: Sys, steps: seq<Step>, s: Sys, id: nat, pid: nat, net: Network, made: bool)
    requires Reaches(s0, steps, s) && Enabled(s, StartEnd(id, pid, net, made))
    requires Apply(s, StartEnd(id, pid, net, made)).1.Started?
    ensures var t := Apply(s, StartEnd(id, pid, net, made)).0;
            |t.runs| == |s.runs| + 1 && t.runs[|s.runs|].pid == pid && ReapsFor(t, |s.runs|, s.calls[id].obj)
    ensures RegisteredSinceFound(s0, steps, id, s.calls[id].name, s.calls[id].obj)
  {
    ReachedInv(s0, steps);
    assert CallOk(s, s.calls[id]);
    FoundIsRegistered(s0, steps, id, s.calls[id]);
  }
}
