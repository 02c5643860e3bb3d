/** When persistence fails: exactly which registered containers a restart can lose, and which
    unregistered names it can bring back (cmd/aetheria-agent/container.go:151-249, 302-371 and
    536-560). */
module ConfigLoss {
  import opened Manager
  import opened Options
  import opened Persistence

  // ---------- What can be lost ----------

  /** A registered container that a restart has to bring back. */
  predicate Owed(s: Sys, n: string) {
    n in s.mem && s.mem[n].standard && n !in s.unsaved && !IsSaving(s, n)
  }

  /** Going down now would lose it. */
  predicate Lost(s: Sys, n: string) {
    Owed(s, n) && n !in Reload(s.disk)
  }

  /** No new call for the name. */
  predicate Spares(step: Step, n: string) {
    match step
    case CreateBegin(_, m) => m != n
    case RemoveBegin(_, m) => m != n
    case StartBegin(_, m) => m != n
    case _ => true
  }

  predicate AllSpare(steps: seq<Step>, n: string) {
    forall i :: 0 <= i < |steps| ==> Spares(steps[i], n)
  }

  ghost predicate LostBy(s: Sys, steps: seq<Step>, t: Sys, n: string) {
    AllSpare(steps, n) && Exec(s, steps) == Some(t) && Lost(t, n)
  }

  /** Without a new Create, Start or Remove of n, some continuation loses it. */
  ghost predicate CanBeLost(s: Sys, n: string) {
    exists steps, t :: LostBy(s, steps, t, n)
  }

  ghost predicate BeingCreated(s: Sys, n: string) {
    exists id :: id in s.creates && s.creates[id].name == n
  }

  /** A Create or a Start of n may yet make its directory. */
  ghost predicate BeingPrepared(s: Sys, n: string) {
    || (exists id :: id in s.creates && s.creates[id] == Pending(n, None))
    || (exists id :: id in s.starts && s.starts[id] == n)
  }

  /** The files that the rest of saveConfig needs are there. */
  predicate SaveCanEnd(s: Sys, n: string)
    requires IsSaving(s, n)
  {
    match s.saving.value.phase
    case NoDir => true
    case DirMade => n in s.disk
    case _ => n in s.disk && s.disk[n].temp.Some?
  }

  /** A Remove of n is unfinished, or the root file system is gone and the configuration is
      yet to be saved, or n is lost already. */
  ghost predicate AtRisk(s: Sys, n: string) {
    if IsSaving(s, n) then
      || (SaveCanEnd(s, n) && (n in Removing(s) || !DirOf(s, n).rootfs))
      || (s.saving.value.phase == DirMade && n !in s.disk && BeingPrepared(s, n) && n in Removing(s))
    else Lost(s, n) || n in Removing(s)
  }

  // ---------- What is not at risk stays safe ----------

  ghost predicate Kept(s: Sys, n: string) {
    Owed(s, n) && n in Reload(s.disk) && n !in Removing(s)
  }

  ghost predicate Gone(s: Sys, n: string) {
    n !in s.mem && !BeingCreated(s, n)
  }

  predicate NotSaved(s: Sys, n: string) {
    n in s.mem && n in s.unsaved && !IsSaving(s, n)
  }

  predicate Waiting(s: Sys, n: string) {
    IsSaving(s, n) && n in s.mem && s.mem[n].standard && n !in s.unsaved
  }

  /** The save will end well, or not at all. */
  ghost predicate SavesWell(s: Sys, n: string) {
    Waiting(s, n) && n !in Removing(s) && DirOf(s, n).rootfs && SaveCanEnd(s, n)
  }

  /** The temporary file is gone: the save cannot succeed. */
  predicate SaveDoomed(s: Sys, n: string) {
    && Waiting(s, n) && DirOf(s, n).temp == None
    && (s.saving.value.phase == TempTorn || s.saving.value.phase == TempFull)
  }

  /** The directory is gone; if it comes back, it is whole and stays. */
  ghost predicate SaveStuck(s: Sys, n: string) {
    && Waiting(s, n) && s.saving.value.phase == DirMade && n !in s.disk
    && !(BeingPrepared(s, n) && n in Removing(s))
  }

  ghost predicate Safe(s: Sys, n: string) {
    Kept(s, n) || Gone(s, n) || NotSaved(s, n) || SavesWell(s, n) || SaveDoomed(s, n) || SaveStuck(s, n)
  }

  lemma SafeUnlessAtRisk(s: Sys, n: string)
    requires n in s.mem && s.mem[n].standard && n !in s.unsaved
    ensures AtRisk(s, n) || Safe(s, n)
    ensures Safe(s, n) ==> !Lost(s, n)
  {
  }

  lemma RemovesSpared(s: Sys, step: Step, n: string)
    requires Whole(s) && Enabled(s, step) && Spares(step, n)
    ensures n in Removing(Apply(s, step)) ==> n in Removing(s)
  {
    var t := Apply(s, step);
    if n in Removing(t) {
      var id :| id in t.removes && t.removes[id] == n;
      assert id in s.removes && s.removes[id] == n;
    }
  }

  lemma RemovingSpared(s: Sys, step: Step, n: string)
    requires Whole(s) && Enabled(s, step) && Spares(step, n)
    ensures n in Removing(Apply(s, step)) ==> n in Removing(s)
    ensures BeingCreated(Apply(s, step), n) ==> BeingCreated(s, n)
    ensures BeingPrepared(Apply(s, step), n) ==> BeingPrepared(s, n)
  {
    var t := Apply(s, step);
    RemovesSpared(s, step, n);
    PendingSpared(s, step, n);
    if id :| id in t.creates && t.creates[id].name == n { assert s.creates[id].name == n; }
    if id :| id in t.creates && t.creates[id] == Pending(n, None) { assert s.creates[id] == Pending(n, None); }
    if id :| id in t.starts && t.starts[id] == n { assert s.starts[id] == n; }
  }

  lemma PendingSpared(s: Sys, step: Step, n: string)
    requires Whole(s) && Enabled(s, step) && Spares(step, n)
    ensures forall id :: id in Apply(s, step).creates && Apply(s, step).creates[id].name == n ==>
              id in s.creates && s.creates[id].name == n
              && (Apply(s, step).creates[id].checked == None ==> s.creates[id].checked == None)
    ensures forall id :: id in Apply(s, step).starts && Apply(s, step).starts[id] == n ==>
              id in s.starts && s.starts[id] == n
  {
  }

  lemma RestartIsSafe(s: Sys, n: string)
    requires Whole(s)
    ensures Safe(Apply(s, Crash), n)
  {
  }

  lemma KeptStaysSafe(s: Sys, step: Step, n: string)
    requires Whole(s) && Enabled(s, step) && Spares(step, n) && Kept(s, n)
    ensures Safe(Apply(s, step), n)
  {
    RemovesSpared(s, step, n);
    if step == Crash { RestartIsSafe(s, n); }
    else if OnlyPrepares(step) { PreparesAdds(s, step); AddedStays(s, Apply(s, step), n); }
    else if step.RemoveFile? || step.RemoveEnd? { assert s.removes[step.id] in Removing(s); }
  }

  lemma AddedStays(s: Sys, t: Sys, n: string)
    requires Kept(s, n) && RootfsAdded(s, t)
    ensures Kept(t, n)
  {
    assert Removing(t) == Removing(s);
    assert DirOf(t, n).config == DirOf(s, n).config && DirOf(t, n).rootfs;
  }

  lemma UnsavedStaysSafe(s: Sys, step: Step, n: string)
    requires Whole(s) && Enabled(s, step) && Spares(step, n) && (Gone(s, n) || NotSaved(s, n))
    ensures Safe(Apply(s, step), n)
  {
    RemovingSpared(s, step, n);
    if step == Crash { RestartIsSafe(s, n); }
    else if step.CreateEnd? { assert s.creates[step.id].name == n ==> BeingCreated(s, n); }
  }

  lemma SavingStaysSafe(s: Sys, step: Step, n: string)
    requires Whole(s) && Enabled(s, step) && Spares(step, n)
    requires SavesWell(s, n) || SaveDoomed(s, n) || SaveStuck(s, n)
    ensures Safe(Apply(s, step), n)
  {
    if step == Crash { RestartIsSafe(s, n); }
    else if SavesWell(s, n) { SavesWellStays(s, step, n); }
    else if SaveDoomed(s, n) { SaveDoomedStays(s, step, n); }
    else { SaveStuckStays(s, step, n); }
  }

  lemma SavesWellStays(s: Sys, step: Step, n: string)
    requires Whole(s) && Enabled(s, step) && Spares(step, n) && step != Crash && SavesWell(s, n)
    ensures Safe(Apply(s, step), n)
  {
    RemovesSpared(s, step, n);
    if step.RemoveFile? || step.RemoveEnd? { assert s.removes[step.id] in Removing(s); }
  }

  lemma SaveDoomedStays(s: Sys, step: Step, n: string)
    requires Whole(s) && Enabled(s, step) && Spares(step, n) && step != Crash && SaveDoomed(s, n)
    ensures Safe(Apply(s, step), n)
  {
  }

  lemma SaveStuckStays(s: Sys, step: Step, n: string)
    requires Whole(s) && Enabled(s, step) && Spares(step, n) && step != Crash && SaveStuck(s, n)
    ensures Safe(Apply(s, step), n)
  {
    RemovingSpared(s, step, n);
    if step.PrepareRootfs? { assert s.creates[step.id].name == n ==> BeingPrepared(s, n); }
    else if step.StartPrepare? { assert s.starts[step.id] == n ==> BeingPrepared(s, n); }
  }

  lemma StepStaysSafe(s: Sys, step: Step, n: string)
    requires Whole(s) && Enabled(s, step) && Spares(step, n) && Safe(s, n)
    ensures Safe(Apply(s, step), n)
  {
    if Kept(s, n) { KeptStaysSafe(s, step, n); }
    else if Gone(s, n) || NotSaved(s, n) { UnsavedStaysSafe(s, step, n); }
    else { SavingStaysSafe(s, step, n); }
  }

  lemma {:induction false} StaysSafe(s: Sys, steps: seq<Step>, n: string)
    requires Whole(s) && Safe(s, n) && AllSpare(steps, n) && Exec(s, steps).Some?
    ensures Whole(Exec(s, steps).value) && Safe(Exec(s, steps).value, n)
  {
    if steps != [] {
      var before, step := steps[..|steps| - 1], steps[|steps| - 1];
      StaysSafe(s, before, n);
      StepStaysSafe(Exec(s, before).value, step, n);
      StepKeepsWhole(Exec(s, before).value, step);
    }
  }

  // ---------- What is at risk can be lost ----------

  lemma Extend(s0: Sys, steps: seq<Step>, s: Sys, step: Step) returns (t: Sys)
    requires Exec(s0, steps) == Some(s) && Whole(s) && Enabled(s, step)
    ensures Exec(s0, steps + [step]) == Some(t) && Whole(t) && t == Apply(s, step)
  {
    assert (steps + [step])[..|steps|] == steps;
    StepKeepsWhole(s, step);
    t := Apply(s, step);
  }

  /** saveConfig runs to its end. */
  lemma {:induction false} FinishSave(s0: Sys, steps: seq<Step>, s: Sys, n: string)
    returns (more: seq<Step>, t: Sys)
    requires Exec(s0, steps) == Some(s) && Whole(s) && IsSaving(s, n) && SaveCanEnd(s, n)
    ensures Exec(s0, more) == Some(t) && Whole(t)
    ensures steps <= more && forall i :: |steps| <= i < |more| ==> more[i] == SaveNext
    ensures t == s.(disk := t.disk, saving := None, leftover := s.leftover - {n})
    ensures n in s.mem && n in t.disk && t.disk[n].config == Some(Full(s.mem[n].cfg))
    ensures t.disk[n].rootfs == DirOf(s, n).rootfs
    decreases Left(s.saving.value.phase)
  {
    var u := Extend(s0, steps, s, SaveNext);
    if s.saving.value.phase == TempFull {
      more, t := steps + [SaveNext], u;
    } else {
      more, t := FinishSave(s0, steps + [SaveNext], u, n);
    }
  }

  function Left(p: Phase): nat {
    match p case NoDir => 3 case DirMade => 2 case TempTorn => 1 case TempFull => 0
  }

  /** An unfinished Remove deletes the configuration. */
  lemma RemoveLoses(s0: Sys, steps: seq<Step>, s: Sys, n: string)
    requires Exec(s0, steps) == Some(s) && Whole(s) && AllSpare(steps, n)
    requires Owed(s, n) && n in s.disk && n in Removing(s)
    ensures CanBeLost(s0, n)
  {
    var id :| id in s.removes && s.removes[id] == n;
    var t := Extend(s0, steps, s, RemoveFile(id, ConfigFile));
    assert LostBy(s0, steps + [RemoveFile(id, ConfigFile)], t, n);
  }

  lemma SaveLoses(s0: Sys, steps: seq<Step>, s: Sys, n: string)
    requires Exec(s0, steps) == Some(s) && Whole(s) && AllSpare(steps, n) && Waiting(s, n) && SaveCanEnd(s, n)
    requires n in Removing(s) || !DirOf(s, n).rootfs
    ensures CanBeLost(s0, n)
  {
    var more, t := FinishSave(s0, steps, s, n);
    assert Removing(t) == Removing(s);
    assert AllSpare(more, n) by {
      forall i | 0 <= i < |more| ensures Spares(more[i], n) {
        if i < |steps| { assert more[i] == steps[i]; }
      }
    }
    if n in Removing(s) { RemoveLoses(s0, more, t, n); } else { assert LostBy(s0, more, t, n); }
  }

  lemma Prepares(s: Sys, n: string) returns (step: Step)
    requires BeingPrepared(s, n)
    ensures Enabled(s, step) && Spares(step, n) && (SavesRegistered(s) ==> Apply(s, step) == WithRootfs(s, n))
  {
    if id :| id in s.creates && s.creates[id] == Pending(n, None) {
      step := PrepareRootfs(id);
    } else {
      var id :| id in s.starts && s.starts[id] == n;
      step := StartPrepare(id);
    }
  }

  lemma RiskIsReal(s: Sys, n: string)
    requires Whole(s) && n in s.mem && s.mem[n].standard && n !in s.unsaved && AtRisk(s, n)
    ensures CanBeLost(s, n)
  {
    assert Exec(s, []) == Some(s) && AllSpare([], n);
    if IsSaving(s, n) {
      if SaveCanEnd(s, n) {
        SaveLoses(s, [], s, n);
      } else {
        var step := Prepares(s, n);
        var t := Extend(s, [], s, step);
        assert Removing(t) == Removing(s);
        SaveLoses(s, [] + [step], t, n);
      }
    } else if Lost(s, n) {
      assert LostBy(s, [], s, n);
    } else {
      RemoveLoses(s, [], s, n);
    }
  }

  /** A registered container with the standard root file system whose configuration is saved,
      or being saved, can be lost if and only if it is at risk: in every state of every run,
      overlapping or not. */
  lemma CanBeLostIff(s0: Sys, steps: seq<Step>, s: Sys, n: string)
    requires Initial(s0) && Exec(s0, steps) == Some(s)
    requires n in s.mem && s.mem[n].standard && n !in s.unsaved
    ensures CanBeLost(s, n) <==> AtRisk(s, n)
  {
    ConfigsAreWhole(s0, steps);
    if AtRisk(s, n) {
      RiskIsReal(s, n);
    } else {
      SafeUnlessAtRisk(s, n);
      forall more, t ensures !LostBy(s, more, t, n) {
        if AllSpare(more, n) && Exec(s, more) == Some(t) {
          StaysSafe(s, more, n);
        }
      }
    }
  }

  /** In a run without overlap nothing is ever at risk. */
  lemma NothingAtRisk(s0: Sys, steps: seq<Step>, s: Sys, n: string)
    requires Initial(s0) && Exec(s0, steps) == Some(s) && WithoutOverlap(s0, steps)
    requires n in s.mem && s.mem[n].standard && n !in s.unsaved
    ensures !AtRisk(s, n) && !CanBeLost(s, n)
  {
    ReachedInv(s0, steps);
    assert NameOk(s, n);
    CanBeLostIff(s0, steps, s, n);
  }

  function OneContainer(n: string, cfg: Config): Sys {
    Sys(map[n := Entry(cfg, true)], map[n := Dir(Some(Full(cfg)), None, true)], map[], map[], map[], None, {}, {})
  }

  /** A Create that begins, and finds the root file system, while a Remove has yet to
      delete it. */
  lemma CreateUnderRemove(n: string, cfg: Config) returns (steps: seq<Step>, s: Sys)
    ensures Initial(OneContainer(n, cfg)) && Exec(OneContainer(n, cfg), steps) == Some(s) && Whole(s)
    ensures s == Sys(map[], OneContainer(n, cfg).disk, map[0 := Pending(n, Some(true))], map[0 := n], map[],
                     None, {}, {})
  {
    var s0 := OneContainer(n, cfg);
    assert Reload(s0.disk) == s0.mem;
    var s1 := Extend(s0, [], s0, RemoveBegin(0, n));
    var s2 := Extend(s0, [] + [RemoveBegin(0, n)], s1, CreateBegin(0, n));
    steps := [] + [RemoveBegin(0, n)] + [CreateBegin(0, n)];
    s := Extend(s0, steps, s2, CheckRootfs(0, true));
    steps := steps + [CheckRootfs(0, true)];
  }

  /** Then the Remove deletes it. */
  lemma RemoveUnderCreate(n: string, cfg: Config) returns (steps: seq<Step>, s: Sys)
    ensures Initial(OneContainer(n, cfg)) && Exec(OneContainer(n, cfg), steps) == Some(s) && Whole(s)
    ensures s == Sys(map[], map[], map[0 := Pending(n, Some(true))], map[], map[], None, {}, {})
  {
    var s0 := OneContainer(n, cfg);
    var s3;
    steps, s3 := CreateUnderRemove(n, cfg);
    var s4 := Extend(s0, steps, s3, RemoveFile(0, ConfigFile));
    steps := steps + [RemoveFile(0, ConfigFile)];
    var s5 := Extend(s0, steps, s4, RemoveFile(0, RootfsDir));
    steps := steps + [RemoveFile(0, RootfsDir)];
    assert s5.disk == map[n := EMPTY_DIR];
    s := Extend(s0, steps, s5, RemoveEnd(0));
    steps := steps + [RemoveEnd(0)];
  }

  /** With overlap it fails: the unfinished Remove deletes the root file system that the
      new Create has just checked. */
  lemma OverlapLosesContainer(n: string, cfg: Config)
    ensures exists s0, steps, s :: Initial(s0) && Exec(s0, steps) == Some(s) && Owed(s, n) && Lost(s, n)
  {
    var s0 := OneContainer(n, cfg);
    var steps, t := RemoveUnderCreate(n, cfg);
    var u := Extend(s0, steps, t, CreateEnd(0, cfg));
    steps := steps + [CreateEnd(0, cfg)];
    var more, v := FinishSave(s0, steps, u, n);
    assert Exec(s0, more) == Some(v) && Lost(v, n);
  }

  // ---------- What can come back ----------

  /** The name has a configuration on disk, but is neither registered nor being removed. */
  ghost predicate LeftBehind(s: Sys, n: string) {
    n !in s.mem && n !in Removing(s) && DirOf(s, n).config.Some?
  }

  lemma RemoveLeavesBehindIff(s: Sys, step: Step, n: string)
    requires Whole(s) && RemovesDistinct(s) && NameOk(s, n) && Enabled(s, step) && !LeftBehind(s, n)
    requires step.RemoveBegin? || step.RemoveEnd? || step.RemoveFail?
    ensures LeftBehind(Apply(s, step), n) <==>
            DirOf(s, n).config.Some? && step.RemoveFail? && s.removes[step.id] == n
  {
    var t := Apply(s, step);
    match step
    case RemoveBegin(id, m) => RemovingWith(s, t, id, m);
    case RemoveEnd(id) => RemovingWithout(s, t, id);
    case RemoveFail(id) => RemovingWithout(s, t, id);
  }

  lemma OthersLeaveNothingBehind(s: Sys, step: Step, n: string)
    requires Whole(s) && NameOk(s, n) && Enabled(s, step) && !LeftBehind(s, n)
    requires !step.RemoveBegin? && !step.RemoveEnd? && !step.RemoveFail? && !step.Crash?
    ensures !LeftBehind(Apply(s, step), n)
  {
    assert Removing(Apply(s, step)) == Removing(s);
  }

  /** A configuration is left behind exactly by a Remove that fails, and by a crash while the
      root file system is not in place: within a Remove, or for a container whose root file
      system is elsewhere. */
  lemma LeftBehindIff(s0: Sys, steps: seq<Step>, s: Sys, step: Step, n: string)
    requires Initial(s0) && Exec(s0, steps) == Some(s) && WithoutOverlap(s0, steps)
    requires Enabled(s, step) && SavesRegistered(s) && !LeftBehind(s, n)
    ensures LeftBehind(Apply(s, step), n) <==>
            DirOf(s, n).config.Some?
            && ((step.RemoveFail? && s.removes[step.id] == n) || (step == Crash && !DirOf(s, n).rootfs))
  {
    ReachedInv(s0, steps);
    ConfigsAreWhole(s0, steps);
    assert NameOk(s, n);
    match step
    case RemoveBegin(_, _) => RemoveLeavesBehindIff(s, step, n);
    case RemoveEnd(_) => RemoveLeavesBehindIff(s, step, n);
    case RemoveFail(_) => RemoveLeavesBehindIff(s, step, n);
    case Crash =>
    case _ => OthersLeaveNothingBehind(s, step, n);
  }

  /** The name is not registered at any time. */
  ghost predicate NeverRegistered(s: Sys, steps: seq<Step>, n: string) {
    forall i :: 0 <= i <= |steps| && Exec(s, steps[..i]).Some? ==> n !in Exec(s, steps[..i]).value.mem
  }

  /** Without its being registered, some continuation makes the name come back at the next
      restart. */
  ghost predicate CanComeBack(s: Sys, n: string) {
    exists steps, t :: ComesBackBy(s, steps, t, n)
  }

  ghost predicate ComesBackBy(s: Sys, steps: seq<Step>, t: Sys, n: string) {
    NeverRegistered(s, steps, n) && Exec(s, steps) == Some(t) && n in Reload(t.disk)
  }

  /** Only the save of a registered container makes its configuration. */
  lemma StepSavesNone(s: Sys, step: Step, n: string)
    requires SavesRegistered(s) && Enabled(s, step) && n !in s.mem && DirOf(s, n).config == None
    ensures DirOf(Apply(s, step), n).config == None
  {
  }

  lemma {:induction false} NoConfigStays(s: Sys, steps: seq<Step>, n: string)
    requires Whole(s) && DirOf(s, n).config == None && NeverRegistered(s, steps, n) && Exec(s, steps).Some?
    ensures Whole(Exec(s, steps).value) && DirOf(Exec(s, steps).value, n).config == None
  {
    if steps != [] {
      var before := steps[..|steps| - 1];
      forall i | 0 <= i <= |before| ensures before[..i] == steps[..i] {}
      NoConfigStays(s, before, n);
      StepKeepsWhole(Exec(s, before).value, steps[|steps| - 1]);
      assert before == steps[..|before|];
      StepSavesNone(Exec(s, before).value, steps[|steps| - 1], n);
    }
  }

  /** An unregistered name can come back if and only if its configuration is still on disk: a
      later Create that is cut off by a crash is enough to put the root file system back. */
  lemma CanComeBackIff(s0: Sys, steps: seq<Step>, s: Sys, n: string)
    requires Initial(s0) && Exec(s0, steps) == Some(s) && n !in s.mem
    ensures CanComeBack(s, n) <==> DirOf(s, n).config.Some?
  {
    ConfigsAreWhole(s0, steps);
    if DirOf(s, n).config == None {
      forall more, t ensures !ComesBackBy(s, more, t, n) {
        if NeverRegistered(s, more, n) && Exec(s, more) == Some(t) { NoConfigStays(s, more, n); }
      }
    } else if DirOf(s, n).rootfs {
      assert ComesBackBy(s, [], s, n);
    } else {
      CutOffCreate(s, n);
    }
  }

  lemma ExtendUnregistered(s0: Sys, steps: seq<Step>, s: Sys, step: Step, n: string) returns (t: Sys)
    requires Exec(s0, steps) == Some(s) && Whole(s) && Enabled(s, step)
    requires NeverRegistered(s0, steps, n) && n !in Apply(s, step).mem
    ensures Exec(s0, steps + [step]) == Some(t) && Whole(t) && t == Apply(s, step)
    ensures NeverRegistered(s0, steps + [step], n)
  {
    t := Extend(s0, steps, s, step);
    var all := steps + [step];
    forall i | 0 <= i <= |all| && Exec(s0, all[..i]).Some? ensures n !in Exec(s0, all[..i]).value.mem {
      if i <= |steps| { assert all[..i] == steps[..i]; } else { assert all[..i] == all; }
    }
  }

  /** A restart, and the first two steps of a Create. */
  function CreateAgain(s: Sys, n: string): Sys {
    var t := Started(s.disk);
    t.(creates := map[0 := Pending(n, None)], disk := t.disk[n := DirOf(t, n).(rootfs := true)])
  }

  lemma CreateAgainRuns(s: Sys, n: string) returns (steps: seq<Step>)
    requires Whole(s) && n !in s.mem && n !in Reload(s.disk)
    ensures Exec(s, steps) == Some(CreateAgain(s, n)) && NeverRegistered(s, steps, n)
  {
    assert NeverRegistered(s, [], n);
    var t := ExtendUnregistered(s, [], s, Crash, n);
    steps := [] + [Crash];
    var u := ExtendUnregistered(s, steps, t, CreateBegin(0, n), n);
    steps := steps + [CreateBegin(0, n)];
    var v := ExtendUnregistered(s, steps, u, PrepareRootfs(0), n);
    steps := steps + [PrepareRootfs(0)];
  }

  lemma CutOffCreate(s: Sys, n: string)
    requires Whole(s) && n !in s.mem && DirOf(s, n).config.Some? && !DirOf(s, n).rootfs
    ensures CanComeBack(s, n)
  {
    var steps := CreateAgainRuns(s, n);
    assert ComesBackBy(s, steps, CreateAgain(s, n), n);
  }

  lemma ExtendOrderly(s0: Sys, steps: seq<Step>, s: Sys, step: Step) returns (t: Sys)
    requires Exec(s0, steps) == Some(s) && Whole(s) && Enabled(s, step)
    requires WithoutOverlap(s0, steps) && NoOverlap(s, step)
    ensures Exec(s0, steps + [step]) == Some(t) && Whole(t) && t == Apply(s, step) && WithoutOverlap(s0, steps + [step])
  {
    t := Extend(s0, steps, s, step);
    var all := steps + [step];
    forall i | 0 <= i < |all| && Exec(s0, all[..i]).Some? ensures NoOverlap(Exec(s0, all[..i]).value, all[i]) {
      assert all[..i] == steps[..i];
      assert i == |steps| ==> steps[..i] == steps;
    }
  }

  /** A Remove that a crash cuts off when it has deleted the root file system. */
  lemma RemoveCutOff(n: string, cfg: Config) returns (steps: seq<Step>, s: Sys)
    ensures Exec(OneContainer(n, cfg), steps) == Some(s) && WithoutOverlap(OneContainer(n, cfg), steps) && Whole(s)
    ensures s == Started(map[n := Dir(Some(Full(cfg)), None, false)]) && s.mem == map[]
  {
    var s0 := OneContainer(n, cfg);
    assert Reload(s0.disk) == s0.mem;
    assert WithoutOverlap(s0, []);
    var s1 := ExtendOrderly(s0, [], s0, RemoveBegin(0, n));
    steps := [] + [RemoveBegin(0, n)];
    var s2 := ExtendOrderly(s0, steps, s1, RemoveFile(0, RootfsDir));
    steps := steps + [RemoveFile(0, RootfsDir)];
    s := ExtendOrderly(s0, steps, s2, Crash);
    steps := steps + [Crash];
    assert s.disk == map[n := Dir(Some(Full(cfg)), None, false)] && s.mem == map[];
  }

  /** It does happen, without any overlap: a Remove cut off by a crash, then a Create cut off
      before its second section, and the removed container is back with its old
      configuration. */
  lemma RemovedComesBack(n: string, cfg: Config)
    ensures exists steps, s ::
              Exec(OneContainer(n, cfg), steps) == Some(s) && WithoutOverlap(OneContainer(n, cfg), steps)
              && n !in s.mem && s.removes == map[] && n in Reload(s.disk) && Reload(s.disk)[n].cfg == cfg
  {
    var s0 := OneContainer(n, cfg);
    var steps, s := RemoveCutOff(n, cfg);
    var t := ExtendOrderly(s0, steps, s, CreateBegin(1, n));
    steps := steps + [CreateBegin(1, n)];
    var u := ExtendOrderly(s0, steps, t, PrepareRootfs(1));
    steps := steps + [PrepareRootfs(1)];
    assert n in Reload(u.disk);
  }
}
