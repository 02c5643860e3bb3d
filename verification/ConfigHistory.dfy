/** What happens to one container's configuration over a run: which steps change it, that a
    finished Create survives a crash, and that a finished Remove is for good
    (cmd/aetheria-agent/container.go:151-249, 302-371 and 536-560). */
module ConfigHistory {
  import opened Manager
  import opened Options
  import opened Persistence
  import opened ConfigLoss

  // ---------- What each step changes ----------

  /** Some call's step is one of container n. */
  predicate Prepared(s: Sys, step: Step, n: string) {
    || (step.PrepareRootfs? && step.id in s.creates && s.creates[step.id].name == n)
    || (step.StartPrepare? && step.id in s.starts && s.starts[step.id] == n)
    || (step.StartRun? && step.id in s.starts && s.starts[step.id] == n && n in s.mem && s.mem[n].standard)
  }

  predicate Deletes(s: Sys, step: Step, file: File, n: string) {
    step.RemoveFile? && step.file == file && step.id in s.removes && s.removes[step.id] == n
  }

  /** A configuration is replaced by the registered one when its save ends, deleted by a Remove
      of its own container, and touched by no other step of any call. */
  lemma ConfigChangesIff(s: Sys, step: Step, n: string)
    requires Whole(s) && Enabled(s, step)
    ensures DirOf(Apply(s, step), n).config ==
            if step == SaveNext && IsSaving(s, n) && s.saving.value.phase == TempFull then Some(Full(s.mem[n].cfg))
            else if Deletes(s, step, ConfigFile, n) then None
            else DirOf(s, n).config
  {
    if OnlyPrepares(step) { PreparesAdds(s, step); } else { WrittenConfig(s, step, n); }
  }

  lemma WrittenConfig(s: Sys, step: Step, n: string)
    requires Whole(s) && Enabled(s, step) && !OnlyPrepares(step)
    ensures DirOf(Apply(s, step), n).config ==
            if step == SaveNext && IsSaving(s, n) && s.saving.value.phase == TempFull then Some(Full(s.mem[n].cfg))
            else if Deletes(s, step, ConfigFile, n) then None
            else DirOf(s, n).config
  {
  }

  /** The step is one of the save of container n, in this phase. */
  predicate SavesAt(s: Sys, step: Step, n: string, phase: Phase) {
    step == SaveNext && s.saving == Some(Saving(n, phase))
  }

  /** A temporary file is written by the save of its container and gone when the save ends, unless
      the save could not write it to its end or a crash cuts it off; a Remove deletes it. */
  lemma TempChangesIff(s: Sys, step: Step, n: string)
    requires Whole(s) && Enabled(s, step)
    ensures DirOf(Apply(s, step), n).temp ==
            if SavesAt(s, step, n, DirMade) then Some(Torn)
            else if SavesAt(s, step, n, TempTorn) && DirOf(s, n).temp.Some? then Some(Full(s.mem[n].cfg))
            else if SavesAt(s, step, n, TempFull) || Deletes(s, step, TempFile, n)
                    || (step == SaveFail && s.saving == Some(Saving(n, TempFull))) then None
            else DirOf(s, n).temp
  {
    if OnlyPrepares(step) { PreparesAdds(s, step); } else { WrittenTemp(s, step, n); }
  }

  lemma WrittenTemp(s: Sys, step: Step, n: string)
    requires Whole(s) && Enabled(s, step) && !OnlyPrepares(step)
    ensures DirOf(Apply(s, step), n).temp ==
            if SavesAt(s, step, n, DirMade) then Some(Torn)
            else if SavesAt(s, step, n, TempTorn) && DirOf(s, n).temp.Some? then Some(Full(s.mem[n].cfg))
            else if SavesAt(s, step, n, TempFull) || Deletes(s, step, TempFile, n)
                    || (step == SaveFail && s.saving == Some(Saving(n, TempFull))) then None
            else DirOf(s, n).temp
  {
  }

  /** Create, Start and Remove calls are pending from their beginning to their end, or to a crash,
      whatever other calls do. */
  lemma CallsChangeIff(s: Sys, step: Step, id: nat)
    requires Whole(s) && Enabled(s, step)
    ensures id in Apply(s, step).creates <==>
            (step.CreateBegin? && step.id == id)
            || (id in s.creates && step != Crash && !((step.CreateFail? || step.CreateEnd?) && step.id == id))
    ensures id in Apply(s, step).starts <==>
            (step.StartBegin? && step.id == id)
            || (id in s.starts && step != Crash && !((step.StartFail? || step.StartRun?) && step.id == id))
    ensures id in Apply(s, step).removes <==>
            (step.RemoveBegin? && step.id == id)
            || (id in s.removes && step != Crash && !((step.RemoveFail? || step.RemoveEnd?) && step.id == id))
  {
    CreatesChange(s, step, id);
    StartsChange(s, step, id);
  }

  lemma CreatesChange(s: Sys, step: Step, id: nat)
    requires Whole(s) && Enabled(s, step)
    ensures id in Apply(s, step).creates <==>
            (step.CreateBegin? && step.id == id)
            || (id in s.creates && step != Crash && !((step.CreateFail? || step.CreateEnd?) && step.id == id))
  {
  }

  lemma StartsChange(s: Sys, step: Step, id: nat)
    requires Whole(s) && Enabled(s, step)
    ensures id in Apply(s, step).starts <==>
            (step.StartBegin? && step.id == id)
            || (id in s.starts && step != Crash && !((step.StartFail? || step.StartRun?) && step.id == id))
  {
  }

  /** A root file system is there once a Create or a Start of its container has prepared it, until
      a Remove of that container deletes it. */
  lemma RootfsChangesIff(s: Sys, step: Step, n: string)
    requires Whole(s) && Enabled(s, step)
    ensures DirOf(Apply(s, step), n).rootfs ==
            if Prepared(s, step, n) then true
            else if Deletes(s, step, RootfsDir, n) then false
            else DirOf(s, n).rootfs
  {
    if OnlyPrepares(step) { PreparedRootfs(s, step, n); } else { KeptRootfs(s, step, n); }
  }

  lemma PreparedRootfs(s: Sys, step: Step, n: string)
    requires Whole(s) && Enabled(s, step) && OnlyPrepares(step)
    ensures DirOf(Apply(s, step), n).rootfs == (Prepared(s, step, n) || DirOf(s, n).rootfs)
  {
  }

  lemma KeptRootfs(s: Sys, step: Step, n: string)
    requires Whole(s) && Enabled(s, step) && !OnlyPrepares(step)
    ensures DirOf(Apply(s, step), n).rootfs == (DirOf(s, n).rootfs && !Deletes(s, step, RootfsDir, n))
  {
  }

  /** A container is registered with the configuration it was created with until it is removed
      or the agent restarts. */
  lemma RegistrationChangesIff(s: Sys, step: Step, n: string)
    requires Whole(s) && Enabled(s, step) && step != Crash
    ensures var t := Apply(s, step);
            if step.CreateEnd? && s.creates[step.id].name == n then
              n in t.mem && t.mem[n] == Entry(step.cfg, s.creates[step.id].checked.value)
            else if step.RemoveBegin? && step.name == n then n !in t.mem
            else (n in t.mem <==> n in s.mem) && (n in s.mem ==> t.mem[n] == s.mem[n])
  {
  }

  /** In every state of every run a save can go on or fail, and a Create, once the lock is free if it
      needs it, can go on... */
  lemma CreatesGoOn(s: Sys, id: nat, name: string, cfg: Config)
    requires Whole(s)
    ensures Enabled(s, Crash) && (s.saving.Some? ==> Enabled(s, SaveNext) || Enabled(s, SaveFail))
    ensures s.saving == None && id !in s.creates && name !in s.mem ==> Enabled(s, CreateBegin(id, name))
    ensures id in s.creates && s.creates[id].checked == None ==>
              Enabled(s, PrepareRootfs(id)) && Enabled(s, CheckRootfs(id, false)) && Enabled(s, CreateFail(id))
              && (DirOf(s, s.creates[id].name).rootfs ==> Enabled(s, CheckRootfs(id, true)))
    ensures id in s.creates && s.creates[id].checked.Some? && s.saving == None ==>
              if s.creates[id].name in s.mem then Enabled(s, CreateFail(id)) else Enabled(s, CreateEnd(id, cfg))
  {
  }

  /** ... and so can a Remove and a Start. */
  lemma OthersGoOn(s: Sys, id: nat, name: string)
    requires Whole(s)
    ensures s.saving == None && name in s.mem ==>
              (id !in s.removes ==> Enabled(s, RemoveBegin(id, name)))
              && (id !in s.starts ==> Enabled(s, StartBegin(id, name)))
    ensures id in s.removes ==> Enabled(s, RemoveFail(id))
    ensures id in s.removes && s.removes[id] in s.disk ==>
              Enabled(s, RemoveFile(id, ConfigFile)) && Enabled(s, RemoveFile(id, TempFile))
              && Enabled(s, RemoveFile(id, RootfsDir))
    ensures id in s.removes && DirOf(s, s.removes[id]) == Dir(None, None, false) ==> Enabled(s, RemoveEnd(id))
    ensures id in s.starts ==> Enabled(s, StartPrepare(id)) && Enabled(s, StartFail(id))
    ensures id in s.starts && s.saving == None && s.starts[id] in s.mem ==> Enabled(s, StartRun(id))
  {
  }

  // ---------- A finished Create ----------

  /** Create's second section, its save, and a crash: in every run without overlap the container
      is back afterwards with the configuration it was created with. */
  lemma CreatedSurvives(s0: Sys, steps: seq<Step>, s: Sys, id: nat, cfg: Config) returns (more: seq<Step>, t: Sys)
    requires Initial(s0) && Exec(s0, steps) == Some(s) && WithoutOverlap(s0, steps)
    requires Enabled(s, CreateEnd(id, cfg)) && s.creates[id].checked == Some(true)
    ensures steps + [CreateEnd(id, cfg)] <= more
    ensures forall i :: |steps| < i < |more| ==> more[i] == SaveNext
    ensures Exec(s0, more + [Crash]) == Some(t) && s.creates[id].name in t.mem
    ensures t.mem[s.creates[id].name] == Entry(cfg, true)
  {
    var n := s.creates[id].name;
    ReachedInv(s0, steps);
    ConfigsAreWhole(s0, steps);
    assert CreateOk(s, s.creates[id]);
    var u := Extend(s0, steps, s, CreateEnd(id, cfg));
    var v;
    more, v := FinishSave(s0, steps + [CreateEnd(id, cfg)], u, n);
    t := Extend(s0, more, v, Crash);
  }

  // ---------- A finished Remove ----------

  /** RemoveAll of the container's directory, file by file. */
  function DeleteSteps(id: nat): seq<Step> {
    [RemoveFile(id, ConfigFile), RemoveFile(id, TempFile), RemoveFile(id, RootfsDir)]
  }

  lemma FilesGone(s0: Sys, steps: seq<Step>, s: Sys, id: nat) returns (t: Sys)
    requires Exec(s0, steps) == Some(s) && Whole(s) && id in s.removes && s.removes[id] in s.disk
    ensures Exec(s0, steps + DeleteSteps(id)) == Some(t) && Whole(t)
    ensures t == s.(disk := s.disk[s.removes[id] := EMPTY_DIR], leftover := s.leftover - {s.removes[id]})
  {
    var s1 := Extend(s0, steps, s, RemoveFile(id, ConfigFile));
    var all := steps + [RemoveFile(id, ConfigFile)];
    var s2 := Extend(s0, all, s1, RemoveFile(id, TempFile));
    all := all + [RemoveFile(id, TempFile)];
    t := Extend(s0, all, s2, RemoveFile(id, RootfsDir));
    assert all + [RemoveFile(id, RootfsDir)] == steps + DeleteSteps(id);
  }

  /** A Remove that runs to its end takes the container from the registry and from disk, changes
      no other, and without another Create the name never comes back. */
  lemma RemovedForGood(s0: Sys, steps: seq<Step>, s: Sys, id: nat, name: string) returns (t: Sys)
    requires Initial(s0) && Exec(s0, steps) == Some(s) && Enabled(s, RemoveBegin(id, name)) && name in s.disk
    ensures Exec(s0, steps + [RemoveBegin(id, name)] + DeleteSteps(id) + [RemoveEnd(id)]) == Some(t)
    ensures t.mem == s.mem - {name} && t.disk == s.disk - {name} && t.removes == s.removes
    ensures t.creates == s.creates && t.starts == s.starts
    ensures !CanComeBack(t, name)
  {
    ConfigsAreWhole(s0, steps);
    var begun := steps + [RemoveBegin(id, name)];
    var s1 := Extend(s0, steps, s, RemoveBegin(id, name));
    var s2 := FilesGone(s0, begun, s1, id);
    t := Extend(s0, begun + DeleteSteps(id), s2, RemoveEnd(id));
    assert t.removes == s.removes && t.disk == s.disk - {name};
    CanComeBackIff(s0, begun + DeleteSteps(id) + [RemoveEnd(id)], t, name);
  }
}
