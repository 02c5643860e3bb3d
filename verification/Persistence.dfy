/** Persistent container configurations under crashes (cmd/aetheria-agent/container.go:
    151-249, with Create and Remove, lines 302-371 and 536-560). Every file operation is
    one step, and a crash with reload may come between any two. */
module Persistence {
  import opened Manager
  import opened Options

  // ---------- State ----------

  /** What a file holds: part of a JSON document, or all of it. The document's name field
      is the directory name, which reload treats as authoritative. */
  datatype Content = Torn | Full(cfg: Config)

  /** <containersDir>/<name>: config.json, config.json.tmp and rootfs. */
  datatype Dir = Dir(config: Option<Content>, temp: Option<Content>, rootfs: bool)

  const EMPTY_DIR := Dir(None, None, false)

  /** A registered container; `standard` says that its rootfs is <containersDir>/<name>/rootfs. */
  datatype Entry = Entry(cfg: Config, standard: bool)

  /** A Create call between its sections; `checked` once the root file system was seen to
      exist, with whether it is the standard one. */
  datatype Pending = Pending(name: string, checked: Option<bool>)

  /** saveConfig in progress, with the manager's lock held. */
  datatype Phase = NoDir | DirMade | TempTorn | TempFull
  datatype Saving = Saving(name: string, phase: Phase)

  datatype Sys = Sys(
    mem: map<string, Entry>,
    disk: map<string, Dir>,
    creates: map<nat, Pending>,
    removes: map<nat, string>,     // Remove calls past their critical section
    starts: map<nat, string>,      // Start calls between their sections
    saving: Option<Saving>,
    unsaved: set<string>,          // history: registered, but saveConfig failed
    leftover: set<string>)         // history: config.json has outlived its registration

  datatype Step =
    | CreateBegin(id: nat, name: string)
    | PrepareRootfs(id: nat)
    | CheckRootfs(id: nat, standard: bool)
    | CreateFail(id: nat)
    | CreateEnd(id: nat, cfg: Config)
    | SaveNext
    | SaveFail
    | RemoveBegin(id: nat, name: string)
    | RemoveFile(id: nat, file: File)
    | RemoveEnd(id: nat)
    | RemoveFail(id: nat)
    | StartBegin(id: nat, name: string)
    | StartPrepare(id: nat)        // puts the root file system of an image back, without the lock
    | StartRun(id: nat)            // the second section, which makes directories in it
    | StartFail(id: nat)
    | Crash

  datatype File = ConfigFile | TempFile | RootfsDir

  function DirOf(s: Sys, name: string): Dir {
    if name in s.disk then s.disk[name] else EMPTY_DIR
  }

  function WithDir(s: Sys, name: string, d: Dir): Sys {
    s.(disk := s.disk[name := d])
  }

  /** os.MkdirAll of <containersDir>/<name>/rootfs. */
  function WithRootfs(s: Sys, name: string): Sys {
    WithDir(s, name, DirOf(s, name).(rootfs := true))
  }

  // ---------- Steps ----------

  predicate LockFree(s: Sys) { s.saving == None }

  predicate Enabled(s: Sys, step: Step) {
    match step
    case CreateBegin(id, name) => LockFree(s) && id !in s.creates && name !in s.mem
    case PrepareRootfs(id) => id in s.creates && s.creates[id].checked == None
    case CheckRootfs(id, standard) =>
      id in s.creates && s.creates[id].checked == None && (standard ==> DirOf(s, s.creates[id].name).rootfs)
    case CreateFail(id) => id in s.creates
    case CreateEnd(id, _) =>
      LockFree(s) && id in s.creates && s.creates[id].checked.Some? && s.creates[id].name !in s.mem
    case SaveNext => s.saving.Some? && (s.saving.value.phase == NoDir || s.saving.value.name in s.disk)
                       && (s.saving.value.phase == TempFull ==> DirOf(s, s.saving.value.name).temp.Some?)
    case SaveFail => s.saving.Some? && s.saving.value.phase != NoDir
    case RemoveBegin(id, name) => LockFree(s) && id !in s.removes && name in s.mem
    case RemoveFile(id, _) => id in s.removes && s.removes[id] in s.disk
    case RemoveEnd(id) => id in s.removes && DirOf(s, s.removes[id]) == EMPTY_DIR
    case RemoveFail(id) => id in s.removes
    case StartBegin(id, name) => LockFree(s) && id !in s.starts && name in s.mem
    case StartPrepare(id) => id in s.starts
    case StartRun(id) => LockFree(s) && id in s.starts && s.starts[id] in s.mem
    case StartFail(id) => id in s.starts
    case Crash => true
  }

  /** One more operation of saveConfig: make the directory, open the temporary file,
      finish writing it, rename it. */
  function ApplySave(s: Sys): Sys
    requires Enabled(s, SaveNext) && s.saving.value.name in s.mem
  {
    var name := s.saving.value.name;
    var d, cfg := DirOf(s, name), s.mem[name].cfg;
    match s.saving.value.phase
    case NoDir => WithDir(s, name, d).(saving := Some(Saving(name, DirMade)))
    case DirMade => WithDir(s, name, d.(temp := Some(Torn))).(saving := Some(Saving(name, TempTorn)))
    case TempTorn =>
      // a file that has been removed meanwhile is written to the end without being there
      WithDir(s, name, d.(temp := if d.temp.Some? then Some(Full(cfg)) else None))
        .(saving := Some(Saving(name, TempFull)))
    case TempFull =>
      WithDir(s, name, d.(config := d.temp, temp := None))
        .(saving := None, leftover := s.leftover - {name})
  }

  /** loadConfigs. */
  function Reload(disk: map<string, Dir>): map<string, Entry> {
    map n | n in disk && disk[n].rootfs && disk[n].config.Some? && disk[n].config.value.Full?
      :: Entry(disk[n].config.value.cfg, true)
  }

  function Without(d: Dir, file: File): Dir {
    match file
    case ConfigFile => d.(config := None)
    case TempFile => d.(temp := None)
    case RootfsDir => d.(rootfs := false)
  }

  /** saveConfig runs for a registered container: Remove waits for the lock. */
  predicate SavesRegistered(s: Sys) {
    s.saving.Some? ==> s.saving.value.name in s.mem
  }

  function Apply(s: Sys, step: Step): Sys
    requires Enabled(s, step) && SavesRegistered(s)
  {
    match step
    case CreateBegin(id, name) => s.(creates := s.creates[id := Pending(name, None)])
    case PrepareRootfs(id) =>
      WithRootfs(s, s.creates[id].name)
    case CheckRootfs(id, standard) => s.(creates := s.creates[id := s.creates[id].(checked := Some(standard))])
    case CreateFail(id) => s.(creates := s.creates - {id})
    case CreateEnd(id, cfg) =>
      var p := s.creates[id];
      s.(creates := s.creates - {id}, mem := s.mem[p.name := Entry(cfg, p.checked.value)],
         saving := Some(Saving(p.name, NoDir)), unsaved := s.unsaved - {p.name})
    case SaveNext => ApplySave(s)
    case SaveFail =>
      var n := s.saving.value.name;
      var t := s.(saving := None, unsaved := s.unsaved + {n});
      if n in s.disk && s.saving.value.phase == TempFull then WithDir(t, n, s.disk[n].(temp := None)) else t
    case RemoveBegin(id, name) =>
      s.(mem := s.mem - {name}, removes := s.removes[id := name], unsaved := s.unsaved - {name})
    case RemoveFile(id, file) =>
      var n := s.removes[id];
      WithDir(s, n, Without(s.disk[n], file))
        .(leftover := if file == ConfigFile then s.leftover - {n} else s.leftover)
    case RemoveEnd(id) =>
      s.(removes := s.removes - {id}, disk := s.disk - {s.removes[id]}, leftover := s.leftover - {s.removes[id]})
    case RemoveFail(id) =>
      var n := s.removes[id];
      s.(removes := s.removes - {id},
         leftover := if DirOf(s, n).config.Some? then s.leftover + {n} else s.leftover - {n})
    case StartBegin(id, name) => s.(starts := s.starts[id := name])
    case StartPrepare(id) => WithRootfs(s, s.starts[id])
    case StartRun(id) =>
      var t := s.(starts := s.starts - {id});
      if s.mem[s.starts[id]].standard then WithRootfs(t, s.starts[id]) else t
    case StartFail(id) => s.(starts := s.starts - {id})
    case Crash => Started(s.disk)
  }

  /** The agent after loadConfigs. */
  function Started(disk: map<string, Dir>): Sys {
    var mem := Reload(disk);
    Sys(mem, disk, map[], map[], map[], None, {}, set n | n in disk && disk[n].config.Some? && n !in mem)
  }

  function Removing(s: Sys): set<string> {
    set id | id in s.removes :: s.removes[id]
  }

  /** Containers whose root file system is not the standard one; reload skips them. */
  function Elsewhere(s: Sys): set<string> {
    set n | n in s.mem && !s.mem[n].standard
  }

  /** No Create of a name overlaps an unfinished Remove of it. */
  predicate NoOverlap(s: Sys, step: Step) {
    match step
    case CreateBegin(_, name) => name !in Removing(s)
    case RemoveBegin(_, name) => forall id :: id in s.creates ==> s.creates[id].name != name
    case _ => true
  }

  // ---------- Invariants ----------

  /** Holds in all runs. */
  ghost predicate Whole(s: Sys) {
    && SavesRegistered(s)
    && (forall n :: n in s.disk ==> s.disk[n].config != Some(Torn))
    && (s.saving.Some? && s.saving.value.phase == TempFull ==>
          && var n := s.saving.value.name;
             n in s.mem && DirOf(s, n).temp in {None, Some(Full(s.mem[n].cfg))})
  }

  predicate IsSaving(s: Sys, n: string) {
    s.saving.Some? && s.saving.value.name == n
  }

  ghost predicate NameOk(s: Sys, n: string) {
    var d := DirOf(s, n);
    && (n in s.mem ==> n !in Removing(s))
    && (n in s.mem && s.mem[n].standard ==> d.rootfs)
    && (n in s.mem && n !in s.unsaved && !IsSaving(s, n) ==> d.config == Some(Full(s.mem[n].cfg)))
    && (n !in s.mem && n !in Removing(s) ==> (n in s.leftover <==> d.config.Some?))
    && (d.config.Some? && n in s.mem && n !in s.leftover ==> d.config == Some(Full(s.mem[n].cfg)))
    && (IsSaving(s, n) ==> n in s.mem && n !in s.unsaved)
    && (IsSaving(s, n) && s.saving.value.phase == TempTorn ==> d.temp.Some?)
    && (IsSaving(s, n) && s.saving.value.phase == TempFull ==> d.temp == Some(Full(s.mem[n].cfg)))
  }

  ghost predicate CreateOk(s: Sys, p: Pending) {
    && p.name !in Removing(s)
    && (p.checked == Some(true) ==> DirOf(s, p.name).rootfs)
  }

  /** Holds in runs without overlap. */
  ghost predicate Inv(s: Sys) {
    NamesOk(s) && CreatesOk(s) && RemovesDistinct(s)
  }

  lemma StepKeepsWhole(s: Sys, step: Step)
    requires Whole(s) && Enabled(s, step)
    ensures Whole(Apply(s, step))
  {
  }

  ghost predicate NamesOk(s: Sys) {
    forall n :: NameOk(s, n)
  }

  ghost predicate CreatesOk(s: Sys) {
    forall id :: id in s.creates ==> CreateOk(s, s.creates[id])
  }

  ghost predicate RemovesDistinct(s: Sys) {
    forall i, j :: i in s.removes && j in s.removes && s.removes[i] == s.removes[j] ==> i == j
  }

  lemma RemovingWithout(s: Sys, t: Sys, id: nat)
    requires RemovesDistinct(s) && id in s.removes && t.removes == s.removes - {id}
    ensures Removing(t) == Removing(s) - {s.removes[id]}
  {
    forall n | n in Removing(s) && n != s.removes[id] ensures n in Removing(t) {
      var j :| j in s.removes && s.removes[j] == n;
      assert j in t.removes;
    }
  }

  lemma RemovingWith(s: Sys, t: Sys, id: nat, name: string)
    requires id !in s.removes && t.removes == s.removes[id := name]
    ensures Removing(t) == Removing(s) + {name}
  {
    forall n | n in Removing(s) ensures n in Removing(t) {
      var j :| j in s.removes && s.removes[j] == n;
      assert t.removes[j] == n;
    }
    assert t.removes[id] == name;
  }

  lemma SaveKeepsNames(s: Sys)
    requires Whole(s) && NamesOk(s) && Enabled(s, SaveNext)
    ensures NamesOk(ApplySave(s))
  {
    var t := ApplySave(s);
    assert Removing(t) == Removing(s);
    forall n ensures NameOk(t, n) { assert NameOk(s, n); }
  }

  lemma SaveFailKeepsNames(s: Sys)
    requires Whole(s) && NamesOk(s) && Enabled(s, SaveFail)
    ensures NamesOk(Apply(s, SaveFail))
  {
    var t := Apply(s, SaveFail);
    assert Removing(t) == Removing(s);
    forall n ensures NameOk(t, n) { assert NameOk(s, n); }
  }

  lemma CreateKeepsNames(s: Sys, id: nat, cfg: Config)
    requires Whole(s) && Inv(s) && Enabled(s, CreateEnd(id, cfg))
    ensures NamesOk(Apply(s, CreateEnd(id, cfg)))
  {
    var t := Apply(s, CreateEnd(id, cfg));
    assert Removing(t) == Removing(s);
    assert CreateOk(s, s.creates[id]);
    forall n ensures NameOk(t, n) { assert NameOk(s, n); }
  }

  /** Steps that note a call, or make a root file system. */
  predicate OnlyPrepares(step: Step) {
    step.CreateBegin? || step.PrepareRootfs? || step.CheckRootfs? || step.CreateFail?
    || step.StartBegin? || step.StartPrepare? || step.StartRun? || step.StartFail?
  }

  /** Root file systems come to be there; nothing else on disk changes. */
  ghost predicate RootfsAdded(s: Sys, t: Sys) {
    && t == s.(disk := t.disk, creates := t.creates, starts := t.starts)
    && forall n :: DirOf(t, n) == DirOf(s, n) || DirOf(t, n) == DirOf(s, n).(rootfs := true)
  }

  lemma PreparesAdds(s: Sys, step: Step)
    requires Enabled(s, step) && SavesRegistered(s) && OnlyPrepares(step)
    ensures RootfsAdded(s, Apply(s, step))
  {
  }

  lemma RootfsKeepsNames(s: Sys, t: Sys)
    requires NamesOk(s) && RootfsAdded(s, t)
    ensures NamesOk(t)
  {
    assert Removing(t) == Removing(s);
    forall n ensures NameOk(t, n) { assert NameOk(s, n); }
  }

  lemma RemoveKeepsNames(s: Sys, step: Step)
    requires Whole(s) && Inv(s) && Enabled(s, step)
    requires step.RemoveBegin? || step.RemoveFile? || step.RemoveEnd? || step.RemoveFail?
    ensures NamesOk(Apply(s, step))
  {
    var t := Apply(s, step);
    match step {
      case RemoveBegin(id, name) => RemovingWith(s, t, id, name);
      case RemoveEnd(id) => RemovingWithout(s, t, id);
      case RemoveFail(id) => RemovingWithout(s, t, id);
      case RemoveFile(_, _) => assert Removing(t) == Removing(s);
    }
    forall n ensures NameOk(t, n) { assert NameOk(s, n); }
  }

  lemma CrashKeepsNames(s: Sys)
    requires Whole(s) && Inv(s)
    ensures NamesOk(Apply(s, Crash))
  {
    forall n ensures NameOk(Apply(s, Crash), n) { assert NameOk(s, n); }
  }

  lemma StepKeepsNames(s: Sys, step: Step)
    requires Whole(s) && Inv(s) && Enabled(s, step)
    ensures NamesOk(Apply(s, step))
  {
    if OnlyPrepares(step) {
      PreparesAdds(s, step);
      RootfsKeepsNames(s, Apply(s, step));
    } else {
      match step
      case SaveNext => SaveKeepsNames(s);
      case SaveFail => SaveFailKeepsNames(s);
      case CreateEnd(id, cfg) => CreateKeepsNames(s, id, cfg);
      case RemoveBegin(_, _) => RemoveKeepsNames(s, step);
      case RemoveFile(_, _) => RemoveKeepsNames(s, step);
      case RemoveEnd(_) => RemoveKeepsNames(s, step);
      case RemoveFail(_) => RemoveKeepsNames(s, step);
      case Crash => CrashKeepsNames(s);
    }
  }

  predicate Removes(step: Step) {
    step.RemoveBegin? || step.RemoveFile? || step.RemoveEnd? || step.RemoveFail?
  }

  lemma RemoveKeepsCreates(s: Sys, step: Step)
    requires Whole(s) && Inv(s) && Enabled(s, step) && NoOverlap(s, step) && Removes(step)
    ensures CreatesOk(Apply(s, step)) && RemovesDistinct(Apply(s, step))
  {
    var t := Apply(s, step);
    match step {
      case RemoveBegin(id, name) => RemovingWith(s, t, id, name); assert NameOk(s, name);
      case RemoveEnd(id) => RemovingWithout(s, t, id);
      case RemoveFail(id) => RemovingWithout(s, t, id);
      case RemoveFile(_, _) =>
    }
    forall id | id in t.creates ensures CreateOk(t, t.creates[id]) { assert CreateOk(s, s.creates[id]); }
  }

  lemma PreparesKeepCreates(s: Sys, step: Step)
    requires Whole(s) && CreatesOk(s) && Enabled(s, step) && NoOverlap(s, step) && OnlyPrepares(step)
    ensures CreatesOk(Apply(s, step))
  {
    var t := Apply(s, step);
    assert Removing(t) == Removing(s);
    forall id | id in t.creates ensures CreateOk(t, t.creates[id]) {
      if id in s.creates { assert CreateOk(s, s.creates[id]); }
    }
  }

  lemma StepKeepsCreates(s: Sys, step: Step)
    requires Whole(s) && Inv(s) && Enabled(s, step) && NoOverlap(s, step)
    ensures CreatesOk(Apply(s, step)) && RemovesDistinct(Apply(s, step))
  {
    if Removes(step) { RemoveKeepsCreates(s, step); }
    else if OnlyPrepares(step) { PreparesKeepCreates(s, step); }
    else {
      var t := Apply(s, step);
      forall id | id in t.creates ensures CreateOk(t, t.creates[id]) { assert CreateOk(s, s.creates[id]); }
    }
  }

  // ---------- Runs ----------

  /** The agent has started on some disk whose configurations are whole. */
  ghost predicate Initial(s: Sys) {
    && (forall n :: n in s.disk ==> s.disk[n].config != Some(Torn))
    && s == Started(s.disk)
  }

  /** The state after a sequence of steps; None if one of them is not possible. */
  ghost function Exec(s: Sys, steps: seq<Step>): Option<Sys> {
    if steps == [] then Some(s)
    else
      match Exec(s, steps[..|steps| - 1])
      case None => None
      case Some(t) =>
        if SavesRegistered(t) && Enabled(t, steps[|steps| - 1]) then Some(Apply(t, steps[|steps| - 1])) else None
  }

  ghost predicate WithoutOverlap(s: Sys, steps: seq<Step>) {
    forall i :: 0 <= i < |steps| && Exec(s, steps[..i]).Some? ==> NoOverlap(Exec(s, steps[..i]).value, steps[i])
  }

  /** In every run, config.json is absent or complete at every moment. (And a run is only
      ever stopped by a step that is not possible.) */
  lemma {:induction false} ConfigsAreWhole(s0: Sys, steps: seq<Step>)
    requires Initial(s0) && Exec(s0, steps).Some?
    ensures Whole(Exec(s0, steps).value)
    ensures forall step :: Exec(s0, steps + [step]).Some? <==> Enabled(Exec(s0, steps).value, step)
    ensures forall n :: n in Exec(s0, steps).value.disk ==> Exec(s0, steps).value.disk[n].config != Some(Torn)
  {
    if steps != [] {
      ConfigsAreWhole(s0, steps[..|steps| - 1]);
      StepKeepsWhole(Exec(s0, steps[..|steps| - 1]).value, steps[|steps| - 1]);
    }
    forall step ensures Exec(s0, steps + [step]).Some? <==> Enabled(Exec(s0, steps).value, step) {
      assert (steps + [step])[..|steps|] == steps;
    }
  }

  lemma InitialInv(s: Sys)
    requires Initial(s)
    ensures Inv(s)
  {
    assert Removing(s) == {};
  }

  lemma {:induction false} ReachedInv(s0: Sys, steps: seq<Step>)
    requires Initial(s0) && Exec(s0, steps).Some? && WithoutOverlap(s0, steps)
    ensures Inv(Exec(s0, steps).value)
  {
    if steps == [] {
      InitialInv(s0);
    } else {
      var before, step := steps[..|steps| - 1], steps[|steps| - 1];
      forall i | 0 <= i < |before| && Exec(s0, before[..i]).Some?
        ensures NoOverlap(Exec(s0, before[..i]).value, before[i])
      {
        assert before[..i] == steps[..i];
      }
      ReachedInv(s0, before);
      ConfigsAreWhole(s0, before);
      var t := Exec(s0, before).value;
      assert NoOverlap(t, step);
      StepKeepsNames(t, step);
      StepKeepsCreates(t, step);
    }
  }

  /** Whenever the machine goes down, reload brings back, with its whole configuration,
      every registered container that has the standard root file system and has been
      saved... */
  lemma ReloadRestores(s0: Sys, steps: seq<Step>, s: Sys, n: string)
    requires Initial(s0) && Exec(s0, steps) == Some(s) && WithoutOverlap(s0, steps)
    requires n in s.mem && s.mem[n].standard && n !in s.unsaved && !IsSaving(s, n)
    ensures n in Reload(s.disk) && Reload(s.disk)[n] == s.mem[n]
  {
    ReachedInv(s0, steps);
    assert NameOk(s, n);
  }

  /** ... and nothing but registered containers, ones being removed, and exactly those names
      whose configuration was left behind and whose root file system is there. */
  lemma ReloadNothingElse(s0: Sys, steps: seq<Step>, s: Sys, n: string)
    requires Initial(s0) && Exec(s0, steps) == Some(s) && WithoutOverlap(s0, steps)
    ensures n !in s.mem && n !in Removing(s) ==>
              (n in Reload(s.disk) <==> n in s.leftover && DirOf(s, n).rootfs)
    ensures n in s.mem && n !in s.leftover && n in Reload(s.disk) ==> Reload(s.disk)[n].cfg == s.mem[n].cfg
  {
    ReachedInv(s0, steps);
    ConfigsAreWhole(s0, steps);
    assert NameOk(s, n);
  }

  /** At rest, with nothing left behind and only standard root file systems, going down
      and coming up again changes nothing. */
  lemma RestartIsIdentity(s0: Sys, steps: seq<Step>, s: Sys)
    requires Initial(s0) && Exec(s0, steps) == Some(s) && WithoutOverlap(s0, steps)
    requires s.saving == None && s.removes == map[] && s.unsaved == {} && s.leftover == {} && Elsewhere(s) == {}
    ensures Reload(s.disk) == s.mem
  {
    forall n | n in s.mem ensures n in Reload(s.disk) && Reload(s.disk)[n] == s.mem[n] {
      assert n !in Elsewhere(s);
      ReloadRestores(s0, steps, s, n);
    }
    forall n | n in Reload(s.disk) ensures n in s.mem { ReloadNothingElse(s0, steps, s, n); }
  }

  // ---------- The code ----------

  datatype SaveResult = Saved | NotSaved | Interrupted

  class Store {
    var disk: map<string, Dir>

    constructor (disk: map<string, Dir>)
      ensures this.disk == disk
    {
      this.disk := disk;
    }

    function At(name: string): Dir
      reads this
    {
      if name in disk then disk[name] else EMPTY_DIR
    }

    /** saveConfig; it may be interrupted by a crash between any two file operations.
        However it ends, config.json is what it was or complete. */
    method SaveConfig(name: string, cfg: Config) returns (r: SaveResult)
      modifies this
      ensures At(name).config == if r == Saved then Some(Full(cfg)) else old(At(name)).config
      ensures r == Saved ==> At(name).temp == None
      ensures At(name).rootfs == old(At(name)).rootfs
      ensures forall n :: n != name ==> (n in disk <==> n in old(disk)) && (n in disk ==> disk[n] == old(disk)[n])
    {
      var d := At(name);
      if * { return Interrupted; }
      if * { disk := disk[name := d]; }                       // an error is ignored
      if * { return Interrupted; }
      if name !in disk { return NotSaved; }                   // the temporary file cannot be made
      if * { return NotSaved; }
      d := d.(temp := Some(Torn));
      disk := disk[name := d];
      if * { return Interrupted; }
      if * { return NotSaved; }                               // the write fails
      d := d.(temp := Some(Full(cfg)));
      disk := disk[name := d];
      if * { return Interrupted; }
      if * {                                                  // the rename fails
        disk := disk[name := d.(temp := None)];
        return NotSaved;
      }
      disk := disk[name := d.(config := d.temp, temp := None)];
      r := Saved;
    }

    /** loadConfigs. */
    method LoadConfigs() returns (containers: map<string, Entry>)
      ensures containers == Reload(disk)
    {
      containers := map[];
      var entries := disk.Keys;
      while entries != {}
        invariant entries <= disk.Keys
        invariant containers == map n | n in Reload(disk) && n !in entries :: Reload(disk)[n]
        decreases |entries|
      {
        var name :| name in entries;
        entries := entries - {name};
        var d := disk[name];
        if d.config == None { continue; }                     // not a persisted container
        if d.config == Some(Torn) { continue; }               // corrupt
        if !d.rootfs { continue; }
        containers := containers[name := Entry(d.config.value.cfg, true)];
      }
    }
  }
}
