/** The container manager (cmd/aetheria-agent/container.go:71-106 and 251-560): what each
    critical section does to the manager's state, as functions on values, and the class
    whose methods are those critical sections. */
module Manager {
  import opened Options

  datatype Result<T> = Ok(value: T) | Err(error: Error)

  datatype Error =
    | InvalidName | AlreadyExists | RootfsUnavailable | BadRestartPolicy
    | NotFound | AlreadyRunning | ModifiedDuringStart | LaunchFailed
    | NotRunning | StillRunning

  datatype PortMapping = PortMapping(hostPort: nat, containerPort: nat, protocol: string)
  datatype VolumeMount = VolumeMount(hostPath: string, containerPath: string, readOnly: bool)
  datatype Limits = Limits(memoryMax: int, cpuMax: real, pidsMax: int) {
    predicate IsEmpty() { memoryMax == 0 && cpuMax == 0.0 && pidsMax == 0 }
  }

  /** The part of a container that Create fixes. */
  datatype Config = Config(
    image: string, network: string, ports: seq<PortMapping>, resources: Limits,
    restart: string, env: seq<string>, volumes: seq<VolumeMount>)

  const NET_HOST := "host"
  const NET_BRIDGE := "bridge"

  datatype Status = Created | Running | Stopped

  /** One container object. `cmd` is the run (a process and its reaper) it belongs to. */
  datatype Record = Record(
    name: string, rootfs: string, config: Config,
    status: Status, pid: nat, cmd: Option<nat>, ip: string)

  /** All container objects ever made, and the registry: name to object. */
  datatype State = State(objects: seq<Record>, names: map<string, nat>)

  // ---------- Critical sections as functions ----------

  const MAX_NAME := 64

  predicate ValidName(name: string) {
    name != "" && |name| <= MAX_NAME && forall c :: c in name ==> c !in "/\\. \t\n"
  }

  /** Create, first section. */
  function CheckNew(m: State, name: string): Option<Error> {
    if !ValidName(name) then Some(InvalidName)
    else if name in m.names then Some(AlreadyExists)
    else None
  }

  /** The defaults Create fills in; None for an unknown restart policy. */
  function Normalize(cfg: Config): Option<Config> {
    var network := if cfg.network == "" then NET_BRIDGE else cfg.network;
    var restart := if cfg.restart == "" then "no" else cfg.restart;
    if restart != "no" && restart != "always" then None
    else Some(cfg.(network := network, restart := restart))
  }

  /** Create, second section. */
  function Insert(m: State, name: string, rootfs: string, cfg: Config): (State, Option<Error>) {
    if name in m.names then (m, Some(AlreadyExists))
    else match Normalize(cfg)
      case None => (m, Some(BadRestartPolicy))
      case Some(c) =>
        var r := Record(name, rootfs, c, Created, 0, None, "");
        (State(m.objects + [r], m.names[name := |m.objects|]), None)
  }

  /** What Create has to store of its parameters: a container that has not run, on the bridge
      unless another network is named, restarted only on request, and otherwise as asked. */
  predicate MadeFrom(r: Record, name: string, rootfs: string, cfg: Config) {
    && r == Record(name, rootfs, r.config, Created, 0, None, "")
    && r.config == cfg.(network := r.config.network, restart := r.config.restart)
    && (r.config.network == "bridge" <==> cfg.network in {"", "bridge"})
    && (cfg.network != "" ==> r.config.network == cfg.network)
    && r.config.restart in {"no", "always"} && (r.config.restart == "always" <==> cfg.restart == "always")
  }

  predicate Consistent(m: State) {
    forall n :: n in m.names ==> m.names[n] < |m.objects|
  }

  /** Start, first section: the object to start. */
  function FindToStart(m: State, name: string): Result<nat>
    requires Consistent(m)
  {
    if name !in m.names then Err(NotFound)
    else if m.objects[m.names[name]].status == Running then Err(AlreadyRunning)
    else Ok(m.names[name])
  }

  /** A process that came up: its pid, its run, and the address it got, if any. */
  datatype Launch = Launch(pid: nat, run: nat, ip: string)

  /** Start, second section, for the object found in the first; `launch` is None if the
      process could not be started. An address is stored only when one was obtained. */
  function Run(m: State, name: string, o: nat, launch: Option<Launch>): (State, Option<Error>)
    requires o < |m.objects|
  {
    if name !in m.names || m.names[name] != o then (m, Some(ModifiedDuringStart))
    else if m.objects[o].status == Running then (m, Some(AlreadyRunning))
    else match launch
      case None => (m, Some(LaunchFailed))
      case Some(l) =>
        var r := m.objects[o].(status := Running, pid := l.pid, cmd := Some(l.run),
                               ip := if l.ip != "" then l.ip else m.objects[o].ip);
        (m.(objects := m.objects[o := r]), None)
  }

  /** The reaper's section. */
  function Finish(m: State, o: nat): State
    requires o < |m.objects|
  {
    m.(objects := m.objects[o := m.objects[o].(status := Stopped, pid := 0, cmd := None, ip := "")])
  }

  /** Stop's section: the object and the pid to signal. */
  function FindToStop(m: State, name: string): Result<(nat, nat)>
    requires Consistent(m)
  {
    if name !in m.names then Err(NotFound)
    else
      var o := m.names[name];
      if m.objects[o].status != Running || m.objects[o].cmd == None then Err(NotRunning)
      else Ok((o, m.objects[o].pid))
  }

  /** The kill timer's section: does it go on to send SIGKILL? */
  function DecidesToKill(m: State, o: nat, pid: nat): bool
    requires o < |m.objects|
  {
    m.objects[o].status == Running && m.objects[o].pid == pid
  }

  /** Remove's section; the result is the root file system to unmount. */
  function Delete(m: State, name: string): (State, Result<string>)
    requires Consistent(m)
  {
    if name !in m.names then (m, Err(NotFound))
    else if m.objects[m.names[name]].status == Running then (m, Err(StillRunning))
    else (m.(names := m.names - {name}), Ok(m.objects[m.names[name]].rootfs))
  }

  // ---------- The class ----------

  class Container {
    ghost const id: nat
    const name: string
    const rootfs: string
    const config: Config
    var status: Status
    var pid: nat
    var cmd: Option<nat>
    var ip: string

    constructor (ghost id: nat, name: string, rootfs: string, config: Config)
      ensures this.id == id && View() == Record(name, rootfs, config, Created, 0, None, "")
    {
      this.id, this.name, this.rootfs, this.config := id, name, rootfs, config;
      status, pid, cmd, ip := Created, 0, None, "";
    }

    function View(): Record
      reads this
    {
      Record(name, rootfs, config, status, pid, cmd, ip)
    }
  }

  class ContainerManager {
    var containers: map<string, Container>
    ghost var objects: seq<Container>

    ghost predicate Valid()
      reads this
    {
      && (forall i :: 0 <= i < |objects| ==> objects[i].id == i)
      && (forall n :: n in containers ==> Known(containers[n]))
    }

    ghost predicate Known(c: Container)
      reads this
    {
      c.id < |objects| && objects[c.id] == c
    }

    ghost function View(): State
      reads this, objects
      requires Valid()
    {
      State(seq(|objects|, i requires 0 <= i < |objects| reads this, objects => objects[i].View()),
            map n | n in containers :: containers[n].id)
    }

    constructor ()
      ensures Valid() && View() == State([], map[])
    {
      containers, objects := map[], [];
    }

    method CreateCheck(name: string) returns (e: Option<Error>)
      requires Valid()
      ensures e == CheckNew(View(), name)
      ensures e == None <==> ValidName(name) && name !in containers
    {
      if !ValidName(name) { return Some(InvalidName); }
      if name in containers { return Some(AlreadyExists); }
      return None;
    }

    /** Makes a container object and enters it in the registry. */
    method Register(name: string, rootfs: string, cfg: Config)
      requires Valid()
      modifies this
      ensures Valid()
      ensures View().objects == old(View().objects) + [Record(name, rootfs, cfg, Created, 0, None, "")]
      ensures View().names == old(View().names)[name := |old(View().objects)|]
      ensures name in containers && fresh(containers[name]) && containers == old(containers)[name := containers[name]]
      ensures containers[name].View() == Record(name, rootfs, cfg, Created, 0, None, "")
    {
      ghost var before := View();
      var c := new Container(|objects|, name, rootfs, cfg);
      containers := containers[name := c];
      objects := objects + [c];
      assert View().objects == before.objects + [c.View()];
      assert View().names == before.names[name := |before.objects|];
    }

    method CreateInsert(name: string, rootfs: string, cfg: Config) returns (e: Option<Error>)
      requires Valid()
      modifies this
      ensures Valid() && (View(), e) == Insert(old(View()), name, rootfs, cfg)
      ensures e == Some(AlreadyExists) <==> name in old(containers)
      ensures e == Some(BadRestartPolicy) <==>
              name !in old(containers) && cfg.restart !in {"", "no", "always"}
      ensures e == None <==> name !in old(containers) && cfg.restart in {"", "no", "always"}
      ensures e == None ==> name in containers && fresh(containers[name])
                            && MadeFrom(containers[name].View(), name, rootfs, cfg)
                            && containers == old(containers)[name := containers[name]]
      ensures e != None ==> containers == old(containers)
    {
      if name in containers { return Some(AlreadyExists); }
      var network := if cfg.network == "" then NET_BRIDGE else cfg.network;
      var restart := if cfg.restart == "" then "no" else cfg.restart;
      if restart != "no" && restart != "always" { return Some(BadRestartPolicy); }
      Register(name, rootfs, cfg.(network := network, restart := restart));
      e := None;
    }

    method StartLookup(name: string) returns (c: Container?, e: Option<Error>)
      requires Valid()
      ensures match FindToStart(View(), name)
              case Ok(o) => e == None && c != null && Known(c) && c.id == o
              case Err(err) => e == Some(err)
      ensures e == Some(NotFound) <==> name !in containers
      ensures e == Some(AlreadyRunning) <==> name in containers && containers[name].status == Running
      ensures e == None <==> name in containers && containers[name].status != Running
      ensures e == None ==> c == containers[name]
    {
      if name !in containers { return null, Some(NotFound); }
      c := containers[name];
      if c.status == Running { return c, Some(AlreadyRunning); }
      e := None;
    }

    method StartRun(name: string, c: Container, launch: Option<Launch>) returns (e: Option<Error>)
      requires Valid() && Known(c)
      modifies c
      ensures Valid() && (View(), e) == Run(old(View()), name, c.id, launch)
      ensures e == Some(ModifiedDuringStart) <==> !(name in containers && containers[name] == c)
      ensures e == None <==> name in containers && containers[name] == c && old(c.status) != Running && launch.Some?
      ensures e == None ==> c.status == Running && c.pid == launch.value.pid && c.cmd == Some(launch.value.run)
                            && c.ip == if launch.value.ip != "" then launch.value.ip else old(c.ip)
      ensures e != None ==> c.View() == old(c.View())
    {
      if name !in containers || containers[name] != c { return Some(ModifiedDuringStart); }
      if c.status == Running { return Some(AlreadyRunning); }
      if launch == None { return Some(LaunchFailed); }
      ghost var before := View();
      c.pid, c.status, c.cmd := launch.value.pid, Running, Some(launch.value.run);
      if launch.value.ip != "" { c.ip := launch.value.ip; }
      assert View().objects == before.objects[c.id := c.View()];
      e := None;
    }

    method ReaperFinish(c: Container)
      requires Valid() && Known(c)
      modifies c
      ensures Valid() && View() == Finish(old(View()), c.id)
      ensures c.status == Stopped && c.pid == 0 && c.cmd == None && c.ip == ""
    {
      ghost var before := View();
      c.status, c.pid, c.cmd, c.ip := Stopped, 0, None, "";
      assert View().objects == before.objects[c.id := c.View()];
    }

    method StopLookup(name: string) returns (c: Container?, pid: nat, e: Option<Error>)
      requires Valid()
      ensures match FindToStop(View(), name)
              case Ok((o, p)) => e == None && c != null && Known(c) && c.id == o && pid == p
              case Err(err) => e == Some(err)
      ensures e == Some(NotFound) <==> name !in containers
      ensures e == None <==>
              name in containers && containers[name].status == Running && containers[name].cmd.Some?
      ensures e == None ==> c == containers[name] && pid == c.pid
    {
      c, pid := null, 0;
      if name !in containers { return null, 0, Some(NotFound); }
      c := containers[name];
      if c.status != Running || c.cmd == None { return c, 0, Some(NotRunning); }
      pid, e := c.pid, None;
    }

    method TimerCheck(c: Container, pid: nat) returns (kill: bool)
      requires Valid() && Known(c)
      ensures kill == DecidesToKill(View(), c.id, pid)
      ensures kill <==> c.status == Running && c.pid == pid
    {
      kill := c.status == Running && c.pid == pid;
    }

    method Remove(name: string) returns (r: Result<string>)
      requires Valid()
      modifies this`containers
      ensures Valid() && (View(), r) == Delete(old(View()), name)
      ensures r == Err(NotFound) <==> name !in old(containers)
      ensures r == Err(StillRunning) <==> name in old(containers) && old(containers)[name].status == Running
      ensures r.Ok? <==> name in old(containers) && old(containers)[name].status != Running
      ensures r.Ok? ==> r.value == old(containers)[name].rootfs && containers == old(containers) - {name}
      ensures r.Err? ==> containers == old(containers)
    {
      if name !in containers { return Err(NotFound); }
      var c := containers[name];
      if c.status == Running { return Err(StillRunning); }
      ghost var before := View();
      containers := containers - {name};
      assert View().objects == before.objects && View().names == before.names - {name};
      r := Ok(c.rootfs);
    }

    /** List; the order follows Go's map iteration and is not specified. */
    method List() returns (l: seq<Record>)
      requires Valid()
      ensures |l| == |View().names|
      ensures forall r :: r in l <==> exists n :: n in View().names && r == View().objects[View().names[n]]
    {
      l := [];
      var todo := containers.Keys;
      assert View().names.Keys == containers.Keys;
      while todo != {}
        invariant todo <= containers.Keys
        invariant |l| + |todo| == |containers.Keys|
        invariant forall r :: r in l <==> exists n :: n in containers.Keys - todo && r == containers[n].View()
        decreases |todo|
      {
        var name :| name in todo;
        ghost var before := l;
        l := l + [containers[name].View()];
        assert forall r :: r in l <==> r in before || r == containers[name].View();
        todo := todo - {name};
      }
      assert forall n :: n in View().names ==> View().objects[View().names[n]] == containers[n].View();
    }
  }
}
