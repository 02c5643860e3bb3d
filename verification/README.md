# Aetheria: verified models of the container agent and its host daemon

Aetheria runs Linux containers in a virtual machine. An agent inside the VM pulls images, manages containers and their
network; a daemon on the host sends it requests over one serialized connection and tunnels TCP clients into containers.
This project models the parts of both where state, order or concurrency decide what happens, and proves what they keep.
`dafny verify dfyconfig.toml` checks all of it.

- **Images** (`FileTree`, `LayerWalk`, `Overlay`, `Flatten`, `RootFs`, `ImagePull`, `ImagePaths`). A layer is the
  sequence of its files in the order in which the walk visits them, from the layer directory itself on. The one-pass merge is proved equal to the two phases
  of the OCI Image Format Specification ("Image Layer Filesystem Changeset", sections "Whiteouts" and "Opaque
  Whiteout") except for the files it erases itself, and the fold of all layers is compared with the overlay view. The
  code runs in place on a `Directory`; a pull may crash between any two file operations.
- **References and options** (`Text`, `OciRef`, `Volumes`, `HeaderReader`): parser and printer pairs with the exact
  condition under which they are inverse.
- **Container manager** (`Manager`, `ManagerRuns`, `Linearization`, `RunProperties`, `Collisions`, `Lifecycle`, `Cgroups`,
  `IpPool`, `PortLookup`, `Persistence`, `ConfigLoss`, `ConfigHistory`). Each critical section is a function on states, implemented by a method of
  `ContainerManager`, and one step of a state machine together with process exits, reapers, kill timers and network
  resources. What is proved holds after every sequence of enabled steps. `Persistence` has one step for each file
  operation and lets the machine crash and reload between any two.
- **Host and guest protocol** (`Rpc`, `Tunnel`, `TunnelReplies`, `TunnelDelivery`, `Listeners`, `CappedWriter`): the
  request loop whose response IDs are never compared, the TCP clients that share its stream with all other calls, the
  matching of data channels to them, and the table of listeners.

## What the proofs found

- A file that sorts before a marker covering it (`.bashrc` before `.wh..wh..opq`) is copied and then erased by its own
  layer (`Flatten.ErasedIff`). The flattened image differs from the overlay view exactly when no later layer lists or
  covers such a file again (`Flatten.FoldIsOverlayIff`).
- A whiteout whose name after the prefix is empty, `.` or `..` deletes its own directory or the one above it
  (`Flatten.MarkerStepIff`).
- `OCIRef`'s comment (cmd/aetheria-agent/oci.go:33) admits `@digest`; the code reads the hash as a tag
  (`OciRef.DigestIsATag`).
- A reference with an explicit `registry-1.docker.io/` prefix need not survive printing: the prefix is dropped and the
  next component can be read as a registry (`OciRef.ExplicitDefaultRegistry`).
- Image paths ignore tags (`ImagePaths.TagsShareAPath`), a restarted agent may find another pull of the same short name
  than before (`ImagePaths.RestartFindsAnother`), and pulling `alpine:3.19` shadows the built-in distribution `alpine`
  (`ImagePaths.BuiltinShadowedIff`, `ImagePaths.TaggedBuiltinKey`).
- A Stop timer decides by the container's record but its signal goes by pid. It kills another process if a later run of
  the container has been given the pid (`Collisions.ReusedPidIsKilled`), and also if another container has been given it
  between the exit and the reaper's section (`Collisions.ExitedPidIsKilled`); `RunProperties.SignalMissesIff` is the exact
  condition. Names that agree in their first ten characters share a veth name, and the reaper
  of one can delete the other's link (`RunProperties.CleanUpDeletesOtherIff`).
- A Create that overlaps an unfinished Remove of its name can leave a registered container that a restart does not bring
  back (`ConfigLoss.CanBeLostIff`). A Remove cut off by a crash, followed by a Create cut off by another, brings the
  removed container back (`ConfigLoss.CanComeBackIff`, `ConfigLoss.RemovedComesBack`).
- After one RPC time-out every later caller on the connection gets its predecessor's response (`Rpc.ShiftedByOne`). A
  tunnel client can so read "connected" for another client and poll for a channel that was never dialled
  (`TunnelReplies.ForeignReply`).
- Two clients of one port in flight together can lose a data channel (`Tunnel.CatchingUpOverwritesIff`), and a stop
  misses a listener that is bound but not yet in the table (`Listeners.StopMissesIff`).
- An empty write to an exactly full output buffer marks the output as truncated (`CappedWriter.FlagIsExactIff`).

## Model

| member | source | states |
|---|---|---|
| Overlay.StepMarker | cmd/aetheria-agent/oci.go:533-550 | A marker naming a child removes exactly the paths it covers and leaves a well-formed tree |
| Overlay.StepFile | cmd/aetheria-agent/oci.go:552-568 | A copy fails if and only if a file of a conflicting kind is in its place, goes through a link if and only if one is there for it to follow, and otherwise changes its own path only |
| Overlay.ParentSupplied | cmd/aetheria-agent/oci.go:519-570 | No marker visited between a directory and a file in it erases the directory, so the file's parent is there |
| Overlay.WalkNext | cmd/aetheria-agent/oci.go:519-570 | One more visited entry fails the walk exactly if it conflicts, leads it through a link exactly if it meets one, and otherwise extends the merge of the prefix |
| Overlay.WalkIsMerged | cmd/aetheria-agent/oci.go:519-570 | A completed walk leaves exactly the lower files no marker covers and the layer's files no later marker covers |
| Flatten.WalkCompletesIff | cmd/aetheria-agent/oci.go:519-570 | The walk completes without following a link if and only if no entry meets an uncovered lower file that conflicts with it or is a link to follow |
| Flatten.WalkOutcomeIff | cmd/aetheria-agent/oci.go:519-570 | The walk returns an error if and only if the first such entry conflicts, and follows a link if and only if the first such entry meets one |
| Flatten.WalkIsTwoPhaseWithoutErased | cmd/aetheria-agent/oci.go:519-570 | The one-pass result is the standard's two-phase result with exactly the erased files left out |
| Flatten.WalkIsTwoPhaseIff | cmd/aetheria-agent/oci.go:519-570 | The walk agrees with the two phases if and only if the layer erases none of its own files |
| Flatten.ErasedIff | cmd/aetheria-agent/oci.go:534-550 | A file is erased if and only if a marker covers it and the file's component beside the marker sorts before the marker |
| Flatten.DotFileIsErased | cmd/aetheria-agent/oci.go:534-542 | A concrete layer that loses `.bashrc` to its own opaque marker |
| Flatten.MarkerStepIff | cmd/aetheria-agent/oci.go:545-550 | A marker does what the standard says if and only if the name after `.wh.` is not empty, `.` or `..`; with an empty name or `.` it deletes its own directory with everything in it, with `..` the one above |
| Flatten.MergeTwice | cmd/aetheria-agent/oci.go:519-570 | Merging a layer again succeeds and changes nothing |
| Flatten.NoMarkerSurvives | cmd/aetheria-agent/oci.go:534-550 | A completed walk brings no `.wh.` name into a tree that had none |
| Flatten.FoldMeans | cmd/aetheria-agent/oci.go:429-445 | The folded tree holds v at p if and only if some layer supplies v at p and no later one supplies or covers p |
| Flatten.FoldCompletesIff | cmd/aetheria-agent/oci.go:429-445 | The fold completes without following a link if and only if no layer has an entry blocked by what the lower layers supply, a condition on the layers alone |
| Flatten.FoldIsOverlayIff | cmd/aetheria-agent/oci.go:429-445 | The folded tree shows the overlay view if and only if every erased file is listed or covered again by a later layer |
| RootFs.Directory.DeleteContents | cmd/aetheria-agent/oci.go:535-541 | The loop over the children leaves the directory and removes everything below it |
| RootFs.Directory.WriteFile | cmd/aetheria-agent/oci.go:573-601 | Copying in place, with the state it leaves when it fails |
| RootFs.Directory.Visit | cmd/aetheria-agent/oci.go:520-569 | The callback of the walk makes the step of the specification; at the layer directory itself it changes nothing |
| RootFs.Directory.MergeLayer | cmd/aetheria-agent/oci.go:519-570 | The loop over the files reports the outcome of the walk and, if it completes, leaves the merge of tree and layer |
| LayerWalk.WalkStopped | cmd/aetheria-agent/oci.go:519-523 | After an error nothing more is visited |
| LayerWalk.RootVisit | cmd/aetheria-agent/oci.go:525-528 | The visit of the layer directory, which comes first, changes nothing, whatever is in the tree |
| Overlay.MkdirAllMeans | cmd/aetheria-agent/oci.go:552-574 | Making a directory makes exactly the missing ones on the way, and is possible if and only if nothing but directories is there |
| ImagePull.CacheDir.FetchLayer | cmd/aetheria-agent/oci.go:341-381 | Under a crash or failure at any operation, a file under its final name is a whole blob; a finished download leaves no temporary file, and no other layer is touched |
| ImagePull.CacheDir.ExtractLayer | cmd/aetheria-agent/oci.go:470-508 | A layer that is extracted to the end extends the fold, and only a layer that leads through a link ends beyond the model |
| ImagePull.CacheDir.Finish | cmd/aetheria-agent/oci.go:447-465 | The marker is written last, over the complete fold; a resolver file written through a link leaves the tree open |
| ImagePull.CacheDir.Pull | cmd/aetheria-agent/oci.go:387-466 | For every image that leads through no symbolic link, a marker implies the complete fold beside it, and a pull without one starts over from an empty tree and, if it succeeds, reaches the same result; layers that are there are not fetched again |
| ImagePull.CacheDir.PullAgainAndAgain | cmd/aetheria-agent/oci.go:387-466 | Over any number of pulls, crashing anywhere, a marker stays and keeps vouching for the same tree |
| ImagePull.DnsWritten | cmd/aetheria-agent/oci.go:456-459 | The resolver file is written through a link if and only if /etc or the file is one; otherwise it is put in place, or nothing changes if a conflicting file is there |
| ImagePull.FoldStopped | cmd/aetheria-agent/oci.go:429-445 | The first layer that does not complete decides how the whole fold ends |
| ImagePaths.PathIsComplete | cmd/aetheria-agent/images.go:92-118 | Every OCI path that is returned has a completion marker |
| ImagePaths.DistroIff | cmd/aetheria-agent/images.go:92-118 | Any image is looked for among the distributions if and only if no complete pull of its short name is in the cache |
| ImagePaths.SameKeyIff | cmd/aetheria-agent/oci.go:86-93 | Two images share a short name if and only if their full names, registry included, are equal but for `/`, `:` and `-` |
| ImagePaths.SameKeySameRepository | cmd/aetheria-agent/oci.go:86-93 | References without a colon or dash of their own share a short name if and only if registry and repository agree |
| ImagePaths.KeyIsOneName | cmd/aetheria-agent/oci.go:86-93 | A short name is the name of one directory |
| ImagePaths.RestartKeepsIff | cmd/aetheria-agent/images.go:99-113 | Losing the memo changes an image's path if and only if another complete pull of its short name is listed before it |
| ImagePaths.RestartFindsAnother | cmd/aetheria-agent/images.go:99-113 | A cache with two complete pulls whose answer changes with the restart |
| ImagePaths.TagsShareAPath | cmd/aetheria-agent/images.go:94-97 | Images that differ in the tag alone, or have none, share one OCI path |
| ImagePaths.BuiltinShadowedIff | cmd/aetheria-agent/images.go:92-118 | A built-in distribution is found under an OCI path if and only if a complete pull of its short name is in the cache |
| ImagePaths.TaggedBuiltinKey | cmd/aetheria-agent/images.go:123-139 | A built-in name with a tag has that short name, so pulling it shadows the built-in |
| ImagePaths.ImageCache.ImageExtractPath | cmd/aetheria-agent/images.go:92-118 | The scan finds the first complete pull and remembers it, and filling the memo changes the answer for no short name |
| ImagePaths.ImageCache.PullImage | cmd/aetheria-agent/images.go:123-139 | A successful pull moves exactly its own short name to its directory; a failed one, and a built-in one, moves none |
| OciRef.NameRoundTripIff | cmd/aetheria-agent/oci.go:57-80 | Registry and repository survive printing if and only if they are a registry-like part without a slash, or the default registry with a namespaced repository that does not start like a registry |
| OciRef.RoundTripIff | cmd/aetheria-agent/oci.go:45-85 | Parsing what was printed gives the reference back if and only if its name is printable and its tag is unambiguous |
| OciRef.NormalForm | cmd/aetheria-agent/oci.go:45-85 | Which parsed references print to a normal form, for every input string |
| OciRef.ReferenceParts | cmd/aetheria-agent/oci.go:45-75 | The first component of a reference is its registry if and only if it contains a dot or a colon or is `localhost`; otherwise, and for official images, Docker Hub is |
| OciRef.PlainName | cmd/aetheria-agent/oci.go:38-75 | A name without a slash is an official image of Docker Hub, tagged `latest` unless another tag follows |
| OciRef.DigestIsATag | cmd/aetheria-agent/oci.go:33-55 | Every digest reference is read as a repository that ends in the algorithm, with the hash as its tag |
| OciRef.ExplicitDefaultRegistry | cmd/aetheria-agent/oci.go:45-85 | A family of inputs whose registry changes when printed and parsed again |
| Text.SplitFirst | cmd/aetheria-agent/oci.go:59 | SplitN takes off a first part without a separator |
| Volumes.AppendVolumes | cmd/aetheria-agent/container.go:435-442 | The loop in Start appends the encoding of every mount, in order |
| Volumes.ReadVolumes | cmd/aetheria-agent/container.go:724-746 | The loop in containerInit makes the mounts the environment decodes to, in order |
| Volumes.EntryRoundTripIff | cmd/aetheria-agent/container.go:435-442 | A mount survives the environment if and only if neither of its paths contains a colon |
| Volumes.KeysDistinct | cmd/aetheria-agent/container.go:441 | The entries of different mounts have different keys, so none overrides another in the environment |
| Volumes.OptionMeaning | cmd/aetheria/main.go:727-741 | `host:container:ro` is a read-only mount; without a third part, or with any other, it is writable; without a colon there is none |
| Volumes.ParsedHasNoColons | cmd/aetheria/main.go:727-741 | An accepted option never yields a path with a colon |
| Volumes.OptionsRoundTrip | cmd/aetheria/main.go:727-741 | Every list of accepted options comes out of the environment as the same mounts, flags included, in the same order |
| Volumes.OthersMakeNoMount | cmd/aetheria-agent/container.go:724-727 | Other entries of the environment, whatever they contain, make no mount |
| Volumes.OptionsAreTheMounts | cmd/aetheria-agent/container.go:724-746 | In an environment without such entries the mounts made are exactly those of the accepted options, in order |
| HeaderReader.ReadLineRaw | cmd/aetheria/main.go:1153-1172 | Succeeds if and only if a newline follows at most 256 bytes and no read fails before it; then it consumes through that newline and nothing more |
| HeaderReader.HeaderReadsBack | cmd/aetheria-agent/portforward.go:78-80 | The agent's header of a 16-bit port, followed by any payload, reads back as the daemon's key and leaves the payload |
| HeaderReader.LineOfHeader | cmd/aetheria-agent/portforward.go:78-80 | The header alone reads back as the decimal port |
| HeaderReader.CutHeaderFails | cmd/aetheria-agent/portforward.go:79-83 | A header cut off before its newline is rejected |
| HeaderReader.LineLimitIff | cmd/aetheria/main.go:1153-1172 | A line is read if and only if at most 256 bytes precede its newline, whatever they are |
| HeaderReader.Trimmed | cmd/aetheria/main.go:1163-1164 | White space is taken off at both ends, all of it and nothing else |
| CappedWriter.LimitedWriter.Write | cmd/aetheria-agent/main.go:326-339 | After any writes the buffer is the first limit bytes of their concatenation, and each call reports its full length |
| CappedWriter.FlagIsExactIff | cmd/aetheria-agent/main.go:326-339 | For every limit and every writes, the flag means that more was written than there is room for, except exactly when the buffer is just full and the last write was empty |
| CappedWriter.FullFlagIff | cmd/aetheria-agent/main.go:327-331 | When the writes just fill the buffer, the flag is set if and only if the last one is empty |
| CappedWriter.TruncatedIff | cmd/aetheria-agent/main.go:326-339 | For writes that are not empty, under any limit, the flag means exactly that output was cut |
| Manager.ContainerManager.CreateInsert | cmd/aetheria-agent/container.go:337-371 | The second section adds one object and one entry or, if the name is taken or the policy unknown, nothing; the object is made as asked, on the bridge unless another network is named, and restarted only on request |
| Manager.ContainerManager.StartLookup | cmd/aetheria-agent/container.go:373-386 | The first section of Start finds the registered object that is not running, or says rightly why not |
| Manager.ContainerManager.StartRun | cmd/aetheria-agent/container.go:400-477 | The second section runs that very object, if it is still the registered one and not running, with the new pid and the address it got, if any |
| Manager.ContainerManager.ReaperFinish | cmd/aetheria-agent/container.go:493-498 | The reaper clears one object and touches no other |
| Manager.ContainerManager.StopLookup | cmd/aetheria-agent/container.go:505-517 | Stop's section finds a running object and its pid, or says rightly why not |
| Manager.ContainerManager.Remove | cmd/aetheria-agent/container.go:536-549 | Remove's section drops one entry of an object that is not running and returns its root file system, or says rightly why not |
| Manager.ContainerManager.List | cmd/aetheria-agent/container.go:625-647 | The list holds exactly the registered containers |
| ManagerRuns.StepKeepsInv | cmd/aetheria-agent/container.go:302-560 | Every step of every interleaving keeps the invariant that ties objects, reapers, timers, links, cgroups and addresses together |
| Linearization.ReachedInv | cmd/aetheria-agent/container.go:302-560 | It holds after every run, and only a step that is not enabled ends a run |
| Linearization.StepAllowed | cmd/aetheria-agent/container.go:302-560 | Each critical section is one operation of the sequential registry, and each refusal is justified by it |
| Linearization.RunsAreSequential | cmd/aetheria-agent/container.go:302-560 | The events of any interleaving, in the order of their last critical sections, are a run of the sequential registry that ends in the manager's |
| RunProperties.RunningIff | cmd/aetheria-agent/container.go:447-500 | In every reachable state an object is running if and only if it has a pid, a process handle and exactly one unfinished reaper, and then it is registered |
| RunProperties.CleanUpDeletesOtherIff | cmd/aetheria-agent/container.go:485-488 | A reaper deletes another run's veth link if and only if its container uses the bridge and a running container of another name holds the link under its cut name |
| RunProperties.CleanUpDeletesOwnLink | cmd/aetheria-agent/container.go:485-488 | While no other run in progress shares its cut name, it deletes its own link only |
| RunProperties.CleanUpRemovesOwnCgroup | cmd/aetheria-agent/container.go:489-492 | A reaper removes by name no cgroup of another run in progress |
| Cgroups.CgroupIff | cmd/aetheria-agent/container.go:456-492 | As long as directories can be made, every limited run in progress has the one of its name; as long as they can be removed, no other is left |
| RunProperties.TimerDecidesIff | cmd/aetheria-agent/container.go:523-528 | At its locked check a timer decides to kill, and for which run of its container, if and only if a run in progress has the pid Stop saw |
| RunProperties.TimerDecidesForOtherIff | cmd/aetheria-agent/container.go:523-528 | It decides for another run than its own if and only if a later run of the container has been given the same pid and is in progress |
| RunProperties.TimerDecidesForOwnRun | cmd/aetheria-agent/container.go:523-528 | Unless a later run of the container is given the timer's pid, it decides exactly if its own run is still the current one, and for that run only |
| RunProperties.SignalHitsIff | cmd/aetheria-agent/container.go:519-531 | A signal, sent by pid after unlocking, reaches the one run of any container whose process has the pid by then |
| RunProperties.SignalMissesIff | cmd/aetheria-agent/container.go:519-531 | It reaches the run Stop was called for if and only if its process has not been waited for, and another run if and only if it has and a later run, of whatever container, has its pid |
| RunProperties.SignalHitsOwnRun | cmd/aetheria-agent/container.go:519-531 | While no later run of any container has the pid, the signal reaches its own run or nothing |
| Collisions.ReusedPidIsKilled | cmd/aetheria-agent/container.go:523-532 | For every pid, a run in which a container is given it again and the old timer kills the new process |
| Collisions.ExitedPidIsKilled | cmd/aetheria-agent/container.go:480-498 | For every pid, a run in which a timer kills another container, started with the pid between the exit and the reaper's section |
| Collisions.CutNamesCollide | cmd/aetheria-agent/network.go:176-182 | For every two names with one cut form, a run in which one's reaper deletes the other's link |
| RunProperties.StaysUnregistered | cmd/aetheria-agent/container.go:302-560 | An object once removed is never registered again |
| RunProperties.StartSucceedsIff | cmd/aetheria-agent/container.go:400-410 | The second section succeeds if and only if the object found in the first is still registered and not running, and reports a modification if and only if it is not registered |
| RunProperties.StartRunsWhatItFound | cmd/aetheria-agent/container.go:373-477 | A successful Start ran the object its first section found, which stayed registered all the while, whatever Create and Remove did in between |
| Lifecycle.CreateBeginsIff | cmd/aetheria-agent/container.go:289-313 | Create goes on exactly with a free name of 1 to 64 characters that is one component of a path, and otherwise says rightly why not |
| Lifecycle.FailedCreate | cmd/aetheria-agent/container.go:315-335 | A Create without a root file system fails and leaves everything as it was |
| Lifecycle.CreateOutcome | cmd/aetheria-agent/container.go:337-371 | In every run the second section makes the container that was asked for, with the defaults for network and restart policy, or says rightly why not |
| Lifecycle.StartBeginsIff | cmd/aetheria-agent/container.go:373-386 | Start goes on exactly with a registered container that is not running, and notes its object |
| Lifecycle.StartAcquires | cmd/aetheria-agent/container.go:447-475 | In every run a successful Start records pid and run, the next address if the whole bridge network could be set up and none otherwise, and acquires link, cgroup and reaper for the new run only |
| Lifecycle.FailedStart | cmd/aetheria-agent/container.go:388-450 | A Start that fails says rightly why and leaves everything as it was |
| Lifecycle.CallsAreAnswered | cmd/aetheria-agent/container.go:302-560 | In every run each call is pending or has had exactly one answer |
| Lifecycle.NobodyIsStuck | cmd/aetheria-agent/container.go:302-560 | In every state each call, run and timer can go on |
| Lifecycle.SameVethIff | cmd/aetheria-agent/network.go:114-120 | Two containers share an interface name if and only if their names agree in the first ten characters |
| Lifecycle.ListedIs | cmd/aetheria-agent/container.go:625-647 | The list shows every registered container under its name, as it is |
| Lifecycle.StopBegins | cmd/aetheria-agent/container.go:505-519 | A Stop begins with the running object of that name and its pid |
| Lifecycle.StopGoesOn | cmd/aetheria-agent/container.go:519-533 | It sends SIGTERM once, sleeps, and then sends SIGKILL once or nothing |
| Lifecycle.WholeLife | cmd/aetheria-agent/container.go:302-560 | In every reachable state a container can be created, started, stopped and removed, and leaves no entry, call, timer, process, link or cgroup behind |
| RunProperties.AddressesClashIff | cmd/aetheria-agent/network.go:39-48 | Two containers have one address if and only if a multiple of 253 allocations lies between theirs |
| RunProperties.AddressesDistinct | cmd/aetheria-agent/network.go:39-48 | With at most 253 allocations since the oldest one in use, every address in use belongs to one container |
| IpPool.Allocator.Allocate | cmd/aetheria-agent/network.go:39-48 | Call k returns host number 2 + k mod 253 and the 8-bit counter never wraps |
| IpPool.AddressOfCallIff | cmd/aetheria-agent/network.go:30-48 | Call k gives 10.42.0.h if and only if h is the host number between 2 and 254 whose turn it is |
| IpPool.SameAddressIff | cmd/aetheria-agent/network.go:39-48 | Two calls return one address if and only if their numbers agree modulo 253 |
| IpPool.WindowDistinct | cmd/aetheria-agent/network.go:39-48 | Any 253 consecutive calls return distinct addresses |
| PortLookup.LookupPortForward | cmd/aetheria-agent/portforward.go:120-145 | The answer names a running container, its first mapping of the port, and its own address or, on the host's network, the loopback; no mapping is reported if and only if no running container forwards the port |
| PortLookup.FirstMapping | cmd/aetheria-agent/portforward.go:128-129 | The first mapping of the port, or none |
| PortLookup.AnswerByNetwork | cmd/aetheria-agent/portforward.go:128-141 | In every reachable state a container on the host's network is answered with the loopback, one on the bridge with the address allocated for its run, and one without an address with an error |
| PortLookup.AnswerBelongsToOne | cmd/aetheria-agent/portforward.go:120-145 | In every reachable state with at most 253 allocations since the oldest address in use, the bridge address in an answer belongs to exactly the container it names |
| Persistence.ConfigsAreWhole | cmd/aetheria-agent/container.go:154-189 | With crashes anywhere, config.json is absent or complete at every moment |
| Persistence.ReloadRestores | cmd/aetheria-agent/container.go:193-249 | Without overlap of Create and Remove, reload brings back every saved container with the standard root file system, with every field |
| Persistence.ReloadNothingElse | cmd/aetheria-agent/container.go:193-249 | Of names neither registered nor being removed, it brings back exactly those whose configuration was left behind and whose root file system is there |
| Persistence.RestartIsIdentity | cmd/aetheria-agent/container.go:193-249 | At rest and with nothing left behind, a restart changes nothing |
| ConfigLoss.CanBeLostIff | cmd/aetheria-agent/container.go:536-560 | In every state of every run, some continuation without a new call for the name loses a saved container if and only if a Remove of it is unfinished, or its root file system is gone before its save can end, or it is lost already |
| ConfigLoss.NothingAtRisk | cmd/aetheria-agent/container.go:302-371 | Without overlap of Create and Remove no container can be lost |
| ConfigLoss.LeftBehindIff | cmd/aetheria-agent/container.go:536-560 | A configuration is left behind exactly by a Remove that fails, and by a crash while the root file system is not in place |
| ConfigLoss.CanComeBackIff | cmd/aetheria-agent/container.go:193-249 | An unregistered name can come back at a restart, without being registered, if and only if its configuration is still on disk |
| ConfigLoss.RemovedComesBack | cmd/aetheria-agent/container.go:536-560 | A run without overlap in which a removed container comes back with its old configuration |
| ConfigLoss.OverlapLosesContainer | cmd/aetheria-agent/container.go:536-560 | A run in which an overlapping Remove makes a saved, registered container vanish at the next restart |
| ConfigHistory.ConfigChangesIff | cmd/aetheria-agent/container.go:154-189 | A configuration on disk is replaced by the registered one when its save ends, deleted by a Remove of its container, and touched by nothing else |
| ConfigHistory.TempChangesIff | cmd/aetheria-agent/container.go:172-188 | A temporary file is written by the save of its container and gone when the save ends, unless it could not be written or a crash cuts it off |
| ConfigHistory.RootfsChangesIff | cmd/aetheria-agent/container.go:315-335 | A root file system is there from its preparation by a Create or Start to its deletion by a Remove of that container |
| ConfigHistory.RegistrationChangesIff | cmd/aetheria-agent/container.go:302-371 | Up to a restart a container is registered with the configuration it was created with until it is removed |
| ConfigHistory.CallsChangeIff | cmd/aetheria-agent/container.go:302-560 | Calls are pending from their beginning to their end or to a crash, whatever other calls do |
| ConfigHistory.CreatesGoOn | cmd/aetheria-agent/container.go:302-371 | In every state of every run a Create and a save can go on, or fail |
| ConfigHistory.OthersGoOn | cmd/aetheria-agent/container.go:373-560 | So can a Remove and a Start |
| ConfigHistory.CreatedSurvives | cmd/aetheria-agent/container.go:337-369 | In every run without overlap a Create that has been saved survives a crash with its whole configuration |
| ConfigHistory.RemovedForGood | cmd/aetheria-agent/container.go:536-560 | In every run a Remove that runs to its end takes its container from registry and disk, no other, and without another Create the name never comes back |
| Persistence.Store.SaveConfig | cmd/aetheria-agent/container.go:154-189 | However it ends, config.json is what it was or complete, and no other container's files change |
| Persistence.Store.LoadConfigs | cmd/aetheria-agent/container.go:193-249 | The loop computes the reload of the specification |
| Rpc.OutstandingAreLosses | cmd/aetheria/main.go:258-291 | The responses still to come are as many as the calls that timed out, all with earlier IDs |
| Rpc.PairedIff | cmd/aetheria/main.go:258-291 | A caller that reads a line has its own response if and only if no earlier call on the connection timed out; until then both streams are empty between calls |
| Rpc.ShiftedByLosses | cmd/aetheria/main.go:279-291 | After any calls, every later caller reads the response of the call as many calls earlier as calls have timed out |
| Rpc.ShiftedByOne | cmd/aetheria/main.go:279-291 | After one time-out, wherever it happens, every later caller gets its predecessor's response |
| Rpc.CutLineIsUnreadable | cmd/aetheria/main.go:279-291 | After one time-out within a line the next caller gets nothing it can parse, and every later one its predecessor's response |
| Rpc.Daemon.SendToAgent | cmd/aetheria/main.go:258-291 | One call, with the agent's half running at any pace, is one exchange; IDs grow by one; without an agent nothing happens |
| Rpc.Daemon.CallRepeatedly | cmd/aetheria/main.go:258-291 | All calls made on one connection get, and leave outstanding, what the specification of a whole connection says |
| Rpc.Connection.AgentServesOne | cmd/aetheria-agent/main.go:183-202 | The agent answers in request order with the request's ID |
| Tunnel.StepKeepsInv | cmd/aetheria/main.go:1061-1149 | Every step of clients, other callers, agent and matching loop, time-outs and shifted replies included, keeps the matching invariant |
| Tunnel.BridgedToOwnPort | cmd/aetheria/main.go:1061-1149 | A client is bridged only to a channel that carries, and was dialled for, its own port |
| Tunnel.OneClientPerChannel | cmd/aetheria/main.go:1083-1094 | No channel serves two clients |
| Tunnel.ChannelsConserved | cmd/aetheria/main.go:1127-1149 | For each key the channels accepted are those claimed, overwritten or pending, the last 0 or 1 |
| Tunnel.CatchingUpOverwritesIff | cmd/aetheria/main.go:1127-1149 | Taking in the backlog overwrites a channel if and only if two channels of one key are in the backlog or pending |
| Tunnel.Daemon.StoreChannel | cmd/aetheria/main.go:1140-1147 | The loop body stores a channel under its header and leaves the connection at the first payload byte, or stores nothing |
| Tunnel.Daemon.TryPickUp | cmd/aetheria/main.go:1084-1089 | One poll takes the pending channel of the port out of the map |
| TunnelReplies.CallIsExchange | cmd/aetheria/main.go:258-291 | However agent, clients and channels run in between, a call on the shared stream is one exchange on the responses outstanding at its start |
| TunnelReplies.ReplyIsOwnIff | cmd/aetheria/main.go:278-290 | A caller reads the response to its own request if and only if no call on the connection has timed out |
| TunnelReplies.ForeignIff | cmd/aetheria/main.go:1061-1076 | A client takes another request's reply for its own if and only if some call on the connection has timed out |
| TunnelReplies.ChannelBehindReplyIff | cmd/aetheria-agent/portforward.go:51-91 | A client that reads a reply has a channel if and only if the agent has by then answered its own request with "connected" |
| TunnelReplies.ConnectedMeansOneChannel | cmd/aetheria-agent/portforward.go:51-91 | Behind the "connected" reply to a client's own request is exactly one dialled channel, with the header of the client's port |
| TunnelReplies.PollsIffDialled | cmd/aetheria/main.go:1063-1076 | While no call on the connection has timed out, a client polls if and only if a channel was dialled for it; a line cut by a time-out closes the client that reads it |
| TunnelReplies.FreshConnection | cmd/aetheria/main.go:494-500 | A new connection starts with nothing outstanding and leaves clients and channels alone |
| TunnelReplies.IdsAreNumbers | cmd/aetheria/main.go:262-267 | IDs are given out one by one to every call that finds an agent, over all connections |
| TunnelReplies.NobodyIsStuck | cmd/aetheria/main.go:1061-1149 | In every reachable state each goroutine, and the agent, can take its next step |
| TunnelReplies.ClientsAdvance | cmd/aetheria/main.go:1061-1100 | Every step of a client's goroutine takes it further, and no other step moves it |
| TunnelReplies.ForeignReply | cmd/aetheria/main.go:1061-1076 | For every two ports, a run in which a time-out makes the next client poll for a channel that was never dialled |
| TunnelDelivery.ExactDelivery | cmd/aetheria/main.go:1061-1149 | If clients call only with no response outstanding, none times out, and one client per port is between its RPC and its pick-up at a time, no channel is overwritten, nor would be, and each client has the one dialled for it |
| TunnelDelivery.PollingHasChannel | cmd/aetheria/main.go:1079-1094 | In such runs the channel opened for every polling client is pending under its key or in the backlog |
| TunnelDelivery.NextPollBridges | cmd/aetheria/main.go:1079-1094 | Once the backlog is taken in, a polling client's next poll bridges it to that channel |
| TunnelDelivery.ClientIsBridged | cmd/aetheria/main.go:1061-1110 | On a free connection with nothing under way a client is bridged to a new channel with its port's header, and nothing else is changed |
| TunnelDelivery.MissesAndGivesUp | cmd/aetheria/main.go:1083-1100 | A client that misses its channel may give up after exactly 50 misses |
| TunnelDelivery.TwoClientsOverwrite | cmd/aetheria/main.go:1145-1147 | Two clients of one port in flight together, nothing timed out: a run in which one channel overwrites the other |
| Listeners.StepKeepsInv | cmd/aetheria/main.go:1023-1123 | Every interleaving of starts, restores and stops keeps the table's invariant |
| Listeners.EntryIsTheListener | cmd/aetheria/main.go:1036-1046 | A table entry is open and is the only open listener on its port |
| Listeners.OpenIsAccountedFor | cmd/aetheria/main.go:1036-1046 | An open listener is in the table if and only if no goroutine holds it between bind and insert |
| Listeners.RestoringAgainChangesNothing | cmd/aetheria/main.go:1176-1212 | Restoring forwards that are in place changes no listener and no entry |
| Listeners.StopMissesIff | cmd/aetheria/main.go:1113-1123 | After a stop of its port a listener is still open if and only if it was between bind and insert |
| Listeners.StoppedPortIsFree | cmd/aetheria/main.go:1113-1123 | If no listener is between bind and insert, a stopped port can be bound again |
| Listeners.StopClosesIff | cmd/aetheria/main.go:1113-1123 | A stop closes exactly the listeners in the table under its ports and forgets exactly their entries; all others stay |
| Listeners.StartForwards | cmd/aetheria/main.go:1036-1046 | A start on a free port leaves an open listener and an entry, and all others as they were |
| Listeners.StopUndoesStart | cmd/aetheria/main.go:1036-1123 | A stop of that port then gives back the listeners and entries of before |
| Listeners.FailedStartChangesNothing | cmd/aetheria/main.go:1036-1042 | A start that finds its port taken, or cannot listen, changes nothing |
| Listeners.NobodyIsStuck | cmd/aetheria/main.go:1023-1123 | In every reachable state ports can be stopped and every goroutine can go on |
| Listeners.Daemon.StopPortForwards | cmd/aetheria/main.go:1113-1123 | The loop closes and forgets exactly the listeners of the given ports |

## Left out

- Layer merging: writes through a symbolic link of a lower layer (the model says exactly where they begin, and leaves
  open what follows), markers that are directories with contents, file modes, owners and extended attributes, and the
  tree a failed walk leaves behind.
- I/O errors that the code ignores (os.RemoveAll, os.MkdirAll, writing the resolver file and the completion marker): the
  model lets these calls succeed unless the tree itself forbids them.
- HTTP, token authentication, manifests, platform selection, gzip and tar: a blob is a layer or a partial file, a fetch
  succeeds or fails. Blob digests are not checked by the code; tar's exit status 2 counts as success there.
- Directory names of pulls are cut to twelve characters of the digest; the model takes different pulls to have different
  names.
- Loss of written data at a power failure (no fsync order): a crash stops the program between two operations.
- Built-in distribution images: their download and extraction beyond the path they resolve to.
- autoRestart, Exec, Logs, container log files, namespaces, mounts, the contents of cgroup files, and whether a process
  gets into the cgroup directory made for it.
- ManagerRuns, Persistence, Tunnel and Listeners are state machines on values; the goroutines are their steps. Only the
  single critical sections and loops are also methods on objects. The reaper is taken to exist from the end of Start's
  second section on.
- TunnelDelivery.ExactDelivery: a sufficient condition on whole runs; the exact conditions are those of single states, for
  replies (TunnelReplies.ForeignIff) and for overwriting (Tunnel.CatchingUpOverwritesIff).
- ImagePull.CacheDir.ExtractLayer: does not describe the root file system after a failure or crash, because the next pull
  deletes it, and does not tell a conflict between layers from a failure of gzip, tar or a write.
- Processes other than the containers' own: a signal to a pid that one of them has is a signal that reaches no run.
- JSON: messages carry an ID only, one line each; partial writes of a request, messages over 1 MB, and requests that are
  not JSON are not modelled. The remainder of a response line cut by a time-out is taken not to parse.
- The name inside config.json: the directory's name is authoritative in the code.
- White space beyond single bytes in strings.TrimSpace; duplicates that exec.Cmd removes from an environment.
- What restorePortForwards reads from the container list: any ports may be spawned.
- Parsing of port mappings and memory sizes, the command line, shells and PTYs, starting the VM, the display application.
- Wall-clock time: delays, polls and deadlines are steps that may come at any time.
