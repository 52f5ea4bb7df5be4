/**
  The container manager of `src/container.c` as a state machine: one command after another,
  each with every way its system calls can turn out, across crashes and restarts.

  A pid is never reused.  `alive` may lose members at any time and gains one only when a
  container is started.
*/
module Manager {
  import opened Sequences
  import opened Text
  import opened Metadata
  import opened Persistence
  import opened Identity
  import RR = RoundRobin
  import Limits

  // ---- state -----------------------------------------------------------

  /** Stacks by allocation number: which are allocated, how many ever were, and every free(). */
  datatype Heap = Heap(live: set<nat>, next: nat, freed: seq<nat>)

  datatype World = World(
    up: bool,
    records: seq<Record>, nextSequence: nat, issued: seq<nat>,
    ring: RR.Ring, alive: set<int>, used: set<int>,
    heap: Heap, files: Files)

  datatype Spec = Spec(name: string, hostname: string, command: string, limits: Limits.Config)

  /** What `waitpid(WNOHANG)` and the liveness check say about one record. */
  datatype Probe = Reaped | StillThere | Vanished | WaitError

  /** How `stop_container_process` gets on with a running container. */
  datatype Halting = KillRefused | ReapFails | Halted

  datatype Launching = NoMemory | IsolationFails | Launched(pid: int)

  /** The kernel's part in a poll: one answer per record, and the save that may follow. */
  datatype Polling = Polling(probes: seq<Probe>, save: SaveOutcome)

  datatype Command =
    | Poll(polling: Polling)
    | Create(spec: Spec, rootfs: Option<string>, save: SaveOutcome)
    | Start(id: string, tracked: bool, polling: Polling, launch: Launching, save: SaveOutcome,
            halt: Halting, haltSave: SaveOutcome, trackOk: bool)
    | Wait(id: string, reaped: bool, save: SaveOutcome)
    | Stop(id: string, polling: Polling, halt: Halting, haltSave: SaveOutcome)
    | Delete(id: string, polling: Polling, save: SaveOutcome)
    | Refresh(lost: set<nat>)
    | ThreadTurn
    | Exit(pid: int)
    | Quit(polling: Polling, halts: seq<(Halting, SaveOutcome)>, save: SaveOutcome)
    | Crash(during: Command, events: nat)
    | Boot(polling: Polling)

  // ---- building blocks -------------------------------------------------

  function Allocate(h: Heap): Heap { h.(live := h.live + {h.next}, next := h.next + 1) }

  /** `free_container_stack`. */
  function FreeStack(h: Heap, stack: Option<nat>): Heap {
    if stack.None? then h else h.(live := h.live - {stack.value}, freed := h.freed + [stack.value])
  }

  /** A running container has ended: STOPPED, no pid, stack freed, untracked or not. */
  function Retire(w: World, i: nat, untrack: bool): World
    requires i < |w.records|
  {
    var r := w.records[i];
    w.(records := w.records[i := r.(phase := Stopped, pid := -1, stack := None)],
       heap := FreeStack(w.heap, r.stack),
       ring := if untrack then RR.Remove(w.ring, r.pid) else w.ring,
       alive := w.alive - {r.pid})
  }

  function SaveWorld(w: World, o: SaveOutcome): World {
    w.(files := Save(w.files, w.records, Surfaced(w.records, o)))
  }

  /** Whether that save returns 0. */
  predicate SaveOk(w: World, o: SaveOutcome) { Surfaced(w.records, o).Saved? }

  predicate IsRunning(r: Record) { r.phase == Running && r.pid > 0 }

  /** `sync_container_state`: the recovery branch does not untrack (src/container.c:380-386). */
  function Sync(w: World, i: nat, probe: Probe): (World, bool)
    requires i < |w.records|
  {
    if !IsRunning(w.records[i]) then (w, false)
    else
      match probe
      case Reaped => (Retire(w, i, true), true)
      case Vanished => (Retire(w, i, false), true)
      case _ => (w, false)
  }

  function SyncNth(w: World, i: nat, probes: seq<Probe>): (out: (World, bool))
    requires i < |w.records|
    ensures |out.0.records| == |w.records|
  {
    Sync(w, i, if i < |probes| then probes[i] else StillThere)
  }

  function PollRest(w: World, i: nat, probes: seq<Probe>): (out: (World, bool))
    requires i <= |w.records|
    ensures |out.0.records| == |w.records|
    decreases |w.records| - i
  {
    if i == |w.records| then (w, false)
    else
      var (w1, changed) := SyncNth(w, i, probes);
      var (w2, more) := PollRest(w1, i + 1, probes);
      (w2, changed || more)
  }

  /** `poll_states`. */
  function PollAll(w: World, p: Polling): World {
    var (w1, changed) := PollRest(w, 0, p.probes);
    if changed then SaveWorld(w1, p.save) else w1
  }

  function IndexOfId(rs: seq<Record>, id: string): (i: Option<nat>)
    ensures i.Some? ==> i.value < |rs| && rs[i.value].id == id && forall j :: 0 <= j < i.value ==> rs[j].id != id
    ensures i.None? ==> forall r <- rs :: r.id != id
  {
    if rs == [] then None
    else if rs[0].id == id then Some(0)
    else
      match IndexOfId(rs[1..], id)
      case None => None
      case Some(i) => Some(i + 1)
  }

  /** `stop_container_process`: the result says whether it returned 0. */
  function HaltAt(w: World, i: nat, h: Halting, save: SaveOutcome): World
    requires i < |w.records|
  {
    if IsRunning(w.records[i]) && h.Halted? then SaveWorld(Retire(w, i, true), save) else w
  }

  function NewRecord(spec: Spec, n: nat, rootfs: string): Record {
    var id := FormatId(n);
    var name := if spec.name != "" then Copy(spec.name, NAME_LEN) else Copy(id, NAME_LEN);
    Record(id, name, -1, if spec.hostname != "" then Copy(spec.hostname, HOSTNAME_LEN) else name,
           rootfs, Created,
           if spec.command != "" then Copy(spec.command, COMMAND_LEN) else DEFAULT_COMMAND,
           spec.limits, None)
  }

  /** The ring after clearing it and adding every running pid but at the positions where that failed. */
  function RingOf(rs: seq<Record>, lost: set<nat>): RR.Ring {
    if rs == [] then RR.Ring([], 0)
    else
      var ring := RingOf(rs[..|rs| - 1], lost);
      var r := rs[|rs| - 1];
      if IsRunning(r) && |rs| - 1 !in lost then RR.Add(ring, r.pid) else ring
  }

  /** The record of a container whose process has come to life. */
  function EnterAt(w: World, i: nat, pid: int, stack: nat): World
    requires i < |w.records|
  {
    w.(records := w.records[i := w.records[i].(phase := Running, pid := pid, stack := Some(stack))],
       alive := w.alive + {pid}, used := w.used + {pid})
  }

  function LaunchAt(w: World, i: nat, pid: int): World
    requires i < |w.records|
  {
    EnterAt(w.(heap := Allocate(w.heap)), i, pid, w.heap.next)
  }

  // ---- commands --------------------------------------------------------

  /** The next number is used up, whatever comes of it. */
  function Reserve(w: World): World {
    w.(nextSequence := w.nextSequence + 1, issued := w.issued + [w.nextSequence])
  }

  function CreateStep(w: World, spec: Spec, rootfs: Option<string>, save: SaveOutcome): World {
    match rootfs
    case None => Reserve(w)
    case Some(path) => AppendAndSave(Reserve(w), NewRecord(spec, w.nextSequence, path), save)
  }

  /** Link at the end, save, and take out again if that fails. */
  function AppendAndSave(w: World, r: Record, save: SaveOutcome): World {
    var w1 := w.(records := w.records + [r]);
    if SaveOk(w1, save) then SaveWorld(w1, save) else SaveWorld(w1, save).(records := w.records)
  }

  function StartStep(w: World, c: Command): World
    requires c.Start?
  {
    if c.id == "" then w else StartFound(PollAll(w, c.polling), c)
  }

  function StartFound(w: World, c: Command): World
    requires c.Start?
  {
    match IndexOfId(w.records, c.id)
    case None => w
    case Some(i) => if w.records[i].phase == Running then w else StartAt(w, i, c)
  }

  /** `start_container_by_id` once it has found a record that is not running. */
  function StartAt(w: World, i: nat, c: Command): World
    requires c.Start? && i < |w.records|
  {
    match c.launch
    case NoMemory => w
    case IsolationFails => w.(heap := FreeStack(Allocate(w.heap), Some(w.heap.next)))
    case Launched(pid) => LaunchedAt(LaunchAt(w, i, pid), i, c)
  }

  /** Save the new state, stop the container again if that fails, track it otherwise. */
  function LaunchedAt(w: World, i: nat, c: Command): World
    requires c.Start? && c.launch.Launched? && i < |w.records|
  {
    var w1 := SaveWorld(w, c.save);
    if !SaveOk(w, c.save) then HaltAt(w1, i, c.halt, c.haltSave)
    else if c.tracked && c.trackOk then w1.(ring := RR.Add(w1.ring, c.launch.pid)) else w1
  }

  /** Whether that returns 0. */
  predicate StartsAt(w: World, i: nat, c: Command)
    requires c.Start? && i < |w.records|
  {
    c.launch.Launched? && SaveOk(LaunchAt(w, i, c.launch.pid), c.save)
  }

  predicate Starts(w: World, c: Command)
    requires c.Start?
  {
    var found := IndexOfId(w.records, c.id);
    found.Some? && w.records[found.value].phase != Running && StartsAt(w, found.value, c)
  }

  /** `wait_for_container_process`, the end of a foreground run: nothing is untracked. */
  function WaitStep(w: World, id: string, reaped: bool, save: SaveOutcome): World {
    match IndexOfId(w.records, id)
    case None => w
    case Some(i) =>
      if IsRunning(w.records[i]) && reaped then SaveWorld(Retire(w, i, false), save) else w
  }

  function StopStep(w: World, c: Command): World
    requires c.Stop?
  {
    if c.id == "" then w
    else
      var w1 := PollAll(w, c.polling);
      match IndexOfId(w1.records, c.id)
      case None => w1
      case Some(i) => HaltAt(w1, i, c.halt, c.haltSave)
  }

  function DeleteStep(w: World, c: Command): World
    requires c.Delete?
  {
    if c.id == "" then w
    else
      var w1 := PollAll(w, c.polling);
      match IndexOfId(w1.records, c.id)
      case None => w1
      case Some(i) => if w1.records[i].phase == Running then w1 else DeleteAt(w1, i, c.save)
  }

  /** Unlink, save, and link again at the end if that fails. */
  function DeleteAt(w: World, i: nat, save: SaveOutcome): World
    requires i < |w.records|
  {
    Deleted(w.(records := RemoveAt(w.records, i)), w.records[i], save)
  }

  function Deleted(w: World, r: Record, save: SaveOutcome): World {
    var w1 := SaveWorld(w, save);
    if SaveOk(w, save) then w1.(heap := FreeStack(w1.heap, r.stack)) else w1.(records := w1.records + [r])
  }

  function HaltNth(w: World, i: nat, halts: seq<(Halting, SaveOutcome)>): (out: World)
    requires i < |w.records|
    ensures |out.records| == |w.records|
  {
    if i < |halts| then HaltAt(w, i, halts[i].0, halts[i].1) else w
  }

  function HaltRest(w: World, i: nat, halts: seq<(Halting, SaveOutcome)>): (out: World)
    requires i <= |w.records|
    ensures |out.records| == |w.records|
    decreases |w.records| - i
  {
    if i == |w.records| then w
    else
      HaltRest(HaltNth(w, i, halts), i + 1, halts)
  }

  function FreeAll(h: Heap, rs: seq<Record>): Heap {
    if rs == [] then h else FreeStack(FreeAll(h, rs[..|rs| - 1]), rs[|rs| - 1].stack)
  }

  /** `cleanup_all_containers`; the process ends after it. */
  function QuitStep(w: World, p: Polling, halts: seq<(Halting, SaveOutcome)>, save: SaveOutcome): World {
    var w1 := SaveWorld(HaltRest(PollAll(w, p), 0, halts), save);
    w1.(up := false, records := [], heap := FreeAll(w1.heap, w1.records))
  }

  /** The state of a new process that has read in `rs`. */
  function NewSession(w: World, rs: seq<Record>): World {
    w.(up := true, records := rs, nextSequence := BumpAll(1, rs), issued := [],
       ring := RR.Ring([], 0), heap := Heap({}, 0, []))
  }

  /** The records the file holds. */
  function Reloaded(w: World): seq<Record> {
    match Meta(w.files)
    case None => []
    case Some(text) => Load(text, w.alive)
  }

  /** `container_manager_init` in a new process. */
  function BootStep(w: World, p: Polling): World { PollAll(NewSession(w, Reloaded(w)), p) }

  /** `container_scheduler_refresh_targets`, up to the signals. */
  function RefreshStep(w: World, lost: set<nat>): World { w.(ring := RingOf(w.records, lost)) }

  function Step(w: World, c: Command): World {
    match c
    case Poll(p) => PollAll(w, p)
    case Create(spec, rootfs, save) => CreateStep(w, spec, rootfs, save)
    case Start(_, _, _, _, _, _, _, _) => StartStep(w, c)
    case Wait(id, reaped, save) => WaitStep(w, id, reaped, save)
    case Stop(_, _, _, _) => StopStep(w, c)
    case Delete(_, _, _) => DeleteStep(w, c)
    case Refresh(lost) => RefreshStep(w, lost)
    case ThreadTurn => w.(ring := RR.Apply(w.ring, RR.TickE(w.alive)))
    case Exit(p) => w.(alive := w.alive - {p})
    case Quit(p, halts, save) => QuitStep(w, p, halts, save)
    case Crash(during, k) =>
      var w1 := Step(w, during);
      w1.(up := false, records := [], files := Cut(w1.files, k))
    case Boot(p) => BootStep(w, p)
  }

  /**
    What a run assumes of its commands: a new pid is fresh, numbers and the root path fit their
    C types, the sequence stays below INT_MAX, and a crash does not undo what the disk already
    has.  Nothing is assumed of any text.
  */
  predicate Allowed(w: World, c: Command) {
    match c
    case Boot(_) => !w.up
    case Crash(during, k) => !during.Crash? && Allowed(w, during) && |w.files.io| <= k
    case Create(spec, rootfs, _) =>
      && w.up && w.nextSequence < INT_RANGE - 1 && spec.limits.Valid()
      && (rootfs.Some? ==> |rootfs.value| < ROOTFS_LEN)
    case Start(_, _, _, launch, _, _, _, _) =>
      w.up && (launch.Launched? ==> 0 < launch.pid < INT_RANGE && launch.pid !in w.used)
    case Exit(_) => true
    case _ => w.up
  }

  predicate ValidRun(w: World, run: seq<Command>)
    decreases |run|
  {
    run == [] || (Allowed(w, run[0]) && ValidRun(Step(w, run[0]), run[1..]))
  }

  function Run(w: World, run: seq<Command>): World
    decreases |run|
  {
    if run == [] then w else Run(Step(w, run[0]), run[1..])
  }
}
