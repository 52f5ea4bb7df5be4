/** What every run of the manager keeps. */
module ManagerInvariant {
  import opened Sequences
  import opened Text
  import opened Metadata
  import opened Reload
  import opened Persistence
  import opened Identity
  import opened Manager
  import RR = RoundRobin

  // ---- the invariant ---------------------------------------------------

  /** How well-behaved the texts of a run are: anything, no line breaks, or no separators at all. */
  datatype Level = Any | OneLine | NoSeparator

  /** A record fits its C types, has a pid if RUNNING and a stack only then; more as the level rises. */
  ghost predicate RecordOk(r: Record, level: Level) {
    && Fits(r)
    && (r.phase == Running ==> r.pid > 0)
    && (r.phase != Running ==> r.stack == None)
    && (!level.Any? ==> Unbroken(r) && 1 <= Number(r) < INT_RANGE - 1 && r.id == FormatId(Number(r)))
    && (level.NoSeparator? ==> Clean(r) && PidOk(r))
  }

  ghost predicate Good(rs: seq<Record>, level: Level) {
    && (forall r <- rs :: RecordOk(r, level))
    && (!level.Any? ==> DistinctIds(rs))
    && (level.NoSeparator? ==> DistinctPids(rs))
  }

  ghost predicate DistinctIds(rs: seq<Record>) {
    forall i, j :: 0 <= i < j < |rs| ==> rs[i].id != rs[j].id
  }

  /** No two records have the same process. */
  ghost predicate DistinctPids(rs: seq<Record>) {
    forall i, j :: 0 <= i < j < |rs| && rs[i].pid > 0 ==> rs[i].pid != rs[j].pid
  }

  ghost predicate Known(rs: seq<Record>, used: set<int>) {
    forall r <- rs :: r.phase == Running ==> r.pid in used
  }

  /** Allocated stacks are owned one to one; all others have been freed, each once. */
  ghost predicate StacksOk(rs: seq<Record>, h: Heap) {
    && (forall i :: 0 <= i < |rs| && rs[i].stack.Some? ==> rs[i].stack.value in h.live)
    && (forall i, j :: 0 <= i < j < |rs| && rs[i].stack.Some? ==> rs[i].stack != rs[j].stack)
    && (forall k <- h.live :: Owned(rs, k))
    && HeapOk(h)
  }

  ghost predicate Owned(rs: seq<Record>, k: nat) {
    exists i :: 0 <= i < |rs| && rs[i].stack == Some(k)
  }

  ghost predicate HeapOk(h: Heap) {
    && (forall k :: k in h.live || k in h.freed <==> 0 <= k < h.next)
    && (forall k <- h.freed :: k !in h.live)
    && (forall i, j :: 0 <= i < j < |h.freed| ==> h.freed[i] != h.freed[j])
  }

  ghost predicate SequenceOk(w: World, level: Level) {
    && 1 <= w.nextSequence
    && (forall n <- w.issued :: n < w.nextSequence)
    && (forall i, j :: 0 <= i < j < |w.issued| ==> w.issued[i] < w.issued[j])
    && (forall r <- w.records :: Number(r) < w.nextSequence)
    && (!level.Any? ==> w.nextSequence < INT_RANGE)
  }

  ghost predicate Listed(rs: seq<Record>, pid: int) {
    exists i :: 0 <= i < |rs| && rs[i].phase == Running && rs[i].pid == pid
  }

  /** Every scheduler target is the pid of a RUNNING record or a dead process. */
  ghost predicate Coupled(rs: seq<Record>, ring: RR.Ring, alive: set<int>, used: set<int>) {
    && RR.Valid(ring)
    && forall p <- ring.targets :: p > 0 && p in used && (p in alive ==> Listed(rs, p))
  }

  ghost predicate SelfWritten(meta: Option<string>, level: Level) {
    meta.Some? ==> exists rs :: Good(rs, level) && meta == Some(Render(rs))
  }

  ghost predicate FilesOk(f: Files, level: Level) {
    (!level.Any? ==> SelfWritten(f.origin.meta, level)) && forall rs <- f.saves :: Good(rs, level)
  }

  ghost predicate SessionOk(w: World, level: Level) {
    && Good(w.records, level) && Known(w.records, w.used)
    && StacksOk(w.records, w.heap) && SequenceOk(w, level)
    && Coupled(w.records, w.ring, w.alive, w.used)
  }

  ghost predicate Inv(w: World, level: Level) {
    w.alive <= w.used && FilesOk(w.files, level) && (w.up ==> SessionOk(w, level))
  }

  // ---- what a level asks of a run --------------------------------------

  predicate TextAllowed(s: string, level: Level) {
    match level
    case Any => true
    case OneLine => Free(s, '\n')
    case NoSeparator => s == "" || CleanText(s)
  }

  predicate Speaks(c: Command, level: Level) {
    match c
    case Create(spec, rootfs, _) =>
      && TextAllowed(spec.name, level) && TextAllowed(spec.hostname, level) && TextAllowed(spec.command, level)
      && (rootfs.Some? ==> TextAllowed(rootfs.value, level) && (level.NoSeparator? ==> rootfs.value != ""))
    case Crash(during, _) => Speaks(during, level)
    case _ => true
  }

  // ---- the file, whatever the texts ------------------------------------

  lemma {:induction false} SaveIsConsistent(w: World, o: SaveOutcome)
    requires Consistent(w.files)
    ensures Consistent(SaveWorld(w, o).files)
  {
    SaveKeepsConsistent(w.files, w.records, Surfaced(w.records, o));
  }

  lemma {:induction false} PollRestKeepsFiles(w: World, i: nat, probes: seq<Probe>)
    requires i <= |w.records|
    ensures PollRest(w, i, probes).0.files == w.files
    decreases |w.records| - i
  {
    if i < |w.records| { PollRestKeepsFiles(SyncNth(w, i, probes).0, i + 1, probes); }
  }

  lemma {:induction false} PollIsConsistent(w: World, p: Polling)
    requires Consistent(w.files)
    ensures Consistent(PollAll(w, p).files)
  {
    PollRestKeepsFiles(w, 0, p.probes);
    SaveIsConsistent(PollRest(w, 0, p.probes).0, p.save);
  }

  lemma {:induction false} HaltIsConsistent(w: World, i: nat, h: Halting, save: SaveOutcome)
    requires Consistent(w.files) && i < |w.records|
    ensures Consistent(HaltAt(w, i, h, save).files)
  {
    SaveIsConsistent(Retire(w, i, true), save);
  }

  lemma {:induction false} HaltRestIsConsistent(w: World, i: nat, halts: seq<(Halting, SaveOutcome)>)
    requires Consistent(w.files) && i <= |w.records|
    ensures Consistent(HaltRest(w, i, halts).files)
    decreases |w.records| - i
  {
    if i < |w.records| {
      if i < |halts| { HaltIsConsistent(w, i, halts[i].0, halts[i].1); }
      HaltRestIsConsistent(HaltNth(w, i, halts), i + 1, halts);
    }
  }

  lemma {:induction false} StartIsConsistent(w: World, i: nat, c: Command)
    requires c.Start? && Consistent(w.files) && i < |w.records|
    ensures Consistent(StartAt(w, i, c).files)
  {
    if c.launch.Launched? {
      var w1 := LaunchAt(w, i, c.launch.pid);
      SaveIsConsistent(w1, c.save);
      HaltIsConsistent(SaveWorld(w1, c.save), i, c.halt, c.haltSave);
    }
  }

  lemma {:induction false} FoundIsConsistent(w: World, c: Command)
    requires (c.Start? || c.Stop? || c.Delete?) && Consistent(w.files)
    ensures Consistent(Step(w, c).files)
  {
    var w1 := PollAll(w, c.polling);
    PollIsConsistent(w, c.polling);
    var found := IndexOfId(w1.records, c.id);
    if found.Some? {
      match c
      case Start(_, _, _, _, _, _, _, _) => StartIsConsistent(w1, found.value, c);
      case Stop(_, _, _, _) => HaltIsConsistent(w1, found.value, c.halt, c.haltSave);
      case Delete(_, _, _) => SaveIsConsistent(w1.(records := RemoveAt(w1.records, found.value)), c.save);
    }
  }

  /** Every command with every outcome, in any state at all, keeps the file's history consistent. */
  lemma {:induction false} StepIsConsistent(w: World, c: Command)
    requires Consistent(w.files)
    ensures Consistent(Step(w, c).files)
    decreases c
  {
    match c
    case Poll(p) => PollIsConsistent(w, p);
    case Create(spec, rootfs, save) =>
      if rootfs.Some? {
        SaveIsConsistent(Reserve(w).(records := w.records + [NewRecord(spec, w.nextSequence, rootfs.value)]), save);
      }
    case Wait(id, reaped, save) =>
      var found := IndexOfId(w.records, id);
      if found.Some? { SaveIsConsistent(Retire(w, found.value, false), save); }
    case Quit(p, halts, save) =>
      PollIsConsistent(w, p);
      HaltRestIsConsistent(PollAll(w, p), 0, halts);
      SaveIsConsistent(HaltRest(PollAll(w, p), 0, halts), save);
    case Crash(during, k) =>
      StepIsConsistent(w, during);
      CutKeepsConsistent(Step(w, during).files, k);
    case Boot(p) =>
      PollIsConsistent(NewSession(w, Reloaded(w)), p);
    case Refresh(_) =>
    case ThreadTurn =>
    case Exit(_) =>
    case _ => FoundIsConsistent(w, c);
  }

  lemma {:induction false} RunIsConsistent(w: World, run: seq<Command>)
    requires Consistent(w.files)
    ensures Consistent(Run(w, run).files)
    decreases |run|
  {
    if run != [] {
      StepIsConsistent(w, run[0]);
      RunIsConsistent(Step(w, run[0]), run[1..]);
    }
  }

  // ---- building blocks keep it -----------------------------------------

  lemma {:induction false} FreeKeepsHeap(h: Heap, k: nat)
    requires HeapOk(h) && k in h.live
    ensures HeapOk(FreeStack(h, Some(k)))
  {
  }

  lemma {:induction false} RetireKeepsStacks(rs: seq<Record>, h: Heap, i: nat)
    requires StacksOk(rs, h) && i < |rs|
    ensures StacksOk(rs[i := rs[i].(phase := Stopped, pid := -1, stack := None)], FreeStack(h, rs[i].stack))
  {
    var rs' := rs[i := rs[i].(phase := Stopped, pid := -1, stack := None)];
    var h' := FreeStack(h, rs[i].stack);
    if rs[i].stack.Some? { FreeKeepsHeap(h, rs[i].stack.value); }
    forall k | k in h'.live ensures Owned(rs', k) {
      assert Owned(rs, k);
      var j :| 0 <= j < |rs| && rs[j].stack == Some(k);
      assert rs'[j].stack == Some(k);
    }
  }

  lemma {:induction false} RetireKeeps(w: World, i: nat, untrack: bool, level: Level)
    requires Inv(w, level) && w.up && i < |w.records| && IsRunning(w.records[i])
    ensures Inv(Retire(w, i, untrack), level)
  {
    var w' := Retire(w, i, untrack);
    var pid := w.records[i].pid;
    RetireKeepsStacks(w.records, w.heap, i);
    RetireKeepsGood(w.records, level, i);
    RR.RemoveKeeps(w.ring, pid);
    assert forall j :: 0 <= j < |w.records| && j != i ==> w'.records[j] == w.records[j] && w.records[j] in w'.records;
    CouplingFollows(w.records, w'.records, w.ring, w.alive, w.used, w'.alive, w.used);
    assert Coupled(w'.records, w'.ring, w'.alive, w'.used);
    assert w.records[i] in w.records;
    NumbersStay(w.records, i, w'.records[i]);
  }

  lemma {:induction false} RetiredIsOk(r: Record, level: Level)
    requires RecordOk(r, level)
    ensures RecordOk(r.(phase := Stopped, pid := -1, stack := None), level)
  {
    assert Number(r.(phase := Stopped, pid := -1, stack := None)) == Number(r);
  }

  lemma {:induction false} RetireKeepsGood(rs: seq<Record>, level: Level, i: nat)
    requires Good(rs, level) && i < |rs|
    ensures Good(rs[i := rs[i].(phase := Stopped, pid := -1, stack := None)], level)
  {
    var r' := rs[i].(phase := Stopped, pid := -1, stack := None);
    assert rs[i] in rs;
    RetiredIsOk(rs[i], level);
    assert forall r <- rs[i := r'] :: r in rs || r == r';
  }

  lemma {:induction false} SaveKeeps(w: World, o: SaveOutcome, level: Level)
    requires Inv(w, level) && Good(w.records, level)
    ensures Inv(SaveWorld(w, o), level)
  {
  }

  lemma {:induction false} SyncKeeps(w: World, i: nat, probe: Probe, level: Level)
    requires Inv(w, level) && w.up && i < |w.records|
    ensures var w' := Sync(w, i, probe).0;
            Inv(w', level) && w'.up && w'.used == w.used && w'.nextSequence == w.nextSequence
  {
    if IsRunning(w.records[i]) && (probe.Reaped? || probe.Vanished?) {
      RetireKeeps(w, i, probe.Reaped?, level);
    }
  }

  lemma {:induction false} PollRestKeeps(w: World, i: nat, probes: seq<Probe>, level: Level)
    requires Inv(w, level) && w.up && i <= |w.records|
    ensures var w' := PollRest(w, i, probes).0;
            Inv(w', level) && w'.up && w'.used == w.used && w'.nextSequence == w.nextSequence
    decreases |w.records| - i
  {
    if i < |w.records| {
      var w1 := SyncNth(w, i, probes).0;
      SyncKeeps(w, i, if i < |probes| then probes[i] else StillThere, level);
      PollRestKeeps(w1, i + 1, probes, level);
      assert PollRest(w, i, probes).0 == PollRest(w1, i + 1, probes).0;
    }
  }

  lemma {:induction false} PollKeeps(w: World, p: Polling, level: Level)
    requires Inv(w, level) && w.up
    ensures var w' := PollAll(w, p);
            Inv(w', level) && w'.up && w'.used == w.used && w'.nextSequence == w.nextSequence
  {
    PollRestKeeps(w, 0, p.probes, level);
    SaveKeeps(PollRest(w, 0, p.probes).0, p.save, level);
  }

  lemma {:induction false} HaltKeeps(w: World, i: nat, h: Halting, save: SaveOutcome, level: Level)
    requires Inv(w, level) && w.up && i < |w.records|
    ensures Inv(HaltAt(w, i, h, save), level) && HaltAt(w, i, h, save).up
  {
    if IsRunning(w.records[i]) && h.Halted? {
      RetireKeeps(w, i, true, level);
      SaveKeeps(Retire(w, i, true), save, level);
    }
  }

  lemma {:induction false} LaunchKeepsStacks(rs: seq<Record>, h: Heap, i: nat, pid: int)
    requires StacksOk(rs, h) && i < |rs| && rs[i].stack == None
    ensures StacksOk(rs[i := rs[i].(phase := Running, pid := pid, stack := Some(h.next))],
                     Allocate(h))
  {
    var rs' := rs[i := rs[i].(phase := Running, pid := pid, stack := Some(h.next))];
    assert h.next !in h.live && h.next !in h.freed;
    forall k | k in h.live + {h.next} ensures Owned(rs', k) {
      if k == h.next {
        assert rs'[i].stack == Some(k);
      } else {
        assert Owned(rs, k);
        var j :| 0 <= j < |rs| && rs[j].stack == Some(k);
        assert rs'[j].stack == Some(k);
      }
    }
  }

  lemma {:induction false} LaunchKeepsRecords(rs: seq<Record>, used: set<int>, i: nat, pid: int, stack: nat, level: Level)
    requires Good(rs, level) && Known(rs, used) && i < |rs| && 0 < pid < INT_RANGE && pid !in used
    ensures Good(rs[i := rs[i].(phase := Running, pid := pid, stack := Some(stack))], level)
  {
    var r' := rs[i].(phase := Running, pid := pid, stack := Some(stack));
    var rs' := rs[i := r'];
    assert rs[i] in rs && Number(r') == Number(rs[i]);
    forall r | r in rs' ensures RecordOk(r, level) { assert r in rs || r == r'; }
    forall j | 0 <= j < |rs| && level.NoSeparator? ensures rs[j].pid != pid { assert rs[j] in rs; }
  }

  lemma {:induction false} CouplingFollows(rs: seq<Record>, rs': seq<Record>, ring: RR.Ring, alive: set<int>, used: set<int>,
                        alive': set<int>, used': set<int>)
    requires Coupled(rs, ring, alive, used) && used <= used'
    requires forall p :: p in ring.targets && p in alive' ==> p in alive
    requires forall i :: 0 <= i < |rs| && rs[i].phase == Running && rs[i].pid in ring.targets && rs[i].pid in alive'
               ==> rs[i] in rs'
    ensures Coupled(rs', ring, alive', used')
  {
    forall p | p in ring.targets && p in alive' ensures Listed(rs', p) {
      assert Listed(rs, p);
      var i :| 0 <= i < |rs| && rs[i].phase == Running && rs[i].pid == p;
      var j :| 0 <= j < |rs'| && rs'[j] == rs[i];
    }
  }

  lemma {:induction false} LaunchKeeps(w: World, i: nat, pid: int, level: Level)
    requires Inv(w, level) && w.up && i < |w.records| && w.records[i].phase != Running
    requires 0 < pid < INT_RANGE && pid !in w.used
    ensures Inv(LaunchAt(w, i, pid), level)
  {
    var w' := LaunchAt(w, i, pid);
    assert w.records[i] in w.records;
    LaunchKeepsStacks(w.records, w.heap, i, pid);
    LaunchKeepsRecords(w.records, w.used, i, pid, w.heap.next, level);
    assert forall j :: 0 <= j < |w.records| && j != i ==> w'.records[j] == w.records[j] && w.records[j] in w'.records;
    CouplingFollows(w.records, w'.records, w.ring, w.alive, w.used, w'.alive, w'.used);
    NumbersStay(w.records, i, w'.records[i]);
  }

  lemma {:induction false} NumbersStay(rs: seq<Record>, i: nat, r': Record)
    requires i < |rs| && r'.id == rs[i].id
    ensures forall r <- rs[i := r'] :: r in rs || (r == r' && Number(r) == Number(rs[i]))
  {
  }

  // ---- every command keeps it ------------------------------------------

  /** What `copy_string` leaves of a text, or of the text that takes its place if it is empty. */
  lemma {:induction false} FieldOk(s: string, instead: string, size: nat, level: Level)
    requires TextAllowed(s, level) && CleanText(instead) && 1 < size
    ensures var t := if s != "" then Copy(s, size) else Copy(instead, size);
            (!level.Any? ==> Free(t, '\n')) && (level.NoSeparator? ==> CleanText(t)) && |t| < size
  {
    CopyIsClean(instead, size);
    if !level.Any? { CopyIsFree(s, size, '\n'); }
    if level.NoSeparator? && s != "" { CopyIsClean(s, size); }
  }

  lemma {:induction false} NewRecordOk(spec: Spec, n: nat, rootfs: string, level: Level)
    requires spec.limits.Valid() && |rootfs| < ROOTFS_LEN && 1 <= n < INT_RANGE - 1
    requires Speaks(Create(spec, Some(rootfs), OpenFails), level)
    ensures var r := NewRecord(spec, n, rootfs); RecordOk(r, level) && Number(r) == n
  {
    var id, r := FormatId(n), NewRecord(spec, n, rootfs);
    IdIsClean(n);
    ScanInvertsFormat(n);
    DefaultCommandIsClean();
    FieldOk(spec.name, id, NAME_LEN, level);
    FieldOk(spec.hostname, id, HOSTNAME_LEN, level);
    FieldOk(spec.command, DEFAULT_COMMAND, COMMAND_LEN, level);
  }

  lemma {:induction false} DefaultCommandIsClean()
    ensures CleanText(DEFAULT_COMMAND) && |DEFAULT_COMMAND| < COMMAND_LEN
  {
    assert DEFAULT_COMMAND == ['/', 'b', 'i', 'n', '/', 's', 'h'];
  }

  lemma {:induction false} ReserveKeeps(w: World, level: Level)
    requires Inv(w, level) && w.up && w.nextSequence < INT_RANGE - 1
    ensures Inv(Reserve(w), level)
  {
    assert forall i :: 0 <= i < |w.issued| ==> w.issued[i] in w.issued;
    assert SequenceOk(Reserve(w), level);
  }

  lemma {:induction false} CreateKeeps(w: World, spec: Spec, rootfs: Option<string>, save: SaveOutcome, level: Level)
    requires Inv(w, level) && Allowed(w, Create(spec, rootfs, save)) && Speaks(Create(spec, rootfs, save), level)
    ensures Inv(CreateStep(w, spec, rootfs, save), level)
  {
    var w1 := Reserve(w);
    ReserveKeeps(w, level);
    if rootfs.Some? {
      var r := NewRecord(spec, w.nextSequence, rootfs.value);
      NewRecordOk(spec, w.nextSequence, rootfs.value, level);
      forall q | q in w.records && !level.Any? ensures q.id != r.id { assert Number(q) < w.nextSequence; }
      AppendKeepsSession(w1, r, level);
      SaveKeeps(w1.(records := w1.records + [r]), save, level);
    }
  }

  lemma {:induction false} AppendKeepsGood(rs: seq<Record>, r: Record, level: Level)
    requires Good(rs, level) && RecordOk(r, level) && r.phase != Running
    requires !level.Any? ==> forall q <- rs :: q.id != r.id
    ensures Good(rs + [r], level)
  {
  }

  lemma {:induction false} AppendKeepsStacks(rs: seq<Record>, r: Record, h: Heap)
    requires StacksOk(rs, h) && r.stack == None
    ensures StacksOk(rs + [r], h)
  {
    forall k | k in h.live ensures Owned(rs + [r], k) {
      assert Owned(rs, k);
      var i :| 0 <= i < |rs| && rs[i].stack == Some(k);
      assert (rs + [r])[i].stack == Some(k);
    }
  }

  lemma {:induction false} RemoveKeepsStacks(rs: seq<Record>, i: nat, h: Heap)
    requires StacksOk(rs, h) && i < |rs| && rs[i].stack == None
    ensures StacksOk(RemoveAt(rs, i), h)
  {
    var rs' := RemoveAt(rs, i);
    forall k | k in h.live ensures Owned(rs', k) {
      assert Owned(rs, k);
      var j :| 0 <= j < |rs| && rs[j].stack == Some(k);
      assert rs'[if j < i then j else j - 1].stack == Some(k);
    }
  }

  lemma {:induction false} RemovedRest(rs: seq<Record>, i: nat)
    requires i < |rs|
    ensures forall r <- RemoveAt(rs, i) :: r in rs
    ensures forall j :: 0 <= j < |rs| && j != i ==> rs[j] in RemoveAt(rs, i)
  {
    var rs' := RemoveAt(rs, i);
    forall j | 0 <= j < |rs| && j != i ensures rs[j] in rs' {
      assert rs'[if j < i then j else j - 1] == rs[j];
    }
  }

  lemma {:induction false} RemoveKeepsGood(rs: seq<Record>, i: nat, level: Level)
    requires Good(rs, level) && i < |rs|
    ensures Good(RemoveAt(rs, i), level)
    ensures !level.Any? ==> forall r <- RemoveAt(rs, i) :: r.id != rs[i].id
  {
    var rs' := RemoveAt(rs, i);
    RemovedRest(rs, i);
    if !level.Any? { RemoveKeepsDistinctIds(rs, i); }
    if level.NoSeparator? { RemoveKeepsDistinctPids(rs, i); }
  }

  lemma {:induction false} RemoveKeepsDistinctIds(rs: seq<Record>, i: nat)
    requires DistinctIds(rs) && i < |rs|
    ensures DistinctIds(RemoveAt(rs, i)) && forall r <- RemoveAt(rs, i) :: r.id != rs[i].id
  {
    var rs' := RemoveAt(rs, i);
    forall j, k | 0 <= j < k < |rs'| ensures rs'[j].id != rs'[k].id { Kept(rs, i, j); Kept(rs, i, k); }
    forall j | 0 <= j < |rs'| ensures rs'[j].id != rs[i].id { Kept(rs, i, j); }
  }

  lemma {:induction false} RemoveKeepsDistinctPids(rs: seq<Record>, i: nat)
    requires DistinctPids(rs) && i < |rs|
    ensures DistinctPids(RemoveAt(rs, i))
  {
    var rs' := RemoveAt(rs, i);
    forall j, k | 0 <= j < k < |rs'| && rs'[j].pid > 0 ensures rs'[j].pid != rs'[k].pid {
      Kept(rs, i, j);
      Kept(rs, i, k);
    }
  }

  lemma {:induction false} Kept(rs: seq<Record>, i: nat, j: nat)
    requires i < |rs| && j < |rs| - 1
    ensures RemoveAt(rs, i)[j] == rs[if j < i then j else j + 1]
  {
  }

  lemma {:induction false} RemoveKeepsSession(w: World, i: nat, level: Level)
    requires SessionOk(w, level) && i < |w.records| && w.records[i].phase != Running
    ensures SessionOk(w.(records := RemoveAt(w.records, i)), level)
    ensures !level.Any? ==> forall r <- RemoveAt(w.records, i) :: r.id != w.records[i].id
  {
    assert w.records[i] in w.records;
    RemovedRest(w.records, i);
    RemoveKeepsStacks(w.records, i, w.heap);
    RemoveKeepsGood(w.records, i, level);
    CouplingFollows(w.records, RemoveAt(w.records, i), w.ring, w.alive, w.used, w.alive, w.used);
  }

  lemma {:induction false} AppendKeepsSession(w: World, r: Record, level: Level)
    requires SessionOk(w, level) && RecordOk(r, level) && r.phase != Running && Number(r) < w.nextSequence
    requires !level.Any? ==> forall q <- w.records :: q.id != r.id
    ensures SessionOk(w.(records := w.records + [r]), level)
  {
    AppendKeepsGood(w.records, r, level);
    AppendKeepsStacks(w.records, r, w.heap);
    CouplingFollows(w.records, w.records + [r], w.ring, w.alive, w.used, w.alive, w.used);
  }

  lemma {:induction false} DeleteAtKeeps(w: World, i: nat, save: SaveOutcome, level: Level)
    requires Inv(w, level) && w.up && i < |w.records| && w.records[i].phase != Running
    ensures var w1 := SaveWorld(w.(records := RemoveAt(w.records, i)), save);
            Inv(w1, level) && Inv(w1.(records := w1.records + [w.records[i]]), level)
  {
    assert w.records[i] in w.records;
    RemoveKeepsSession(w, i, level);
    var w1 := w.(records := RemoveAt(w.records, i));
    SaveKeeps(w1, save, level);
    AppendKeepsSession(w1, w.records[i], level);
  }

  lemma {:induction false} DeleteKeeps(w: World, c: Command, level: Level)
    requires c.Delete? && Inv(w, level) && w.up
    ensures Inv(DeleteStep(w, c), level)
  {
    PollKeeps(w, c.polling, level);
    var w1 := PollAll(w, c.polling);
    var found := IndexOfId(w1.records, c.id);
    if found.Some? && w1.records[found.value].phase != Running {
      assert w1.records[found.value] in w1.records;
      DeleteAtKeeps(w1, found.value, c.save, level);
    }
  }

  lemma {:induction false} AllocateAndFree(h: Heap)
    requires HeapOk(h)
    ensures HeapOk(FreeStack(Allocate(h), Some(h.next))) && FreeStack(Allocate(h), Some(h.next)).live == h.live
  {
    assert forall i :: 0 <= i < |h.freed| ==> h.freed[i] in h.freed;
  }

  lemma {:induction false} StartKeeps(w: World, c: Command, level: Level)
    requires c.Start? && Inv(w, level) && Allowed(w, c)
    ensures Inv(StartStep(w, c), level)
  {
    PollKeeps(w, c.polling, level);
    var w1 := PollAll(w, c.polling);
    var found := IndexOfId(w1.records, c.id);
    if found.Some? && w1.records[found.value].phase != Running { StartAtKeeps(w1, found.value, c, level); }
  }

  lemma {:induction false} StartAtKeeps(w: World, i: nat, c: Command, level: Level)
    requires c.Start? && Inv(w, level) && Allowed(w, c) && i < |w.records| && w.records[i].phase != Running
    ensures Inv(StartAt(w, i, c), level)
  {
    match c.launch
    case NoMemory =>
    case IsolationFails => AllocateAndFree(w.heap);
    case Launched(pid) =>
      LaunchKeeps(w, i, pid, level);
      var w2 := LaunchAt(w, i, pid);
      SaveKeeps(w2, c.save, level);
      var w3 := SaveWorld(w2, c.save);
      HaltKeeps(w3, i, c.halt, c.haltSave, level);
      TrackKeeps(w3, i, level);
  }

  lemma {:induction false} TrackKeeps(w: World, i: nat, level: Level)
    requires Inv(w, level) && w.up && i < |w.records| && IsRunning(w.records[i])
    ensures Inv(w.(ring := RR.Add(w.ring, w.records[i].pid)), level)
  {
    assert w.records[i] in w.records;
    RR.AddKeeps(w.ring, w.records[i].pid);
    assert Listed(w.records, w.records[i].pid);
  }

  lemma {:induction false} WaitKeeps(w: World, id: string, reaped: bool, save: SaveOutcome, level: Level)
    requires Inv(w, level) && w.up
    ensures Inv(WaitStep(w, id, reaped, save), level)
  {
    var found := IndexOfId(w.records, id);
    if found.Some? && IsRunning(w.records[found.value]) {
      RetireKeeps(w, found.value, false, level);
      SaveKeeps(Retire(w, found.value, false), save, level);
    }
  }

  lemma {:induction false} RefreshCouples(rs: seq<Record>, lost: set<nat>, alive: set<int>, used: set<int>)
    requires Good(rs, Any) && Known(rs, used)
    ensures Coupled(rs, RingOf(rs, lost), alive, used)
    ensures forall p <- RingOf(rs, lost).targets :: Listed(rs, p)
  {
    if rs != [] {
      var last := |rs| - 1;
      var rest, r := rs[..last], rs[last];
      assert r in rs && rs == rest + [r];
      RefreshCouples(rest, lost, alive, used);
      RR.AddKeeps(RingOf(rest, lost), r.pid);
      forall p | p in RingOf(rs, lost).targets ensures p > 0 && p in used && Listed(rs, p) {
        if p in RingOf(rest, lost).targets {
          assert Listed(rest, p);
          var i :| 0 <= i < |rest| && rest[i].phase == Running && rest[i].pid == p;
          assert rs[i].pid == p;
        } else {
          assert rs[last].pid == p;
        }
      }
    }
  }

  lemma {:induction false} TurnKeeps(w: World, level: Level)
    requires Inv(w, level) && w.up
    ensures Inv(Step(w, ThreadTurn), level)
    ensures forall p <- Step(w, ThreadTurn).ring.targets :: Listed(w.records, p)
  {
    RR.ApplyKeeps(w.ring, RR.TickE(w.alive));
    RR.PruneKeeps(w.ring, w.alive);
  }

  lemma {:induction false} HaltNthKeeps(w: World, i: nat, halts: seq<(Halting, SaveOutcome)>, level: Level)
    requires Inv(w, level) && w.up && i < |w.records|
    ensures Inv(HaltNth(w, i, halts), level) && HaltNth(w, i, halts).up
  {
    if i < |halts| { HaltKeeps(w, i, halts[i].0, halts[i].1, level); }
  }

  lemma {:induction false} HaltRestKeeps(w: World, i: nat, halts: seq<(Halting, SaveOutcome)>, level: Level)
    requires Inv(w, level) && w.up && i <= |w.records|
    ensures Inv(HaltRest(w, i, halts), level) && HaltRest(w, i, halts).up
    decreases |w.records| - i
  {
    if i < |w.records| {
      var w1 := HaltNth(w, i, halts);
      HaltNthKeeps(w, i, halts, level);
      HaltRestKeeps(w1, i + 1, halts, level);
      assert HaltRest(w, i, halts) == HaltRest(w1, i + 1, halts);
    }
  }

  lemma {:induction false} QuitKeeps(w: World, p: Polling, halts: seq<(Halting, SaveOutcome)>, save: SaveOutcome, level: Level)
    requires Inv(w, level) && w.up
    ensures Inv(QuitStep(w, p, halts, save), level)
  {
    PollKeeps(w, p, level);
    HaltRestKeeps(PollAll(w, p), 0, halts, level);
    SaveKeeps(HaltRest(PollAll(w, p), 0, halts), save, level);
  }

  // ---- restart ---------------------------------------------------------

  /** The file of a consistent history is missing or the rendering of a good list. */
  lemma {:induction false} MetaIsGood(f: Files, level: Level)
    requires !level.Any? && Consistent(f) && FilesOk(f, level)
    ensures SelfWritten(Meta(f), level)
  {
    MetaIsPublished(f);
    if f.saves != [] {
      var last := f.saves[|f.saves| - 1];
      assert last in f.saves;
    }
  }

  lemma {:induction false} RecoverKeepsGood(rs: seq<Record>, alive: set<int>)
    requires Good(rs, NoSeparator)
    ensures Good(RecoverAll(rs, alive), NoSeparator)
  {
    var out := RecoverAll(rs, alive);
    forall i | 0 <= i < |out|
      ensures RecordOk(out[i], NoSeparator) && out[i].id == rs[i].id && (out[i].pid == rs[i].pid || out[i].pid == -1)
    {
      assert rs[i] in rs && Number(out[i]) == Number(rs[i]);
    }
    forall i, j | 0 <= i < j < |out| ensures out[i].id != out[j].id && (out[i].pid > 0 ==> out[i].pid != out[j].pid) {
      assert out[i].id == rs[i].id && out[j].id == rs[j].id;
      assert out[j].pid == rs[j].pid || out[j].pid == -1;
    }
  }

  ghost predicate HasId(rs: seq<Record>, id: string) { exists i :: 0 <= i < |rs| && rs[i].id == id }

  lemma {:induction false} PrependId(first: seq<Record>, more: seq<Record>, id: string)
    requires |first| <= 1 && (first != [] ==> first[0].id == id) && DistinctIds(more)
    requires forall r <- more :: r.id != id
    ensures DistinctIds(first + more)
  {
    var all := first + more;
    forall i, j | 0 <= i < j < |all| ensures all[i].id != all[j].id {
      if i < |first| { assert all[j] == more[j - |first|]; }
    }
  }

  /** Line by line at most one record comes back, with the id it went out with. */
  lemma {:induction false} LoadEachIds(rs: seq<Record>, alive: set<int>)
    requires Good(rs, OneLine)
    ensures DistinctIds(LoadEach(rs, alive))
    ensures forall r <- LoadEach(rs, alive) :: HasId(rs, r.id)
  {
    if rs != [] {
      var first, more := LoadLine(Line(rs[0]), alive), LoadEach(rs[1..], alive);
      RestIsGood(rs);
      LoadEachIds(rs[1..], alive);
      LineKeepsId(rs[0], alive);
      forall r | r in more ensures r.id != rs[0].id && HasId(rs, r.id) {
        var j :| 0 <= j < |rs[1..]| && rs[1..][j].id == r.id;
        assert rs[j + 1].id == r.id;
      }
      PrependId(first, more, rs[0].id);
    }
  }

  lemma {:induction false} LineKeepsId(r: Record, alive: set<int>)
    requires RecordOk(r, OneLine)
    ensures var l := LoadLine(Line(r), alive); |l| <= 1 && (l != [] ==> l[0].id == r.id)
  {
    IdIsClean(Number(r));
    IdComesBack(r);
  }

  lemma {:induction false} RestIsGood(rs: seq<Record>)
    requires rs != [] && Good(rs, OneLine)
    ensures Good(rs[1..], OneLine) && RecordOk(rs[0], OneLine)
  {
    var more := rs[1..];
    assert rs[0] in rs && forall q <- more :: q in rs;
    forall i, j | 0 <= i < j < |more| ensures more[i].id != more[j].id {
      assert more[i] == rs[i + 1] && more[j] == rs[j + 1];
    }
  }

  lemma {:induction false} UnbrokenComesBack(saved: seq<Record>, alive: set<int>)
    requires Good(saved, OneLine)
    ensures Good(Load(Render(saved), alive), OneLine)
  {
    var rs := Load(Render(saved), alive);
    LoadIsLineByLine(saved, alive);
    LoadEachIds(saved, alive);
    LoadedFits(Lines(Render(saved)), alive);
    LoadedIsClean(Lines(Render(saved)), alive);
    forall r | r in rs ensures RecordOk(r, OneLine) {
      var i :| 0 <= i < |saved| && saved[i].id == r.id;
      assert saved[i] in saved && Number(saved[i]) == Number(r);
    }
  }

  /** Reading any file gives a list that is good for the level at which the file was written. */
  lemma {:induction false} LoadedIsGood(w: World, level: Level)
    requires Inv(w, level) && Consistent(w.files)
    ensures var rs := Reloaded(w);
            Good(rs, level) && Known(rs, w.used) && forall r <- rs :: r.stack == None
  {
    if Meta(w.files).None? { return; }
    LoadedFits(Lines(Meta(w.files).value), w.alive);
    if !level.Any? {
      MetaIsGood(w.files, level);
      var saved :| Good(saved, level) && Meta(w.files) == Some(Render(saved));
      if level.OneLine? {
        UnbrokenComesBack(saved, w.alive);
      } else {
        LoadRendered(saved, w.alive);
        RecoverKeepsGood(saved, w.alive);
      }
    }
  }

  lemma {:induction false} FreshSessionOk(w: World, rs: seq<Record>, level: Level)
    requires Good(rs, level) && Known(rs, w.used) && forall r <- rs :: r.stack == None
    ensures SessionOk(NewSession(w, rs), level)
  {
    BumpExceedsAll(1, rs);
    if !level.Any? {
      forall r | r in rs ensures Number(r) < INT_RANGE - 1 { assert RecordOk(r, level); }
      BumpIsTight(1, rs, INT_RANGE - 1);
    }
    assert forall i :: 0 <= i < |rs| ==> rs[i] in rs;
  }

  lemma {:induction false} BootKeeps(w: World, p: Polling, level: Level)
    requires Inv(w, level) && Consistent(w.files) && !w.up
    ensures Inv(BootStep(w, p), level) && BootStep(w, p).up
  {
    var rs := Reloaded(w);
    LoadedIsGood(w, level);
    FreshSessionOk(w, rs, level);
    PollKeeps(NewSession(w, rs), p, level);
  }

  // ---- runs ------------------------------------------------------------

  lemma {:induction false} StopKeeps(w: World, c: Command, level: Level)
    requires c.Stop? && Inv(w, level) && w.up
    ensures Inv(StopStep(w, c), level)
  {
    PollKeeps(w, c.polling, level);
    var w1 := PollAll(w, c.polling);
    var found := IndexOfId(w1.records, c.id);
    if found.Some? { HaltKeeps(w1, found.value, c.halt, c.haltSave, level); }
  }

  lemma {:induction false} StepKeeps(w: World, c: Command, level: Level)
    requires Inv(w, level) && Consistent(w.files) && Allowed(w, c) && Speaks(c, level)
    ensures Inv(Step(w, c), level)
    decreases c
  {
    match c
    case Poll(p) => PollKeeps(w, p, level);
    case Create(spec, rootfs, save) => CreateKeeps(w, spec, rootfs, save, level);
    case Start(_, _, _, _, _, _, _, _) => StartKeeps(w, c, level);
    case Wait(id, reaped, save) => WaitKeeps(w, id, reaped, save, level);
    case Stop(_, _, _, _) => StopKeeps(w, c, level);
    case Delete(_, _, _) => DeleteKeeps(w, c, level);
    case Refresh(lost) => RefreshCouples(w.records, lost, w.alive, w.used);
    case ThreadTurn => TurnKeeps(w, level);
    case Exit(_) =>
    case Quit(p, halts, save) => QuitKeeps(w, p, halts, save, level);
    case Crash(during, k) => StepKeeps(w, during, level);
    case Boot(p) => BootKeeps(w, p, level);
  }

  /** The invariant holds in every state of every run, across crashes and restarts. */
  lemma {:induction false} RunKeeps(w: World, run: seq<Command>, level: Level)
    requires Inv(w, level) && Consistent(w.files) && ValidRun(w, run) && forall c <- run :: Speaks(c, level)
    ensures Inv(Run(w, run), level)
    decreases |run|
  {
    if run != [] {
      assert run[0] in run && forall c <- run[1..] :: c in run;
      StepKeeps(w, run[0], level);
      StepIsConsistent(w, run[0]);
      RunKeeps(Step(w, run[0]), run[1..], level);
    }
  }
}
