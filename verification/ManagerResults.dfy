/** The promises of the manager, read off the invariant for every state of every run. */
module ManagerResults {
  import opened Sequences
  import opened Text
  import opened Metadata
  import opened Reload
  import opened Persistence
  import opened Identity
  import opened Manager
  import opened ManagerInvariant
  import opened ManagerExact
  import RR = RoundRobin
  import CT = CommandText

  /** A run whose texts, and those of the file it starts from, stay within a level. */
  ghost predicate Within(w: World, run: seq<Command>, level: Level) {
    (!level.Any? ==> SelfWritten(w.files.origin.meta, level)) && forall c <- run :: Speaks(c, level)
  }

  lemma {:induction false} Reachable(w: World, run: seq<Command>, level: Level)
    requires Initial(w) && ValidRun(w, run) && Within(w, run, level)
    ensures Inv(Run(w, run), level) && Consistent(Run(w, run).files)
  {
    NoHistoryIsConsistent(w.files);
    RunKeeps(w, run, level);
    RunIsConsistent(w, run);
  }

  lemma {:induction false} AnythingGoes(w: World, run: seq<Command>)
    ensures Within(w, run, Any)
  {
    forall c | c in run ensures Speaks(c, Any) { AnyCommand(c); }
  }

  // ---- stacks and states, whatever the texts ---------------------------

  /**
    Lifecycle.  Whatever the containers are called and whatever file was found: a RUNNING record
    has a pid, any other has no stack, every allocated stack belongs to exactly one record, a
    RUNNING one, and every other allocation of the session has been freed exactly once.
  */
  lemma {:induction false} Lifecycle(w: World, run: seq<Command>)
    requires Initial(w) && ValidRun(w, run) && Run(w, run).up
    ensures var e := Run(w, run);
            && (forall r <- e.records :: r.phase == Running ==> r.pid > 0)
            && (forall r <- e.records :: r.phase != Running ==> r.stack == None)
            && (forall k <- e.heap.live :: exists i :: 0 <= i < |e.records| && e.records[i].stack == Some(k)
                                                        && e.records[i].phase == Running)
            && (forall i, j :: 0 <= i < j < |e.records| && e.records[i].stack.Some? ==>
                  e.records[i].stack != e.records[j].stack)
            && (forall k :: 0 <= k < e.heap.next ==>
                  multiset(e.heap.freed)[k] == if k in e.heap.live then 0 else 1)
  {
    AnythingGoes(w, run);
    Reachable(w, run, Any);
    var e := Run(w, run);
    StacksBelongToRunning(e.records, e.heap);
    forall k | 0 <= k < e.heap.next
      ensures multiset(e.heap.freed)[k] == if k in e.heap.live then 0 else 1
    {
      CountOnce(e.heap.freed, k);
    }
  }

  lemma {:induction false} StacksBelongToRunning(rs: seq<Record>, h: Heap)
    requires Good(rs, Any) && StacksOk(rs, h)
    ensures forall k <- h.live :: exists i :: 0 <= i < |rs| && rs[i].stack == Some(k) && rs[i].phase == Running
  {
    forall k | k in h.live ensures exists i :: 0 <= i < |rs| && rs[i].stack == Some(k) && rs[i].phase == Running {
      assert Owned(rs, k);
      var i :| 0 <= i < |rs| && rs[i].stack == Some(k);
      assert rs[i] in rs;
    }
  }

  /** `start` allocates a stack only for a record that has none. */
  lemma {:induction false} StartNeverOverwrites(w: World, run: seq<Command>, c: Command)
    requires Initial(w) && ValidRun(w, run) && Run(w, run).up && c.Start?
    ensures var w1 := PollAll(Run(w, run), c.polling);
            match IndexOfId(w1.records, c.id)
            case None => true
            case Some(i) => w1.records[i].phase != Running ==> w1.records[i].stack == None
  {
    AnythingGoes(w, run);
    Reachable(w, run, Any);
    PollKeeps(Run(w, run), c.polling, Any);
    var w1 := PollAll(Run(w, run), c.polling);
    match IndexOfId(w1.records, c.id)
    case None =>
    case Some(i) => assert w1.records[i] in w1.records;
  }

  lemma {:induction false} OwnedBySnoc(rest: seq<Record>, r: Record, k: nat)
    ensures Owned(rest + [r], k) <==> Owned(rest, k) || r.stack == Some(k)
  {
    var rs := rest + [r];
    if Owned(rest, k) {
      var i :| 0 <= i < |rest| && rest[i].stack == Some(k);
      assert rs[i].stack == Some(k);
    }
    if r.stack == Some(k) { assert rs[|rest|].stack == Some(k); }
  }

  ghost predicate FreesOwned(h: Heap, h': Heap, rs: seq<Record>) {
    HeapOk(h') && h'.next == h.next && forall k :: k in h'.live <==> k in h.live && !Owned(rs, k)
  }

  lemma {:induction false} FreesOneMore(h: Heap, h1: Heap, rest: seq<Record>, r: Record)
    requires FreesOwned(h, h1, rest)
    requires r.stack.Some? ==> r.stack.value in h.live && !Owned(rest, r.stack.value)
    ensures FreesOwned(h, FreeStack(h1, r.stack), rest + [r])
  {
    if r.stack.Some? { FreeKeepsHeap(h1, r.stack.value); }
    forall k: nat ensures Owned(rest + [r], k) <==> Owned(rest, k) || r.stack == Some(k) { OwnedBySnoc(rest, r, k); }
  }

  lemma {:induction false} FreeAllFreesAll(rs: seq<Record>, h: Heap)
    requires HeapOk(h)
    requires forall i :: 0 <= i < |rs| && rs[i].stack.Some? ==> rs[i].stack.value in h.live
    requires forall i, j :: 0 <= i < j < |rs| && rs[i].stack.Some? ==> rs[i].stack != rs[j].stack
    ensures FreesOwned(h, FreeAll(h, rs), rs)
  {
    if rs != [] {
      var last := |rs| - 1;
      var rest, r := rs[..last], rs[last];
      FreeAllFreesAll(rest, h);
      assert rs == rest + [r];
      FreesOneMore(h, FreeAll(h, rest), rest, r);
    }
  }

  /** At exit every stack the session ever allocated has been freed, once. */
  lemma {:induction false} QuitLeaksNothing(w: World, run: seq<Command>, c: Command)
    requires Initial(w) && ValidRun(w, run) && Run(w, run).up && c.Quit?
    ensures var e := Step(Run(w, run), c);
            e.heap.live == {} && forall k :: 0 <= k < e.heap.next ==> multiset(e.heap.freed)[k] == 1
  {
    AnythingGoes(w, run);
    Reachable(w, run, Any);
    QuitFreesAll(Run(w, run), c.polling, c.halts, c.save);
  }

  lemma {:induction false} QuitFreesAll(v: World, p: Polling, halts: seq<(Halting, SaveOutcome)>, save: SaveOutcome)
    requires Inv(v, Any) && v.up
    ensures var h := QuitStep(v, p, halts, save).heap;
            h.live == {} && forall k :: 0 <= k < h.next ==> multiset(h.freed)[k] == 1
  {
    PollKeeps(v, p, Any);
    HaltRestKeeps(PollAll(v, p), 0, halts, Any);
    var v1 := HaltRest(PollAll(v, p), 0, halts);
    FreeAllFreesAll(v1.records, v1.heap);
    var h := QuitStep(v, p, halts, save).heap;
    assert h == FreeAll(v1.heap, v1.records);
    forall k | 0 <= k < h.next ensures multiset(h.freed)[k] == 1 { CountOnce(h.freed, k); }
  }

  /**
    Manager and scheduler agree: every target is the pid of a RUNNING record or a process that
    is gone, and once the thread has pruned only RUNNING records remain.
  */
  lemma {:induction false} TargetsAreRunning(w: World, run: seq<Command>)
    requires Initial(w) && ValidRun(w, run) && Run(w, run).up
    ensures var e := Run(w, run);
            && RR.Valid(e.ring)
            && (forall p <- e.ring.targets :: Listed(e.records, p) || p !in e.alive)
            && (forall p <- Step(e, ThreadTurn).ring.targets :: Listed(e.records, p))
  {
    AnythingGoes(w, run);
    Reachable(w, run, Any);
    TurnKeeps(Run(w, run), Any);
  }

  // ---- pids ------------------------------------------------------------

  /** With texts free of tabs and line breaks RUNNING is having a pid, and any other record has pid -1. */
  lemma {:induction false} RunningIffPid(w: World, run: seq<Command>)
    requires Initial(w) && ValidRun(w, run) && Run(w, run).up && Within(w, run, NoSeparator)
    ensures var e := Run(w, run);
            && (forall r <- e.records :: r.phase == Running <==> r.pid > 0)
            && (forall r <- e.records :: r.phase != Running ==> r.pid == -1)
  {
    Reachable(w, run, NoSeparator);
  }

  /** A name that can be typed in quotes and brings its container back as CREATED with pid 7. */
  lemma {:induction false} TabbedNameBreaksPids(spec: Spec, n: nat, rootfs: string, alive: set<int>)
    requires spec.name == FORGED_NAME && spec.limits.Valid() && 1 <= n < INT_RANGE - 1
    requires CleanText(spec.hostname) && TextAllowed(spec.command, NoSeparator)
    requires CleanText(rootfs) && |rootfs| < ROOTFS_LEN
    ensures CT.Typable(spec.name)
    ensures var loaded := Load(Render([NewRecord(spec, n, rootfs)]), alive);
            |loaded| == 1 && loaded[0].phase == Created && loaded[0].pid == 7
  {
    var r := NewRecord(spec, n, rootfs);
    ForgedNameFits();
    FieldOk(spec.hostname, DEFAULT_COMMAND, HOSTNAME_LEN, NoSeparator) by { DefaultCommandIsClean(); }
    FieldOk(spec.command, DEFAULT_COMMAND, COMMAND_LEN, NoSeparator) by { DefaultCommandIsClean(); }
    DefaultCommandIsClean();
    IdIsClean(n);
    CreatedWithPidSeven(r);
    NewRecordOk(spec, n, rootfs, OneLine);
    LoadIsLineByLine([r], alive);
    assert [r][1..] == [];
  }

  lemma {:induction false} ForgedNameFits()
    ensures |FORGED_NAME| < NAME_LEN && Free(FORGED_NAME, '"') && Free(FORGED_NAME, '\n') && FORGED_NAME != ""
  {
  }

  // ---- the file --------------------------------------------------------

  /**
    Crash consistency.  For every world, every list of commands and every text: at every prefix
    of the disk's history, also in the middle of a save or of start-up, `containers.meta` is the
    original file or the complete rendering of the list at the last save that had succeeded.
  */
  lemma {:induction false} CrashConsistency(w: World, run: seq<Command>, k: nat)
    requires w.files.io == [] && w.files.saves == [] && k <= |Run(w, run).files.io|
    ensures var f := Run(w, run).files;
            var n := Renames(f.io[..k]);
            n <= |f.saves| && Replay(f.origin, f.io[..k]).meta == Published(f, n)
  {
    NoHistoryIsConsistent(w.files);
    RunIsConsistent(w, run);
    ReadConsistency(Run(w, run).files, k);
  }

  lemma {:induction false} ReadConsistency(f: Files, k: nat)
    requires Consistent(f) && k <= |f.io|
    ensures var n := Renames(f.io[..k]); n <= |f.saves| && Replay(f.origin, f.io[..k]).meta == Published(f, n)
  {
    assert ConsistentAt(f, k);
  }

  /**
    Starting up after anything at all finds the list that was saved last, and brings it back
    as it was if and only if none of its texts holds a separator.
  */
  lemma {:induction false} RestartRestoresIff(w: World, run: seq<Command>)
    requires Initial(w) && ValidRun(w, run) && Run(w, run).files.saves != []
    ensures var e := Run(w, run);
            var last := e.files.saves[|e.files.saves| - 1];
            && Meta(e.files) == Some(Render(last))
            && (Reloaded(e) == RecoverAll(last, e.alive) <==> forall r <- last :: Clean(r))
  {
    AnythingGoes(w, run);
    Reachable(w, run, Any);
    LastSaveLoads(Run(w, run));
  }

  lemma {:induction false} LastSaveLoads(e: World)
    requires Inv(e, Any) && Consistent(e.files) && e.files.saves != []
    ensures var last := e.files.saves[|e.files.saves| - 1];
            && Meta(e.files) == Some(Render(last))
            && (Reloaded(e) == RecoverAll(last, e.alive) <==> forall r <- last :: Clean(r))
  {
    MetaIsPublished(e.files);
    var last := e.files.saves[|e.files.saves| - 1];
    assert last in e.files.saves;
    RoundTripIff(last, e.alive);
  }

  // ---- reconciliation --------------------------------------------------

  /** Runs with clean texts do not share processes. */
  lemma {:induction false} BootReconciles(w: World, run: seq<Command>, p: Polling)
    requires Initial(w) && ValidRun(w, run) && !Run(w, run).up && Within(w, run, NoSeparator)
    ensures AllRunningAlive(BootStep(Run(w, run), p))
  {
    Reachable(w, run, NoSeparator);
    CleanBootReconciles(Run(w, run), p);
  }

  lemma {:induction false} CleanBootReconciles(e: World, p: Polling)
    requires Inv(e, NoSeparator) && Consistent(e.files)
    ensures AllRunningAlive(BootStep(e, p))
  {
    LoadedIsGood(e, NoSeparator);
    ProcessesAreOwn(Reloaded(e));
    BootReconcilesIff(e);
  }

  lemma {:induction false} ProcessesAreOwn(rs: seq<Record>)
    requires Good(rs, NoSeparator)
    ensures OwnProcesses(rs)
  {
    forall i, j | 0 <= i < j < |rs| && rs[i].phase == Running ensures rs[i].pid != rs[j].pid {
      assert rs[i] in rs;
    }
  }

  // ---- ids -------------------------------------------------------------

  /**
    Ids are pairwise distinct, the sequence is beyond all of them, and a session never repeats
    one, as long as no text holds a line break.
  */
  lemma {:induction false} IdsUnique(w: World, run: seq<Command>)
    requires Initial(w) && ValidRun(w, run) && Run(w, run).up && Within(w, run, OneLine)
    ensures var e := Run(w, run);
            && (forall i, j :: 0 <= i < j < |e.records| ==> e.records[i].id != e.records[j].id)
            && (forall r <- e.records :: 1 <= Number(r) < e.nextSequence && r.id == FormatId(Number(r)))
  {
    Reachable(w, run, OneLine);
  }

  /** No session issues an id twice, whatever the texts. */
  lemma {:induction false} IssuedOnce(w: World, run: seq<Command>)
    requires Initial(w) && ValidRun(w, run) && Run(w, run).up
    ensures var e := Run(w, run);
            forall i, j :: 0 <= i < j < |e.issued| ==> FormatId(e.issued[i]) != FormatId(e.issued[j])
  {
    AnythingGoes(w, run);
    Reachable(w, run, Any);
    var e := Run(w, run);
    forall i, j | 0 <= i < j < |e.issued| ensures FormatId(e.issued[i]) != FormatId(e.issued[j]) {
      IdsAreDistinct(e.issued[i], e.issued[j]);
    }
  }

  /** A delete whose save fails loses nothing but moves the record to the end. */
  lemma {:induction false} FailedDeleteReorders(w: World, c: Command, i: nat)
    requires c.Delete? && c.id != "" && IndexOfId(PollAll(w, c.polling).records, c.id) == Some(i)
    requires PollAll(w, c.polling).records[i].phase != Running
    requires var w1 := PollAll(w, c.polling); !SaveOk(w1.(records := RemoveAt(w1.records, i)), c.save)
    ensures var rs := PollAll(w, c.polling).records;
            var rs' := DeleteStep(w, c).records;
            rs' == RemoveAt(rs, i) + [rs[i]] && multiset(rs') == multiset(rs)
  {
    MovedToEnd(PollAll(w, c.polling).records, i);
  }

  /**
    A typed command reaches exec word for word: through the prompt, the join, the record, the
    file, a restart and the child's own split.
  */
  lemma {:induction false} CommandReachesExec(line: string, k: nat, spec: Spec, n: nat, rootfs: string, alive: set<int>)
    requires |line| < CT.LINE_SIZE && 4 <= k
    requires Speaks(Create(spec, Some(rootfs), OpenFails), NoSeparator)
    requires spec.limits.Valid() && |rootfs| < ROOTFS_LEN && 1 <= n < INT_RANGE - 1
    ensures var args := CT.ParseCommand(line, CT.MAX_ARGS);
            k < |args| && spec.command == Join(args[k..], ' ') && (forall w <- args[k..] :: Word(w, ' ')) ==>
              var loaded := Load(Render([NewRecord(spec, n, rootfs)]), alive);
              |loaded| == 1 && CT.BuildExecArgv(loaded[0].command) == CT.Argv(args[k..])
  {
    var args := CT.ParseCommand(line, CT.MAX_ARGS);
    if k < |args| && spec.command == Join(args[k..], ' ') && forall w <- args[k..] :: Word(w, ' ') {
      CT.CommandNeverTooLong(line, k);
      CT.CommandRoundTrip(line, k);
      CommandComesBack(spec, n, rootfs, alive);
    }
  }

  lemma {:induction false} CommandComesBack(spec: Spec, n: nat, rootfs: string, alive: set<int>)
    requires Speaks(Create(spec, Some(rootfs), OpenFails), NoSeparator)
    requires spec.limits.Valid() && |rootfs| < ROOTFS_LEN && 1 <= n < INT_RANGE - 1
    requires |spec.command| < COMMAND_LEN && spec.command != ""
    ensures var loaded := Load(Render([NewRecord(spec, n, rootfs)]), alive);
            |loaded| == 1 && loaded[0].command == spec.command
  {
    NewRecordOk(spec, n, rootfs, NoSeparator);
    var r := NewRecord(spec, n, rootfs);
    CommandIsKept(spec, n, rootfs);
    LoadRendered([r], alive);
    assert RecoverAll([r], alive)[0] == Recover(r, alive);
  }

  lemma {:induction false} CommandIsKept(spec: Spec, n: nat, rootfs: string)
    requires |spec.command| < COMMAND_LEN && spec.command != ""
    ensures NewRecord(spec, n, rootfs).command == spec.command
  {
  }
}
