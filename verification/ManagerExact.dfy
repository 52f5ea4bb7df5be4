/**
  Three promises that depend on what `containers.meta` says: only RUNNING records have a pid,
  ids are distinct, start-up leaves no RUNNING record without a process.  For each the exact
  condition on the file, for every text and every run.
*/
module ManagerExact {
  import opened Sequences
  import opened Text
  import opened Metadata
  import opened Reload
  import opened Persistence
  import opened Identity
  import opened Manager
  import opened ManagerInvariant

  /** Before the first session; nothing is said about the file, which may be anybody's. */
  ghost predicate Initial(w: World) {
    !w.up && w.records == [] && w.alive <= w.used && w.files.io == [] && w.files.saves == []
  }

  lemma {:induction false} NoHistoryIsConsistent(f: Files)
    requires f.io == [] && f.saves == []
    ensures Consistent(f)
  {
    assert forall k :: 0 <= k <= 0 ==> f.io[..k] == [];
  }

  lemma {:induction false} AnyCommand(c: Command)
    ensures Speaks(c, Any)
    decreases c
  {
    if c.Crash? { AnyCommand(c.during); }
  }

  // ---- pids, exactly ---------------------------------------------------

  /** In every state of the run only RUNNING records have a pid. */
  ghost predicate AlwaysPidsOk(w: World, run: seq<Command>)
    decreases |run|
  {
    PidsOk(w.records) && (run != [] ==> AlwaysPidsOk(Step(w, run[0]), run[1..]))
  }

  /** The third field of every accepted line is -1 unless the sixth is RUNNING. */
  ghost predicate ReadsWell(w: World) { Meta(w.files).Some? ==> PidFieldsOk(Lines(Meta(w.files).value)) }

  /** So it is in the file at every start-up of the run. */
  ghost predicate BootsReadWell(w: World, run: seq<Command>)
    decreases |run|
  {
    run != [] ==> (run[0].Boot? ==> ReadsWell(w)) && BootsReadWell(Step(w, run[0]), run[1..])
  }

  lemma {:induction false} UpdatePids(rs: seq<Record>, i: nat, r: Record)
    requires i < |rs| && PidOk(rs[i]) && PidOk(r)
    ensures PidsOk(rs[i := r]) <==> PidsOk(rs)
  {
    forall j | 0 <= j < |rs| && PidsOk(rs[i := r]) ensures PidOk(rs[j]) { assert j != i ==> rs[i := r][j] in rs[i := r]; }
  }

  lemma {:induction false} PollKeepsPids(w: World, i: nat, probes: seq<Probe>)
    requires i <= |w.records|
    ensures PidsOk(PollRest(w, i, probes).0.records) <==> PidsOk(w.records)
    decreases |w.records| - i
  {
    if i < |w.records| {
      var r := w.records[i];
      if IsRunning(r) { UpdatePids(w.records, i, r.(phase := Stopped, pid := -1, stack := None)); }
      PollKeepsPids(SyncNth(w, i, probes).0, i + 1, probes);
    }
  }

  lemma {:induction false} HaltKeepsPids(w: World, i: nat, h: Halting, save: SaveOutcome)
    requires i < |w.records| && PidsOk(w.records)
    ensures PidsOk(HaltAt(w, i, h, save).records)
  {
    var r := w.records[i];
    if IsRunning(r) { UpdatePids(w.records, i, r.(phase := Stopped, pid := -1, stack := None)); }
  }

  lemma {:induction false} StartKeepsPids(w: World, i: nat, c: Command)
    requires c.Start? && i < |w.records| && PidsOk(w.records)
    ensures PidsOk(StartAt(w, i, c).records)
  {
    if c.launch.Launched? {
      var w1 := LaunchAt(w, i, c.launch.pid);
      assert w.records[i] in w.records;
      UpdatePids(w.records, i, w1.records[i]);
      HaltKeepsPids(SaveWorld(w1, c.save), i, c.halt, c.haltSave);
    }
  }

  lemma {:induction false} DeleteKeepsPids(rs: seq<Record>, i: nat)
    requires i < |rs| && PidsOk(rs)
    ensures PidsOk(RemoveAt(rs, i)) && PidsOk(RemoveAt(rs, i) + [rs[i]])
  {
    RemovedRest(rs, i);
    PidsOfConcat(RemoveAt(rs, i), [rs[i]]);
  }

  lemma {:induction false} FoundKeepsPids(w: World, c: Command)
    requires (c.Start? || c.Stop? || c.Delete?) && PidsOk(w.records)
    ensures PidsOk(Step(w, c).records)
  {
    PollKeepsPids(w, 0, c.polling.probes);
    var w1 := PollAll(w, c.polling);
    var found := IndexOfId(w1.records, c.id);
    if found.Some? {
      match c
      case Start(_, _, _, _, _, _, _, _) => StartKeepsPids(w1, found.value, c);
      case Stop(_, _, _, _) => HaltKeepsPids(w1, found.value, c.halt, c.haltSave);
      case Delete(_, _, _) => DeleteKeepsPids(w1.records, found.value);
    }
  }

  lemma {:induction false} CreateKeepsPids(w: World, spec: Spec, rootfs: string, save: SaveOutcome)
    requires PidsOk(w.records)
    ensures PidsOk(CreateStep(w, spec, Some(rootfs), save).records)
  {
    PidsOfConcat(w.records, [NewRecord(spec, w.nextSequence, rootfs)]);
  }

  lemma {:induction false} WaitKeepsPids(w: World, id: string, reaped: bool, save: SaveOutcome)
    requires PidsOk(w.records)
    ensures PidsOk(WaitStep(w, id, reaped, save).records)
  {
    var found := IndexOfId(w.records, id);
    if found.Some? && IsRunning(w.records[found.value]) {
      var r := w.records[found.value];
      UpdatePids(w.records, found.value, r.(phase := Stopped, pid := -1, stack := None));
    }
  }

  lemma {:induction false} BootPidsIff(w: World, p: Polling)
    ensures PidsOk(BootStep(w, p).records) <==> ReadsWell(w)
  {
    PollKeepsPids(NewSession(w, Reloaded(w)), 0, p.probes);
    if Meta(w.files).Some? { LoadedPidsIff(Lines(Meta(w.files).value), w.alive); }
  }

  /** Only start-up can break it, and exactly by what it reads. */
  lemma {:induction false} StepPidsIff(w: World, c: Command)
    requires PidsOk(w.records)
    ensures PidsOk(Step(w, c).records) <==> (c.Boot? ==> ReadsWell(w))
  {
    match c
    case Poll(p) => PollKeepsPids(w, 0, p.probes);
    case Create(spec, rootfs, save) =>
      if rootfs.Some? { CreateKeepsPids(w, spec, rootfs.value, save); }
    case Wait(id, reaped, save) => WaitKeepsPids(w, id, reaped, save);
    case Boot(p) => BootPidsIff(w, p);
    case Refresh(_) =>
    case ThreadTurn =>
    case Exit(_) =>
    case Quit(_, _, _) =>
    case Crash(_, _) =>
    case _ => FoundKeepsPids(w, c);
  }

  /**
    Any other record has pid -1, in every state of every run of any commands whatever, if and
    only if each start-up of the run finds a file in which every line says so.
  */
  lemma {:induction false} PidsIff(w: World, run: seq<Command>)
    requires PidsOk(w.records)
    ensures AlwaysPidsOk(w, run) <==> BootsReadWell(w, run)
    decreases |run|
  {
    if run != [] {
      StepPidsIff(w, run[0]);
      if PidsOk(Step(w, run[0]).records) { PidsIff(Step(w, run[0]), run[1..]); }
    }
  }

  // ---- ids, exactly ----------------------------------------------------

  ghost predicate SameIds(a: seq<Record>, b: seq<Record>) {
    |a| == |b| && forall i :: 0 <= i < |a| ==> a[i].id == b[i].id
  }

  lemma {:induction false} PollSameIds(w: World, i: nat, probes: seq<Probe>)
    requires i <= |w.records|
    ensures SameIds(PollRest(w, i, probes).0.records, w.records)
    decreases |w.records| - i
  {
    if i < |w.records| { PollSameIds(SyncNth(w, i, probes).0, i + 1, probes); }
  }

  lemma {:induction false} SameIdsDistinct(a: seq<Record>, b: seq<Record>)
    requires SameIds(a, b)
    ensures DistinctIds(a) <==> DistinctIds(b)
  {
    if DistinctIds(a) { forall i, j | 0 <= i < j < |b| ensures b[i].id != b[j].id { assert a[i].id != a[j].id; } }
    if DistinctIds(b) { forall i, j | 0 <= i < j < |a| ensures a[i].id != a[j].id { assert b[i].id != b[j].id; } }
  }

  lemma {:induction false} MovedStaysDistinct(rs: seq<Record>, i: nat)
    requires DistinctIds(rs) && i < |rs|
    ensures DistinctIds(RemoveAt(rs, i)) && DistinctIds(RemoveAt(rs, i) + [rs[i]])
  {
    RemoveKeepsDistinctIds(rs, i);
  }

  lemma {:induction false} HaltKeepsIds(w: World, i: nat, h: Halting, save: SaveOutcome)
    requires i < |w.records| && DistinctIds(w.records)
    ensures DistinctIds(HaltAt(w, i, h, save).records)
  {
    SameIdsDistinct(HaltAt(w, i, h, save).records, w.records);
  }

  lemma {:induction false} StartKeepsIds(w: World, i: nat, c: Command)
    requires c.Start? && i < |w.records| && DistinctIds(w.records)
    ensures DistinctIds(StartAt(w, i, c).records)
  {
    if c.launch.Launched? {
      var w1 := LaunchAt(w, i, c.launch.pid);
      SameIdsDistinct(w1.records, w.records);
      HaltKeepsIds(SaveWorld(w1, c.save), i, c.halt, c.haltSave);
    }
  }

  lemma {:induction false} FoundKeepsIds(w: World, c: Command)
    requires (c.Start? || c.Stop? || c.Delete?) && DistinctIds(w.records)
    ensures DistinctIds(Step(w, c).records)
  {
    PollSameIds(w, 0, c.polling.probes);
    var w1 := PollAll(w, c.polling);
    SameIdsDistinct(w1.records, w.records);
    var found := IndexOfId(w1.records, c.id);
    if found.Some? {
      match c
      case Start(_, _, _, _, _, _, _, _) => StartKeepsIds(w1, found.value, c);
      case Stop(_, _, _, _) => HaltKeepsIds(w1, found.value, c.halt, c.haltSave);
      case Delete(_, _, _) => MovedStaysDistinct(w1.records, found.value);
    }
  }

  lemma {:induction false} CreateKeepsIds(w: World, spec: Spec, rootfs: string)
    requires SequenceOk(w, Any) && DistinctIds(w.records) && w.nextSequence < INT_RANGE
    ensures DistinctIds(w.records + [NewRecord(spec, w.nextSequence, rootfs)])
  {
    var r := NewRecord(spec, w.nextSequence, rootfs);
    ScanInvertsFormat(w.nextSequence);
    forall q | q in w.records ensures q.id != r.id { assert Number(q) < w.nextSequence == Number(r); }
  }

  /** The first fields of the accepted lines differ. */
  ghost predicate ReadsDistinctIds(w: World) {
    Meta(w.files).Some? ==>
      var ids := FirstFields(Lines(Meta(w.files).value));
      forall i, j :: 0 <= i < j < |ids| ==> ids[i] != ids[j]
  }

  lemma {:induction false} ReloadedIdsIff(w: World)
    ensures DistinctIds(Reloaded(w)) <==> ReadsDistinctIds(w)
  {
    if Meta(w.files).Some? {
      var lines := Lines(Meta(w.files).value);
      LoadedIds(lines, w.alive);
      var ids, rs := FirstFields(lines), Reloaded(w);
      if DistinctIds(rs) { forall i, j | 0 <= i < j < |ids| ensures ids[i] != ids[j] { assert rs[i].id != rs[j].id; } }
    }
  }

  lemma {:induction false} StepIdsIff(w: World, c: Command)
    requires (w.up ==> SequenceOk(w, Any)) && Allowed(w, c) && DistinctIds(w.records)
    ensures DistinctIds(Step(w, c).records) <==> (c.Boot? ==> ReadsDistinctIds(w))
  {
    match c
    case Poll(p) =>
      PollSameIds(w, 0, p.probes);
      SameIdsDistinct(PollAll(w, p).records, w.records);
    case Create(spec, rootfs, save) => if rootfs.Some? { CreateKeepsIds(w, spec, rootfs.value); }
    case Wait(id, reaped, save) => SameIdsDistinct(WaitStep(w, id, reaped, save).records, w.records);
    case Boot(p) =>
      var w1 := NewSession(w, Reloaded(w));
      PollSameIds(w1, 0, p.probes);
      SameIdsDistinct(PollAll(w1, p).records, w1.records);
      ReloadedIdsIff(w);
    case Refresh(_) =>
    case ThreadTurn =>
    case Exit(_) =>
    case Quit(_, _, _) =>
    case Crash(_, _) =>
    case _ => FoundKeepsIds(w, c);
  }

  ghost predicate AlwaysDistinctIds(w: World, run: seq<Command>)
    decreases |run|
  {
    DistinctIds(w.records) && (run != [] ==> AlwaysDistinctIds(Step(w, run[0]), run[1..]))
  }

  ghost predicate BootsReadDistinctIds(w: World, run: seq<Command>)
    decreases |run|
  {
    run != [] ==> (run[0].Boot? ==> ReadsDistinctIds(w)) && BootsReadDistinctIds(Step(w, run[0]), run[1..])
  }

  lemma {:induction false} IdsIffFrom(w: World, run: seq<Command>)
    requires Inv(w, Any) && Consistent(w.files) && ValidRun(w, run) && DistinctIds(w.records)
    ensures AlwaysDistinctIds(w, run) <==> BootsReadDistinctIds(w, run)
    decreases |run|
  {
    if run != [] {
      StepIdsIff(w, run[0]);
      if DistinctIds(Step(w, run[0]).records) {
        AnyCommand(run[0]);
        StepKeeps(w, run[0], Any);
        StepIsConsistent(w, run[0]);
        IdsIffFrom(Step(w, run[0]), run[1..]);
      }
    }
  }

  /**
    Ids are pairwise distinct in every state of a run if and only if each start-up of the run
    finds a file whose accepted lines start with different ids: new ids never collide, not even
    with those of a foreign file.
  */
  lemma {:induction false} IdsIff(w: World, run: seq<Command>)
    requires Initial(w) && ValidRun(w, run)
    ensures AlwaysDistinctIds(w, run) <==> BootsReadDistinctIds(w, run)
  {
    NoHistoryIsConsistent(w.files);
    IdsIffFrom(w, run);
  }

  // ---- reconciliation --------------------------------------------------

  ghost predicate AllRunningAlive(w: World) { forall r <- w.records :: r.phase == Running ==> r.pid in w.alive }

  ghost predicate OwnProcesses(rs: seq<Record>) {
    forall i, j :: 0 <= i < j < |rs| && rs[i].phase == Running && rs[j].phase == Running ==> rs[i].pid != rs[j].pid
  }

  lemma {:induction false} SyncKeepsAlive(w: World, i: nat, probe: Probe)
    requires OwnProcesses(w.records) && i < |w.records| && AllRunningAlive(w)
    ensures AllRunningAlive(Sync(w, i, probe).0) && OwnProcesses(Sync(w, i, probe).0.records)
  {
    if IsRunning(w.records[i]) && (probe.Reaped? || probe.Vanished?) {
      var w' := Retire(w, i, probe.Reaped?);
      forall j | 0 <= j < |w'.records| && w'.records[j].phase == Running ensures w'.records[j].pid in w'.alive {
        assert w.records[j] in w.records;
      }
    }
  }

  lemma {:induction false} PollRestKeepsAlive(w: World, i: nat, probes: seq<Probe>)
    requires OwnProcesses(w.records) && i <= |w.records| && AllRunningAlive(w)
    ensures AllRunningAlive(PollRest(w, i, probes).0)
    decreases |w.records| - i
  {
    if i < |w.records| {
      SyncKeepsAlive(w, i, if i < |probes| then probes[i] else StillThere);
      PollRestKeepsAlive(SyncNth(w, i, probes).0, i + 1, probes);
    }
  }

  /** Everyone answers that they are still there but number `j`. */
  function OneVanishes(n: nat, j: nat): (probes: seq<Probe>)
    ensures |probes| == n && forall k :: 0 <= k < n ==> probes[k] == if k == j then Vanished else StillThere
  {
    seq(n, k => if k == j then Vanished else StillThere)
  }

  lemma {:induction false} QuietPoll(w: World, i: nat, probes: seq<Probe>)
    requires i <= |w.records| && forall k :: i <= k < |probes| ==> probes[k] == StillThere
    ensures PollRest(w, i, probes).0 == w
    decreases |w.records| - i
  {
    if i < |w.records| { QuietPoll(w, i + 1, probes); }
  }

  lemma {:induction false} OneRetires(w: World, i: nat, j: nat)
    requires i <= j < |w.records| && IsRunning(w.records[j])
    ensures PollRest(w, i, OneVanishes(|w.records|, j)).0 == Retire(w, j, false)
    decreases j - i
  {
    var probes := OneVanishes(|w.records|, j);
    if i < j { OneRetires(w, i + 1, j); } else { QuietPoll(Retire(w, j, false), j + 1, probes); }
  }

  lemma {:induction false} LoadedRunningAlive(w: World)
    ensures forall r <- Reloaded(w) :: r.phase == Running ==> 0 < r.pid && r.pid in w.alive
  {
    if Meta(w.files).Some? { LoadedFits(Lines(Meta(w.files).value), w.alive); }
  }

  /**
    Start-up reconciles.  Whatever the file and however the poll turns out, everything listed as
    RUNNING afterwards has a process, if and only if no two RUNNING records share one: of two
    that do, the second may be found dead after the first was found alive.
  */
  lemma {:induction false} BootReconcilesIff(e: World)
    ensures (forall p :: AllRunningAlive(BootStep(e, p))) <==> OwnProcesses(Reloaded(e))
  {
    var rs := Reloaded(e);
    var w := NewSession(e, rs);
    LoadedRunningAlive(e);
    if OwnProcesses(rs) {
      forall p ensures AllRunningAlive(BootStep(e, p)) { PollRestKeepsAlive(w, 0, p.probes); }
    } else {
      var i, j :| 0 <= i < j < |rs| && rs[i].phase == Running && rs[j].phase == Running && rs[i].pid == rs[j].pid;
      assert rs[i] in rs && rs[j] in rs;
      SharedProcessStays(w, i, j);
      assert !AllRunningAlive(BootStep(e, Polling(OneVanishes(|rs|, j), OpenFails)));
    }
  }

  lemma {:induction false} SharedProcessStays(w: World, i: nat, j: nat)
    requires i < j < |w.records| && IsRunning(w.records[i]) && IsRunning(w.records[j])
    requires w.records[i].pid == w.records[j].pid
    ensures !AllRunningAlive(PollAll(w, Polling(OneVanishes(|w.records|, j), OpenFails)))
  {
    OneRetires(w, 0, j);
    var w' := PollAll(w, Polling(OneVanishes(|w.records|, j), OpenFails));
    assert w'.records[i] in w'.records && w'.records[i].pid !in w'.alive;
  }
}
