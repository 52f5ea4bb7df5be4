/**
  What each command leaves behind, said of the records, the file, the scheduler's targets, the
  processes and the stacks themselves.
*/
module ManagerOutcomes {
  import opened Sequences
  import opened Text
  import opened Metadata
  import opened Persistence
  import opened Identity
  import opened Manager
  import opened ManagerInvariant
  import RR = RoundRobin

  // ---- the file --------------------------------------------------------

  /** The disk takes the whole list and the rename goes through. */
  predicate Takes(o: SaveOutcome, rs: seq<Record>) { o.Saved? && Concat(o.written) == Render(rs) }

  /** The file holds exactly the list. */
  ghost predicate Durable(w: World) { Meta(w.files) == Some(Render(w.records)) }

  /** A save of `rs` that succeeds makes the file that list, one that fails leaves it alone. */
  ghost predicate SavedOr(before: Files, after: Files, rs: seq<Record>, o: SaveOutcome) {
    Meta(after) == if Takes(o, rs) then Some(Render(rs)) else Meta(before)
  }

  lemma {:induction false} SaveReachesDisk(w: World, o: SaveOutcome)
    requires Consistent(w.files)
    ensures SavedOr(w.files, SaveWorld(w, o).files, w.records, o) && (SaveOk(w, o) <==> Takes(o, w.records))
  {
    SaveIsAllOrNothing(w.files, w.records, Surfaced(w.records, o));
  }

  // ---- create ----------------------------------------------------------

  /** A text cut to what its array holds. */
  function Cut(s: string, size: nat): string
    requires 0 < size
  {
    if |s| < size then s else s[..size - 1]
  }

  /** The new record is what the specification asks for, with the defaults for what it leaves empty. */
  lemma {:induction false} NewRecordMeans(spec: Spec, n: nat, rootfs: string)
    requires n < INT_RANGE
    ensures var r := NewRecord(spec, n, rootfs);
            && r.id == FormatId(n) && r.phase == Created && r.pid == -1 && r.stack == None
            && r.name == (if spec.name != "" then Cut(spec.name, 64) else FormatId(n))
            && r.hostname == (if spec.hostname != "" then Cut(spec.hostname, 64) else r.name)
            && r.rootfs == rootfs && r.limits == spec.limits
            && r.command == (if spec.command != "" then Cut(spec.command, 256) else "/bin/sh")
  {
    IdIsClean(n);
  }

  /**
    `create`: the number is used up in any case.  If the disk takes the longer list the record is
    added and the file is that list; otherwise neither the list nor the file has changed.
  */
  lemma {:induction false} CreateOutcome(w: World, spec: Spec, rootfs: string, save: SaveOutcome)
    requires Consistent(w.files)
    ensures var e := Step(w, Create(spec, Some(rootfs), save));
            var longer := w.records + [NewRecord(spec, w.nextSequence, rootfs)];
            && e == w.(nextSequence := w.nextSequence + 1, issued := w.issued + [w.nextSequence],
                       records := if Takes(save, longer) then longer else w.records, files := e.files)
            && SavedOr(w.files, e.files, longer, save)
    ensures Step(w, Create(spec, None, save))
            == w.(nextSequence := w.nextSequence + 1, issued := w.issued + [w.nextSequence])
  {
    var longer := w.records + [NewRecord(spec, w.nextSequence, rootfs)];
    SaveReachesDisk(Reserve(w).(records := longer), save);
  }

  // ---- the end of a process --------------------------------------------

  /** Record `i` is STOPPED without pid and stack; the rest of it and all other records are as they were. */
  ghost predicate StoppedAt(rs: seq<Record>, rs': seq<Record>, i: nat)
    requires i < |rs|
  {
    && |rs'| == |rs| && (forall j :: 0 <= j < |rs| && j != i ==> rs'[j] == rs[j])
    && rs'[i] == rs[i].(phase := Stopped, pid := -1, stack := None)
  }

  ghost predicate FreedOf(h: Heap, h': Heap, stack: Option<nat>) {
    if stack.None? then h' == h
    else h'.next == h.next && h'.freed == h.freed + [stack.value] && forall k :: k in h'.live <==> k in h.live && k != stack.value
  }

  lemma {:induction false} RetireOutcome(w: World, i: nat, untrack: bool)
    requires i < |w.records| && RR.Valid(w.ring)
    ensures var e, r := Retire(w, i, untrack), w.records[i];
            && StoppedAt(w.records, e.records, i) && FreedOf(w.heap, e.heap, r.stack)
            && (forall p :: p in e.alive <==> p in w.alive && p != r.pid)
            && (forall p :: p in e.ring.targets <==> p in w.ring.targets && !(untrack && p == r.pid))
            && RR.Valid(e.ring)
            && e == w.(records := e.records, heap := e.heap, alive := e.alive, ring := e.ring)
  {
    RR.RemoveKeeps(w.ring, w.records[i].pid);
  }

  /**
    `stop` of record `i`: if it runs and can be killed and reaped, it is STOPPED, its process and
    its stack are gone, it is no target, and the list is saved; otherwise nothing happens.
  */
  lemma {:induction false} HaltOutcome(w: World, i: nat, h: Halting, save: SaveOutcome)
    requires Consistent(w.files) && i < |w.records| && RR.Valid(w.ring)
    ensures var e, r := HaltAt(w, i, h, save), w.records[i];
            if r.phase == Running && r.pid > 0 && h == Halted then
              && StoppedAt(w.records, e.records, i) && FreedOf(w.heap, e.heap, r.stack)
              && (forall p :: p in e.alive <==> p in w.alive && p != r.pid)
              && (forall p :: p in e.ring.targets <==> p in w.ring.targets && p != r.pid)
              && SavedOr(w.files, e.files, e.records, save)
            else e == w
  {
    RetireOutcome(w, i, true);
    SaveReachesDisk(Retire(w, i, true), save);
  }

  /** The end of a foreground run: the same, but the pid is not taken off the targets. */
  lemma {:induction false} WaitOutcome(w: World, i: nat, reaped: bool, save: SaveOutcome)
    requires Consistent(w.files) && i < |w.records| && RR.Valid(w.ring)
    requires forall j :: 0 <= j < i ==> w.records[j].id != w.records[i].id
    ensures var e, r := Step(w, Wait(w.records[i].id, reaped, save)), w.records[i];
            if r.phase == Running && r.pid > 0 && reaped then
              && StoppedAt(w.records, e.records, i) && FreedOf(w.heap, e.heap, r.stack) && e.ring == w.ring
              && (forall p :: p in e.alive <==> p in w.alive && p != r.pid)
              && SavedOr(w.files, e.files, e.records, save)
            else e == w
  {
    FirstIsFound(w.records, i);
    RetireOutcome(w, i, false);
    SaveReachesDisk(Retire(w, i, false), save);
  }

  lemma {:induction false} FirstIsFound(rs: seq<Record>, i: nat)
    requires i < |rs| && forall j :: 0 <= j < i ==> rs[j].id != rs[i].id
    ensures IndexOfId(rs, rs[i].id) == Some(i)
  {
    assert rs[i] in rs;
  }

  // ---- poll ------------------------------------------------------------

  function ProbeAt(probes: seq<Probe>, j: nat): Probe { if j < |probes| then probes[j] else StillThere }

  /** Record `j` is found to have ended, by waitpid or by the recovery check. */
  predicate Ended(rs: seq<Record>, probes: seq<Probe>, j: nat) {
    && j < |rs| && rs[j].phase == Running && rs[j].pid > 0
    && (ProbeAt(probes, j) == Reaped || ProbeAt(probes, j) == Vanished)
  }

  ghost predicate SomeEnded(rs: seq<Record>, probes: seq<Probe>, i: nat) {
    exists j :: i <= j < |rs| && Ended(rs, probes, j)
  }

  ghost predicate EndedPid(rs: seq<Record>, probes: seq<Probe>, i: nat, p: int) {
    exists j :: i <= j < |rs| && Ended(rs, probes, j) && rs[j].pid == p
  }

  /** Only waitpid takes a pid off the targets, the recovery check does not. */
  ghost predicate ReapedPid(rs: seq<Record>, probes: seq<Probe>, i: nat, p: int) {
    exists j :: i <= j < |rs| && Ended(rs, probes, j) && ProbeAt(probes, j) == Reaped && rs[j].pid == p
  }

  /** What a poll from record `i` on comes to. */
  ghost predicate Polled(w: World, e: World, i: nat, probes: seq<Probe>) {
    var rs := w.records;
    && |e.records| == |rs|
    && (forall j :: 0 <= j < |rs| ==>
          e.records[j] == if i <= j && Ended(rs, probes, j) then rs[j].(phase := Stopped, pid := -1, stack := None) else rs[j])
    && (forall p :: p in e.ring.targets <==> p in w.ring.targets && !ReapedPid(rs, probes, i, p))
    && (forall p :: p in e.alive <==> p in w.alive && !EndedPid(rs, probes, i, p))
    && RR.Valid(e.ring)
    && e == w.(records := e.records, ring := e.ring, alive := e.alive, heap := e.heap)
  }

  lemma {:induction false} EndedFrom(rs: seq<Record>, rs': seq<Record>, probes: seq<Probe>, i: nat, p: int)
    requires i < |rs| && |rs'| == |rs| && forall j :: i < j < |rs| ==> rs'[j] == rs[j]
    ensures EndedPid(rs, probes, i, p) <==> (Ended(rs, probes, i) && rs[i].pid == p) || EndedPid(rs', probes, i + 1, p)
    ensures ReapedPid(rs, probes, i, p) <==>
            (Ended(rs, probes, i) && ProbeAt(probes, i) == Reaped && rs[i].pid == p) || ReapedPid(rs', probes, i + 1, p)
    ensures SomeEnded(rs, probes, i) <==> Ended(rs, probes, i) || SomeEnded(rs', probes, i + 1)
  {
    assert forall j :: i + 1 <= j < |rs| ==> (Ended(rs, probes, j) <==> Ended(rs', probes, j));
  }

  lemma {:induction false} PolledStep(w: World, i: nat, probes: seq<Probe>, w1: World, e: World)
    requires i < |w.records| && RR.Valid(w.ring) && w1 == SyncNth(w, i, probes).0 && Polled(w1, e, i + 1, probes)
    ensures Polled(w, e, i, probes)
  {
    if Ended(w.records, probes, i) { RetireOutcome(w, i, ProbeAt(probes, i) == Reaped); }
    forall p: int
      ensures EndedPid(w.records, probes, i, p) <==>
              (Ended(w.records, probes, i) && w.records[i].pid == p) || EndedPid(w1.records, probes, i + 1, p)
      ensures ReapedPid(w.records, probes, i, p) <==>
              (Ended(w.records, probes, i) && ProbeAt(probes, i) == Reaped && w.records[i].pid == p)
              || ReapedPid(w1.records, probes, i + 1, p)
    {
      EndedFrom(w.records, w1.records, probes, i, p);
    }
    assert forall j :: i < j < |w.records| ==> (Ended(w.records, probes, j) <==> Ended(w1.records, probes, j));
  }

  lemma {:induction false} PollRestOutcome(w: World, i: nat, probes: seq<Probe>)
    requires i <= |w.records| && RR.Valid(w.ring)
    ensures Polled(w, PollRest(w, i, probes).0, i, probes)
    ensures PollRest(w, i, probes).1 <==> SomeEnded(w.records, probes, i)
    decreases |w.records| - i
  {
    if i < |w.records| {
      var w1 := SyncNth(w, i, probes).0;
      if Ended(w.records, probes, i) { RetireOutcome(w, i, ProbeAt(probes, i) == Reaped); }
      PollRestOutcome(w1, i + 1, probes);
      PolledStep(w, i, probes, w1, PollRest(w, i, probes).0);
      EndedFrom(w.records, w1.records, probes, i, 0);
    }
  }

  /**
    A poll stops exactly the records found to have ended; if there are any it saves the list, and
    otherwise nothing happens.
  */
  lemma {:induction false} PollOutcome(w: World, p: Polling)
    requires Consistent(w.files) && RR.Valid(w.ring)
    ensures var e := Step(w, Poll(p));
            && Polled(w, e.(files := w.files), 0, p.probes)
            && (if SomeEnded(w.records, p.probes, 0) then SavedOr(w.files, e.files, e.records, p.save)
                else e.files == w.files && e.records == w.records)
  {
    PollRestOutcome(w, 0, p.probes);
    SaveReachesDisk(PollRest(w, 0, p.probes).0, p.save);
  }

  // ---- start, stop and delete ------------------------------------------

  ghost predicate FirstWith(rs: seq<Record>, id: string, i: nat) {
    i < |rs| && rs[i].id == id && forall j :: 0 <= j < i ==> rs[j].id != id
  }

  /** Without an id, or with one that is not listed, a command does nothing beyond the poll. */
  lemma {:induction false} NothingToDo(w: World, c: Command)
    requires c.Start? || c.Stop? || c.Delete?
    ensures c.id == "" ==> Step(w, c) == w
    ensures c.id != "" && (forall r <- PollAll(w, c.polling).records :: r.id != c.id) ==> Step(w, c) == PollAll(w, c.polling)
  {
  }

  /** Record `i` has come to life with a stack of its own; all else about it and the others is as it was. */
  ghost predicate LaunchedAs(w: World, e: World, i: nat, pid: int)
    requires i < |w.records|
  {
    && |e.records| == |w.records| && (forall j :: 0 <= j < |w.records| && j != i ==> e.records[j] == w.records[j])
    && e.records[i] == w.records[i].(phase := Running, pid := pid, stack := Some(w.heap.next))
    && e.heap == Heap(w.heap.live + {w.heap.next}, w.heap.next + 1, w.heap.freed)
    && e.alive == w.alive + {pid} && e.used == w.used + {pid}
  }

  /**
    `start` of the first record with that id, `w` being the state after the poll.
    - RUNNING already, or no memory: nothing happens.
    - Isolation fails: a stack was allocated and freed again, and that is all.
    - It comes up and the disk takes the list: it is RUNNING with a stack of its own, the file says so,
      and its pid is the last target if it is to be tracked and there is room.
    - It comes up and the save fails: it is stopped again if that is possible.
  */
  lemma {:induction false} StartOutcome(v: World, w: World, c: Command, i: nat)
    requires c.Start? && c.id != "" && w == PollAll(v, c.polling) && FirstWith(w.records, c.id, i)
    requires Consistent(w.files)
    ensures var e := Step(v, c);
            if w.records[i].phase == Running || c.launch.NoMemory? then e == w
            else if c.launch.IsolationFails? then
              e == w.(heap := e.heap) && e.heap.next == w.heap.next + 1 && e.heap.freed == w.heap.freed + [w.heap.next]
              && e.heap.live == w.heap.live - {w.heap.next}
            else
              exists up: World :: LaunchedAs(w, up, i, c.launch.pid) && SavedOr(w.files, up.files, up.records, c.save)
                && up == w.(records := up.records, heap := up.heap, alive := up.alive, used := up.used, files := up.files)
                && (if Takes(c.save, up.records)
                    then e == up.(ring := e.ring)
                         && e.ring.targets == up.ring.targets
                              + (if c.tracked && c.trackOk && c.launch.pid !in up.ring.targets then [c.launch.pid] else [])
                         && e.ring.index == up.ring.index
                    else e == HaltAt(up, i, c.halt, c.haltSave))
  {
    assert IndexOfId(w.records, c.id) == Some(i) by { FirstIsFound(w.records, i); }
    assert Step(v, c) == StartFound(w, c);
    if w.records[i].phase != Running { StartAtOutcome(w, c, i); }
  }

  lemma {:induction false} StartAtOutcome(w: World, c: Command, i: nat)
    requires c.Start? && i < |w.records| && Consistent(w.files)
    ensures var e := StartAt(w, i, c);
            && (c.launch.NoMemory? ==> e == w)
            && (c.launch.IsolationFails? ==>
                  e == w.(heap := e.heap) && e.heap.next == w.heap.next + 1 && e.heap.freed == w.heap.freed + [w.heap.next]
                  && e.heap.live == w.heap.live - {w.heap.next})
            && (c.launch.Launched? ==>
                  var up := SaveWorld(LaunchAt(w, i, c.launch.pid), c.save);
                  && LaunchedAs(w, up, i, c.launch.pid) && SavedOr(w.files, up.files, up.records, c.save)
                  && up == w.(records := up.records, heap := up.heap, alive := up.alive, used := up.used, files := up.files)
                  && (if Takes(c.save, up.records)
                      then e == up.(ring := e.ring)
                           && e.ring.targets == up.ring.targets
                                + (if c.tracked && c.trackOk && c.launch.pid !in up.ring.targets then [c.launch.pid] else [])
                           && e.ring.index == up.ring.index
                      else e == HaltAt(up, i, c.halt, c.haltSave)))
  {
    if c.launch.Launched? {
      var w1 := LaunchAt(w, i, c.launch.pid);
      SaveReachesDisk(w1, c.save);
    }
  }

  /** `start` returns 0 exactly if it found a record that was not running, launched it, and the disk took the list. */
  lemma {:induction false} StartReturnsZeroIff(w: World, c: Command)
    requires c.Start?
    ensures Starts(w, c) <==>
            && c.launch.Launched?
            && exists i: nat :: FirstWith(w.records, c.id, i) && w.records[i].phase != Running
                 && Takes(c.save, w.records[i := w.records[i].(phase := Running, pid := c.launch.pid, stack := Some(w.heap.next))])
  {
    var found := IndexOfId(w.records, c.id);
    if found.Some? { assert FirstWith(w.records, c.id, found.value); }
    forall i: nat | FirstWith(w.records, c.id, i) ensures found == Some(i) { FirstIsFound(w.records, i); }
  }

  /** `stop` of the first record with that id; `HaltOutcome` says what that is. */
  lemma {:induction false} StopOutcome(v: World, w: World, c: Command, i: nat)
    requires c.Stop? && c.id != "" && w == PollAll(v, c.polling) && FirstWith(w.records, c.id, i)
    ensures Step(v, c) == HaltAt(w, i, c.halt, c.haltSave)
  {
    FirstIsFound(w.records, i);
  }

  /**
    `delete` of the first record with that id: refused while it is RUNNING; if the disk takes the
    shorter list the record is gone from list and file, its stack is freed and the others keep their
    order; otherwise the file has not changed and the record is the last.
  */
  lemma {:induction false} DeleteOutcome(v: World, w: World, c: Command, i: nat)
    requires c.Delete? && c.id != "" && w == PollAll(v, c.polling) && FirstWith(w.records, c.id, i)
    requires Consistent(w.files)
    ensures var e, shorter := Step(v, c), w.records[..i] + w.records[i + 1..];
            if w.records[i].phase == Running then e == w
            else
              && e == w.(records := e.records, heap := e.heap, files := e.files)
              && SavedOr(w.files, e.files, shorter, c.save)
              && (if Takes(c.save, shorter) then e.records == shorter && FreedOf(w.heap, e.heap, w.records[i].stack)
                  else e.records == shorter + [w.records[i]] && e.heap == w.heap)
  {
    FirstIsFound(w.records, i);
    if w.records[i].phase != Running { SaveReachesDisk(w.(records := RemoveAt(w.records, i)), c.save); }
  }

  // ---- refresh ---------------------------------------------------------

  /** The pids of the RUNNING records in list order, but those at the positions `lost`. */
  function RunningPids(rs: seq<Record>, lost: set<nat>): seq<int> {
    if rs == [] then []
    else
      var i := |rs| - 1;
      RunningPids(rs[..i], lost) + if rs[i].phase == Running && rs[i].pid > 0 && i !in lost then [rs[i].pid] else []
  }

  lemma {:induction false} RingOfRunning(rs: seq<Record>, lost: set<nat>)
    requires RR.Distinct(RunningPids(rs, lost))
    ensures RingOf(rs, lost) == RR.Ring(RunningPids(rs, lost), 0)
  {
    if rs != [] {
      var i := |rs| - 1;
      var front, all := RunningPids(rs[..i], lost), RunningPids(rs, lost);
      DistinctFront(front, all);
      if |front| < |all| { assert all[|front|] == rs[i].pid; }
      RingOfRunning(rs[..i], lost);
    }
  }

  lemma {:induction false} DistinctFront(a: seq<int>, b: seq<int>)
    requires a <= b && RR.Distinct(b)
    ensures RR.Distinct(a) && forall k :: |a| <= k < |b| ==> b[k] !in a
  {
  }

  /** A refresh makes the targets the RUNNING pids in list order, from the first on, but where an add failed. */
  lemma {:induction false} RefreshOutcome(w: World, lost: set<nat>)
    requires RR.Distinct(RunningPids(w.records, lost))
    ensures Step(w, Refresh(lost)) == w.(ring := RR.Ring(RunningPids(w.records, lost), 0))
  {
    RingOfRunning(w.records, lost);
  }

  // ---- quit ------------------------------------------------------------

  predicate HaltedAt(rs: seq<Record>, halts: seq<(Halting, SaveOutcome)>, j: nat) {
    j < |rs| && j < |halts| && halts[j].0 == Halted && rs[j].phase == Running && rs[j].pid > 0
  }

  ghost predicate HaltedFrom(rs: seq<Record>, rs': seq<Record>, halts: seq<(Halting, SaveOutcome)>, i: nat) {
    && |rs'| == |rs|
    && forall j :: 0 <= j < |rs| ==>
         rs'[j] == if i <= j && HaltedAt(rs, halts, j) then rs[j].(phase := Stopped, pid := -1, stack := None) else rs[j]
  }

  lemma {:induction false} HaltRestOutcome(w: World, i: nat, halts: seq<(Halting, SaveOutcome)>)
    requires i <= |w.records|
    ensures HaltedFrom(w.records, HaltRest(w, i, halts).records, halts, i)
    decreases |w.records| - i
  {
    if i < |w.records| {
      var w1 := HaltNth(w, i, halts);
      HaltRestOutcome(w1, i + 1, halts);
      assert forall j :: i < j < |w.records| ==> w1.records[j] == w.records[j];
    }
  }

  /**
    `cleanup_all_containers`, `w` being the state after the poll: every RUNNING container that can
    be stopped is, the list is saved in that state, and the session is over.
  */
  lemma {:induction false} QuitOutcome(v: World, w: World, p: Polling, halts: seq<(Halting, SaveOutcome)>, save: SaveOutcome)
    requires w == PollAll(v, p) && Consistent(w.files)
    ensures var e := Step(v, Quit(p, halts, save));
            && !e.up && e.records == []
            && exists last: World ::
                 HaltedFrom(w.records, last.records, halts, 0) && SavedOr(last.files, e.files, last.records, save)
  {
    HaltRestOutcome(w, 0, halts);
    var last := HaltRest(w, 0, halts);
    HaltRestIsConsistent(w, 0, halts);
    SaveReachesDisk(last, save);
    assert HaltedFrom(w.records, last.records, halts, 0);
  }

  // ---- boot ------------------------------------------------------------

  /**
    Start-up in a new process: the records of the file, polled once; no targets, no stacks, nothing
    issued, and the next number just beyond the largest one listed, or 1.
  */
  lemma {:induction false} BootOutcome(w: World, p: Polling)
    requires Consistent(w.files)
    ensures var e, rs := Step(w, Boot(p)), Reloaded(w);
            && e.up && e.ring == RR.Ring([], 0) && e.issued == []
            && Polled(w.(up := true, records := rs, nextSequence := e.nextSequence, issued := [], ring := RR.Ring([], 0),
                         heap := Heap({}, 0, [])), e.(files := w.files), 0, p.probes)
            && 1 <= e.nextSequence && (forall r <- rs :: Number(r) < e.nextSequence)
            && (e.nextSequence == 1 || exists r <- rs :: Number(r) == e.nextSequence - 1)
            && (if SomeEnded(rs, p.probes, 0) then SavedOr(w.files, e.files, e.records, p.save) else e.files == w.files)
  {
    var w1 := NewSession(w, Reloaded(w));
    PollOutcome(w1, p);
    BumpExceedsAll(1, Reloaded(w));
    BumpIsListed(1, Reloaded(w));
    NoTargetsStay(w1, 0, p.probes);
  }

  lemma {:induction false} NoTargetsStay(w: World, i: nat, probes: seq<Probe>)
    requires i <= |w.records| && w.ring == RR.Ring([], 0)
    ensures PollRest(w, i, probes).0.ring == RR.Ring([], 0)
    decreases |w.records| - i
  {
    if i < |w.records| { NoTargetsStay(SyncNth(w, i, probes).0, i + 1, probes); }
  }

  lemma {:induction false} BumpIsListed(next: nat, rs: seq<Record>)
    ensures BumpAll(next, rs) == next || exists r <- rs :: Number(r) == BumpAll(next, rs) - 1
  {
    if rs != [] {
      var last := |rs| - 1;
      BumpIsListed(next, rs[..last]);
      assert rs[last] in rs && forall r <- rs[..last] :: r in rs;
    }
  }

  // ---- crash and exit --------------------------------------------------

  /**
    A crash in the middle of a command ends the session: its memory is gone, the processes are as
    the command left them, and the disk has the first `k` events.  A process that exits is no longer
    alive, and that is all.
  */
  lemma {:induction false} CrashOutcome(w: World, during: Command, k: nat, p: int)
    requires Consistent(w.files)
    ensures var e, full := Step(w, Crash(during, k)), Step(w, during);
            && !e.up && e.records == [] && e.alive == full.alive && e.used == full.used
            && Meta(e.files) == Replay(full.files.origin, if k <= |full.files.io| then full.files.io[..k] else full.files.io).meta
    ensures Step(w, Exit(p)) == w.(alive := w.alive - {p})
  {
    StepIsConsistent(w, during);
    DiskAfterCut(Step(w, during).files, k);
  }

  lemma {:induction false} DiskAfterCut(f: Files, k: nat)
    requires Consistent(f)
    ensures Meta(Persistence.Cut(f, k)) == Replay(f.origin, if k <= |f.io| then f.io[..k] else f.io).meta
  {
    if k <= |f.io| { RenamesMonotone(f.io, k); }
  }

  // ---- what a successful command survives ------------------------------

  /** The lists saved so far stay at the front of the history, crashes included. */
  ghost predicate Extends(f: Files, g: Files) { g.origin == f.origin && f.io <= g.io && f.saves <= g.saves }

  lemma {:induction false} SaveExtends(w: World, o: SaveOutcome)
    ensures Extends(w.files, SaveWorld(w, o).files)
  {
  }

  lemma {:induction false} HaltRestExtends(w: World, i: nat, halts: seq<(Halting, SaveOutcome)>)
    requires i <= |w.records|
    ensures Extends(w.files, HaltRest(w, i, halts).files)
    decreases |w.records| - i
  {
    if i < |w.records| { HaltRestExtends(HaltNth(w, i, halts), i + 1, halts); }
  }

  lemma {:induction false} PollExtends(w: World, p: Polling)
    ensures Extends(w.files, PollAll(w, p).files)
  {
    PollRestKeepsFiles(w, 0, p.probes);
  }

  lemma {:induction false} FoundExtends(w: World, c: Command)
    requires c.Start? || c.Stop? || c.Delete?
    ensures Extends(w.files, Step(w, c).files)
  {
    PollExtends(w, c.polling);
    var w1 := PollAll(w, c.polling);
    var found := IndexOfId(w1.records, c.id);
    if found.Some? {
      match c
      case Start(_, _, _, _, _, _, _, _) => StartExtends(w1, found.value, c);
      case Stop(_, _, _, _) => HaltExtends(w1, found.value, c.halt, c.haltSave);
      case Delete(_, _, _) => SaveExtends(w1.(records := RemoveAt(w1.records, found.value)), c.save);
    }
  }

  lemma {:induction false} HaltExtends(w: World, i: nat, h: Halting, save: SaveOutcome)
    requires i < |w.records|
    ensures Extends(w.files, HaltAt(w, i, h, save).files)
  {
    SaveExtends(Retire(w, i, true), save);
  }

  lemma {:induction false} StartExtends(w: World, i: nat, c: Command)
    requires c.Start? && i < |w.records|
    ensures Extends(w.files, StartAt(w, i, c).files)
  {
    if c.launch.Launched? {
      var w1 := LaunchAt(w, i, c.launch.pid);
      SaveExtends(w1, c.save);
      HaltExtends(SaveWorld(w1, c.save), i, c.halt, c.haltSave);
    }
  }

  lemma {:induction false} CutExtends(f: Files, g: Files, k: nat)
    requires Extends(f, g) && Consistent(f) && Consistent(g) && |f.io| <= k
    ensures Extends(f, Persistence.Cut(g, k))
  {
    if k <= |g.io| {
      RenamesMonotone(g.io[..k], |f.io|);
      assert g.io[..k][..|f.io|] == f.io;
      RenamesMonotone(g.io, k);
    }
  }

  lemma {:induction false} StepExtends(w: World, c: Command)
    requires Allowed(w, c) && Consistent(w.files)
    ensures Extends(w.files, Step(w, c).files)
    decreases c
  {
    match c
    case Poll(p) => PollExtends(w, p);
    case Quit(p, halts, save) => PollExtends(w, p); HaltRestExtends(PollAll(w, p), 0, halts);
    case Boot(p) => PollExtends(NewSession(w, Reloaded(w)), p);
    case Crash(during, k) =>
      StepExtends(w, during);
      StepIsConsistent(w, during);
      CutExtends(w.files, Step(w, during).files, k);
    case Create(_, _, _) =>
    case Wait(_, _, _) =>
    case Refresh(_) =>
    case ThreadTurn =>
    case Exit(_) =>
    case _ => FoundExtends(w, c);
  }

  lemma {:induction false} RunExtends(w: World, run: seq<Command>)
    requires ValidRun(w, run) && Consistent(w.files)
    ensures Extends(w.files, Run(w, run).files) && Consistent(Run(w, run).files)
    decreases |run|
  {
    if run != [] {
      StepExtends(w, run[0]);
      StepIsConsistent(w, run[0]);
      RunExtends(Step(w, run[0]), run[1..]);
    }
  }

  /** Until another save succeeds the file stays as it is, through any run and any crash. */
  lemma {:induction false} FileStays(w: World, run: seq<Command>)
    requires ValidRun(w, run) && Consistent(w.files) && |Run(w, run).files.saves| == |w.files.saves|
    ensures Meta(Run(w, run).files) == Meta(w.files)
  {
    RunExtends(w, run);
    MetaIsPublished(w.files);
    MetaIsPublished(Run(w, run).files);
  }

  lemma {:induction false} CleanLineComesBack(rs: seq<Record>, i: nat, alive: set<int>)
    requires i < |rs| && Fits(rs[i]) && Clean(rs[i])
    ensures Recover(rs[i], alive) in LoadEach(rs, alive)
  {
    if i == 0 {
      LineParsesBack(rs[0]);
      assert LoadLine(Line(rs[0]), alive) == [Recover(rs[0], alive)];
    } else {
      CleanLineComesBack(rs[1..], i - 1, alive);
    }
  }

  lemma {:induction false} UntouchedByPoll(w: World, i: nat, probes: seq<Probe>, r: Record)
    requires i <= |w.records| && r in w.records && r.phase != Running
    ensures r in PollRest(w, i, probes).0.records
    decreases |w.records| - i
  {
    if i < |w.records| {
      var w1 := SyncNth(w, i, probes).0;
      var j :| 0 <= j < |w.records| && w.records[j] == r;
      assert w1.records[j] == r;
      UntouchedByPoll(w1, i + 1, probes, r);
    }
  }

  /**
    A container whose creation succeeded is there again after any crash, as long as no later save
    has succeeded: whatever else was going on, start-up brings its record back as it was created, if
    its own texts hold no separators and no text of the list holds a line break.
  */
  lemma {:induction false} CreatedSurvives(w: World, spec: Spec, rootfs: string, save: SaveOutcome, run: seq<Command>, p: Polling)
    requires Consistent(w.files)
    requires var w1 := Step(w, Create(spec, Some(rootfs), save));
             && |w1.records| > |w.records| && ValidRun(w1, run)
             && |Run(w1, run).files.saves| == |w1.files.saves|
             && forall r <- w1.records :: Fits(r) && Unbroken(r)
    requires Clean(NewRecord(spec, w.nextSequence, rootfs))
    ensures var e := Run(Step(w, Create(spec, Some(rootfs), save)), run);
            NewRecord(spec, w.nextSequence, rootfs) in BootStep(e, p).records
  {
    var r := NewRecord(spec, w.nextSequence, rootfs);
    var w1 := Step(w, Create(spec, Some(rootfs), save));
    CreateOutcome(w, spec, rootfs, save);
    StepIsConsistent(w, Create(spec, Some(rootfs), save));
    FileStays(w1, run);
    CreatedIsReloaded(w1.records, r, Run(w1, run), p);
  }

  lemma {:induction false} CreatedIsReloaded(rs: seq<Record>, r: Record, e: World, p: Polling)
    requires rs != [] && rs[|rs| - 1] == r && r.phase == Created && r.stack == None && Clean(r)
    requires (forall q <- rs :: Fits(q) && Unbroken(q)) && Meta(e.files) == Some(Render(rs))
    ensures r in BootStep(e, p).records
  {
    ReloadedHas(rs, r, e);
    UntouchedByPoll(NewSession(e, Reloaded(e)), 0, p.probes, r);
  }

  lemma {:induction false} ReloadedHas(rs: seq<Record>, r: Record, e: World)
    requires rs != [] && rs[|rs| - 1] == r && r.phase == Created && r.stack == None && Clean(r)
    requires (forall q <- rs :: Fits(q) && Unbroken(q)) && Meta(e.files) == Some(Render(rs))
    ensures r in Reloaded(e)
  {
    LoadIsLineByLine(rs, e.alive);
    assert rs[|rs| - 1] in rs;
    CleanLineComesBack(rs, |rs| - 1, e.alive);
    assert Recover(r, e.alive) == r;
  }
}
