/**
  The manager's operations as `src/container.c` performs them: a linked list of records changed
  field by field, the scheduler's pid array, loops with a cursor, a save after each change.
  Every method is proved equal to the corresponding step of `Manager`, about which
  `ManagerInvariant`, `ManagerExact` and `ManagerResults` prove what holds over whole runs.
*/
module ContainerManager {
  import opened Sequences
  import opened Text
  import opened Metadata
  import opened Persistence
  import opened Identity
  import opened ContainerList
  import opened Scheduler
  import M = Manager
  import RR = RoundRobin

  class Runtime {
    const list: List
    const scheduler: SchedulerState
    var up: bool
    var nextSequence: nat
    var issued: seq<nat>
    var alive: set<int>
    var used: set<int>
    var heap: M.Heap
    var files: Files

    ghost predicate Valid()
      reads this, list, list.nodes, scheduler, scheduler.targets
    {
      list.Valid() && scheduler.Valid()
    }

    /** The state the model speaks of: the list as a sequence, the array as a ring. */
    ghost function View(): M.World
      requires Valid()
      reads this, list, list.nodes, scheduler, scheduler.targets
    {
      M.World(up, list.records, nextSequence, issued, scheduler.Ring(), alive, used, heap, files)
    }

    /** What was allocated meanwhile is new. */
    twostate predicate Grown()
      reads this, list, scheduler
    {
      && (forall k :: 0 <= k < |list.nodes| ==> list.nodes[k] in old(list.nodes) || fresh(list.nodes[k]))
      && (scheduler.targets == old(scheduler.targets) || fresh(scheduler.targets))
    }

    constructor (alive: set<int>, used: set<int>, files: Files)
      ensures Valid() && fresh(list) && fresh(scheduler) && fresh(scheduler.targets)
      ensures View() == M.World(false, [], 1, [], RR.Ring([], 0), alive, used, M.Heap({}, 0, []), files)
    {
      this.alive, this.used, this.files := alive, used, files;
      up, nextSequence, issued, heap := false, 1, [], M.Heap({}, 0, []);
      list := new List();
      scheduler := new SchedulerState();
    }

    // ---- one field at a time -------------------------------------------

    method SetRecord(c: Container, r: Record, ghost i: nat)
      requires Valid() && i < |list.nodes| && list.nodes[i] == c
      modifies list`records, c`record
      ensures Valid() && c.record == r
      ensures View() == old(View()).(records := old(View()).records[i := r])
    {
      list.SetRecord(c, r, i);
    }

    method Track(pid: int, memory: bool) returns (ok: bool)
      requires Valid()
      modifies scheduler`targets, scheduler`targetCount, scheduler.targets
      ensures Valid() && (memory ==> ok)
      ensures View() == old(View()).(ring := if ok then RR.Add(old(View()).ring, pid) else old(View()).ring)
      ensures scheduler.targets == old(scheduler.targets) || fresh(scheduler.targets)
    {
      var rc := scheduler.AddTarget(pid, memory);
      ok := rc == 0;
    }

    method Untrack(pid: int)
      requires Valid()
      modifies scheduler`targetCount, scheduler`currentIndex, scheduler.targets
      ensures Valid() && View() == old(View()).(ring := RR.Remove(old(View()).ring, pid))
    {
      var _ := scheduler.RemoveTarget(pid);
    }

    /** Print the list record by record. */
    method PrintRecords() returns (printed: seq<Record>, text: string)
      requires Valid()
      ensures printed == list.records && text == Render(printed)
    {
      ghost var records, i := list.records, 0;
      var cursor := list.head;
      printed, text := [], "";
      while cursor != null
        invariant i <= |list.nodes| && cursor == if i < |list.nodes| then list.nodes[i] else null
        invariant Printing(records, i, printed, text)
        decreases |records| - i
      {
        PrintOneMore(records, i, printed, text);
        printed, text := printed + [cursor.record], text + Line(cursor.record);
        cursor, i := cursor.next, i + 1;
      }
      PrintedAll(records, printed, text);
    }

    /** To the temporary file, close, rename. */
    method SaveMetadata(o: SaveOutcome) returns (rc: int)
      requires Valid()
      modifies this`files
      ensures Valid() && View() == M.SaveWorld(old(View()), o)
      ensures rc == if M.SaveOk(old(View()), o) then 0 else -1
    {
      var printed, text := PrintRecords();
      rc := CommitMetadata(printed, text, o);
    }

    /** What the disk makes of it; a write that was lost surfaces at fclose. */
    method CommitMetadata(printed: seq<Record>, text: string, o: SaveOutcome) returns (rc: int)
      requires Valid() && printed == list.records && text == Render(printed)
      modifies this`files
      ensures Valid() && View() == M.SaveWorld(old(View()), o)
      ensures rc == if M.SaveOk(old(View()), o) then 0 else -1
    {
      var ok := o.Saved? && Concat(o.written) == text;
      var outcome := if o.Saved? && !ok then CloseFails(o.written) else o;
      files := Files(files.origin, files.io + SaveEvents(outcome), if ok then files.saves + [printed] else files.saves);
      rc := if ok then 0 else -1;
    }

    method FreeContainerStack(c: Container, ghost i: nat)
      requires Valid() && i < |list.nodes| && list.nodes[i] == c
      modifies this`heap, list`records, c`record
      ensures Valid() && c.record == old(c.record).(stack := None)
      ensures View() == old(View()).(records := old(View()).records[i := old(c.record).(stack := None)],
                                     heap := M.FreeStack(old(heap), old(c.record).stack))
    {
      if c.record.stack.Some? {
        ReleaseStack(c.record.stack.value);
      }
      SetRecord(c, c.record.(stack := None), i);
    }

    /** STOPPED, no pid, no stack; the process is gone. */
    method MarkStopped(c: Container, ghost i: nat)
      requires Valid() && i < |list.nodes| && list.nodes[i] == c
      modifies this`heap, this`alive, list`records, c`record
      ensures Valid() && View() == M.Retire(old(View()), i, false)
    {
      ghost var rs := list.records;
      alive := alive - {c.record.pid};
      SetRecord(c, c.record.(pid := -1, phase := Stopped), i);
      FreeContainerStack(c, i);
      assert list.records == rs[i := rs[i].(phase := Stopped, pid := -1, stack := None)];
    }

    method RetireContainer(c: Container, untrack: bool, ghost i: nat)
      requires Valid() && i < |list.nodes| && list.nodes[i] == c
      modifies this`heap, this`alive, list`records, c`record, scheduler`targetCount, scheduler`currentIndex,
               scheduler.targets
      ensures Valid() && View() == M.Retire(old(View()), i, untrack)
    {
      var pid := c.record.pid;
      MarkStopped(c, i);
      if untrack {
        Untrack(pid);
      }
    }

    // ---- operations ----------------------------------------------------

    method SyncContainerState(c: Container, probe: M.Probe, ghost i: nat) returns (changed: bool)
      requires Valid() && i < |list.nodes| && list.nodes[i] == c
      modifies this`heap, this`alive, list`records, c`record, scheduler`targetCount, scheduler`currentIndex, scheduler.targets
      ensures Valid() && (View(), changed) == M.Sync(old(View()), i, probe)
    {
      if c.record.phase != Running || c.record.pid <= 0 {
        return false;
      }
      match probe
      case Reaped =>
        RetireContainer(c, true, i);
        return true;
      case Vanished =>
        RetireContainer(c, false, i);
        return true;
      case _ =>
        return false;
    }

    method PollStates(p: M.Polling)
      requires Valid()
      modifies this`heap, this`alive, this`files, list`records, list.nodes`record, scheduler`targetCount, scheduler`currentIndex,
               scheduler.targets
      ensures Valid() && View() == M.PollAll(old(View()), p)
    {
      var changed := SyncAll(p.probes);
      if changed {
        var _ := SaveMetadata(p.save);
      }
    }

    method SyncAll(probes: seq<M.Probe>) returns (changed: bool)
      requires Valid()
      modifies this`heap, this`alive, list`records, list.nodes`record, scheduler`targetCount, scheduler`currentIndex, scheduler.targets
      ensures Valid() && (View(), changed) == M.PollRest(old(View()), 0, probes)
    {
      changed := false;
      var cursor, i := list.head, 0;
      while cursor != null
        invariant Valid() && i <= |list.nodes| && cursor == if i < |list.nodes| then list.nodes[i] else null
        invariant var (w, more) := M.PollRest(View(), i, probes);
                  M.PollRest(old(View()), 0, probes) == (w, changed || more)
        decreases |list.nodes| - i
      {
        var c := SyncContainerState(cursor, if i < |probes| then probes[i] else M.StillThere, i);
        changed := changed || c;
        cursor, i := cursor.next, i + 1;
      }
    }

    method FindContainer(id: string) returns (found: Container?, ghost i: nat)
      requires Valid()
      ensures (found == null) == M.IndexOfId(View().records, id).None?
      ensures found != null ==> i < |list.nodes| && list.nodes[i] == found && M.IndexOfId(View().records, id) == Some(i)
    {
      found, i := list.Find(id);
      FirstWithId(list.records, id, i);
    }

    method StopContainerProcess(c: Container, h: M.Halting, save: SaveOutcome, ghost i: nat) returns (rc: int)
      requires Valid() && i < |list.nodes| && list.nodes[i] == c
      modifies this`heap, this`alive, this`files, list`records, c`record, scheduler`targetCount, scheduler`currentIndex,
               scheduler.targets
      ensures Valid() && View() == M.HaltAt(old(View()), i, h, save)
      ensures rc == if M.IsRunning(old(c.record)) && h.Halted? then 0 else -1
    {
      if c.record.phase != Running || c.record.pid <= 0 {
        return -1;
      }
      if h.KillRefused? || h.ReapFails? {
        return -1;
      }
      RetireContainer(c, true, i);
      var _ := SaveMetadata(save);
      return 0;
    }

    method ReserveNumber() returns (n: nat)
      requires Valid()
      modifies this`nextSequence, this`issued
      ensures Valid() && n == old(nextSequence) && View() == M.Reserve(old(View()))
    {
      n := nextSequence;
      issued := issued + [n];
      nextSequence := nextSequence + 1;
    }

    method Create(spec: M.Spec, rootfs: Option<string>, save: SaveOutcome) returns (rc: int)
      requires Valid()
      modifies this`nextSequence, this`issued, this`files, list, list.nodes`next
      ensures Valid() && Grown() && View() == M.CreateStep(old(View()), spec, rootfs, save)
      ensures rc == if |list.nodes| > |old(list.nodes)| then 0 else -1
    {
      var n := ReserveNumber();
      if rootfs.None? {
        return -1;
      }
      rc := AppendAndSave(M.NewRecord(spec, n, rootfs.value), save);
    }

    method AppendAndSave(r: Record, save: SaveOutcome) returns (rc: int)
      requires Valid()
      modifies this`files, list, list.nodes`next
      ensures Valid() && Grown() && View() == M.AppendAndSave(old(View()), r, save)
      ensures rc == if |list.nodes| > |old(list.nodes)| then 0 else -1
    {
      var c := AppendRecord(r);
      rc := SaveMetadata(save);
      if rc != 0 {
        WithdrawLast(c);
      }
    }

    method AppendRecord(r: Record) returns (c: Container)
      requires Valid()
      modifies list, list.nodes`next
      ensures Valid() && Grown() && fresh(c) && list.nodes == old(list.nodes) + [c]
      ensures View() == old(View()).(records := old(View()).records + [r])
    {
      c := new Container(r);
      list.Append(c);
    }

    method WithdrawLast(c: Container)
      requires Valid() && list.nodes != [] && list.nodes[|list.nodes| - 1] == c
      modifies list, list.nodes`next
      ensures Valid() && list.nodes == old(list.nodes)[..|old(list.nodes)| - 1]
      ensures View() == old(View()).(records := old(View()).records[..|old(list.nodes)| - 1])
    {
      ghost var last := |list.nodes| - 1;
      assert RemoveAt(list.nodes, last) == list.nodes[..last] && RemoveAt(list.records, last) == list.records[..last];
      list.Remove(c);
    }

    method Start(c: M.Command, memory: bool) returns (rc: int, ghost tracked: bool)
      requires Valid() && c.Start?
      modifies this, list`records, list.nodes`record, scheduler, scheduler.targets
      ensures Valid() && Grown() && View() == M.StartStep(old(View()), c.(trackOk := tracked)) && (memory ==> tracked)
      ensures rc == if c.id != "" && M.Starts(M.PollAll(old(View()), c.polling), c) then 0 else -1
    {
      if c.id == "" {
        return -1, true;
      }
      PollStates(c.polling);
      rc, tracked := StartFound(c, memory);
    }

    method StartFound(c: M.Command, memory: bool) returns (rc: int, ghost tracked: bool)
      requires Valid() && c.Start?
      modifies this, list`records, list.nodes`record, scheduler, scheduler.targets
      ensures Valid() && Grown() && View() == M.StartFound(old(View()), c.(trackOk := tracked)) && (memory ==> tracked)
      ensures rc == if M.Starts(old(View()), c) then 0 else -1
    {
      var found, i := FindContainer(c.id);
      if found == null || found.record.phase == Running {
        return -1, true;
      }
      rc, tracked := StartAt(found, c, memory, i);
    }

    method AllocateStack() returns (stack: nat)
      requires Valid()
      modifies this`heap
      ensures Valid() && stack == old(heap.next) && View() == old(View()).(heap := M.Allocate(old(heap)))
    {
      stack := heap.next;
      heap := M.Heap(heap.live + {stack}, stack + 1, heap.freed);
    }

    method ReleaseStack(stack: nat)
      requires Valid()
      modifies this`heap
      ensures Valid() && View() == old(View()).(heap := M.FreeStack(old(heap), Some(stack)))
    {
      heap := M.Heap(heap.live - {stack}, heap.next, heap.freed + [stack]);
    }

    method StartAt(container: Container, c: M.Command, memory: bool, ghost i: nat) returns (rc: int, ghost tracked: bool)
      requires Valid() && c.Start? && i < |list.nodes| && list.nodes[i] == container
      modifies this, list`records, container`record, scheduler, scheduler.targets
      ensures Valid() && Grown() && View() == M.StartAt(old(View()), i, c.(trackOk := tracked)) && (memory ==> tracked)
      ensures rc == if M.StartsAt(old(View()), i, c) then 0 else -1
    {
      tracked := true;
      if c.launch.NoMemory? {
        return -1, true;
      }
      var stack := AllocateStack();
      if c.launch.IsolationFails? {
        ReleaseStack(stack);
        return -1, true;
      }
      rc, tracked := Launched(container, c, stack, memory, i);
    }

    /** The child is up: enter it, save, and stop it again if that fails. */
    method Launched(container: Container, c: M.Command, stack: nat, memory: bool, ghost i: nat)
      returns (rc: int, ghost tracked: bool)
      requires Valid() && c.Start? && c.launch.Launched? && i < |list.nodes| && list.nodes[i] == container
      modifies this, list`records, container`record, scheduler, scheduler.targets
      ensures Valid() && Grown() && (memory ==> tracked)
      ensures var w := M.EnterAt(old(View()), i, c.launch.pid, stack);
              && View() == M.LaunchedAt(w, i, c.(trackOk := tracked))
              && rc == if M.SaveOk(w, c.save) then 0 else -1
    {
      tracked := true;
      Enter(container, c.launch.pid, stack, i);
      rc := SaveMetadata(c.save);
      if rc != 0 {
        var _ := StopContainerProcess(container, c.halt, c.haltSave, i);
        return -1, true;
      }
      if c.tracked {
        tracked := Track(c.launch.pid, memory);
      }
    }

    method Enter(container: Container, pid: int, stack: nat, ghost i: nat)
      requires Valid() && i < |list.nodes| && list.nodes[i] == container
      modifies this`alive, this`used, list`records, container`record
      ensures Valid() && View() == M.EnterAt(old(View()), i, pid, stack)
    {
      alive, used := alive + {pid}, used + {pid};
      SetRecord(container, container.record.(stack := Some(stack), pid := pid, phase := Running), i);
    }

    method WaitForContainerProcess(id: string, reaped: bool, save: SaveOutcome) returns (rc: int)
      requires Valid()
      modifies this, list`records, list.nodes`record, scheduler, scheduler.targets
      ensures Valid() && View() == M.WaitStep(old(View()), id, reaped, save)
      ensures var found := M.IndexOfId(old(View()).records, id);
              rc == if found.Some? && M.IsRunning(old(View()).records[found.value]) && reaped
                       && M.SaveOk(M.Retire(old(View()), found.value, false), save) then 0 else -1
    {
      var c, i := FindContainer(id);
      if c == null || c.record.phase != Running || c.record.pid <= 0 || !reaped {
        return -1;
      }
      RetireContainer(c, false, i);
      rc := SaveMetadata(save);
    }

    method Stop(c: M.Command) returns (rc: int)
      requires Valid() && c.Stop?
      modifies this, list`records, list.nodes`record, scheduler, scheduler.targets
      ensures Valid() && View() == M.StopStep(old(View()), c)
      ensures var rs := M.PollAll(old(View()), c.polling).records;
              var found := M.IndexOfId(rs, c.id);
              rc == if c.id != "" && found.Some? && M.IsRunning(rs[found.value]) && c.halt.Halted? then 0 else -1
    {
      if c.id == "" {
        return -1;
      }
      PollStates(c.polling);
      var found, i := FindContainer(c.id);
      if found == null {
        return -1;
      }
      rc := StopContainerProcess(found, c.halt, c.haltSave, i);
    }

    method Delete(c: M.Command) returns (rc: int)
      requires Valid() && c.Delete?
      modifies this, list, list.nodes, scheduler, scheduler.targets
      ensures Valid() && View() == M.DeleteStep(old(View()), c)
      ensures rc == if |list.nodes| < |old(list.nodes)| then 0 else -1
    {
      if c.id == "" {
        return -1;
      }
      PollStates(c.polling);
      var found, i := FindContainer(c.id);
      if found == null || found.record.phase == Running {
        return -1;
      }
      rc := DeleteAt(found, c.save, i);
    }

    method DeleteAt(c: Container, save: SaveOutcome, ghost i: nat) returns (rc: int)
      requires Valid() && i < |list.nodes| && list.nodes[i] == c
      modifies this`heap, this`files, list, list.nodes`next, c`next
      ensures Valid() && View() == M.DeleteAt(old(View()), i, save)
      ensures rc == if |list.nodes| < |old(list.nodes)| then 0 else -1
    {
      UnlinkRecord(c, i);
      ghost var w := View();
      rc := SaveMetadata(save);
      FinishDelete(c, rc == 0, w, save);
    }

    method FinishDelete(c: Container, saved: bool, ghost w: M.World, ghost save: SaveOutcome)
      requires Valid() && c !in list.nodes && View() == M.SaveWorld(w, save) && saved == M.SaveOk(w, save)
      modifies this`heap, list, list.nodes`next, c`next
      ensures Valid() && View() == M.Deleted(w, c.record, save)
      ensures list.nodes == old(list.nodes) + if saved then [] else [c]
    {
      if saved {
        heap := M.FreeStack(heap, c.record.stack);
      } else {
        RelinkRecord(c);
      }
    }

    method UnlinkRecord(c: Container, ghost i: nat)
      requires Valid() && i < |list.nodes| && list.nodes[i] == c
      modifies list, list.nodes`next
      ensures Valid() && c !in list.nodes && list.nodes == RemoveAt(old(list.nodes), i)
      ensures (forall k :: 0 <= k < |list.nodes| ==> list.nodes[k] in old(list.nodes))
      ensures View() == old(View()).(records := RemoveAt(old(View()).records, i))
    {
      OnlyThere(list.nodes, i);
      list.Remove(c);
    }

    method RelinkRecord(c: Container)
      requires Valid() && c !in list.nodes
      modifies list, list.nodes`next, c`next
      ensures Valid() && list.nodes == old(list.nodes) + [c]
      ensures View() == old(View()).(records := old(View()).records + [c.record])
    {
      list.Append(c);
    }

    /** Clear the targets, then add every running pid; an add may run out of memory. */
    method RefreshTargets(memory: bool) returns (ghost lost: set<nat>)
      requires Valid()
      modifies scheduler, scheduler.targets
      ensures Valid() && Grown() && View() == M.RefreshStep(old(View()), lost) && (memory ==> lost == {})
    {
      ghost var records, i := list.records, 0;
      lost := {};
      scheduler.ClearTargets();
      var cursor := list.head;
      while cursor != null
        invariant Valid() && i <= |list.nodes| && cursor == if i < |list.nodes| then list.nodes[i] else null
        invariant scheduler.targets == old(scheduler.targets) || fresh(scheduler.targets)
        invariant scheduler.Ring() == M.RingOf(records[..i], lost) && (memory ==> lost == {})
        invariant forall k <- lost :: k < i
        decreases |records| - i
      {
        var ok := TrackIfRunning(cursor.record, memory);
        RingOneMore(records, i, lost, ok);
        lost := if ok then lost else lost + {i};
        cursor, i := cursor.next, i + 1;
      }
      assert records[..i] == records;
    }

    method TrackIfRunning(r: Record, memory: bool) returns (ok: bool)
      requires Valid()
      modifies scheduler`targets, scheduler`targetCount, scheduler.targets
      ensures Valid() && (memory ==> ok)
      ensures scheduler.Ring() == if M.IsRunning(r) && ok then RR.Add(old(scheduler.Ring()), r.pid) else old(scheduler.Ring())
      ensures scheduler.targets == old(scheduler.targets) || fresh(scheduler.targets)
    {
      ok := true;
      if r.phase == Running && r.pid > 0 {
        ok := Track(r.pid, memory);
      }
    }

    method StopNth(c: Container, i: nat, halts: seq<(M.Halting, SaveOutcome)>)
      requires Valid() && i < |list.nodes| && list.nodes[i] == c
      modifies this`heap, this`alive, this`files, list`records, c`record, scheduler`targetCount,
               scheduler`currentIndex, scheduler.targets
      ensures Valid() && View() == M.HaltNth(old(View()), i, halts)
    {
      if i < |halts| {
        var _ := StopContainerProcess(c, halts[i].0, halts[i].1, i);
      }
    }

    method StopAll(halts: seq<(M.Halting, SaveOutcome)>)
      requires Valid()
      modifies this`heap, this`alive, this`files, list`records, list.nodes`record, scheduler`targetCount,
               scheduler`currentIndex, scheduler.targets
      ensures Valid() && View() == M.HaltRest(old(View()), 0, halts)
    {
      ghost var start := View();
      var cursor, i := list.head, 0;
      while cursor != null
        invariant Valid() && i <= |list.nodes| && cursor == if i < |list.nodes| then list.nodes[i] else null
        invariant M.HaltRest(start, 0, halts) == M.HaltRest(View(), i, halts)
        decreases |list.nodes| - i
      {
        ghost var w := View();
        StopNth(cursor, i, halts);
        HaltOneMore(w, i, halts, View());
        cursor, i := cursor.next, i + 1;
      }
    }

    method FreeAllStacks()
      requires Valid()
      modifies this`heap
      ensures Valid() && View() == old(View()).(heap := M.FreeAll(old(heap), old(View()).records))
    {
      ghost var records, i := list.records, 0;
      var cursor := list.head;
      while cursor != null
        invariant i <= |list.nodes| && cursor == if i < |list.nodes| then list.nodes[i] else null
        invariant heap == M.FreeAll(old(heap), records[..i])
        decreases |records| - i
      {
        assert records[..i + 1][..i] == records[..i] && records[..i + 1][i] == cursor.record;
        heap := M.FreeStack(heap, cursor.record.stack);
        cursor, i := cursor.next, i + 1;
      }
      assert records[..i] == records;
    }

    method CleanupAllContainers(p: M.Polling, halts: seq<(M.Halting, SaveOutcome)>, save: SaveOutcome)
      requires Valid()
      modifies this, list, list.nodes, scheduler, scheduler.targets
      ensures Valid() && View() == M.QuitStep(old(View()), p, halts, save)
    {
      PollStates(p);
      StopAll(halts);
      var _ := SaveMetadata(save);
      EndSession();
    }

    method EndSession()
      requires Valid()
      modifies this`heap, this`up, list
      ensures Valid()
      ensures View() == old(View()).(up := false, records := [], heap := M.FreeAll(old(heap), old(View()).records))
    {
      FreeAllStacks();
      list.Clear();
      up := false;
    }

    // ---- start-up ------------------------------------------------------

    /** One line of the file: split, convert, reconcile. */
    method ReadRecord(line: string) returns (r: Option<Record>)
      ensures LoadLine(line, alive) == if r.Some? then [r.value] else []
    {
      r := ParseLine(line);
      if r.Some? && r.value.phase == Running && !(0 < r.value.pid && r.value.pid in alive) {
        r := Some(r.value.(phase := Stopped, pid := -1));
      }
    }

    method RestoreLine(line: string)
      requires Valid() && nextSequence == BumpAll(1, list.records)
      modifies list, list.nodes`next, this`nextSequence
      ensures Valid() && Grown() && nextSequence == BumpAll(1, list.records)
      ensures list.records == old(list.records) + LoadLine(line, alive)
      ensures View() == old(View()).(records := list.records, nextSequence := nextSequence)
    {
      var r := ReadRecord(line);
      if r.Some? {
        RestoreRecord(r.value);
      }
    }

    method RestoreRecord(r: Record)
      requires Valid() && nextSequence == BumpAll(1, list.records)
      modifies list, list.nodes`next, this`nextSequence
      ensures Valid() && Grown() && nextSequence == BumpAll(1, list.records)
      ensures list.records == old(list.records) + [r]
      ensures View() == old(View()).(records := list.records, nextSequence := nextSequence)
    {
      BumpOneMore(list.records, r);
      var _ := AppendRecord(r);
      nextSequence := Bump(nextSequence, r.id);
    }

    method RestoreRecords(text: string)
      requires Valid() && list.nodes == [] && nextSequence == 1
      modifies list, this`nextSequence
      ensures Valid() && (forall k :: 0 <= k < |list.nodes| ==> fresh(list.nodes[k]))
      ensures list.records == Load(text, alive) && nextSequence == BumpAll(1, list.records)
    {
      var rest := text;
      while rest != []
        invariant Valid() && forall k :: 0 <= k < |list.nodes| ==> fresh(list.nodes[k])
        invariant Load(text, alive) == list.records + Load(rest, alive)
        invariant nextSequence == BumpAll(1, list.records)
        decreases |rest|
      {
        var n := LineLength(rest, LINE_CAP);
        ghost var before := list.records;
        RestoreLine(rest[..n]);
        OneLineMore(text, rest, n, before, list.records, alive);
        rest := rest[n..];
      }
    }

    /** A new process starts from nothing and takes in the file, if there is one. */
    method LoadMetadata()
      requires Valid()
      modifies this, list, scheduler
      ensures Valid() && (forall k :: 0 <= k < |list.nodes| ==> fresh(list.nodes[k])) && scheduler.targets == old(scheduler.targets)
      ensures View() == M.NewSession(old(View()), M.Reloaded(old(View())))
    {
      list.Clear();
      scheduler.ClearTargets();
      up, nextSequence, issued, heap := true, 1, [], M.Heap({}, 0, []);
      var meta := Meta(files);
      if meta.Some? {
        RestoreRecords(meta.value);
      }
    }

    method ManagerInit(p: M.Polling)
      requires Valid()
      modifies this, list, scheduler, scheduler.targets
      ensures Valid() && View() == M.BootStep(old(View()), p)
    {
      LoadMetadata();
      PollStates(p);
    }
  }

  /** The first `i` records have been printed. */
  ghost predicate Printing(rs: seq<Record>, i: nat, printed: seq<Record>, text: string) {
    i <= |rs| && printed == rs[..i] && text + Render(rs[i..]) == Render(rs)
  }

  lemma {:induction false} PrintOneMore(rs: seq<Record>, i: nat, printed: seq<Record>, text: string)
    requires i < |rs| && Printing(rs, i, printed, text)
    ensures Printing(rs, i + 1, printed + [rs[i]], text + Line(rs[i]))
  {
    assert rs[i..][0] == rs[i] && rs[i..][1..] == rs[i + 1..];
    Regroup(text, Line(rs[i]), Render(rs[i + 1..]));
  }

  lemma {:induction false} PrintedAll(rs: seq<Record>, printed: seq<Record>, text: string)
    requires Printing(rs, |rs|, printed, text)
    ensures printed == rs && text == Render(rs)
  {
    assert rs[|rs|..] == [] && text + Render([]) == text;
  }

  lemma {:induction false} FirstWithId(rs: seq<Record>, id: string, i: nat)
    requires i <= |rs| && (i < |rs| ==> rs[i].id == id) && forall j :: 0 <= j < i ==> rs[j].id != id
    ensures M.IndexOfId(rs, id) == if i < |rs| then Some(i) else None
  {
    if i > 0 { FirstWithId(rs[1..], id, i - 1); }
  }

  lemma {:induction false} RingOneMore(rs: seq<Record>, i: nat, lost: set<nat>, ok: bool)
    requires i < |rs| && forall k <- lost :: k < i
    ensures var ring := M.RingOf(rs[..i], lost);
            M.RingOf(rs[..i + 1], if ok then lost else lost + {i})
            == if M.IsRunning(rs[i]) && ok then RR.Add(ring, rs[i].pid) else ring
  {
    assert rs[..i + 1][..i] == rs[..i] && rs[..i + 1][i] == rs[i];
    LostLater(rs[..i], lost, i);
  }

  lemma {:induction false} HaltOneMore(w: M.World, i: nat, halts: seq<(M.Halting, SaveOutcome)>, w': M.World)
    requires i < |w.records| && w' == M.HaltNth(w, i, halts)
    ensures M.HaltRest(w, i, halts) == M.HaltRest(w', i + 1, halts)
  {
  }

  /** A position that is still to come makes no difference. */
  lemma {:induction false} LostLater(rs: seq<Record>, lost: set<nat>, k: nat)
    requires |rs| <= k
    ensures M.RingOf(rs, lost + {k}) == M.RingOf(rs, lost)
  {
    if rs != [] { LostLater(rs[..|rs| - 1], lost, k); }
  }

  lemma {:induction false} BumpOneMore(rs: seq<Record>, r: Record)
    ensures BumpAll(1, rs + [r]) == Bump(BumpAll(1, rs), r.id)
  {
    assert (rs + [r])[..|rs|] == rs;
  }

  lemma {:induction false} LoadFirstLine(text: string, n: nat, alive: set<int>)
    requires text != [] && n == LineLength(text, LINE_CAP)
    ensures Load(text, alive) == LoadLine(text[..n], alive) + Load(text[n..], alive)
  {
    var lines := Lines(text);
    assert lines[0] == text[..n] && lines[1..] == Lines(text[n..]);
  }

  lemma {:induction false} OneLineMore(text: string, rest: string, n: nat, before: seq<Record>, after: seq<Record>,
                                      alive: set<int>)
    requires rest != [] && n == LineLength(rest, LINE_CAP)
    requires Load(text, alive) == before + Load(rest, alive) && after == before + LoadLine(rest[..n], alive)
    ensures Load(text, alive) == after + Load(rest[n..], alive)
  {
    LoadFirstLine(rest, n, alive);
    Regroup(before, LoadLine(rest[..n], alive), Load(rest[n..], alive));
  }
}
