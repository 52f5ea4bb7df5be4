/**
  `src/scheduler.c` in its own form: the pid array that grows by doubling, is compacted in
  place and loses elements by swap with the last.  Every method is proved equal to the
  operation of `RoundRobin` on the pids the array holds.  Each method is one critical
  section of `g_state.mutex`; `Interleaving.dfy` says what happens between them.
*/
module Scheduler {
  import RR = RoundRobin

  const INITIAL_CAPACITY: nat := 8

  function InRange(index: nat, count: nat): (i: nat)
    requires 0 < count
    ensures index < count ==> i == index
  {
    index % count
  }

  function Advance(index: nat, count: nat): (i: nat)
    requires index < count
    ensures i == RR.Successor(index, count)
  {
    (index + 1) % count
  }

  class SchedulerState {
    var enabled: bool
    var timeSliceMs: nat
    var targets: array<RR.Pid>
    var targetCount: nat
    var currentIndex: nat

    ghost function Ring(): RR.Ring
      requires targetCount <= targets.Length
      reads this, targets
    {
      RR.Ring(targets[..targetCount], currentIndex)
    }

    ghost predicate Valid()
      reads this, targets
    {
      targetCount <= targets.Length && RR.Valid(Ring())
    }

    constructor ()
      ensures Valid() && Ring() == RR.Ring([], 0) && !enabled && timeSliceMs == 200
      ensures fresh(targets) && targets.Length == 0
    {
      enabled, timeSliceMs, targetCount, currentIndex := false, 200, 0, 0;
      targets := new RR.Pid[0];
    }

    /** `realloc` either hands over the pids in a larger block or fails and changes nothing. */
    method EnsureCapacity(desired: nat, allocationSucceeds: bool) returns (ok: bool)
      requires Valid()
      modifies this`targets
      ensures Valid() && Ring() == old(Ring())
      ensures ok <==> desired <= old(targets.Length) || allocationSucceeds
      ensures ok ==> desired <= targets.Length
      ensures targets.Length <= old(targets.Length) || targets.Length < 2 * desired + INITIAL_CAPACITY
      ensures targets == old(targets) || fresh(targets)
    {
      if desired <= targets.Length {
        return true;
      }
      var capacity := if targets.Length == 0 then INITIAL_CAPACITY else targets.Length;
      while capacity < desired
        invariant 0 < capacity
        invariant capacity == INITIAL_CAPACITY || capacity == targets.Length || capacity < 2 * desired
        decreases desired - capacity
      {
        capacity := capacity * 2;
      }
      if !allocationSucceeds {
        return false;
      }
      var next := new RR.Pid[capacity](i requires 0 <= i reads this, targets =>
                                         if i < targets.Length then targets[i] else 0);
      assert next[..targetCount] == targets[..targetCount];
      targets := next;
      return true;
    }

    /** Compact the living to the front, keeping their order. */
    method PruneDead(alive: set<RR.Pid>)
      requires Valid()
      modifies this`targetCount, this`currentIndex, targets
      ensures Valid() && Ring() == RR.Prune(old(Ring()), alive)
    {
      RR.PruneKeeps(Ring(), alive);
      targetCount := CompactLiving(alive);
      if currentIndex >= targetCount {
        currentIndex := 0;
      }
    }

    method CompactLiving(alive: set<RR.Pid>) returns (count: nat)
      requires targetCount <= targets.Length
      modifies targets
      ensures count <= targetCount && targets[..count] == RR.Survivors(old(targets[..targetCount]), alive)
    {
      ghost var was := targets[..targetCount];
      count := 0;
      for i := 0 to targetCount
        invariant count <= i
        invariant targets[..count] == RR.Survivors(was[..i], alive)
        invariant forall k :: i <= k < targetCount ==> targets[k] == was[k]
      {
        RR.SurvivorsStep(was, i, alive);
        var pid := targets[i];
        if 0 < pid && pid in alive {
          targets[count] := pid;
          count := count + 1;
          assert targets[..count] == targets[..count - 1] + [pid];
        }
      }
      assert was[..targetCount] == was;
    }

    /** The thread's critical section: prune, then choose whom to stop and whom to resume. */
    method Pick(alive: set<RR.Pid>) returns (picked: bool, current: RR.Pid, next: RR.Pid)
      requires Valid()
      modifies this`targetCount, this`currentIndex, targets
      ensures Valid()
      ensures var r := RR.Prune(old(Ring()), alive);
              && picked == (enabled && 2 <= |r.targets|)
              && (if picked
                  then Ring() == RR.Rotate(r) && current == RR.Turn(r) && next == RR.Turn(RR.Rotate(r))
                       && current != next && current > 0 && next > 0
                  else Ring() == r && current == next == -1)
    {
      RR.PruneKeeps(old(Ring()), alive);
      PruneDead(alive);
      var count := targetCount;
      if !enabled || count < 2 {
        return false, -1, -1;
      }
      ghost var r := Ring();
      var at := InRange(currentIndex, count);
      current := targets[at];
      currentIndex := Advance(currentIndex, count);
      at := InRange(currentIndex, count);
      next := targets[at];
      picked := true;
      assert current == r.targets[r.index] && next == r.targets[currentIndex];
      assert current in r.targets && next in r.targets;
    }

    method SetEnabled(on: bool)
      requires Valid()
      modifies this`enabled
      ensures Valid() && Ring() == old(Ring()) && enabled == on
    {
      enabled := on;
    }

    method SetTimeSliceMs(ms: nat) returns (rc: int)
      modifies this`timeSliceMs
      ensures rc == -1 <==> ms == 0
      ensures timeSliceMs == if ms == 0 then old(timeSliceMs) else ms
    {
      if ms == 0 {
        return -1;
      }
      timeSliceMs := ms;
      return 0;
    }

    method AddTarget(pid: RR.Pid, allocationSucceeds: bool) returns (rc: int)
      requires Valid()
      modifies this`targets, this`targetCount, targets
      ensures Valid() && rc in {0, -1}
      ensures Ring() == if rc == 0 then RR.Add(old(Ring()), pid) else old(Ring())
      ensures allocationSucceeds || pid in old(Ring()).targets ==> rc == 0
      ensures targets == old(targets) || fresh(targets)
    {
      RR.AddKeeps(Ring(), pid);
      for i := 0 to targetCount
        invariant pid !in targets[..i]
      {
        if targets[i] == pid {
          assert pid in targets[..targetCount];
          return 0;
        }
        assert targets[..i + 1] == targets[..i] + [targets[i]];
      }
      var ok := EnsureCapacity(targetCount + 1, allocationSucceeds);
      if !ok {
        return -1;
      }
      targets[targetCount] := pid;
      targetCount := targetCount + 1;
      assert targets[..targetCount] == old(targets[..targetCount]) + [pid];
      return 0;
    }

    method RemoveTarget(pid: RR.Pid) returns (rc: int)
      requires Valid()
      modifies this`targetCount, this`currentIndex, targets
      ensures Valid() && Ring() == RR.Remove(old(Ring()), pid)
      ensures rc == if pid in old(Ring()).targets then 0 else -1
    {
      ghost var was := targets[..targetCount];
      RR.RemoveKeeps(Ring(), pid);
      rc := -1;
      var i := 0;
      while i < targetCount && targets[i] != pid
        invariant i <= targetCount
        invariant pid !in was[..i]
      {
        assert was[..i + 1] == was[..i] + [was[i]];
        i := i + 1;
      }
      if i < targetCount {
        assert was[i] == pid;
        RR.UniqueIndex(was, i);
        targets[i] := targets[targetCount - 1];
        targetCount := targetCount - 1;
        assert targets[..targetCount] == RR.SwapOut(was, i);
        rc := 0;
      } else {
        assert was[..i] == was;
      }
      if currentIndex >= targetCount {
        currentIndex := 0;
      }
    }

    method ClearTargets()
      modifies this`targetCount, this`currentIndex
      ensures Valid() && Ring() == RR.Ring([], 0)
    {
      targetCount := 0;
      currentIndex := 0;
    }
  }
}
