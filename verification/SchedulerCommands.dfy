/**
  What the main thread's commands come to, against any steps of the scheduler thread in between:
  the refresh of `sched on` and `sched off`, start, stop and the reaping of a container.
*/
module SchedulerCommands {
  import RR = RoundRobin
  import opened Interleaving

  type Pid = RR.Pid

  /** Both threads step; no process exits and no further command is issued. */
  predicate Stepping(run: seq<Event>) { forall e <- run :: e.Main? || e.Turn? || e.Signal? }

  /** The scheduler thread sleeps throughout. */
  predicate MainOnly(run: seq<Event>) { forall e <- run :: e.Main? }

  ghost predicate AllLive(s: State) { RR.Distinct(s.running) && forall p <- s.running :: p > 0 && p in s.alive }

  // ---- the refresh -----------------------------------------------------

  function Least(a: nat, b: nat): nat { if a <= b then a else b }

  /** The acts of a refresh with scheduling on, by position. */
  lemma {:induction false} PlanOn(running: seq<Pid>, k: nat)
    ensures var plan, n := RefreshPlan(true, running), |running|;
            && |plan| == (if n == 0 then 1 else 2 * n + 1)
            && (k < |plan| ==>
                  plan[k] == if k == 0 then ClearTargets else if k <= n then AddTarget(running[k - 1])
                             else if k < 2 * n then SendStop(running[k - n]) else SendCont(running[0]))
  {
  }

  lemma {:induction false} PlanOff(running: seq<Pid>, k: nat)
    ensures var plan, n := RefreshPlan(false, running), |running|;
            && |plan| == 2 * n + 1
            && (k < |plan| ==>
                  plan[k] == if k == 0 then ClearTargets else if k <= n then AddTarget(running[k - 1])
                             else SendCont(running[k - n - 1]))
  {
  }

  /** The ring after `k` acts; if the thread has slept, its index is 0. */
  ghost predicate Filled(ring: RR.Ring, running: seq<Pid>, k: nat, quiet: bool) {
    1 <= k ==> ring.targets == running[..Least(k - 1, |running|)] && (quiet ==> ring.index == 0)
  }

  /** Who is stopped and resumed after `k` acts of a refresh with scheduling on. */
  ghost predicate Parked(paused: set<Pid>, running: seq<Pid>, k: nat) {
    && (forall i :: 1 <= i < |running| && |running| + i < k ==> running[i] in paused)
    && (0 < |running| && k == 2 * |running| + 1 ==> running[0] !in paused)
  }

  /** The refresh has done its first `k` acts; `quiet` says that the thread has slept since. */
  ghost predicate Refreshing(s: State, running: seq<Pid>, on: bool, k: nat, quiet: bool) {
    && WellFormed(s) && AllLive(s) && s.running == running && s.enabled == on
    && k <= |RefreshPlan(on, running)| && s.todo == RefreshPlan(on, running)[k..]
    && Filled(s.ring, running, k, quiet) && (quiet && on ==> Parked(s.paused, running, k))
  }

  lemma {:induction false} ThreadKeepsRefreshing(s: State, e: Event, running: seq<Pid>, on: bool, k: nat, quiet: bool)
    requires Refreshing(s, running, on, k, quiet) && Enabled(s, e) && (e.Turn? || e.Signal?)
    ensures Refreshing(Step(s, e), running, on, k, false)
  {
    StepKeeps(s, e);
    if 1 <= k {
      forall p | p in s.ring.targets ensures RR.Live(s.alive, p) { assert p in running; }
      RR.SurvivorsOfLive(s.ring.targets, s.alive);
    }
  }

  lemma {:induction false} FillStep(ring: RR.Ring, running: seq<Pid>, k: nat, quiet: bool)
    requires RR.Distinct(running) && Filled(ring, running, k, quiet)
    ensures Filled(RR.Ring([], 0), running, 1, true)
    ensures 1 <= k <= |running| ==> Filled(RR.Add(ring, running[k - 1]), running, k + 1, quiet)
    ensures |running| < k ==> Filled(ring, running, k + 1, quiet)
  {
    if 1 <= k <= |running| {
      assert running[k - 1] !in running[..k - 1] && running[..k - 1] + [running[k - 1]] == running[..k];
    }
  }

  lemma {:induction false} ParkStep(paused: set<Pid>, running: seq<Pid>, k: nat)
    requires RR.Distinct(running) && Parked(paused, running, k) && k < 2 * |running| + 1
    ensures k <= |running| && 0 < |running| ==> Parked(paused, running, k + 1)
    ensures |running| < k < 2 * |running| ==> Parked(paused + {running[k - |running|]}, running, k + 1)
    ensures k == 2 * |running| && 0 < |running| ==> Parked(paused - {running[0]}, running, k + 1)
  {
  }

  lemma {:induction false} MainKeepsRefreshing(s: State, running: seq<Pid>, on: bool, k: nat, quiet: bool)
    requires Refreshing(s, running, on, k, quiet) && s.todo != []
    ensures Refreshing(Step(s, Main), running, on, k + 1, quiet)
  {
    var plan := RefreshPlan(on, running);
    StepKeeps(s, Main);
    if on { PlanOn(running, k); } else { PlanOff(running, k); }
    assert s.todo[0] == plan[k] && s.todo[1..] == plan[k + 1..];
    ActKeepsRefreshing(s, plan[k], running, on, k, quiet);
  }

  /** What one act does to the ring and to the processes, given where it stands in the plan. */
  lemma {:induction false} ActKeepsRefreshing(s: State, act: Act, running: seq<Pid>, on: bool, k: nat, quiet: bool)
    requires AllLive(s) && s.running == running && s.enabled == on && s.todo != [] && s.todo[0] == act
    requires k < if on && running == [] then 1 else 2 * |running| + 1
    requires act == if k == 0 then ClearTargets else if k <= |running| then AddTarget(running[k - 1])
                    else if !on then SendCont(running[k - |running| - 1])
                    else if k < 2 * |running| then SendStop(running[k - |running|]) else SendCont(running[0])
    requires Filled(s.ring, running, k, quiet) && (quiet && on ==> Parked(s.paused, running, k))
    ensures var s' := Step(s, Main);
            && s'.running == running && s'.alive == s.alive && s'.enabled == on && s'.todo == s.todo[1..]
            && Filled(s'.ring, running, k + 1, quiet) && (quiet && on ==> Parked(s'.paused, running, k + 1))
  {
    FillStep(s.ring, running, k, quiet);
    if quiet && on { ParkStep(s.paused, running, k); }
    if on && |running| < k < 2 * |running| { assert running[k - |running|] in running; }
  }

  lemma {:induction false} MainOnlySplit(run: seq<Event>)
    requires run != []
    ensures MainOnly(run) <==> run[0].Main? && MainOnly(run[1..])
    ensures Stepping(run) <==> (run[0].Main? || run[0].Turn? || run[0].Signal?) && Stepping(run[1..])
  {
    assert forall e :: e in run <==> e == run[0] || e in run[1..];
  }

  lemma {:induction false} RunKeepsRefreshing(s: State, run: seq<Event>, running: seq<Pid>, on: bool, k: nat, quiet: bool)
    returns (k': nat)
    requires Refreshing(s, running, on, k, quiet) && ValidRun(s, run) && Stepping(run)
    ensures Refreshing(Run(s, run), running, on, k', quiet && MainOnly(run))
    decreases |run|
  {
    if run == [] {
      k' := k;
    } else {
      MainOnlySplit(run);
      if run[0].Main? {
        MainKeepsRefreshing(s, running, on, k, quiet);
        k' := RunKeepsRefreshing(Step(s, run[0]), run[1..], running, on, k + 1, quiet);
      } else {
        ThreadKeepsRefreshing(s, run[0], running, on, k, quiet);
        k' := RunKeepsRefreshing(Step(s, run[0]), run[1..], running, on, k, false);
      }
    }
  }

  /** The state two main steps into `sched on` or `sched off`: the flag is set, the plan is made. */
  lemma {:induction false} PlanIsMade(s: State, on: bool)
    requires WellFormed(s) && AllLive(s) && s.todo == [BeginRefresh] && s.enabled == on
    ensures Refreshing(Step(s, Main), s.running, on, 0, true)
  {
    StepKeeps(s, Main);
    var plan := RefreshPlan(on, s.running);
    assert s.todo[1..] == [] && plan + [] == plan && plan[0..] == plan;
    if on { PlanOn(s.running, 0); } else { PlanOff(s.running, 0); }
  }

  /** Before the plan is made: the flag may still have to be set. */
  ghost predicate Announced(s: State, on: bool) {
    && WellFormed(s) && AllLive(s)
    && (s.todo == [SetEnabled(on), BeginRefresh] || (s.todo == [BeginRefresh] && s.enabled == on))
  }

  lemma {:induction false} AnnouncedStep(s: State, e: Event, on: bool)
    requires Announced(s, on) && Enabled(s, e) && (e.Turn? || e.Signal? || (e.Main? && |s.todo| == 2))
    ensures Announced(Step(s, e), on) && Step(s, e).running == s.running
  {
    StepKeeps(s, e);
  }

  lemma {:induction false} RefreshRuns(s: State, run: seq<Event>, on: bool)
    requires Announced(s, on) && ValidRun(s, run) && Stepping(run)
    ensures var e := Run(s, run);
            e.todo == [] ==> Refreshing(e, s.running, on, |RefreshPlan(on, s.running)|, MainOnly(run))
    decreases |run|
  {
    if run != [] {
      MainOnlySplit(run);
      if run[0].Main? && |s.todo| == 1 {
        PlanIsMade(s, on);
        var k := RunKeepsRefreshing(Step(s, run[0]), run[1..], s.running, on, 0, true);
      } else {
        AnnouncedStep(s, run[0], on);
        RefreshRuns(Step(s, run[0]), run[1..], on);
        if Run(s, run).todo == [] { Quieter(Run(s, run), s.running, on, MainOnly(run[1..]), MainOnly(run)); }
      }
    }
  }

  lemma {:induction false} Quieter(e: State, running: seq<Pid>, on: bool, quiet: bool, quiet': bool)
    requires Refreshing(e, running, on, |RefreshPlan(on, running)|, quiet) && (quiet' ==> quiet)
    ensures Refreshing(e, running, on, |RefreshPlan(on, running)|, quiet')
  {
  }

  /**
    `sched on` and `sched off`, whatever the scheduler thread does meanwhile: the targets end up as
    exactly the RUNNING pids in list order, and the flag as it was asked for.
  */
  lemma {:induction false} RefreshSetsTargets(s: State, run: seq<Event>, on: bool)
    requires WellFormed(s) && AllLive(s) && s.todo == [SetEnabled(on), BeginRefresh]
    requires ValidRun(s, run) && Stepping(run) && Run(s, run).todo == []
    ensures var e := Run(s, run);
            e.ring.targets == s.running && e.running == s.running && e.enabled == on && WellFormed(e) && AllLive(e)
    ensures MainOnly(run) ==> Run(s, run).ring.index == 0
  {
    RefreshRuns(s, run, on);
    assert s.running[..|s.running|] == s.running;
  }

  /** The same from the moment the command is typed. */
  lemma {:induction false} SwitchSetsTargets(s: State, on: bool, s1: State, run: seq<Event>)
    requires var c := Issue(if on then SchedOn else SchedOff); WellFormed(s) && AllLive(s) && Enabled(s, c) && s1 == Step(s, c)
    requires ValidRun(s1, run) && Stepping(run) && Run(s1, run).todo == []
    ensures var e := Run(s1, run); e.ring.targets == s.running && e.running == s.running && e.enabled == on
    ensures !on && !s.thread.Picked? && run != [] && run[0].Main? ==> forall p <- s.running :: p !in Run(s1, run).paused
  {
    StepKeeps(s, Issue(if on then SchedOn else SchedOff));
    RefreshSetsTargets(s1, run, on);
    if !on && !s.thread.Picked? && run != [] && run[0].Main? {
      MainOnlySplit(run);
      StaysUndisturbed(run[1..]);
      SchedOffClean(s1, run[1..]);
    }
  }

  lemma {:induction false} StaysUndisturbed(run: seq<Event>)
    requires Stepping(run)
    ensures StaysOff(run)
  {
  }

  /**
    `sched on` while the scheduler thread sleeps: the first RUNNING container runs, every other is
    stopped, and the first is the current target.
  */
  lemma {:induction false} SchedOnStopsOthers(s: State, run: seq<Event>)
    requires WellFormed(s) && AllLive(s) && s.todo == [SetEnabled(true), BeginRefresh]
    requires ValidRun(s, run) && MainOnly(run) && Run(s, run).todo == []
    ensures var e := Run(s, run);
            && e.ring == RR.Ring(s.running, 0)
            && (forall i :: 0 <= i < |s.running| ==> (s.running[i] in e.paused <==> i != 0))
  {
    RefreshSetsTargets(s, run, true);
    RefreshRuns(s, run, true);
    PlanOn(s.running, 0);
  }

  // ---- and then it settles ---------------------------------------------

  /** The thread goes round `t` times: pick, stop, resume. */
  function Rounds(t: nat): seq<Event> { if t == 0 then [] else [Turn, Signal, Signal] + Rounds(t - 1) }

  /** Scheduling is on, both threads are idle, and the targets are at least two living processes. */
  ghost predicate Settling(s: State) {
    && WellFormed(s) && s.enabled && s.todo == [] && s.thread.Asleep?
    && 2 <= |s.ring.targets| && forall p <- s.ring.targets :: RR.Live(s.alive, p)
  }

  lemma {:induction false} ThreeSteps(s: State)
    requires Settling(s)
    ensures var s1 := Step(s, Turn);
            && s1.thread.Picked? && Step(s1, Signal).thread.HasStopped?
            && var (r, paused) := RR.Tick(s.ring, s.paused);
               Step(Step(s1, Signal), Signal) == s.(ring := r, paused := paused)
  {
    RR.SurvivorsOfLive(s.ring.targets, s.alive);
    assert RR.Turn(s.ring) in s.ring.targets;
  }

  /** One round of the thread is one tick of the ring. */
  lemma {:induction false} RoundIsTick(s: State, rest: seq<Event>)
    requires Settling(s)
    ensures var (r, paused) := RR.Tick(s.ring, s.paused);
            var s' := s.(ring := r, paused := paused);
            && Settling(s')
            && (ValidRun(s', rest) ==> ValidRun(s, [Turn, Signal, Signal] + rest)
                                       && Run(s, [Turn, Signal, Signal] + rest) == Run(s', rest))
  {
    ThreeSteps(s);
    var s1 := Step(s, Turn);
    var s2 := Step(s1, Signal);
    var s3 := Step(s2, Signal);
    StepKeeps(s, Turn);
    StepKeeps(s1, Signal);
    StepKeeps(s2, Signal);
    if ValidRun(s3, rest) {
      RunOne(s2, Signal, rest);
      RunOne(s1, Signal, [Signal] + rest);
      RunOne(s, Turn, [Signal] + ([Signal] + rest));
      assert [Turn, Signal, Signal] + rest == [Turn] + ([Signal] + ([Signal] + rest));
    }
  }

  lemma {:induction false} RoundsAreTicks(s: State, t: nat)
    requires Settling(s)
    ensures var (r, paused) := RR.Ticks(s.ring, s.paused, t);
            ValidRun(s, Rounds(t)) && Run(s, Rounds(t)) == s.(ring := r, paused := paused)
    decreases t
  {
    if t > 0 {
      var (r, paused) := RR.Tick(s.ring, s.paused);
      RoundIsTick(s, Rounds(t - 1));
      RoundsAreTicks(s.(ring := r, paused := paused), t - 1);
    }
  }

  /**
    `sched on` with at least two RUNNING containers and any steps of the thread in between: once
    the command is done and the thread has sent what it had picked, n-1 rounds later and ever after
    exactly one of them runs, the current target.
  */
  lemma {:induction false} SchedOnConverges(s: State, run: seq<Event>, t: nat)
    requires WellFormed(s) && AllLive(s) && s.todo == [SetEnabled(true), BeginRefresh] && 2 <= |s.running|
    requires ValidRun(s, run) && Stepping(run) && Run(s, run).todo == [] && Run(s, run).thread.Asleep?
    requires |s.running| - 1 <= t
    ensures ValidRun(Run(s, run), Rounds(t))
    ensures var f := Run(Run(s, run), Rounds(t));
            && f.ring.targets == s.running && f.ring.index < |s.running|
            && (forall i :: 0 <= i < |s.running| ==> (s.running[i] in f.paused <==> i != f.ring.index))
  {
    RefreshSetsTargets(s, run, true);
    var e := Run(s, run);
    RoundsAreTicks(e, t);
    RR.Stabilises(e.ring, e.paused, t);
  }

  // ---- stop, start and reaping -----------------------------------------

  /** How far `stop` has come with `p`: kill, untrack, take off the list. */
  ghost predicate Stopping(s: State, p: Pid) {
    var n := |s.todo|;
    && WellFormed(s) && n <= 3
    && (n == 3 ==> s.todo[0] == SendKill(p))
    && (n >= 2 ==> s.todo[n - 2] == RemoveTarget(p))
    && (n >= 1 ==> s.todo[n - 1] == Unregister(p))
    && (n <= 2 ==> p !in s.alive && p !in s.paused)
    && (n <= 1 ==> p !in s.ring.targets)
    && (n == 0 ==> p !in s.running)
  }

  lemma {:induction false} StoppingStep(s: State, e: Event, p: Pid)
    requires Stopping(s, p) && Enabled(s, e) && !e.Issue?
    ensures Stopping(Step(s, e), p)
  {
    StepKeeps(s, e);
    match e
    case Main => RR.RemoveKeeps(s.ring, p); WithoutKeeps(s.running, p);
    case Turn => RR.PruneKeeps(s.ring, s.alive);
    case _ =>
  }

  lemma {:induction false} StoppingRuns(s: State, run: seq<Event>, p: Pid)
    requires Stopping(s, p) && ValidRun(s, run) && Undisturbed(run)
    ensures Stopping(Run(s, run), p)
    decreases |run|
  {
    if run != [] {
      assert run[0] in run && forall f <- run[1..] :: f in run;
      StoppingStep(s, run[0], p);
      StoppingRuns(Step(s, run[0]), run[1..], p);
    }
  }

  /** After `stop`, whatever happens meanwhile, the process is gone, untracked and not RUNNING. */
  lemma {:induction false} StopTakesOut(s: State, p: Pid, s1: State, run: seq<Event>)
    requires WellFormed(s) && Enabled(s, Issue(Halt(p))) && s1 == Step(s, Issue(Halt(p)))
    requires ValidRun(s1, run) && Undisturbed(run) && Run(s1, run).todo == []
    ensures var e := Run(s1, run); p !in e.alive && p !in e.ring.targets && p !in e.running && p !in e.paused
  {
    StepKeeps(s, Issue(Halt(p)));
    StoppingRuns(s1, run, p);
  }

  /** How far `start` has come with `p`, as long as it lives: put on the list, track if asked to. */
  ghost predicate Starting(s: State, p: Pid, tracked: bool) {
    var n := |s.todo|;
    && WellFormed(s) && p > 0 && p in s.alive && n <= (if tracked then 2 else 1)
    && (n == (if tracked then 2 else 1) ==> s.todo[0] == Register(p))
    && (tracked && n >= 1 ==> s.todo[n - 1] == AddTarget(p))
    && (n < (if tracked then 2 else 1) ==> s.running != [] && s.running[|s.running| - 1] == p)
    && (tracked && n == 0 ==> p in s.ring.targets)
  }

  lemma {:induction false} StartingStep(s: State, e: Event, p: Pid, tracked: bool)
    requires Starting(s, p, tracked) && Enabled(s, e) && (e.Main? || e.Turn? || e.Signal?)
    ensures Starting(Step(s, e), p, tracked)
  {
    StepKeeps(s, e);
    match e
    case Turn => RR.PruneKeeps(s.ring, s.alive);
    case Main => StartingAct(s, p, tracked);
    case _ =>
  }

  lemma {:induction false} StartingAct(s: State, p: Pid, tracked: bool)
    requires RR.Valid(s.ring) && s.todo != [] && |s.todo| <= (if tracked then 2 else 1)
    requires |s.todo| == (if tracked then 2 else 1) ==> s.todo[0] == Register(p)
    requires tracked ==> s.todo[|s.todo| - 1] == AddTarget(p)
    requires |s.todo| < (if tracked then 2 else 1) ==> s.running != [] && s.running[|s.running| - 1] == p
    ensures var s' := Step(s, Main);
            && s'.todo == s.todo[1..] && s'.alive == s.alive
            && s'.running != [] && s'.running[|s'.running| - 1] == p
            && (tracked && |s.todo| == 1 ==> p in s'.ring.targets)
  {
    RR.AddKeeps(s.ring, p);
  }

  lemma {:induction false} StartingRuns(s: State, run: seq<Event>, p: Pid, tracked: bool)
    requires Starting(s, p, tracked) && ValidRun(s, run) && Stepping(run)
    ensures Starting(Run(s, run), p, tracked)
    decreases |run|
  {
    if run != [] {
      MainOnlySplit(run);
      StartingStep(s, run[0], p, tracked);
      StartingRuns(Step(s, run[0]), run[1..], p, tracked);
    }
  }

  /** After `start` the new pid is the last of the RUNNING ones, and a target if it was to be tracked. */
  lemma {:induction false} StartPutsIn(s: State, p: Pid, tracked: bool, s1: State, run: seq<Event>)
    requires WellFormed(s) && Enabled(s, Issue(Launch(p, tracked))) && s1 == Step(s, Issue(Launch(p, tracked)))
    requires ValidRun(s1, run) && Stepping(run) && Run(s1, run).todo == []
    ensures var e := Run(s1, run);
            && e.running != [] && e.running[|e.running| - 1] == p && p in e.alive
            && (tracked ==> p in e.ring.targets)
  {
    StepKeeps(s, Issue(Launch(p, tracked)));
    StartingRuns(s1, run, p, tracked);
  }

  /** How far the reaping of a dead `p` has come: take off the list, untrack if asked to. */
  ghost predicate Reaping(s: State, p: Pid, untrack: bool) {
    var n := |s.todo|;
    && WellFormed(s) && p !in s.alive && n <= (if untrack then 2 else 1)
    && (n == (if untrack then 2 else 1) ==> s.todo[0] == Unregister(p))
    && (untrack && n >= 1 ==> s.todo[n - 1] == RemoveTarget(p))
    && (n < (if untrack then 2 else 1) ==> p !in s.running)
    && (untrack && n == 0 ==> p !in s.ring.targets)
  }

  lemma {:induction false} ReapingStep(s: State, e: Event, p: Pid, untrack: bool)
    requires Reaping(s, p, untrack) && Enabled(s, e) && !e.Issue?
    ensures Reaping(Step(s, e), p, untrack)
  {
    StepKeeps(s, e);
    match e
    case Main => RR.RemoveKeeps(s.ring, p); WithoutKeeps(s.running, p);
    case Turn => RR.PruneKeeps(s.ring, s.alive);
    case _ =>
  }

  lemma {:induction false} ReapingRuns(s: State, run: seq<Event>, p: Pid, untrack: bool)
    requires Reaping(s, p, untrack) && ValidRun(s, run) && Undisturbed(run)
    ensures Reaping(Run(s, run), p, untrack)
    decreases |run|
  {
    if run != [] {
      assert run[0] in run && forall f <- run[1..] :: f in run;
      ReapingStep(s, run[0], p, untrack);
      ReapingRuns(Step(s, run[0]), run[1..], p, untrack);
    }
  }

  /** After a poll has found `p` dead it is not RUNNING, and no target unless only the recovery check found it. */
  lemma {:induction false} ReapTakesOff(s: State, p: Pid, untrack: bool, s1: State, run: seq<Event>)
    requires WellFormed(s) && Enabled(s, Issue(Reap(p, untrack))) && s1 == Step(s, Issue(Reap(p, untrack)))
    requires ValidRun(s1, run) && Undisturbed(run) && Run(s1, run).todo == []
    ensures var e := Run(s1, run); p !in e.running && (untrack ==> p !in e.ring.targets)
  {
    StepKeeps(s, Issue(Reap(p, untrack)));
    ReapingRuns(s1, run, p, untrack);
  }
}
