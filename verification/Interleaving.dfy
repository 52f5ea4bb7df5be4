/**
  The scheduler thread against the main thread.  The thread chooses whom to stop and whom to
  resume inside `g_state.mutex` but sends the two signals outside it
  (src/scheduler.c:105-133), and the main thread's refresh (src/container.c:752-782) is a
  series of critical sections and signals of its own.  Here every critical section and every
  kill() is one event and the two threads interleave freely; processes may exit at any time.
*/
module Interleaving {
  import RR = RoundRobin
  import opened RoundRobin

  datatype Thread = Asleep | Picked(current: Pid, next: Pid) | HasStopped(next: Pid)

  /** What the main thread still has to do for the command it is executing. */
  datatype Act =
    | SetEnabled(on: bool) | BeginRefresh
    | ClearTargets | AddTarget(pid: Pid) | RemoveTarget(pid: Pid)
    | SendStop(pid: Pid) | SendCont(pid: Pid) | SendKill(pid: Pid)
    | Register(pid: Pid) | Unregister(pid: Pid)

  datatype Command =
    | SchedOn | SchedOff
    | Launch(pid: Pid, tracked: bool)    // start: the clone has succeeded with this pid
    | Halt(pid: Pid)                     // stop
    | Reap(pid: Pid, untrack: bool)      // poll: the ECHILD branch does not untrack

  datatype Event = Turn | Signal | Main | Issue(command: Command) | Exit(pid: Pid)

  /** `running` is the pids of the RUNNING records in list order; `used` every pid seen so far. */
  datatype State = State(
    ring: Ring, enabled: bool, thread: Thread, todo: seq<Act>,
    running: seq<Pid>, alive: set<Pid>, paused: set<Pid>, used: set<Pid>)

  // ---- steps -----------------------------------------------------------

  function Stop(s: State, p: Pid): State {
    if p in s.alive then s.(paused := AfterStop(s.paused, p)) else s
  }

  function Cont(s: State, p: Pid): State { s.(paused := AfterCont(s.paused, p)) }

  function Kill(s: State, p: Pid): State { s.(alive := s.alive - {p}, paused := s.paused - {p}) }

  /** The thread's critical section. */
  function ThreadTurn(s: State): State {
    var r := Prune(s.ring, s.alive);
    if !s.enabled || |r.targets| < 2 then s.(ring := r)
    else s.(ring := Rotate(r), thread := Picked(RR.Turn(r), RR.Turn(Rotate(r))))
  }

  function ThreadSignal(s: State): State {
    match s.thread
    case Asleep => s
    case Picked(c, n) => Stop(s, c).(thread := HasStopped(n))
    case HasStopped(n) => Cont(s, n).(thread := Asleep)
  }

  function Conts(pids: seq<Pid>): seq<Act> { seq(|pids|, i requires 0 <= i < |pids| => SendCont(pids[i])) }
  function Stops(pids: seq<Pid>): seq<Act> { seq(|pids|, i requires 0 <= i < |pids| => SendStop(pids[i])) }
  function Adds(pids: seq<Pid>): seq<Act> { seq(|pids|, i requires 0 <= i < |pids| => AddTarget(pids[i])) }

  /** `container_scheduler_refresh_targets` once it has read the enabled flag. */
  function RefreshPlan(enabled: bool, running: seq<Pid>): seq<Act> {
    [ClearTargets] + Adds(running) +
    (if !enabled then Conts(running)
     else if running == [] then []
     else Stops(running[1..]) + [SendCont(running[0])])
  }

  function Perform(s: State, act: Act): State {
    match act
    case SetEnabled(on) => s.(enabled := on)
    case BeginRefresh => s.(todo := RefreshPlan(s.enabled, s.running) + s.todo)
    case ClearTargets => s.(ring := Ring([], 0))
    case AddTarget(p) => s.(ring := Add(s.ring, p))
    case RemoveTarget(p) => s.(ring := Remove(s.ring, p))
    case SendStop(p) => Stop(s, p)
    case SendCont(p) => Cont(s, p)
    case SendKill(p) => Kill(s, p)
    case Register(p) => s.(running := s.running + [p])
    case Unregister(p) => s.(running := Without(s.running, p))
  }

  function Without(s: seq<Pid>, p: Pid): seq<Pid> {
    if s == [] then [] else (if s[0] == p then [] else [s[0]]) + Without(s[1..], p)
  }

  function Accept(s: State, c: Command): State {
    match c
    case SchedOn => s.(todo := [SetEnabled(true), BeginRefresh])
    case SchedOff => s.(todo := [SetEnabled(false), BeginRefresh])
    case Launch(p, tracked) =>
      s.(todo := [Register(p)] + (if tracked then [AddTarget(p)] else []),
         alive := s.alive + {p}, used := s.used + {p})
    case Halt(p) => s.(todo := [SendKill(p), RemoveTarget(p), Unregister(p)])
    case Reap(p, untrack) => s.(todo := [Unregister(p)] + (if untrack then [RemoveTarget(p)] else []))
  }

  predicate CommandAllowed(s: State, c: Command) {
    match c
    case SchedOn => true
    case SchedOff => true
    case Launch(p, _) => p > 0 && p !in s.used
    case Halt(p) => p in s.running
    case Reap(p, _) => p in s.running && p !in s.alive
  }

  predicate Enabled(s: State, e: Event) {
    match e
    case Turn => s.thread.Asleep?
    case Signal => !s.thread.Asleep?
    case Main => s.todo != []
    case Issue(c) => s.todo == [] && CommandAllowed(s, c)
    case Exit(p) => p in s.alive
  }

  function Step(s: State, e: Event): State
    requires Enabled(s, e)
  {
    match e
    case Turn => ThreadTurn(s)
    case Signal => ThreadSignal(s)
    case Main => Perform(s.(todo := s.todo[1..]), s.todo[0])
    case Issue(c) => Accept(s, c)
    case Exit(p) => Kill(s, p)
  }

  predicate ValidRun(s: State, run: seq<Event>)
    decreases |run|
  {
    run == [] || (Enabled(s, run[0]) && ValidRun(Step(s, run[0]), run[1..]))
  }

  function Run(s: State, run: seq<Event>): State
    requires ValidRun(s, run)
    decreases |run|
  {
    if run == [] then s else Run(Step(s, run[0]), run[1..])
  }

  // ---- what holds in every reachable state -----------------------------

  function ThreadPids(t: Thread): set<Pid> {
    match t
    case Asleep => {}
    case Picked(c, n) => {c, n}
    case HasStopped(n) => {n}
  }

  /** A flag change heads a refresh, a refresh comes last, a registration first. */
  ghost predicate Ordered(todo: seq<Act>) {
    && (forall i :: 0 <= i < |todo| && todo[i].SetEnabled? ==> i == 0 && |todo| == 2 && todo[1] == BeginRefresh)
    && (forall i :: 0 <= i < |todo| && todo[i].BeginRefresh? ==> i == |todo| - 1)
    && (forall i :: 0 <= i < |todo| && todo[i].Register? ==> i == 0)
  }

  ghost predicate WellFormed(s: State) {
    && RR.Valid(s.ring)
    && (forall p <- s.ring.targets :: p in s.used)
    && (forall p <- s.running :: p in s.used)
    && s.paused <= s.alive <= s.used
    && ThreadPids(s.thread) <= s.used
    && (s.thread.Picked? ==> s.thread.current != s.thread.next)
    && (forall a <- s.todo :: a.AddTarget? || a.Register? ==> a.pid in s.used)
    && (forall a <- s.todo :: a.SendStop? ==> s.enabled)
    && Ordered(s.todo)
    && (forall a <- s.todo :: a.Register? ==>
          a.pid !in s.paused && a.pid !in ThreadPids(s.thread) && a.pid !in s.ring.targets)
  }

  lemma {:induction false} WithoutKeeps(s: seq<Pid>, p: Pid)
    ensures forall q <- Without(s, p) :: q in s && q != p
  {
    if s != [] { WithoutKeeps(s[1..], p); }
  }

  lemma {:induction false} TurnKeeps(s: State)
    requires WellFormed(s) && s.thread.Asleep?
    ensures WellFormed(ThreadTurn(s))
  {
    PruneKeeps(s.ring, s.alive);
    var r := Prune(s.ring, s.alive);
    if s.enabled && 2 <= |r.targets| {
      assert RR.Turn(r) in r.targets && RR.Turn(Rotate(r)) in r.targets;
    }
  }

  lemma {:induction false} PlanIsOrdered(enabled: bool, running: seq<Pid>)
    ensures var plan := RefreshPlan(enabled, running);
            && Ordered(plan)
            && (forall a <- plan :: a.ClearTargets? || a.AddTarget? || a.SendCont? || (a.SendStop? && enabled))
            && (forall a <- plan :: a.AddTarget? ==> a.pid in running)
  {
  }

  lemma {:induction false} RefreshKeeps(s: State)
    requires WellFormed(s) && s.todo != [] && s.todo[0].BeginRefresh?
    ensures WellFormed(Step(s, Main))
  {
    PlanIsOrdered(s.enabled, s.running);
    var plan := RefreshPlan(s.enabled, s.running);
    assert s.todo[1..] == [] && plan + [] == plan;
  }

  /** What is left to do after the first action. */
  lemma {:induction false} Shift(s: State)
    requires WellFormed(s) && s.todo != []
    ensures WellFormed(s.(todo := s.todo[1..]))
  {
    var rest := s.todo[1..];
    assert forall a <- rest :: a in s.todo;
    forall i | 0 <= i < |rest| ensures !rest[i].SetEnabled? && !rest[i].Register? { assert rest[i] == s.todo[i + 1]; }
    forall i | 0 <= i < |rest| && rest[i].BeginRefresh? ensures i == |rest| - 1 { assert rest[i] == s.todo[i + 1]; }
  }

  lemma {:induction false} PerformKeeps(s: State)
    requires WellFormed(s) && s.todo != [] && !s.todo[0].BeginRefresh?
    ensures WellFormed(Step(s, Main))
  {
    Shift(s);
    var act, s1 := s.todo[0], s.(todo := s.todo[1..]);
    assert act in s.todo;
    forall i | 0 <= i < |s1.todo| ensures !s1.todo[i].Register? { assert s1.todo[i] == s.todo[i + 1]; }
    match act
    case SetEnabled(_) => assert s1.todo == [BeginRefresh];
    case AddTarget(p) => AddKeeps(s.ring, p);
    case RemoveTarget(p) => RemoveKeeps(s.ring, p);
    case Unregister(p) => WithoutKeeps(s.running, p);
    case _ =>
  }

  lemma {:induction false} IssueKeeps(s: State, c: Command)
    requires WellFormed(s) && s.todo == [] && CommandAllowed(s, c)
    ensures WellFormed(Accept(s, c))
  {
  }

  lemma {:induction false} StepKeeps(s: State, e: Event)
    requires WellFormed(s) && Enabled(s, e)
    ensures WellFormed(Step(s, e))
  {
    match e
    case Turn => TurnKeeps(s);
    case Issue(c) => IssueKeeps(s, c);
    case Main => if s.todo[0].BeginRefresh? { RefreshKeeps(s); } else { PerformKeeps(s); }
    case _ =>
  }

  /** Every state of every run of a session, from an empty list on, is well formed. */
  lemma {:induction false} RunKeeps(s: State, run: seq<Event>)
    requires WellFormed(s) && ValidRun(s, run)
    ensures WellFormed(Run(s, run))
    decreases |run|
  {
    if run != [] {
      StepKeeps(s, run[0]);
      RunKeeps(Step(s, run[0]), run[1..]);
    }
  }

  // ---- targets and records at every micro-step -------------------------

  /** A pid that is a target, or about to be one, is RUNNING, dead or just being registered. */
  ghost predicate Coupled(s: State) {
    && (forall p <- s.ring.targets :: p in s.running || p !in s.alive)
    && (forall a <- s.todo :: a.AddTarget? ==> a.pid in s.running || a.pid !in s.alive || s.todo[0] == Register(a.pid))
    && (forall a <- s.todo :: a.Unregister? ==> a.pid !in s.alive || s.todo[0] == SendKill(a.pid))
  }

  lemma {:induction false} WithoutOthers(s: seq<Pid>, p: Pid, q: Pid)
    requires q in s && q != p
    ensures q in Without(s, p)
  {
    if s[0] != q { WithoutOthers(s[1..], p, q); }
  }

  lemma {:induction false} ActKeepsCoupled(s: State)
    requires WellFormed(s) && Coupled(s) && s.todo != [] && !s.todo[0].BeginRefresh?
    ensures Coupled(Step(s, Main))
  {
    var act, s' := s.todo[0], Step(s, Main);
    assert act in s.todo && forall a <- s.todo[1..] :: a in s.todo;
    match act
    case AddTarget(p) => AddKeeps(s.ring, p);
    case RemoveTarget(p) => RemoveKeeps(s.ring, p);
    case Unregister(p) =>
      forall q | q in s.running && q != p ensures q in s'.running { WithoutOthers(s.running, p, q); }
    case _ =>
  }

  lemma {:induction false} RefreshKeepsCoupled(s: State)
    requires WellFormed(s) && Coupled(s) && s.todo != [] && s.todo[0].BeginRefresh?
    ensures Coupled(Step(s, Main))
  {
    PlanIsOrdered(s.enabled, s.running);
    var plan := RefreshPlan(s.enabled, s.running);
    assert s.todo[1..] == [] && plan + [] == plan;
  }

  lemma {:induction false} StepKeepsCoupled(s: State, e: Event)
    requires WellFormed(s) && Coupled(s) && Enabled(s, e)
    ensures Coupled(Step(s, e))
  {
    match e
    case Turn => PruneKeeps(s.ring, s.alive);
    case Main => if s.todo[0].BeginRefresh? { RefreshKeepsCoupled(s); } else { ActKeepsCoupled(s); }
    case _ =>
  }

  lemma {:induction false} RunKeepsCoupled(s: State, run: seq<Event>)
    requires WellFormed(s) && Coupled(s) && ValidRun(s, run)
    ensures Coupled(Run(s, run))
    decreases |run|
  {
    if run != [] {
      StepKeeps(s, run[0]);
      StepKeepsCoupled(s, run[0]);
      RunKeepsCoupled(Step(s, run[0]), run[1..]);
    }
  }

  /** A session at its start: no target yet, nothing under way; records may have been read in. */
  ghost predicate SessionStart(s: State) {
    && s.ring == Ring([], 0) && s.thread.Asleep? && s.todo == []
    && (forall p <- s.running :: p in s.used) && s.paused <= s.alive <= s.used
  }

  /**
    After any number of micro-steps of both threads, in the middle of commands too, every
    scheduler target is the pid of a RUNNING record or of a dead process.
  */
  lemma {:induction false} TargetsAlwaysRunning(s: State, run: seq<Event>)
    requires SessionStart(s) && ValidRun(s, run)
    ensures var e := Run(s, run);
            WellFormed(e) && forall p <- e.ring.targets :: p in e.running || p !in e.alive
  {
    RunKeeps(s, run);
    RunKeepsCoupled(s, run);
  }

  // ---- turning the scheduler off ---------------------------------------

  predicate ContPending(todo: seq<Act>, p: Pid) { SendCont(p) in todo || BeginRefresh in todo }

  function LateNow(s: State, e: Event): set<Pid> {
    if e.Signal? && s.thread.Picked? && !ContPending(s.todo, s.thread.current)
    then {s.thread.current} else {}
  }

  /**
    The pids that the thread stops along a run after the main thread's refresh has already
    resumed them, or without any refresh still to come.
  */
  function LateStops(s: State, run: seq<Event>): set<Pid>
    requires ValidRun(s, run)
    decreases |run|
  {
    if run == [] then {} else LateNow(s, run[0]) + LateStops(Step(s, run[0]), run[1..])
  }

  predicate StaysOff(run: seq<Event>) { Issue(SchedOn) !in run }

  ghost predicate Off(s: State) {
    WellFormed(s) && !s.enabled && SetEnabled(true) !in s.todo
  }

  lemma {:induction false} OffStays(s: State, e: Event)
    requires Off(s) && Enabled(s, e) && e != Issue(SchedOn)
    ensures Off(Step(s, e))
    ensures Step(s, e).thread.Picked? ==> Step(s, e).thread == s.thread
  {
    StepKeeps(s, e);
    if e.Main? && s.todo[0].BeginRefresh? {
      PlanIsOrdered(false, s.running);
    }
  }

  /** At most one stop can be late: the one whose target was chosen before the switch. */
  lemma {:induction false} LateStopWasPicked(s: State, run: seq<Event>)
    requires Off(s) && ValidRun(s, run) && StaysOff(run)
    ensures LateStops(s, run) <= if s.thread.Picked? then {s.thread.current} else {}
    decreases |run|
  {
    if run != [] {
      OffStays(s, run[0]);
      LateStopWasPicked(Step(s, run[0]), run[1..]);
    }
  }

  /** Whoever is listed and paused either has its SIGCONT still coming or is in `late`. */
  ghost predicate Accounted(s: State, late: set<Pid>) {
    forall p <- s.running :: p in s.paused ==> ContPending(s.todo, p) || p in late
  }

  lemma {:induction false} RefreshCoversAll(running: seq<Pid>, p: Pid)
    requires p in running
    ensures SendCont(p) in RefreshPlan(false, running)
  {
    var i :| 0 <= i < |running| && running[i] == p;
    assert Conts(running)[i] == SendCont(p);
  }

  lemma {:induction false} StepAccounts(s: State, e: Event, late: set<Pid>)
    requires Off(s) && Enabled(s, e) && e != Issue(SchedOn) && Accounted(s, late)
    ensures Accounted(Step(s, e), late + LateNow(s, e))
  {
    var s' := Step(s, e);
    forall p | p in s'.running && p in s'.paused
      ensures ContPending(s'.todo, p) || p in late + LateNow(s, e)
    {
      if e.Main? {
        assert s.todo == [s.todo[0]] + s.todo[1..];
        match s.todo[0]
        case BeginRefresh => RefreshCoversAll(s.running, p);
        case Unregister(q) => WithoutKeeps(s.running, q);
        case _ =>
      }
    }
  }

  lemma {:induction false} RunAccounts(s: State, run: seq<Event>, late: set<Pid>)
    requires Off(s) && ValidRun(s, run) && StaysOff(run) && Accounted(s, late)
    ensures Accounted(Run(s, run), late + LateStops(s, run))
    decreases |run|
  {
    if run == [] {
      assert late + {} == late;
    } else {
      StepAccounts(s, run[0], late);
      OffStays(s, run[0]);
      var late' := late + LateNow(s, run[0]);
      RunAccounts(Step(s, run[0]), run[1..], late');
      assert late' + LateStops(Step(s, run[0]), run[1..]) == late + LateStops(s, run);
    }
  }

  /**
    `sched off`, whatever the interleaving.  Let `s` be the moment the main thread is about to
    clear the flag.  From then until the next enable, whenever the main thread is between
    commands, the RUNNING containers that are paused are among the late stops, and there is at
    most one of those: the target the thread had picked when the flag went down.
  */
  lemma {:induction false} SchedOffBound(s: State, run: seq<Event>)
    requires WellFormed(s) && s.todo == [SetEnabled(false), BeginRefresh]
    requires ValidRun(Step(s, Main), run) && StaysOff(run) && Run(Step(s, Main), run).todo == []
    ensures var s1 := Step(s, Main); var e := Run(s1, run);
            && (forall p <- e.running :: p in e.paused ==> p in LateStops(s1, run))
            && LateStops(s1, run) <= (if s.thread.Picked? then {s.thread.current} else {})
  {
    var s1 := Step(s, Main);
    StepKeeps(s, Main);
    assert s1.todo == [BeginRefresh];
    LateStopWasPicked(s1, run);
    RunAccounts(s1, run, {});
    assert {} + LateStops(s1, run) == LateStops(s1, run);
  }

  /** With nothing picked at the switch, no container is left paused. */
  lemma {:induction false} SchedOffClean(s: State, run: seq<Event>)
    requires WellFormed(s) && s.todo == [SetEnabled(false), BeginRefresh] && !s.thread.Picked?
    requires ValidRun(Step(s, Main), run) && StaysOff(run) && Run(Step(s, Main), run).todo == []
    ensures var e := Run(Step(s, Main), run); forall p <- e.running :: p !in e.paused
  {
    SchedOffBound(s, run);
  }

  // ---- exactly when a container stays paused ---------------------------

  /** The command runs on: both threads step and processes exit, but no further command. */
  predicate Undisturbed(run: seq<Event>) { forall e <- run :: !e.Issue? }

  ghost predicate Exact(s: State, late: set<Pid>) {
    && (forall p <- s.running :: !ContPending(s.todo, p) ==> (p in s.paused <==> p in late && p in s.alive))
    && (forall p <- late :: !ContPending(s.todo, p))
    && (s.thread.Picked? ==> late == {})
    && (s.thread.HasStopped? ==> s.thread.next !in late)
    && (forall a <- s.todo :: a.BeginRefresh? || a.ClearTargets? || a.AddTarget? || a.SendCont?)
  }

  lemma {:induction false} StepExact(s: State, e: Event, late: set<Pid>)
    requires Off(s) && Enabled(s, e) && !e.Issue? && Exact(s, late)
    ensures Exact(Step(s, e), late + LateNow(s, e))
  {
    var s' := Step(s, e);
    if e.Main? {
      assert s.todo == [s.todo[0]] + s.todo[1..];
      assert late + {} == late;
      assert s.todo[0] in s.todo;
      if s.todo[0].BeginRefresh? {
        forall p | p in s.running ensures ContPending(s'.todo, p) { RefreshCoversAll(s.running, p); }
        forall p | p in late ensures false { assert ContPending(s.todo, p); }
      }
    }
  }

  lemma {:induction false} RunExact(s: State, run: seq<Event>, late: set<Pid>)
    requires Off(s) && ValidRun(s, run) && Undisturbed(run) && Exact(s, late)
    ensures Exact(Run(s, run), late + LateStops(s, run))
    decreases |run|
  {
    if run == [] {
      assert late + {} == late;
    } else {
      assert run[0] in run;
      StepExact(s, run[0], late);
      OffStays(s, run[0]);
      var late' := late + LateNow(s, run[0]);
      RunExact(Step(s, run[0]), run[1..], late');
      assert late' + LateStops(Step(s, run[0]), run[1..]) == late + LateStops(s, run);
    }
  }

  /**
    The bound is exact.  When `sched off` has finished and no other command has started, a
    living RUNNING container is paused if and only if its stop landed late.
  */
  lemma {:induction false} SchedOffExact(s: State, run: seq<Event>)
    requires WellFormed(s) && s.todo == [SetEnabled(false), BeginRefresh]
    requires ValidRun(Step(s, Main), run) && Undisturbed(run) && Run(Step(s, Main), run).todo == []
    ensures var s1 := Step(s, Main); var e := Run(s1, run);
            forall p <- e.running :: p in e.paused <==> p in LateStops(s1, run) && p in e.alive
  {
    var s1 := Step(s, Main);
    StepKeeps(s, Main);
    assert s1.todo == [BeginRefresh];
    RunExact(s1, run, {});
    assert {} + LateStops(s1, run) == LateStops(s1, run);
  }

  // ---- exactly when that can happen ------------------------------------

  /** Nobody is registered or taken off the list, and nobody comes to life. */
  lemma {:induction false} UndisturbedStep(s: State, e: Event, late: set<Pid>)
    requires Off(s) && Enabled(s, e) && !e.Issue? && Exact(s, late)
    ensures Step(s, e).running == s.running && Step(s, e).alive <= s.alive
  {
    if e.Main? { assert s.todo[0] in s.todo; }
  }

  lemma {:induction false} UndisturbedRun(s: State, run: seq<Event>, late: set<Pid>)
    requires Off(s) && ValidRun(s, run) && Undisturbed(run) && Exact(s, late)
    ensures Run(s, run).running == s.running && Run(s, run).alive <= s.alive
    decreases |run|
  {
    if run != [] {
      assert run[0] in run;
      UndisturbedStep(s, run[0], late);
      StepExact(s, run[0], late);
      OffStays(s, run[0]);
      UndisturbedRun(Step(s, run[0]), run[1..], late + LateNow(s, run[0]));
    }
  }

  lemma {:induction false} RunOne(s: State, e: Event, rest: seq<Event>)
    requires Enabled(s, e) && ValidRun(Step(s, e), rest)
    ensures ValidRun(s, [e] + rest) && Run(s, [e] + rest) == Run(Step(s, e), rest)
  {
    assert ([e] + rest)[1..] == rest;
  }

  /** The main thread alone finishes its refresh, and then the thread sends its two signals. */
  lemma {:induction false} FinishThenSignal(s: State) returns (run: seq<Event>)
    requires s.thread.Picked? && s.thread.current != s.thread.next && s.thread.current in s.alive
    requires forall a <- s.todo :: a.ClearTargets? || a.AddTarget? || a.SendCont?
    ensures ValidRun(s, run) && Undisturbed(run)
    ensures var e := Run(s, run);
            e.todo == [] && e.thread.Asleep? && e.running == s.running && s.thread.current in e.paused
    decreases |s.todo|
  {
    if s.todo == [] {
      var s1 := Step(s, Signal);
      RunOne(s1, Signal, []);
      RunOne(s, Signal, [Signal] + []);
      run := [Signal] + ([Signal] + []);
    } else {
      assert s.todo[0] in s.todo;
      var rest := FinishThenSignal(Step(s, Main));
      RunOne(s, Main, rest);
      run := [Main] + rest;
    }
  }

  /** Whenever the thread has picked a living RUNNING container, some interleaving leaves it paused. */
  lemma {:induction false} LateStopHappens(s: State) returns (run: seq<Event>)
    requires WellFormed(s) && s.todo == [SetEnabled(false), BeginRefresh]
    requires s.thread.Picked? && s.thread.current in s.running && s.thread.current in s.alive
    ensures ValidRun(Step(s, Main), run) && Undisturbed(run)
    ensures var e := Run(Step(s, Main), run);
            e.todo == [] && e.thread.Asleep? && s.thread.current in e.running && s.thread.current in e.paused
  {
    var s1 := Step(s, Main);
    assert s1.todo == [BeginRefresh] && s1.todo[1..] == [];
    var s2 := Step(s1, Main);
    PlanIsOrdered(false, s.running);
    assert s2.todo == RefreshPlan(false, s.running) + [] == RefreshPlan(false, s.running);
    var rest := FinishThenSignal(s2);
    RunOne(s1, Main, rest);
    run := [Main] + rest;
  }

  /** `sched off` went through undisturbed, the thread is asleep again, and `p` is RUNNING and paused. */
  ghost predicate LeftPaused(s: State, run: seq<Event>, p: Pid) {
    && ValidRun(s, run) && Undisturbed(run)
    && Run(s, run).todo == [] && Run(s, run).thread.Asleep? && p in Run(s, run).running && p in Run(s, run).paused
  }

  /**
    Seen from the moment the main thread is about to clear the flag: some interleaving leaves a
    RUNNING container paused if and only if the thread has just picked one to stop that is listed
    and alive.
  */
  lemma {:induction false} SchedOffFailsIff(s: State)
    requires WellFormed(s) && s.todo == [SetEnabled(false), BeginRefresh]
    ensures (exists run, p :: LeftPaused(Step(s, Main), run, p))
            <==> s.thread.Picked? && s.thread.current in s.running && s.thread.current in s.alive
  {
    if s.thread.Picked? && s.thread.current in s.running && s.thread.current in s.alive {
      var run := LateStopHappens(s);
      assert LeftPaused(Step(s, Main), run, s.thread.current);
    }
    forall run, p | LeftPaused(Step(s, Main), run, p)
      ensures s.thread.Picked? && s.thread.current in s.running && s.thread.current in s.alive
    {
      PausedWasPicked(s, run, p);
    }
  }

  lemma {:induction false} PausedWasPicked(s: State, run: seq<Event>, p: Pid)
    requires WellFormed(s) && s.todo == [SetEnabled(false), BeginRefresh] && LeftPaused(Step(s, Main), run, p)
    ensures s.thread == Picked(p, if s.thread.Picked? then s.thread.next else 0) && p in s.running && p in s.alive
  {
    var s1 := Step(s, Main);
    StepKeeps(s, Main);
    assert s1.todo == [BeginRefresh];
    assert Issue(SchedOn) !in run;
    SchedOffExact(s, run);
    LateStopWasPicked(s1, run);
    UndisturbedRun(s1, run, {});
  }
}
