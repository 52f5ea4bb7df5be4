/**
  The handshake read off its system calls.  Which answer the kernel gave to which call decides
  where the child stands, what it reports and what the parent returns; here that is said on the
  list of answers alone, without looking at the states in between.
*/
module HandshakeTrace {
  import opened Sequences
  import opened Text
  import opened Handshake

  // ---- the answers of a run --------------------------------------------

  function ParentAnswers(run: seq<Action>): seq<Answer> {
    if run == [] then [] else (if run[0].Parent? then [run[0].a] else []) + ParentAnswers(run[1..])
  }

  function ChildAnswers(run: seq<Action>): seq<Answer> {
    if run == [] then [] else (if run[0].Child? then [run[0].a] else []) + ChildAnswers(run[1..])
  }

  /** Interruptions of the first wait do not count. */
  function Effective(c: seq<Answer>): seq<Answer> {
    if c != [] && c[0].interrupted then Effective(c[1..]) else c
  }

  // ---- the child's script ----------------------------------------------
  // Call 0 reads the token, 1 closes the pipe, 2 to 9 are the eight stages, then comes the report,
  // the close of the status pipe and, if it was good, exec.

  const STAGES: seq<Stage> := [Identity, Hostname, Root, ProcMount, Loopback, Argv, Limits, ProcessGroup]

  /** EINVAL from the /proc remount and EPERM from the loopback setup are not errors. */
  predicate Passes(j: nat, errno: nat) { errno == 0 || (j == 3 && errno == 22) || (j == 4 && errno == 1) }

  predicate StagePassed(b: seq<Answer>, j: nat) { 2 + j < |b| && Passes(j, b[2 + j].errno) }

  /** Errors of the limits stage are marked. */
  function StageErrno(j: nat, errno: nat): int { if j == 6 then 10000 + errno else errno }

  /** The first stage from `j` on that fails. */
  function FailedFrom(b: seq<Answer>, j: nat): (r: Option<nat>)
    requires j <= 8
    ensures r.Some? ==> j <= r.value < 8 && 2 + r.value < |b| && !Passes(r.value, b[2 + r.value].errno)
    decreases 8 - j
  {
    if j == 8 || |b| <= 2 + j then None
    else if !Passes(j, b[2 + j].errno) then Some(j)
    else FailedFrom(b, j + 1)
  }

  function FailedStage(b: seq<Answer>): Option<nat> { FailedFrom(b, 0) }

  lemma {:induction false} StagesBeforePass(b: seq<Answer>, j: nat, k: nat)
    requires j <= k < 8 && 2 + k < |b|
    requires FailedFrom(b, j).None? || k < FailedFrom(b, j).value
    ensures Passes(k, b[2 + k].errno)
    decreases 8 - j
  {
    if j < k { StagesBeforePass(b, j + 1, k); }
  }

  /** Another answer decides only about the stage whose turn it is. */
  lemma {:induction false} OneMoreStage(b: seq<Answer>, a: Answer, j: nat)
    requires j <= 8
    ensures FailedFrom(b + [a], j) ==
            if FailedFrom(b, j).Some? then FailedFrom(b, j)
            else if 2 + j <= |b| < 10 && !Passes(|b| - 2, a.errno) then Some(|b| - 2) else None
    decreases 8 - j
  {
    if j < 8 && 2 + j < |b| && Passes(j, b[2 + j].errno) {
      OneMoreStage(b, a, j + 1);
    }
  }

  /** Where the child stands if it is alive. */
  function Position(b: seq<Answer>): ChildPc {
    if |b| == 0 then AwaitToken
    else if |b| == 1 then CloseContinue(true)
    else
      match FailedStage(b)
      case Some(j) => AfterFailure(|b| - j, Report(false, StageErrno(j, b[2 + j].errno), -1))
      case None => if |b| < 10 then Setup(STAGES[|b| - 2]) else AfterStages(b)
  }

  function AfterFailure(n: int, m: Report): ChildPc {
    if n == 3 then SendReport(m) else if n == 4 then CloseStatus(m) else Dead
  }

  function AfterStages(b: seq<Answer>): ChildPc
    requires |b| >= 10
  {
    if |b| == 10 then SendReport(Report(true, 0, b[9].count))
    else if |b| == 11 then CloseStatus(Report(true, 0, b[9].count))
    else if |b| == 12 then DoExec
    else if |b| == 13 then (if b[12].errno == 0 then Execd else SendErrno(b[12].errno))
    else if |b| == 14 then CloseExec else Dead
  }

  /** What it has reported: nothing, a failure with its errno, or readiness with the pid it was told. */
  function ReportOf(b: seq<Answer>): seq<Report> {
    match FailedStage(b)
    case Some(j) => if |b| > 3 + j then [Report(false, StageErrno(j, b[2 + j].errno), -1)] else []
    case None => if |b| > 10 then [Report(true, 0, b[9].count)] else []
  }

  predicate Execs(b: seq<Answer>) { FailedStage(b).None? && |b| >= 13 && b[12].errno == 0 }

  /** The errno of exec, once it has been written. */
  function ErrnoOf(b: seq<Answer>): seq<int> {
    if FailedStage(b).None? && |b| > 13 && b[12].errno != 0 then [b[12].errno] else []
  }

  // ---- the parent's script ---------------------------------------------
  // Calls 0 to 4 open the pipes, mark the exec pipe and clone, 5 to 7 close, 8 writes the maps and
  // 9 sends the token.

  predicate Checked(k: nat) { k <= 4 || k == 8 || k == 9 }

  function ParentFailedFrom(p: seq<Answer>, k: nat): (r: Option<nat>)
    requires k <= 10
    ensures r.Some? ==> k <= r.value < 10 && r.value < |p| && Checked(r.value) && p[r.value].errno != 0
    decreases 10 - k
  {
    if k == 10 || |p| <= k then None
    else if Checked(k) && p[k].errno != 0 then Some(k)
    else ParentFailedFrom(p, k + 1)
  }

  /** The first of the parent's own calls that fails. */
  function ParentFailed(p: seq<Answer>): Option<nat> { ParentFailedFrom(p, 0) }

  lemma {:induction false} OneMoreParentCall(p: seq<Answer>, a: Answer, k: nat)
    requires k <= 10
    ensures ParentFailedFrom(p + [a], k) ==
            if ParentFailedFrom(p, k).Some? then ParentFailedFrom(p, k)
            else if k <= |p| < 10 && Checked(|p|) && a.errno != 0 then Some(|p|) else None
    decreases 10 - k
  {
    if k < 10 && k < |p| && !(Checked(k) && p[k].errno != 0) {
      OneMoreParentCall(p, a, k + 1);
    }
  }

  /** Number of the call a parent before the token is about to make. */
  function CallNumber(pc: ParentPc): nat {
    match pc
    case OpenStatus => 0 case OpenExec => 1 case SetCloexec => 2 case OpenContinue => 3 case Clone => 4
    case CloseExecW => 5 case CloseStatusW => 6 case CloseContinueR => 7 case WriteMaps => 8 case SendToken => 9
    case _ => 10
  }

  // ---- states and answers agree ----------------------------------------

  ghost predicate ChildTold(s: State, b: seq<Answer>) {
    && (s.cpc.Unborn? ==> b == [])
    && (!Gone(s.cpc) ==> s.cpc == Position(b))
    && s.past.reported == ReportOf(b) && s.past.execErrno == ErrnoOf(b) && (s.past.execd <==> Execs(b))
  }

  function FailureOf(pc: ParentPc): Option<int> {
    match pc
    case Unwind(_, _, _, e) => Some(e)
    case Returned(Failed(e)) => Some(e)
    case _ => None
  }

  /** How many calls ago the parent read the exec pipe, if it is giving up because of what it read. */
  function SinceRead(pc: ParentPc): nat {
    match pc
    case Unwind(_, kill, _, _) => if kill then 1 else 2
    case _ => 3
  }

  ghost predicate ParentTold(s: State, p: seq<Answer>) {
    && (CallNumber(s.ppc) < 10 ==> |p| == CallNumber(s.ppc))
    && (CallNumber(s.ppc) == 10 && FailureOf(s.ppc).None? ==> |p| >= 10)
    && (FailureOf(s.ppc).None? ==> ParentFailed(p).None?)
    && (FailureOf(s.ppc).Some? && !s.past.tokenSent ==>
          ParentFailed(p).Some? && FailureOf(s.ppc).value == p[ParentFailed(p).value].errno)
    && (s.past.tokenSent ==> |p| >= 10 && ParentFailed(p).None?)
    && (FailureOf(s.ppc).Some? && s.past.tokenSent && ReportedReady(s.past) ==> ReadAs(s, p))
  }

  /** The errno the parent gives up with is the one it read, or EPROTO after a short read. */
  ghost predicate ReadAs(s: State, p: seq<Answer>)
    requires FailureOf(s.ppc).Some?
  {
    var d := SinceRead(s.ppc);
    && (s.ppc.Unwind? ==> s.ppc.close == [])
    && |s.past.execErrno| == 1 && d <= |p|
    && FailureOf(s.ppc).value == if p[|p| - d].count == 4 then s.past.execErrno[0] else 71
  }

  lemma {:induction false} EffectiveSnoc(c: seq<Answer>, a: Answer)
    ensures Effective(c + [a]) == if Effective(c) == [] && a.interrupted then [] else Effective(c) + [a]
  {
    if c == [] {
      assert c + [a] == [a];
    } else if c[0].interrupted {
      assert (c + [a])[1..] == c[1..] + [a];
      EffectiveSnoc(c[1..], a);
    }
  }

  /** The token and the first close. */
  lemma {:induction false} ScriptStarts(s: State, a: Answer, b: seq<Answer>)
    requires ChildEnabled(s, a) && |b| < 2 && s.cpc == Position(b) && ChildTold(s, b)
    requires s.cpc.AwaitToken? ==> !a.interrupted && s.cont == [Token]
    ensures ChildTold(ChildStep(s, a), b + [a])
  {
  }

  lemma {:induction false} ScriptStages(s: State, a: Answer, b: seq<Answer>)
    requires ChildEnabled(s, a) && 2 <= |b| < 10 && FailedStage(b).None? && s.cpc == Position(b) && ChildTold(s, b)
    ensures ChildTold(ChildStep(s, a), b + [a])
  {
    OneMoreStage(b, a, 0);
  }

  lemma {:induction false} ScriptFails(s: State, a: Answer, b: seq<Answer>)
    requires ChildEnabled(s, a) && 2 <= |b| && FailedStage(b).Some? && s.cpc == Position(b) && ChildTold(s, b)
    ensures ChildTold(ChildStep(s, a), b + [a])
  {
    OneMoreStage(b, a, 0);
  }

  lemma {:induction false} ScriptEnds(s: State, a: Answer, b: seq<Answer>)
    requires ChildEnabled(s, a) && 10 <= |b| && FailedStage(b).None? && s.cpc == Position(b) && ChildTold(s, b)
    ensures ChildTold(ChildStep(s, a), b + [a])
  {
    OneMoreStage(b, a, 0);
  }

  lemma {:induction false} ScriptStep(s: State, a: Answer, b: seq<Answer>)
    requires ChildEnabled(s, a) && s.cpc == Position(b) && ChildTold(s, b)
    requires s.cpc.AwaitToken? ==> !a.interrupted && s.cont == [Token]
    ensures ChildTold(ChildStep(s, a), b + [a])
  {
    if |b| < 2 { ScriptStarts(s, a, b); }
    else if FailedStage(b).Some? { ScriptFails(s, a, b); }
    else if |b| < 10 { ScriptStages(s, a, b); }
    else { ScriptEnds(s, a, b); }
  }

  lemma {:induction false} ChildStepTold(s: State, a: Answer, c: seq<Answer>)
    requires Inv(s) && ChildEnabled(s, a) && ChildTold(s, Effective(c))
    ensures ChildTold(ChildStep(s, a), Effective(c + [a]))
  {
    EffectiveSnoc(c, a);
    var b := Effective(c);
    if s.cpc.AwaitToken? {
      assert |b| == 0;
      if !a.interrupted {
        WaitEndsWithToken(s, a);
        ScriptStep(s, a, b);
      }
    } else {
      ScriptStep(s, a, b);
    }
  }

  lemma {:induction false} OpeningStepTold(s: State, a: Answer, p: seq<Answer>)
    requires BeforeClone(s.ppc) && !s.past.tokenSent && ParentTold(s, p)
    ensures ParentTold(OpeningStep(s, a), p + [a])
  {
    OneMoreParentCall(p, a, 0);
  }

  lemma {:induction false} ReleasingStepTold(s: State, a: Answer, p: seq<Answer>)
    requires BeforeToken(s.ppc) && !s.past.tokenSent && ParentTold(s, p)
    ensures ParentTold(ReleasingStep(s, a), p + [a])
  {
    OneMoreParentCall(p, a, 0);
  }

  lemma {:induction false} ReadStepTold(s: State, a: Answer, p: seq<Answer>)
    requires Inv(s) && ParentTold(s, p) && ParentEnabled(s, a)
    requires s.ppc.CloseContinueW? || s.ppc.ReadStatus? || s.ppc.CloseStatusR? || s.ppc.ReadExec?
    ensures ParentTold(ParentStep(s, a), p + [a])
  {
    OneMoreParentCall(p, a, 0);
    if s.ppc.ReadStatus? && s.status == [] { NothingReported(s); }
    if s.ppc.ReadStatus? && !a.interrupted && s.status != [] { ReportIsWhole(s, a); }
  }

  /** What has been read of the status pipe is a beginning of what was reported. */
  lemma {:induction false} ReportIsWhole(s: State, a: Answer)
    requires Inv(s) && s.ppc.ReadStatus? && s.status != [] && ParentEnabled(s, a) && !a.interrupted
    ensures var got := s.buffer + s.status[..a.count];
            |s.past.reported| == 1 && (|got| == REPORT_SIZE ==> got == ReportBytes(s.past.reported[0]))
  {
    assert s.buffer + s.status == (s.buffer + s.status[..a.count]) + s.status[a.count..];
  }

  lemma {:induction false} UnwindStepTold(s: State, a: Answer, p: seq<Answer>)
    requires Inv(s) && ParentTold(s, p) && s.ppc.Unwind? && ParentEnabled(s, a)
    ensures ParentTold(ParentStep(s, a), p + [a])
  {
    OneMoreParentCall(p, a, 0);
  }

  lemma {:induction false} ParentStepTold(s: State, a: Answer, p: seq<Answer>)
    requires Inv(s) && ParentTold(s, p) && ParentEnabled(s, a)
    ensures ParentTold(ParentStep(s, a), p + [a])
  {
    if BeforeClone(s.ppc) { OpeningStepTold(s, a, p); }
    else if BeforeToken(s.ppc) { ReleasingStepTold(s, a, p); }
    else if s.ppc.Unwind? { UnwindStepTold(s, a, p); }
    else { ReadStepTold(s, a, p); }
  }

  ghost predicate Told(s: State, p: seq<Answer>, c: seq<Answer>) {
    ParentTold(s, p) && ChildTold(s, Effective(c)) && (s.cpc.Unborn? ==> c == [])
  }

  lemma {:induction false} ParentKeepsChildTold(s: State, a: Answer, c: seq<Answer>)
    requires Inv(s) && ParentEnabled(s, a) && ChildTold(s, Effective(c)) && (s.cpc.Unborn? ==> c == [])
    ensures ChildTold(ParentStep(s, a), Effective(c)) && (ParentStep(s, a).cpc.Unborn? ==> c == [])
  {
    ParentTouchesNoReport(s, a);
  }

  /** The parent starts and ends the child's life and leaves its record alone. */
  ghost predicate LeavesRecord(s: State, s': State) {
    && s'.past.reported == s.past.reported && s'.past.execErrno == s.past.execErrno && s'.past.execd == s.past.execd
    && (s'.cpc == s.cpc || (s.cpc.Unborn? && s'.cpc.AwaitToken?) || (!s.cpc.Unborn? && s'.cpc.Dead?))
  }

  lemma {:induction false} OpeningLeavesRecord(s: State, a: Answer)
    requires BeforeClone(s.ppc) && s.cpc.Unborn?
    ensures LeavesRecord(s, OpeningStep(s, a))
  {
  }

  lemma {:induction false} ReadingLeavesRecord(s: State, a: Answer)
    requires s.ppc.ReadStatus? || s.ppc.CloseStatusR? || s.ppc.ReadExec?
    requires ParentEnabled(s, a)
    ensures LeavesRecord(s, ReadingStep(s, a))
  {
  }

  lemma {:induction false} ParentTouchesNoReport(s: State, a: Answer)
    requires Inv(s) && ParentEnabled(s, a)
    ensures LeavesRecord(s, ParentStep(s, a))
  {
    if BeforeClone(s.ppc) { OpeningLeavesRecord(s, a); }
    else if !(BeforeToken(s.ppc) || s.ppc.CloseContinueW?) && !s.ppc.Unwind? { ReadingLeavesRecord(s, a); }
  }

  lemma {:induction false} ChildKeepsParentTold(s: State, a: Answer, p: seq<Answer>)
    requires Inv(s) && ChildEnabled(s, a) && ParentTold(s, p)
    ensures ParentTold(ChildStep(s, a), p)
  {
  }

  lemma {:induction false} StepTold(s: State, act: Action, p: seq<Answer>, c: seq<Answer>)
    requires Inv(s) && Enabled(s, act) && Told(s, p, c)
    ensures Told(Step(s, act), if act.Parent? then p + [act.a] else p, if act.Child? then c + [act.a] else c)
  {
    match act
    case Parent(a) => ParentStepTold(s, a, p); ParentKeepsChildTold(s, a, c);
    case Child(a) => ChildStepTold(s, a, c); ChildKeepsParentTold(s, a, p);
    case ChildKilled => KilledTold(s, p, c);
  }

  lemma {:induction false} KilledTold(s: State, p: seq<Answer>, c: seq<Answer>)
    requires Enabled(s, ChildKilled) && Told(s, p, c)
    ensures Told(Die(s), p, c)
  {
  }

  lemma {:induction false} AnswersSplit(run: seq<Action>, p: seq<Answer>, c: seq<Answer>)
    requires run != []
    ensures (if run[0].Parent? then p + [run[0].a] else p) + ParentAnswers(run[1..]) == p + ParentAnswers(run)
    ensures (if run[0].Child? then c + [run[0].a] else c) + ChildAnswers(run[1..]) == c + ChildAnswers(run)
  {
    var ps, cs := ParentAnswers(run[1..]), ChildAnswers(run[1..]);
    match run[0]
    case Parent(a) => Regroup(p, [a], ps); assert [] + cs == cs;
    case Child(a) => Regroup(c, [a], cs); assert [] + ps == ps;
    case ChildKilled => assert [] + cs == cs && [] + ps == ps;
  }

  /** `p` and `c` are the answers so far, `all` and `kids` those at the end. */
  lemma {:induction false} RunTold(s: State, run: seq<Action>, p: seq<Answer>, c: seq<Answer>,
                                   all: seq<Answer>, kids: seq<Answer>)
    requires Inv(s) && ValidRun(s, run) && Told(s, p, c)
    requires all == p + ParentAnswers(run) && kids == c + ChildAnswers(run)
    ensures Told(Run(s, run), all, kids)
    decreases |run|
  {
    if run == [] {
      assert all == p && kids == c;
    } else {
      AnswersSplit(run, p, c);
      StepTold(s, run[0], p, c);
      StepKeepsInv(s, run[0]);
      RunTold(Step(s, run[0]), run[1..], if run[0].Parent? then p + [run[0].a] else p,
              if run[0].Child? then c + [run[0].a] else c, all, kids);
    }
  }

  lemma {:induction false} Reached(s: State, run: seq<Action>)
    requires Initial(s) && ValidRun(s, run)
    ensures Inv(Run(s, run)) && Told(Run(s, run), ParentAnswers(run), ChildAnswers(run))
  {
    InitialInv(s);
    RunKeepsInv(s, run);
    RunTold(s, run, [], [], ParentAnswers(run), ChildAnswers(run));
  }

  // ---- main results ----------------------------------------------------

  /** A child that lives stands where its answers have brought it, stage by stage. */
  lemma {:induction false} ChildFollowsScript(s: State, run: seq<Action>)
    requires Initial(s) && ValidRun(s, run)
    ensures var e := Run(s, run); !Gone(e.cpc) ==> e.cpc == Position(Effective(ChildAnswers(run)))
  {
    Reached(s, run);
  }

  /**
    A child that execs has had all eight stages answered in order, each with success or with the
    error that stage tolerates, and exec itself with success.
  */
  lemma {:induction false} ExecPassedEveryStage(s: State, run: seq<Action>)
    requires Initial(s) && ValidRun(s, run)
    ensures var b := Effective(ChildAnswers(run));
            Run(s, run).past.execd ==>
              |b| >= 13 && b[12].errno == 0 && forall j :: 0 <= j < 8 ==> StagePassed(b, j)
  {
    Reached(s, run);
    var b := Effective(ChildAnswers(run));
    if Run(s, run).past.execd {
      forall j | 0 <= j < 8 ensures StagePassed(b, j) { StagesBeforePass(b, 0, j); }
    }
  }

  /** What `namespace_start_container` must return, given what the kernel answered. */
  ghost predicate Explains(p: seq<Answer>, b: seq<Answer>, r: Result) {
    match r
    case Started(ns) =>
      ParentFailed(p).None? && FailedStage(b).None? && |b| > 10 && ns == b[9].count && !(|b| > 13 && b[12].errno != 0)
    case Failed(e) =>
      match ParentFailed(p)
      case Some(k) => e == p[k].errno
      case None =>
        match FailedStage(b)
        case Some(j) => e == if |b| > 3 + j then StageErrno(j, b[2 + j].errno) else 71
        case None =>
          if |b| <= 10 then e == 71
          else |b| > 13 && b[12].errno != 0 && |p| > 2 && e == if p[|p| - 3].count == 4 then b[12].errno else 71
  }

  /**
    The answer is the kernel's.  Whatever the interleaving, the parent returns
    - the errno of its own first call that failed, before the token;
    - else the errno of the child's first stage that failed and was not to be tolerated, plus 10000
      for the limits stage;
    - else the errno of exec, or EPROTO if fewer than its four bytes were read;
    - EPROTO if the child died before it had reported;
    - and success with the pid the child was told otherwise.
  */
  lemma {:induction false} ResultIsTheKernels(s: State, run: seq<Action>)
    requires Initial(s) && ValidRun(s, run) && Run(s, run).ppc.Returned?
    ensures Explains(ParentAnswers(run), Effective(ChildAnswers(run)), Run(s, run).ppc.result)
  {
    Reached(s, run);
    ReturnedTellsAll(Run(s, run), ParentAnswers(run), ChildAnswers(run));
  }

  lemma {:induction false} ReturnedTellsAll(e: State, p: seq<Answer>, c: seq<Answer>)
    requires Inv(e) && Told(e, p, c) && e.ppc.Returned?
    ensures Explains(p, Effective(c), e.ppc.result)
  {
  }
}
