/**
  The start handshake of `namespace_start_container` (parent) and
  `namespace_child` (child): two processes, three pipes, one clone.

  Every system call of either process is one step.  The step of a process is a
  function of the state and of what the kernel answers (an `Answer`), so a run
  is a sequence of actions and every statement below is about all of them.
  A pipe read follows POSIX.1-2017 read(): it delivers between one byte and
  everything that was asked for and is there, it reports end of file when the
  pipe is empty and no process holds its write end, and it blocks otherwise.
*/
module Handshake {
  datatype Pipe = Status | Exec | Continue
  datatype Fd = Inherited(n: nat) | R(pipe: Pipe) | W(pipe: Pipe)

  /** `NamespaceStatus`. */
  datatype Report = Report(ready: bool, errno: int, nsPid: int)
  datatype Byte = Token | ReportByte(report: Report, i: nat) | ErrnoByte(errno: int, i: nat)

  const REPORT_SIZE: nat := 12
  const ERRNO_SIZE: nat := 4
  const RESOURCE_ERROR_BASE := 10000
  const EINVAL := 22
  const EPERM := 1
  const EPROTO := 71

  function ReportBytes(m: Report): seq<Byte> { seq(REPORT_SIZE, (i: nat) => ReportByte(m, i)) }
  function ErrnoBytes(e: int): seq<Byte> { seq(ERRNO_SIZE, (i: nat) => ErrnoByte(e, i)) }

  datatype Result = Started(nsPid: int) | Failed(errno: int)

  /** Where the parent stands; `Unwind` is any of its error paths. */
  datatype ParentPc =
    | OpenStatus | OpenExec | SetCloexec | OpenContinue | Clone
    | CloseExecW | CloseStatusW | CloseContinueR
    | WriteMaps | SendToken | CloseContinueW
    | ReadStatus | CloseStatusR(nsPid: int) | ReadExec(nsPid: int)
    | Unwind(close: seq<Fd>, kill: bool, wait: bool, errno: int)
    | Returned(result: Result)

  datatype Stage = Identity | Hostname | Root | ProcMount | Loopback | Argv | Limits | ProcessGroup

  datatype ChildPc =
    | Unborn
    | AwaitToken | CloseContinue(token: bool)
    | Setup(stage: Stage)
    | SendReport(report: Report) | CloseStatus(report: Report)
    | DoExec | SendErrno(errno: int) | CloseExec
    | Execd | Dead

  /** What the kernel answers: an errno (0 is success), a byte count, or an interruption. */
  datatype Answer = Answer(errno: nat, count: nat, interrupted: bool)
  datatype Action = Parent(a: Answer) | Child(a: Answer) | ChildKilled

  /** Open descriptors of both processes; `entry` is what the parent held when it was called. */
  datatype Fds = Fds(entry: set<Fd>, parent: set<Fd>, child: set<Fd>, cloexec: set<Fd>)

  /** What has happened so far. */
  datatype Past = Past(
    mapsWritten: bool, tokenSent: bool, tokenRead: bool, rootSwitched: bool, limitsApplied: bool,
    reported: seq<Report>, execErrno: seq<int>, execd: bool, reaped: bool)

  datatype State = State(
    ppc: ParentPc, cpc: ChildPc, fds: Fds,
    status: seq<Byte>, exec: seq<Byte>, cont: seq<Byte>, buffer: seq<Byte>,
    interruptions: nat, past: Past)

  predicate Initial(s: State) {
    && s.ppc == OpenStatus && s.cpc == Unborn
    && (forall fd <- s.fds.entry :: fd.Inherited?)
    && s.fds == Fds(s.fds.entry, s.fds.entry, {}, {})
    && s.status == [] && s.exec == [] && s.cont == [] && s.buffer == []
    && s.past == Past(false, false, false, false, false, [], [], false, false)
  }

  // ---- kernel ----------------------------------------------------------

  predicate NoWriter(s: State, p: Pipe) { W(p) !in s.fds.parent && W(p) !in s.fds.child }

  function OpenPipe(f: Fds, p: Pipe): Fds { f.(parent := f.parent + {R(p), W(p)}) }

  function Close(f: Fds, fd: Fd): Fds { f.(parent := f.parent - {fd}) }

  predicate CanRead(s: State, p: Pipe, content: seq<Byte>, wanted: int, a: Answer) {
    if a.interrupted then s.interruptions > 0
    else if content != [] then 1 <= a.count <= |content| && a.count <= wanted
    else a.count == 0 && NoWriter(s, p)
  }

  function Interrupted(s: State): State
    requires s.interruptions > 0
  {
    s.(interruptions := s.interruptions - 1)
  }

  function Die(s: State): State { s.(cpc := Dead, fds := s.fds.(child := {})) }

  // ---- parent: src/namespace.c:293-420 ---------------------------------

  predicate ParentEnabled(s: State, a: Answer) {
    match s.ppc
    case ReadStatus => |s.buffer| < REPORT_SIZE && CanRead(s, Status, s.status, REPORT_SIZE - |s.buffer|, a)
    case ReadExec(_) => CanRead(s, Exec, s.exec, ERRNO_SIZE, a)
    case Unwind(fds, kill, wait, _) => fds == [] && !kill && wait ==> s.cpc.Dead?
    case Returned(_) => false
    case _ => true
  }

  /** Opening the pipes and cloning: src/namespace.c:312-365. */
  function OpeningStep(s: State, a: Answer): (r: State)
    requires BeforeClone(s.ppc)
    ensures r.fds.entry == s.fds.entry
  {
    match s.ppc
    case OpenStatus =>
      if a.errno != 0 then s.(ppc := Unwind([], false, false, a.errno))
      else s.(ppc := OpenExec, fds := OpenPipe(s.fds, Status))
    case OpenExec =>
      if a.errno != 0 then s.(ppc := Unwind([R(Status), W(Status)], false, false, a.errno))
      else s.(ppc := SetCloexec, fds := OpenPipe(s.fds, Exec))
    case SetCloexec =>
      if a.errno != 0 then
        s.(ppc := Unwind([R(Status), W(Status), R(Exec), W(Exec)], false, false, a.errno))
      else s.(ppc := OpenContinue, fds := s.fds.(cloexec := s.fds.cloexec + {W(Exec)}))
    case OpenContinue =>
      if a.errno != 0 then
        s.(ppc := Unwind([R(Status), W(Status), R(Exec), W(Exec)], false, false, a.errno))
      else s.(ppc := Clone, fds := OpenPipe(s.fds, Continue))
    case Clone =>
      if a.errno != 0 then
        s.(ppc := Unwind([R(Status), W(Status), R(Exec), W(Exec), R(Continue), W(Continue)],
                         false, false, a.errno))
      else s.(ppc := CloseExecW, cpc := AwaitToken, fds := s.fds.(child := s.fds.parent))
  }

  /** Closing the child's ends, mapping the ids, releasing the child: src/namespace.c:367-396. */
  function ReleasingStep(s: State, a: Answer): (r: State)
    requires BeforeToken(s.ppc) || s.ppc.CloseContinueW?
    ensures r.fds.entry == s.fds.entry
  {
    match s.ppc
    case CloseExecW => s.(ppc := CloseStatusW, fds := Close(s.fds, W(Exec)))
    case CloseStatusW => s.(ppc := CloseContinueR, fds := Close(s.fds, W(Status)))
    case CloseContinueR => s.(ppc := WriteMaps, fds := Close(s.fds, R(Continue)))
    case WriteMaps =>
      if a.errno != 0 then s.(ppc := Unwind([W(Continue), R(Status), R(Exec)], true, true, a.errno))
      else s.(ppc := SendToken, past := s.past.(mapsWritten := true))
    case SendToken =>
      if a.errno != 0 then s.(ppc := Unwind([W(Continue), R(Status), R(Exec)], true, true, a.errno))
      else s.(ppc := CloseContinueW, past := s.past.(tokenSent := true), cont := s.cont + [Token])
    case CloseContinueW => s.(ppc := ReadStatus, fds := Close(s.fds, W(Continue)))
  }

  /** `read_status`, `read_exec_status` and the close between them: src/namespace.c:237-291. */
  function ReadingStep(s: State, a: Answer): (r: State)
    requires s.ppc.ReadStatus? || s.ppc.CloseStatusR? || s.ppc.ReadExec?
    requires ParentEnabled(s, a)
    ensures r.fds.entry == s.fds.entry
  {
    match s.ppc
    case ReadStatus =>
      if a.interrupted then Interrupted(s)
      else if s.status == [] then AfterStatus(s)
      else
        var s' := s.(buffer := s.buffer + s.status[..a.count], status := s.status[a.count..]);
        if |s'.buffer| == REPORT_SIZE then AfterStatus(s') else s'
    case CloseStatusR(ns) => s.(ppc := ReadExec(ns), fds := Close(s.fds, R(Status)))
    case ReadExec(ns) =>
      if a.interrupted then Interrupted(s)
      else
        var s' := s.(fds := Close(s.fds, R(Exec)));
        if s.exec == [] then s'.(ppc := Returned(Started(ns)))
        else
          var e := if a.count == ERRNO_SIZE && s.exec[0].ErrnoByte? then s.exec[0].errno else EPROTO;
          s'.(ppc := Unwind([], true, true, e), exec := s.exec[a.count..])
  }

  /** An error path: close what is open, then kill and reap a child that exists. */
  function UnwindingStep(s: State): (r: State)
    requires s.ppc.Unwind?
    ensures r.fds.entry == s.fds.entry
  {
    var Unwind(fds, kill, wait, e) := s.ppc;
    if fds != [] then s.(ppc := Unwind(fds[1..], kill, wait, e), fds := Close(s.fds, fds[0]))
    else if kill then Die(s).(ppc := Unwind([], false, wait, e))
    else s.(ppc := Returned(Failed(e)), past := s.past.(reaped := wait))
  }

  function ParentStep(s: State, a: Answer): (r: State)
    requires ParentEnabled(s, a)
    ensures r.fds.entry == s.fds.entry
  {
    if BeforeClone(s.ppc) then OpeningStep(s, a)
    else if BeforeToken(s.ppc) || s.ppc.CloseContinueW? then ReleasingStep(s, a)
    else if s.ppc.Unwind? then UnwindingStep(s)
    else ReadingStep(s, a)
  }

  /** `read_status` has returned: branch on what arrived (src/namespace.c:398-408). */
  function AfterStatus(s: State): State {
    var m := if |s.buffer| == REPORT_SIZE && s.buffer[0].ReportByte?
             then s.buffer[0].report else Report(false, 0, -1);
    if m.ready then s.(ppc := CloseStatusR(m.nsPid))
    else s.(ppc := Unwind([R(Status), R(Exec)], false, true, if m.errno != 0 then m.errno else EPROTO))
  }

  // ---- child: src/namespace.c:137-235 ----------------------------------

  predicate ChildEnabled(s: State, a: Answer) {
    match s.cpc
    case AwaitToken => CanRead(s, Continue, s.cont, 1, a)
    case Unborn => false
    case Execd => false
    case Dead => false
    case _ => true
  }

  /** The errors the child carries on after: the /proc remount and the loopback setup. */
  predicate Tolerated(stage: Stage, e: int) {
    (stage.ProcMount? && e == EINVAL) || (stage.Loopback? && e == EPERM)
  }

  function After(stage: Stage, nsPid: int): ChildPc {
    match stage
    case Identity => Setup(Hostname)
    case Hostname => Setup(Root)
    case Root => Setup(ProcMount)
    case ProcMount => Setup(Loopback)
    case Loopback => Setup(Argv)
    case Argv => Setup(Limits)
    case Limits => Setup(ProcessGroup)
    case ProcessGroup => SendReport(Report(true, 0, nsPid))
  }

  /** For the last setup stage the answer's count stands for `getpid()`. */
  function ChildStep(s: State, a: Answer): (r: State)
    requires ChildEnabled(s, a)
    ensures r.fds.entry == s.fds.entry
  {
    match s.cpc
    case AwaitToken =>
      if a.interrupted then Interrupted(s)
      else if s.cont == [] then s.(cpc := CloseContinue(false))
      else s.(cpc := CloseContinue(s.cont[0].Token?), past := s.past.(tokenRead := true), cont := s.cont[1..])
    case CloseContinue(token) =>
      s.(cpc := if token then Setup(Identity) else SendReport(Report(false, EPROTO, -1)),
         fds := s.fds.(child := s.fds.child - {R(Continue)}))
    case Setup(stage) =>
      if a.errno == 0 || Tolerated(stage, a.errno) then
        s.(cpc := After(stage, a.count),
           past := s.past.(rootSwitched := s.past.rootSwitched || stage.Root?,
                           limitsApplied := s.past.limitsApplied || stage.Limits?))
      else
        var e := if stage.Limits? then RESOURCE_ERROR_BASE + a.errno else a.errno;
        s.(cpc := SendReport(Report(false, e, -1)))
    case SendReport(m) =>
      s.(cpc := CloseStatus(m), status := s.status + ReportBytes(m), past := s.past.(reported := s.past.reported + [m]))
    case CloseStatus(m) =>
      if m.ready then s.(cpc := DoExec, fds := s.fds.(child := s.fds.child - {W(Status)})) else Die(s)
    case DoExec =>
      if a.errno == 0 then s.(cpc := Execd, fds := s.fds.(child := s.fds.child - s.fds.cloexec), past := s.past.(execd := true))
      else s.(cpc := SendErrno(a.errno))
    case SendErrno(e) =>
      s.(cpc := CloseExec, exec := s.exec + ErrnoBytes(e), past := s.past.(execErrno := s.past.execErrno + [e]))
    case CloseExec => Die(s)
  }

  // ---- runs ------------------------------------------------------------

  /** Nothing outside kills the child before it has been sent its token. */
  predicate Enabled(s: State, act: Action) {
    match act
    case Parent(a) => ParentEnabled(s, a)
    case Child(a) => ChildEnabled(s, a)
    case ChildKilled => s.past.tokenSent && !s.cpc.Unborn? && !s.cpc.Dead?
  }

  function Step(s: State, act: Action): (r: State)
    requires Enabled(s, act)
    ensures r.fds.entry == s.fds.entry
  {
    match act
    case Parent(a) => ParentStep(s, a)
    case Child(a) => ChildStep(s, a)
    case ChildKilled => Die(s)
  }

  predicate ValidRun(s: State, run: seq<Action>)
    decreases |run|
  {
    run == [] || (Enabled(s, run[0]) && ValidRun(Step(s, run[0]), run[1..]))
  }

  function Run(s: State, run: seq<Action>): State
    requires ValidRun(s, run)
    decreases |run|
  {
    if run == [] then s else Run(Step(s, run[0]), run[1..])
  }

  // ---- the invariant ---------------------------------------------------

  /** The pipe ends the parent holds at each point. */
  function ParentEnds(pc: ParentPc): set<Fd> {
    match pc
    case OpenStatus => {}
    case OpenExec => {R(Status), W(Status)}
    case SetCloexec => {R(Status), W(Status), R(Exec), W(Exec)}
    case OpenContinue => {R(Status), W(Status), R(Exec), W(Exec)}
    case Clone => {R(Status), W(Status), R(Exec), W(Exec), R(Continue), W(Continue)}
    case CloseExecW => {R(Status), W(Status), R(Exec), W(Exec), R(Continue), W(Continue)}
    case CloseStatusW => {R(Status), W(Status), R(Exec), R(Continue), W(Continue)}
    case CloseContinueR => {R(Status), R(Exec), R(Continue), W(Continue)}
    case WriteMaps => {R(Status), R(Exec), W(Continue)}
    case SendToken => {R(Status), R(Exec), W(Continue)}
    case CloseContinueW => {R(Status), R(Exec), W(Continue)}
    case ReadStatus => {R(Status), R(Exec)}
    case CloseStatusR(_) => {R(Status), R(Exec)}
    case ReadExec(_) => {R(Exec)}
    case Unwind(fds, _, _, _) => set fd | fd in fds
    case Returned(_) => {}
  }

  /** The pipe ends the child holds at each point; it never closes the ends it does not use. */
  function ChildEnds(pc: ChildPc): set<Fd> {
    match pc
    case Unborn => {}
    case Dead => {}
    case AwaitToken => {R(Status), W(Status), R(Exec), W(Exec), R(Continue), W(Continue)}
    case CloseContinue(_) => {R(Status), W(Status), R(Exec), W(Exec), R(Continue), W(Continue)}
    case Setup(_) => {R(Status), W(Status), R(Exec), W(Exec), W(Continue)}
    case SendReport(_) => {R(Status), W(Status), R(Exec), W(Exec), W(Continue)}
    case CloseStatus(_) => {R(Status), W(Status), R(Exec), W(Exec), W(Continue)}
    case DoExec => {R(Status), R(Exec), W(Exec), W(Continue)}
    case SendErrno(_) => {R(Status), R(Exec), W(Exec), W(Continue)}
    case CloseExec => {R(Status), R(Exec), W(Exec), W(Continue)}
    case Execd => {R(Status), R(Exec), W(Continue)}
  }

  predicate BeforeClone(pc: ParentPc) {
    pc.OpenStatus? || pc.OpenExec? || pc.SetCloexec? || pc.OpenContinue? || pc.Clone?
  }

  predicate BeforeToken(pc: ParentPc) {
    pc.CloseExecW? || pc.CloseStatusW? || pc.CloseContinueR? || pc.WriteMaps? || pc.SendToken?
  }

  predicate AfterToken(pc: ParentPc) {
    pc.CloseContinueW? || pc.ReadStatus? || pc.CloseStatusR? || pc.ReadExec?
  }

  predicate Gone(pc: ChildPc) { pc.Unborn? || pc.Dead? }

  ghost predicate Distinct(fds: seq<Fd>) {
    forall i, j :: 0 <= i < j < |fds| ==> fds[i] != fds[j]
  }

  ghost predicate FdInv(ppc: ParentPc, cpc: ChildPc, f: Fds) {
    && (forall fd <- f.entry :: fd.Inherited?)
    && f.parent == f.entry + ParentEnds(ppc)
    && f.child == (if Gone(cpc) then {} else f.entry + ChildEnds(cpc))
    && (ppc.Unwind? ==> (forall fd <- ppc.close :: !fd.Inherited?) && Distinct(ppc.close))
    && (!cpc.Unborn? || ppc.Clone? || ppc.OpenContinue? ==> f.cloexec == {W(Exec)})
    && (ppc.OpenStatus? || ppc.OpenExec? || ppc.SetCloexec? ==> f.cloexec == {})
  }

  ghost predicate TokenInv(ppc: ParentPc, cpc: ChildPc, cont: seq<Byte>, h: Past) {
    && (BeforeClone(ppc) ==> cpc.Unborn?)
    && (BeforeToken(ppc) ==> cpc.AwaitToken? && !h.tokenSent)
    && (AfterToken(ppc) ==> !cpc.Unborn? && h.tokenSent)
    && (ppc.Unwind? ==> (ppc.wait <==> !cpc.Unborn?) && (ppc.kill ==> ppc.wait))
    && (ppc.SendToken? ==> h.mapsWritten)
    && (h.tokenSent ==> h.mapsWritten)
    && (!h.tokenSent ==> cont == [] && !h.tokenRead && (Gone(cpc) || cpc.AwaitToken?))
    && (h.tokenSent && !h.tokenRead ==> cont == [Token] && (cpc.Dead? || cpc.AwaitToken?))
    && (h.tokenRead ==> cont == [] && h.tokenSent && !cpc.AwaitToken? && !cpc.Unborn?)
    && (cpc.CloseContinue? ==> cpc.token)
  }

  predicate ReportedReady(h: Past) { |h.reported| == 1 && h.reported[0].ready }

  predicate LateStage(stage: Stage) {
    stage.ProcMount? || stage.Loopback? || stage.Argv? || stage.Limits? || stage.ProcessGroup?
  }

  /** The child's own order: stage by stage, report before exec. */
  ghost predicate ChildInv(cpc: ChildPc, h: Past) {
    && |h.reported| <= 1 && |h.execErrno| <= 1
    && (cpc.Unborn? || cpc.AwaitToken? || cpc.CloseContinue? || cpc.Setup? || cpc.SendReport?
        ==> h.reported == [])
    && (cpc.CloseStatus? ==> h.reported == [cpc.report] && h.execErrno == [])
    && (cpc.DoExec? || cpc.SendErrno? || cpc.CloseExec? || cpc.Execd? ==> ReportedReady(h))
    && (cpc.Setup? && LateStage(cpc.stage) ==> h.rootSwitched)
    && (cpc.Setup? && cpc.stage.ProcessGroup? ==> h.limitsApplied)
    && (cpc.SendReport? && cpc.report.ready ==> h.rootSwitched && h.limitsApplied)
    && (ReportedReady(h) ==> h.rootSwitched && h.limitsApplied && h.tokenRead)
    && (|h.execErrno| == 1 ==> ReportedReady(h) && !h.execd && (cpc.CloseExec? || cpc.Dead?))
    && (cpc.CloseExec? ==> |h.execErrno| == 1)
    && (h.execd ==> ReportedReady(h) && (cpc.Execd? || cpc.Dead?))
    && (cpc.Execd? ==> h.execd)
    && (!Gone(cpc) && !cpc.AwaitToken? ==> h.tokenRead)
  }

  predicate BeforeReport(pc: ParentPc) {
    BeforeClone(pc) || BeforeToken(pc) || pc.CloseContinueW?
  }

  /** What was written and what has been read of it. */
  ghost predicate DataInv(s: State) {
    var h := s.past;
    && (BeforeReport(s.ppc) ==> s.buffer == [])
    && (BeforeReport(s.ppc) || s.ppc.ReadStatus? ==>
          s.buffer + s.status == if h.reported == [] then [] else ReportBytes(h.reported[0]))
    && (s.ppc.ReadStatus? ==> |s.buffer| < REPORT_SIZE)
    && (!s.ppc.Unwind? && !s.ppc.Returned? ==>
          s.exec == if h.execErrno == [] then [] else ErrnoBytes(h.execErrno[0]))
    && (s.ppc.CloseStatusR? || s.ppc.ReadExec? ==>
          ReportedReady(h) && s.ppc.nsPid == h.reported[0].nsPid)
  }

  predicate Perishing(pc: ChildPc) { pc.Dead? || (pc.CloseStatus? && !pc.report.ready) }

  /** Why the parent gives up once the child exists, and with which errno. */
  predicate FailureExplained(cpc: ChildPc, h: Past, e: int) {
    || !h.tokenSent
    || (h.reported == [] && cpc.Dead? && e == EPROTO)
    || (|h.reported| == 1 && !h.reported[0].ready
        && e == if h.reported[0].errno != 0 then h.reported[0].errno else EPROTO)
    || (|h.execErrno| == 1 && (e == h.execErrno[0] || e == EPROTO))
  }

  /** How the error paths and the two ends of the call stand. */
  ghost predicate EndInv(ppc: ParentPc, cpc: ChildPc, h: Past) {
    && (ppc.Unwind? && ppc.wait ==> FailureExplained(cpc, h, ppc.errno) && (ppc.kill || Perishing(cpc)))
    && (ppc.Returned? && ppc.result.Failed? ==>
          cpc.Unborn? || (cpc.Dead? && h.reaped && FailureExplained(cpc, h, ppc.result.errno)))
    && (ppc.Returned? && ppc.result.Started? ==>
          && ReportedReady(h) && h.execErrno == [] && ppc.result.nsPid == h.reported[0].nsPid
          && (cpc.Execd? || cpc.Dead?))
  }

  ghost predicate Inv(s: State) {
    && FdInv(s.ppc, s.cpc, s.fds) && TokenInv(s.ppc, s.cpc, s.cont, s.past)
    && ChildInv(s.cpc, s.past) && DataInv(s) && EndInv(s.ppc, s.cpc, s.past)
  }

  lemma {:induction false} InitialInv(s: State)
    requires Initial(s)
    ensures Inv(s)
  {}

  lemma {:induction false} OpenPipeKeepsFds(f: Fds, pc: ParentPc, pc': ParentPc, p: Pipe)
    requires f.parent == f.entry + ParentEnds(pc) && ParentEnds(pc') == ParentEnds(pc) + {R(p), W(p)}
    ensures OpenPipe(f, p).parent == f.entry + ParentEnds(pc')
  {
  }

  lemma {:induction false} CloseKeepsFds(f: Fds, pc: ParentPc, pc': ParentPc, cpc: ChildPc, fd: Fd)
    requires FdInv(pc, cpc, f) && ParentEnds(pc) == ParentEnds(pc') + {fd} && fd !in ParentEnds(pc')
    requires !fd.Inherited? && !BeforeClone(pc') && !pc'.Unwind?
    ensures FdInv(pc', cpc, Close(f, fd))
  {
    assert Close(f, fd).parent == f.entry + ParentEnds(pc');
  }

  /** What the error paths close is what is open. */
  ghost predicate Closes(fds: seq<Fd>, pc: ParentPc) {
    (set fd | fd in fds) == ParentEnds(pc) && Distinct(fds) && forall fd <- fds :: !fd.Inherited?
  }

  lemma {:induction false} ElementsOf(fds: seq<Fd>, ends: set<Fd>)
    requires forall i :: 0 <= i < |fds| ==> fds[i] in ends
    requires forall fd <- ends :: fd in fds
    ensures (set fd | fd in fds) == ends
  {
  }

  lemma {:induction false} FailedExec()
    ensures Closes([R(Status), W(Status)], OpenExec)
  {
    ElementsOf([R(Status), W(Status)], ParentEnds(OpenExec));
  }

  lemma {:induction false} FailedContinue()
    ensures Closes([R(Status), W(Status), R(Exec), W(Exec)], OpenContinue)
    ensures ParentEnds(OpenContinue) == ParentEnds(SetCloexec)
  {
    ElementsOf([R(Status), W(Status), R(Exec), W(Exec)], ParentEnds(OpenContinue));
  }

  lemma {:induction false} FailedClone()
    ensures Closes([R(Status), W(Status), R(Exec), W(Exec), R(Continue), W(Continue)], Clone)
  {
    ElementsOf([R(Status), W(Status), R(Exec), W(Exec), R(Continue), W(Continue)], ParentEnds(Clone));
  }

  lemma {:induction false} OpeningFails(s: State, a: Answer)
    requires BeforeClone(s.ppc) && a.errno != 0
    ensures OpeningStep(s, a).ppc.Unwind? && Closes(OpeningStep(s, a).ppc.close, s.ppc)
  {
    match s.ppc
    case OpenStatus =>
    case OpenExec => FailedExec();
    case SetCloexec => FailedContinue();
    case OpenContinue => FailedContinue();
    case Clone => FailedClone();
  }

  lemma {:induction false} EndsGrow()
    ensures ParentEnds(OpenExec) == ParentEnds(OpenStatus) + {R(Status), W(Status)}
    ensures ParentEnds(SetCloexec) == ParentEnds(OpenExec) + {R(Exec), W(Exec)}
    ensures ParentEnds(Clone) == ParentEnds(OpenContinue) + {R(Continue), W(Continue)}
  {
  }

  lemma {:induction false} OpeningKeepsFds(s: State, a: Answer)
    requires FdInv(s.ppc, s.cpc, s.fds) && s.cpc.Unborn? && BeforeClone(s.ppc)
    ensures var s' := OpeningStep(s, a); FdInv(s'.ppc, s'.cpc, s'.fds)
  {
    if a.errno != 0 {
      OpeningFails(s, a);
    } else {
      EndsGrow();
      match s.ppc
      case OpenStatus => OpenPipeKeepsFds(s.fds, OpenStatus, OpenExec, Status);
      case OpenExec => OpenPipeKeepsFds(s.fds, OpenExec, SetCloexec, Exec);
      case OpenContinue => OpenPipeKeepsFds(s.fds, OpenContinue, Clone, Continue);
      case _ =>
    }
  }

  lemma {:induction false} OpeningKeepsInv(s: State, a: Answer)
    requires Inv(s) && BeforeClone(s.ppc)
    ensures Inv(OpeningStep(s, a))
  {
    OpeningKeepsFds(s, a);
  }

  lemma {:induction false} FailedRelease()
    ensures Closes([W(Continue), R(Status), R(Exec)], WriteMaps)
    ensures ParentEnds(SendToken) == ParentEnds(WriteMaps)
  {
    ElementsOf([W(Continue), R(Status), R(Exec)], ParentEnds(WriteMaps));
  }

  lemma {:induction false} EndsShrink()
    ensures ParentEnds(CloseExecW) == ParentEnds(CloseStatusW) + {W(Exec)}
    ensures ParentEnds(CloseStatusW) == ParentEnds(CloseContinueR) + {W(Status)}
    ensures ParentEnds(CloseContinueR) == ParentEnds(WriteMaps) + {R(Continue)}
    ensures ParentEnds(CloseContinueW) == ParentEnds(ReadStatus) + {W(Continue)}
  {
  }

  lemma {:induction false} ReleasingKeepsFds(s: State, a: Answer)
    requires FdInv(s.ppc, s.cpc, s.fds) && (BeforeToken(s.ppc) || s.ppc.CloseContinueW?)
    ensures var s' := ReleasingStep(s, a); FdInv(s'.ppc, s'.cpc, s'.fds)
  {
    if s.ppc.WriteMaps? || s.ppc.SendToken? {
      FailedRelease();
    } else {
      ClosingKeepsFds(s, a);
    }
  }

  lemma {:induction false} ClosingKeepsFds(s: State, a: Answer)
    requires FdInv(s.ppc, s.cpc, s.fds)
    requires s.ppc.CloseExecW? || s.ppc.CloseStatusW? || s.ppc.CloseContinueR? || s.ppc.CloseContinueW?
    ensures var s' := ReleasingStep(s, a); FdInv(s'.ppc, s'.cpc, s'.fds)
  {
    EndsShrink();
    match s.ppc
    case CloseExecW => CloseKeepsFds(s.fds, s.ppc, CloseStatusW, s.cpc, W(Exec));
    case CloseStatusW => CloseKeepsFds(s.fds, s.ppc, CloseContinueR, s.cpc, W(Status));
    case CloseContinueR => CloseKeepsFds(s.fds, s.ppc, WriteMaps, s.cpc, R(Continue));
    case CloseContinueW => CloseKeepsFds(s.fds, s.ppc, ReadStatus, s.cpc, W(Continue));
  }

  lemma {:induction false} ReleasingKeepsOrder(s: State, a: Answer)
    requires BeforeToken(s.ppc) || s.ppc.CloseContinueW?
    requires TokenInv(s.ppc, s.cpc, s.cont, s.past) && ChildInv(s.cpc, s.past) && EndInv(s.ppc, s.cpc, s.past)
    ensures var s' := ReleasingStep(s, a);
            TokenInv(s'.ppc, s'.cpc, s'.cont, s'.past) && ChildInv(s'.cpc, s'.past) && EndInv(s'.ppc, s'.cpc, s'.past)
  {
  }

  lemma {:induction false} ReleasingKeepsInv(s: State, a: Answer)
    requires Inv(s) && (BeforeToken(s.ppc) || s.ppc.CloseContinueW?)
    ensures Inv(ReleasingStep(s, a))
  {
    ReleasingKeepsFds(s, a);
    ReleasingKeepsOrder(s, a);
  }

  lemma {:induction false} UnwindingKeepsInv(s: State)
    requires Inv(s) && s.ppc.Unwind? && ParentEnabled(s, Answer(0, 0, false))
    ensures Inv(UnwindingStep(s))
  {
    var s' := UnwindingStep(s);
    var fds := s.ppc.close;
    if fds != [] {
      assert fds == [fds[0]] + fds[1..];
    }
    assert s'.fds.parent == s.fds.entry + ParentEnds(s'.ppc);
  }

  lemma {:induction false} NothingReported(s: State)
    requires Inv(s) && s.ppc.ReadStatus? && s.status == []
    ensures s.buffer == [] && s.past.reported == []
  {
    assert s.buffer + s.status == s.buffer;
  }

  /** `read_status` is over: either nothing was ever reported or the whole report is here. */
  lemma {:induction false} AfterStatusKeepsInv(s: State)
    requires s.ppc.ReadStatus? && FdInv(s.ppc, s.cpc, s.fds) && TokenInv(s.ppc, s.cpc, s.cont, s.past)
    requires ChildInv(s.cpc, s.past)
    requires s.exec == if s.past.execErrno == [] then [] else ErrnoBytes(s.past.execErrno[0])
    requires if s.past.reported == [] then s.buffer == [] && s.cpc.Dead?
             else s.buffer == ReportBytes(s.past.reported[0])
    ensures Inv(AfterStatus(s))
  {
    assert (set fd | fd in [R(Status), R(Exec)]) == ParentEnds(ReadStatus);
  }

  lemma {:induction false} ReadStatusKeepsInv(s: State, a: Answer)
    requires Inv(s) && s.ppc.ReadStatus? && ParentEnabled(s, a)
    ensures Inv(ReadingStep(s, a))
  {
    if a.interrupted {
    } else if s.status == [] {
      NothingReported(s);
      AfterStatusKeepsInv(s);
    } else {
      var s' := s.(buffer := s.buffer + s.status[..a.count], status := s.status[a.count..]);
      assert s'.buffer + s'.status == s.buffer + s.status;
      if |s'.buffer| == REPORT_SIZE {
        assert s'.status == [] && s'.buffer + s'.status == s'.buffer;
        AfterStatusKeepsInv(s');
      }
    }
  }

  lemma {:induction false} ReadExecKeepsInv(s: State, a: Answer)
    requires Inv(s) && (s.ppc.CloseStatusR? || s.ppc.ReadExec?) && ParentEnabled(s, a)
    ensures Inv(ReadingStep(s, a))
  {
    var s' := ReadingStep(s, a);
    assert s'.fds.parent == s.fds.entry + ParentEnds(s'.ppc);
  }

  lemma {:induction false} ChildKeepsFds(s: State, a: Answer)
    requires FdInv(s.ppc, s.cpc, s.fds) && ChildEnabled(s, a)
    ensures var s' := ChildStep(s, a); FdInv(s'.ppc, s'.cpc, s'.fds)
  {
    var s' := ChildStep(s, a);
    if !Gone(s'.cpc) {
      assert s'.fds.child == s.fds.entry + ChildEnds(s'.cpc);
    }
  }

  /** The child waits until the token is there: it holds the write end itself. */
  lemma {:induction false} WaitEndsWithToken(s: State, a: Answer)
    requires Inv(s) && s.cpc.AwaitToken? && ChildEnabled(s, a) && !a.interrupted
    ensures s.cont == [Token]
  {
    assert W(Continue) in s.fds.child;
  }

  lemma {:induction false} ChildKeepsOrder(s: State, a: Answer)
    requires ChildEnabled(s, a) && TokenInv(s.ppc, s.cpc, s.cont, s.past) && ChildInv(s.cpc, s.past)
    requires s.cpc.AwaitToken? && !a.interrupted ==> s.cont == [Token]
    ensures var s' := ChildStep(s, a); TokenInv(s'.ppc, s'.cpc, s'.cont, s'.past) && ChildInv(s'.cpc, s'.past)
  {
  }

  lemma {:induction false} ChildKeepsData(s: State, a: Answer)
    requires ChildEnabled(s, a) && ChildInv(s.cpc, s.past) && DataInv(s)
    ensures DataInv(ChildStep(s, a))
  {
    var s' := ChildStep(s, a);
    if s.cpc.SendReport? && (BeforeReport(s.ppc) || s.ppc.ReadStatus?) {
      assert s.buffer + s.status == [];
      assert s'.buffer + s'.status == ReportBytes(s.cpc.report);
    }
    if s.cpc.SendErrno? { assert [] + ErrnoBytes(s.cpc.errno) == ErrnoBytes(s.cpc.errno); }
  }

  lemma {:induction false} ChildKeepsEnd(s: State, a: Answer)
    requires ChildEnabled(s, a) && ChildInv(s.cpc, s.past) && EndInv(s.ppc, s.cpc, s.past)
    ensures var s' := ChildStep(s, a); EndInv(s'.ppc, s'.cpc, s'.past)
  {
  }

  lemma {:induction false} ChildKeepsInv(s: State, a: Answer)
    requires Inv(s) && ChildEnabled(s, a)
    ensures Inv(ChildStep(s, a))
  {
    if s.cpc.AwaitToken? && !a.interrupted { WaitEndsWithToken(s, a); }
    ChildKeepsFds(s, a);
    ChildKeepsOrder(s, a);
    ChildKeepsData(s, a);
    ChildKeepsEnd(s, a);
  }

  lemma {:induction false} StepKeepsInv(s: State, act: Action)
    requires Inv(s) && Enabled(s, act)
    ensures Inv(Step(s, act))
  {
    match act
    case Parent(a) =>
      if BeforeClone(s.ppc) { OpeningKeepsInv(s, a); }
      else if BeforeToken(s.ppc) || s.ppc.CloseContinueW? { ReleasingKeepsInv(s, a); }
      else if s.ppc.Unwind? { UnwindingKeepsInv(s); }
      else if s.ppc.ReadStatus? { ReadStatusKeepsInv(s, a); }
      else { ReadExecKeepsInv(s, a); }
    case Child(a) => ChildKeepsInv(s, a);
    case ChildKilled =>
  }

  lemma {:induction false} RunKeepsInv(s: State, run: seq<Action>)
    requires Inv(s) && ValidRun(s, run)
    ensures Inv(Run(s, run)) && Run(s, run).fds.entry == s.fds.entry
    decreases |run|
  {
    if run != [] {
      StepKeepsInv(s, run[0]);
      RunKeepsInv(Step(s, run[0]), run[1..]);
    }
  }

  // ---- termination and progress ----------------------------------------

  function StageRank(stage: Stage): nat {
    match stage
    case Identity => 14 case Hostname => 13 case Root => 12 case ProcMount => 11
    case Loopback => 10 case Argv => 9 case Limits => 8 case ProcessGroup => 7
  }

  function ChildRank(pc: ChildPc): nat {
    match pc
    case Unborn => 17 case AwaitToken => 16 case CloseContinue(_) => 15
    case Setup(stage) => StageRank(stage)
    case SendReport(_) => 6 case CloseStatus(_) => 5 case DoExec => 4
    case SendErrno(_) => 3 case CloseExec => 2 case Execd => 1 case Dead => 0
  }

  function ParentRank(pc: ParentPc, read: nat): nat {
    match pc
    case OpenStatus => 40 case OpenExec => 39 case SetCloexec => 38 case OpenContinue => 37
    case Clone => 36 case CloseExecW => 35 case CloseStatusW => 34 case CloseContinueR => 33
    case WriteMaps => 32 case SendToken => 31 case CloseContinueW => 30
    case ReadStatus => 17 + (if read < REPORT_SIZE then REPORT_SIZE - read else 0)
    case CloseStatusR(_) => 16 case ReadExec(_) => 15
    case Unwind(fds, kill, _, _) => |fds| + 2 + (if kill then 1 else 0)
    case Returned(_) => 0
  }

  function Rank(s: State): nat { s.interruptions + ParentRank(s.ppc, |s.buffer|) + ChildRank(s.cpc) }

  lemma {:induction false} ParentDecreasesRank(s: State, a: Answer)
    requires ParentEnabled(s, a) && (s.ppc.Clone? ==> s.cpc.Unborn?)
    ensures Rank(ParentStep(s, a)) < Rank(s)
  {
    match s.ppc
    case Clone =>
    case ReadStatus =>
    case Unwind(_, _, _, _) =>
    case _ =>
  }

  lemma {:induction false} ChildDecreasesRank(s: State, a: Answer)
    requires ChildEnabled(s, a)
    ensures Rank(ChildStep(s, a)) < Rank(s)
  {
    match s.cpc
    case Setup(stage) => assert ChildRank(After(stage, a.count)) < StageRank(stage);
    case _ =>
  }

  /** Every step of either process uses up rank. */
  lemma {:induction false} StepDecreasesRank(s: State, act: Action)
    requires Enabled(s, act) && (s.ppc.Clone? ==> s.cpc.Unborn?)
    ensures Rank(Step(s, act)) < Rank(s)
  {
    match act
    case Parent(a) => ParentDecreasesRank(s, a);
    case Child(a) => ChildDecreasesRank(s, a);
    case ChildKilled =>
  }

  /** No run is longer than its start's rank. */
  lemma {:induction false} RunsAreBounded(s: State, run: seq<Action>)
    requires Inv(s) && ValidRun(s, run)
    ensures |run| + Rank(Run(s, run)) <= Rank(s)
    decreases |run|
  {
    if run != [] {
      StepDecreasesRank(s, run[0]);
      StepKeepsInv(s, run[0]);
      RunsAreBounded(Step(s, run[0]), run[1..]);
    }
  }

  /** Some step is always possible until the parent has returned. */
  lemma {:induction false} NoDeadlock(s: State) returns (act: Action)
    requires Inv(s) && !s.ppc.Returned?
    ensures Enabled(s, act)
  {
    if exists a :: ParentEnabled(s, a) {
      var a :| ParentEnabled(s, a);
      return Parent(a);
    }
    assert !ParentEnabled(s, Answer(0, 1, false)) && !ParentEnabled(s, Answer(0, 0, false));
    act := Child(if s.cpc.AwaitToken? then Answer(0, 1, false) else Answer(0, 0, false));
  }

  // ---- main results ----------------------------------------------------

  /**
    Every run from an initial state is finite, and one that can go no further has the
    parent returned with exactly its entry descriptors; if it failed after the clone the
    child is dead and reaped.
  */
  lemma {:induction false} EveryRunEndsClean(s: State, run: seq<Action>)
    requires Initial(s) && ValidRun(s, run)
    ensures |run| <= 57 + s.interruptions
    ensures var e := Run(s, run);
            && ((forall act :: !Enabled(e, act)) ==> e.ppc.Returned?)
            && (e.ppc.Returned? ==> e.fds.parent == s.fds.entry)
            && (e.ppc.Returned? && e.ppc.result.Failed? && !e.cpc.Unborn? ==> e.cpc.Dead? && e.past.reaped)
  {
    InitialInv(s);
    RunKeepsInv(s, run);
    RunsAreBounded(s, run);
    var e := Run(s, run);
    if !e.ppc.Returned? {
      var act := NoDeadlock(e);
    }
  }

  /** The child execs only after maps, token, root and limits, in every state of every run. */
  lemma {:induction false} ExecComesLast(s: State, run: seq<Action>)
    requires Initial(s) && ValidRun(s, run)
    ensures var e := Run(s, run);
            e.past.execd ==>
              e.past.mapsWritten && e.past.tokenRead && e.past.rootSwitched && e.past.limitsApplied
  {
    InitialInv(s);
    RunKeepsInv(s, run);
  }

  /**
    The return value is exact: once the parent has returned, it returned success if and
    only if the child reported ready and never reported an exec errno.  An exec that took
    place is therefore never reported as a failure.
  */
  lemma {:induction false} SuccessIsExact(s: State, run: seq<Action>)
    requires Initial(s) && ValidRun(s, run)
    requires Run(s, run).ppc.Returned?
    ensures var e := Run(s, run);
            && (e.ppc.result.Started? <==> ReportedReady(e.past) && e.past.execErrno == [])
            && (e.past.execd ==> e.ppc.result.Started?)
            && (e.ppc.result.Started? ==>
                  e.ppc.result.nsPid == e.past.reported[0].nsPid && (e.past.execd || e.cpc.Dead?))
            && (e.ppc.result.Failed? && !e.cpc.Unborn? && e.past.tokenSent ==>
                  FailureExplained(e.cpc, e.past, e.ppc.result.errno))
  {
    InitialInv(s);
    RunKeepsInv(s, run);
  }

  /** End of file on a pipe the parent reads means that the child closed its end, died or exec'd. */
  lemma {:induction false} EofIsHonest(s: State, run: seq<Action>)
    requires Initial(s) && ValidRun(s, run)
    ensures var e := Run(s, run);
            && (e.ppc.ReadStatus? && e.status == [] && NoWriter(e, Status) ==> e.cpc.Dead? && e.past.reported == [])
            && (e.ppc.ReadExec? && e.exec == [] && NoWriter(e, Exec) ==>
                  e.past.execErrno == [] && (e.past.execd || e.cpc.Dead?))
  {
    InitialInv(s);
    RunKeepsInv(s, run);
    var e := Run(s, run);
    if e.ppc.ReadStatus? && e.status == [] && NoWriter(e, Status) {
      NothingReported(e);
    }
  }

  /**
    The child keeps a copy of the continue pipe's write end, so the end-of-file branch of
    `wait_for_parent_ready` is never taken: only a token or a signal ends that wait.
  */
  lemma {:induction false} ContinueEofNeverSeen(s: State, run: seq<Action>)
    requires Initial(s) && ValidRun(s, run)
    ensures var e := Run(s, run);
            && (e.cpc.AwaitToken? ==> !NoWriter(e, Continue))
            && (e.cpc.Execd? ==> e.fds.child == s.fds.entry + {R(Status), R(Exec), W(Continue)})
  {
    InitialInv(s);
    RunKeepsInv(s, run);
  }
}
