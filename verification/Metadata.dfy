/**
  The record file `containers.meta`: what `save_metadata` prints for a list of records, what
  `container_manager_init` makes of a text, and exactly when the second undoes the first.
*/
module Metadata {
  import opened Text
  import Limits

  const ID_LEN: nat := 64
  const NAME_LEN: nat := 64
  const HOSTNAME_LEN: nat := 64
  const ROOTFS_LEN: nat := 512
  const COMMAND_LEN: nat := 256
  const DEFAULT_COMMAND := "/bin/sh"

  datatype Phase = Created | Running | Stopped

  /** `Container`; a stack is named by the number of its allocation. */
  datatype Record = Record(
    id: string, name: string, pid: int, hostname: string, rootfs: string,
    phase: Phase, command: string, limits: Limits.Config, stack: Option<nat>)

  function PhaseText(p: Phase): string {
    match p
    case Created => "CREATED"
    case Running => "RUNNING"
    case Stopped => "STOPPED"
  }

  function PhaseOf(s: string): Phase {
    if s == "RUNNING" then Running else if s == "STOPPED" then Stopped else Created
  }

  // ---- printing: src/container.c:268-280 -------------------------------

  function Fields(r: Record): seq<string> {
    [r.id, r.name, PrintInt(r.pid), r.hostname, r.rootfs, PhaseText(r.phase), r.command,
     PrintNat(r.limits.cpuSeconds), PrintNat(r.limits.memoryMb), PrintNat(r.limits.maxProcesses)]
  }

  function Line(r: Record): string { Join(Fields(r), '\t') + ['\n'] }

  function Render(rs: seq<Record>): string {
    if rs == [] then [] else Line(rs[0]) + Render(rs[1..])
  }

  // ---- loading: src/container.c:597-650 --------------------------------

  /** The fields of a line, of which the loader looks at no more than ten. */
  function LineFields(line: string): seq<string> {
    var tokens := Tokens(TrimNewline(line), '\t');
    if |tokens| <= 10 then tokens else tokens[..10]
  }

  predicate Accepted(f: seq<string>) { |f| == 6 || |f| == 7 || |f| == 10 }

  function ParseLine(line: string): Option<Record> {
    var f := LineFields(line);
    if !Accepted(f) then None
    else Some(Record(
      Copy(f[0], ID_LEN), Copy(f[1], NAME_LEN), Atoi(f[2]), Copy(f[3], HOSTNAME_LEN), Copy(f[4], ROOTFS_LEN),
      PhaseOf(f[5]), if |f| >= 7 then Copy(f[6], COMMAND_LEN) else DEFAULT_COMMAND,
      if |f| >= 10 then Limits.Config(StrtoulUint(f[7]), StrtoulUint(f[8]), StrtoulUint(f[9])) else Limits.Config(0, 0, 0),
      None))
  }

  /** A record that says RUNNING but whose process is gone is taken in as STOPPED. */
  function Recover(r: Record, alive: set<int>): Record {
    if r.phase == Running && !(0 < r.pid && r.pid in alive)
    then r.(phase := Stopped, pid := -1, stack := None)
    else r.(stack := None)
  }

  function RecoverAll(rs: seq<Record>, alive: set<int>): (out: seq<Record>)
    ensures |out| == |rs| && forall i :: 0 <= i < |rs| ==> out[i] == Recover(rs[i], alive)
  {
    if rs == [] then [] else [Recover(rs[0], alive)] + RecoverAll(rs[1..], alive)
  }

  function LoadLine(line: string, alive: set<int>): seq<Record> {
    match ParseLine(line)
    case None => []
    case Some(r) => [Recover(r, alive)]
  }

  function LoadLines(lines: seq<string>, alive: set<int>): seq<Record> {
    if lines == [] then [] else LoadLine(lines[0], alive) + LoadLines(lines[1..], alive)
  }

  function Load(text: string, alive: set<int>): seq<Record> { LoadLines(Lines(text), alive) }

  // ---- what the C types guarantee, and what they do not ----------------

  /** Within the record's character arrays and integer types. */
  predicate Fits(r: Record) {
    && |r.id| < ID_LEN && |r.name| < NAME_LEN && |r.hostname| < HOSTNAME_LEN
    && |r.rootfs| < ROOTFS_LEN && |r.command| < COMMAND_LEN
    && 0 <= r.pid + INT_RANGE < UINT_RANGE
    && r.limits.Valid()
  }

  predicate CleanText(s: string) { s != [] && Free(s, '\t') && Free(s, '\r') && Free(s, '\n') }

  /** No text field is empty or holds a tab or a line break. */
  predicate Clean(r: Record) {
    CleanText(r.id) && CleanText(r.name) && CleanText(r.hostname) && CleanText(r.rootfs) && CleanText(r.command)
  }

  // ---- lengths ---------------------------------------------------------

  function Sum(ns: seq<nat>): nat { if ns == [] then 0 else ns[0] + Sum(ns[1..]) }

  lemma {:induction false} JoinLength(fields: seq<string>, bounds: seq<nat>, d: char)
    requires |fields| == |bounds| && fields != []
    requires forall i :: 0 <= i < |fields| ==> |fields[i]| <= bounds[i]
    ensures |Join(fields, d)| <= Sum(bounds) + |fields| - 1
  {
    if |fields| > 1 { JoinLength(fields[1..], bounds[1..], d); }
  }

  lemma {:induction false} NumberLengths(r: Record)
    requires Fits(r)
    ensures |PrintInt(r.pid)| <= 11
    ensures |PrintNat(r.limits.cpuSeconds)| <= 10 && |PrintNat(r.limits.memoryMb)| <= 10
    ensures |PrintNat(r.limits.maxProcesses)| <= 10
  {
    assert Power10(10) == 10000000000;
    PrintedLength(r.limits.cpuSeconds, 10);
    PrintedLength(r.limits.memoryMb, 10);
    PrintedLength(r.limits.maxProcesses, 10);
    PrintedLength(if r.pid < 0 then -r.pid else r.pid, 10);
  }

  /** Every line is at most 1013 bytes, newline included, so one 1024-byte fgets holds it. */
  lemma {:induction false} LineFitsBuffer(r: Record)
    requires Fits(r)
    ensures |Line(r)| <= 1013 <= LINE_CAP
  {
    var bounds := FIELD_BOUNDS;
    BoundsAddUp(bounds);
    FieldsFit(r);
    JoinLength(Fields(r), bounds, '\t');
  }

  const FIELD_BOUNDS: seq<nat> := [63, 63, 11, 63, 511, 7, 255, 10, 10, 10]

  lemma {:induction false} FieldsFit(r: Record)
    requires Fits(r)
    ensures |Fields(r)| == |FIELD_BOUNDS| == 10
    ensures forall i :: 0 <= i < 10 ==> |Fields(r)[i]| <= FIELD_BOUNDS[i]
  {
    NumberLengths(r);
  }

  lemma {:induction false} BoundsAddUp(bounds: seq<nat>)
    requires bounds == FIELD_BOUNDS
    ensures Sum(bounds) == 1003
  {
    assert Sum([63, 63, 11, 63, 511, 7, 255, 10, 10, 10]) == 1003;
  }

  // ---- one line --------------------------------------------------------

  lemma {:induction false} JoinFree(fields: seq<string>, d: char, c: char)
    requires c != d && forall f <- fields :: Free(f, c)
    ensures Free(Join(fields, d), c)
  {
    if fields != [] {
      assert fields[0] in fields;
      if |fields| > 1 {
        assert forall f <- fields[1..] :: f in fields;
        JoinFree(fields[1..], d, c);
      }
    }
  }

  lemma {:induction false} NumbersAreClean(n: int)
    ensures CleanText(PrintInt(n))
  {
    var ds := if n < 0 then PrintNat(-n) else PrintNat(n);
    assert forall i :: 0 <= i < |ds| ==> IsDigit(ds[i]);
    if n < 0 {
      assert PrintInt(n)[1..] == ds;
      assert forall i :: 1 <= i < |PrintInt(n)| ==> PrintInt(n)[i] == ds[i - 1];
    }
  }

  /** No text field holds a line break of the file. */
  predicate Unbroken(r: Record) {
    Free(r.id, '\n') && Free(r.name, '\n') && Free(r.hostname, '\n') && Free(r.rootfs, '\n') && Free(r.command, '\n')
  }

  lemma {:induction false} FieldsAreUnbroken(r: Record)
    requires Unbroken(r)
    ensures forall f <- Fields(r) :: Free(f, '\n')
  {
    NumbersAreClean(r.pid);
    NumbersAreClean(r.limits.cpuSeconds);
    NumbersAreClean(r.limits.memoryMb);
    NumbersAreClean(r.limits.maxProcesses);
  }

  lemma {:induction false} FieldsAreClean(r: Record)
    requires Clean(r)
    ensures forall f <- Fields(r) :: CleanText(f)
  {
    NumbersAreClean(r.pid);
    NumbersAreClean(r.limits.cpuSeconds);
    NumbersAreClean(r.limits.memoryMb);
    NumbersAreClean(r.limits.maxProcesses);
  }

  lemma {:induction false} LineIsOneRead(r: Record, rest: string)
    requires Fits(r) && Unbroken(r)
    ensures Lines(Line(r) + rest) == [Line(r)] + Lines(rest)
  {
    LineFitsBuffer(r);
    FieldsAreUnbroken(r);
    var body := Join(Fields(r), '\t');
    JoinFree(Fields(r), '\t', '\n');
    assert Line(r)[..|Line(r)| - 1] == body;
    WholeLineIsOneRead(Line(r), rest);
  }

  /** Clean fields come back from a line made of them. */
  lemma {:induction false} FieldsSplitBack(fields: seq<string>)
    requires forall f <- fields :: CleanText(f)
    ensures Tokens(TrimNewline(Join(fields, '\t') + ['\n']), '\t') == fields
  {
    JoinFree(fields, '\t', '\n');
    JoinFree(fields, '\t', '\r');
    TrimCuts(Join(fields, '\t'), ['\n']);
    TokensOfJoin(fields, '\t');
  }

  lemma {:induction false} LineSplitsBack(r: Record)
    requires Clean(r)
    ensures LineFields(Line(r)) == Fields(r)
  {
    FieldsAreClean(r);
    FieldsSplitBack(Fields(r));
  }

  lemma {:induction false} NumbersScanBack(r: Record)
    requires Fits(r)
    ensures Atoi(PrintInt(r.pid)) == r.pid
    ensures StrtoulUint(PrintNat(r.limits.cpuSeconds)) == r.limits.cpuSeconds
    ensures StrtoulUint(PrintNat(r.limits.memoryMb)) == r.limits.memoryMb
    ensures StrtoulUint(PrintNat(r.limits.maxProcesses)) == r.limits.maxProcesses
  {
    AtoiInverts(r.pid);
    StrtoulInverts(r.limits.cpuSeconds);
    StrtoulInverts(r.limits.memoryMb);
    StrtoulInverts(r.limits.maxProcesses);
  }

  lemma {:induction false} LineParsesBack(r: Record)
    requires Fits(r) && Clean(r)
    ensures ParseLine(Line(r)) == Some(r.(stack := None))
  {
    LineSplitsBack(r);
    NumbersScanBack(r);
    assert PhaseOf(PhaseText(r.phase)) == r.phase;
  }

  // ---- whole files -----------------------------------------------------

  /** Every record through its own line. */
  function LoadEach(rs: seq<Record>, alive: set<int>): seq<Record> {
    if rs == [] then [] else LoadLine(Line(rs[0]), alive) + LoadEach(rs[1..], alive)
  }

  /** As long as no field holds a line break, records do not get in each other's way. */
  lemma {:induction false} LoadIsLineByLine(rs: seq<Record>, alive: set<int>)
    requires forall r <- rs :: Fits(r) && Unbroken(r)
    ensures Load(Render(rs), alive) == LoadEach(rs, alive)
  {
    if rs != [] {
      assert rs[0] in rs;
      LineIsOneRead(rs[0], Render(rs[1..]));
      LoadIsLineByLine(rs[1..], alive);
      var lines := [Line(rs[0])] + Lines(Render(rs[1..]));
      assert lines[1..] == Lines(Render(rs[1..]));
    }
  }

  lemma {:induction false} LoadEachClean(rs: seq<Record>, alive: set<int>)
    requires forall r <- rs :: Fits(r) && Clean(r)
    ensures LoadEach(rs, alive) == RecoverAll(rs, alive)
  {
    if rs != [] {
      assert rs[0] in rs;
      LineParsesBack(rs[0]);
      LoadEachClean(rs[1..], alive);
      assert Recover(rs[0].(stack := None), alive) == Recover(rs[0], alive);
    }
  }

  lemma {:induction false} LoadRendered(rs: seq<Record>, alive: set<int>)
    requires forall r <- rs :: Fits(r) && Clean(r)
    ensures Load(Render(rs), alive) == RecoverAll(rs, alive)
  {
    LoadIsLineByLine(rs, alive);
    LoadEachClean(rs, alive);
  }

  /** Whatever its other fields hold, a record that comes back at all comes back with its id. */
  lemma {:induction false} IdComesBack(r: Record)
    requires CleanText(r.id) && |r.id| < ID_LEN
    ensures ParseLine(Line(r)).Some? ==> ParseLine(Line(r)).value.id == r.id
  {
    var tail := Join(Fields(r)[1..], '\t') + ['\n'];
    assert Line(r) == r.id + (['\t'] + tail);
    TrimBehind(r.id, ['\t'] + tail);
    TrimBehind(['\t'], tail);
    FirstToken(r.id, ['\t'] + TrimNewline(tail), '\t');
  }

  lemma {:induction false} CopyIsFree(s: string, size: nat, c: char)
    requires Free(s, c) && 0 < size
    ensures Free(Copy(s, size), c)
  {
    var t := Copy(s, size);
    assert forall i :: 0 <= i < |t| ==> t[i] == s[i];
  }

  lemma {:induction false} CopyIsClean(s: string, size: nat)
    requires CleanText(s) && 1 < size
    ensures CleanText(Copy(s, size))
  {
    var t := Copy(s, size);
    assert forall i :: 0 <= i < |t| ==> t[i] == s[i];
  }

  lemma {:induction false} TokenIsClean(line: string, t: string)
    requires t in Tokens(TrimNewline(line), '\t')
    ensures CleanText(t)
  {
    var s := TrimNewline(line);
    TrimmedIsClean(line);
    TokensAreWords(s, '\t');
    assert forall c <- s :: c != '\r' && c != '\n';
    assert forall i :: 0 <= i < |t| ==> t[i] in t;
  }

  /** Whatever the text, a record that is loaded from it is clean. */
  lemma {:induction false} ParsedIsClean(line: string)
    requires ParseLine(line).Some?
    ensures Clean(ParseLine(line).value)
  {
    var tokens := Tokens(TrimNewline(line), '\t');
    forall i | 0 <= i < |tokens| ensures CleanText(tokens[i]) { TokenIsClean(line, tokens[i]); }
    ParsedTokensAreClean(tokens);
  }

  lemma {:induction false} ParsedTokensAreClean(tokens: seq<string>)
    requires |tokens| >= 6 && forall i :: 0 <= i < |tokens| ==> CleanText(tokens[i])
    ensures CleanText(Copy(tokens[0], ID_LEN)) && CleanText(Copy(tokens[1], NAME_LEN))
    ensures CleanText(Copy(tokens[3], HOSTNAME_LEN)) && CleanText(Copy(tokens[4], ROOTFS_LEN))
    ensures |tokens| >= 7 ==> CleanText(Copy(tokens[6], COMMAND_LEN))
    ensures CleanText(DEFAULT_COMMAND) && |DEFAULT_COMMAND| < COMMAND_LEN
  {
    CopyIsClean(tokens[0], ID_LEN);
    CopyIsClean(tokens[1], NAME_LEN);
    CopyIsClean(tokens[3], HOSTNAME_LEN);
    CopyIsClean(tokens[4], ROOTFS_LEN);
    if |tokens| >= 7 { CopyIsClean(tokens[6], COMMAND_LEN); }
    assert DEFAULT_COMMAND == ['/', 'b', 'i', 'n', '/', 's', 'h'];
  }

  /** What comes out of a file fits the record's C types, owns no stack and, if RUNNING, has a process. */
  lemma {:induction false} LoadedFits(lines: seq<string>, alive: set<int>)
    ensures forall r <- LoadLines(lines, alive) ::
              && Fits(r) && r.stack == None
              && (r.phase == Running ==> 0 < r.pid && r.pid in alive)
  {
    if lines != [] { LoadedFits(lines[1..], alive); }
  }

  lemma {:induction false} LoadedIsClean(lines: seq<string>, alive: set<int>)
    ensures forall r <- LoadLines(lines, alive) :: Clean(r)
  {
    if lines != [] {
      LoadedIsClean(lines[1..], alive);
      if ParseLine(lines[0]).Some? { ParsedIsClean(lines[0]); }
    }
  }

  /**
    Loading what was saved gives back the same records in the same order (a RUNNING record
    whose process is gone becomes STOPPED) if and only if every text field is non-empty and
    free of tabs and line breaks.
  */
  lemma {:induction false} RoundTripIff(rs: seq<Record>, alive: set<int>)
    requires forall r <- rs :: Fits(r)
    ensures Load(Render(rs), alive) == RecoverAll(rs, alive) <==> forall r <- rs :: Clean(r)
  {
    if forall r <- rs :: Clean(r) {
      LoadRendered(rs, alive);
    }
    LoadedIsClean(Lines(Render(rs)), alive);
    if Load(Render(rs), alive) == RecoverAll(rs, alive) {
      CleanBefore(rs, RecoverAll(rs, alive), alive);
    }
  }

  lemma {:induction false} CleanBefore(rs: seq<Record>, out: seq<Record>, alive: set<int>)
    requires |out| == |rs| && forall i :: 0 <= i < |rs| ==> out[i] == Recover(rs[i], alive)
    requires forall r <- out :: Clean(r)
    ensures forall r <- rs :: Clean(r)
  {
    forall i | 0 <= i < |rs| ensures Clean(rs[i]) {
      assert out[i] in out;
    }
  }

  /** A quoted name may hold a tab; then the record comes back with its fields shifted. */
  lemma {:induction false} TabInNameIsLost(alive: set<int>)
    ensures var r := Record("container-0001", "a\tb", -1, "h", "/r", Created, "sh", Limits.Config(0, 0, 0), None);
            Fits(r) && Load(Render([r]), alive) != RecoverAll([r], alive)
  {
    var r := Record("container-0001", "a\tb", -1, "h", "/r", Created, "sh", Limits.Config(0, 0, 0), None);
    assert "a\tb"[1] == '\t';
    RoundTripIff([r], alive);
    assert r in [r];
  }

  // ---- the format itself -----------------------------------------------

  lemma {:induction false} JoinFive(a: string, b: string, c: string, d: string, e: string)
    ensures Join([a, b, c, d, e], '\t') == a + "\t" + b + "\t" + c + "\t" + d + "\t" + e
  {
    JoinConcat([a], [b, c, d, e], '\t');
    JoinConcat([b], [c, d, e], '\t');
    JoinConcat([c], [d, e], '\t');
    JoinConcat([d], [e], '\t');
    assert [a, b, c, d, e] == [a] + [b, c, d, e] && [b, c, d, e] == [b] + [c, d, e];
    assert [c, d, e] == [c] + [d, e] && [d, e] == [d] + [e];
  }

  /** The ten fields of a line, in order. */
  lemma {:induction false} LineFormat(r: Record)
    ensures var state := match r.phase case Created => "CREATED" case Running => "RUNNING" case Stopped => "STOPPED";
            Line(r) == (r.id + "\t" + r.name + "\t" + PrintInt(r.pid) + "\t" + r.hostname + "\t" + r.rootfs) + "\t"
                       + (state + "\t" + r.command + "\t" + PrintNat(r.limits.cpuSeconds) + "\t"
                          + PrintNat(r.limits.memoryMb) + "\t" + PrintNat(r.limits.maxProcesses)) + "\n"
  {
    var f := Fields(r);
    assert f == f[..5] + f[5..];
    JoinConcat(f[..5], f[5..], '\t');
    assert f[..5] == [r.id, r.name, PrintInt(r.pid), r.hostname, r.rootfs];
    JoinFive(r.id, r.name, PrintInt(r.pid), r.hostname, r.rootfs);
    assert f[5..] == [PhaseText(r.phase), r.command, PrintNat(r.limits.cpuSeconds), PrintNat(r.limits.memoryMb),
                      PrintNat(r.limits.maxProcesses)];
    JoinFive(PhaseText(r.phase), r.command, PrintNat(r.limits.cpuSeconds), PrintNat(r.limits.memoryMb),
             PrintNat(r.limits.maxProcesses));
  }

  /** A line of clean fields as older versions wrote it, with six or seven of them, or with all ten. */
  lemma {:induction false} LineMeans(f: seq<string>)
    requires (forall w <- f :: CleanText(w)) && (|f| == 6 || |f| == 7 || |f| == 10)
    ensures var got := ParseLine(Join(f, '\t') + ['\n']);
            && got.Some?
            && got.value.id == Copy(f[0], 64) && got.value.name == Copy(f[1], 64) && got.value.pid == Atoi(f[2])
            && got.value.hostname == Copy(f[3], 64) && got.value.rootfs == Copy(f[4], 512)
            && got.value.phase == (if f[5] == "RUNNING" then Running else if f[5] == "STOPPED" then Stopped else Created)
            && got.value.command == (if |f| == 6 then "/bin/sh" else Copy(f[6], 256))
            && got.value.limits.cpuSeconds == (if |f| == 10 then StrtoulUint(f[7]) else 0)
            && got.value.limits.memoryMb == (if |f| == 10 then StrtoulUint(f[8]) else 0)
            && got.value.limits.maxProcesses == (if |f| == 10 then StrtoulUint(f[9]) else 0)
            && got.value.stack == None
  {
    FieldsSplitBack(f);
  }

  /** A line with any other number of fields is passed over; of more than ten, ten count. */
  lemma {:induction false} OtherLinesAreDropped(f: seq<string>)
    requires (forall w <- f :: CleanText(w)) && |f| < 10 && |f| != 6 && |f| != 7
    ensures ParseLine(Join(f, '\t') + ['\n']) == None
  {
    FieldsSplitBack(f);
  }

  /** RUNNING without a live process comes back STOPPED with pid -1; everything else comes back as it was. */
  lemma {:induction false} RecoverMeans(r: Record, alive: set<int>)
    ensures var q := Recover(r, alive);
            && q.id == r.id && q.name == r.name && q.hostname == r.hostname && q.rootfs == r.rootfs
            && q.command == r.command && q.limits == r.limits && q.stack == None
            && (if r.phase == Running && !(r.pid > 0 && r.pid in alive) then q.phase == Stopped && q.pid == -1
                else q.phase == r.phase && q.pid == r.pid)
  {
  }
}
