/**
  What a text that is not clean becomes when `containers.meta` is read back: which pids a file
  can bring in, how a tab in a name moves the fields, and how a line break makes a record of
  its own.
*/
module Reload {
  import opened Sequences
  import opened Text
  import opened Metadata

  /** Only a RUNNING record has a pid. */
  predicate PidOk(r: Record) { r.phase != Running ==> r.pid == -1 }

  /** The third field of an accepted line reads as -1 unless the sixth is RUNNING. */
  predicate PidFieldOk(line: string) {
    var f := LineFields(line);
    Accepted(f) && PhaseOf(f[5]) != Running ==> Atoi(f[2]) == -1
  }

  ghost predicate PidsOk(rs: seq<Record>) { forall r <- rs :: PidOk(r) }

  lemma {:induction false} PidsOfConcat(a: seq<Record>, b: seq<Record>)
    ensures PidsOk(a + b) <==> PidsOk(a) && PidsOk(b)
  {
    assert forall r :: r in a + b <==> r in a || r in b;
  }

  lemma {:induction false} LinePidIff(line: string, alive: set<int>)
    ensures PidsOk(LoadLine(line, alive)) <==> PidFieldOk(line)
  {
    if ParseLine(line).Some? {
      var r := Recover(ParseLine(line).value, alive);
      assert LoadLine(line, alive) == [r] && r in [r];
    }
  }

  ghost predicate PidFieldsOk(lines: seq<string>) { forall l <- lines :: PidFieldOk(l) }

  lemma {:induction false} PidFieldsOfCons(lines: seq<string>)
    requires lines != []
    ensures PidFieldsOk(lines) <==> PidFieldOk(lines[0]) && PidFieldsOk(lines[1..])
  {
    assert forall l :: l in lines <==> l == lines[0] || l in lines[1..];
  }

  /** For any text whatever: the loaded list has its pids in order exactly if every line's fields do. */
  lemma {:induction false} LoadedPidsIff(lines: seq<string>, alive: set<int>)
    ensures PidsOk(LoadLines(lines, alive)) <==> PidFieldsOk(lines)
  {
    if lines != [] {
      PidsOfConcat(LoadLine(lines[0], alive), LoadLines(lines[1..], alive));
      PidFieldsOfCons(lines);
      LinePidIff(lines[0], alive);
      LoadedPidsIff(lines[1..], alive);
    }
  }

  /** The ids a text brings in: the first fields of its accepted lines, cut to size. */
  function FirstFields(lines: seq<string>): seq<string> {
    if lines == [] then [] else FirstField(lines[0]) + FirstFields(lines[1..])
  }

  function FirstField(line: string): (f: seq<string>)
    ensures |f| <= 1
  {
    if Accepted(LineFields(line)) then [Copy(LineFields(line)[0], ID_LEN)] else []
  }

  lemma {:induction false} LoadedIds(lines: seq<string>, alive: set<int>)
    ensures |LoadLines(lines, alive)| == |FirstFields(lines)|
    ensures forall i :: 0 <= i < |FirstFields(lines)| ==> LoadLines(lines, alive)[i].id == FirstFields(lines)[i]
  {
    if lines != [] {
      LoadedIds(lines[1..], alive);
      LineId(lines[0], alive);
      SameIdsConcat(LoadLine(lines[0], alive), LoadLines(lines[1..], alive), FirstField(lines[0]), FirstFields(lines[1..]));
    }
  }

  lemma {:induction false} LineId(line: string, alive: set<int>)
    ensures |LoadLine(line, alive)| == |FirstField(line)|
    ensures FirstField(line) != [] ==> LoadLine(line, alive)[0].id == FirstField(line)[0]
  {
  }

  lemma {:induction false} SameIdsConcat(a: seq<Record>, b: seq<Record>, x: seq<string>, y: seq<string>)
    requires |a| == |x| <= 1 && |b| == |y| && (x != [] ==> a[0].id == x[0])
    requires forall i :: 0 <= i < |y| ==> b[i].id == y[i]
    ensures |a + b| == |x + y| && forall i :: 0 <= i < |x + y| ==> (a + b)[i].id == (x + y)[i]
  {
  }

  // ---- a tab inside a field --------------------------------------------

  /** A field that is itself a join counts as the fields it is made of. */
  lemma {:induction false} JoinFlattens(a: seq<string>, b: seq<string>, c: seq<string>, d: char)
    requires a != [] && b != [] && c != []
    ensures Join(a + [Join(b, d)] + c, d) == Join(a + b + c, d)
  {
    JoinConcat(a + [Join(b, d)], c, d);
    JoinConcat(a, [Join(b, d)], d);
    JoinConcat(a + b, c, d);
    JoinConcat(a, b, d);
  }

  lemma {:induction false} TabbedFields(r: Record, words: seq<string>)
    requires |words| == 5 && (forall w <- words :: CleanText(w)) && r.name == Join(words, '\t')
    requires CleanText(r.id) && CleanText(r.hostname) && CleanText(r.rootfs) && CleanText(r.command)
    ensures |LineFields(Line(r))| == 10 && LineFields(Line(r))[1..6] == words
  {
    FieldsAreClean(r.(name := r.id));
    var all := Fields(r);
    var fields := all[..1] + words + all[2..];
    assert all == all[..1] + [r.name] + all[2..];
    JoinFlattens(all[..1], words, all[2..], '\t');
    forall f | f in fields ensures CleanText(f) {
      assert f in words || f in Fields(r.(name := r.id));
    }
    FieldsSplitBack(fields);
    assert fields[..10][1..6] == words;
  }

  /**
    A name of five words with tabs between them takes over the pid and the state: the record
    comes back with the number its second word says and in the state its last word says.
  */
  lemma {:induction false} TabbedNameSetsPid(r: Record, words: seq<string>)
    requires |words| == 5 && (forall w <- words :: CleanText(w)) && r.name == Join(words, '\t')
    requires CleanText(r.id) && CleanText(r.hostname) && CleanText(r.rootfs) && CleanText(r.command)
    ensures ParseLine(Line(r)).Some?
    ensures ParseLine(Line(r)).value.pid == Atoi(words[1]) && ParseLine(Line(r)).value.phase == PhaseOf(words[4])
  {
    TabbedFields(r, words);
    var f := LineFields(Line(r));
    assert f[2] == f[1..6][1] && f[5] == f[1..6][4];
  }

  const FORGED_NAME := "x\t7\th\tr\tCREATED"

  lemma {:induction false} ForgedWordsAreClean()
    ensures CleanText("x") && CleanText("7") && CleanText("h") && CleanText("r") && CleanText("CREATED")
  {
  }

  lemma {:induction false} ForgedWords(words: seq<string>)
    requires words == ["x", "7", "h", "r", "CREATED"]
    ensures Join(words, '\t') == FORGED_NAME && forall w <- words :: CleanText(w)
  {
    ForgedWordsAreClean();
    var a, b := words[..2], words[2..];
    JoinConcat(a, b, '\t');
    JoinConcat(a[..1], a[1..], '\t');
    JoinConcat(b[..1], b[1..], '\t');
    JoinConcat(b[1..][..1], b[1..][1..], '\t');
    assert words == a + b && a == a[..1] + a[1..] && b == b[..1] + b[1..] && b[1..] == b[1..][..1] + b[1..][1..];
    assert Join(words, '\t') == "x" + ['\t'] + "7" + ['\t'] + ("h" + ['\t'] + ("r" + ['\t'] + "CREATED"));
  }

  /** So a created container can come back as CREATED with pid 7, whoever that is. */
  lemma {:induction false} CreatedWithPidSeven(r: Record)
    requires r.name == FORGED_NAME
    requires CleanText(r.id) && CleanText(r.hostname) && CleanText(r.rootfs) && CleanText(r.command)
    ensures ParseLine(Line(r)).Some?
    ensures ParseLine(Line(r)).value.phase == Created && ParseLine(Line(r)).value.pid == 7
    ensures !PidFieldOk(Line(r))
  {
    var words := ["x", "7", "h", "r", "CREATED"];
    ForgedWords(words);
    TabbedNameSetsPid(r, words);
    assert PrintInt(7) == "7";
    AtoiInverts(7);
  }

  // ---- a line break inside a field -------------------------------------

  lemma {:induction false} WholeLine(fields: seq<string>, rest: string)
    requires (forall f <- fields :: CleanText(f)) && |Join(fields, '\t')| < LINE_CAP
    ensures var l := Join(fields, '\t') + ['\n'];
            Lines(l + rest) == [l] + Lines(rest) && Tokens(TrimNewline(l), '\t') == fields
  {
    var body := Join(fields, '\t');
    JoinFree(fields, '\t', '\n');
    assert (body + ['\n'])[..|body|] == body;
    WholeLineIsOneRead(body + ['\n'], rest);
    FieldsSplitBack(fields);
  }

  /** The two lines a record prints if its root path has a line break in it. */
  lemma {:induction false} BrokenLine(r: Record, front: string, back: string)
    requires r.rootfs == front + ['\n'] + back
    ensures Line(r) == (Join(Fields(r)[..4] + [front], '\t') + ['\n']) + (Join([back] + Fields(r)[5..], '\t') + ['\n'])
  {
    var f := Fields(r);
    assert f == f[..4] + ([r.rootfs] + f[5..]);
    JoinConcat(f[..4], [r.rootfs] + f[5..], '\t');
    JoinConcat([r.rootfs], f[5..], '\t');
    JoinConcat(f[..4], [front], '\t');
    JoinConcat([back], f[5..], '\t');
  }

  /** Both halves are whole lines of clean fields. */
  lemma {:induction false} HalvesAreClean(r: Record, front: string, back: string)
    requires CleanText(front) && CleanText(back)
    requires CleanText(r.id) && CleanText(r.name) && CleanText(r.hostname) && CleanText(r.command)
    ensures forall w <- Fields(r)[..4] + [front] :: CleanText(w)
    ensures forall w <- [back] + Fields(r)[5..] :: CleanText(w)
  {
    var f := Fields(r.(rootfs := r.id));
    FieldsAreClean(r.(rootfs := r.id));
    assert Fields(r)[..4] == f[..4] && Fields(r)[5..] == f[5..];
    assert (forall w <- f[..4] :: w in f) && forall w <- f[5..] :: w in f;
  }

  /** A line of five fields is dropped, one of six is taken for a record named after the first. */
  lemma {:induction false} LoadByFields(line: string, fields: seq<string>, alive: set<int>)
    requires Tokens(TrimNewline(line), '\t') == fields
    ensures |fields| == 5 ==> LoadLine(line, alive) == []
    ensures |fields| == 6 ==> |LoadLine(line, alive)| == 1 && LoadLine(line, alive)[0].id == Copy(fields[0], ID_LEN)
  {
  }

  /** The first half is dropped and the second becomes a record whose id is the rest of the path. */
  lemma {:induction false} NewlineForgesRecord(r: Record, front: string, back: string, rest: string, alive: set<int>)
    requires Fits(r) && r.rootfs == front + ['\n'] + back && CleanText(front) && CleanText(back)
    requires CleanText(r.id) && CleanText(r.name) && CleanText(r.hostname) && CleanText(r.command)
    ensures exists q: Record :: q.id == Copy(back, ID_LEN) && Load(Line(r) + rest, alive) == [q] + Load(rest, alive)
  {
    BrokenLine(r, front, back);
    LineFitsBuffer(r);
    HalvesAreClean(r, front, back);
    var a, b := Fields(r)[..4] + [front], [back] + Fields(r)[5..];
    TwoHalves(Line(r), a, b, rest, alive);
    var q := LoadLine(Join(b, '\t') + ['\n'], alive)[0];
    assert LoadLine(Join(b, '\t') + ['\n'], alive) == [q];
  }

  lemma {:induction false} TwoHalves(line: string, a: seq<string>, b: seq<string>, rest: string, alive: set<int>)
    requires line == (Join(a, '\t') + ['\n']) + (Join(b, '\t') + ['\n']) && |line| <= LINE_CAP
    requires |a| == 5 && |b| == 6 && (forall w <- a :: CleanText(w)) && forall w <- b :: CleanText(w)
    ensures var l := LoadLine(Join(b, '\t') + ['\n'], alive);
            && |l| == 1 && l[0].id == Copy(b[0], ID_LEN)
            && Load(line + rest, alive) == l + Load(rest, alive)
  {
    var first, second := Join(a, '\t') + ['\n'], Join(b, '\t') + ['\n'];
    Regroup(first, second, rest);
    WholeLine(a, second + rest);
    WholeLine(b, rest);
    LoadByFields(first, a, alive);
    LoadByFields(second, b, alive);
    TwoLines(first, second, rest, alive);
  }

  lemma {:induction false} LoadLinesCons(l: string, lines: seq<string>, alive: set<int>)
    ensures LoadLines([l] + lines, alive) == LoadLine(l, alive) + LoadLines(lines, alive)
  {
    assert ([l] + lines)[1..] == lines;
  }

  lemma {:induction false} TwoLines(a: string, b: string, rest: string, alive: set<int>)
    requires Lines(a + (b + rest)) == [a] + Lines(b + rest) && Lines(b + rest) == [b] + Lines(rest)
    requires LoadLine(a, alive) == []
    ensures Load(a + (b + rest), alive) == LoadLine(b, alive) + Load(rest, alive)
  {
    var lines := Lines(rest);
    LoadLinesCons(a, [b] + lines, alive);
    LoadLinesCons(b, lines, alive);
  }

  /** Two containers on the same such path come back with the same id. */
  lemma {:induction false} NewlineDuplicatesIds(r: Record, s: Record, front: string, back: string, alive: set<int>)
    requires Fits(r) && r.rootfs == front + ['\n'] + back && CleanText(front) && CleanText(back)
    requires CleanText(r.id) && CleanText(r.name) && CleanText(r.hostname) && CleanText(r.command)
    requires Fits(s) && s.rootfs == r.rootfs
    requires CleanText(s.id) && CleanText(s.name) && CleanText(s.hostname) && CleanText(s.command)
    ensures var loaded := Load(Render([r, s]), alive); |loaded| == 2 && loaded[0].id == loaded[1].id
  {
    assert [r, s][1..] == [s] && Render([s]) == Line(s) + [];
    NewlineForgesRecord(r, front, back, Render([s]), alive);
    NewlineForgesRecord(s, front, back, [], alive);
    assert Load([], alive) == [];
  }
}
