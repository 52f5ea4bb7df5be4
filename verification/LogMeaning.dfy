/**
  What the columns of the log table mean.  The catalog is built by in-place updates; here the
  cells are traced back to the log itself: the name, pid and status of a container in a row
  are the last ones any line up to that row gave.
*/
module LogMeaning {
  import opened Text
  import opened LogRecords
  import opened Logger
  import LogReader
  import opened Identity

  // ---- reference definitions: search the log backwards -----------------

  function LastName(items: seq<Item>, id: string): string {
    if items == [] then ""
    else
      var r := items[|items| - 1].record;
      var name := ExtractField(r.message, "name=");
      if r.id == id && name.Some? then name.value else LastName(items[..|items| - 1], id)
  }

  function LastPid(items: seq<Item>, id: string): Option<int> {
    if items == [] then None
    else
      var r := items[|items| - 1].record;
      if r.id == id && ExtractPid(r.message).Some? then ExtractPid(r.message)
      else LastPid(items[..|items| - 1], id)
  }

  function LastStatus(items: seq<Item>, id: string): string {
    if items == [] then ""
    else
      var r := items[|items| - 1].record;
      if r.id == id && InferStatus(r) != "-" then InferStatus(r) else LastStatus(items[..|items| - 1], id)
  }

  predicate Mentioned(items: seq<Item>, id: string) { exists i :: 0 <= i < |items| && items[i].record.id == id }

  // ---- the catalog holds exactly that ----------------------------------

  lemma {:induction false} LookupAfterAppend(cat: Catalog, e: Entry, id: string)
    ensures Lookup(cat + [e], id) ==
            if Lookup(cat, id).Some? then Lookup(cat, id)
            else if e.id == id then Some(|cat|) else None
  {
    if cat != [] {
      assert (cat + [e])[1..] == cat[1..] + [e];
      LookupAfterAppend(cat[1..], e, id);
    } else {
      assert cat + [e] == [e];
    }
  }

  lemma {:induction false} LookupAfterUpdate(cat: Catalog, i: nat, e: Entry, id: string)
    requires i < |cat| && e.id == cat[i].id
    ensures Lookup(cat[i := e], id) == Lookup(cat, id)
  {
    if i != 0 {
      assert cat[i := e][1..] == cat[1..][i - 1 := e];
      LookupAfterUpdate(cat[1..], i - 1, e, id);
    } else {
      assert cat[i := e][1..] == cat[1..];
    }
  }

  ghost predicate Says(cat: Catalog, items: seq<Item>, id: string) {
    match Lookup(cat, id)
    case None => !Mentioned(items, id) && LastName(items, id) == "" && LastPid(items, id) == None
                 && LastStatus(items, id) == ""
    case Some(i) => cat[i] == Entry(id, LastName(items, id), LastPid(items, id), LastStatus(items, id))
                    && Mentioned(items, id)
  }

  /** One update of the catalog is one step of the backwards search, for every id. */
  lemma {:induction false} UpdateSays(cat: Catalog, items: seq<Item>, id: string)
    requires items != [] && id != ""
    requires Says(cat, items[..|items| - 1], id)
    ensures Says(UpdateCatalog(cat, items[|items| - 1].record), items, id)
  {
    var last := |items| - 1;
    var rest, r := items[..last], items[last].record;
    assert Mentioned(items, id) <==> Mentioned(rest, id) || r.id == id by {
      if Mentioned(rest, id) {
        var i :| 0 <= i < |rest| && rest[i].record.id == id;
        assert items[i].record.id == id;
      }
      if r.id == id { assert items[last].record.id == id; }
    }
    if r.id != "" {
      match Lookup(cat, r.id)
      case None => LookupAfterAppend(cat, UpdateEntry(Entry(r.id, "", None, ""), r), id);
      case Some(i) => LookupAfterUpdate(cat, i, UpdateEntry(cat[i], r), id);
    }
  }

  lemma {:induction false} CatalogIsLatest(items: seq<Item>, id: string)
    requires id != ""
    ensures Says(Fold([], items), items, id)
  {
    if items != [] {
      CatalogIsLatest(items[..|items| - 1], id);
      UpdateSays(Fold([], items[..|items| - 1]), items, id);
    }
  }

  /** Every cell of every row, from the log alone. */
  lemma {:induction false} RowMeaning(items: seq<Item>, i: nat)
    requires i < |items|
    ensures var row := Rows([], items)[i];
            var r := items[i].record;
            var past := items[..i + 1];
            && row.time == OrDash(r.timestamp) && row.event == OrDash(r.event) && row.id == OrDash(r.id)
            && row.details == OrDash(r.message)
            && row.name == OrDash(if r.id == "" then "" else LastName(past, r.id))
            && row.pid == (var pid := if r.id == "" then ExtractPid(r.message) else LastPid(past, r.id);
                           if pid.Some? then PrintInt(pid.value) else "-")
            && row.status == (if r.id == "" || LastStatus(past, r.id) == "" then InferStatus(r)
                              else LastStatus(past, r.id))
  {
    var r, past := items[i].record, items[..i + 1];
    LogReader.RowsPrefix([], items, i);
    if r.id != "" {
      CatalogIsLatest(past, r.id);
      assert past[i].record.id == r.id;
      assert Mentioned(past, r.id);
    }
  }

  // ---- the manager's own lines -----------------------------------------

  /** The message of CONTAINER_STARTED up to the namespace pid (src/container.c:844-853). */
  function StartedMessage(n: nat, pid: nat, rest: string): string { FormatId(n) + " pid=" + PrintNat(pid) + rest }

  /** The message of CONTAINER_CREATED up to the hostname (src/container.c:731-740). */
  function CreatedMessage(n: nat, name: string, rest: string): string { FormatId(n) + " name=" + name + rest }

  lemma {:induction false} LeadingDigitsPrefix(ds: string, rest: string)
    requires AllDigits(ds) && (rest == [] || !IsDigit(rest[0]))
    ensures LeadingDigits(ds + rest) == ds
  {
    if ds == [] {
      assert ds + rest == rest;
    } else {
      assert (ds + rest)[1..] == ds[1..] + rest;
      LeadingDigitsPrefix(ds[1..], rest);
    }
  }

  lemma {:induction false} IdIsExtracted(n: nat, rest: string)
    requires n < INT_RANGE && rest != [] && rest[0] == ' '
    ensures ExtractId(FormatId(n) + rest) == FormatId(n)
  {
    var s := FormatId(n) + rest;
    PaddedValue(n);
    IdIsClean(n);
    assert s == ID_PREFIX + (Padded(n) + rest);
    assert s[0..] == s && ID_PREFIX <= s;
    FindIs(s, ID_PREFIX, 0);
    assert s[0 + |ID_PREFIX|..] == Padded(n) + rest;
    LeadingDigitsPrefix(Padded(n), rest);
  }

  lemma {:induction false} PidKeyComesFirst(n: nat, pid: nat, rest: string)
    ensures var s := StartedMessage(n, pid, rest);
            && Find(s, "pid=") == Some(|FormatId(n)| + 1)
            && s[|FormatId(n)| + 5..] == PrintNat(pid) + rest
  {
    var before := FormatId(n) + " ";
    var number := PrintNat(pid) + rest;
    assert StartedMessage(n, pid, rest) == before + "pid=" + number;
    PaddedValue(n);
    IdHasNoP(n, Padded(n));
    KeyIsSplitOff(before, number);
  }

  lemma {:induction false} IdHasNoP(n: nat, digits: string)
    requires digits == Padded(n) && AllDigits(digits)
    ensures Free(FormatId(n) + " ", 'p')
  {
    var before := FormatId(n) + " ";
    assert before == ['c', 'o', 'n', 't', 'a', 'i', 'n', 'e', 'r', '-'] + digits + [' '];
    assert forall i :: 10 <= i < 10 + |digits| ==> before[i] == digits[i - 10];
  }

  lemma {:induction false} KeyIsSplitOff(before: string, number: string)
    requires Free(before, 'p')
    ensures Find(before + "pid=" + number, "pid=") == Some(|before|)
    ensures (before + "pid=" + number)[|before| + 4..] == number
  {
    FindAfter(before, "pid=", number);
  }

  lemma {:induction false} NumberScans(pid: nat, rest: string)
    requires rest != [] && !IsDigit(rest[0])
    ensures var number := PrintNat(pid) + rest;
            && IsDigit(number[0]) && SkipBlanks(number) == number
            && ScanNumber(number) == Some((false, pid))
  {
    var number := PrintNat(pid) + rest;
    assert number[0] == PrintNat(pid)[0];
    assert SkipSpaces(number) == number;
    LeadingDigitsPrefix(PrintNat(pid), rest);
    PrintedValue(pid);
  }

  lemma {:induction false} IntAfterKey(s: string, key: string, i: nat, n: nat)
    requires Find(s, key) == Some(i)
    requires var rest := s[i + |key|..];
             && rest != [] && IsDigit(rest[0]) && SkipBlanks(rest) == rest && ScanNumber(rest) == Some((false, n))
    ensures ExtractInt(s, key) == Some(ToInt(n))
  {
  }

  lemma {:induction false} PidAfterKey(s: string, i: nat, pid: nat, rest: string)
    requires pid < INT_RANGE && rest != [] && rest[0] == ' '
    requires Find(s, "pid=") == Some(i) && s[i + 4..] == PrintNat(pid) + rest
    ensures ExtractPid(s) == Some(pid)
  {
    NumberScans(pid, rest);
    IntAfterKey(s, "pid=", i, pid);
    ToIntKeeps(pid);
  }

  lemma {:induction false} PidIsExtracted(n: nat, pid: nat, rest: string)
    requires pid < INT_RANGE && rest != [] && rest[0] == ' '
    ensures ExtractPid(StartedMessage(n, pid, rest)) == Some(pid)
  {
    PidKeyComesFirst(n, pid, rest);
    PidAfterKey(StartedMessage(n, pid, rest), |FormatId(n)| + 1, pid, rest);
  }

  /** A key with a character the text does not hold is not found. */
  lemma {:induction false} KeyIsAbsent(s: string, key: string, k: nat)
    requires k < |key| && Free(s, key[k])
    ensures Find(s, key) == None
  {
    if s != [] { KeyIsAbsent(s[1..], key, k); }
  }

  /** The message of CONTAINER_STOPPED (src/container.c:526). */
  function StoppedMessage(n: nat, pid: nat): string { FormatId(n) + " stopped (pid " + PrintNat(pid) + ")" }

  lemma {:induction false} StoppedParts(n: nat, pid: nat, digits: string)
    requires digits == Padded(n) && AllDigits(digits)
    ensures StoppedMessage(n, pid) == (FormatId(n) + " stopped ") + "(pid " + (PrintNat(pid) + ")")
    ensures Free(FormatId(n) + " stopped ", '(') && Free(StoppedMessage(n, pid), '=')
  {
    var id, s := FormatId(n), PrintNat(pid);
    assert id == ['c', 'o', 'n', 't', 'a', 'i', 'n', 'e', 'r', '-'] + digits;
    assert forall i :: 10 <= i < |id| ==> id[i] == digits[i - 10];
    assert Free(id, '(') && Free(id, '=') && Free(s, '=');
    assert Free(" stopped ", '(') && Free(" stopped (pid ", '=');
  }

  /** The pid of the line `stop` writes is recovered by its second form. */
  lemma {:induction false} StoppedPidIsExtracted(n: nat, pid: nat)
    requires pid < INT_RANGE
    ensures ExtractPid(StoppedMessage(n, pid)) == Some(pid)
  {
    PaddedValue(n);
    StoppedParts(n, pid, Padded(n));
    KeyIsAbsent(StoppedMessage(n, pid), "pid=", 3);
    ParenKey(FormatId(n) + " stopped ", pid, StoppedMessage(n, pid));
  }

  lemma {:induction false} ParenKey(before: string, pid: nat, s: string)
    requires Free(before, '(') && pid < INT_RANGE && s == before + "(pid " + (PrintNat(pid) + ")")
    ensures ExtractInt(s, "(pid ") == Some(pid)
  {
    SplitOff(before, "(pid ", PrintNat(pid) + ")");
    NumberScans(pid, ")");
    IntAfterKey(s, "(pid ", |before|, pid);
    ToIntKeeps(pid);
  }

  /** No letter n is followed by a. */
  predicate NoNa(s: string) {
    forall i :: 0 <= i < |s| ==> s[i] != 'n' || (i + 1 < |s| && s[i + 1] != 'a')
  }

  lemma {:induction false} IdHasNoNa(n: nat, digits: string)
    requires digits == Padded(n) && AllDigits(digits)
    ensures NoNa(FormatId(n) + " ")
  {
    var before := FormatId(n) + " ";
    assert before == ['c', 'o', 'n', 't', 'a', 'i', 'n', 'e', 'r', '-'] + digits + [' '];
    assert forall i :: 10 <= i < 10 + |digits| ==> before[i] == digits[i - 10];
    assert before[3] == 't' && before[7] == 'e';
  }

  lemma {:induction false} NameKeyIsFirst(before: string, key: string, tail: string)
    requires NoNa(before)
    requires |key| > 1 && key[0] == 'n' && key[1] == 'a'
    ensures Find(before + key + tail, key) == Some(|before|)
    ensures (before + key + tail)[|before| + |key|..] == tail
  {
    var s := before + key + tail;
    assert s[|before|..] == key + tail && forall i :: 0 <= i < |before| ==> s[i] == before[i];
    forall i | 0 <= i < |before| ensures !(key <= s[i..]) {
      assert s[i..][0] == s[i] && s[i..][1] == s[i + 1];
    }
    FindIs(s, key, |before|);
  }

  lemma {:induction false} CreatedMessageIs(n: nat, name: string, rest: string)
    ensures CreatedMessage(n, name, rest) == (FormatId(n) + " ") + "name=" + (name + rest)
  {
  }

  /** The table recovers a container's name from its creation line exactly if it has no blank or ')'. */
  lemma {:induction false} NameIsExtractedIff(n: nat, name: string, rest: string)
    requires name != "" && |name| < NAME_LEN && rest != [] && rest[0] == ' '
    ensures ExtractField(CreatedMessage(n, name, rest), "name=") == Some(name)
            <==> forall c <- name :: c != ' ' && c != '\r' && c != '\n' && c != ')'
  {
    CreatedMessageIs(n, name, rest);
    PaddedValue(n);
    IdHasNoNa(n, Padded(n));
    KeyedFieldIff(FormatId(n) + " ", "name=", name, rest);
  }

  lemma {:induction false} KeyedFieldIff(before: string, key: string, name: string, rest: string)
    requires NoNa(before)
    requires |key| > 1 && key[0] == 'n' && key[1] == 'a'
    requires name != "" && |name| < NAME_LEN && rest != [] && rest[0] == ' '
    ensures ExtractField(before + key + (name + rest), key) == Some(name) <==> forall c <- name :: !EndsField(c)
  {
    NameKeyIsFirst(before, key, name + rest);
    FieldOfKeyIff(before + key + (name + rest), key, |before|, name, rest);
  }

  lemma {:induction false} FieldOfKeyIff(s: string, key: string, i: nat, name: string, rest: string)
    requires name != "" && |name| < NAME_LEN && rest != [] && rest[0] == ' '
    requires Find(s, key) == Some(i) && s[i + |key|..] == name + rest
    ensures ExtractField(s, key) == Some(name) <==> forall c <- name :: !EndsField(c)
  {
    var field := s[i + |key|..];
    FieldIsWholeIff(field, name, rest);
    FieldAfterKey(s, key, i, field);
  }

  lemma {:induction false} FieldAfterKey(s: string, key: string, i: nat, field: string)
    requires Find(s, key) == Some(i) && field == s[i + |key|..] && FieldSpan(field) < NAME_LEN
    ensures ExtractField(s, key) == var k := FieldSpan(field); if k == 0 then None else Some(field[..k])
  {
  }

  lemma {:induction false} FieldIsWholeIff(field: string, name: string, rest: string)
    requires name != "" && rest != [] && rest[0] == ' ' && field == name + rest
    ensures FieldSpan(field) <= |name|
    ensures FieldSpan(field) == |name| && field[..FieldSpan(field)] == name <==> forall c <- name :: !EndsField(c)
    ensures FieldSpan(field) < |name| ==> field[..FieldSpan(field)] != name
  {
    var k := FieldSpan(field);
    assert forall i :: 0 <= i < |name| ==> field[i] == name[i];
    assert field[|name|] == ' ';
    if forall c <- name :: !EndsField(c) {
      assert k == |name| && field[..k] == name;
    } else {
      var c :| c in name && EndsField(c);
      var i :| 0 <= i < |name| && name[i] == c;
      assert k <= i;
    }
  }

  lemma {:induction false} StartedId(n: nat, pid: nat, rest: string)
    requires n < INT_RANGE
    ensures ExtractId(StartedMessage(n, pid, rest)) == FormatId(n)
  {
    assert StartedMessage(n, pid, rest) == FormatId(n) + (" pid=" + PrintNat(pid) + rest);
    IdIsExtracted(n, " pid=" + PrintNat(pid) + rest);
  }

  /** A record's own pid and status win over everything earlier. */
  lemma {:induction false} OwnFactsAreLatest(items: seq<Item>, i: nat)
    requires i < |items|
    ensures var r := items[i].record; var past := items[..i + 1];
            && (ExtractPid(r.message).Some? ==> LastPid(past, r.id) == ExtractPid(r.message))
            && (InferStatus(r) != "-" ==> LastStatus(past, r.id) == InferStatus(r))
  {
    assert items[..i + 1][i] == items[i];
  }

  lemma {:induction false} OwnFactsAreShown(items: seq<Item>, i: nat)
    requires i < |items|
    ensures var r := items[i].record; var row := Rows([], items)[i];
            && row.id == OrDash(r.id)
            && (ExtractPid(r.message).Some? ==> row.pid == PrintInt(ExtractPid(r.message).value))
            && (InferStatus(r) != "-" ==> row.status == InferStatus(r))
  {
    RowMeaning(items, i);
    OwnFactsAreLatest(items, i);
  }

  /**
    End to end: the line `start` writes shows up as a row with that id, that pid and status
    RUNNING, whatever came before it.
  */
  lemma {:induction false} StartedLineIsShown(lines: seq<string>, i: nat, id: string, timestamp: string,
                                             n: nat, pid: nat, rest: string)
    requires i < |lines| && lines[i] == FormatLogLine(timestamp, "CONTAINER_STARTED", StartedMessage(n, pid, rest))
    requires n < INT_RANGE && pid < INT_RANGE && rest != [] && rest[0] == ' '
    requires Free(timestamp, ']') && |timestamp| < TIMESTAMP_LEN && |StartedMessage(n, pid, rest)| < MESSAGE_LEN
    requires forall c <- timestamp + StartedMessage(n, pid, rest) :: c != '\r' && c != '\n'
    ensures var row := Rows([], Items(lines, id))[i];
            row.id == FormatId(n) && row.pid == PrintInt(pid) && row.status == "RUNNING"
  {
    var r := StartedRecord(timestamp, n, pid, rest);
    assert Items(lines, id)[i].record == r;
    OwnFactsAreShown(Items(lines, id), i);
  }

  lemma {:induction false} StartedRecord(timestamp: string, n: nat, pid: nat, rest: string) returns (r: LogRecord)
    requires n < INT_RANGE && pid < INT_RANGE && rest != [] && rest[0] == ' '
    requires Free(timestamp, ']') && |timestamp| < TIMESTAMP_LEN && |StartedMessage(n, pid, rest)| < MESSAGE_LEN
    requires forall c <- timestamp + StartedMessage(n, pid, rest) :: c != '\r' && c != '\n'
    ensures r == ParseLogLine(FormatLogLine(timestamp, "CONTAINER_STARTED", StartedMessage(n, pid, rest)))
    ensures r.id == FormatId(n) && r.id != "" && ExtractPid(r.message) == Some(pid) && InferStatus(r) == "RUNNING"
  {
    var message := StartedMessage(n, pid, rest);
    var event := "CONTAINER_STARTED";
    PlainText(timestamp, event, message);
    LogLineRoundTrip(timestamp, event, message);
    StartedId(n, pid, rest);
    PidIsExtracted(n, pid, rest);
    r := LogRecord(timestamp, event, message, FormatId(n));
  }

  lemma {:induction false} PlainText(a: string, b: string, c: string)
    requires b == "CONTAINER_STARTED" && forall x <- a + c :: x != '\r' && x != '\n'
    ensures Free(b, ':') && |b| < EVENT_LEN && forall x <- a + b + c :: x != '\r' && x != '\n'
  {
    forall x | x in a + b + c ensures x != '\r' && x != '\n' {
      assert x in a + c || x in b;
    }
  }

  // ---- the other lines of a container's life ---------------------------

  /** The events that say what has become of a container, and what they say. */
  function Announces(event: string): Option<string> {
    if event == "CONTAINER_CREATED" then Some("CREATED")
    else if event == "CONTAINER_STARTED" then Some("RUNNING")
    else if event == "CONTAINER_STOPPED" then Some("STOPPED")
    else if event == "RESOURCE_LIMIT_HIT" then Some("STOPPED")
    else if event == "CONTAINER_DELETED" then Some("DELETED")
    else if event == "ERROR" then Some("ERROR")
    else None
  }

  /** Capital letters and underscores only, and short enough. */
  predicate PlainEvent(s: string) {
    |s| < EVENT_LEN && forall i :: 0 <= i < |s| ==> 'A' <= s[i] <= 'Z' || s[i] == '_'
  }

  lemma {:induction false} LongEventsArePlain()
    ensures PlainEvent("CONTAINER_CREATED") && PlainEvent("CONTAINER_STARTED") && PlainEvent("CONTAINER_STOPPED")
  {
  }

  lemma {:induction false} ShortEventsArePlain()
    ensures PlainEvent("RESOURCE_LIMIT_HIT") && PlainEvent("CONTAINER_DELETED") && PlainEvent("ERROR")
  {
  }

  lemma {:induction false} EventsArePlain(event: string)
    requires Announces(event).Some?
    ensures PlainEvent(event)
  {
    LongEventsArePlain();
    ShortEventsArePlain();
  }

  lemma {:induction false} StatesAreNotEmpty(event: string)
    requires Announces(event).Some?
    ensures Announces(event).value != "-" && Announces(event).value != ""
  {
  }

  /** The status a record gives is the announced one, or SYSTEM, or none. */
  lemma {:induction false} StatusMeans(r: LogRecord)
    ensures InferStatus(r) == match Announces(r.event)
                              case Some(state) => state
                              case None => if r.id == "" then "SYSTEM" else "-"
  {
  }

  lemma {:induction false} RowStatus(items: seq<Item>, i: nat)
    requires i < |items|
    ensures var r := items[i].record;
            var last := LastStatus(items[..i + 1], r.id);
            Rows([], items)[i].status == if r.id == "" || last == "" then InferStatus(r) else last
    ensures Rows([], items)[i].id == OrDash(items[i].record.id) && Rows([], items)[i].event == OrDash(items[i].record.event)
  {
    RowMeaning(items, i);
  }

  lemma {:induction false} LastStatusStep(items: seq<Item>, i: nat)
    requires i < |items|
    ensures var r := items[i].record;
            LastStatus(items[..i + 1], r.id) == if InferStatus(r) != "-" then InferStatus(r) else LastStatus(items[..i], r.id)
  {
    assert items[..i + 1][..i] == items[..i];
  }

  /** The record of a line about container `n`. */
  lemma {:induction false} LineAbout(timestamp: string, event: string, n: nat, rest: string)
    requires n < INT_RANGE && rest != [] && rest[0] == ' ' && |FormatId(n) + rest| < MESSAGE_LEN
    requires Free(timestamp, ']') && |timestamp| < TIMESTAMP_LEN && Free(event, ':') && |event| < EVENT_LEN
    requires forall c <- timestamp + event + (FormatId(n) + rest) :: c != '\r' && c != '\n'
    ensures ParseLogLine(FormatLogLine(timestamp, event, FormatId(n) + rest))
            == LogRecord(timestamp, event, FormatId(n) + rest, FormatId(n))
    ensures FormatId(n) != ""
  {
    LogLineRoundTrip(timestamp, event, FormatId(n) + rest);
    IdIsExtracted(n, rest);
    IdIsClean(n);
  }

  /**
    Every line that announces a state shows it: whatever came before, a row for container `n` made
    from a line with one of those events has that container's id, that event and that state.
  */
  lemma {:induction false} AnnouncedStateIsShown(lines: seq<string>, i: nat, id: string, timestamp: string, event: string,
                                                n: nat, rest: string)
    requires i < |lines| && lines[i] == FormatLogLine(timestamp, event, FormatId(n) + rest) && Announces(event).Some?
    requires n < INT_RANGE && rest != [] && rest[0] == ' ' && |FormatId(n) + rest| < MESSAGE_LEN
    requires Free(timestamp, ']') && |timestamp| < TIMESTAMP_LEN
    requires forall c <- timestamp + (FormatId(n) + rest) :: c != '\r' && c != '\n'
    ensures var row := Rows([], Items(lines, id))[i];
            row.id == FormatId(n) && row.event == event && row.status == Announces(event).value
  {
    EventsArePlain(event);
    assert forall c <- event :: c != '\r' && c != '\n';
    forall c | c in timestamp + event + (FormatId(n) + rest) ensures c != '\r' && c != '\n' {
      assert c in timestamp + (FormatId(n) + rest) || c in event;
    }
    LineAbout(timestamp, event, n, rest);
    StatusOfRecord(Items(lines, id), i, LogRecord(timestamp, event, FormatId(n) + rest, FormatId(n)));
  }

  lemma {:induction false} StatusOfRecord(items: seq<Item>, i: nat, r: LogRecord)
    requires i < |items| && items[i].record == r && r.id != "" && Announces(r.event).Some? && r.event != ""
    ensures var row := Rows([], items)[i];
            row.id == r.id && row.event == r.event && row.status == Announces(r.event).value
  {
    StatesAreNotEmpty(r.event);
    StatusMeans(r);
    RowStatus(items, i);
    LastStatusStep(items, i);
  }

  /** Any other event leaves a container in the state announced last, or in none. */
  lemma {:induction false} OtherEventsKeepStatus(items: seq<Item>, i: nat)
    requires i < |items| && items[i].record.id != "" && Announces(items[i].record.event).None?
    ensures var last := LastStatus(items[..i], items[i].record.id);
            Rows([], items)[i].status == if last != "" then last else "-"
  {
    StatusMeans(items[i].record);
    RowStatus(items, i);
    LastStatusStep(items, i);
  }

  /** A line about no container shows the event's own state, or SYSTEM. */
  lemma {:induction false} SystemLines(items: seq<Item>, i: nat)
    requires i < |items| && items[i].record.id == ""
    ensures Rows([], items)[i].status ==
            match Announces(items[i].record.event) case Some(state) => state case None => "SYSTEM"
  {
    StatusMeans(items[i].record);
    RowStatus(items, i);
  }
}
