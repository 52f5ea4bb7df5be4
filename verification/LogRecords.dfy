/**
  One line of `container.log`: how `log_event_type` writes it, how `parse_log_line` takes it
  apart, and how a row of the table is made from it and from the catalog of what earlier lines
  said about the same container (src/logger.c:255-592).
*/
module LogRecords {
  import opened Text

  const TIMESTAMP_LEN: nat := 32
  const EVENT_LEN: nat := 64
  const MESSAGE_LEN: nat := 768
  const ID_LEN: nat := 64
  const NAME_LEN: nat := 64

  datatype LogRecord = LogRecord(timestamp: string, event: string, message: string, id: string)

  /** `LogCatalogEntry`. */
  datatype Entry = Entry(id: string, name: string, pid: Option<int>, status: string)
  type Catalog = seq<Entry>

  /** The cells of one table row. */
  datatype Row = Row(time: string, event: string, id: string, name: string, pid: string,
                     status: string, details: string)

  // ---- extraction ------------------------------------------------------

  const ID_PREFIX := "container-"

  /** `extract_container_id`: the first prefix that is followed by a digit, with its digits. */
  function ExtractId(text: string): string
    decreases |text|
  {
    match Find(text, ID_PREFIX)
    case None => ""
    case Some(i) =>
      var rest := text[i + |ID_PREFIX|..];
      var ds := LeadingDigits(rest);
      if ds == [] then ExtractId(rest) else Copy(ID_PREFIX + ds, ID_LEN)
  }

  predicate EndsField(c: char) { c == ' ' || c == '\r' || c == '\n' || c == ')' }

  function FieldSpan(s: string): (n: nat)
    ensures n <= |s|
    ensures forall i :: 0 <= i < n ==> !EndsField(s[i])
    ensures n < |s| ==> EndsField(s[n])
  {
    if s == [] || EndsField(s[0]) then 0 else 1 + FieldSpan(s[1..])
  }

  /** `extract_field_text`. */
  function ExtractField(text: string, key: string): Option<string> {
    match Find(text, key)
    case None => None
    case Some(i) =>
      var rest := text[i + |key|..];
      var n := FieldSpan(rest);
      if n == 0 then None else Some(Copy(rest[..n], NAME_LEN))
  }

  function SkipBlanks(s: string): string { if s != [] && s[0] == ' ' then SkipBlanks(s[1..]) else s }

  /** `extract_int_after_key`. */
  function ExtractInt(text: string, key: string): Option<int> {
    match Find(text, key)
    case None => None
    case Some(i) =>
      var rest := SkipBlanks(text[i + |key|..]);
      if rest == [] || (rest[0] != '-' && !IsDigit(rest[0])) then None
      else
        match ScanNumber(rest)
        case None => None
        case Some(n) => Some(ToInt(Signed(n)))
  }

  function ExtractPid(message: string): Option<int> {
    var first := ExtractInt(message, "pid=");
    if first.Some? then first else ExtractInt(message, "(pid ")
  }

  // ---- parsing ---------------------------------------------------------

  const TIME_END := "] "
  const EVENT_END := ": "

  /** `parse_log_line`, of a line as `fgets` delivers it. */
  function ParseLogLine(line: string): LogRecord { ParseBuffer(TrimNewline(Copy(line, 1024))) }

  function ParseBuffer(buffer: string): LogRecord {
    if buffer == [] || buffer[0] != '[' then PlainRecord(buffer)
    else
      match Find(buffer, TIME_END)
      case None => PlainRecord(buffer)
      case Some(close) =>
        ParseRest(if close == 0 then "" else Copy(buffer[1..close], TIMESTAMP_LEN), buffer[close + 2..])
  }

  /** A line that does not start with a time is all message. */
  function PlainRecord(buffer: string): LogRecord {
    var whole := Copy(buffer, MESSAGE_LEN);
    LogRecord("-", "LOG", whole, ExtractId(whole))
  }

  /** What comes behind the time: an event and perhaps a message. */
  function ParseRest(timestamp: string, rest: string): LogRecord {
    match Find(rest, EVENT_END)
    case None => LogRecord(timestamp, Copy(rest, EVENT_LEN), "", "")
    case Some(sep) =>
      var message := Copy(rest[sep + 2..], MESSAGE_LEN);
      LogRecord(timestamp, Copy(rest[..sep], EVENT_LEN), message, ExtractId(message))
  }

  /** `log_event_type_va`. */
  function FormatLogLine(timestamp: string, event: string, message: string): string {
    "[" + timestamp + "] " + event + ": " + message + "\n"
  }

  /** `[time] EVENT: message`, on a line of its own. */
  lemma {:induction false} LogLineShape(timestamp: string, event: string, message: string)
    ensures FormatLogLine(timestamp, event, message)
            == ['['] + timestamp + [']', ' '] + event + [':', ' '] + message + ['\n']
  {
  }

  lemma {:induction false} FindAfter(a: string, key: string, b: string)
    requires key != [] && Free(a, key[0])
    ensures Find(a + key + b, key) == Some(|a|)
  {
    var s := a + key + b;
    assert s[|a|..] == key + b;
    forall i | 0 <= i < |a| ensures !(key <= s[i..]) {
      assert s[i..][0] == a[i];
    }
    FindIs(s, key, |a|);
  }

  /** Reading a line back gives the time, event and message it was written with. */
  lemma {:induction false} LogLineRoundTrip(timestamp: string, event: string, message: string)
    requires Free(timestamp, ']') && |timestamp| < TIMESTAMP_LEN
    requires Free(event, ':') && |event| < EVENT_LEN
    requires |message| < MESSAGE_LEN
    requires forall c <- timestamp + event + message :: c != '\r' && c != '\n'
    ensures ParseLogLine(FormatLogLine(timestamp, event, message))
            == LogRecord(timestamp, event, message, ExtractId(message))
  {
    BodyIsTrimmedLine(timestamp, event, message);
    BodySplits(timestamp, event, message);
    var body := "[" + timestamp + "] " + event + ": " + message;
    var line := FormatLogLine(timestamp, event, message);
    assert |line| < 1024;
    assert ParseLogLine(line) == ParseBuffer(body);
    HeadSplit(body, 1 + |timestamp|);
    RestSplit(timestamp, event + ": " + message, |event|);
  }

  lemma {:induction false} HeadSplit(buffer: string, close: nat)
    requires buffer != [] && buffer[0] == '[' && 1 <= close && Find(buffer, TIME_END) == Some(close)
    ensures ParseBuffer(buffer) == ParseRest(Copy(buffer[1..close], TIMESTAMP_LEN), buffer[close + 2..])
  {
  }

  lemma {:induction false} RestSplit(timestamp: string, rest: string, sep: nat)
    requires Find(rest, EVENT_END) == Some(sep)
    ensures var message := Copy(rest[sep + 2..], MESSAGE_LEN);
            ParseRest(timestamp, rest) == LogRecord(timestamp, Copy(rest[..sep], EVENT_LEN), message, ExtractId(message))
  {
  }

  lemma {:induction false} BodyIsTrimmedLine(timestamp: string, event: string, message: string)
    requires forall c <- timestamp + event + message :: c != '\r' && c != '\n'
    ensures var body := "[" + timestamp + "] " + event + ": " + message;
            TrimNewline(FormatLogLine(timestamp, event, message)) == body
  {
    var body := "[" + timestamp + "] " + event + ": " + message;
    forall i | 0 <= i < |body| ensures body[i] != '\r' && body[i] != '\n' {
      assert body[i] in ['[', ']', ' ', ':'] || body[i] in timestamp + event + message;
    }
    TrimCuts(body, "\n");
    assert FormatLogLine(timestamp, event, message) == body + "\n";
  }

  lemma {:induction false} BodySplits(timestamp: string, event: string, message: string)
    requires Free(timestamp, ']') && Free(event, ':')
    ensures var body := "[" + timestamp + "] " + event + ": " + message;
            var rest := event + ": " + message;
            && body[0] == '[' && Find(body, TIME_END) == Some(1 + |timestamp|)
            && body[1..1 + |timestamp|] == timestamp && body[3 + |timestamp|..] == rest
            && Find(rest, EVENT_END) == Some(|event|)
            && rest[..|event|] == event && rest[|event| + 2..] == message
  {
    var body := "[" + timestamp + "] " + event + ": " + message;
    var open, rest := "[" + timestamp, event + ": " + message;
    assert body == open + TIME_END + rest && rest == event + EVENT_END + message;
    assert Free(open, ']') && open[1..] == timestamp;
    SplitOff(open, TIME_END, rest);
    SplitOff(event, EVENT_END, message);
    assert body[1..1 + |timestamp|] == body[..|open|][1..];
  }

  lemma {:induction false} SplitOff(a: string, key: string, b: string)
    requires key != [] && Free(a, key[0])
    ensures Find(a + key + b, key) == Some(|a|)
    ensures (a + key + b)[..|a|] == a && (a + key + b)[|a| + |key|..] == b
  {
    FindAfter(a, key, b);
  }

  /** A line without a time is all message, under the event LOG. */
  lemma {:induction false} UnstampedLine(line: string)
    requires |line| < MESSAGE_LEN && Free(line, '\r') && Free(line, '\n') && (line == [] || line[0] != '[')
    ensures ParseLogLine(line + ['\n']) == LogRecord("-", "LOG", line, ExtractId(line))
  {
    TrimCuts(line, ['\n']);
  }

  // ---- catalog and rows ------------------------------------------------

  /** `infer_record_status`. */
  function InferStatus(r: LogRecord): string {
    if r.event == "CONTAINER_CREATED" then "CREATED"
    else if r.event == "CONTAINER_STARTED" then "RUNNING"
    else if r.event == "CONTAINER_STOPPED" || r.event == "RESOURCE_LIMIT_HIT" then "STOPPED"
    else if r.event == "CONTAINER_DELETED" then "DELETED"
    else if r.event == "ERROR" then "ERROR"
    else if r.id == "" then "SYSTEM"
    else "-"
  }

  function Lookup(cat: Catalog, id: string): (i: Option<nat>)
    ensures i.Some? ==> i.value < |cat| && cat[i.value].id == id
    ensures i.None? ==> forall e <- cat :: e.id != id
  {
    if cat == [] then None
    else if cat[0].id == id then Some(0)
    else
      match Lookup(cat[1..], id)
      case None => None
      case Some(i) => Some(i + 1)
  }

  function UpdateEntry(e: Entry, r: LogRecord): Entry {
    var name := ExtractField(r.message, "name=");
    var pid := ExtractPid(r.message);
    var status := InferStatus(r);
    Entry(e.id,
          if name.Some? then name.value else e.name,
          if pid.Some? then pid else e.pid,
          if status != "-" then status else e.status)
  }

  /** `logger_catalog_update`. */
  function UpdateCatalog(cat: Catalog, r: LogRecord): Catalog {
    if r.id == "" then cat
    else
      match Lookup(cat, r.id)
      case None => cat + [UpdateEntry(Entry(r.id, "", None, ""), r)]
      case Some(i) => cat[i := UpdateEntry(cat[i], r)]
  }

  function OrDash(s: string): (r: string)
    ensures (s != "" ==> r == s) && (s == "" ==> r == "-")
  {
    if s != "" then s else "-"
  }

  /** `logger_render_record`, up to the widths of the columns. */
  function RenderRecord(r: LogRecord, cat: Catalog): Row {
    var found := if r.id != "" then Lookup(cat, r.id) else None;
    var name := if found.Some? then cat[found.value].name else "";
    var known := if found.Some? then cat[found.value].pid else None;
    var pid := if known.Some? then known else ExtractPid(r.message);
    var status := if found.Some? && cat[found.value].status != "" then cat[found.value].status else InferStatus(r);
    Row(OrDash(r.timestamp), OrDash(r.event), OrDash(r.id), OrDash(name),
        if pid.Some? then PrintInt(pid.value) else "-", status, OrDash(r.message))
  }

  /** `line_matches_container`. */
  predicate Matches(line: string, id: string) { id == "" || Find(line, id).Some? }

  /** A line passes the filter exactly if the id occurs in it. */
  lemma {:induction false} MatchesIff(line: string, id: string)
    ensures Matches(line, id) <==> exists i :: 0 <= i <= |line| && id <= line[i..]
  {
    if id == "" {
      assert id <= line[0..];
    } else if Find(line, id).Some? {
      Found(line, id);
    } else {
      forall i | 0 <= i <= |line| ensures !(id <= line[i..]) { NotFound(line, id, i); }
    }
  }
}
