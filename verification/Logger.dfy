/**
  The log reader over whole files: batch, tail, filter and follow (src/logger.c:594-917).
  Everything is defined record by record from the left, as the loops go.
*/
module Logger {
  import opened Sequences
  import opened Text
  import opened LogRecords

  /** A parsed record together with whether its line passes the filter. */
  datatype Item = Item(record: LogRecord, selected: bool)

  function ItemOf(line: string, id: string): Item { Item(ParseLogLine(line), Matches(line, id)) }

  function Items(lines: seq<string>, id: string): (items: seq<Item>)
    ensures |items| == |lines| && forall i :: 0 <= i < |lines| ==> items[i] == ItemOf(lines[i], id)
  {
    if lines == [] then [] else [ItemOf(lines[0], id)] + Items(lines[1..], id)
  }

  /** The catalog after a run of records: it takes in every record, selected or not. */
  function Fold(cat: Catalog, items: seq<Item>): Catalog {
    if items == [] then cat
    else UpdateCatalog(Fold(cat, items[..|items| - 1]), items[|items| - 1].record)
  }

  /** One row per record, each rendered with the catalog as of that record. */
  function Rows(cat: Catalog, items: seq<Item>): (rows: seq<Row>)
    ensures |rows| == |items|
  {
    if items == [] then []
    else Rows(cat, items[..|items| - 1]) + [RenderRecord(items[|items| - 1].record, Fold(cat, items))]
  }

  /** The rows of the selected records only, as a stream. */
  function Stream(cat: Catalog, items: seq<Item>): seq<Row> {
    if items == [] then []
    else
      Stream(cat, items[..|items| - 1])
      + (if items[|items| - 1].selected then [RenderRecord(items[|items| - 1].record, Fold(cat, items))] else [])
  }

  /** Indexes of the selected records. */
  function SelectedIndexes(items: seq<Item>): (ix: seq<nat>)
    ensures forall k :: 0 <= k < |ix| ==> ix[k] < |items| && items[ix[k]].selected
    ensures forall j, k :: 0 <= j < k < |ix| ==> ix[j] < ix[k]
  {
    if items == [] then []
    else
      SelectedIndexes(items[..|items| - 1]) + (if items[|items| - 1].selected then [|items| - 1] else [])
  }

  /** The last `n`, or all if there are no more than that or `n` is not positive. */
  function LastN<T>(s: seq<T>, n: int): (r: seq<T>)
    ensures 0 < n < |s| ==> |r| == n && r == s[|s| - n..]
    ensures n <= 0 || |s| <= n ==> r == s
  {
    if 0 < n < |s| then s[|s| - n..] else s
  }

  /** `logger_build_selection`. */
  function Selection(items: seq<Item>, tail: int): seq<nat> { LastN(SelectedIndexes(items), tail) }

  function PickRows(rows: seq<Row>, ix: seq<nat>): (out: seq<Row>)
    requires forall k :: 0 <= k < |ix| ==> ix[k] < |rows|
    ensures |out| == |ix| && forall k :: 0 <= k < |ix| ==> out[k] == rows[ix[k]]
  {
    seq(|ix|, k requires 0 <= k < |ix| => rows[ix[k]])
  }

  function FileItems(text: string, id: string): seq<Item> { Items(Lines(text), id) }

  /** What `logs [-n tail] [id]` prints for a file. */
  function History(text: string, id: string, tail: int): seq<Row> {
    var items := FileItems(text, id);
    PickRows(Rows([], items), Selection(items, tail))
  }

  function FinalCatalog(text: string): Catalog { Fold([], FileItems(text, "")) }

  // ---- views of the full rendering -------------------------------------

  lemma {:induction false} PickSuffix(rows: seq<Row>, ix: seq<nat>, d: nat)
    requires d <= |ix| && forall i :: 0 <= i < |ix| ==> ix[i] < |rows|
    ensures PickRows(rows, ix[d..]) == PickRows(rows, ix)[d..]
  {
  }

  lemma {:induction false} PickLast(rows: seq<Row>, ix: seq<nat>, n: int)
    requires forall i :: 0 <= i < |ix| ==> ix[i] < |rows|
    ensures PickRows(rows, LastN(ix, n)) == LastN(PickRows(rows, ix), n)
  {
    if 0 < n < |ix| { PickSuffix(rows, ix, |ix| - n); }
  }

  lemma {:induction false} HistoryLast(text: string, id: string, n: int)
    ensures History(text, id, n) == LastN(History(text, id, 0), n)
  {
    var items := FileItems(text, id);
    PickLast(Rows([], items), SelectedIndexes(items), n);
  }

  /** `logs -n N id` is the last min(N, m) rows of `logs id`. */
  lemma {:induction false} TailIsSuffix(text: string, id: string, n: int)
    requires 0 < n
    ensures var all := History(text, id, 0);
            History(text, id, n) == if n < |all| then all[|all| - n..] else all
  {
    HistoryLast(text, id, n);
  }

  /** The filter does not reach the records, the catalog or the cells. */
  lemma {:induction false} FilterOnlySelects(lines: seq<string>, id: string, id': string)
    ensures Fold([], Items(lines, id)) == Fold([], Items(lines, id'))
    ensures Rows([], Items(lines, id)) == Rows([], Items(lines, id'))
  {
    if lines != [] {
      var last := |lines| - 1;
      assert Items(lines, id)[..last] == Items(lines[..last], id);
      assert Items(lines, id')[..last] == Items(lines[..last], id');
      FilterOnlySelects(lines[..last], id, id');
    }
  }

  lemma {:induction false} NoFilterSelectsAll(lines: seq<string>)
    ensures SelectedIndexes(Items(lines, "")) == Counting(|lines|)
  {
    if lines != [] {
      var last := |lines| - 1;
      var items := Items(lines, "");
      assert items[..last] == Items(lines[..last], "");
      NoFilterSelectsAll(lines[..last]);
      assert items[last].selected;
      OneMore(last);
    }
  }

  function Counting(n: nat): (ix: seq<nat>)
    ensures |ix| == n && forall k :: 0 <= k < n ==> ix[k] == k
  {
    seq(n, (i: nat) => i)
  }

  lemma {:induction false} OneMore(n: nat)
    ensures Counting(n) + [n] == Counting(n + 1)
  {
  }

  /** The rows of `logs id` are the rows of plain `logs` at the matching lines, cell for cell. */
  lemma {:induction false} FilterIsView(text: string, id: string)
    ensures var lines := Lines(text);
            var ix := SelectedIndexes(Items(lines, id));
            && |History(text, "", 0)| == |lines|
            && History(text, id, 0) == PickRows(History(text, "", 0), ix)
            && forall i :: 0 <= i < |lines| ==> (i in ix <==> Matches(lines[i], id))
  {
    var lines := Lines(text);
    FilterOnlySelects(lines, id, "");
    NoFilterSelectsAll(lines);
    PickAll(Rows([], Items(lines, "")));
    SelectedComplete(Items(lines, id));
  }

  lemma {:induction false} PickAll(rows: seq<Row>)
    ensures PickRows(rows, Counting(|rows|)) == rows
  {
  }

  lemma {:induction false} SelectedComplete(items: seq<Item>)
    ensures forall i :: 0 <= i < |items| ==> (i in SelectedIndexes(items) <==> items[i].selected)
  {
    if items != [] {
      var last := |items| - 1;
      SelectedComplete(items[..last]);
    }
  }

  /** A selection is the matching records, of which a tail keeps the last ones. */
  lemma {:induction false} SelectionMeans(items: seq<Item>, tail: int)
    ensures var ix := Selection(items, tail);
            && (forall k :: 0 <= k < |ix| ==> ix[k] < |items| && items[ix[k]].selected)
            && (forall j, k :: 0 <= j < k < |ix| ==> ix[j] < ix[k])
            && (0 < tail ==> |ix| <= tail)
            && (forall i :: 0 <= i < |items| && items[i].selected ==>
                  i in ix || (0 < tail == |ix| && forall k :: 0 <= k < |ix| ==> i < ix[k]))
  {
    SelectedComplete(items);
    LastAreLargest(SelectedIndexes(items), tail);
  }

  lemma {:induction false} LastAreLargest(all: seq<nat>, tail: int)
    requires forall j, k :: 0 <= j < k < |all| ==> all[j] < all[k]
    ensures var ix := LastN(all, tail);
            && (forall x <- ix :: x in all)
            && (forall j, k :: 0 <= j < k < |ix| ==> ix[j] < ix[k])
            && (forall x <- all :: x in ix || (0 < tail == |ix| && forall k :: 0 <= k < |ix| ==> x < ix[k]))
  {
    var ix, d := LastN(all, tail), |all| - |LastN(all, tail)|;
    assert ix == all[d..];
    forall m | 0 <= m < |all| ensures all[m] in ix || (0 < tail == |ix| && forall k :: 0 <= k < |ix| ==> all[m] < ix[k]) {
      if d <= m { assert ix[m - d] == all[m]; }
    }
  }

  // ---- streaming -------------------------------------------------------

  lemma {:induction false} StreamIsPick(cat: Catalog, items: seq<Item>)
    ensures Stream(cat, items) == PickRows(Rows(cat, items), SelectedIndexes(items))
  {
    if items != [] {
      var last := |items| - 1;
      StreamIsPick(cat, items[..last]);
      var ix := SelectedIndexes(items[..last]);
      assert PickRows(Rows(cat, items), ix) == PickRows(Rows(cat, items[..last]), ix);
      if items[last].selected {
        assert PickRows(Rows(cat, items), ix + [last]) == PickRows(Rows(cat, items), ix) + [Rows(cat, items)[last]];
      }
    }
  }

  lemma {:induction false} HistoryIsStream(text: string, id: string)
    ensures History(text, id, 0) == Stream([], FileItems(text, id))
  {
    StreamIsPick([], FileItems(text, id));
  }

  lemma {:induction false} StreamConcat(cat: Catalog, a: seq<Item>, b: seq<Item>)
    ensures Fold(cat, a + b) == Fold(Fold(cat, a), b)
    ensures Stream(cat, a + b) == Stream(cat, a) + Stream(Fold(cat, a), b)
  {
    if b == [] {
      assert a + b == a;
    } else {
      var last := |b| - 1;
      assert (a + b)[..|a + b| - 1] == a + b[..last];
      StreamConcat(cat, a, b[..last]);
    }
  }

  // ---- lines of a growing file -----------------------------------------

  predicate FinishedLine(l: string) { |l| == LINE_CAP || (l != [] && l[|l| - 1] == '\n') }

  /** Nothing is pending: the text is empty or its last fgets chunk is complete. */
  predicate Finished(s: string)
    decreases |s|
  {
    s == [] || var n := LineLength(s, LINE_CAP); if n == |s| then FinishedLine(s) else Finished(s[n..])
  }

  lemma {:induction false} FirstLineStays(a: string, b: string)
    requires a != [] && (LineLength(a, LINE_CAP) < |a| || FinishedLine(a))
    ensures var n := LineLength(a, LINE_CAP);
            && LineLength(a + b, LINE_CAP) == n
            && Lines(a + b) == [a[..n]] + Lines(a[n..] + b)
  {
    var n := LineLength(a, LINE_CAP);
    assert forall i :: 0 <= i < n ==> (a + b)[i] == a[i];
    LineLengthIs(a + b, LINE_CAP, n);
    assert (a + b)[..n] == a[..n] && (a + b)[n..] == a[n..] + b;
  }

  lemma {:induction false} LinesOfFinished(a: string, b: string)
    requires Finished(a)
    ensures Lines(a + b) == Lines(a) + Lines(b)
    decreases |a|
  {
    if a == [] {
      assert a + b == b;
    } else {
      var n := LineLength(a, LINE_CAP);
      FirstLineStays(a, b);
      if n == |a| { assert a[n..] + b == b && Lines(a) == [a[..n]]; } else { LinesOfFinished(a[n..], b); }
    }
  }

  lemma {:induction false} FirstLineGrows(a: string, b: string)
    requires a != [] && b != [] && LineLength(a, LINE_CAP) == |a| && !FinishedLine(a)
    ensures |a| < |Lines(a + b)[0]|
  {
    var n := LineLength(a + b, LINE_CAP);
    assert forall i :: 0 <= i < |a| ==> (a + b)[i] == a[i];
    assert Lines(a + b)[0] == (a + b)[..n];
  }

  lemma {:induction false} LinesOfUnfinished(a: string, b: string)
    requires !Finished(a) && b != []
    ensures Lines(a + b) != Lines(a) + Lines(b)
    decreases |a|
  {
    var n := LineLength(a, LINE_CAP);
    if n == |a| {
      FirstLineGrows(a, b);
      assert a[..n] == a && Lines(a) == [a];
      assert (Lines(a) + Lines(b))[0] == a;
    } else {
      FirstLineStays(a, b);
      LinesOfUnfinished(a[n..], b);
      assert Lines(a) == [a[..n]] + Lines(a[n..]);
      StillDifferent(a[..n], Lines(a[n..] + b), Lines(a[n..]), Lines(b));
    }
  }

  lemma {:induction false} StillDifferent(first: string, whole: seq<string>, x: seq<string>, y: seq<string>)
    requires whole != x + y
    ensures [first] + whole != ([first] + x) + y
  {
    assert ([first] + whole)[1..] == whole && (([first] + x) + y)[1..] == x + y;
  }

  /** Reading in two goes gives the same chunks as reading at once exactly when nothing was pending. */
  lemma {:induction false} LinesConcatIff(a: string, b: string)
    requires b != []
    ensures Lines(a + b) == Lines(a) + Lines(b) <==> Finished(a)
  {
    if Finished(a) { LinesOfFinished(a, b); } else { LinesOfUnfinished(a, b); }
  }

  predicate WholeLines(s: string) { s == [] || s[|s| - 1] == '\n' }

  lemma {:induction false} WholeLinesAreFinished(s: string)
    requires WholeLines(s)
    ensures Finished(s)
    decreases |s|
  {
    if s != [] && LineLength(s, LINE_CAP) < |s| {
      WholeLinesAreFinished(s[LineLength(s, LINE_CAP)..]);
    }
  }

  /** Whole lines appended to whole lines: the records are those of the parts. */
  lemma {:induction false} FileItemsConcat(a: string, b: string, id: string)
    requires WholeLines(a)
    ensures FileItems(a + b, id) == FileItems(a, id) + FileItems(b, id)
  {
    WholeLinesAreFinished(a);
    LinesOfFinished(a, b);
  }

  // ---- follow ----------------------------------------------------------

  /** The state of `logger_follow` between polls. */
  datatype Follow = Follow(rows: seq<Row>, catalog: Catalog, offset: nat)

  /** The initial pass reads `seen`; the position is taken from the end of the file afterwards. */
  function Begin(seen: string, id: string, tail: int, end: nat): Follow {
    Follow(History(seen, id, tail), Fold([], FileItems(seen, id)), end)
  }

  /** One round of the loop at a moment when the file holds `text`. */
  function PollOnce(f: Follow, text: string, id: string): Follow {
    var offset := if |text| < f.offset then 0 else f.offset;
    if |text| <= offset then f.(offset := offset)
    else
      var items := FileItems(text[offset..], id);
      Follow(f.rows + Stream(f.catalog, items), Fold(f.catalog, items), |text|)
  }

  function PollMany(f: Follow, texts: seq<string>, id: string): Follow {
    if texts == [] then f else PollOnce(PollMany(f, texts[..|texts| - 1], id), texts[|texts| - 1], id)
  }

  /** An append-only file whose every observed state holds whole lines. */
  ghost predicate Growing(base: string, texts: seq<string>) {
    && (forall i :: 0 <= i < |texts| ==> base <= texts[i] && WholeLines(texts[i][|base|..]))
    && (forall i, j :: 0 <= i < j < |texts| ==> texts[i] <= texts[j])
  }

  function LastOf(base: string, texts: seq<string>): string { if texts == [] then base else texts[|texts| - 1] }

  /** What a poll adds when the file has grown from base+g to base+g+d. */
  lemma {:induction false} OnePoll(f: Follow, seen: string, base: string, g: string, d: string, id: string)
    requires WholeLines(seen) && WholeLines(g)
    requires f.offset == |base + g| && f.catalog == Fold([], FileItems(seen + g, id))
    ensures var f' := PollOnce(f, base + g + d, id);
            && f'.offset == |base + g + d|
            && f'.catalog == Fold([], FileItems(seen + (g + d), id))
            && f'.rows == f.rows + Stream(f.catalog, FileItems(d, id))
  {
    assert (base + g + d)[|base + g|..] == d;
    FileItemsConcat(seen, g, id);
    FileItemsConcat(seen, g + d, id);
    FileItemsConcat(g, d, id);
    var known, more, fresh' := FileItems(seen, id), FileItems(g, id), FileItems(d, id);
    StreamConcat([], known, more);
    StreamConcat([], known, more + fresh');
    StreamConcat(Fold([], known), more, fresh');
    if d == [] { assert fresh' == []; }
  }

  lemma {:induction false} GrowthStep(base: string, texts: seq<string>) returns (g: string, d: string)
    requires texts != [] && Growing(base, texts)
    ensures var before := texts[..|texts| - 1];
            && Growing(base, before) && LastOf(base, before) == base + g && WholeLines(g)
            && LastOf(base, before)[|base|..] == g
            && texts[|texts| - 1] == base + g + d && texts[|texts| - 1][|base|..] == g + d
  {
    var last := |texts| - 1;
    var prev := LastOf(base, texts[..last]);
    assert prev <= texts[last];
    g, d := prev[|base|..], texts[last][|prev|..];
  }

  lemma {:induction false} StreamGrows(seen: string, g: string, d: string, id: string)
    requires WholeLines(seen) && WholeLines(g)
    ensures var cat := Fold([], FileItems(seen, id));
            Stream(cat, FileItems(g + d, id))
            == Stream(cat, FileItems(g, id)) + Stream(Fold([], FileItems(seen + g, id)), FileItems(d, id))
  {
    FileItemsConcat(seen, g, id);
    FileItemsConcat(g, d, id);
    StreamConcat([], FileItems(seen, id), FileItems(g, id));
    StreamConcat(Fold([], FileItems(seen, id)), FileItems(g, id), FileItems(d, id));
  }

  /** Where following stands once the file has grown by `grown`. */
  ghost predicate Caught(f: Follow, start: Follow, seen: string, grown: string, id: string) {
    && f.offset == start.offset + |grown|
    && f.catalog == Fold([], FileItems(seen + grown, id))
    && f.rows == start.rows + Stream(Fold([], FileItems(seen, id)), FileItems(grown, id))
  }

  lemma {:induction false} CaughtAtStart(start: Follow, seen: string, id: string)
    requires start.catalog == Fold([], FileItems(seen, id))
    ensures Caught(start, start, seen, [], id)
  {
    assert seen + [] == seen && FileItems([], id) == [];
  }

  lemma {:induction false} CaughtAfterPoll(f: Follow, start: Follow, seen: string, base: string, g: string, d: string, id: string)
    requires WholeLines(seen) && WholeLines(g) && start.offset == |base| && Caught(f, start, seen, g, id)
    ensures Caught(PollOnce(f, base + g + d, id), start, seen, g + d, id)
  {
    OnePoll(f, seen, base, g, d, id);
    StreamGrows(seen, g, d, id);
    Regroup(start.rows, Stream(Fold([], FileItems(seen, id)), FileItems(g, id)), Stream(f.catalog, FileItems(d, id)));
  }

  lemma {:induction false} PollingFollows(start: Follow, seen: string, base: string, texts: seq<string>, id: string)
    requires WholeLines(seen) && Growing(base, texts)
    requires start.offset == |base| && start.catalog == Fold([], FileItems(seen, id))
    ensures Caught(PollMany(start, texts, id), start, seen, LastOf(base, texts)[|base|..], id)
    decreases |texts|
  {
    if texts == [] {
      CaughtAtStart(start, seen, id);
    } else {
      var before := texts[..|texts| - 1];
      var g, d := GrowthStep(base, texts);
      PollingFollows(start, seen, base, before, id);
      CaughtAfterPoll(PollMany(start, before, id), start, seen, base, g, d, id);
    }
  }

  /**
    Follow agrees with batch.  While the log only grows, by whole lines, `logs -f id` shows the
    initial tail and then exactly the rows that one pass over the final file shows after its
    initial part, whatever the polling points; its catalog is that of the final file.
  */
  lemma {:induction false} FollowAgreesWithBatch(first: string, texts: seq<string>, id: string, tail: int)
    requires WholeLines(first) && Growing(first, texts)
    ensures var f := PollMany(Begin(first, id, tail, |first|), texts, id);
            var final := LastOf(first, texts);
            && History(first, id, 0) <= History(final, id, 0)
            && f.rows == History(first, id, tail) + History(final, id, 0)[|History(first, id, 0)|..]
            && f.catalog == FinalCatalog(final)
            && (tail <= 0 ==> f.rows == History(final, id, 0))
  {
    var start := Begin(first, id, tail, |first|);
    PollingFollows(start, first, first, texts, id);
    var final := LastOf(first, texts);
    var grown := final[|first|..];
    assert final == first + grown;
    CaughtIsBatch(PollMany(start, texts, id), start, first, grown, id, tail);
  }

  lemma {:induction false} CaughtIsBatch(f: Follow, start: Follow, first: string, grown: string, id: string, tail: int)
    requires WholeLines(first) && Caught(f, start, first, grown, id) && start.rows == History(first, id, tail)
    ensures History(first, id, 0) <= History(first + grown, id, 0)
    ensures f.rows == History(first, id, tail) + History(first + grown, id, 0)[|History(first, id, 0)|..]
    ensures f.catalog == FinalCatalog(first + grown)
    ensures tail <= 0 ==> f.rows == History(first + grown, id, 0)
  {
    HistoryGrows(first, grown, id);
    Suffix(History(first, id, 0), Stream(Fold([], FileItems(first, id)), FileItems(grown, id)));
    if tail <= 0 { assert History(first, id, tail) == History(first, id, 0); }
  }

  lemma {:induction false} Suffix(a: seq<Row>, b: seq<Row>)
    ensures a <= a + b && (a + b)[|a|..] == b
  {
  }

  /** Appending whole lines appends rows. */
  lemma {:induction false} HistoryGrows(a: string, b: string, id: string)
    requires WholeLines(a)
    ensures History(a + b, id, 0) == History(a, id, 0) + Stream(Fold([], FileItems(a, id)), FileItems(b, id))
    ensures Fold([], FileItems(a + b, id)) == FinalCatalog(a + b)
  {
    FileItemsConcat(a, b, id);
    StreamConcat([], FileItems(a, id), FileItems(b, id));
    HistoryIsStream(a, id);
    HistoryIsStream(a + b, id);
    FilterOnlySelects(Lines(a + b), id, "");
  }

  /** A file that has become shorter is read again from its start. */
  lemma {:induction false} TruncatedLogStartsOver(f: Follow, text: string, id: string)
    requires 0 < |text| < f.offset
    ensures var f' := PollOnce(f, text, id);
            && f'.rows == f.rows + Stream(f.catalog, FileItems(text, id)) && f'.offset == |text|
            && f'.catalog == Fold(f.catalog, FileItems(text, id))
  {
    assert text[0..] == text;
  }

  // ---- the gap ---------------------------------------------------------

  /**
    The position is taken from the end of the file after the first pass has hit its end, so
    what is appended in between is never shown: following then equals a batch pass over the
    file with that gap cut out.
  */
  lemma {:induction false} FollowSkipsGap(first: string, gap: string, texts: seq<string>, id: string)
    requires WholeLines(first) && Growing(first + gap, texts)
    ensures var f := PollMany(Begin(first, id, 0, |first + gap|), texts, id);
            var shown := first + LastOf(first + gap, texts)[|first + gap|..];
            f.rows == History(shown, id, 0) && f.catalog == FinalCatalog(shown)
  {
    var base := first + gap;
    PollingFollows(Begin(first, id, 0, |base|), first, base, texts, id);
    HistoryGrows(first, LastOf(base, texts)[|base|..], id);
  }

  function MatchCount(items: seq<Item>): nat {
    if items == [] then 0 else MatchCount(items[..|items| - 1]) + if items[|items| - 1].selected then 1 else 0
  }

  lemma {:induction false} StreamLength(cat: Catalog, items: seq<Item>)
    ensures |Stream(cat, items)| == MatchCount(items)
  {
    if items != [] { StreamLength(cat, items[..|items| - 1]); }
  }

  lemma {:induction false} MatchCountConcat(a: seq<Item>, b: seq<Item>)
    ensures MatchCount(a + b) == MatchCount(a) + MatchCount(b)
  {
    if b == [] {
      assert a + b == a;
    } else {
      assert (a + b)[..|a + b| - 1] == a + b[..|b| - 1];
      MatchCountConcat(a, b[..|b| - 1]);
    }
  }

  /** Number of rows: as many as there are matching lines. */
  lemma {:induction false} HistoryLength(text: string, id: string)
    ensures |History(text, id, 0)| == MatchCount(FileItems(text, id))
  {
    HistoryIsStream(text, id);
    StreamLength([], FileItems(text, id));
  }

  lemma {:induction false} MatchCountPositive(items: seq<Item>)
    ensures MatchCount(items) == 0 <==> forall i :: 0 <= i < |items| ==> !items[i].selected
  {
    if items != [] {
      var last := |items| - 1;
      assert items[last] == items[last] && forall i :: 0 <= i < last ==> items[..last][i] == items[i];
      MatchCountPositive(items[..last]);
    }
  }

  lemma {:induction false} MatchCountOfParts(a: string, b: string, c: string, id: string)
    requires WholeLines(a) && WholeLines(b)
    ensures MatchCount(FileItems(a + b + c, id))
            == MatchCount(FileItems(a, id)) + MatchCount(FileItems(b, id)) + MatchCount(FileItems(c, id))
    ensures MatchCount(FileItems(a + c, id)) == MatchCount(FileItems(a, id)) + MatchCount(FileItems(c, id))
  {
    assert a + b + c == a + (b + c);
    FileItemsConcat(a, b + c, id);
    FileItemsConcat(b, c, id);
    FileItemsConcat(a, c, id);
    MatchCountConcat(FileItems(a, id), FileItems(b, id) + FileItems(c, id));
    MatchCountConcat(FileItems(b, id), FileItems(c, id));
    MatchCountConcat(FileItems(a, id), FileItems(c, id));
  }

  /** Exactly the matching lines of the gap are missing from what follow has shown. */
  lemma {:induction false} GapRowsAreMissing(first: string, gap: string, texts: seq<string>, id: string)
    requires WholeLines(first) && WholeLines(gap) && Growing(first + gap, texts)
    ensures var f := PollMany(Begin(first, id, 0, |first + gap|), texts, id);
            |History(LastOf(first + gap, texts), id, 0)| == |f.rows| + MatchCount(FileItems(gap, id))
  {
    FollowSkipsGap(first, gap, texts, id);
    var base, final := first + gap, LastOf(first + gap, texts);
    var grown := final[|base|..];
    assert final == first + gap + grown;
    HistoryLength(final, id);
    HistoryLength(first + grown, id);
    MatchCountOfParts(first, gap, grown, id);
  }

  /** So a matching line in the gap always makes following differ from a batch pass. */
  lemma {:induction false} GapMatchIsLost(first: string, gap: string, texts: seq<string>, id: string, i: nat)
    requires WholeLines(first) && WholeLines(gap) && Growing(first + gap, texts)
    requires i < |Lines(gap)| && Matches(Lines(gap)[i], id)
    ensures PollMany(Begin(first, id, 0, |first + gap|), texts, id).rows != History(LastOf(first + gap, texts), id, 0)
  {
    GapRowsAreMissing(first, gap, texts, id);
    MatchCountPositive(FileItems(gap, id));
    assert FileItems(gap, id)[i].selected;
  }

  /** Without a filter following equals a batch pass over the final file if and only if there is no gap. */
  lemma {:induction false} FollowIsBatchIff(first: string, gap: string, texts: seq<string>)
    requires WholeLines(first) && WholeLines(gap) && Growing(first + gap, texts)
    ensures PollMany(Begin(first, "", 0, |first + gap|), texts, "").rows == History(LastOf(first + gap, texts), "", 0)
            <==> gap == []
  {
    if gap == [] {
      assert first + gap == first;
      FollowSkipsGap(first, gap, texts, "");
      var final := LastOf(first, texts);
      assert first + final[|first|..] == final;
    } else {
      GapMatchIsLost(first, gap, texts, "", 0);
    }
  }

  /** One line that arrives in the gap of an empty log: a batch pass has a row, following none. */
  lemma {:induction false} GapInstance(line: string)
    requires line == "x\n"
    ensures PollMany(Begin("", "", 0, |line|), [line], "").rows != History(line, "", 0)
  {
    assert "" + line == line;
    FollowIsBatchIff("", line, [line]);
  }
}
