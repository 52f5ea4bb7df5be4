/**
  The loops of `src/logger.c` in their own form, proved equal to the functions of `Logger`.
*/
module LogReader {
  import opened Text
  import opened LogRecords
  import opened Logger

  /** `LogCatalog`: a growable array of entries searched from the front. */
  class LogCatalog {
    var entries: array<Entry>
    var count: nat

    ghost predicate Valid()
      reads this
    {
      count <= entries.Length
    }

    ghost function Contents(): Catalog
      requires Valid()
      reads this, entries
    {
      entries[..count]
    }

    constructor ()
      ensures Valid() && Contents() == [] && fresh(entries)
    {
      entries, count := new Entry[0](_ => Entry("", "", None, "")), 0;
    }

    /** `logger_catalog_find`. */
    method Search(id: string) returns (found: Option<nat>)
      requires Valid()
      ensures found == Lookup(Contents(), id)
    {
      var i := 0;
      while i < count
        invariant i <= count
        invariant Lookup(Contents(), id) ==
                  match Lookup(entries[i..count], id) case None => None case Some(k) => Some(k + i)
      {
        assert entries[i..count][1..] == entries[i + 1..count];
        if entries[i].id == id {
          return Some(i);
        }
        i := i + 1;
      }
      return None;
    }

    /** Room for one more entry, doubling from 8. */
    method Grow()
      requires Valid()
      modifies this`entries
      ensures Valid() && count < entries.Length && Contents() == old(Contents())
      ensures entries == old(entries) || fresh(entries)
    {
      if count < entries.Length {
        return;
      }
      var capacity := if entries.Length == 0 then 8 else entries.Length * 2;
      var next := new Entry[capacity](i requires 0 <= i reads this, entries =>
                                        if i < entries.Length then entries[i] else Entry("", "", None, ""));
      assert next[..count] == entries[..count];
      entries := next;
    }

    /** `logger_catalog_update`, with `logger_catalog_get` creating a missing entry. */
    method Update(r: LogRecord)
      requires Valid()
      modifies this, entries
      ensures Valid() && Contents() == UpdateCatalog(old(Contents()), r)
      ensures entries == old(entries) || fresh(entries)
    {
      if r.id == "" {
        return;
      }
      ghost var was := Contents();
      var found := Search(r.id);
      if found.None? {
        Grow();
        entries[count] := UpdateEntry(Entry(r.id, "", None, ""), r);
        count := count + 1;
        assert Contents() == was + [UpdateEntry(Entry(r.id, "", None, ""), r)];
      } else {
        entries[found.value] := UpdateEntry(entries[found.value], r);
        assert Contents() == was[found.value := UpdateEntry(was[found.value], r)];
      }
    }
  }

  /** `logger_read_records`: one record per fgets. */
  method ReadRecords(text: string, id: string) returns (items: seq<Item>)
    ensures items == FileItems(text, id)
  {
    items := [];
    var rest := text;
    while rest != []
      invariant items + FileItems(rest, id) == FileItems(text, id)
      decreases |rest|
    {
      var n := LineLength(rest, LINE_CAP);
      var item := ItemOf(rest[..n], id);
      FirstItem(rest, id, n, item);
      items := items + [item];
      rest := rest[n..];
    }
  }

  lemma {:induction false} FirstItem(text: string, id: string, n: nat, item: Item)
    requires text != [] && n == LineLength(text, LINE_CAP) && item == ItemOf(text[..n], id)
    ensures FileItems(text, id) == [item] + FileItems(text[n..], id)
  {
    var line, more := text[..n], Lines(text[n..]);
    assert Lines(text)[0] == line && Lines(text)[1..] == more;
  }

  /** `logger_build_selection`: collect the matching indexes, then keep the tail. */
  method BuildSelection(items: seq<Item>, tail: int) returns (selected: seq<nat>)
    ensures selected == Selection(items, tail)
  {
    var matches: seq<nat> := [];
    for i := 0 to |items|
      invariant matches == SelectedIndexes(items[..i])
    {
      assert items[..i + 1][..i] == items[..i];
      if items[i].selected {
        matches := matches + [i];
      }
    }
    assert items[..|items|] == items;
    var start := 0;
    if tail > 0 && |matches| > tail {
      start := |matches| - tail;
    }
    selected := matches[start..];
  }

  /** How many of the selected indexes lie below `i`. */
  ghost predicate CursorAt(selected: seq<nat>, i: nat, cursor: nat) {
    && cursor <= |selected|
    && (forall k :: 0 <= k < cursor ==> selected[k] < i)
    && (forall k :: cursor <= k < |selected| ==> i <= selected[k])
  }

  lemma {:induction false} CursorStep(selected: seq<nat>, i: nat, cursor: nat)
    requires forall j, k :: 0 <= j < k < |selected| ==> selected[j] < selected[k]
    requires CursorAt(selected, i, cursor)
    ensures CursorAt(selected, i + 1, if cursor < |selected| && selected[cursor] == i then cursor + 1 else cursor)
  {
  }

  lemma {:induction false} PickOneMore(rows: seq<Row>, selected: seq<nat>, cursor: nat)
    requires cursor < |selected| && forall k :: 0 <= k < |selected| ==> selected[k] < |rows|
    ensures PickRows(rows, selected[..cursor + 1]) == PickRows(rows, selected[..cursor]) + [rows[selected[cursor]]]
  {
  }

  lemma {:induction false} RowsPrefix(cat: Catalog, items: seq<Item>, i: nat)
    requires i < |items|
    ensures Rows(cat, items)[i] == RenderRecord(items[i].record, Fold(cat, items[..i + 1]))
  {
    var last := |items| - 1;
    var front, row := items[..last], RenderRecord(items[last].record, Fold(cat, items));
    assert Rows(cat, items) == Rows(cat, front) + [row];
    if i == last {
      assert items[..i + 1] == items;
    } else {
      RowsPrefix(cat, front, i);
      assert front[..i + 1] == items[..i + 1] && front[i] == items[i];
    }
  }

  /** `logger_render_records`: every record updates the catalog, the selected ones are shown. */
  method RenderRecords(items: seq<Item>, selected: seq<nat>, catalog: LogCatalog) returns (rows: seq<Row>)
    requires catalog.Valid()
    requires forall k :: 0 <= k < |selected| ==> selected[k] < |items|
    requires forall j, k :: 0 <= j < k < |selected| ==> selected[j] < selected[k]
    modifies catalog, catalog.entries
    ensures catalog.Valid() && catalog.Contents() == Fold(old(catalog.Contents()), items)
    ensures rows == PickRows(Rows(old(catalog.Contents()), items), selected)
    ensures catalog.entries == old(catalog.entries) || fresh(catalog.entries)
  {
    ghost var cat := catalog.Contents();
    ghost var all := Rows(cat, items);
    rows := [];
    var cursor := 0;
    for i := 0 to |items|
      invariant catalog.Valid() && catalog.Contents() == Fold(cat, items[..i])
      invariant catalog.entries == old(catalog.entries) || fresh(catalog.entries)
      invariant CursorAt(selected, i, cursor)
      invariant rows == PickRows(all, selected[..cursor])
    {
      assert items[..i + 1][..i] == items[..i];
      catalog.Update(items[i].record);
      CursorStep(selected, i, cursor);
      if cursor < |selected| && selected[cursor] == i {
        var row := RenderRecord(items[i].record, catalog.entries[..catalog.count]);
        assert row == all[i] by { RowsPrefix(cat, items, i); }
        PickOneMore(all, selected, cursor);
        rows := rows + [row];
        cursor := cursor + 1;
      }
    }
    assert items[..|items|] == items && selected[..cursor] == selected;
  }

  /** `logger_render_history`. */
  method RenderHistory(text: string, id: string, tail: int) returns (rows: seq<Row>)
    ensures rows == History(text, id, tail)
  {
    var items := ReadRecords(text, id);
    var selected := BuildSelection(items, tail);
    var catalog := new LogCatalog();
    rows := RenderRecords(items, selected, catalog);
  }

  lemma {:induction false} StreamStep(cat: Catalog, items: seq<Item>, i: nat)
    requires i < |items|
    ensures Fold(cat, items[..i + 1]) == UpdateCatalog(Fold(cat, items[..i]), items[i].record)
    ensures Stream(cat, items[..i + 1]) == Stream(cat, items[..i]) +
              (if items[i].selected then [RenderRecord(items[i].record, Fold(cat, items[..i + 1]))] else [])
  {
    assert items[..i + 1][..i] == items[..i];
  }

  /** The inner loop of `logger_follow` over what was appended. */
  method ShowNew(text: string, id: string, catalog: LogCatalog) returns (rows: seq<Row>)
    requires catalog.Valid()
    modifies catalog, catalog.entries
    ensures catalog.Valid() && catalog.Contents() == Fold(old(catalog.Contents()), FileItems(text, id))
    ensures rows == Stream(old(catalog.Contents()), FileItems(text, id))
    ensures catalog.entries == old(catalog.entries) || fresh(catalog.entries)
  {
    ghost var cat := catalog.Contents();
    var items := ReadRecords(text, id);
    rows := [];
    for i := 0 to |items|
      invariant catalog.Valid() && catalog.Contents() == Fold(cat, items[..i])
      invariant catalog.entries == old(catalog.entries) || fresh(catalog.entries)
      invariant rows == Stream(cat, items[..i])
    {
      StreamStep(cat, items, i);
      catalog.Update(items[i].record);
      if items[i].selected {
        rows := rows + [RenderRecord(items[i].record, catalog.entries[..catalog.count])];
      }
    }
    assert items[..|items|] == items;
  }

  /** The first pass of `logger_follow`: the history, and the catalog that is kept. */
  method ShowSeen(seen: string, id: string, tail: int) returns (rows: seq<Row>, catalog: LogCatalog)
    ensures catalog.Valid() && fresh(catalog) && fresh(catalog.entries)
    ensures rows == History(seen, id, tail) && catalog.Contents() == Fold([], FileItems(seen, id))
  {
    var items := ReadRecords(seen, id);
    var selected := BuildSelection(items, tail);
    catalog := new LogCatalog();
    rows := RenderRecords(items, selected, catalog);
  }

  /** One round of the loop: start over if the file has shrunk, show what was appended. */
  method PollFile(text: string, id: string, catalog: LogCatalog, rows: seq<Row>, offset: nat)
    returns (rows': seq<Row>, offset': nat)
    requires catalog.Valid()
    modifies catalog, catalog.entries
    ensures catalog.Valid() && (catalog.entries == old(catalog.entries) || fresh(catalog.entries))
    ensures Follow(rows', catalog.Contents(), offset')
            == PollOnce(Follow(rows, old(catalog.Contents()), offset), text, id)
  {
    rows', offset' := rows, offset;
    if |text| < offset' {
      offset' := 0;
    }
    if |text| > offset' {
      var more := ShowNew(text[offset'..], id, catalog);
      rows' := rows' + more;
      offset' := |text|;
    }
  }

  lemma {:induction false} PollOneMore(f: Follow, texts: seq<string>, i: nat, id: string)
    requires i < |texts|
    ensures PollMany(f, texts[..i + 1], id) == PollOnce(PollMany(f, texts[..i], id), texts[i], id)
  {
    assert texts[..i + 1][..i] == texts[..i];
  }

  /** `logger_follow`: `texts` is what the file holds at each poll until the interrupt. */
  method FollowLog(seen: string, end: nat, texts: seq<string>, id: string, tail: int)
    returns (rows: seq<Row>, catalog: LogCatalog, offset: nat)
    ensures catalog.Valid()
    ensures Follow(rows, catalog.Contents(), offset) == PollMany(Begin(seen, id, tail, end), texts, id)
  {
    rows, catalog := ShowSeen(seen, id, tail);
    offset := end;
    ghost var begun := Begin(seen, id, tail, end);
    assert PollMany(begun, texts[..0], id) == begun;
    for i := 0 to |texts|
      invariant catalog.Valid() && fresh(catalog) && fresh(catalog.entries)
      invariant Follow(rows, catalog.Contents(), offset) == PollMany(begun, texts[..i], id)
    {
      PollOneMore(begun, texts, i, id);
      rows, offset := PollFile(texts[i], id, catalog, rows, offset);
    }
    assert texts[..|texts|] == texts;
  }
}
