/**
  The three text loops in place: `parse_command` and `strtok` cut a buffer into tokens by
  writing terminators into it, the join fills a buffer of 256 bytes.  Each is proved against
  `CommandText`.
*/
module Tokeniser {
  import opened Text
  import opened CommandText

  const NUL: char := '\0'

  /** `text` is the C string in the buffer: no terminator inside, one right after. */
  ghost predicate Holds(buffer: seq<char>, text: string) {
    |text| < |buffer| && buffer[..|text|] == text && buffer[|text|] == NUL && Free(text, NUL)
  }

  /** At `start` there is a terminated string, and its terminator is final. */
  ghost predicate Cut(buffer: seq<char>, start: nat, token: string, cursor: nat, length: nat) {
    && start + |token| < |buffer|
    && buffer[start..start + |token|] == token && buffer[start + |token|] == NUL && Free(token, NUL)
    && (start + |token| < cursor || cursor == length)
  }

  ghost predicate AllCut(buffer: seq<char>, starts: seq<nat>, tokens: seq<string>, cursor: nat, length: nat) {
    |starts| == |tokens| && forall k :: 0 <= k < |tokens| ==> Cut(buffer, starts[k], tokens[k], cursor, length)
  }

  /** Writing a terminator at or behind the cursor keeps the tokens that are already cut. */
  lemma {:induction false} CutsStay(before: seq<char>, after: seq<char>, starts: seq<nat>, tokens: seq<string>,
                                    cursor: nat, cursor': nat, length: nat)
    requires AllCut(before, starts, tokens, cursor, length) && cursor <= cursor' <= length && (cursor < length || after == before)
    requires |after| == |before| && forall i :: 0 <= i < |before| && i < cursor ==> after[i] == before[i]
    ensures AllCut(after, starts, tokens, cursor', length)
  {
    forall k | 0 <= k < |tokens| ensures Cut(after, starts[k], tokens[k], cursor', length) {
      var i, n := starts[k], |tokens[k]|;
      assert Cut(before, i, tokens[k], cursor, length);
      assert after[i..i + n] == before[i..i + n];
    }
  }

  /** From the cursor on, the buffer still holds the rest of the text. */
  ghost predicate Ahead(buffer: seq<char>, text: string, cursor: nat) {
    && cursor <= |text| < |buffer| && buffer[|text|] == NUL
    && forall i :: cursor <= i < |text| ==> buffer[i] == text[i] && text[i] != NUL
  }

  method SkipBlanks(line: array<char>, ghost text: string, from: nat) returns (cursor: nat)
    requires Ahead(line[..], text, from)
    ensures cursor == BlankEnd(text, from) && Ahead(line[..], text, cursor)
  {
    cursor := from;
    while line[cursor] == ' ' || line[cursor] == '\t'
      invariant from <= cursor <= |text|
      invariant forall i :: from <= i < cursor ==> IsBlank(text[i])
      decreases |text| - cursor
    {
      cursor := cursor + 1;
    }
    BlankEndIs(text, from, cursor);
  }

  /** To the closing quote or the end. */
  method ScanQuoted(line: array<char>, ghost text: string, start: nat, quote: char) returns (cursor: nat)
    requires Ahead(line[..], text, start)
    ensures cursor == QuoteEnd(text, start, quote)
  {
    cursor := start;
    while line[cursor] != NUL && line[cursor] != quote
      invariant start <= cursor <= |text|
      invariant forall i :: start <= i < cursor ==> text[i] != quote
      decreases |text| - cursor
    {
      cursor := cursor + 1;
    }
    QuoteEndIs(text, start, quote, cursor);
  }

  /** To the next blank or the end. */
  method ScanWord(line: array<char>, ghost text: string, start: nat) returns (cursor: nat)
    requires Ahead(line[..], text, start)
    ensures cursor == WordEnd(text, start)
  {
    cursor := start;
    while line[cursor] != NUL && line[cursor] != ' ' && line[cursor] != '\t'
      invariant start <= cursor <= |text|
      invariant forall i :: start <= i < cursor ==> !IsBlank(text[i])
      decreases |text| - cursor
    {
      cursor := cursor + 1;
    }
    WordEndIs(text, start, cursor);
  }

  /** A terminator at `end`, unless there is one already, cuts the text from `start` to there. */
  lemma {:induction false} Terminated(buffer: seq<char>, text: string, from: nat, start: nat, end: nat)
    requires Ahead(buffer, text, from) && from <= start <= end <= |text|
    ensures Cut(buffer[end := NUL], start, text[start..end], Behind(text, end), |text|)
    ensures Ahead(buffer[end := NUL], text, Behind(text, end))
    ensures end == |text| ==> buffer[end := NUL] == buffer
    ensures end < |text| ==> buffer[end] != NUL
  {
    var token, after := text[start..end], buffer[end := NUL];
    assert forall k :: 0 <= k < |token| ==> token[k] == text[start + k] == after[start + k];
    assert after[start..start + |token|] == token;
  }

  /** One argument: find it, terminate it, move behind it. */
  method CutNext(line: array<char>, ghost text: string, from: nat) returns (start: nat, cursor: nat)
    requires Ahead(line[..], text, from) && from < |text|
    modifies line
    ensures start == TokenStart(text, from) && cursor == Behind(text, TokenEnd(text, from))
    ensures Cut(line[..], start, text[start..TokenEnd(text, from)], cursor, |text|)
    ensures Ahead(line[..], text, cursor)
    ensures forall i :: 0 <= i < from ==> line[i] == old(line[i])
  {
    start, cursor := from, from;
    if line[cursor] == '"' || line[cursor] == '\'' {
      start := from + 1;
      cursor := ScanQuoted(line, text, start, line[from]);
    } else {
      cursor := ScanWord(line, text, start);
    }
    Terminated(line[..], text, from, start, cursor);
    if line[cursor] != NUL {
      line[cursor] := NUL;
      cursor := cursor + 1;
    }
  }

  /** The tokens found so far and those still to come are the tokens of the text. */
  ghost predicate Progress(text: string, max: nat, tokens: seq<string>, cursor: nat) {
    && cursor <= |text| && |tokens| <= max
    && ParseCommand(text, max) == tokens + ParseFrom(text, cursor, max - |tokens|)
  }

  /** Blanks in front of the cursor make no difference. */
  lemma {:induction false} BlanksDoNotCount(text: string, max: nat, tokens: seq<string>, cursor: nat)
    requires Progress(text, max, tokens, cursor)
    ensures Progress(text, max, tokens, BlankEnd(text, cursor))
  {
    var b := BlankEnd(text, cursor);
    BlankEndIs(text, b, b);
    assert ParseFrom(text, b, max - |tokens|) == ParseFrom(text, cursor, max - |tokens|);
  }

  lemma {:induction false} ProgressStep(text: string, max: nat, tokens: seq<string>, cursor: nat, token: string)
    requires Progress(text, max, tokens, cursor) && |tokens| < max
    requires cursor < |text| && !IsBlank(text[cursor])
    requires token == text[TokenStart(text, cursor)..TokenEnd(text, cursor)]
    ensures Progress(text, max, tokens + [token], Behind(text, TokenEnd(text, cursor)))
  {
    var next := Behind(text, TokenEnd(text, cursor));
    assert ParseFrom(text, cursor, max - |tokens|) == [token] + ParseFrom(text, next, max - |tokens| - 1);
  }

  /**
    `parse_command`: cut `line` at the blanks and quotes.  The out-parameter holds where each
    argument starts in the buffer; every argument lies in bounds and is terminated.
  */
  method ParseInPlace(line: array<char>, ghost text: string, max: nat) returns (starts: seq<nat>)
    requires Holds(line[..], text)
    modifies line
    ensures AllCut(line[..], starts, ParseCommand(text, max), |text|, |text|)
  {
    starts := [];
    ghost var tokens: seq<string> := [];
    var cursor := 0;
    while line[cursor] != NUL && |starts| < max
      invariant Ahead(line[..], text, cursor)
      invariant Progress(text, max, tokens, cursor)
      invariant AllCut(line[..], starts, tokens, cursor, |text|)
      decreases |text| - cursor
    {
      ghost var before, from := line[..], cursor;
      BlanksDoNotCount(text, max, tokens, cursor);
      cursor := SkipBlanks(line, text, cursor);
      CutsStay(before, before, starts, tokens, from, cursor, |text|);
      if line[cursor] == NUL {
        break;
      }
      ghost var at := cursor;
      ghost var token := text[TokenStart(text, at)..TokenEnd(text, at)];
      ProgressStep(text, max, tokens, at, token);
      var start;
      start, cursor := CutNext(line, text, cursor);
      CutsStay(before, line[..], starts, tokens, at, cursor, |text|);
      starts, tokens := starts + [start], tokens + [token];
    }
    Finished(text, max, tokens, cursor, line[..], starts);
  }

  lemma {:induction false} Finished(text: string, max: nat, tokens: seq<string>, cursor: nat,
                                    buffer: seq<char>, starts: seq<nat>)
    requires Progress(text, max, tokens, cursor) && AllCut(buffer, starts, tokens, cursor, |text|)
    requires cursor == |text| || |tokens| == max
    ensures AllCut(buffer, starts, ParseCommand(text, max), |text|, |text|)
  {
    assert ParseFrom(text, cursor, max - |tokens|) == [];
    assert tokens + [] == tokens;
    forall k | 0 <= k < |tokens| ensures Cut(buffer, starts[k], tokens[k], |text|, |text|) {
      assert Cut(buffer, starts[k], tokens[k], cursor, |text|);
    }
  }

  // ---- bounded printing ------------------------------------------------

  /** `snprintf(buffer + offset, size - offset, "%s", text)`: as much as fits, then a terminator. */
  method PrintAt(buffer: array<char>, offset: nat, text: string) returns (written: nat)
    requires offset < buffer.Length
    modifies buffer
    ensures written == |text| && buffer[..offset] == old(buffer[..offset])
    ensures offset + |text| < buffer.Length ==>
              buffer[offset..offset + |text|] == text && buffer[offset + |text|] == NUL
  {
    var k := 0;
    while k < |text| && offset + k + 1 < buffer.Length
      invariant k <= |text| && offset + k < buffer.Length
      invariant buffer[..offset] == old(buffer[..offset])
      invariant buffer[offset..offset + k] == text[..k]
    {
      buffer[offset + k] := text[k];
      k := k + 1;
    }
    buffer[offset + k] := NUL;
    written := |text|;
  }

  /**
    The join loop: it fails exactly when the words and the spaces between them do not fit, and
    otherwise the buffer holds them.
  */
  method JoinInto(buffer: array<char>, words: seq<string>) returns (ok: bool)
    requires 0 < buffer.Length && forall k :: 0 <= k < |words| ==> Free(words[k], NUL)
    modifies buffer
    ensures ok <==> |Join(words, ' ')| < buffer.Length
    ensures ok ==> Holds(buffer[..], Join(words, ' '))
  {
    buffer[0] := NUL;
    var i, offset := 0, 0;
    while i < |words|
      invariant 0 <= i <= |words| && offset == |Join(words[..i], ' ')|
      invariant Holds(buffer[..], Join(words[..i], ' '))
    {
      var text := (if i == 0 then [] else [' ']) + words[i];
      ghost var front := Join(words[..i], ' ');
      JoinOneMore(words, i, front, text);
      var written := PrintAt(buffer, offset, text);
      if offset + written >= buffer.Length {
        return false;
      }
      Extended(buffer[..], offset, front, text);
      offset, i := offset + written, i + 1;
    }
    assert words[..i] == words;
    ok := true;
  }

  lemma {:induction false} JoinOneMore(words: seq<string>, i: nat, front: string, text: string)
    requires i < |words| && front == Join(words[..i], ' ') && text == (if i == 0 then [] else [' ']) + words[i]
    ensures Join(words[..i + 1], ' ') == front + text && |front + text| <= |Join(words, ' ')|
  {
    assert words[..i + 1] == words[..i] + [words[i]];
    JoinSnoc(words[..i], words[i], ' ');
    assert front + (if words[..i] == [] then [] else [' ']) + words[i] == front + text;
    JoinPrefixShorter(words, i + 1, ' ');
  }

  lemma {:induction false} Extended(buffer: seq<char>, offset: nat, front: string, text: string)
    requires offset == |front| && offset + |text| < |buffer| && Free(front, NUL) && Free(text, NUL)
    requires buffer[..offset] == front && buffer[offset..offset + |text|] == text && buffer[offset + |text|] == NUL
    ensures Holds(buffer, front + text)
  {
    assert buffer[..offset + |text|] == buffer[..offset] + buffer[offset..offset + |text|];
  }

  // ---- strtok ----------------------------------------------------------

  /** The tokens found so far and those still to come are those of the text. */
  ghost predicate Splitting(text: string, tokens: seq<string>, cursor: nat) {
    cursor <= |text| && Tokens(text, ' ') == tokens + Tokens(text[cursor..], ' ')
  }

  lemma {:induction false} SplitSpace(text: string, tokens: seq<string>, cursor: nat)
    requires Splitting(text, tokens, cursor) && cursor < |text| && text[cursor] == ' '
    ensures Splitting(text, tokens, cursor + 1)
  {
    assert text[cursor..][1..] == text[cursor + 1..];
  }

  lemma {:induction false} SpanIs(s: string, d: char, n: nat)
    requires n <= |s| && (n == |s| || s[n] == d) && forall i :: 0 <= i < n ==> s[i] != d
    ensures Span(s, d) == n
  {
    if n > 0 { assert s[0] != d; SpanIs(s[1..], d, n - 1); }
  }

  lemma {:induction false} SplitToken(text: string, tokens: seq<string>, cursor: nat, end: nat)
    requires Splitting(text, tokens, cursor) && cursor < end <= |text|
    requires (end == |text| || text[end] == ' ') && forall i :: cursor <= i < end ==> text[i] != ' '
    ensures Splitting(text, tokens + [text[cursor..end]], end)
  {
    var rest := text[cursor..];
    SpanIs(rest, ' ', end - cursor);
    assert rest[..end - cursor] == text[cursor..end] && rest[end - cursor..] == text[end..];
    assert Tokens(rest, ' ') == [text[cursor..end]] + Tokens(text[end..], ' ');
  }

  method SkipSpaces(buffer: array<char>, ghost text: string, ghost tokens: seq<string>, from: nat) returns (start: nat)
    requires Ahead(buffer[..], text, from) && Splitting(text, tokens, from)
    ensures from <= start <= |text| && (start < |text| ==> text[start] != ' ') && Splitting(text, tokens, start)
  {
    start := from;
    while buffer[start] == ' '
      invariant from <= start <= |text| && Splitting(text, tokens, start)
      decreases |text| - start
    {
      SplitSpace(text, tokens, start);
      start := start + 1;
    }
  }

  method ScanToken(buffer: array<char>, ghost text: string, ghost tokens: seq<string>, start: nat) returns (end: nat)
    requires Ahead(buffer[..], text, start) && start < |text| && text[start] != ' ' && Splitting(text, tokens, start)
    ensures start < end <= |text| && (end < |text| ==> text[end] == ' ')
    ensures Splitting(text, tokens + [text[start..end]], Behind(text, end))
  {
    end := start;
    while buffer[end] != NUL && buffer[end] != ' '
      invariant start <= end <= |text| && forall i :: start <= i < end ==> text[i] != ' '
      decreases |text| - end
    {
      end := end + 1;
    }
    SplitToken(text, tokens, start, end);
    if end < |text| { SplitSpace(text, tokens + [text[start..end]], end); }
  }

  /** One call of `strtok(…, " ")`: the next token, or `found` is false. */
  method NextToken(buffer: array<char>, ghost text: string, ghost tokens: seq<string>, from: nat)
    returns (found: bool, start: nat, cursor: nat, ghost token: string)
    requires Ahead(buffer[..], text, from) && Splitting(text, tokens, from)
    modifies buffer
    ensures !found ==> buffer[..] == old(buffer[..]) && cursor == |text|
    ensures cursor >= from && Ahead(buffer[..], text, cursor)
    ensures Splitting(text, if found then tokens + [token] else tokens, cursor)
    ensures found ==> from < cursor && Cut(buffer[..], start, token, cursor, |text|)
    ensures forall i :: 0 <= i < from ==> buffer[i] == old(buffer[i])
  {
    start := SkipSpaces(buffer, text, tokens, from);
    cursor, token := start, [];
    found := buffer[start] != NUL;
    if found {
      cursor := ScanToken(buffer, text, tokens, start);
      token := text[start..cursor];
      Terminated(buffer[..], text, from, start, cursor);
      if buffer[cursor] != NUL {
        buffer[cursor] := NUL;
        cursor := cursor + 1;
      }
    }
  }

  /** What the `strtok` loop has done so far: `tokens` are cut, all of them of the text. */
  ghost predicate SplitUpTo(buffer: seq<char>, text: string, starts: seq<nat>, tokens: seq<string>, cursor: nat) {
    Ahead(buffer, text, cursor) && Splitting(text, tokens, cursor) && AllCut(buffer, starts, tokens, cursor, |text|)
  }

  /** The `strtok` loop into `max` slots, the last of which is for the terminating NULL. */
  method SplitInPlace(buffer: array<char>, ghost text: string, max: nat) returns (fits: bool, starts: seq<nat>)
    requires Holds(buffer[..], text) && 0 < max
    modifies buffer
    ensures fits <==> |Tokens(text, ' ')| < max
    ensures fits ==> AllCut(buffer[..], starts, Tokens(text, ' '), |text|, |text|)
  {
    starts := [];
    ghost var tokens: seq<string> := [];
    assert text[0..] == text;
    var found, start, cursor, token := NextToken(buffer, text, tokens, 0);
    while found
      invariant |starts| == |tokens| < max && (!found ==> cursor == |text|)
      invariant found ==> SplitUpTo(buffer[..], text, starts + [start], tokens + [token], cursor)
      invariant !found ==> SplitUpTo(buffer[..], text, starts, tokens, cursor)
      decreases found, |text| - cursor
    {
      if |starts| >= max - 1 {
        return false, starts;
      }
      starts, tokens := starts + [start], tokens + [token];
      ghost var before, from := buffer[..], cursor;
      found, start, cursor, token := NextToken(buffer, text, tokens, cursor);
      CutsStay(before, buffer[..], starts, tokens, from, cursor, |text|);
    }
    fits := true;
    assert text[cursor..] == [] && tokens + [] == tokens;
  }

  /**
    `build_exec_argv` with a buffer of 256 bytes and 32 slots: the outcome of `BuildExecArgv`,
    and on success one terminated string in the buffer per argument.
  */
  method BuildArgv(command: string, buffer: array<char>) returns (error: Option<Errno>, starts: seq<nat>)
    requires Free(command, NUL) && buffer.Length == COMMAND_SIZE
    modifies buffer
    ensures match BuildExecArgv(command)
            case Failed(errno) => error == Some(errno)
            case Argv(args) => error == None && AllCut(buffer[..], starts, args, |command|, |command|)
  {
    starts := [];
    if command == "" {
      return Some(EINVAL), starts;
    }
    var written := PrintAt(buffer, 0, command);
    if written >= buffer.Length {
      return Some(ENAMETOOLONG), starts;
    }
    Extended(buffer[..], 0, [], command);
    assert [] + command == command;
    var fits;
    fits, starts := SplitInPlace(buffer, command, MAX_ARGS);
    error := if !fits then Some(E2BIG) else if |starts| == 0 then Some(EINVAL) else None;
  }
}
