/**
  From a typed line to the argument vector of exec: the tokeniser of the prompt
  (src/main.c:117-150), the join of the command's words (src/main.c:314-331) and the split the
  child makes of it (src/namespace.c:34-67), as functions on strings.
*/
module CommandText {
  import opened Text

  const LINE_SIZE: nat := 256
  const COMMAND_SIZE: nat := 256
  const MAX_ARGS: nat := 32

  predicate IsBlank(c: char) { c == ' ' || c == '\t' }
  predicate IsQuote(c: char) { c == '"' || c == '\'' }

  /** Where the blanks from `i` on end. */
  function BlankEnd(s: string, i: nat): (n: nat)
    requires i <= |s|
    ensures i <= n <= |s| && (n < |s| ==> !IsBlank(s[n]))
    decreases |s| - i
  {
    if i == |s| || !IsBlank(s[i]) then i else BlankEnd(s, i + 1)
  }

  /** Where the word at `i` ends. */
  function WordEnd(s: string, i: nat): (n: nat)
    requires i <= |s|
    ensures i <= n <= |s|
    decreases |s| - i
  {
    if i == |s| || IsBlank(s[i]) then i else WordEnd(s, i + 1)
  }

  /** Where the text quoted from `i` on ends. */
  function QuoteEnd(s: string, i: nat, quote: char): (n: nat)
    requires i <= |s|
    ensures i <= n <= |s|
    decreases |s| - i
  {
    if i == |s| || s[i] == quote then i else QuoteEnd(s, i + 1, quote)
  }

  /** Start and end of the token at `i`. */
  function TokenStart(s: string, i: nat): (n: nat)
    requires i < |s|
    ensures i <= n <= |s|
  {
    if IsQuote(s[i]) then i + 1 else i
  }

  function TokenEnd(s: string, i: nat): (n: nat)
    requires i < |s|
    ensures TokenStart(s, i) <= n <= |s|
  {
    if IsQuote(s[i]) then QuoteEnd(s, i + 1, s[i]) else WordEnd(s, i)
  }

  /** The character after a token, a blank or the closing quote, is overwritten and skipped. */
  function Behind(s: string, end: nat): (n: nat)
    requires end <= |s|
    ensures end <= n <= |s| && (n == end ==> n == |s|)
  {
    if end < |s| then end + 1 else end
  }

  /** The loop of `parse_command` from cursor `i`, with room for `max` arguments. */
  function ParseFrom(s: string, i: nat, max: nat): (tokens: seq<string>)
    requires i <= |s|
    ensures |tokens| <= max
    decreases max
  {
    var b := BlankEnd(s, i);
    if max == 0 || b == |s| then []
    else
      var end := TokenEnd(s, b);
      [s[TokenStart(s, b)..end]] + ParseFrom(s, Behind(s, end), max - 1)
  }

  /** `parse_command`. */
  function ParseCommand(s: string, max: nat): seq<string> { ParseFrom(s, 0, max) }

  lemma {:induction false} BlankEndIs(s: string, i: nat, n: nat)
    requires i <= n <= |s| && (n == |s| || !IsBlank(s[n])) && forall k :: i <= k < n ==> IsBlank(s[k])
    ensures BlankEnd(s, i) == n
    decreases n - i
  {
    if i < n { BlankEndIs(s, i + 1, n); }
  }

  lemma {:induction false} WordEndIs(s: string, i: nat, n: nat)
    requires i <= n <= |s| && (n == |s| || IsBlank(s[n])) && forall k :: i <= k < n ==> !IsBlank(s[k])
    ensures WordEnd(s, i) == n
    decreases n - i
  {
    if i < n { WordEndIs(s, i + 1, n); }
  }

  lemma {:induction false} QuoteEndIs(s: string, i: nat, quote: char, n: nat)
    requires i <= n <= |s| && (n == |s| || s[n] == quote) && forall k :: i <= k < n ==> s[k] != quote
    ensures QuoteEnd(s, i, quote) == n
    decreases n - i
  {
    if i < n { QuoteEndIs(s, i + 1, quote, n); }
  }

  datatype Errno = ENAMETOOLONG | E2BIG | EINVAL
  datatype Argv = Argv(args: seq<string>) | Failed(errno: Errno)

  /** `build_exec_argv` with the child's 256-byte buffer and 32 slots. */
  function BuildExecArgv(command: string): Argv {
    if command == "" then Failed(EINVAL)
    else if |command| >= COMMAND_SIZE then Failed(ENAMETOOLONG)
    else
      var tokens := Tokens(command, ' ');
      if |tokens| >= MAX_ARGS then Failed(E2BIG) else if tokens == [] then Failed(EINVAL) else Argv(tokens)
  }

  // ---- the prompt takes words apart ------------------------------------

  /** What needs no quoting. */
  predicate Plain(s: string) {
    s != [] && s[0] != '"' && s[0] != '\'' && forall i :: 0 <= i < |s| ==> s[i] != ' ' && s[i] != '\t'
  }

  /** A plain word that starts at `i` and is followed by a blank or nothing is the next token. */
  lemma {:induction false} PlainWordIsNext(s: string, i: nat, w: string)
    requires Plain(w) && i + |w| <= |s| && s[i..i + |w|] == w
    requires i + |w| == |s| || IsBlank(s[i + |w|])
    ensures BlankEnd(s, i) == i && TokenStart(s, i) == i && TokenEnd(s, i) == i + |w|
  {
    assert forall k :: i <= k < i + |w| ==> s[k] == s[i..i + |w|][k - i];
    assert s[i] == w[0];
    WordEndIs(s, i, i + |w|);
  }

  /** A quoted text that starts at `i` is the next token, whatever follows the closing quote. */
  lemma {:induction false} QuotedIsNext(s: string, i: nat, quote: char, w: string)
    requires IsQuote(quote) && Free(w, quote) && i + |w| + 1 < |s|
    requires s[i] == quote && s[i + 1..i + 1 + |w|] == w && s[i + 1 + |w|] == quote
    ensures BlankEnd(s, i) == i && TokenStart(s, i) == i + 1 && TokenEnd(s, i) == i + 1 + |w|
  {
    assert forall k :: i + 1 <= k < i + 1 + |w| ==> s[k] == s[i + 1..i + 1 + |w|][k - (i + 1)];
    QuoteEndIs(s, i + 1, quote, i + 1 + |w|);
  }

  /** What can be an argument at all: a plain word, or a text without one kind of quote. */
  predicate Typable(w: string) { Plain(w) || Free(w, '"') || Free(w, '\'') }

  /** How to type it. */
  function Typed(w: string): string
    requires Typable(w)
  {
    if Plain(w) then w else if Free(w, '"') then ['"'] + w + ['"'] else ['\''] + w + ['\'']
  }

  function TypedAll(words: seq<string>): (r: seq<string>)
    requires forall k :: 0 <= k < |words| ==> Typable(words[k])
    ensures |r| == |words|
  {
    if words == [] then [] else [Typed(words[0])] + TypedAll(words[1..])
  }

  lemma {:induction false} FirstOfJoin(s: string, i: nat, w: string, more: seq<string>)
    requires i <= |s| && s[i..] == if more == [] then w else w + [' '] + Join(more, ' ')
    ensures i + |w| <= |s| && s[i..i + |w|] == w && (more == [] <==> i + |w| == |s|)
    ensures more != [] ==> s[i + |w|] == ' ' && s[i + |w| + 1..] == Join(more, ' ')
  {
    var t := s[i..];
    assert s[i..i + |w|] == t[..|w|];
    assert i + |w| < |s| ==> s[i + |w|] == t[|w|] && s[i + |w| + 1..] == t[|w| + 1..];
  }

  lemma {:induction false} QuotedText(s: string, i: nat, quote: char, w: string)
    requires var v := [quote] + w + [quote]; i + |v| <= |s| && s[i..i + |v|] == v
    ensures s[i] == quote && s[i + 1..i + 1 + |w|] == w && s[i + 1 + |w|] == quote
  {
    var v := [quote] + w + [quote];
    assert forall k :: 0 <= k < |v| ==> s[i + k] == s[i..i + |v|][k] == v[k];
    assert v[0] == quote && v[1 + |w|] == quote && v[1..1 + |w|] == w;
    assert s[i + 1 + |w|] == v[1 + |w|];
    assert s[i + 1..i + 1 + |w|] == s[i..i + |v|][1..1 + |w|];
  }

  /** The word typed at `i` is the next token; behind it there is at most one blank left over. */
  lemma {:induction false} TypedIsNext(s: string, i: nat, w: string)
    requires Typable(w) && i + |Typed(w)| <= |s| && s[i..i + |Typed(w)|] == Typed(w)
    requires i + |Typed(w)| == |s| || s[i + |Typed(w)|] == ' '
    ensures i < |s| && BlankEnd(s, i) == i && s[TokenStart(s, i)..TokenEnd(s, i)] == w
    ensures var next, end := Behind(s, TokenEnd(s, i)), i + |Typed(w)|;
            next == end || (next == end + 1 && end < |s|)
  {
    var v := Typed(w);
    if Plain(w) {
      assert s[i] == s[i..i + |v|][0];
      PlainWordIsNext(s, i, w);
    } else {
      QuotedText(s, i, v[0], w);
      QuotedIsNext(s, i, v[0], w);
    }
  }

  lemma {:induction false} LeftoverBlank(s: string, i: nat, max: nat)
    requires i < |s| && IsBlank(s[i])
    ensures ParseFrom(s, i, max) == ParseFrom(s, i + 1, max)
  {
    assert BlankEnd(s, i) == BlankEnd(s, i + 1);
  }

  lemma {:induction false} ParseStep(s: string, i: nat, w: string, next: nat, max: nat)
    requires 0 < max && i < |s| && BlankEnd(s, i) == i && s[TokenStart(s, i)..TokenEnd(s, i)] == w
    requires next == Behind(s, TokenEnd(s, i))
    ensures ParseFrom(s, i, max) == [w] + ParseFrom(s, next, max - 1)
  {
  }

  lemma {:induction false} SkipLeftover(s: string, next: nat, end: nat, max: nat)
    requires end <= |s| && (next == Behind(s, end) || (next == end < |s| && s[end] == ' '))
    ensures ParseFrom(s, next, max) == ParseFrom(s, Behind(s, end), max)
  {
    if next == end < |s| { LeftoverBlank(s, end, max); }
  }

  lemma {:induction false} TypedStep(s: string, i: nat, w: string, typed: seq<string>)
    requires Typable(w) && i <= |s| && s[i..] == Join([Typed(w)] + typed, ' ')
    ensures var end := i + |Typed(w)|;
            && end <= |s| && s[i..end] == Typed(w) && (end == |s| || s[end] == ' ')
            && s[Behind(s, end)..] == Join(typed, ' ')
  {
    JoinCons(Typed(w), typed, ' ');
    FirstOfJoin(s, i, Typed(w), typed);
  }

  lemma {:induction false} TypedHead(s: string, i: nat, w: string, max: nat)
    requires 0 < max && Typable(w) && i + |Typed(w)| <= |s| && s[i..i + |Typed(w)|] == Typed(w)
    requires i + |Typed(w)| == |s| || s[i + |Typed(w)|] == ' '
    ensures ParseFrom(s, i, max) == [w] + ParseFrom(s, Behind(s, i + |Typed(w)|), max - 1)
  {
    TypedIsNext(s, i, w);
    var next := Behind(s, TokenEnd(s, i));
    ParseStep(s, i, w, next, max);
    SkipLeftover(s, next, i + |Typed(w)|, max - 1);
  }

  /** `text` is the words typed one after the other with a space in between. */
  ghost predicate TypedText(words: seq<string>, text: string) {
    (forall k :: 0 <= k < |words| ==> Typable(words[k])) && text == Join(TypedAll(words), ' ')
  }

  lemma {:induction false} TypedTextStep(s: string, i: nat, words: seq<string>, max: nat) returns (next: nat)
    requires 0 < max && i <= |s| && words != [] && TypedText(words, s[i..])
    ensures next <= |s| && TypedText(words[1..], s[next..])
    ensures ParseFrom(s, i, max) == [words[0]] + ParseFrom(s, next, max - 1)
  {
    var w, typed := words[0], TypedAll(words[1..]);
    TypedStep(s, i, w, typed);
    TypedHead(s, i, w, max);
    next := Behind(s, i + |Typed(w)|);
  }

  lemma {:induction false} TypedParseFrom(s: string, i: nat, words: seq<string>, max: nat)
    requires |words| <= max && i <= |s| && TypedText(words, s[i..])
    ensures ParseFrom(s, i, max) == words
    decreases max
  {
    if words == [] {
      assert i == |s|;
    } else {
      var next := TypedTextStep(s, i, words, max);
      TypedParseFrom(s, next, words[1..], max - 1);
    }
  }

  /** Every list of typable words has a line that gives exactly these words. */
  lemma {:induction false} TypedWordsParse(words: seq<string>, max: nat)
    requires |words| <= max && forall k :: 0 <= k < |words| ==> Typable(words[k])
    ensures ParseCommand(Join(TypedAll(words), ' '), max) == words
  {
    var s := Join(TypedAll(words), ' ');
    assert s[0..] == s;
    TypedParseFrom(s, 0, words, max);
  }

  lemma {:induction false} QuoteEndsAt(s: string, i: nat, quote: char)
    requires i <= |s|
    ensures Free(s[i..QuoteEnd(s, i, quote)], quote)
    decreases |s| - i
  {
    var n := QuoteEnd(s, i, quote);
    if i < |s| && s[i] != quote {
      QuoteEndsAt(s, i + 1, quote);
      assert s[i..n] == [s[i]] + s[i + 1..n];
    }
  }

  lemma {:induction false} WordEndsAt(s: string, i: nat)
    requires i <= |s|
    ensures forall k :: i <= k < WordEnd(s, i) ==> !IsBlank(s[k])
    decreases |s| - i
  {
    if i < |s| && !IsBlank(s[i]) { WordEndsAt(s, i + 1); }
  }

  lemma {:induction false} TokenIsTypable(s: string, i: nat)
    requires i < |s| && !IsBlank(s[i])
    ensures Typable(s[TokenStart(s, i)..TokenEnd(s, i)])
  {
    if IsQuote(s[i]) {
      QuoteEndsAt(s, i + 1, s[i]);
    } else {
      WordEndsAt(s, i);
      assert Plain(s[i..WordEnd(s, i)]);
    }
  }

  /** Nothing else ever comes out. */
  lemma {:induction false} TokensAreTypable(s: string, i: nat, max: nat)
    requires i <= |s|
    ensures forall k :: 0 <= k < |ParseFrom(s, i, max)| ==> Typable(ParseFrom(s, i, max)[k])
    decreases max
  {
    var b := BlankEnd(s, i);
    if max != 0 && b < |s| {
      TokenIsTypable(s, b);
      TokensAreTypable(s, Behind(s, TokenEnd(s, b)), max - 1);
    }
  }

  // ---- exactly the lists that can be typed ------------------------------

  /** What `fgets` into 256 bytes can deliver once the newline is cut off. */
  predicate PromptLine(line: string) { |line| < LINE_SIZE && Free(line, '\n') && Free(line, '\0') }

  /** What a word takes at least: a blank after a plain one, two quotes around another, less at the end. */
  function Cost(w: string, last: bool): nat {
    |w| + (if Plain(w) then 0 else 1) + (if last then 0 else 1)
  }

  function Shortest(words: seq<string>): nat {
    if words == [] then 0
    else if |words| == 1 then Cost(words[0], true)
    else Cost(words[0], false) + Shortest(words[1..])
  }

  lemma {:induction false} TokenCost(s: string, i: nat)
    requires i < |s| && !IsBlank(s[i])
    ensures var end := TokenEnd(s, i);
            var w := s[TokenStart(s, i)..end];
            Cost(w, true) <= end - i && Cost(w, false) <= end + 1 - i
  {
    if !IsQuote(s[i]) {
      WordEndsAt(s, i);
      assert Plain(s[i..WordEnd(s, i)]);
    }
  }

  lemma {:induction false} ShortestCons(w: string, more: seq<string>)
    ensures Shortest([w] + more) == if more == [] then Cost(w, true) else Cost(w, false) + Shortest(more)
  {
    assert ([w] + more)[1..] == more;
  }

  /** No line is shorter than that. */
  lemma {:induction false} ShortestIsLowerBound(s: string, i: nat, max: nat)
    requires i <= |s|
    ensures Shortest(ParseFrom(s, i, max)) <= |s| - i
    decreases max
  {
    var b := BlankEnd(s, i);
    if max == 0 || b == |s| {
      NothingLeft(s, i, max);
    } else {
      var start, end := TokenStart(s, b), TokenEnd(s, b);
      var next := Behind(s, end);
      ParseHead(s, i, max);
      TokenCost(s, b);
      ShortestIsLowerBound(s, next, max - 1);
      if end == |s| { NothingLeft(s, next, max - 1); }
      ShortestCons(s[start..end], ParseFrom(s, next, max - 1));
    }
  }

  function QuoteFor(w: string): char { if Free(w, '"') then '"' else '\'' }

  /** A line of just that length: nothing after a closing quote, no closing quote at the end. */
  function Tight(words: seq<string>): string {
    if words == [] then []
    else
      var w := words[0];
      if |words| == 1 then (if Plain(w) then w else [QuoteFor(w)] + w)
      else (if Plain(w) then w + [' '] else [QuoteFor(w)] + w + [QuoteFor(w)]) + Tight(words[1..])
  }

  lemma {:induction false} TightIsShortest(words: seq<string>)
    ensures |Tight(words)| == Shortest(words)
  {
    if |words| > 1 { TightIsShortest(words[1..]); }
  }

  lemma {:induction false} TightIsFree(words: seq<string>, c: char)
    requires c != ' ' && !IsQuote(c) && forall k :: 0 <= k < |words| ==> Free(words[k], c)
    ensures Free(Tight(words), c)
  {
    if |words| > 1 { TightIsFree(words[1..], c); }
  }

  lemma {:induction false} LastQuotedIsNext(s: string, i: nat, quote: char, w: string)
    requires IsQuote(quote) && Free(w, quote) && i + 1 + |w| == |s| && s[i] == quote && s[i + 1..] == w
    ensures BlankEnd(s, i) == i && TokenStart(s, i) == i + 1 && TokenEnd(s, i) == |s|
  {
    assert forall k :: i + 1 <= k < |s| ==> s[k] == s[i + 1..][k - (i + 1)];
    QuoteEndIs(s, i + 1, quote, |s|);
  }

  /** The last word. */
  lemma {:induction false} TightLast(s: string, i: nat, w: string, max: nat)
    requires Typable(w) && i <= |s| && s[i..] == (if Plain(w) then w else [QuoteFor(w)] + w) && 0 < max
    ensures ParseFrom(s, i, max) == [w]
  {
    var t := s[i..];
    assert s[i] == t[0];
    if Plain(w) {
      assert s[i..i + |w|] == t[..|w|];
      PlainWordIsNext(s, i, w);
    } else {
      assert s[i + 1..] == t[1..] == w;
      LastQuotedIsNext(s, i, QuoteFor(w), w);
    }
    ParseStep(s, i, w, |s|, max);
    NothingLeft(s, |s|, max - 1);
  }

  /** A word before others, and where they start. */
  lemma {:induction false} TightFirst(s: string, i: nat, w: string, rest: string, max: nat) returns (next: nat)
    requires Typable(w) && i <= |s| && 0 < max
    requires s[i..] == (if Plain(w) then w + [' '] else [QuoteFor(w)] + w + [QuoteFor(w)]) + rest
    ensures next <= |s| && s[next..] == rest
    ensures ParseFrom(s, i, max) == [w] + ParseFrom(s, next, max - 1)
  {
    var t := s[i..];
    next := |s| - |rest|;
    assert s[next..] == t[|t| - |rest|..] == rest;
    if Plain(w) {
      assert s[i..i + |w|] == t[..|w|] == w && s[i + |w|] == t[|w|];
      PlainWordIsNext(s, i, w);
    } else {
      var q := QuoteFor(w);
      assert s[i..i + |w| + 2] == t[..|w| + 2] == [q] + w + [q];
      QuotedText(s, i, q, w);
      QuotedIsNext(s, i, q, w);
    }
    ParseStep(s, i, w, next, max);
  }

  ghost predicate TightText(words: seq<string>, text: string) {
    (forall k :: 0 <= k < |words| ==> Typable(words[k])) && text == Tight(words)
  }

  lemma {:induction false} TightStep(s: string, i: nat, words: seq<string>, max: nat) returns (next: nat)
    requires 0 < max && i <= |s| && words != [] && TightText(words, s[i..])
    ensures next <= |s| && TightText(words[1..], s[next..])
    ensures ParseFrom(s, i, max) == [words[0]] + ParseFrom(s, next, max - 1)
  {
    if |words| == 1 {
      TightLast(s, i, words[0], max);
      NothingLeft(s, |s|, max - 1);
      next := |s|;
    } else {
      next := TightFirst(s, i, words[0], Tight(words[1..]), max);
    }
  }

  lemma {:induction false} TightParses(s: string, i: nat, words: seq<string>, max: nat)
    requires |words| <= max && i <= |s| && TightText(words, s[i..])
    ensures ParseFrom(s, i, max) == words
    decreases max
  {
    if words == [] {
      assert i == |s|;
      NothingLeft(s, i, max);
    } else {
      var next := TightStep(s, i, words, max);
      TightParses(s, next, words[1..], max - 1);
    }
  }

  lemma {:induction false} TokensAreFree(s: string, i: nat, max: nat, c: char)
    requires i <= |s| && Free(s, c)
    ensures forall k :: 0 <= k < |ParseFrom(s, i, max)| ==> Free(ParseFrom(s, i, max)[k], c)
    decreases max
  {
    var b := BlankEnd(s, i);
    if max == 0 || b == |s| {
      NothingLeft(s, i, max);
    } else {
      ParseHead(s, i, max);
      TokensAreFree(s, Behind(s, TokenEnd(s, b)), max - 1, c);
    }
  }

  /** Words that a line can hold, few and short enough for it. */
  predicate Fitting(words: seq<string>, max: nat) {
    && |words| <= max && Shortest(words) < LINE_SIZE
    && forall k :: 0 <= k < |words| ==> Typable(words[k]) && Free(words[k], '\n') && Free(words[k], '\0')
  }

  /** The argument lists the prompt can produce are exactly the fitting ones. */
  lemma {:induction false} TypableIff(words: seq<string>, max: nat)
    ensures (exists line :: PromptLine(line) && ParseCommand(line, max) == words) <==> Fitting(words, max)
  {
    if Fitting(words, max) {
      var line := Tight(words);
      TightIsShortest(words);
      TightIsFree(words, '\n');
      TightIsFree(words, '\0');
      assert line[0..] == line;
      TightParses(line, 0, words, max);
      assert PromptLine(line) && ParseCommand(line, max) == words;
    }
    forall line | PromptLine(line) && ParseCommand(line, max) == words ensures Fitting(words, max) {
      TokensAreTypable(line, 0, max);
      TokensAreFree(line, 0, max, '\n');
      TokensAreFree(line, 0, max, '\0');
      ShortestIsLowerBound(line, 0, max);
    }
  }

  // ---- the join always fits --------------------------------------------

  lemma {:induction false} JoinCons(first: string, rest: seq<string>, d: char)
    ensures Join([first] + rest, d) == if rest == [] then first else first + [d] + Join(rest, d)
  {
    assert ([first] + rest)[1..] == rest;
  }

  lemma {:induction false} ParseHead(s: string, i: nat, max: nat)
    requires i <= |s| && 0 < max && BlankEnd(s, i) < |s|
    ensures var b := BlankEnd(s, i); var end := TokenEnd(s, b);
            ParseFrom(s, i, max) == [s[TokenStart(s, b)..end]] + ParseFrom(s, Behind(s, end), max - 1)
  {
  }

  lemma {:induction false} NothingLeft(s: string, i: nat, max: nat)
    requires i <= |s| && (max == 0 || BlankEnd(s, i) == |s|)
    ensures ParseFrom(s, i, max) == []
  {
  }

  lemma {:induction false} JoinFits(w: string, more: seq<string>, room: nat, left: nat)
    requires |Join(more, ' ')| <= left && |w| <= room
    requires more != [] ==> |w| + 1 + left <= room
    ensures |Join([w] + more, ' ')| <= room
  {
    JoinCons(w, more, ' ');
  }

  /** The tokens of a line, joined again, are no longer than the line. */
  lemma {:induction false} JoinNotLonger(s: string, i: nat, max: nat)
    requires i <= |s|
    ensures |Join(ParseFrom(s, i, max), ' ')| <= |s| - i
    decreases max
  {
    var b := BlankEnd(s, i);
    if max == 0 || b == |s| {
      NothingLeft(s, i, max);
    } else {
      var start, end := TokenStart(s, b), TokenEnd(s, b);
      var next := Behind(s, end);
      JoinNotLonger(s, next, max - 1);
      ParseHead(s, i, max);
      if end == |s| { NothingLeft(s, next, max - 1); }
      JoinFits(s[start..end], ParseFrom(s, next, max - 1), |s| - i, |s| - next);
    }
  }

  lemma {:induction false} JoinSuffixShorter(words: seq<string>, k: nat, d: char)
    requires k <= |words|
    ensures |Join(words[k..], d)| <= |Join(words, d)|
    decreases k
  {
    if k == 0 {
      assert words[k..] == words;
    } else {
      assert words[1..][k - 1..] == words[k..];
      JoinSuffixShorter(words[1..], k - 1, d);
    }
  }

  lemma {:induction false} JoinSnoc(words: seq<string>, last: string, d: char)
    ensures Join(words + [last], d) == Join(words, d) + (if words == [] then [] else [d]) + last
  {
    if words == [] {
      assert words + [last] == [last];
    } else {
      var w, more := words[0], words[1..];
      JoinSnoc(more, last, d);
      assert words + [last] == [w] + (more + [last]) && words == [w] + more;
      JoinCons(w, more + [last], d);
      JoinCons(w, more, d);
      if more == [] { assert Join(more, d) == []; }
    }
  }

  lemma {:induction false} JoinPrefixShorter(words: seq<string>, k: nat, d: char)
    requires k <= |words|
    ensures |Join(words[..k], d)| <= |Join(words, d)|
    decreases |words| - k
  {
    if k == |words| {
      assert words[..k] == words;
    } else {
      assert words[..k + 1] == words[..k] + [words[k]];
      JoinSnoc(words[..k], words[k], d);
      JoinPrefixShorter(words, k + 1, d);
    }
  }

  /** So "command is too long" is never printed: a typed line is shorter than the command buffer. */
  lemma {:induction false} CommandNeverTooLong(line: string, k: nat)
    requires |line| < LINE_SIZE
    ensures var args := ParseCommand(line, MAX_ARGS);
            k <= |args| ==> |Join(args[k..], ' ')| < COMMAND_SIZE
  {
    var args := ParseCommand(line, MAX_ARGS);
    JoinNotLonger(line, 0, MAX_ARGS);
    if k <= |args| { JoinSuffixShorter(args, k, ' '); }
  }

  /** Every way the split can end, for any command. */
  lemma {:induction false} ArgvMeans(command: string)
    ensures var n := |Tokens(command, ' ')|;
            BuildExecArgv(command) ==
              if |command| >= 256 then Failed(ENAMETOOLONG)
              else if n == 0 then Failed(EINVAL)
              else if n >= 32 then Failed(E2BIG) else Argv(Tokens(command, ' '))
  {
    if command == "" { assert Tokens(command, ' ') == []; }
  }

  // ---- the child gets the same words -----------------------------------

  /**
    For any typed line and any split of its arguments into the first `k` >= 4 and a non-empty
    command, the child's argument vector is the command's words if and only if each of them is
    non-empty and free of spaces; ENAMETOOLONG never occurs, and E2BIG only with such a word.
  */
  lemma {:induction false} CommandRoundTrip(line: string, k: nat)
    requires |line| < LINE_SIZE && 4 <= k
    ensures var args := ParseCommand(line, MAX_ARGS);
            k < |args| ==>
              var words := args[k..];
              var argv := BuildExecArgv(Join(words, ' '));
              && (argv == Argv(words) <==> forall w <- words :: Word(w, ' '))
              && argv != Failed(ENAMETOOLONG)
              && (argv == Failed(E2BIG) ==> exists w <- words :: !Word(w, ' '))
  {
    var args := ParseCommand(line, MAX_ARGS);
    CommandNeverTooLong(line, k);
    if k < |args| { WordsSplitBack(args[k..]); }
  }

  lemma {:induction false} WordsSplitBack(words: seq<string>)
    requires 0 < |words| < MAX_ARGS && |Join(words, ' ')| < COMMAND_SIZE
    ensures var argv := BuildExecArgv(Join(words, ' '));
            && (argv == Argv(words) <==> forall w <- words :: Word(w, ' '))
            && argv != Failed(ENAMETOOLONG)
            && (argv == Failed(E2BIG) ==> exists w <- words :: !Word(w, ' '))
  {
    SplitJoinIff(words, ' ');
    if forall w <- words :: Word(w, ' ') {
      assert words[0] in words;
      assert Join(words, ' ') != "" by {
        JoinCons(words[0], words[1..], ' ');
        assert words == [words[0]] + words[1..];
      }
    }
  }

  /** Quoting an argument with a space in it does not help: the child splits it again. */
  lemma {:induction false} QuotedSpaceIsSplit()
    ensures var words := ["echo", "a b"]; BuildExecArgv(Join(words, ' ')) != Argv(words)
  {
    var words := ["echo", "a b"];
    assert "a b"[1] == ' ' && words[1] in words;
    SplitJoinIff(words, ' ');
  }
}
