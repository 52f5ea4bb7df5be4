/**
  The C text routines the runtime leans on, as functions on strings: decimal printing and
  scanning, `strtok`, `fgets`, `strstr`, bounded copies.  A string here is the text of a C
  string, without its terminator.
*/
module Text {

  datatype Option<+T> = None | Some(value: T)

  // ---- decimal numbers -------------------------------------------------

  predicate IsDigit(c: char) { '0' <= c <= '9' }

  function Digit(d: nat): (c: char)
    requires d < 10
    ensures IsDigit(c) && DigitValue(c) == d
  {
    ('0' as int + d) as char
  }

  function DigitValue(c: char): nat
    requires IsDigit(c)
  {
    c as int - '0' as int
  }

  predicate AllDigits(s: string) { forall i :: 0 <= i < |s| ==> IsDigit(s[i]) }

  /** `%u`. */
  function PrintNat(n: nat): (s: string)
    ensures s != [] && AllDigits(s)
  {
    if n < 10 then [Digit(n)] else PrintNat(n / 10) + [Digit(n % 10)]
  }

  /** `%d`. */
  function PrintInt(n: int): string { if n < 0 then "-" + PrintNat(-n) else PrintNat(n) }

  function DigitsValue(s: string): nat
    requires AllDigits(s)
  {
    if s == [] then 0 else DigitsValue(s[..|s| - 1]) * 10 + DigitValue(s[|s| - 1])
  }

  lemma {:induction false} PrintedValue(n: nat)
    ensures DigitsValue(PrintNat(n)) == n
  {
    if 10 <= n {
      var s := PrintNat(n);
      assert s[..|s| - 1] == PrintNat(n / 10);
      PrintedValue(n / 10);
    }
  }

  function Power10(k: nat): nat { if k == 0 then 1 else 10 * Power10(k - 1) }

  lemma {:induction false} PrintedLength(n: nat, k: nat)
    requires 1 <= k && n < Power10(k)
    ensures |PrintNat(n)| <= k
  {
    if 10 <= n {
      assert k != 1;
      PrintedLength(n / 10, k - 1);
    }
  }

  lemma {:induction false} ZerosDoNotCount(zeros: string, s: string)
    requires AllDigits(s) && forall i :: 0 <= i < |zeros| ==> zeros[i] == '0'
    ensures AllDigits(zeros + s) && DigitsValue(zeros + s) == DigitsValue(s)
    decreases |s| + |zeros|
  {
    if s == [] {
      assert zeros + s == zeros;
      if zeros != [] {
        ZerosDoNotCount(zeros[..|zeros| - 1], s);
        assert zeros[..|zeros| - 1] + s == zeros[..|zeros| - 1];
      }
    } else {
      ZerosDoNotCount(zeros, s[..|s| - 1]);
      assert (zeros + s)[..|zeros + s| - 1] == zeros + s[..|s| - 1];
    }
  }

  predicate IsSpace(c: char) { c == ' ' || '\t' <= c <= '\r' }

  function SkipSpaces(s: string): string {
    if s != [] && IsSpace(s[0]) then SkipSpaces(s[1..]) else s
  }

  function LeadingDigits(s: string): (r: string)
    ensures AllDigits(r)
  {
    if s != [] && IsDigit(s[0]) then [s[0]] + LeadingDigits(s[1..]) else []
  }

  lemma {:induction false} LeadingDigitsOf(s: string)
    requires AllDigits(s)
    ensures LeadingDigits(s) == s
  {
    if s != [] { LeadingDigitsOf(s[1..]); }
  }

  /** What `%d`, `atoi` and `strtoul` scan: spaces, a sign, digits; None without a digit. */
  function ScanNumber(s: string): Option<(bool, nat)> {
    var t := SkipSpaces(s);
    var negative := t != [] && t[0] == '-';
    var u := if t != [] && (t[0] == '-' || t[0] == '+') then t[1..] else t;
    var ds := LeadingDigits(u);
    if ds == [] then None else Some((negative, DigitsValue(ds)))
  }

  function Signed(n: (bool, nat)): int { if n.0 then 0 - n.1 else n.1 }

  const ULONG_RANGE: nat := 0x1_0000_0000_0000_0000
  const UINT_RANGE: nat := 0x1_0000_0000
  const INT_RANGE: nat := 0x8000_0000
  const LONG_MAX := 0x7fff_ffff_ffff_ffff

  /** `(int)strtol(...)`: saturate at 64 bits, keep the low 32 as a signed number. */
  function ToInt(n: int): (r: int)
    ensures 0 <= r + INT_RANGE < UINT_RANGE
  {
    var v := if n > LONG_MAX then LONG_MAX else if n < -LONG_MAX - 1 then -LONG_MAX - 1 else n;
    var low := v % UINT_RANGE;
    if low >= INT_RANGE then low - UINT_RANGE else low
  }

  lemma {:induction false} ToIntKeeps(n: int)
    requires 0 <= n + INT_RANGE < UINT_RANGE
    ensures ToInt(n) == n
  {
    if n < 0 { assert n % UINT_RANGE == n + UINT_RANGE; }
  }

  function Atoi(s: string): int {
    match ScanNumber(s)
    case None => 0
    case Some(n) => ToInt(Signed(n))
  }

  /** `(unsigned int)strtoul(s, NULL, 10)`: saturate at 64 bits, negate modulo, truncate to 32. */
  function StrtoulUint(s: string): (r: nat)
    ensures r < UINT_RANGE
  {
    match ScanNumber(s)
    case None => 0
    case Some((negative, n)) =>
      var v := if n >= ULONG_RANGE then ULONG_RANGE - 1 else if negative then (ULONG_RANGE - n) % ULONG_RANGE else n;
      v % UINT_RANGE
  }

  lemma {:induction false} ScanDigits(s: string)
    requires s != [] && AllDigits(s)
    ensures ScanNumber(s) == Some((false, DigitsValue(s)))
  {
    assert IsDigit(s[0]);
    assert SkipSpaces(s) == s;
    LeadingDigitsOf(s);
  }

  lemma {:induction false} ScanPrinted(n: nat)
    ensures ScanNumber(PrintNat(n)) == Some((false, n))
  {
    ScanDigits(PrintNat(n));
    PrintedValue(n);
  }

  lemma {:induction false} ScanNegative(n: nat)
    ensures ScanNumber("-" + PrintNat(n)) == Some((true, n))
  {
    var s := "-" + PrintNat(n);
    assert s[1..] == PrintNat(n) && SkipSpaces(s) == s;
    LeadingDigitsOf(PrintNat(n));
    PrintedValue(n);
  }

  lemma {:induction false} AtoiInverts(n: int)
    requires 0 <= n + INT_RANGE < UINT_RANGE
    ensures Atoi(PrintInt(n)) == n
  {
    if n < 0 { ScanNegative(-n); } else { ScanPrinted(n); }
    ToIntKeeps(n);
  }

  lemma {:induction false} StrtoulInverts(n: nat)
    requires n < UINT_RANGE
    ensures StrtoulUint(PrintNat(n)) == n
  {
    ScanPrinted(n);
  }

  // ---- tokens and lines ------------------------------------------------

  predicate Free(s: string, d: char) { forall i :: 0 <= i < |s| ==> s[i] != d }

  /** Length of the longest prefix without `d`. */
  function Span(s: string, d: char): (n: nat)
    ensures n <= |s| && Free(s[..n], d) && (n < |s| ==> s[n] == d)
  {
    if s == [] || s[0] == d then 0 else 1 + Span(s[1..], d)
  }

  /** `strtok` to exhaustion: the maximal runs of other characters. */
  function Tokens(s: string, d: char): seq<string>
    decreases |s|
  {
    if s == [] then []
    else if s[0] == d then Tokens(s[1..], d)
    else var n := Span(s, d); [s[..n]] + Tokens(s[n..], d)
  }

  function Join(fields: seq<string>, d: char): string {
    if fields == [] then []
    else if |fields| == 1 then fields[0]
    else fields[0] + [d] + Join(fields[1..], d)
  }

  lemma {:induction false} JoinConcat(a: seq<string>, b: seq<string>, d: char)
    requires a != [] && b != []
    ensures Join(a + b, d) == Join(a, d) + [d] + Join(b, d)
  {
    if |a| == 1 {
      assert (a + b)[0] == a[0] && (a + b)[1..] == b;
    } else {
      assert (a + b)[0] == a[0] && (a + b)[1..] == a[1..] + b;
      JoinConcat(a[1..], b, d);
    }
  }

  predicate Word(s: string, d: char) { s != [] && Free(s, d) }

  lemma {:induction false} SpanOfPrefix(a: string, b: string, d: char)
    requires Free(a, d) && (b == [] || b[0] == d)
    ensures Span(a + b, d) == |a|
  {
    var s, n := a + b, Span(a + b, d);
    assert s[..|a|] == a && s[|a|..] == b;
    assert forall i :: 0 <= i < n ==> s[..n][i] == s[i];
  }

  /** Splitting undoes joining, as long as every field is a word. */
  lemma {:induction false} TokensOfJoin(fields: seq<string>, d: char)
    requires forall f <- fields :: Word(f, d)
    ensures Tokens(Join(fields, d), d) == fields
  {
    if fields != [] {
      var f, s := fields[0], Join(fields, d);
      var rest := if |fields| == 1 then [] else [d] + Join(fields[1..], d);
      assert f in fields && s == f + rest;
      assert s[0] == f[0];
      SpanOfPrefix(f, rest, d);
      assert s[..|f|] == f && s[|f|..] == rest;
      if |fields| > 1 {
        TokensOfJoin(fields[1..], d);
        assert rest[1..] == Join(fields[1..], d);
        assert Tokens(rest, d) == fields[1..];
      } else {
        assert Tokens(rest, d) == [];
      }
    }
  }

  /** The first token is what stands in front of the first separator. */
  lemma {:induction false} FirstToken(a: string, b: string, d: char)
    requires Word(a, d) && b != [] && b[0] == d
    ensures Tokens(a + b, d) == [a] + Tokens(b, d)
  {
    var s := a + b;
    assert s[0] == a[0];
    SpanOfPrefix(a, b, d);
    assert s[..|a|] == a && s[|a|..] == b;
  }

  /** Tokens are words, made of the text's own characters. */
  lemma {:induction false} TokensAreWords(s: string, d: char)
    ensures forall t <- Tokens(s, d) :: Word(t, d) && forall c <- t :: c in s
    decreases |s|
  {
    if s != [] {
      if s[0] == d {
        TokensAreWords(s[1..], d);
      } else {
        var n := Span(s, d);
        TokensAreWords(s[n..], d);
        assert forall c <- s[n..] :: c in s;
      }
    }
  }

  /** The text without the separators. */
  function Without(s: string, d: char): string {
    if s == [] then [] else (if s[0] == d then [] else [s[0]]) + Without(s[1..], d)
  }

  function Flatten(parts: seq<string>): string { if parts == [] then [] else parts[0] + Flatten(parts[1..]) }

  lemma {:induction false} WithoutPrefix(s: string, d: char, n: nat)
    requires n <= |s| && Free(s[..n], d)
    ensures Without(s, d) == s[..n] + Without(s[n..], d)
  {
    if n == 0 {
      assert s[0..] == s;
    } else {
      assert s[0] == s[..n][0] && s[1..][..n - 1] == s[..n][1..] && s[1..][n - 1..] == s[n..];
      WithoutPrefix(s[1..], d, n - 1);
      assert s[..n] == [s[0]] + s[1..][..n - 1];
    }
  }

  /** Nothing but separators is lost, and nothing changes place. */
  lemma {:induction false} TokensKeepText(s: string, d: char)
    ensures Flatten(Tokens(s, d)) == Without(s, d)
    decreases |s|
  {
    if s != [] {
      if s[0] == d {
        TokensKeepText(s[1..], d);
      } else {
        var n := Span(s, d);
        TokensKeepText(s[n..], d);
        WithoutPrefix(s, d, n);
        assert ([s[..n]] + Tokens(s[n..], d))[1..] == Tokens(s[n..], d);
      }
    }
  }

  /** Splitting undoes joining exactly for words. */
  lemma {:induction false} SplitJoinIff(fields: seq<string>, d: char)
    ensures Tokens(Join(fields, d), d) == fields <==> forall f <- fields :: Word(f, d)
  {
    if forall f <- fields :: Word(f, d) {
      TokensOfJoin(fields, d);
    }
    TokensAreWords(Join(fields, d), d);
  }

  /** How many bytes one `fgets` call with a `cap`+1 byte buffer consumes. */
  function LineLength(s: string, cap: nat): (n: nat)
    requires s != [] && 0 < cap
    ensures 1 <= n <= |s| && n <= cap
    ensures forall i :: 0 <= i < n - 1 ==> s[i] != '\n'
    ensures n == |s| || n == cap || s[n - 1] == '\n'
    decreases |s|
  {
    if s[0] == '\n' || |s| == 1 || cap == 1 then 1 else 1 + LineLength(s[1..], cap - 1)
  }

  const LINE_CAP: nat := 1023

  /** The successive results of `fgets(buffer, 1024, file)` over a whole file. */
  function Lines(s: string): seq<string>
    decreases |s|
  {
    if s == [] then [] else var n := LineLength(s, LINE_CAP); [s[..n]] + Lines(s[n..])
  }

  /** One read: not empty, no newline but at its end, and complete unless it is the last. */
  predicate OneRead(l: string, last: bool) {
    0 < |l| <= 1023 && Free(l[..|l| - 1], '\n') && (last || l[|l| - 1] == '\n' || |l| == 1023)
  }

  lemma {:induction false} FirstRead(s: string, n: nat)
    requires s != [] && n == LineLength(s, LINE_CAP)
    ensures OneRead(s[..n], n == |s|)
  {
    assert forall i :: 0 <= i < n - 1 ==> s[..n][..n - 1][i] == s[i];
  }

  /** The reads put together are the file, and each is one read. */
  lemma {:induction false} LinesAreTheFile(s: string)
    ensures Flatten(Lines(s)) == s
    ensures forall k :: 0 <= k < |Lines(s)| ==> OneRead(Lines(s)[k], k == |Lines(s)| - 1)
    decreases |s|
  {
    if s != [] {
      var n := LineLength(s, LINE_CAP);
      FirstRead(s, n);
      LinesAreTheFile(s[n..]);
      var l, more := s[..n], Lines(s[n..]);
      assert Lines(s) == [l] + more && ([l] + more)[1..] == more && l + s[n..] == s;
      assert n < |s| ==> more != [];
    }
  }

  lemma {:induction false} LineLengthIs(s: string, cap: nat, n: nat)
    requires 1 <= n <= |s| && n <= cap
    requires forall i :: 0 <= i < n - 1 ==> s[i] != '\n'
    requires n == |s| || n == cap || s[n - 1] == '\n'
    ensures LineLength(s, cap) == n
  {
    var m := LineLength(s, cap);
    assert m == |s| || m == cap || s[m - 1] == '\n';
  }

  /** One whole line that fits is read at once. */
  lemma {:induction false} WholeLineIsOneRead(l: string, rest: string)
    requires l != [] && l[|l| - 1] == '\n' && Free(l[..|l| - 1], '\n') && |l| <= LINE_CAP
    ensures Lines(l + rest) == [l] + Lines(rest)
  {
    var s := l + rest;
    assert forall i :: 0 <= i < |l| - 1 ==> s[i] == l[..|l| - 1][i];
    LineLengthIs(s, LINE_CAP, |l|);
    assert s[..|l|] == l && s[|l|..] == rest;
  }

  /** `line[strcspn(line, "\r\n")] = '\0'`. */
  function TrimNewline(s: string): string {
    if s == [] || s[0] == '\r' || s[0] == '\n' then [] else [s[0]] + TrimNewline(s[1..])
  }

  lemma {:induction false} TrimCuts(a: string, b: string)
    requires Free(a, '\r') && Free(a, '\n') && (b == [] || b[0] == '\n')
    ensures TrimNewline(a + b) == a
  {
    if a == [] {
      assert a + b == b;
    } else {
      assert (a + b)[1..] == a[1..] + b;
      TrimCuts(a[1..], b);
    }
  }

  lemma {:induction false} TrimBehind(a: string, b: string)
    requires Free(a, '\r') && Free(a, '\n')
    ensures TrimNewline(a + b) == a + TrimNewline(b)
  {
    if a == [] {
      assert a + b == b && a + TrimNewline(b) == TrimNewline(b);
    } else {
      assert (a + b)[1..] == a[1..] + b;
      TrimBehind(a[1..], b);
    }
  }

  lemma {:induction false} TrimmedIsClean(s: string)
    ensures Free(TrimNewline(s), '\r') && Free(TrimNewline(s), '\n')
    ensures |TrimNewline(s)| <= |s|
  {
    if s != [] { TrimmedIsClean(s[1..]); }
  }

  /** `snprintf(dst, size, "%s", src)`. */
  function Copy(s: string, size: nat): (r: string)
    requires 0 < size
    ensures r <= s && |r| == (if |s| < size then |s| else size - 1)
  {
    if |s| < size then s else s[..size - 1]
  }

  // ---- searching -------------------------------------------------------

  /** `strstr`: the first position at which `key` starts. */
  function Find(s: string, key: string): (r: Option<nat>)
    ensures r.Some? ==> r.value + |key| <= |s|
  {
    if key <= s then Some(0)
    else if s == [] then None
    else
      match Find(s[1..], key)
      case None => None
      case Some(i) => Some(i + 1)
  }

  /** The first occurrence is at `n` if the key is there and nowhere earlier. */
  lemma {:induction false} FindIs(s: string, key: string, n: nat)
    requires n <= |s| && key <= s[n..]
    requires forall i :: 0 <= i < n ==> !(key <= s[i..])
    ensures Find(s, key) == Some(n)
  {
    assert s[0..] == s;
    if n > 0 {
      assert s[1..][n - 1..] == s[n..];
      forall i | 0 <= i < n - 1 ensures !(key <= s[1..][i..]) { assert s[1..][i..] == s[i + 1..]; }
      FindIs(s[1..], key, n - 1);
    }
  }

  /** What is found is there. */
  lemma {:induction false} Found(s: string, key: string)
    requires Find(s, key).Some?
    ensures key <= s[Find(s, key).value..]
  {
    if key <= s {
      assert s[0..] == s;
    } else {
      Found(s[1..], key);
      assert s[1..][Find(s[1..], key).value..] == s[Find(s, key).value..];
    }
  }

  /** What is not found is nowhere. */
  lemma {:induction false} NotFound(s: string, key: string, n: nat)
    requires Find(s, key).None? && n <= |s|
    ensures !(key <= s[n..])
  {
    if n == 0 { assert s[n..] == s; } else {
      assert s[1..][n - 1..] == s[n..];
      NotFound(s[1..], key, n - 1);
    }
  }
}
