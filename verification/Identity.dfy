/** Container ids: `container-%04d` printed by create, `container-%d` scanned back at start-up. */
module Identity {
  import opened Text
  import opened Metadata

  const PREFIX := "container-"

  function Zeros(n: nat): (s: string)
    ensures |s| == n && forall i :: 0 <= i < n ==> s[i] == '0'
  {
    if n == 0 then "" else "0" + Zeros(n - 1)
  }

  /** `%04d` of a non-negative number. */
  function Padded(n: nat): string {
    var s := PrintNat(n);
    if |s| < 4 then Zeros(4 - |s|) + s else s
  }

  function FormatId(n: nat): string { PREFIX + Padded(n) }

  /** `sscanf(id, "container-%d", &value)`. */
  function ScanId(id: string): Option<int> {
    if !(PREFIX <= id) then None
    else
      match ScanNumber(id[|PREFIX|..])
      case None => None
      case Some(n) => Some(ToInt(Signed(n)))
  }

  lemma {:induction false} PaddedValue(n: nat)
    ensures Padded(n) != [] && AllDigits(Padded(n)) && DigitsValue(Padded(n)) == n
  {
    var s := PrintNat(n);
    PrintedValue(n);
    if |s| < 4 { ZerosDoNotCount(Zeros(4 - |s|), s); }
  }

  /** An id is the prefix and the number, filled up with zeros to four digits. */
  lemma {:induction false} IdShape(n: nat)
    ensures |FormatId(n)| == 10 + (if |PrintNat(n)| < 4 then 4 else |PrintNat(n)|)
    ensures FormatId(n)[..10] == "container-" && FormatId(n)[|FormatId(n)| - |PrintNat(n)|..] == PrintNat(n)
    ensures forall i :: 10 <= i < |FormatId(n)| - |PrintNat(n)| ==> FormatId(n)[i] == '0'
  {
    var s, zeros := PrintNat(n), Zeros(if |PrintNat(n)| < 4 then 4 - |PrintNat(n)| else 0);
    assert FormatId(n) == PREFIX + (zeros + s);
  }

  /** Scanning inverts printing for every number an int can hold. */
  lemma {:induction false} ScanInvertsFormat(n: nat)
    requires n < INT_RANGE
    ensures ScanId(FormatId(n)) == Some(n)
  {
    PaddedValue(n);
    ScanDigits(Padded(n));
    assert FormatId(n)[|PREFIX|..] == Padded(n);
    ToIntKeeps(n);
  }

  lemma {:induction false} IdsAreDistinct(m: nat, n: nat)
    ensures FormatId(m) == FormatId(n) <==> m == n
  {
    PaddedValue(m);
    PaddedValue(n);
    assert FormatId(m)[|PREFIX|..] == Padded(m) && FormatId(n)[|PREFIX|..] == Padded(n);
  }

  lemma {:induction false} IdIsClean(n: nat)
    requires n < INT_RANGE
    ensures CleanText(FormatId(n)) && |FormatId(n)| < ID_LEN
  {
    PaddedValue(n);
    var s := Padded(n);
    assert forall i :: 0 <= i < |s| ==> IsDigit(s[i]);
    assert Power10(10) == 10000000000;
    PrintedLength(n, 10);
    var id := FormatId(n);
    assert forall i :: 0 <= i < |id| ==> id[i] == (if i < 10 then PREFIX[i] else s[i - 10]);
    assert PREFIX == ['c', 'o', 'n', 't', 'a', 'i', 'n', 'e', 'r', '-'];
  }

  /** `update_next_sequence`. */
  function Bump(next: nat, id: string): nat {
    match ScanId(id)
    case None => next
    case Some(v) => if v >= next then v + 1 else next
  }

  function BumpAll(next: nat, rs: seq<Record>): nat {
    if rs == [] then next else Bump(BumpAll(next, rs[..|rs| - 1]), rs[|rs| - 1].id)
  }

  /** The number an id carries. */
  function Number(r: Record): int {
    match ScanId(r.id)
    case None => 0
    case Some(v) => v
  }

  /** After loading any list, the sequence exceeds every number on it. */
  lemma {:induction false} BumpExceedsAll(next: nat, rs: seq<Record>)
    requires 1 <= next
    ensures next <= BumpAll(next, rs) && forall r <- rs :: Number(r) < BumpAll(next, rs)
  {
    if rs != [] {
      var last := |rs| - 1;
      assert rs == rs[..last] + [rs[last]];
      BumpExceedsAll(next, rs[..last]);
    }
  }

  /** And by no more than one. */
  lemma {:induction false} BumpIsTight(next: nat, rs: seq<Record>, bound: nat)
    requires next <= bound && forall r <- rs :: Number(r) < bound
    ensures BumpAll(next, rs) <= bound
  {
    if rs != [] {
      var last := |rs| - 1;
      assert rs[last] in rs && forall r <- rs[..last] :: r in rs;
      BumpIsTight(next, rs[..last], bound);
    }
  }
}
