/**
  `save_metadata` at the level of the disk: truncate a temporary file, write to it, close it,
  rename it over `containers.meta`.  Any of these may fail and the machine may stop between
  any two of them.
*/
module Persistence {
  import opened Text
  import opened Metadata

  datatype DiskEvent = OpenTmp | WriteTmp(text: string) | RenameTmp

  datatype Disk = Disk(meta: Option<string>, tmp: Option<string>)

  function Apply(d: Disk, e: DiskEvent): Disk {
    match e
    case OpenTmp => d.(tmp := Some(""))
    case WriteTmp(text) => if d.tmp.None? then d else d.(tmp := Some(d.tmp.value + text))
    case RenameTmp => if d.tmp.None? then d else Disk(d.tmp, None)
  }

  function Replay(d: Disk, es: seq<DiskEvent>): Disk {
    if es == [] then d else Apply(Replay(d, es[..|es| - 1]), es[|es| - 1])
  }

  /**
    How one call of `save_metadata` goes.  `written` is what reaches the temporary file, in the
    pieces in which it reaches it; the return values of `fprintf` are not looked at.
  */
  datatype SaveOutcome =
    | OpenFails
    | CloseFails(written: seq<string>)
    | RenameFails(written: seq<string>)
    | Saved(written: seq<string>)

  function Concat(parts: seq<string>): string {
    if parts == [] then "" else Concat(parts[..|parts| - 1]) + parts[|parts| - 1]
  }

  function Writes(parts: seq<string>): (es: seq<DiskEvent>)
    ensures |es| == |parts| && forall i :: 0 <= i < |es| ==> es[i] == WriteTmp(parts[i])
  {
    seq(|parts|, i requires 0 <= i < |parts| => WriteTmp(parts[i]))
  }

  function SaveEvents(o: SaveOutcome): seq<DiskEvent> {
    match o
    case OpenFails => []
    case CloseFails(parts) => [OpenTmp] + Writes(parts)
    case RenameFails(parts) => [OpenTmp] + Writes(parts)
    case Saved(parts) => [OpenTmp] + Writes(parts) + [RenameTmp]
  }

  /** A write that was lost makes `fclose` fail, so a save that succeeds wrote everything. */
  predicate Honest(rs: seq<Record>, o: SaveOutcome) { o.Saved? ==> Concat(o.written) == Render(rs) }

  /** The same call if lost writes do surface at `fclose`. */
  function Surfaced(rs: seq<Record>, o: SaveOutcome): (r: SaveOutcome)
    ensures Honest(rs, r) && (r.Saved? ==> o == r)
  {
    if o.Saved? && Concat(o.written) != Render(rs) then CloseFails(o.written) else o
  }

  function Renames(es: seq<DiskEvent>): nat {
    if es == [] then 0 else Renames(es[..|es| - 1]) + (if es[|es| - 1].RenameTmp? then 1 else 0)
  }

  // ---- one save --------------------------------------------------------

  lemma {:induction false} ReplayConcat(d: Disk, a: seq<DiskEvent>, b: seq<DiskEvent>)
    ensures Replay(d, a + b) == Replay(Replay(d, a), b)
    ensures Renames(a + b) == Renames(a) + Renames(b)
  {
    if b == [] {
      assert a + b == a;
    } else {
      assert (a + b)[..|a + b| - 1] == a + b[..|b| - 1];
      ReplayConcat(d, a, b[..|b| - 1]);
    }
  }

  lemma {:induction false} WritesOnlyTouchTmp(d: Disk, parts: seq<string>)
    ensures var es := [OpenTmp] + Writes(parts);
            Replay(d, es) == Disk(d.meta, Some(Concat(parts))) && Renames(es) == 0
  {
    var es := [OpenTmp] + Writes(parts);
    if parts == [] {
      assert es == [OpenTmp] && es[..0] == [];
      assert Replay(d, es) == Apply(Replay(d, []), OpenTmp);
    } else {
      var last := |parts| - 1;
      assert es[..|es| - 1] == [OpenTmp] + Writes(parts[..last]);
      WritesOnlyTouchTmp(d, parts[..last]);
    }
  }

  /** Until the rename nothing happens to `containers.meta`; the rename publishes what was written. */
  lemma {:induction false} SavePrefix(d: Disk, o: SaveOutcome, k: nat)
    requires k <= |SaveEvents(o)|
    ensures var d' := Replay(d, SaveEvents(o)[..k]);
            && d'.meta == (if o.Saved? && k == |SaveEvents(o)| then Some(Concat(o.written)) else d.meta)
            && Renames(SaveEvents(o)[..k]) == (if o.Saved? && k == |SaveEvents(o)| then 1 else 0)
  {
    var es := SaveEvents(o);
    if k == 0 || es == [] {
      assert es[..k] == [];
    } else {
      var body := [OpenTmp] + Writes(o.written);
      if k <= |body| {
        var parts := o.written[..k - 1];
        assert es[..k] == [OpenTmp] + Writes(parts);
        WritesOnlyTouchTmp(d, parts);
      } else {
        assert es[..k] == es && es[..|es| - 1] == body;
        WritesOnlyTouchTmp(d, o.written);
      }
    }
  }

  /** A lost write that `fclose` does not report leaves a partial file in place of a complete one. */
  lemma {:induction false} LostWritePublished(d: Disk, r: Record)
    ensures var o := Saved([]);
            && !Honest([r], o)
            && Replay(d, SaveEvents(o)).meta == Some("") && Some("") != Some(Render([r]))
  {
    var o := Saved([]);
    SavePrefix(d, o, |SaveEvents(o)|);
    assert SaveEvents(o)[..|SaveEvents(o)|] == SaveEvents(o);
    assert Render([r]) == Line(r) + Render([]);
  }

  // ---- any number of saves ---------------------------------------------

  /** The disk a run started with, what it did to it, and the lists it saved successfully. */
  datatype Files = Files(origin: Disk, io: seq<DiskEvent>, saves: seq<seq<Record>>)

  function Meta(f: Files): Option<string> { Replay(f.origin, f.io).meta }

  /** What `containers.meta` must hold when `n` saves have gone through. */
  function Published(f: Files, n: nat): Option<string>
    requires n <= |f.saves|
  {
    if n == 0 then f.origin.meta else Some(Render(f.saves[n - 1]))
  }

  /**
    At every prefix of the disk's history the file is the one the run started with or the
    complete rendering of the list at the last save that had succeeded by then.
  */
  ghost predicate Consistent(f: Files) {
    && Renames(f.io) == |f.saves|
    && forall k :: 0 <= k <= |f.io| ==> ConsistentAt(f, k)
  }

  ghost predicate ConsistentAt(f: Files, k: nat)
    requires k <= |f.io|
  {
    && Renames(f.io[..k]) <= |f.saves|
    && Replay(f.origin, f.io[..k]).meta == Published(f, Renames(f.io[..k]))
  }

  function Save(f: Files, rs: seq<Record>, o: SaveOutcome): Files {
    f.(io := f.io + SaveEvents(o), saves := if o.Saved? then f.saves + [rs] else f.saves)
  }

  /** Two histories that agree up to `k` are consistent there together. */
  lemma {:induction false} AgreeAt(f: Files, g: Files, k: nat, n: nat)
    requires k <= |f.io| && k <= |g.io| && f.io[..k] == g.io[..k] && f.origin == g.origin
    requires n == Renames(f.io[..k]) <= |g.saves| && n <= |f.saves| && f.saves[..n] == g.saves[..n]
    requires ConsistentAt(f, k)
    ensures ConsistentAt(g, k)
  {
    assert n > 0 ==> f.saves[n - 1] == f.saves[..n][n - 1] && g.saves[n - 1] == g.saves[..n][n - 1];
  }

  lemma {:induction false} MetaIsPublished(f: Files)
    requires Consistent(f)
    ensures Meta(f) == Published(f, |f.saves|)
  {
    assert ConsistentAt(f, |f.io|);
    assert f.io[..|f.io|] == f.io;
  }

  /** Events of which no proper part changes the file, and which together publish `list` if anything. */
  ghost predicate Atomic(es: seq<DiskEvent>, list: Option<seq<Record>>) {
    forall d: Disk, k :: 0 <= k <= |es| ==> AtomicAt(d, es, k, list)
  }

  ghost predicate AtomicAt(d: Disk, es: seq<DiskEvent>, k: nat, list: Option<seq<Record>>)
    requires k <= |es|
  {
    if list.Some? && k == |es|
    then Replay(d, es[..k]).meta == Some(Render(list.value)) && Renames(es[..k]) == 1
    else Replay(d, es[..k]).meta == d.meta && Renames(es[..k]) == 0
  }

  lemma {:induction false} SaveIsAtomic(rs: seq<Record>, o: SaveOutcome)
    requires Honest(rs, o)
    ensures Atomic(SaveEvents(o), if o.Saved? then Some(rs) else None)
  {
    var es, list := SaveEvents(o), if o.Saved? then Some(rs) else None;
    forall d: Disk, k | 0 <= k <= |es| ensures AtomicAt(d, es, k, list) {
      SavePrefix(d, o, k);
    }
  }

  function Extend(f: Files, es: seq<DiskEvent>, list: Option<seq<Record>>): Files {
    f.(io := f.io + es, saves := if list.Some? then f.saves + [list.value] else f.saves)
  }

  lemma {:induction false} AfterExtend(f: Files, es: seq<DiskEvent>, list: Option<seq<Record>>, k: nat)
    requires Meta(f) == Published(f, |f.saves|) && Renames(f.io) == |f.saves| && k <= |es|
    requires AtomicAt(Replay(f.origin, f.io), es, k, list)
    ensures ConsistentAt(Extend(f, es, list), |f.io| + k)
    ensures Renames(f.io + es[..k]) == |f.saves| + if list.Some? && k == |es| then 1 else 0
  {
    var part := es[..k];
    assert Extend(f, es, list).io[..|f.io| + k] == f.io + part;
    ReplayConcat(f.origin, f.io, part);
  }

  lemma {:induction false} BeforeExtend(f: Files, es: seq<DiskEvent>, list: Option<seq<Record>>, k: nat)
    requires Consistent(f) && k <= |f.io|
    ensures ConsistentAt(Extend(f, es, list), k)
  {
    assert ConsistentAt(f, k);
    AgreeAt(f, Extend(f, es, list), k, Renames(f.io[..k]));
  }

  lemma {:induction false} ExtendKeepsConsistent(f: Files, es: seq<DiskEvent>, list: Option<seq<Record>>)
    requires Consistent(f) && Atomic(es, list)
    ensures Consistent(Extend(f, es, list))
  {
    var g, d := Extend(f, es, list), Replay(f.origin, f.io);
    MetaIsPublished(f);
    forall k | 0 <= k <= |g.io| ensures ConsistentAt(g, k) {
      if k <= |f.io| {
        BeforeExtend(f, es, list, k);
      } else {
        assert AtomicAt(d, es, k - |f.io|, list);
        AfterExtend(f, es, list, k - |f.io|);
      }
    }
    assert AtomicAt(d, es, |es|, list);
    AfterExtend(f, es, list, |es|);
    assert es[..|es|] == es;
  }

  lemma {:induction false} SaveKeepsConsistent(f: Files, rs: seq<Record>, o: SaveOutcome)
    requires Consistent(f) && Honest(rs, o)
    ensures Consistent(Save(f, rs, o))
  {
    SaveIsAtomic(rs, o);
    ExtendKeepsConsistent(f, SaveEvents(o), if o.Saved? then Some(rs) else None);
  }

  /** The machine stops after the first `k` disk events. */
  function Cut(f: Files, k: nat): Files {
    if |f.io| < k || |f.saves| < Renames(f.io[..k]) then f
    else f.(io := f.io[..k], saves := f.saves[..Renames(f.io[..k])])
  }

  lemma {:induction false} RenamesMonotone(es: seq<DiskEvent>, k: nat)
    requires k <= |es|
    ensures Renames(es[..k]) <= Renames(es)
  {
    if k < |es| {
      assert es[..|es| - 1][..k] == es[..k];
      RenamesMonotone(es[..|es| - 1], k);
    } else {
      assert es[..k] == es;
    }
  }

  /** A crash at any point of a consistent history leaves a consistent history. */
  lemma {:induction false} CutKeepsConsistent(f: Files, k: nat)
    requires Consistent(f)
    ensures Consistent(Cut(f, k))
  {
    var c := Cut(f, k);
    if |f.io| < k { return; }
    RenamesMonotone(f.io, k);
    forall j | 0 <= j <= |c.io| ensures ConsistentAt(c, j) {
      assert ConsistentAt(f, j);
      RenamesMonotone(f.io[..k], j);
      assert f.io[..k][..j] == f.io[..j];
      AgreeAt(f, c, j, Renames(f.io[..j]));
    }
  }

  /** A save that fails leaves the file as it was; one that succeeds replaces it completely. */
  lemma {:induction false} SaveIsAllOrNothing(f: Files, rs: seq<Record>, o: SaveOutcome)
    requires Consistent(f) && Honest(rs, o)
    ensures Meta(Save(f, rs, o)) == if o.Saved? then Some(Render(rs)) else Meta(f)
  {
    SaveKeepsConsistent(f, rs, o);
    MetaIsPublished(f);
    MetaIsPublished(Save(f, rs, o));
  }
}
