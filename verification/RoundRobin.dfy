/**
  The rotation of `src/scheduler.c` as operations on values: an ordered list of
  distinct pids and the index of the one whose turn it is.  `Scheduler.dfy` proves
  the in-place array code equal to these functions; here is what they amount to
  over whole runs: self-stabilisation, fairness, and the price of changing the list.
*/
module RoundRobin {
  import opened Sequences

  type Pid = int

  datatype Ring = Ring(targets: seq<Pid>, index: nat)

  ghost predicate Distinct(s: seq<Pid>) {
    forall i, j :: 0 <= i < j < |s| ==> s[i] != s[j]
  }

  /** An ordered set of pids; the index points into it, or both are zero. */
  ghost predicate Valid(r: Ring) {
    Distinct(r.targets) && (r.index < |r.targets| || (r.targets == [] && r.index == 0))
  }

  /** The index after the list shrank (src/scheduler.c:90-92, 246-248). */
  function Clamp(index: nat, count: nat): nat { if index >= count then 0 else index }

  function IndexOf(s: seq<Pid>, p: Pid): (i: nat)
    requires p in s
    ensures i < |s| && s[i] == p
  {
    if s[0] == p then 0 else 1 + IndexOf(s[1..], p)
  }

  function Add(r: Ring, p: Pid): Ring {
    if p in r.targets then r else r.(targets := r.targets + [p])
  }

  /** Swap the last pid into the hole. */
  function SwapOut(s: seq<Pid>, i: nat): seq<Pid>
    requires i < |s|
  {
    s[i := s[|s| - 1]][..|s| - 1]
  }

  function Remove(r: Ring, p: Pid): Ring {
    var s := if p in r.targets then SwapOut(r.targets, IndexOf(r.targets, p)) else r.targets;
    Ring(s, Clamp(r.index, |s|))
  }

  predicate Live(alive: set<Pid>, p: Pid) { p > 0 && p in alive }

  function Survivors(s: seq<Pid>, alive: set<Pid>): seq<Pid> {
    if s == [] then []
    else Survivors(s[..|s| - 1], alive) + (if Live(alive, s[|s| - 1]) then [s[|s| - 1]] else [])
  }

  function Prune(r: Ring, alive: set<Pid>): Ring {
    var s := Survivors(r.targets, alive);
    Ring(s, Clamp(r.index, |s|))
  }

  /** (index + 1) % count, for an index in range. */
  function Successor(index: nat, count: nat): nat { if index + 1 >= count then 0 else index + 1 }

  function Rotate(r: Ring): Ring { r.(index := Successor(r.index, |r.targets|)) }

  function Current(r: Ring): Pid
    requires r.index < |r.targets|
  {
    r.targets[r.index]
  }

  // ---- the list stays an ordered set -----------------------------------

  lemma {:induction false} AddKeeps(r: Ring, p: Pid)
    requires Valid(r)
    ensures Valid(Add(r, p)) && multiset(Add(r, p).targets) == multiset(r.targets)[p := 1]
    ensures r.targets <= Add(r, p).targets && Add(r, p).index == r.index
  {
    CountOnce(r.targets, p);
  }

  /** Removal takes out exactly `p`; which position the others sit at may change. */
  lemma {:induction false} RemoveKeeps(r: Ring, p: Pid)
    requires Valid(r)
    ensures Valid(Remove(r, p))
    ensures forall q :: q in Remove(r, p).targets <==> q in r.targets && q != p
  {
    if p in r.targets {
      var i := IndexOf(r.targets, p);
      var t := SwapOut(r.targets, i);
      forall q | q in r.targets && q != p ensures q in t {
        var j :| 0 <= j < |r.targets| && r.targets[j] == q;
        if j < |t| { assert t[j] == q; } else { assert t[i] == q; }
      }
    }
  }

  /** The last target takes the place of `p`, the others stay where they are, and so does the index while it can. */
  lemma {:induction false} RemoveMoves(r: Ring, p: Pid)
    requires Valid(r)
    ensures var e := Remove(r, p);
            && (p !in r.targets ==> e == r)
            && e.index == (if r.index < |e.targets| then r.index else 0)
            && (forall k :: 0 <= k < |e.targets| ==>
                  e.targets[k] == if r.targets[k] == p then r.targets[|r.targets| - 1] else r.targets[k])
  {
    if p in r.targets {
      var i := IndexOf(r.targets, p);
      assert forall k :: 0 <= k < |r.targets| && r.targets[k] == p ==> k == i;
    }
  }

  /** Pruning keeps exactly the living pids. */
  lemma {:induction false} SurvivorsFilter(s: seq<Pid>, alive: set<Pid>)
    ensures var t := Survivors(s, alive);
            && |t| <= |s|
            && (forall p :: p in t <==> p in s && Live(alive, p))
            && (Distinct(s) ==> Distinct(t))
  {
    if s != [] {
      var last := |s| - 1;
      assert s == s[..last] + [s[last]];
      SurvivorsFilter(s[..last], alive);
    }
  }

  lemma {:induction false} SurvivorsStep(s: seq<Pid>, i: nat, alive: set<Pid>)
    requires i < |s|
    ensures Survivors(s[..i + 1], alive) == Survivors(s[..i], alive) + if Live(alive, s[i]) then [s[i]] else []
  {
    assert s[..i + 1][..i] == s[..i];
  }

  /** They keep their order: what stands earlier after pruning stood earlier before. */
  lemma {:induction false} SurvivorsKeepOrder(s: seq<Pid>, alive: set<Pid>, i: nat, j: nat) returns (a: nat, b: nat)
    requires i < j < |Survivors(s, alive)|
    ensures a < b < |s| && s[a] == Survivors(s, alive)[i] && s[b] == Survivors(s, alive)[j]
  {
    var last := |s| - 1;
    var front := Survivors(s[..last], alive);
    if j < |front| {
      a, b := SurvivorsKeepOrder(s[..last], alive, i, j);
    } else {
      SurvivorsFilter(s[..last], alive);
      assert front[i] in front;
      a, b := IndexOf(s[..last], front[i]), last;
    }
  }

  lemma {:induction false} SurvivorsOfLive(s: seq<Pid>, alive: set<Pid>)
    ensures Survivors(s, alive) == s <==> forall p <- s :: Live(alive, p)
    ensures |Survivors(s, alive)| == |s| <==> Survivors(s, alive) == s
  {
    if s != [] {
      var last := |s| - 1;
      assert s == s[..last] + [s[last]];
      SurvivorsOfLive(s[..last], alive);
      SurvivorsFilter(s[..last], alive);
      if Survivors(s, alive) == s && Live(alive, s[last]) {
        assert Survivors(s, alive)[..last] == s[..last];
      }
    }
  }

  lemma {:induction false} PruneKeeps(r: Ring, alive: set<Pid>)
    requires Valid(r)
    ensures Valid(Prune(r, alive))
    ensures forall p :: p in Prune(r, alive).targets <==> p in r.targets && Live(alive, p)
    ensures Prune(r, alive).index == if r.index < |Prune(r, alive).targets| then r.index else 0
  {
    SurvivorsFilter(r.targets, alive);
  }

  // ---- one turn of the thread ------------------------------------------

  /** Processes under the scheduler: which of them are stopped by SIGSTOP. */
  function AfterStop(paused: set<Pid>, p: Pid): set<Pid> { paused + {p} }
  function AfterCont(paused: set<Pid>, p: Pid): set<Pid> { paused - {p} }

  /** One iteration of the loop at src/scheduler.c:98-136 with nothing in between. */
  function Tick(r: Ring, paused: set<Pid>): (Ring, set<Pid>)
    requires Valid(r)
  {
    if |r.targets| < 2 then (r, paused)
    else
      var r' := Rotate(r);
      (r', AfterCont(AfterStop(paused, Current(r)), Current(r')))
  }

  function Ticks(r: Ring, paused: set<Pid>, n: nat): (out: (Ring, set<Pid>))
    requires Valid(r)
    ensures out.0.targets == r.targets && Valid(out.0)
    decreases n
  {
    if n == 0 then (r, paused)
    else var (r', p') := Tick(r, paused); Ticks(r', p', n - 1)
  }

  ghost predicate OnlyCurrentRuns(r: Ring, paused: set<Pid>)
    requires Valid(r)
  {
    forall i :: 0 <= i < |r.targets| ==> (r.targets[i] in paused <==> i != r.index)
  }

  /** How many ticks ago position `i` had its turn: 0 is the current one, n-1 the longest wait. */
  function Behind(r: Ring, i: nat): nat
    requires r.index < |r.targets| && i < |r.targets|
  {
    if i <= r.index then r.index - i else r.index + |r.targets| - i
  }

  /** The current target runs and the `m` before it are stopped. */
  ghost predicate Trail(r: Ring, paused: set<Pid>, m: nat)
    requires Valid(r) && r.targets != []
  {
    forall i :: 0 <= i < |r.targets| && Behind(r, i) <= m ==> (r.targets[i] in paused <==> i != r.index)
  }

  lemma {:induction false} TickExtendsTrail(r: Ring, paused: set<Pid>, m: nat)
    requires Valid(r) && 2 <= |r.targets| && Trail(r, paused, m)
    ensures var (r', p') := Tick(r, paused); Trail(r', p', m + 1)
  {
    var (r', p') := Tick(r, paused);
    forall i | 0 <= i < |r.targets| && Behind(r', i) <= m + 1
      ensures r'.targets[i] in p' <==> i != r'.index
    {
      assert i == r'.index || Behind(r', i) == Behind(r, i) + 1;
    }
  }

  lemma {:induction false} TrailGrows(r: Ring, paused: set<Pid>, m: nat, t: nat)
    requires Valid(r) && 2 <= |r.targets| && Trail(r, paused, m)
    ensures var (r', p') := Ticks(r, paused, t); Trail(r', p', m + t)
    decreases t
  {
    if t != 0 {
      TickExtendsTrail(r, paused, m);
      var (r', p') := Tick(r, paused);
      TrailGrows(r', p', m + 1, t - 1);
    }
  }

  /**
    Self-stabilisation.  From any assignment of paused and running over n >= 2 targets,
    n-1 ticks leave exactly one of them running, the current one, and every later tick
    keeps it so.
  */
  lemma {:induction false} Stabilises(r: Ring, paused: set<Pid>, t: nat)
    requires Valid(r) && 2 <= |r.targets| && |r.targets| - 1 <= t
    ensures var (r', p') := Ticks(r, paused, t); OnlyCurrentRuns(r', p')
  {
    var (r1, p1) := Tick(r, paused);
    assert Trail(r1, p1, 1);
    TrailGrows(r1, p1, 1, t - 1);
    var (r', p') := Ticks(r, paused, t);
    assert forall i :: 0 <= i < |r'.targets| ==> Behind(r', i) <= t;
  }

  /** Between the SIGSTOP and the SIGCONT of a stabilised tick nobody runs; before and after, one does. */
  lemma {:induction false} AtMostOneRunsWithinTick(r: Ring, paused: set<Pid>)
    requires Valid(r) && 2 <= |r.targets| && OnlyCurrentRuns(r, paused)
    ensures forall p <- r.targets :: p in AfterStop(paused, Current(r))
    ensures var (r', p') := Tick(r, paused); OnlyCurrentRuns(r', p')
  {
    var (r', p') := Tick(r, paused);
    forall i | 0 <= i < |r.targets| ensures r'.targets[i] in p' <==> i != r'.index {}
  }

  /** A tick over fewer than two targets signals nobody: a paused sole survivor stays paused. */
  lemma {:induction false} SoleSurvivorStaysPaused(r: Ring, paused: set<Pid>, t: nat)
    requires Valid(r) && |r.targets| < 2
    ensures Ticks(r, paused, t) == (r, paused)
    decreases t
  {
    if t != 0 { SoleSurvivorStaysPaused(r, paused, t - 1); }
  }

  // ---- fairness on a stable list ---------------------------------------

  /** The pids that get SIGCONT in the next `n` ticks, in order. */
  function Resumed(r: Ring, n: nat): seq<Pid>
    requires Valid(r) && 2 <= |r.targets|
    decreases n
  {
    if n == 0 then [] else var r' := Rotate(r); [Current(r')] + Resumed(r', n - 1)
  }

  lemma {:induction false} ResumedAt(r: Ring, n: nat, k: nat)
    requires Valid(r) && 2 <= |r.targets| && k < n <= |r.targets|
    ensures |Resumed(r, n)| == n
    ensures Resumed(r, n)[k] ==
            var i := r.index + 1 + k;
            r.targets[if i < |r.targets| then i else i - |r.targets|]
    decreases n
  {
    var r' := Rotate(r);
    if n > 1 {
      ResumedAt(r', n - 1, if k == 0 then 0 else k - 1);
    }
  }

  lemma {:induction false} ResumedIsRotation(r: Ring)
    requires Valid(r) && 2 <= |r.targets|
    ensures Resumed(r, |r.targets|) == r.targets[r.index + 1..] + r.targets[..r.index + 1]
  {
    var n := |r.targets|;
    ResumedAt(r, n, 0);
    forall k | 0 <= k < n
      ensures Resumed(r, n)[k] == (r.targets[r.index + 1..] + r.targets[..r.index + 1])[k]
    {
      ResumedAt(r, n, k);
    }
  }

  /** On a stable list of n >= 2, any n consecutive ticks resume every target exactly once. */
  lemma {:induction false} EachResumedOnce(r: Ring)
    requires Valid(r) && 2 <= |r.targets|
    ensures multiset(Resumed(r, |r.targets|)) == multiset(r.targets)
    ensures forall p <- r.targets :: multiset(Resumed(r, |r.targets|))[p] == 1
  {
    ResumedIsRotation(r);
    var front, back := r.targets[..r.index + 1], r.targets[r.index + 1..];
    assert multiset(back + front) == multiset(back) + multiset(front);
    assert multiset(front + back) == multiset(front) + multiset(back);
    assert r.targets == front + back;
    forall p | p in r.targets ensures multiset(r.targets)[p] == 1 { CountOnce(r.targets, p); }
  }

  // ---- fairness while the list changes ---------------------------------

  /** What happens to an enabled scheduler; a tick prunes first (src/scheduler.c:114). */
  datatype Event = TickE(alive: set<Pid>) | AddE(pid: Pid) | RemoveE(pid: Pid)

  function Apply(r: Ring, e: Event): Ring {
    match e
    case TickE(alive) => var q := Prune(r, alive); if |q.targets| < 2 then q else Rotate(q)
    case AddE(p) => Add(r, p)
    case RemoveE(p) => Remove(r, p)
  }

  /** Whether the event alters the list itself. */
  predicate Changes(r: Ring, e: Event) {
    match e
    case TickE(alive) => Prune(r, alive).targets != r.targets
    case AddE(p) => p !in r.targets
    case RemoveE(p) => p in r.targets
  }

  /** Every tick finds between 2 and `cap` targets, `p` among them, and resumes someone else. */
  ghost predicate PassesOver(r: Ring, es: seq<Event>, p: Pid, cap: nat)
    decreases |es|
  {
    && p in r.targets && |r.targets| <= cap
    && (es != [] ==>
        && PassesOver(Apply(r, es[0]), es[1..], p, cap)
        && (es[0].TickE? ==>
              && 2 <= |Prune(r, es[0].alive).targets|
              && Turn(Apply(r, es[0])) != p))
  }

  function Turn(r: Ring): Pid { if r.index < |r.targets| then r.targets[r.index] else 0 }

  function TickCount(es: seq<Event>): nat {
    if es == [] then 0 else (if es[0].TickE? then 1 else 0) + TickCount(es[1..])
  }

  function ChangeCount(r: Ring, es: seq<Event>): nat
    decreases |es|
  {
    if es == [] then 0
    else (if Changes(r, es[0]) then 1 else 0) + ChangeCount(Apply(r, es[0]), es[1..])
  }

  /** In how many ticks the turn of `p` comes if nothing changes: between 1 and n. */
  ghost function Distance(r: Ring, p: Pid): (d: nat)
    requires Valid(r) && p in r.targets
    ensures 1 <= d <= |r.targets|
  {
    var i := IndexOf(r.targets, p);
    if i > r.index then i - r.index else i + |r.targets| - r.index
  }

  lemma {:induction false} ApplyKeeps(r: Ring, e: Event)
    requires Valid(r)
    ensures Valid(Apply(r, e))
  {
    match e
    case TickE(alive) => PruneKeeps(r, alive);
    case AddE(p) => AddKeeps(r, p);
    case RemoveE(p) => RemoveKeeps(r, p);
  }

  lemma {:induction false} UniqueIndex(s: seq<Pid>, i: nat)
    requires Distinct(s) && i < |s|
    ensures IndexOf(s, s[i]) == i
  {}

  /** A rotation that does not resume `p` brings its turn one tick closer. */
  lemma {:induction false} RotateApproaches(r: Ring, p: Pid)
    requires Valid(r) && 2 <= |r.targets| && p in r.targets
    requires Current(Rotate(r)) != p
    ensures Distance(Rotate(r), p) == Distance(r, p) - 1
  {
    var i := IndexOf(r.targets, p);
    assert i != Rotate(r).index;
  }

  lemma {:induction false} UnchangedEvent(r: Ring, e: Event)
    requires Valid(r) && !Changes(r, e)
    ensures Apply(r, e) == if e.TickE? && 2 <= |r.targets| then Rotate(r) else r
  {
  }

  /** One event costs at most the distance it uses up, or a whole round if it altered the list. */
  lemma {:induction false} EventCost(r: Ring, e: Event, p: Pid, cap: nat)
    requires Valid(r) && p in r.targets && |r.targets| <= cap
    requires Valid(Apply(r, e)) && p in Apply(r, e).targets && |Apply(r, e).targets| <= cap
    requires e.TickE? ==> 2 <= |Prune(r, e.alive).targets| && Turn(Apply(r, e)) != p
    ensures Distance(Apply(r, e), p) + (if e.TickE? then 1 else 0)
            <= Distance(r, p) + (if Changes(r, e) then cap - 1 else 0)
  {
    if Changes(r, e) {
      if e.TickE? {
        PruneKeeps(r, e.alive);
        RotateApproaches(Prune(r, e.alive), p);
      }
    } else {
      UnchangedEvent(r, e);
      if e.TickE? { RotateApproaches(r, p); }
    }
  }

  function Times(k: nat, unit: int): int { if k == 0 then 0 else unit + Times(k - 1, unit) }

  lemma {:induction false} TimesIsProduct(k: nat, unit: int)
    ensures Times(k, unit) == k * unit
  {
    if k != 0 {
      TimesIsProduct(k - 1, unit);
      assert (k - 1) * unit + unit == k * unit;
    }
  }

  lemma {:induction false} WaitBound(r: Ring, es: seq<Event>, p: Pid, cap: nat)
    requires Valid(r) && PassesOver(r, es, p, cap)
    ensures TickCount(es) <= Distance(r, p) - 1 + Times(ChangeCount(r, es), cap - 1)
    decreases |es|
  {
    if es != [] {
      var r' := Apply(r, es[0]);
      ApplyKeeps(r, es[0]);
      WaitBound(r', es[1..], p, cap);
      EventCost(r, es[0], p, cap);
    }
  }

  lemma {:induction false} WholeRounds(k: nat, cap: nat)
    ensures Times(k, cap - 1) + (cap - 1) == (k + 1) * (cap - 1) < (k + 1) * cap
  {
    TimesIsProduct(k + 1, cap - 1);
    TimesIsProduct(k + 1, cap);
    assert (k + 1) * cap == (k + 1) * (cap - 1) + (k + 1);
  }

  /**
    Fairness under change.  While there are always between 2 and `cap` targets and `p` stays
    listed, `p` is passed over for at most (k+1)(cap-1) ticks, k being the number of adds,
    removals and prunes that altered the list: it is resumed within (k+1)*cap ticks.
  */
  lemma {:induction false} FairUnderChange(r: Ring, es: seq<Event>, p: Pid, cap: nat)
    requires Valid(r) && PassesOver(r, es, p, cap)
    ensures TickCount(es) <= (ChangeCount(r, es) + 1) * (cap - 1)
    ensures TickCount(es) < (ChangeCount(r, es) + 1) * cap
  {
    WaitBound(r, es, p, cap);
    WholeRounds(ChangeCount(r, es), cap);
  }

  /** One round of a list that keeps changing: a newcomer arrives, two ticks, it leaves again. */
  function ChurnThen(newcomer: Pid, alive: set<Pid>, rest: seq<Event>): seq<Event> {
    [AddE(newcomer)] + ([TickE(alive)] + ([TickE(alive)] + ([RemoveE(newcomer)] + rest)))
  }

  function Churn(newcomer: Pid, alive: set<Pid>, rounds: nat): seq<Event> {
    if rounds == 0 then [] else ChurnThen(newcomer, alive, Churn(newcomer, alive, rounds - 1))
  }

  lemma {:induction false} ChurnRound(alive: set<Pid>)
    requires alive == {1, 2, 3}
    ensures Apply(Ring([1, 2], 0), AddE(3)) == Ring([1, 2, 3], 0)
    ensures Apply(Ring([1, 2, 3], 0), TickE(alive)) == Ring([1, 2, 3], 1)
    ensures Apply(Ring([1, 2, 3], 1), TickE(alive)) == Ring([1, 2, 3], 2)
    ensures Apply(Ring([1, 2, 3], 2), RemoveE(3)) == Ring([1, 2], 0)
    ensures Prune(Ring([1, 2, 3], 0), alive) == Ring([1, 2, 3], 0)
    ensures Prune(Ring([1, 2, 3], 1), alive) == Ring([1, 2, 3], 1)
  {
    SurvivorsOfLive([1, 2, 3], alive);
    UniqueIndex([1, 2, 3], 2);
    assert SwapOut([1, 2, 3], 2) == [1, 2];
  }

  /** The three counts of an event in front of others. */
  lemma {:induction false} InFront(r: Ring, e: Event, r': Ring, es: seq<Event>, p: Pid, cap: nat)
    requires r' == Apply(r, e) && p in r.targets && |r.targets| <= cap && PassesOver(r', es, p, cap)
    requires e.TickE? ==> 2 <= |Prune(r, e.alive).targets| && Turn(r') != p
    ensures PassesOver(r, [e] + es, p, cap)
    ensures TickCount([e] + es) == TickCount(es) + if e.TickE? then 1 else 0
    ensures ChangeCount(r, [e] + es) == ChangeCount(r', es) + if Changes(r, e) then 1 else 0
  {
    assert ([e] + es)[1..] == es;
  }

  /**
    The dependence on the number of changes is real: with one newcomer coming and going,
    the index reset of `scheduler_remove_target` skips target 1 for ever.
  */
  lemma {:induction false} ChurnStarves(rounds: nat, r: Ring, alive: set<Pid>)
    requires r == Ring([1, 2], 0) && alive == {1, 2, 3}
    ensures var es := Churn(3, alive, rounds);
            && PassesOver(r, es, 1, 3)
            && TickCount(es) == 2 * rounds && ChangeCount(r, es) == 2 * rounds
  {
    if rounds != 0 {
      ChurnStarves(rounds - 1, r, alive);
      ChurnRoundInFront(r, alive, Churn(3, alive, rounds - 1));
    }
  }

  lemma {:induction false} ChurnRoundInFront(r: Ring, alive: set<Pid>, rest: seq<Event>)
    requires r == Ring([1, 2], 0) && alive == {1, 2, 3} && PassesOver(r, rest, 1, 3)
    ensures var es := ChurnThen(3, alive, rest);
            && PassesOver(r, es, 1, 3)
            && TickCount(es) == TickCount(rest) + 2 && ChangeCount(r, es) == ChangeCount(r, rest) + 2
  {
    ChurnRound(alive);
    var r1, r2, r3 := Ring([1, 2, 3], 0), Ring([1, 2, 3], 1), Ring([1, 2, 3], 2);
    var e3 := [RemoveE(3)] + rest;
    InFront(r3, RemoveE(3), r, rest, 1, 3);
    var e2 := [TickE(alive)] + e3;
    InFront(r2, TickE(alive), r3, e3, 1, 3);
    var e1 := [TickE(alive)] + e2;
    InFront(r1, TickE(alive), r2, e2, 1, 3);
    InFront(r, AddE(3), r1, e1, 1, 3);
  }
}
