/**
  Lower-only resource limits (src/resource.c:8-75) on a kernel that refuses an unprivileged
  process what POSIX says it must.  `rlim_t` has 64 bits and RLIM_INFINITY is its largest value.
*/
module Limits {
  import opened Text

  const RLIM_INFINITY: nat := ULONG_RANGE - 1

  datatype Rlimit = Rlimit(soft: nat, hard: nat)
  datatype Resource = CPU | AS | NPROC
  datatype Errno = EINVAL | EPERM

  type Table = map<Resource, Rlimit>

  /** What the kernel guarantees of the limits of any process. */
  ghost predicate WellFormed(t: Table) {
    forall r: Resource :: r in t && t[r].soft <= t[r].hard <= RLIM_INFINITY
  }

  /** `ResourceConfig`: three 32-bit numbers, 0 for "leave alone". */
  datatype Config = Config(cpuSeconds: nat, memoryMb: nat, maxProcesses: nat) {
    predicate Valid() { cpuSeconds < UINT_RANGE && memoryMb < UINT_RANGE && maxProcesses < UINT_RANGE }
  }

  predicate IsMin(m: nat, a: nat, b: nat) { m <= a && m <= b && (m == a || m == b) }

  /** A request of 0 leaves a limit alone; any other lowers soft and hard limit to the smaller value. */
  predicate Obeys(after: Rlimit, before: Rlimit, request: nat) {
    if request == 0 then after == before else IsMin(after.soft, request, before.soft) && after.hard == after.soft
  }

  // ---- the code --------------------------------------------------------

  /** A product in `unsigned long long`. */
  function Times(a: nat, b: nat): (r: nat)
    ensures a * b < ULONG_RANGE ==> r == a * b
  {
    a * b % ULONG_RANGE
  }

  /** Megabytes to bytes, with the two guards of the source. */
  function MemoryBytes(mb: nat): Option<nat> {
    var wide := Times(Times(mb, 1024), 1024);
    var bytes := wide % ULONG_RANGE;
    if wide != bytes then None else if bytes == 0 then None else Some(bytes)
  }

  class Process {
    var limits: Table

    constructor (limits: Table)
      ensures this.limits == limits
    {
      this.limits := limits;
    }

    method GetRlimit(r: Resource) returns (current: Rlimit)
      requires WellFormed(limits)
      ensures current == limits[r]
    {
      current := limits[r];
    }

    /** `setrlimit` of an unprivileged process: a hard limit never goes up again. */
    method SetRlimit(r: Resource, next: Rlimit) returns (error: Option<Errno>)
      requires WellFormed(limits)
      modifies this
      ensures error == if next.soft > next.hard then Some(EINVAL)
                       else if next.hard > old(limits)[r].hard then Some(EPERM) else None
      ensures limits == if error == None then old(limits)[r := next] else old(limits)
    {
      if next.soft > next.hard {
        return Some(EINVAL);
      }
      if next.hard > limits[r].hard {
        return Some(EPERM);
      }
      limits := limits[r := next];
      return None;
    }

    /** `apply_single_limit_lower_only`: never refused, and the limit is the smallest of the three. */
    method ApplySingle(r: Resource, request: nat) returns (error: Option<Errno>)
      requires WellFormed(limits) && request <= RLIM_INFINITY
      modifies this
      ensures error == None && WellFormed(limits)
      ensures IsMin(limits[r].soft, request, old(limits)[r].soft) && limits[r].hard == limits[r].soft
      ensures forall q: Resource :: q != r ==> limits[q] == old(limits)[q]
    {
      var current := GetRlimit(r);
      var next, requested := current, request;
      if current.soft != RLIM_INFINITY && requested > current.soft {
        requested := current.soft;
      }
      if current.hard != RLIM_INFINITY && requested > current.hard {
        requested := current.hard;
      }
      if requested == current.soft && requested == current.hard {
        return None;
      }
      next := next.(soft := requested);
      if next.hard == RLIM_INFINITY || requested < next.hard {
        next := next.(hard := requested);
      }
      error := SetRlimit(r, next);
    }

    /** `resource_apply_limits`: it succeeds for every configuration, and fails only without one. */
    method ApplyLimits(config: Option<Config>) returns (error: Option<Errno>)
      requires WellFormed(limits) && (config.Some? ==> config.value.Valid())
      modifies this
      ensures error == if config.None? then Some(EINVAL) else None
      ensures WellFormed(limits) && (config.None? ==> limits == old(limits))
      ensures config.Some? ==>
                && Obeys(limits[CPU], old(limits)[CPU], config.value.cpuSeconds)
                && Obeys(limits[AS], old(limits)[AS], config.value.memoryMb * 1048576)
                && Obeys(limits[NPROC], old(limits)[NPROC], config.value.maxProcesses)
    {
      if config.None? {
        return Some(EINVAL);
      }
      var c := config.value;
      error := None;
      if c.cpuSeconds != 0 {
        error := ApplySingle(CPU, c.cpuSeconds);
      }
      if error == None && c.memoryMb != 0 {
        GuardsNeverFire(c.memoryMb);
        match MemoryBytes(c.memoryMb)
        case None => error := Some(EINVAL);
        case Some(bytes) => error := ApplySingle(AS, bytes);
      }
      if error == None && c.maxProcesses != 0 {
        error := ApplySingle(NPROC, c.maxProcesses);
      }
    }

    /** One configuration after another; the tables in between are a history of the process. */
    method ApplyEach(configs: seq<Config>) returns (ghost tables: seq<Table>)
      requires WellFormed(limits) && forall c <- configs :: c.Valid()
      modifies this
      ensures History(tables, configs) && tables[0] == old(limits) && tables[|configs|] == limits
    {
      tables := [limits];
      for i := 0 to |configs|
        invariant WellFormed(limits) && History(tables, configs[..i])
        invariant tables[0] == old(limits) && tables[i] == limits
      {
        var _ := ApplyLimits(Some(configs[i]));
        OneCallMore(tables, configs, i, limits);
        tables := tables + [limits];
      }
      assert configs[..|configs|] == configs;
    }
  }

  lemma {:induction false} OneCallMore(tables: seq<Table>, configs: seq<Config>, i: nat, t: Table)
    requires i < |configs| && History(tables, configs[..i]) && WellFormed(t) && OneCall(tables[i], t, configs[i])
    ensures History(tables + [t], configs[..i + 1])
  {
    var all, done := tables + [t], configs[..i + 1];
    forall k | 0 <= k < |done| ensures OneCall(all[k], all[k + 1], done[k]) {
      if k < i { assert OneCall(tables[k], tables[k + 1], configs[..i][k]); }
    }
  }

  /** The product stays below 2^52: it neither wraps nor becomes 0. */
  lemma {:induction false} GuardsNeverFire(mb: nat)
    requires 0 < mb < UINT_RANGE
    ensures MemoryBytes(mb) == Some(mb * 0x10_0000) && mb * 0x10_0000 < 0x10_0000_0000_0000
  {
    assert Times(mb, 1024) == mb * 1024;
    assert Times(mb * 1024, 1024) == mb * 0x10_0000;
    assert mb * 0x10_0000 % ULONG_RANGE == mb * 0x10_0000;
  }

  // ---- any number of calls ---------------------------------------------

  /** What a configuration asks for one resource; 0 is nothing. */
  function Request(c: Config, r: Resource): nat {
    match r
    case CPU => c.cpuSeconds
    case AS => c.memoryMb * 0x10_0000
    case NPROC => c.maxProcesses
  }

  /** A history of limit tables, one call of `resource_apply_limits` between each and the next. */
  ghost predicate History(tables: seq<Table>, configs: seq<Config>) {
    && |tables| == |configs| + 1 && (forall k :: 0 <= k < |tables| ==> WellFormed(tables[k]))
    && (forall k :: 0 <= k < |configs| ==> OneCall(tables[k], tables[k + 1], configs[k]))
  }

  /** What `Process.ApplyLimits` promises. */
  ghost predicate OneCall(t: Table, t': Table, c: Config)
    requires WellFormed(t) && WellFormed(t')
  {
    && Obeys(t'[CPU], t[CPU], c.cpuSeconds) && Obeys(t'[AS], t[AS], c.memoryMb * 1048576)
    && Obeys(t'[NPROC], t[NPROC], c.maxProcesses)
  }

  /** `l` is what `before` becomes under some requests: the smallest of them and its soft limit. */
  ghost predicate Smallest(l: Rlimit, before: Rlimit, requests: seq<nat>) {
    && (forall n <- requests :: n != 0 ==> l.soft <= n)
    && l.soft <= before.soft && (l.soft == before.soft || (l.soft != 0 && l.soft in requests))
    && (if exists n <- requests :: n != 0 then l.hard == l.soft else l == before)
  }

  function Requests(configs: seq<Config>, r: Resource): (ns: seq<nat>)
    ensures |ns| == |configs| && forall k :: 0 <= k < |ns| ==> ns[k] == Request(configs[k], r)
  {
    if configs == [] then [] else Requests(configs[..|configs| - 1], r) + [Request(configs[|configs| - 1], r)]
  }

  lemma {:induction false} OneMoreRequest(before: Rlimit, l: Rlimit, l': Rlimit, ns: seq<nat>, n: nat)
    requires Smallest(l, before, ns) && Obeys(l', l, n)
    ensures Smallest(l', before, ns + [n])
  {
    var all := ns + [n];
    assert all[|ns|] == n && forall m <- all :: m in ns || m == n;
    assert forall m <- ns :: m in all;
    assert n in all;
  }

  /**
    After any sequence of calls each resource has soft and hard limit equal to the smallest of its
    non-zero requests and its original soft limit, and is as it was if it was never asked for.
  */
  lemma {:induction false} OutcomeIsMinimum(tables: seq<Table>, configs: seq<Config>, r: Resource)
    requires History(tables, configs)
    ensures Smallest(tables[|configs|][r], tables[0][r], Requests(configs, r))
  {
    if configs != [] {
      var last := |configs| - 1;
      var front := configs[..last];
      assert History(tables[..last + 1], front);
      OutcomeIsMinimum(tables[..last + 1], front, r);
      assert OneCall(tables[last], tables[last + 1], configs[last]);
      OneMoreRequest(tables[0][r], tables[last][r], tables[last + 1][r], Requests(front, r), Request(configs[last], r));
      assert Requests(configs, r) == Requests(front, r) + [Request(configs[last], r)];
    }
  }

  /** Field by field: the seconds, the bytes and the processes asked for in the sequence. */
  lemma {:induction false} OutcomeByField(tables: seq<Table>, configs: seq<Config>,
                                         seconds: seq<nat>, bytes: seq<nat>, processes: seq<nat>)
    requires History(tables, configs) && |seconds| == |bytes| == |processes| == |configs|
    requires forall k :: 0 <= k < |configs| ==> seconds[k] == configs[k].cpuSeconds
    requires forall k :: 0 <= k < |configs| ==> bytes[k] == configs[k].memoryMb * 1048576
    requires forall k :: 0 <= k < |configs| ==> processes[k] == configs[k].maxProcesses
    ensures Smallest(tables[|configs|][CPU], tables[0][CPU], seconds)
    ensures Smallest(tables[|configs|][AS], tables[0][AS], bytes)
    ensures Smallest(tables[|configs|][NPROC], tables[0][NPROC], processes)
  {
    OutcomeIsMinimum(tables, configs, CPU);
    OutcomeIsMinimum(tables, configs, AS);
    OutcomeIsMinimum(tables, configs, NPROC);
    assert Requests(configs, CPU) == seconds && Requests(configs, AS) == bytes && Requests(configs, NPROC) == processes;
  }

  lemma {:induction false} SmallestIsUnique(a: Rlimit, b: Rlimit, before: Rlimit, ns: seq<nat>, ms: seq<nat>)
    requires Smallest(a, before, ns) && Smallest(b, before, ms) && forall n: nat :: n in ns <==> n in ms
    ensures a == b
  {
    assert a.soft <= b.soft && b.soft <= a.soft;
  }

  /** Only which configurations were applied matters: neither their order nor how often. */
  lemma {:induction false} OrderDoesNotMatter(s: seq<Table>, a: seq<Config>, t: seq<Table>, b: seq<Config>)
    requires History(s, a) && History(t, b) && s[0] == t[0] && forall c: Config :: c in a <==> c in b
    ensures forall r: Resource :: s[|a|][r] == t[|b|][r]
  {
    forall r: Resource ensures s[|a|][r] == t[|b|][r] {
      OutcomeIsMinimum(s, a, r);
      OutcomeIsMinimum(t, b, r);
      SameRequests(a, b, r);
      SameRequests(b, a, r);
      SmallestIsUnique(s[|a|][r], t[|b|][r], s[0][r], Requests(a, r), Requests(b, r));
    }
  }

  lemma {:induction false} SameRequests(a: seq<Config>, b: seq<Config>, r: Resource)
    requires forall c: Config :: c in a ==> c in b
    ensures forall n :: n in Requests(a, r) ==> n in Requests(b, r)
  {
    forall k | 0 <= k < |a| ensures Requests(a, r)[k] in Requests(b, r) {
      assert a[k] in b;
      var m :| 0 <= m < |b| && b[m] == a[k];
      assert Requests(b, r)[m] == Requests(a, r)[k];
    }
  }

  /** Applying a whole history once more changes nothing. */
  lemma {:induction false} Idempotent(s: seq<Table>, configs: seq<Config>, t: seq<Table>)
    requires History(s, configs) && History(t, configs + configs) && s[0] == t[0]
    ensures forall r: Resource :: t[|configs + configs|][r] == s[|configs|][r]
  {
    OrderDoesNotMatter(t, configs + configs, s, configs);
  }
}
