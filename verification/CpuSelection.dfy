/** How the hook picks the CPUs of one job on one socket, under its three hyperthread policies. */
module CpuSelection {
  import opened Collections

  /** The configuration switches that the allocator reads. */
  datatype Config = Config(
    useHyperthreads: bool,
    ncpusAreCores: bool,
    loadBalanced: bool,
    memFences: bool,
    memoryEnabled: bool)

  /** The discovered CPU facts: `threads[c]` lists the siblings that discovery attached to CPU `c`. */
  datatype CpuInfo = CpuInfo(hyperthreads: seq<int>, perCore: nat, threads: map<int, seq<int>>)

  /** The number of logical CPUs that a request for `ncpus` amounts to. */
  function Needed(cfg: Config, info: CpuInfo, ncpus: int): int {
    if cfg.useHyperthreads && cfg.ncpusAreCores then ncpus * info.perCore else ncpus
  }

  /** The free CPUs that the policy lets a job use. */
  function Pool(cfg: Config, info: CpuInfo, available: seq<int>): set<int> {
    if cfg.useHyperthreads then Elements(available) else Elements(available) - Elements(info.hyperthreads)
  }

  /** Discovery gives every CPU an entry, and at least one thread per core. */
  predicate Known(info: CpuInfo, available: seq<int>) {
    info.perCore >= 1 && Elements(available) <= info.threads.Keys
  }

  function ThreadsOf(info: CpuInfo, c: int): seq<int> {
    if c in info.threads then info.threads[c] else []
  }

  /** The first threads of those cores of which every listed sibling is free. */
  function IdleCores(info: CpuInfo, available: seq<int>): set<int> {
    set c | c in Elements(available) && c !in info.hyperthreads && Elements(ThreadsOf(info, c)) <= Elements(available)
  }

  /** The sibling lists of the given cores, one after the other. */
  function Siblings(info: CpuInfo, cores: seq<int>): seq<int> {
    if cores == [] then []
    else Siblings(info, cores[..|cores| - 1]) + ThreadsOf(info, cores[|cores| - 1])
  }

  lemma SiblingsElements(info: CpuInfo, cores: seq<int>, bound: set<int>)
    requires forall c :: c in Elements(cores) ==> Elements(ThreadsOf(info, c)) <= bound
    ensures Elements(Siblings(info, cores)) <= bound
  {
    if cores != [] {
      var front, last := cores[..|cores| - 1], cores[|cores| - 1];
      assert last in Elements(cores) && Elements(front) <= Elements(cores);
      SiblingsElements(info, front, bound);
      ElementsAppend(Siblings(info, front), ThreadsOf(info, last));
    }
  }

  lemma SiblingsPrefix(info: CpuInfo, a: seq<int>, b: seq<int>)
    ensures Siblings(info, a) <= Siblings(info, a + b)
  {
    if b == [] {
      assert a + b == a;
    } else {
      assert (a + b)[..|a + b| - 1] == a + b[..|b| - 1];
      SiblingsPrefix(info, a, b[..|b| - 1]);
    }
  }

  lemma SiblingsSoFar(info: CpuInfo, cores: seq<int>, i: nat)
    requires i <= |cores|
    ensures Siblings(info, cores[..i]) <= Siblings(info, cores)
    ensures i == |cores| ==> cores[..i] == cores
  {
    assert cores[..i] + cores[i..] == cores;
    SiblingsPrefix(info, cores[..i], cores[i..]);
  }

  /** All siblings of the idle cores, lowest core first. */
  ghost function IdleSiblings(info: CpuInfo, available: seq<int>): (r: seq<int>)
    ensures Distinct(r) && Elements(r) <= Elements(available)
  {
    var order := Sorted(IdleCores(info, available));
    SiblingsElements(info, order, Elements(available));
    Unique(Siblings(info, order))
  }

  /** The CPUs taken from idle cores before anything else is considered. */
  ghost function FirstPass(cfg: Config, info: CpuInfo, needed: nat, available: seq<int>): (r: seq<int>)
    ensures |r| <= needed && Distinct(r) && Elements(r) <= Pool(cfg, info, available)
  {
    if !cfg.useHyperthreads then []
    else
      var u := IdleSiblings(info, available);
      if needed <= |u| then
        assert forall x :: x in u[..needed] ==> x in Elements(u);
        u[..needed]
      else u
  }

  /** The CPUs a job gets: the first pass, topped up with the lowest-numbered CPUs left in the pool. */
  ghost function Choice(cfg: Config, info: CpuInfo, needed: nat, available: seq<int>): (r: seq<int>)
    requires needed <= |Pool(cfg, info, available)|
  {
    var first := FirstPass(cfg, info, needed, available);
    var pool := Pool(cfg, info, available);
    ElementsCard(first);
    SubtractCard(pool, Elements(first));
    first + Sorted(pool - Elements(first))[..needed - |first|]
  }

  /** A choice is exactly as many distinct CPUs as needed, all of them free. */
  lemma ChoiceIsExact(cfg: Config, info: CpuInfo, needed: nat, available: seq<int>)
    requires needed <= |Pool(cfg, info, available)|
    ensures var r := Choice(cfg, info, needed, available);
      |r| == needed && Distinct(r) && Elements(r) <= Pool(cfg, info, available) && Elements(r) <= Elements(available)
  {
    var first := FirstPass(cfg, info, needed, available);
    var pool := Pool(cfg, info, available);
    ElementsCard(first);
    SubtractCard(pool, Elements(first));
    var rest := Sorted(pool - Elements(first));
    IncreasingPrefix(rest, needed - |first|);
    DistinctAppend(first, rest[..needed - |first|]);
  }

  /** Without hyperthreads a job gets the lowest-numbered free first threads, in increasing order. */
  lemma LowestFirst(cfg: Config, info: CpuInfo, needed: nat, available: seq<int>)
    requires !cfg.useHyperthreads
    requires needed <= |Pool(cfg, info, available)|
    ensures var r := Choice(cfg, info, needed, available);
      Increasing(r) && forall c, d :: c in r && d in Pool(cfg, info, available) && d !in r ==> c < d
  {
    var pool := Pool(cfg, info, available);
    var r := Choice(cfg, info, needed, available);
    assert pool - Elements<int>([]) == pool;
    var all := Sorted(pool);
    assert r == all[..needed];
    IncreasingPrefix(all, needed);
    PrefixIsLowest(all, needed);
    forall c, d | c in r && d in pool && d !in r ensures c < d {
      assert d in Elements(all);
    }
  }

  lemma PrefixIsLowest(all: seq<int>, n: nat)
    requires Increasing(all) && n <= |all|
    ensures forall c, d :: c in all[..n] && d in all && d !in all[..n] ==> c < d
  {
    forall c, d | c in all[..n] && d in all && d !in all[..n] ensures c < d {
      var i :| 0 <= i < |all| && all[i] == d;
      var k :| 0 <= k < n && all[k] == c;
      assert all[..n] + all[n..] == all;
      assert d in all[n..];
    }
  }

  /**
   * Idle cores are used up from the lowest on: once a sibling is given out that belongs to no idle core up to
   * `f`, all siblings of the idle core `f` are given out.
   */
  lemma LowestCoresFirst(cfg: Config, info: CpuInfo, needed: nat, available: seq<int>, f: int, c: int)
    requires cfg.useHyperthreads && needed <= |Pool(cfg, info, available)|
    requires f in IdleCores(info, available) && c in IdleSiblings(info, available)
    requires c in Choice(cfg, info, needed, available)
    requires forall h :: h in IdleCores(info, available) && h <= f ==> c !in ThreadsOf(info, h)
    ensures Elements(ThreadsOf(info, f)) <= Elements(Choice(cfg, info, needed, available))
  {
    var order := Sorted(IdleCores(info, available));
    assert f in Elements(order);
    var k :| 0 <= k < |order| && order[k] == f;
    NotUpTo(info, IdleCores(info, available), order, k, c);
    UpToCore(info, available, order, k);
    ChoiceOfFirst(cfg, info, needed, available, Unique(Siblings(info, order[..k + 1])), c);
  }

  lemma NotUpTo(info: CpuInfo, idle: set<int>, order: seq<int>, k: nat, c: int)
    requires Increasing(order) && Elements(order) == idle && k < |order|
    requires forall h :: h in idle && h <= order[k] ==> c !in ThreadsOf(info, h)
    ensures c !in Unique(Siblings(info, order[..k + 1]))
  {
    var cores := order[..k + 1];
    forall i | 0 <= i < |cores| ensures c !in ThreadsOf(info, cores[i]) {
      assert order[i] in Elements(order);
    }
    NotSoFar(info, cores, c);
    assert c in Unique(Siblings(info, cores)) ==> c in Elements(Unique(Siblings(info, cores)));
  }

  lemma UpToCore(info: CpuInfo, available: seq<int>, order: seq<int>, k: nat)
    requires order == Sorted(IdleCores(info, available)) && k < |order|
    ensures var first := Unique(Siblings(info, order[..k + 1]));
      first <= IdleSiblings(info, available) && Elements(ThreadsOf(info, order[k])) <= Elements(first)
  {
    var part := Siblings(info, order[..k + 1]);
    SiblingsSoFar(info, order, k + 1);
    LastSiblings(info, order[..k + 1], order[k]);
    UniquePrefix(part, Siblings(info, order)[|part|..]);
    assert part + Siblings(info, order)[|part|..] == Siblings(info, order);
  }

  lemma ChoiceOfFirst(cfg: Config, info: CpuInfo, needed: nat, available: seq<int>, first: seq<int>, c: int)
    requires cfg.useHyperthreads && needed <= |Pool(cfg, info, available)|
    requires first <= IdleSiblings(info, available) && c in IdleSiblings(info, available) && c !in first
    requires c in Choice(cfg, info, needed, available)
    ensures Elements(first) <= Elements(Choice(cfg, info, needed, available))
  {
    var u := IdleSiblings(info, available);
    if needed <= |u| {
      assert Choice(cfg, info, needed, available) == u[..needed];
      PrefixReached(first, u, needed, c);
    } else {
      assert forall x :: x in first ==> x in u && x in Choice(cfg, info, needed, available);
    }
  }

  lemma LastSiblings(info: CpuInfo, cores: seq<int>, f: int)
    requires cores != [] && cores[|cores| - 1] == f
    ensures Elements(ThreadsOf(info, f)) <= Elements(Siblings(info, cores))
  {
  }

  lemma {:induction false} NotSoFar(info: CpuInfo, cores: seq<int>, c: int)
    requires forall i :: 0 <= i < |cores| ==> c !in ThreadsOf(info, cores[i])
    ensures c !in Siblings(info, cores)
  {
    if cores != [] {
      NotSoFar(info, cores[..|cores| - 1], c);
    }
  }

  lemma PrefixReached(first: seq<int>, u: seq<int>, n: nat, c: int)
    requires first <= u && n <= |u| && c in u[..n] && c !in first
    ensures Elements(first) <= Elements(u[..n])
  {
    var i :| 0 <= i < n && u[i] == c;
    forall k | 0 <= k < |first| ensures u[k] != c {
      assert first[k] in first;
    }
    assert |first| <= i;
    assert first == u[..n][..|first|];
  }

  /**
   * The CPU phase of a placement. It fails exactly when the pool is too small, so the
   * shortage branch after the first pass is dead.
   */
  method SelectCpus(cfg: Config, info: CpuInfo, ncpus: int, available: seq<int>) returns (r: Option<seq<int>>)
    requires ncpus > 0 && Known(info, available)
    ensures r.Some? <==> Needed(cfg, info, ncpus) <= |Pool(cfg, info, available)|
    ensures r.Some? ==> r.value == Choice(cfg, info, Needed(cfg, info, ncpus), available)
    ensures r.Some? ==> |r.value| == if cfg.useHyperthreads && cfg.ncpusAreCores then ncpus * info.perCore else ncpus
    ensures r.Some? <==>
      (ncpus * (if cfg.useHyperthreads && cfg.ncpusAreCores then info.perCore else 1) <=
       |if cfg.useHyperthreads then Elements(available) else Elements(available) - Elements(info.hyperthreads)|)
  {
    var cores := Elements(available);
    if !cfg.useHyperthreads {
      cores := cores - Elements(info.hyperthreads);
    }
    ghost var pool := cores;
    var avail := |cores|;
    var needed := ncpus;
    if cfg.useHyperthreads && cfg.ncpusAreCores {
      MultiplePositive(needed, info.perCore);
      needed := needed * info.perCore;
    }
    ghost var wanted := needed;
    if needed > avail {
      return None;
    }
    ChoiceIsExact(cfg, info, needed, available);
    var chosen := [];
    if cfg.useHyperthreads {
      cores, needed, chosen := TakeIdleSiblings(cfg, info, needed, cores, available);
    }
    assert |cores| == |pool| - |chosen| by {
      ElementsCard(chosen);
      SubtractCard(pool, Elements(chosen));
    }
    if needed <= 0 {
      assert chosen == chosen + Sorted(cores)[..0];
    } else if needed <= |cores| {
      var corelist := SortSet(cores);
      chosen := chosen + corelist[..needed];
    } else {
      assert false;
    }
    return Some(chosen);
  }

  lemma MultiplePositive(a: int, b: int)
    requires a > 0 && b >= 1
    ensures a * b > 0
  {
  }

  /** The first pass: give out siblings of fully idle cores, and count what is still needed. */
  method TakeIdleSiblings(cfg: Config, info: CpuInfo, wanted: int, pool: set<int>, available: seq<int>)
    returns (cores: set<int>, needed: int, chosen: seq<int>)
    requires Known(info, available) && cfg.useHyperthreads && pool == Pool(cfg, info, available)
    requires wanted > 0
    ensures chosen == FirstPass(cfg, info, wanted, available)
    ensures cores == pool - Elements(chosen)
    ensures needed == wanted - |chosen|
  {
    var idle := FindIdleCores(info, pool, available);
    var order := SortSet(idle);
    cores, needed, chosen := pool, wanted, [];
    ghost var seen := [];
    var i := 0;
    while i < |order|
      invariant 0 <= i <= |order|
      invariant needed > 0 && seen == Siblings(info, order[..i])
      invariant Progress(pool, wanted, seen, cores, needed, chosen)
    {
      var corenum := order[i];
      assert corenum in idle && corenum in Elements(available);
      cores, needed, chosen, seen := TakeThreads(pool, wanted, info.threads[corenum], cores, needed, chosen, seen);
      assert order[..i + 1][..i] == order[..i];
      if needed <= 0 {
        assert seen <= Siblings(info, order[..i + 1]);
        i := i + 1;
        break;
      }
      i := i + 1;
    }
    SiblingsSoFar(info, order, i);
    FirstPassDone(cfg, info, wanted, pool, available, order, seen, cores, needed, chosen);
  }

  lemma FirstPassDone(cfg: Config, info: CpuInfo, wanted: nat, pool: set<int>, available: seq<int>, order: seq<int>,
                      seen: seq<int>, cores: set<int>, needed: int, chosen: seq<int>)
    requires cfg.useHyperthreads && order == Sorted(IdleCores(info, available))
    requires Progress(pool, wanted, seen, cores, needed, chosen) && needed >= 0
    requires seen <= Siblings(info, order) && (needed > 0 ==> seen == Siblings(info, order))
    ensures chosen == FirstPass(cfg, info, wanted, available)
  {
    var all := Siblings(info, order);
    UniquePrefix(seen, all[|seen|..]);
    assert seen + all[|seen|..] == all;
  }

  /** What the first pass has done after the siblings in `seen`: they are taken, once each. */
  ghost predicate Progress(pool: set<int>, wanted: int, seen: seq<int>, cores: set<int>, needed: int, chosen: seq<int>) {
    && chosen == Unique(seen)
    && needed == wanted - |chosen|
    && cores == pool - Elements(chosen)
  }

  lemma ProgressStep(pool: set<int>, wanted: int, seen: seq<int>, cores: set<int>, needed: int, chosen: seq<int>, x: int)
    requires Progress(pool, wanted, seen, cores, needed, chosen)
    ensures x in chosen ==> Progress(pool, wanted, seen + [x], cores, needed, chosen)
    ensures x !in chosen ==> Progress(pool, wanted, seen + [x], cores - {x}, needed - 1, chosen + [x])
  {
    UniqueStep(seen, x);
    ElementsAppend(chosen, [x]);
    assert Elements([x]) == {x};
  }

  /** The inner loop of the first pass, over the siblings of one core. */
  method TakeThreads(ghost pool: set<int>, ghost wanted: int, threads: seq<int>, cores0: set<int>, needed0: int,
                     chosen0: seq<int>, ghost seen0: seq<int>)
    returns (cores: set<int>, needed: int, chosen: seq<int>, ghost seen: seq<int>)
    requires needed0 > 0 && Progress(pool, wanted, seen0, cores0, needed0, chosen0)
    ensures Progress(pool, wanted, seen, cores, needed, chosen)
    ensures needed >= 0 && seen <= seen0 + threads
    ensures needed > 0 ==> seen == seen0 + threads
  {
    cores, needed, chosen, seen := cores0, needed0, chosen0, seen0;
    var k := 0;
    while k < |threads|
      invariant 0 <= k <= |threads| && needed > 0
      invariant seen == seen0 + threads[..k]
      invariant Progress(pool, wanted, seen, cores, needed, chosen)
    {
      var thread := threads[k];
      ProgressStep(pool, wanted, seen, cores, needed, chosen, thread);
      assert threads[..k + 1] == threads[..k] + [thread];
      seen := seen + [thread];
      k := k + 1;
      if thread in chosen {
        continue;
      }
      chosen := chosen + [thread];
      needed := needed - 1;
      if thread in cores {
        cores := cores - {thread};
      }
      if needed <= 0 {
        break;
      }
    }
    TakenSoFar(seen0, threads, k);
  }

  lemma TakenSoFar(seen: seq<int>, threads: seq<int>, k: nat)
    requires k <= |threads|
    ensures seen + threads[..k] <= seen + threads
    ensures k == |threads| ==> seen + threads[..k] == seen + threads
  {
    assert seen + threads == (seen + threads[..k]) + threads[k..];
  }

  /** The loop that marks the cores all of whose siblings are free. */
  method FindIdleCores(info: CpuInfo, cores: set<int>, available: seq<int>) returns (idle: set<int>)
    requires Known(info, available) && cores == Elements(available)
    ensures idle == IdleCores(info, available)
  {
    idle := {};
    var order := SortSet(cores);
    var i := 0;
    while i < |order|
      invariant 0 <= i <= |order|
      invariant idle == set c | c in order[..i] && c !in info.hyperthreads && Elements(ThreadsOf(info, c)) <= Elements(available)
    {
      var corenum := order[i];
      assert order[..i + 1] == order[..i] + [corenum];
      assert corenum in cores;
      if corenum !in info.hyperthreads && Elements(info.threads[corenum]) <= Elements(available) {
        idle := idle + {corenum};
      }
      i := i + 1;
    }
    assert order[..i] == order;
  }
}
