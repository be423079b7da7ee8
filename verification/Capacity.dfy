/** What the node advertises against what the allocator can give, and how the policies treat physical cores. */
module Capacity {
  import opened Collections
  import opened CpuSelection
  import opened Topology
  import opened Availability
  import opened Placement
  import opened Allocator

  // ---------- advertised CPUs ----------

  /** The CPU count that one NUMA node contributes to the host. */
  function Threads(m: Machine, s: int): nat
    requires s in m.node.numa && m.info.perCore >= 1
  {
    CountedAs(m.cfg, |m.node.numa[s].cpus|, m.info.perCore)
  }

  function CountedAs(cfg: Config, cpus: nat, perCore: nat): nat
    requires perCore >= 1
  {
    if !cfg.useHyperthreads || cfg.ncpusAreCores then cpus / perCore else cpus
  }

  ghost function Advertised(m: Machine): nat
    requires m.info.perCore >= 1
  {
    SumOver(m.node.numa.Keys, map s | s in m.node.numa :: Threads(m, s))
  }

  /** The loop that sums the host's CPUs over the NUMA nodes, in an arbitrary order. */
  method CreateVnodes(m: Machine) returns (ncpus: nat)
    requires m.info.perCore >= 1
    ensures ncpus == Advertised(m)
  {
    ghost var weight := map s | s in m.node.numa :: Threads(m, s);
    ncpus := 0;
    var todo := m.node.numa.Keys;
    while todo != {}
      invariant todo <= m.node.numa.Keys
      invariant ncpus + SumOver(todo, weight) == Advertised(m)
    {
      assert exists s :: s in todo by {
        var s := Any(todo);
      }
      var s: int :| s in todo;
      SumOverRemove(todo, weight, s);
      var threads := |m.node.numa[s].cpus|;
      if !m.cfg.useHyperthreads {
        threads := threads / m.info.perCore;
      } else if m.cfg.ncpusAreCores {
        threads := threads / m.info.perCore;
      }
      ncpus := ncpus + threads;
      todo := todo - {s};
    }
  }

  // ---------- whole cores ----------

  /** A set of CPUs made of whole cores: it contains every sibling of its members. */
  ghost predicate Closed(cpus: CpuTable, s: set<int>) {
    s <= cpus.Keys && forall c, d :: c in s && d in cpus && Same(cpus, c, d) ==> d in s
  }

  ghost function Class(cpus: CpuTable, c: int): set<int>
    requires c in cpus
  {
    set d | d in cpus && Same(cpus, c, d)
  }

  /** Whole cores of `k` threads each: counting CPUs is counting first threads `k` times. */
  lemma {:induction false} CountCores(cpus: CpuTable, info: CpuInfo, s: set<int>, k: nat)
    requires Mapped(cpus, info) && Closed(cpus, s) && forall c :: c in s ==> |Class(cpus, c)| == k
    ensures |s| == k * |s - Elements(info.hyperthreads)|
    decreases |s|
  {
    if s == {} {
      assert s - Elements(info.hyperthreads) == {};
    } else {
      var f := LeastExists(s);
      RemoveCore(cpus, info, s, f);
      CountCores(cpus, info, s - Class(cpus, f), k);
      OneMore(|s|, |s - Class(cpus, f)|, |s - Elements(info.hyperthreads)|, |(s - Class(cpus, f)) - Elements(info.hyperthreads)|, k);
    }
  }

  lemma OneMore(total: nat, rest: nat, firsts: nat, restFirsts: nat, k: nat)
    requires total == rest + k && firsts == restFirsts + 1 && rest == k * restFirsts
    ensures total == k * firsts
  {
  }

  /** Taking away the core of the least CPU takes away one first thread. */
  lemma RemoveCore(cpus: CpuTable, info: CpuInfo, s: set<int>, f: int)
    requires Mapped(cpus, info) && Closed(cpus, s) && f in s && forall c :: c in s ==> f <= c
    ensures f in Class(cpus, f) && Closed(cpus, s - Class(cpus, f))
    ensures |s| == |s - Class(cpus, f)| + |Class(cpus, f)|
    ensures |s - Elements(info.hyperthreads)| == |(s - Class(cpus, f)) - Elements(info.hyperthreads)| + 1
  {
    var core := Class(cpus, f);
    var firsts := s - Elements(info.hyperthreads);
    SubtractCard(s, core);
    forall c | c in core && c != f ensures c in info.hyperthreads {
      assert c in Later(cpus, f);
    }
    FirstThreads(cpus, info, f);
    assert firsts - {f} == (s - core) - Elements(info.hyperthreads);
    SubtractCard(firsts, {f});
  }

  /** Each NUMA node holds whole cores of equal thread count. */
  ghost predicate WholeCores(m: Machine) {
    forall s :: s in m.node.numa ==>
      |m.node.numa[s].cpus| == m.info.perCore * |Elements(m.node.numa[s].cpus) - Elements(m.info.hyperthreads)|
  }

  /** What the processor table must say for that: every NUMA node lists all siblings, and cores are equally wide. */
  lemma WholeCoresFromTable(m: Machine, cpus: CpuTable)
    requires m.Valid() && Mapped(cpus, m.info)
    requires forall s :: s in m.node.numa ==> Closed(cpus, Elements(m.node.numa[s].cpus))
    requires forall s, c :: s in m.node.numa && c in Elements(m.node.numa[s].cpus) && c in cpus ==>
      |Class(cpus, c)| == m.info.perCore
    ensures WholeCores(m)
  {
    forall s | s in m.node.numa
      ensures |m.node.numa[s].cpus| == m.info.perCore * |Elements(m.node.numa[s].cpus) - Elements(m.info.hyperthreads)|
    {
      CountCores(cpus, m.info, Elements(m.node.numa[s].cpus), m.info.perCore);
      ElementsCard(m.node.numa[s].cpus);
    }
  }

  // ---------- the pool of all sockets ----------

  /** A weight summed along a list of sockets. */
  ghost function ListSum(order: seq<int>, weight: map<int, nat>): nat {
    if order == [] then 0
    else
      var last := order[|order| - 1];
      ListSum(order[..|order| - 1], weight) + if last in weight then weight[last] else 0
  }

  /** The size of each socket's pool. */
  ghost function PoolSizes(m: Machine, avail: map<int, Avail>): map<int, nat> {
    map s | s in avail :: |Pool(m.cfg, m.info, avail[s].cpus)|
  }

  lemma {:induction false} PooledSize(m: Machine, avail: map<int, Avail>, order: seq<int>)
    requires DisjointCpus(avail) && Distinct(order)
    ensures |Pool(m.cfg, m.info, Pooled(avail, order).cpus)| == ListSum(order, PoolSizes(m, avail))
  {
    if order == [] {
    } else {
      var front, last := order[..|order| - 1], order[|order| - 1];
      PooledSize(m, avail, front);
      if last in avail {
        var rest := Pooled(avail, front);
        ElementsAppend(rest.cpus, avail[last].cpus);
        forall c | c in Elements(rest.cpus) ensures c !in Elements(avail[last].cpus) {
          PooledCpus(avail, front, c);
          var s :| s in Elements(front) && s in avail && c in Elements(avail[s].cpus);
          assert s != last;
        }
        UnionSize(Pool(m.cfg, m.info, rest.cpus), Pool(m.cfg, m.info, avail[last].cpus),
                  Pool(m.cfg, m.info, Pooled(avail, order).cpus));
      }
    }
  }

  lemma UnionSize(a: set<int>, b: set<int>, c: set<int>)
    requires a !! b && c == a + b
    ensures |c| == |a| + |b|
  {
  }

  /** How many logical CPUs one requested CPU stands for. */
  function Width(m: Machine): nat {
    if m.cfg.useHyperthreads && m.cfg.ncpusAreCores then m.info.perCore else 1
  }

  lemma {:induction false} SumScaled(order: seq<int>, size: map<int, nat>, weight: map<int, nat>, k: nat)
    requires Distinct(order) && Elements(order) <= weight.Keys && size.Keys == weight.Keys
    requires forall s :: s in weight ==> size[s] == weight[s] * k
    ensures ListSum(order, size) == SumOver(Elements(order), weight) * k
  {
    if order == [] {
      assert Elements(order) == {};
    } else {
      var front, last := order[..|order| - 1], order[|order| - 1];
      assert last in Elements(order) && Elements(front) == Elements(order) - {last};
      SumScaled(front, size, weight, k);
      SumOverRemove(Elements(order), weight, last);
      AddScaled(ListSum(front, size), SumOver(Elements(front), weight), weight[last], k);
    }
  }

  lemma AddScaled(rest: nat, sum: nat, w: nat, k: nat)
    requires rest == sum * k
    ensures rest + w * k == (w + sum) * k
  {
  }

  /** One idle socket: the policy's pool is as large as the advertised CPUs need. */
  lemma OneSocket(m: Machine, s: int)
    requires m.Valid() && WholeCores(m) && s in m.node.numa
    ensures |Pool(m.cfg, m.info, m.node.numa[s].cpus)| == Threads(m, s) * Width(m)
  {
    var all := m.node.numa[s].cpus;
    ElementsCard(all);
    CountedBack(m.cfg, |all|, |Elements(all) - Elements(m.info.hyperthreads)|, m.info.perCore);
  }

  lemma CountedBack(cfg: Config, n: nat, firsts: nat, k: nat)
    requires k >= 1 && n == k * firsts
    ensures CountedAs(cfg, n, k) * (if cfg.useHyperthreads && cfg.ncpusAreCores then k else 1) ==
      if cfg.useHyperthreads then n else firsts
  {
    QuotientOf(firsts, k, n);
  }

  lemma QuotientOf(q: nat, k: nat, n: nat)
    requires k >= 1 && n == k * q
    ensures n / k == q && (n / k) * k == n
  {
    var x, y := n / k, n % k;
    assert n == k * x + y;
    if x > q {
      ScaleMono(q + 1, x, k);
    }
    if x < q {
      ScaleMono(x + 1, q, k);
    }
  }

  /**
   * A CPU-only request is placed on an idle node exactly up to the advertised count, under each hyperthread
   * policy and whatever order the sockets are tried in.
   */
  lemma AdvertisedIsAllocatable(m: Machine, ncpus: int, avail: map<int, Avail>, keys: seq<int>, placed: seq<int>)
    requires m.Valid() && DisjointNuma(m.node) && WholeCores(m) && 1 <= ncpus
    requires IsAvailable(m.node, map[], {}, avail) && Distinct(keys) && Elements(keys) == m.node.numa.Keys
    ensures AllUsable(m, avail)
    ensures Place(m, Request(Some(ncpus), None, None, None), avail, SocketOrder(m.cfg, keys, placed)).Some? <==>
      ncpus <= Advertised(m)
  {
    var order := SocketOrder(m.cfg, keys, placed);
    SocketOrderElements(m.cfg, keys, placed);
    DistinctPermutation(keys, order);
    ViewUsable(m, map[], {}, View(avail, keys, []));
    IdleFits(m, ncpus, avail, order);
    PlacedIffPooled(m, ncpus, avail, order);
  }

  /** CPUs alone are found one way or another exactly if all sockets together have them. */
  lemma PlacedIffPooled(m: Machine, ncpus: int, avail: map<int, Avail>, order: seq<int>)
    requires AllUsable(m, avail) && 1 <= ncpus
    ensures var req := Request(Some(ncpus), None, None, None);
      Place(m, req, avail, order).Some? <==> Fits(m, req, Pooled(avail, order))
  {
    var req := Request(Some(ncpus), None, None, None);
    var i := FirstFit(m, req, avail, order);
    if i < |order| {
      assert order[i] in Elements(order);
      PoolGrows(m, avail, order, order[i]);
    }
  }

  lemma PoolGrows(m: Machine, avail: map<int, Avail>, order: seq<int>, s: int)
    requires s in avail && s in Elements(order)
    ensures |Pool(m.cfg, m.info, avail[s].cpus)| <= |Pool(m.cfg, m.info, Pooled(avail, order).cpus)|
  {
    var part, all := Pool(m.cfg, m.info, avail[s].cpus), Pool(m.cfg, m.info, Pooled(avail, order).cpus);
    forall c | c in part ensures c in all {
      PooledCpus(avail, order, c);
    }
    SubtractCard(all, part);
  }

  lemma IdleFits(m: Machine, ncpus: int, avail: map<int, Avail>, order: seq<int>)
    requires m.Valid() && DisjointNuma(m.node) && WholeCores(m) && 1 <= ncpus
    requires IsAvailable(m.node, map[], {}, avail) && Distinct(order) && Elements(order) == m.node.numa.Keys
    ensures Fits(m, Request(Some(ncpus), None, None, None), Pooled(avail, order)) <==> ncpus <= Advertised(m)
  {
    var weight := map s | s in m.node.numa :: Threads(m, s);
    IdleIsEverything(m, avail);
    PooledSize(m, avail, order);
    forall s | s in weight ensures PoolSizes(m, avail)[s] == weight[s] * Width(m) {
      OneSocket(m, s);
    }
    SumScaled(order, PoolSizes(m, avail), weight, Width(m));
    ScaleOrder(ncpus, Advertised(m), Width(m));
    CpusFit(m, ncpus, Pooled(avail, order));
  }

  lemma CpusFit(m: Machine, ncpus: int, a: Avail)
    requires 1 <= ncpus
    ensures Fits(m, Request(Some(ncpus), None, None, None), a) <==> ncpus * Width(m) <= |Pool(m.cfg, m.info, a.cpus)|
  {
  }

  lemma ScaleOrder(a: int, b: int, k: int)
    requires k >= 1
    ensures a <= b <==> a * k <= b * k
  {
    if a > b {
      ScaleMono(b + 1, a, k);
    }
  }

  lemma ScaleMono(a: int, b: int, k: int)
    requires a <= b && k >= 1
    ensures a * k <= b * k
  {
  }

  lemma IdleIsEverything(m: Machine, avail: map<int, Avail>)
    requires DisjointNuma(m.node) && IsAvailable(m.node, map[], {}, avail)
    ensures DisjointCpus(avail)
    ensures forall s :: s in avail ==> avail[s].cpus == m.node.numa[s].cpus
  {
    forall s | s in avail ensures avail[s].cpus == m.node.numa[s].cpus {
      assert IsFree(m.node, map[], {}, s, avail[s]);
      assert TakenCpus(map[], {}, s) == {};
      WithoutNone(m.node.numa[s].cpus);
    }
  }

  // ---------- jobs and physical cores under hyperthreading ----------

  lemma {:induction false} SiblingsCover(info: CpuInfo, cores: seq<int>, c: int)
    requires c in Elements(cores)
    ensures Elements(ThreadsOf(info, c)) <= Elements(Siblings(info, cores))
  {
    var front, last := cores[..|cores| - 1], cores[|cores| - 1];
    ElementsAppend(Siblings(info, front), ThreadsOf(info, last));
    if c != last {
      assert c in Elements(front);
      SiblingsCover(info, front, c);
    }
  }

  /** The least CPU of a core. */
  lemma FirstOf(cpus: CpuTable, info: CpuInfo, c: int) returns (f: int)
    requires Mapped(cpus, info) && c in cpus
    ensures f in cpus && Same(cpus, f, c) && f !in info.hyperthreads && (c != f ==> c in Later(cpus, f))
  {
    assert c in Class(cpus, c);
    f := LeastExists(Class(cpus, c));
    forall d | d in cpus && Same(cpus, f, d) ensures f <= d {
      assert d in Class(cpus, c);
    }
    FirstThreads(cpus, info, f);
  }

  /** The free CPUs whose cores are free as a whole. */
  ghost function WholeFree(cpus: CpuTable, s: set<int>): set<int> {
    set c | c in s && c in cpus && Class(cpus, c) <= s
  }

  /** The first thread of a core and its later siblings make up the core. */
  lemma FirstClass(cpus: CpuTable, info: CpuInfo, c: int)
    requires Mapped(cpus, info) && c in cpus && c !in info.hyperthreads
    ensures Class(cpus, c) == {c} + Elements(ThreadsOf(info, c)) && Elements(ThreadsOf(info, c)) == Later(cpus, c)
  {
    FirstThreads(cpus, info, c);
  }

  /** The cores that count as idle are those free as a whole, each named by its first thread. */
  lemma IdleCoresAre(cpus: CpuTable, info: CpuInfo, available: seq<int>)
    requires Mapped(cpus, info) && Elements(available) <= cpus.Keys
    ensures IdleCores(info, available) == WholeFree(cpus, Elements(available)) - Elements(info.hyperthreads)
  {
    forall c | c in Elements(available) && c !in info.hyperthreads
      ensures c in IdleCores(info, available) <==> c in WholeFree(cpus, Elements(available))
    {
      FirstClass(cpus, info, c);
    }
  }

  /** The first pass offers exactly those CPUs of wholly free cores that are not first threads. */
  lemma IdleSiblingsAre(cpus: CpuTable, info: CpuInfo, available: seq<int>)
    requires Mapped(cpus, info) && Elements(available) <= cpus.Keys
    ensures Elements(IdleSiblings(info, available)) == WholeFree(cpus, Elements(available)) * Elements(info.hyperthreads)
  {
    var order := Sorted(IdleCores(info, available));
    var offered := WholeFree(cpus, Elements(available)) * Elements(info.hyperthreads);
    IdleCoresAre(cpus, info, available);
    forall c | c in offered ensures c in Elements(Siblings(info, order)) {
      var f := FirstOf(cpus, info, c);
      assert f in Class(cpus, c) && Class(cpus, f) == Class(cpus, c);
      SiblingsCover(info, order, f);
    }
    forall f | f in Elements(order) ensures Elements(ThreadsOf(info, f)) <= offered {
      ThreadsOffered(cpus, info, Elements(available), f);
    }
    SiblingsElements(info, order, offered);
  }

  lemma ThreadsOffered(cpus: CpuTable, info: CpuInfo, s: set<int>, f: int)
    requires Mapped(cpus, info) && f in WholeFree(cpus, s) && f !in info.hyperthreads
    ensures Elements(ThreadsOf(info, f)) <= WholeFree(cpus, s) * Elements(info.hyperthreads)
  {
    FirstClass(cpus, info, f);
    forall d | d in Later(cpus, f) ensures d in WholeFree(cpus, s) && d in info.hyperthreads {
      assert d in Class(cpus, f) && Class(cpus, d) == Class(cpus, f);
    }
  }

  /**
   * With hyperthreads on, a job that gets more than the siblings of idle cores gets those and the lowest of
   * the other free CPUs.
   */
  lemma ChoiceParts(cfg: Config, info: CpuInfo, needed: nat, available: seq<int>) returns (rest: set<int>)
    requires cfg.useHyperthreads && needed <= |Pool(cfg, info, available)| && |IdleSiblings(info, available)| < needed
    ensures var s, u := Elements(available), Elements(IdleSiblings(info, available));
      && Elements(Choice(cfg, info, needed, available)) == u + rest
      && rest <= s - u && |u| + |rest| == needed && Lowest(rest, s - u)
  {
    var u := IdleSiblings(info, available);
    var others := Sorted(Pool(cfg, info, available) - Elements(u));
    ElementsCard(u);
    SubtractCard(Pool(cfg, info, available), Elements(u));
    assert FirstPass(cfg, info, needed, available) == u;
    var taken := others[..needed - |u|];
    rest := Elements(taken);
    ElementsAppend(u, taken);
    IncreasingPrefix(others, needed - |u|);
    ElementsCard(taken);
    PrefixLowest(others, needed - |u|);
  }

  /** Members of a set below all its other members. */
  predicate Lowest(r: set<int>, s: set<int>) {
    forall c, d :: c in r && d in s && d !in r ==> c < d
  }

  lemma PrefixLowest(list: seq<int>, n: nat)
    requires Increasing(list) && n <= |list|
    ensures Lowest(Elements(list[..n]), Elements(list))
  {
  }

  lemma LowestUnique(a: set<int>, b: set<int>, s: set<int>)
    requires a <= s && b <= s && |a| == |b| && Lowest(a, s) && Lowest(b, s)
    ensures a == b
  {
    SubtractCard(a, a * b);
    SubtractCard(b, a * b);
    assert a - b == a - a * b && b - a == b - a * b;
    assert |a - b| == |b - a|;
    if a - b != {} {
      var x, y := Any(a - b), Any(b - a);
      assert false;
    }
    assert b - a == {};
  }

  /**
   * A job of `needed` CPUs gets whole cores, namely all siblings of the wholly free ones and the first threads
   * `m`: those of all wholly free cores with several threads, and no other free CPU is below one of them.
   */
  ghost predicate TakesWhole(cpus: CpuTable, info: CpuInfo, s: set<int>, needed: nat, m: set<int>) {
    var w := WholeFree(cpus, s);
    var u := w * Elements(info.hyperthreads);
    && m <= w - u && |u| + |m| == needed && Lowest(m, s - u)
    && forall f :: f in w - u && Later(cpus, f) != {} ==> f in m
  }

  /** What is handed out first is no whole core, as the first threads are missing. */
  lemma SiblingsAloneSplit(cfg: Config, cpus: CpuTable, info: CpuInfo, needed: nat, available: seq<int>)
    requires cfg.useHyperthreads && Mapped(cpus, info) && Elements(available) <= cpus.Keys
    requires 0 < needed <= |IdleSiblings(info, available)| && needed <= |Pool(cfg, info, available)|
    ensures !Closed(cpus, Elements(Choice(cfg, info, needed, available)))
  {
    var u := IdleSiblings(info, available);
    IdleSiblingsAre(cpus, info, available);
    assert Choice(cfg, info, needed, available) == u[..needed] + [];
    var c := u[0];
    assert c in Elements(u) && c in Elements(u[..needed]);
    var f := FirstOf(cpus, info, c);
    assert f !in Elements(u) && Elements(u[..needed]) <= Elements(u);
    assert Same(cpus, c, f);
  }

  lemma TooFewToTake(cpus: CpuTable, info: CpuInfo, s: set<int>, needed: nat, m: set<int>)
    requires Mapped(cpus, info) && s <= cpus.Keys && TakesWhole(cpus, info, s, needed, m)
    ensures needed == 0 || needed > |WholeFree(cpus, s) * Elements(info.hyperthreads)|
  {
    var u := WholeFree(cpus, s) * Elements(info.hyperthreads);
    if u != {} {
      var c := Any(u);
      var f := FirstOf(cpus, info, c);
      assert f in Class(cpus, c) && Class(cpus, f) == Class(cpus, c);
      assert f in m;
    }
  }

  lemma NoneTaken(cpus: CpuTable, info: CpuInfo, s: set<int>, needed: nat)
    requires Mapped(cpus, info) && s <= cpus.Keys && 0 < needed <= |WholeFree(cpus, s) * Elements(info.hyperthreads)|
    ensures !exists m :: TakesWhole(cpus, info, s, needed, m)
  {
    if m :| TakesWhole(cpus, info, s, needed, m) {
      TooFewToTake(cpus, info, s, needed, m);
      assert false;
    }
  }

  lemma ClosedTakes(cpus: CpuTable, info: CpuInfo, s: set<int>, needed: nat, rest: set<int>)
    requires Mapped(cpus, info) && s <= cpus.Keys
    requires var u := WholeFree(cpus, s) * Elements(info.hyperthreads);
      rest <= s - u && |u| + |rest| == needed && Lowest(rest, s - u) && Closed(cpus, u + rest)
    ensures TakesWhole(cpus, info, s, needed, rest)
  {
    var w := WholeFree(cpus, s);
    var u := w * Elements(info.hyperthreads);
    forall c | c in rest ensures c in w {
      assert Class(cpus, c) <= u + rest;
    }
    forall f | f in w - u && Later(cpus, f) != {} ensures f in rest {
      var y := Any(Later(cpus, f));
      ThreadsOffered(cpus, info, s, f);
      FirstClass(cpus, info, f);
      assert y in u && Same(cpus, y, f);
    }
  }

  lemma TakenIsClosed(cpus: CpuTable, info: CpuInfo, s: set<int>, needed: nat, m: set<int>)
    requires Mapped(cpus, info) && s <= cpus.Keys && TakesWhole(cpus, info, s, needed, m)
    ensures Closed(cpus, WholeFree(cpus, s) * Elements(info.hyperthreads) + m)
  {
    var w := WholeFree(cpus, s);
    var u := w * Elements(info.hyperthreads);
    forall c, d | c in u + m && d in cpus && Same(cpus, c, d) ensures d in u + m {
      SiblingTaken(cpus, info, s, m, c, d);
    }
  }

  lemma SiblingTaken(cpus: CpuTable, info: CpuInfo, s: set<int>, m: set<int>, c: int, d: int)
    requires Mapped(cpus, info) && c in WholeFree(cpus, s) && d in cpus && Same(cpus, c, d)
    requires c in info.hyperthreads || c in m
    requires forall f :: f in WholeFree(cpus, s) - Elements(info.hyperthreads) && Later(cpus, f) != {} ==> f in m
    ensures d in WholeFree(cpus, s) && (d in info.hyperthreads || d in m)
  {
    assert d in Class(cpus, c) && Class(cpus, d) == Class(cpus, c);
    if d !in info.hyperthreads && d != c {
      FirstThreads(cpus, info, d);
      assert c in Later(cpus, d);
    }
  }

  /**
   * Exactly when a job gets whole cores with hyperthreads on, whatever is free: if it needs nothing, or
   * exactly all threads of the wholly free cores, single-threaded ones apart, whose first threads are the
   * lowest of the free CPUs that remain. The first pass hands out second threads of many cores before any
   * first thread, also when requests count cores.
   */
  lemma WholeCoresIff(cfg: Config, cpus: CpuTable, info: CpuInfo, needed: nat, available: seq<int>)
    requires cfg.useHyperthreads && Mapped(cpus, info) && Elements(available) <= cpus.Keys
    requires needed <= |Pool(cfg, info, available)|
    ensures Closed(cpus, Elements(Choice(cfg, info, needed, available))) <==>
      needed == 0 || exists m :: TakesWhole(cpus, info, Elements(available), needed, m)
  {
    var s, u := Elements(available), IdleSiblings(info, available);
    IdleSiblingsAre(cpus, info, available);
    ElementsCard(u);
    if needed == 0 {
      assert Choice(cfg, info, needed, available) == [];
    } else if needed <= |u| {
      SiblingsAloneSplit(cfg, cpus, info, needed, available);
      NoneTaken(cpus, info, s, needed);
    } else {
      BeyondSiblings(cfg, cpus, info, needed, available);
    }
  }

  lemma BeyondSiblings(cfg: Config, cpus: CpuTable, info: CpuInfo, needed: nat, available: seq<int>)
    requires cfg.useHyperthreads && Mapped(cpus, info) && Elements(available) <= cpus.Keys
    requires |IdleSiblings(info, available)| < needed <= |Pool(cfg, info, available)|
    ensures Closed(cpus, Elements(Choice(cfg, info, needed, available))) <==>
      exists m :: TakesWhole(cpus, info, Elements(available), needed, m)
  {
    var s := Elements(available);
    var u := WholeFree(cpus, s) * Elements(info.hyperthreads);
    IdleSiblingsAre(cpus, info, available);
    var rest := ChoiceParts(cfg, info, needed, available);
    if Closed(cpus, u + rest) {
      ClosedTakes(cpus, info, s, needed, rest);
    }
    if m :| TakesWhole(cpus, info, s, needed, m) {
      LowestUnique(m, rest, s - u);
      TakenIsClosed(cpus, info, s, needed, m);
    }
  }

  /** All CPUs of the wholly free cores are needed, and their first threads are below the other free CPUs. */
  ghost predicate TakesAll(cpus: CpuTable, info: CpuInfo, s: set<int>, needed: nat) {
    var w := WholeFree(cpus, s);
    needed == |w| && forall c, d :: c in w - Elements(info.hyperthreads) && d in s - w ==> c < d
  }

  lemma TakesAllIff(cpus: CpuTable, info: CpuInfo, s: set<int>, needed: nat)
    requires forall c :: c in WholeFree(cpus, s) - Elements(info.hyperthreads) ==> c in cpus && Later(cpus, c) != {}
    ensures TakesAll(cpus, info, s, needed) <==> exists m :: TakesWhole(cpus, info, s, needed, m)
  {
    var w := WholeFree(cpus, s);
    var h := Elements(info.hyperthreads);
    FirstsApart(s, w, h);
    if TakesAll(cpus, info, s, needed) {
      assert TakesWhole(cpus, info, s, needed, w - h);
    }
    if m :| TakesWhole(cpus, info, s, needed, m) {
      assert m == w - h;
    }
  }

  /** The CPUs of a set `w` apart from those in `h`, as a part of `s`. */
  lemma FirstsApart(s: set<int>, w: set<int>, h: set<int>)
    requires w <= s
    ensures w - w * h == w - h && |w * h| + |w - h| == |w|
    ensures Lowest(w - h, s - w * h) <==> forall c, d :: c in w - h && d in s - w ==> c < d
  {
    SubtractCard(w, w * h);
    assert w - w * h == w - h;
    assert forall d :: d in s - w * h && d !in w - h <==> d in s - w;
  }

  /** Where every wholly free core has several threads, a job gets whole cores only if it gets nothing or all of those. */
  lemma MultiThreadedIff(cfg: Config, cpus: CpuTable, info: CpuInfo, needed: nat, available: seq<int>)
    requires cfg.useHyperthreads && Mapped(cpus, info) && Elements(available) <= cpus.Keys
    requires needed <= |Pool(cfg, info, available)|
    requires forall c :: c in WholeFree(cpus, Elements(available)) - Elements(info.hyperthreads) ==> Later(cpus, c) != {}
    ensures Closed(cpus, Elements(Choice(cfg, info, needed, available))) <==>
      needed == 0 || TakesAll(cpus, info, Elements(available), needed)
  {
    WholeCoresIff(cfg, cpus, info, needed, available);
    TakesAllIff(cpus, info, Elements(available), needed);
  }

  /** With only whole multi-threaded cores free, a job gets whole cores only if it gets nothing or everything. */
  lemma IdleWholeCoresIff(cfg: Config, cpus: CpuTable, info: CpuInfo, needed: nat, available: seq<int>)
    requires cfg.useHyperthreads && Mapped(cpus, info) && Closed(cpus, Elements(available))
    requires forall c :: c in Elements(available) && c !in info.hyperthreads ==> c in cpus && Later(cpus, c) != {}
    requires needed <= |Pool(cfg, info, available)|
    ensures Closed(cpus, Elements(Choice(cfg, info, needed, available))) <==>
      needed == 0 || needed == |Elements(available)|
  {
    assert WholeFree(cpus, Elements(available)) == Elements(available);
    MultiThreadedIff(cfg, cpus, info, needed, available);
  }

  /** Two cores of two threads each, numbered as Linux does: first threads first. */
  function TwoCores(): CpuTable {
    var thread := (core: nat) => CpuEntry(Some(true), Some(true), Some(4), Some(2), Some(0), Some(core));
    map[0 := thread(0), 1 := thread(1), 2 := thread(0), 3 := thread(1)]
  }

  const TWO_THREADS := CpuInfo([2, 3], 2, map[0 := [2], 1 := [3], 2 := [], 3 := []])
  const WHOLE_CORES := Config(true, true, false, true, true)

  lemma TwoCoresMapped()
    ensures PerCore(TwoCores()) == 2 && Mapped(TwoCores(), TWO_THREADS)
    ensures Elements([0, 1, 2, 3]) == {0, 1, 2, 3} == TwoCores().Keys && Elements([2, 3]) == {2, 3}
  {
    var cpus := TwoCores();
    assert Later(cpus, 0) == {2} && Later(cpus, 1) == {3} && Later(cpus, 2) == {} && Later(cpus, 3) == {};
    assert Elements([2]) == {2} && Elements([3]) == {3};
  }

  const ALL_FREE := [0, 1, 2, 3]

  /** A job that asks for one core is given the second threads of both. */
  lemma SplitCoresExample()
    ensures Mapped(TwoCores(), TWO_THREADS) && Needed(WHOLE_CORES, TWO_THREADS, 1) == 2
    ensures 2 <= |Pool(WHOLE_CORES, TWO_THREADS, ALL_FREE)|
    ensures Elements(Choice(WHOLE_CORES, TWO_THREADS, 2, ALL_FREE)) == {2, 3} && !Closed(TwoCores(), {2, 3})
  {
    TwoCoresMapped();
    ElementsCard(ALL_FREE);
    SecondThreads();
    SecondThreadsSplit();
  }

  lemma SecondThreadsSplit()
    ensures !Closed(TwoCores(), {2, 3})
  {
    assert Same(TwoCores(), 2, 0);
  }

  lemma SecondThreads()
    requires Mapped(TwoCores(), TWO_THREADS) && 2 <= |Pool(WHOLE_CORES, TWO_THREADS, ALL_FREE)|
    requires Elements(ALL_FREE) == {0, 1, 2, 3} == TwoCores().Keys && Elements(TWO_THREADS.hyperthreads) == {2, 3}
    ensures Elements(Choice(WHOLE_CORES, TWO_THREADS, 2, ALL_FREE)) == {2, 3}
  {
    IdleSiblingsAre(TwoCores(), TWO_THREADS, ALL_FREE);
    TwoAndThree(IdleSiblings(TWO_THREADS, ALL_FREE));
    AllFirst(WHOLE_CORES, TWO_THREADS, 2, ALL_FREE);
  }

  lemma TwoAndThree(u: seq<int>)
    requires Distinct(u) && Elements(u) == {0, 1, 2, 3} * {2, 3}
    ensures |u| == 2 && Elements(u) == {2, 3}
  {
    assert {0, 1, 2, 3} * {2, 3} == {2, 3} && |{2, 3}| == 2;
    ElementsCard(u);
  }

  /** A job that needs exactly the siblings of the idle cores gets those. */
  lemma AllFirst(cfg: Config, info: CpuInfo, needed: nat, available: seq<int>)
    requires cfg.useHyperthreads && needed <= |Pool(cfg, info, available)| && |IdleSiblings(info, available)| == needed
    ensures Choice(cfg, info, needed, available) == IdleSiblings(info, available)
  {
    assert FirstPass(cfg, info, needed, available) == IdleSiblings(info, available);
  }

  /** Four cores of two threads each: 0 and 4, 1 and 5, 2 and 6, 3 and 7. */
  function FourCores(): CpuTable {
    map c | 0 <= c < 8 :: CpuEntry(Some(true), Some(true), Some(8), Some(4), Some(0), Some(c % 4))
  }

  function EightThreads(): CpuInfo {
    CpuInfo([4, 5, 6, 7], 2, map c | c in FourCores() :: if c < 4 then [c + 4] else [])
  }

  /** What is free after small jobs have come and gone. */
  const SOME_FREE := [0, 1, 4, 5, 6, 7]

  lemma FourCoresLater(c: int)
    requires 0 <= c < 8
    ensures Later(FourCores(), c) == (if c < 4 then {c + 4} else {}) == Elements(EightThreads().threads[c])
  {
    assert c < 4 ==> Elements([c + 4]) == {c + 4};
  }

  lemma FourCoresMapped()
    ensures Mapped(FourCores(), EightThreads())
  {
    var cpus := FourCores();
    forall c | 0 <= c < 8 ensures Later(cpus, c) == (if c < 4 then {c + 4} else {}) == Elements(EightThreads().threads[c]) {
      FourCoresLater(c);
    }
    forall y ensures y in [4, 5, 6, 7] <==> exists x :: x in cpus && y in Later(cpus, x) {
      if 4 <= y < 8 {
        assert y in Later(cpus, y - 4);
      }
    }
  }

  lemma FourCoresFacts()
    ensures PerCore(FourCores()) == 2 && Elements(EightThreads().hyperthreads) == {4, 5, 6, 7}
    ensures Later(FourCores(), 0) != {} && Later(FourCores(), 1) != {}
  {
    FourCoresLater(0);
    FourCoresLater(1);
  }

  lemma FourCoresClass(c: int)
    requires 0 <= c < 4
    ensures Class(FourCores(), c) == {c, c + 4} == Class(FourCores(), c + 4)
  {
  }

  lemma WhollyFree()
    ensures Elements(SOME_FREE) == {0, 1, 4, 5, 6, 7} <= FourCores().Keys
    ensures WholeFree(FourCores(), {0, 1, 4, 5, 6, 7}) == {0, 1, 4, 5}
  {
    FourCoresClass(0);
    FourCoresClass(1);
    FourCoresClass(2);
    FourCoresClass(3);
  }

  lemma JustWholeCores(cfg: Config, cpus: CpuTable, info: CpuInfo, available: seq<int>, w: set<int>, h: set<int>)
    requires cfg.useHyperthreads && Mapped(cpus, info) && Elements(available) <= cpus.Keys
    requires h == Elements(info.hyperthreads) && w == WholeFree(cpus, Elements(available))
    requires forall c :: c in w - h ==> Later(cpus, c) != {}
    requires forall c, d :: c in w - h && d in Elements(available) - w ==> c < d
    requires |w| <= |Pool(cfg, info, available)|
    ensures Closed(cpus, Elements(Choice(cfg, info, |w|, available)))
  {
    MultiThreadedIff(cfg, cpus, info, |w|, available);
  }

  lemma LowerFirsts()
    ensures |{0, 1, 4, 5}| == 4 && {0, 1, 4, 5} - {4, 5, 6, 7} == {0, 1}
    ensures {0, 1, 4, 5, 6, 7} - {0, 1, 4, 5} == {6, 7}
  {
  }

  lemma TwoOfFour(cpus: CpuTable, info: CpuInfo, available: seq<int>, s: set<int>, w: set<int>, h: set<int>)
    requires Mapped(cpus, info) && Elements(available) == s <= cpus.Keys && 4 <= |Pool(WHOLE_CORES, info, available)|
    requires h == Elements(info.hyperthreads) && w == WholeFree(cpus, s) && |w| == 4
    requires w - h == {0, 1} && s - w == {6, 7} && Later(cpus, 0) != {} && Later(cpus, 1) != {}
    ensures Closed(cpus, Elements(Choice(WHOLE_CORES, info, 4, available)))
  {
    assert forall c :: c in w - h ==> c == 0 || c == 1;
    assert forall d :: d in s - w ==> d == 6 || d == 7;
    JustWholeCores(WHOLE_CORES, cpus, info, available, w, h);
  }

  lemma SixFree()
    requires Elements(SOME_FREE) == {0, 1, 4, 5, 6, 7}
    ensures |Pool(WHOLE_CORES, EightThreads(), SOME_FREE)| == 6
  {
    ElementsCard(SOME_FREE);
  }

  /** On a node that is not idle, a job that asks for two cores may get just these although other CPUs stay free. */
  lemma RegainedCoresExample()
    ensures Mapped(FourCores(), EightThreads()) && Needed(WHOLE_CORES, EightThreads(), 2) == 4
    ensures |Pool(WHOLE_CORES, EightThreads(), SOME_FREE)| == 6
    ensures Closed(FourCores(), Elements(Choice(WHOLE_CORES, EightThreads(), 4, SOME_FREE)))
  {
    FourCoresMapped();
    FourCoresFacts();
    WhollyFree();
    SixFree();
    LowerFirsts();
    TwoOfFour(FourCores(), EightThreads(), SOME_FREE, {0, 1, 4, 5, 6, 7}, {0, 1, 4, 5}, {4, 5, 6, 7});
  }
}
