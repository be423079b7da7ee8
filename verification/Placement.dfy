/** Placing a job: on one socket, on the vnodes the scheduler chose, or across all sockets. */
module Placement {
  import opened Collections
  import opened CpuSelection
  import opened Devices
  import opened Availability

  /** The resource counts a job or vnode asks for; an absent key differs from a zero. */
  datatype Request = Request(ncpus: Option<int>, mem: Option<nat>, nmics: Option<int>, ngpus: Option<int>)

  /** What a job is given. `mems` and `entries` are lists in the hook, but only their members matter. */
  datatype Grants = Grants(cpus: seq<int>, mems: set<int>, mem: Option<nat>, names: seq<DeviceName>, entries: set<Entry>)

  /** The machine facts that stay fixed while jobs come and go. */
  datatype Machine = Machine(cfg: Config, info: CpuInfo, node: Node) {
    ghost predicate Valid() {
      node.Valid() && info.perCore >= 1 && forall s :: s in node.numa ==> Elements(node.numa[s].cpus) <= info.threads.Keys
    }
  }

  function Wanted(count: Option<int>): nat {
    match count
    case Some(n) => if n > 0 then n else 0
    case None => 0
  }

  /** The names of one kind, in list order. */
  function OfKind(devices: seq<DeviceName>, mics: bool): seq<DeviceName> {
    if devices == [] then []
    else (if devices[0].Mic? == mics then [devices[0]] else []) + OfKind(devices[1..], mics)
  }

  lemma OfKindElements(devices: seq<DeviceName>, mics: bool)
    ensures Elements(OfKind(devices, mics)) <= Elements(devices)
  {
    if devices != [] {
      OfKindElements(devices[1..], mics);
      assert Elements(devices) == {devices[0]} + Elements(devices[1..]);
      ElementsAppend(if devices[0].Mic? == mics then [devices[0]] else [], OfKind(devices[1..], mics));
    }
  }

  /** The devices of one kind are the list without the other kind, in its order and as often. */
  lemma OfKindIs(devices: seq<DeviceName>, mics: bool)
    ensures OfKind(devices, true) == Without(devices, set d | d in devices && d.Nvidia?)
    ensures OfKind(devices, false) == Without(devices, set d | d in devices && d.Mic?)
    ensures forall d :: d in OfKind(devices, mics) <==> d in devices && d.Mic? == mics
  {
    if devices != [] {
      OfKindIs(devices[1..], mics);
      assert devices == [devices[0]] + devices[1..];
      WithoutOthers(devices[1..], set d | d in devices[1..] && d.Nvidia?, set d | d in devices && d.Nvidia?);
      WithoutOthers(devices[1..], set d | d in devices[1..] && d.Mic?, set d | d in devices && d.Mic?);
    }
  }

  lemma WithoutOthers<T>(s: seq<T>, a: set<T>, b: set<T>)
    requires forall x :: x in s ==> (x in a <==> x in b)
    ensures Without(s, a) == Without(s, b)
  {
  }

  /** Whether a request fits what is free: CPUs of the policy's pool, device counts, memory. */
  predicate Fits(m: Machine, req: Request, a: Avail) {
    && (Wanted(req.ncpus) > 0 ==> Needed(m.cfg, m.info, Wanted(req.ncpus)) <= |Pool(m.cfg, m.info, a.cpus)|)
    && Wanted(req.nmics) <= |OfKind(a.devices, true)|
    && Wanted(req.ngpus) <= |OfKind(a.devices, false)|
    && (req.mem.Some? ==> req.mem.value <= a.memory)
  }

  ghost predicate Usable(m: Machine, a: Avail) {
    Known(m.info, a.cpus) && Elements(a.devices) <= m.node.devices.Keys
  }

  ghost predicate AllUsable(m: Machine, avail: map<int, Avail>) {
    m.info.perCore >= 1 && forall s :: s in avail ==> Usable(m, avail[s])
  }

  /** CPUs, devices and memory, each counted on its own: a count that is absent or not positive asks for nothing. */
  lemma FitsIff(m: Machine, req: Request, a: Avail)
    requires Usable(m, a)
    ensures Fits(m, req, a) <==>
      (&& req.ncpus.GetOr(0) * (if m.cfg.useHyperthreads && m.cfg.ncpusAreCores then m.info.perCore else 1) <=
         |if m.cfg.useHyperthreads then Elements(a.cpus) else Elements(a.cpus) - Elements(m.info.hyperthreads)|
       && req.nmics.GetOr(0) <= |Without(a.devices, set d | d in a.devices && d.Nvidia?)|
       && req.ngpus.GetOr(0) <= |Without(a.devices, set d | d in a.devices && d.Mic?)|
       && (req.mem == None || req.mem.value <= a.memory))
  {
    OfKindIs(a.devices, true);
    NotPositive(req.ncpus.GetOr(0), m.info.perCore);
  }

  lemma NotPositive(a: int, k: nat)
    ensures a <= 0 ==> a * k <= 0
  {
  }

  ghost function DevicesGiven(m: Machine, a: Avail, mics: bool, count: nat): (r: seq<DeviceName>)
    requires Usable(m, a) && count <= |OfKind(a.devices, mics)|
    ensures Elements(r) <= m.node.devices.Keys && Elements(r) <= Elements(a.devices)
  {
    var all := OfKind(a.devices, mics);
    OfKindElements(a.devices, mics);
    assert forall d :: d in Elements(all[..count]) ==> d in Elements(all);
    Kept(m.node.devices, all[..count])
  }

  /** What a fitting request is given out of `a`, the resources of `sockets`. */
  ghost function Assignment(m: Machine, req: Request, a: Avail, sockets: set<int>): (r: Grants)
    requires Usable(m, a) && Fits(m, req, a)
  {
    var names := DevicesGiven(m, a, true, Wanted(req.nmics)) + DevicesGiven(m, a, false, Wanted(req.ngpus));
    ElementsAppend(DevicesGiven(m, a, true, Wanted(req.nmics)), DevicesGiven(m, a, false, Wanted(req.ngpus)));
    Grants(
      if Wanted(req.ncpus) > 0 then Choice(m.cfg, m.info, NeededNat(m, Wanted(req.ncpus)), a.cpus) else [],
      if Wanted(req.ncpus) > 0 || req.mem.Some? || req.ngpus.Some? || req.nmics.Some? then sockets else {},
      req.mem,
      names,
      Granted(m.node.devices, names))
  }

  function NeededNat(m: Machine, ncpus: nat): (r: nat)
    ensures r == Needed(m.cfg, m.info, ncpus)
  {
    Needed(m.cfg, m.info, ncpus)
  }

  /** The fit check and the selection on one set of resources. */
  method AssignResources(m: Machine, req: Request, a: Avail, sockets: set<int>) returns (r: Option<Grants>)
    requires Usable(m, a)
    ensures r.Some? <==> Fits(m, req, a)
    ensures r.Some? ==> r.value == Assignment(m, req, a, sockets)
  {
    var cpus, mems: set<int> := [], {};
    if req.ncpus.Some? && req.ncpus.value > 0 {
      var selected := SelectCpus(m.cfg, m.info, req.ncpus.value, a.cpus);
      if selected.None? {
        return None;
      }
      cpus, mems := selected.value, sockets;
    }
    if req.mem.Some? || req.ngpus.Some? || req.nmics.Some? {
      mems := sockets;
    }
    var names, entries: set<Entry> := [], {};
    OfKindElements(a.devices, true);
    OfKindElements(a.devices, false);
    if req.nmics.Some? && req.nmics.value > 0 {
      var mics := OfKind(a.devices, true);
      if req.nmics.value > |mics| {
        return None;
      }
      var allowed;
      names, allowed := AssignDevices(m.node.devices, mics, req.nmics.value);
      entries := Elements(allowed);
    } else {
      assert DevicesGiven(m, a, true, 0) == [];
    }
    if req.ngpus.Some? && req.ngpus.value > 0 {
      var gpus := OfKind(a.devices, false);
      if req.ngpus.value > |gpus| {
        return None;
      }
      var more, allowed := AssignDevices(m.node.devices, gpus, req.ngpus.value);
      GrantedUnion(m.node.devices, names, more);
      names, entries := names + more, entries + Elements(allowed);
    } else {
      assert DevicesGiven(m, a, false, 0) == [];
      assert names + [] == names;
    }
    if req.mem.Some? && req.mem.value > a.memory {
      return None;
    }
    return Some(Grants(cpus, mems, req.mem, names, entries));
  }

  lemma GrantedUnion(table: DeviceTable, a: seq<DeviceName>, b: seq<DeviceName>)
    requires Elements(a) <= table.Keys && Elements(b) <= table.Keys
    ensures Elements(a + b) <= table.Keys && Granted(table, a + b) == Granted(table, a) + Granted(table, b)
    ensures Granted(table, []) == {}
  {
    ElementsAppend(a, b);
  }

  // ---------- the order of the sockets ----------

  /** How often the mems lists of running jobs name a socket. */
  function Occurrences(lists: seq<int>, s: int): nat {
    if lists == [] then 0 else Occurrences(lists[..|lists| - 1], s) + if lists[|lists| - 1] == s then 1 else 0
  }

  /** The order in which sockets are tried: fewest jobs first under load balancing. */
  function SocketOrder(cfg: Config, sockets: seq<int>, placed: seq<int>): seq<int> {
    if cfg.loadBalanced then SortBy(sockets, s => Occurrences(placed, s)) else sockets
  }

  /** Count the jobs per socket; `placed` holds the sockets named by the recorded mems of all jobs, in turn. */
  method CountJobs(sockets: seq<int>, placed: seq<int>) returns (count: map<int, nat>)
    requires Elements(placed) <= Elements(sockets)
    ensures count.Keys == Elements(sockets) && forall s :: s in count ==> count[s] == Occurrences(placed, s)
  {
    count := map s | s in Elements(sockets) :: 0;
    var i := 0;
    while i < |placed|
      invariant 0 <= i <= |placed| && count.Keys == Elements(sockets)
      invariant forall s :: s in count ==> count[s] == Occurrences(placed[..i], s)
    {
      assert placed[i] in Elements(placed);
      assert placed[..i + 1][..i] == placed[..i];
      count := count[placed[i] := count[placed[i]] + 1];
      i := i + 1;
    }
    assert placed[..i] == placed;
  }

  /** The count is that of the multiset of all names, so the order of the jobs does not matter. */
  lemma {:induction false} OccurrencesAre(lists: seq<int>, s: int)
    ensures Occurrences(lists, s) == multiset(lists)[s]
  {
    if lists != [] {
      OccurrencesAre(lists[..|lists| - 1], s);
      assert lists == lists[..|lists| - 1] + [lists[|lists| - 1]];
    }
  }

  /** Sockets with equally many jobs are tried in the order in which the table lists them. */
  lemma TiesKeepOrder(cfg: Config, sockets: seq<int>, placed: seq<int>, n: nat)
    ensures var others := set s | s in sockets && multiset(placed)[s] != n;
      Without(SocketOrder(cfg, sockets, placed), others) == Without(sockets, others)
  {
    var others := set s | s in sockets && multiset(placed)[s] != n;
    forall s ensures Occurrences(placed, s) == multiset(placed)[s] {
      OccurrencesAre(placed, s);
    }
    StableSort(sockets, s => Occurrences(placed, s), n, others);
  }

  lemma SortAgrees(s: seq<int>, r1: int -> int, r2: int -> int)
    requires forall x :: x in s ==> r1(x) == r2(x)
    ensures SortBy(s, r1) == SortBy(s, r2)
  {
    if s != [] {
      var front, last := s[..|s| - 1], s[|s| - 1];
      SortAgrees(front, r1, r2);
      var sorted := SortBy(front, r1);
      SameElements(sorted, front);
      assert forall x :: x in sorted ==> x in Elements(front);
      InsertAgrees(sorted, last, r1, r2);
    }
  }

  lemma InsertAgrees(s: seq<int>, x: int, r1: int -> int, r2: int -> int)
    requires SortedBy(s, r1) && SortedBy(s, r2)
    requires r1(x) == r2(x) && forall y :: y in s ==> r1(y) == r2(y)
    ensures InsertBy(s, x, r1) == InsertBy(s, x, r2)
  {
  }

  // ---------- jobs without vnodes ----------

  /** NUMA nodes without CPUs and devices; they are added to every placement. */
  function MemoryOnly(node: Node): set<int> {
    set s | s in node.numa && node.numa[s].cpus == [] && node.numa[s].devices == []
  }

  /** The position of the first socket in the list on which the request fits, or the list's length. */
  ghost function FirstFit(m: Machine, req: Request, avail: map<int, Avail>, sockets: seq<int>): (i: nat)
    ensures i <= |sockets|
    ensures forall k :: 0 <= k < i ==> !FitsOn(m, req, avail, sockets[k])
    ensures i < |sockets| ==> FitsOn(m, req, avail, sockets[i])
  {
    if sockets == [] || FitsOn(m, req, avail, sockets[0]) then 0
    else 1 + FirstFit(m, req, avail, sockets[1..])
  }

  predicate FitsOn(m: Machine, req: Request, avail: map<int, Avail>, s: int) {
    s in avail && Fits(m, req, avail[s])
  }

  /** What a fitting request is given on one socket: the memory-only NUMA nodes come along. */
  ghost function OnSocket(m: Machine, req: Request, avail: map<int, Avail>, s: int): Grants
    requires AllUsable(m, avail) && FitsOn(m, req, avail, s)
  {
    var g := Assignment(m, req, avail[s], {s});
    g.(mems := g.mems + {s} + MemoryOnly(m.node))
  }

  /** A job's mems on one socket: that socket, and every NUMA node that has neither CPUs nor devices. */
  lemma SocketMems(m: Machine, req: Request, avail: map<int, Avail>, s: int, t: int)
    requires AllUsable(m, avail) && FitsOn(m, req, avail, s)
    ensures t in OnSocket(m, req, avail, s).mems <==>
      (t == s || (t in m.node.numa && m.node.numa[t].cpus == [] && m.node.numa[t].devices == []))
  {
    assert Assignment(m, req, avail[s], {s}).mems <= {s};
  }

  /** The free resources of several sockets put together. */
  function Pooled(avail: map<int, Avail>, sockets: seq<int>): Avail {
    if sockets == [] then Avail([], 0, [])
    else
      var rest, last := Pooled(avail, sockets[..|sockets| - 1]), sockets[|sockets| - 1];
      if last in avail then Combine(rest, avail[last]) else rest
  }

  function Combine(a: Avail, b: Avail): Avail {
    Avail(a.cpus + b.cpus, a.memory + b.memory, a.devices + b.devices)
  }

  lemma PooledUsable(m: Machine, avail: map<int, Avail>, sockets: seq<int>)
    requires AllUsable(m, avail)
    ensures Usable(m, Pooled(avail, sockets))
  {
    if sockets != [] {
      var front, last := sockets[..|sockets| - 1], sockets[|sockets| - 1];
      PooledUsable(m, avail, front);
      if last in avail {
        ElementsAppend(Pooled(avail, front).cpus, avail[last].cpus);
        ElementsAppend(Pooled(avail, front).devices, avail[last].devices);
      }
    }
  }

  lemma PooledCpus(avail: map<int, Avail>, sockets: seq<int>, c: int)
    ensures c in Elements(Pooled(avail, sockets).cpus) <==>
      exists s :: s in Elements(sockets) && s in avail && c in Elements(avail[s].cpus)
  {
    if sockets != [] {
      var front, last := sockets[..|sockets| - 1], sockets[|sockets| - 1];
      PooledCpus(avail, front, c);
      assert Elements(sockets) == Elements(front) + {last};
      if last in avail {
        ElementsAppend(Pooled(avail, front).cpus, avail[last].cpus);
      }
    }
  }

  /** Pooling adds CPUs, memory and devices of each socket once, in the order of the list. */
  lemma {:induction false} PooledFront(avail: map<int, Avail>, s: int, rest: seq<int>)
    requires s in avail
    ensures var p, q := Pooled(avail, [s] + rest), Pooled(avail, rest);
      && p.cpus == avail[s].cpus + q.cpus && p.devices == avail[s].devices + q.devices
      && p.memory == avail[s].memory + q.memory
    ensures Pooled(avail, []) == Avail([], 0, [])
  {
    if rest == [] {
      assert ([s] + rest)[..0] == [];
    } else {
      var n := |rest| - 1;
      assert ([s] + rest)[..n + 1] == [s] + rest[..n];
      PooledFront(avail, s, rest[..n]);
    }
  }

  /** A placement across all sockets. */
  ghost function Across(m: Machine, req: Request, avail: map<int, Avail>, sockets: seq<int>): Option<Grants>
    requires AllUsable(m, avail)
  {
    PooledUsable(m, avail, sockets);
    var all := Pooled(avail, sockets);
    if Fits(m, req, all) then Some(Assignment(m, req, all, Elements(sockets))) else None
  }

  /** A placement without vnodes, given the order in which the sockets are tried. */
  ghost function Place(m: Machine, req: Request, avail: map<int, Avail>, sockets: seq<int>): Option<Grants>
    requires AllUsable(m, avail)
  {
    var i := FirstFit(m, req, avail, sockets);
    if i < |sockets| then Some(OnSocket(m, req, avail, sockets[i])) else Across(m, req, avail, sockets)
  }

  /** Reorder the sockets if load balancing asks for it. */
  method OrderSockets(cfg: Config, keys: seq<int>, placed: seq<int>) returns (sockets: seq<int>)
    requires Elements(placed) <= Elements(keys)
    ensures sockets == SocketOrder(cfg, keys, placed)
  {
    sockets := keys;
    if cfg.loadBalanced {
      var count := CountJobs(keys, placed);
      sockets := SortBy(keys, s => if s in count then count[s] else 0);
      assert forall s :: s in keys ==> s in Elements(keys);
      SortAgrees(keys, s => if s in count then count[s] else 0, s => Occurrences(placed, s));
    }
  }

  /** The loop over the sockets: stop at the first on which everything fits. */
  method TrySockets(m: Machine, req: Request, avail: map<int, Avail>, sockets: seq<int>) returns (r: Option<Grants>)
    requires AllUsable(m, avail) && Elements(sockets) <= avail.Keys
    ensures r.Some? <==> FirstFit(m, req, avail, sockets) < |sockets|
    ensures r.Some? ==> r.value == OnSocket(m, req, avail, sockets[FirstFit(m, req, avail, sockets)])
  {
    var memoryOnly := MemoryOnly(m.node);
    var i := 0;
    while i < |sockets|
      invariant 0 <= i <= |sockets|
      invariant forall k :: 0 <= k < i ==> !FitsOn(m, req, avail, sockets[k])
    {
      var socket := sockets[i];
      assert socket in Elements(sockets);
      var found := AssignResources(m, req, avail[socket], {socket});
      if found.Some? {
        assert FitsOn(m, req, avail, sockets[i]) && FirstFit(m, req, avail, sockets) == i;
        return Some(found.value.(mems := found.value.mems + {socket} + memoryOnly));
      }
      i := i + 1;
    }
    return None;
  }

  /** The fallback: pool the sockets in order and try once more. */
  method SpanSockets(m: Machine, req: Request, avail: map<int, Avail>, sockets: seq<int>) returns (r: Option<Grants>)
    requires AllUsable(m, avail) && Elements(sockets) <= avail.Keys
    ensures r == Across(m, req, avail, sockets)
  {
    var total := Avail([], 0, []);
    var i := 0;
    while i < |sockets|
      invariant 0 <= i <= |sockets| && total == Pooled(avail, sockets[..i])
    {
      assert sockets[i] in Elements(sockets);
      assert sockets[..i + 1][..i] == sockets[..i];
      total := Combine(total, avail[sockets[i]]);
      i := i + 1;
    }
    assert sockets[..i] == sockets;
    PooledUsable(m, avail, sockets);
    r := AssignResources(m, req, total, Elements(sockets));
  }

  /** Placement of a request without vnodes; `keys` is the iteration order of the socket table. */
  method PlaceJob(m: Machine, req: Request, avail: map<int, Avail>, keys: seq<int>, placed: seq<int>)
    returns (r: Option<Grants>)
    requires AllUsable(m, avail)
    requires Distinct(keys) && Elements(keys) == avail.Keys && Elements(placed) <= avail.Keys
    ensures r == Place(m, req, avail, SocketOrder(m.cfg, keys, placed))
  {
    var sockets := OrderSockets(m.cfg, keys, placed);
    SocketOrderElements(m.cfg, keys, placed);
    r := TrySockets(m, req, avail, sockets);
    if r.None? {
      r := SpanSockets(m, req, avail, sockets);
    }
  }

  lemma SocketOrderElements(cfg: Config, keys: seq<int>, placed: seq<int>)
    ensures multiset(SocketOrder(cfg, keys, placed)) == multiset(keys)
    ensures Elements(SocketOrder(cfg, keys, placed)) == Elements(keys)
    ensures cfg.loadBalanced ==> SortedBy(SocketOrder(cfg, keys, placed), s => Occurrences(placed, s))
    ensures !cfg.loadBalanced ==> SocketOrder(cfg, keys, placed) == keys
  {
    SameElements(SocketOrder(cfg, keys, placed), keys);
  }

  /** Socket `s` fits, has the fewest jobs of those that do, and is where the job goes. */
  ghost predicate GoesTo(m: Machine, req: Request, avail: map<int, Avail>, placed: seq<int>, r: Option<Grants>, s: int)
    requires AllUsable(m, avail)
  {
    && FitsOn(m, req, avail, s)
    && r == Some(OnSocket(m, req, avail, s)) && r.value.mems == {s} + MemoryOnly(m.node)
    && (m.cfg.loadBalanced ==>
        forall t :: FitsOn(m, req, avail, t) ==> Occurrences(placed, s) <= Occurrences(placed, t))
  }

  /**
   * Where a job without vnodes goes: to one socket if any fits, under load balancing to one with the fewest
   * jobs among those that fit; across all sockets only if none fits, which succeeds exactly when the pooled
   * resources suffice.
   */
  lemma PlacementRule(m: Machine, req: Request, avail: map<int, Avail>, keys: seq<int>, placed: seq<int>)
    requires AllUsable(m, avail) && Distinct(keys) && Elements(keys) == avail.Keys
    ensures var order := SocketOrder(m.cfg, keys, placed);
      var r := Place(m, req, avail, order);
      if exists s :: FitsOn(m, req, avail, s) then exists s :: GoesTo(m, req, avail, placed, r, s)
      else
        (r.Some? <==> Fits(m, req, Pooled(avail, order))) && (r.Some? ==> r.value.mems == avail.Keys)
  {
    var order := SocketOrder(m.cfg, keys, placed);
    SocketOrderElements(m.cfg, keys, placed);
    var i := FirstFit(m, req, avail, order);
    if i < |order| {
      FirstFitLeast(m, req, avail, order, placed);
      assert GoesTo(m, req, avail, placed, Place(m, req, avail, order), order[i]);
    } else {
      forall s | s in avail ensures !FitsOn(m, req, avail, s) {
        assert s in Elements(order);
      }
      SpanTakesAll(m, req, avail, order);
    }
  }

  lemma FirstFitLeast(m: Machine, req: Request, avail: map<int, Avail>, order: seq<int>, placed: seq<int>)
    requires Elements(order) == avail.Keys && FirstFit(m, req, avail, order) < |order|
    requires m.cfg.loadBalanced ==> SortedBy(order, s => Occurrences(placed, s))
    ensures m.cfg.loadBalanced ==> forall t :: FitsOn(m, req, avail, t) ==>
      Occurrences(placed, order[FirstFit(m, req, avail, order)]) <= Occurrences(placed, t)
  {
    if m.cfg.loadBalanced {
      var i := FirstFit(m, req, avail, order);
      var rank := s => Occurrences(placed, s);
      forall t | FitsOn(m, req, avail, t) ensures Occurrences(placed, order[i]) <= Occurrences(placed, t) {
        assert t in Elements(order);
        var k :| 0 <= k < |order| && order[k] == t;
        assert rank(order[i]) <= rank(order[k]);
      }
    }
  }

  /** A request that fits nowhere but across all sockets really asks for something, so it gets all their mems. */
  lemma SpanTakesAll(m: Machine, req: Request, avail: map<int, Avail>, order: seq<int>)
    requires AllUsable(m, avail) && Elements(order) == avail.Keys
    requires forall s :: s in avail ==> !FitsOn(m, req, avail, s)
    ensures var r := Across(m, req, avail, order); r.Some? ==> r.value.mems == avail.Keys
  {
    if order == [] {
    } else {
      assert order[0] in Elements(order);
      assert !FitsOn(m, req, avail, order[0]);
    }
  }

  /** Each CPU given out was free on some NUMA node of the job's mems. */
  ghost predicate Sound(avail: map<int, Avail>, g: Grants) {
    forall c :: c in g.cpus ==> HasCpu(avail, g.mems, c)
  }

  ghost predicate HasCpu(avail: map<int, Avail>, mems: set<int>, c: int) {
    exists s :: s in mems && s in avail && c in Elements(avail[s].cpus)
  }

  /** Whatever the route, a job's CPUs are distinct and were free on a NUMA node of its own mems. */
  lemma PlaceSound(m: Machine, req: Request, avail: map<int, Avail>, sockets: seq<int>)
    requires AllUsable(m, avail) && Place(m, req, avail, sockets).Some?
    ensures Distinct(Place(m, req, avail, sockets).value.cpus)
    ensures Sound(avail, Place(m, req, avail, sockets).value)
  {
    var i := FirstFit(m, req, avail, sockets);
    if i < |sockets| {
      OnSocketSound(m, req, avail, sockets[i]);
    } else {
      PooledUsable(m, avail, sockets);
      var g := Place(m, req, avail, sockets).value;
      AssignmentCpus(m, req, Pooled(avail, sockets), Elements(sockets));
      forall c | c in g.cpus ensures HasCpu(avail, g.mems, c) {
        assert c in Elements(g.cpus);
        PooledCpus(avail, sockets, c);
      }
    }
  }

  lemma OnSocketSound(m: Machine, req: Request, avail: map<int, Avail>, s: int)
    requires AllUsable(m, avail) && FitsOn(m, req, avail, s)
    ensures var g := OnSocket(m, req, avail, s);
      Distinct(g.cpus) && Sound(avail, g) && g.mems == {s} + MemoryOnly(m.node)
  {
    AssignmentCpus(m, req, avail[s], {s});
    var g := OnSocket(m, req, avail, s);
    forall c | c in g.cpus ensures HasCpu(avail, g.mems, c) {
      assert c in Elements(g.cpus) && s in g.mems;
    }
  }

  lemma AssignmentCpus(m: Machine, req: Request, a: Avail, sockets: set<int>)
    requires Usable(m, a) && Fits(m, req, a)
    ensures var g := Assignment(m, req, a, sockets);
      && Distinct(g.cpus) && Elements(g.cpus) <= Elements(a.cpus)
      && (g.cpus != [] ==> g.mems == sockets) && g.mems <= sockets
      && (Wanted(req.ncpus) > 0 ==> |g.cpus| == Needed(m.cfg, m.info, Wanted(req.ncpus)))
  {
    if Wanted(req.ncpus) > 0 {
      ChoiceIsExact(m.cfg, m.info, NeededNat(m, Wanted(req.ncpus)), a.cpus);
    }
  }

  // ---------- jobs on vnodes ----------

  datatype VnodeRequest = VnodeRequest(socket: int, req: Request)

  function Merge(a: Grants, b: Grants): Grants {
    Grants(a.cpus + b.cpus, a.mems + b.mems, AddOption(a.mem, b.mem), a.names + b.names, a.entries + b.entries)
  }

  function AddOption(a: Option<nat>, b: Option<nat>): Option<nat> {
    if a.None? then b else if b.None? then a else Some(a.value + b.value)
  }

  ghost predicate VnodesFit(m: Machine, vs: seq<VnodeRequest>, avail: map<int, Avail>) {
    forall i :: 0 <= i < |vs| ==> FitsOn(m, vs[i].req, avail, vs[i].socket)
  }

  /** The per-vnode grants folded together in request order. */
  ghost function Fold(m: Machine, vs: seq<VnodeRequest>, avail: map<int, Avail>): Grants
    requires AllUsable(m, avail) && VnodesFit(m, vs, avail)
  {
    if vs == [] then Grants([], {}, None, [], {})
    else
      var n := |vs| - 1;
      Merge(Fold(m, vs[..n], avail), OnSocket(m, vs[n].req, avail, vs[n].socket))
  }

  /** The scheduler's vnodes. All of them must fit; the pieces are folded together and the CPUs sorted. */
  method PlaceVnodes(m: Machine, vs: seq<VnodeRequest>, avail: map<int, Avail>) returns (r: Option<Grants>)
    requires AllUsable(m, avail)
    requires |vs| > 0 && forall i :: 0 <= i < |vs| ==> vs[i].socket in avail
    ensures r.Some? <==> VnodesFit(m, vs, avail)
    ensures r.Some? ==> var all := Fold(m, vs, avail); r.value == all.(cpus := SortBy(all.cpus, c => c))
  {
    var all := Grants([], {}, None, [], {});
    var i := 0;
    while i < |vs|
      invariant 0 <= i <= |vs| && VnodesFit(m, vs[..i], avail)
      invariant all == Fold(m, vs[..i], avail)
    {
      var v := vs[i];
      var found := AssignResources(m, v.req, avail[v.socket], {v.socket});
      if found.None? {
        assert !FitsOn(m, vs[i].req, avail, vs[i].socket);
        return None;
      }
      var g := found.value.(mems := found.value.mems + {v.socket} + MemoryOnly(m.node));
      FoldStep(m, vs, i, avail);
      all := Merge(all, g);
      i := i + 1;
    }
    assert vs[..i] == vs;
    return Some(all.(cpus := SortBy(all.cpus, c => c)));
  }

  lemma FoldStep(m: Machine, vs: seq<VnodeRequest>, i: nat, avail: map<int, Avail>)
    requires AllUsable(m, avail) && i < |vs|
    requires VnodesFit(m, vs[..i], avail) && FitsOn(m, vs[i].req, avail, vs[i].socket)
    ensures VnodesFit(m, vs[..i + 1], avail)
    ensures Fold(m, vs[..i + 1], avail) == Merge(Fold(m, vs[..i], avail), OnSocket(m, vs[i].req, avail, vs[i].socket))
  {
    assert vs[..i + 1][..i] == vs[..i];
  }

  /** The CPU lists of the single vnodes, one after the other. */
  ghost function AllCpus(m: Machine, vs: seq<VnodeRequest>, avail: map<int, Avail>): seq<int>
    requires AllUsable(m, avail) && VnodesFit(m, vs, avail)
  {
    if vs == [] then []
    else AllCpus(m, vs[..|vs| - 1], avail) + OnSocket(m, vs[|vs| - 1].req, avail, vs[|vs| - 1].socket).cpus
  }

  /** The memory requested on all vnodes. */
  function TotalMem(vs: seq<VnodeRequest>): nat {
    if vs == [] then 0 else TotalMem(vs[..|vs| - 1]) + vs[|vs| - 1].req.mem.GetOr(0)
  }

  lemma {:induction false} FoldRule(m: Machine, vs: seq<VnodeRequest>, avail: map<int, Avail>)
    requires AllUsable(m, avail) && VnodesFit(m, vs, avail)
    ensures Fold(m, vs, avail).cpus == AllCpus(m, vs, avail)
    ensures Fold(m, vs, avail).mem.GetOr(0) == TotalMem(vs)
  {
    if vs != [] {
      FoldRule(m, vs[..|vs| - 1], avail);
    }
  }

  lemma {:induction false} FoldSound(m: Machine, vs: seq<VnodeRequest>, avail: map<int, Avail>)
    requires AllUsable(m, avail) && VnodesFit(m, vs, avail)
    ensures Sound(avail, Fold(m, vs, avail))
  {
    if vs != [] {
      var n := |vs| - 1;
      FoldSound(m, vs[..n], avail);
      OnSocketSound(m, vs[n].req, avail, vs[n].socket);
      MergeSound(avail, Fold(m, vs[..n], avail), OnSocket(m, vs[n].req, avail, vs[n].socket));
    }
  }

  /** The mems are the vnodes' sockets and the memory-only NUMA nodes. */
  lemma {:induction false} FoldMems(m: Machine, vs: seq<VnodeRequest>, avail: map<int, Avail>)
    requires AllUsable(m, avail) && VnodesFit(m, vs, avail)
    ensures Fold(m, vs, avail).mems == SocketsOf(vs) + if vs == [] then {} else MemoryOnly(m.node)
  {
    if vs != [] {
      var n := |vs| - 1;
      FoldMems(m, vs[..n], avail);
      OnSocketSound(m, vs[n].req, avail, vs[n].socket);
    }
  }

  function SocketsOf(vs: seq<VnodeRequest>): set<int> {
    if vs == [] then {} else SocketsOf(vs[..|vs| - 1]) + {vs[|vs| - 1].socket}
  }

  lemma MergeSound(avail: map<int, Avail>, a: Grants, b: Grants)
    requires Sound(avail, a) && Sound(avail, b)
    ensures Sound(avail, Merge(a, b))
  {
    var g := Merge(a, b);
    forall c | c in g.cpus ensures HasCpu(avail, g.mems, c) {
      if c in a.cpus {
        assert HasCpu(avail, a.mems, c);
      } else {
        assert HasCpu(avail, b.mems, c);
      }
    }
  }

  /** The scheduler's vnodes are the keys of a dictionary, so no socket is named twice. */
  predicate DistinctSockets(vs: seq<VnodeRequest>) {
    forall i, j :: 0 <= i < j < |vs| ==> vs[i].socket != vs[j].socket
  }

  lemma {:induction false} CpusFromSockets(m: Machine, vs: seq<VnodeRequest>, avail: map<int, Avail>, c: int)
    requires AllUsable(m, avail) && VnodesFit(m, vs, avail) && c in Elements(AllCpus(m, vs, avail))
    ensures exists i :: 0 <= i < |vs| && vs[i].socket in avail && c in Elements(avail[vs[i].socket].cpus)
  {
    var n := |vs| - 1;
    var last := OnSocket(m, vs[n].req, avail, vs[n].socket).cpus;
    ElementsAppend(AllCpus(m, vs[..n], avail), last);
    assert FitsOn(m, vs[n].req, avail, vs[n].socket);
    if c in Elements(last) {
      AssignmentCpus(m, vs[n].req, avail[vs[n].socket], {vs[n].socket});
    } else {
      CpusFromSockets(m, vs[..n], avail, c);
    }
  }

  /** No CPU is given out twice, as no socket is used twice. */
  lemma {:induction false} VnodesDistinct(m: Machine, vs: seq<VnodeRequest>, avail: map<int, Avail>)
    requires AllUsable(m, avail) && VnodesFit(m, vs, avail) && DistinctSockets(vs) && DisjointCpus(avail)
    ensures Distinct(AllCpus(m, vs, avail))
  {
    if vs != [] {
      var n := |vs| - 1;
      VnodesDistinct(m, vs[..n], avail);
      assert FitsOn(m, vs[n].req, avail, vs[n].socket);
      AssignmentCpus(m, vs[n].req, avail[vs[n].socket], {vs[n].socket});
      forall c | c in Elements(AllCpus(m, vs[..n], avail)) ensures c !in Elements(avail[vs[n].socket].cpus) {
        CpusFromSockets(m, vs[..n], avail, c);
      }
      DistinctAppend(AllCpus(m, vs[..n], avail), OnSocket(m, vs[n].req, avail, vs[n].socket).cpus);
    }
  }

  /**
   * Vnode placement loses and invents nothing: CPUs are a sorted rearrangement, memory is the sum. Over
   * distinct sockets no CPU comes twice.
   */
  lemma VnodeRule(m: Machine, vs: seq<VnodeRequest>, avail: map<int, Avail>)
    requires AllUsable(m, avail) && VnodesFit(m, vs, avail)
    ensures var all := Fold(m, vs, avail);
      var cpus := SortBy(all.cpus, c => c);
      && SortedBy(cpus, c => c) && multiset(cpus) == multiset(AllCpus(m, vs, avail))
      && all.mem.GetOr(0) == TotalMem(vs)
      && all.mems == SocketsOf(vs) + (if vs == [] then {} else MemoryOnly(m.node))
      && Sound(avail, all.(cpus := cpus))
      && (DistinctSockets(vs) && DisjointCpus(avail) ==> Distinct(cpus))
  {
    FoldRule(m, vs, avail);
    FoldSound(m, vs, avail);
    FoldMems(m, vs, avail);
    var all := Fold(m, vs, avail);
    var cpus := SortBy(all.cpus, c => c);
    SameElements(cpus, all.cpus);
    forall c | c in cpus ensures HasCpu(avail, all.mems, c) {
      assert c in Elements(all.cpus);
    }
    if DistinctSockets(vs) && DisjointCpus(avail) {
      VnodesDistinct(m, vs, avail);
      DistinctPermutation(AllCpus(m, vs, avail), cpus);
    }
  }

  // ---------- what is given, in counts and kinds ----------

  /** A fitting request is given as many distinct CPUs as it asks for, or as many whole cores' worth, and its memory. */
  lemma AssignmentCount(m: Machine, req: Request, a: Avail, sockets: set<int>)
    requires Usable(m, a) && Fits(m, req, a)
    ensures var g := Assignment(m, req, a, sockets);
      && |g.cpus| == |Elements(g.cpus)| == (if req.ncpus.GetOr(0) <= 0 then 0
                     else if m.cfg.useHyperthreads && m.cfg.ncpusAreCores then req.ncpus.GetOr(0) * m.info.perCore
                     else req.ncpus.GetOr(0))
      && g.mem == req.mem
  {
    var g := Assignment(m, req, a, sockets);
    AssignmentCpus(m, req, a, sockets);
    ElementsCard(g.cpus);
  }

  /**
   * The names given are the first coprocessors and the first graphics processors of the list, in this order:
   * all that were counted exactly if none of them is shadowed, and no others ever.
   */
  lemma AssignmentNames(m: Machine, req: Request, a: Avail, sockets: set<int>)
    requires Usable(m, a) && Fits(m, req, a)
    ensures var mics := Without(a.devices, set d | d in a.devices && d.Nvidia?);
      var gpus := Without(a.devices, set d | d in a.devices && d.Mic?);
      var x, y := if req.nmics.GetOr(0) > 0 then req.nmics.value else 0, if req.ngpus.GetOr(0) > 0 then req.ngpus.value else 0;
      var names := Assignment(m, req, a, sockets).names;
      && x <= |mics| && y <= |gpus|
      && Elements(mics[..x]) <= m.node.devices.Keys && Elements(gpus[..y]) <= m.node.devices.Keys
      && (forall d :: d in names ==> d in mics[..x] || d in gpus[..y])
      && (names == mics[..x] + gpus[..y] <==>
          ((forall i :: 0 <= i < x ==> !Shadowed(m.node.devices, mics[..x], i)) &&
           (forall i :: 0 <= i < y ==> !Shadowed(m.node.devices, gpus[..y], i))))
  {
    OfKindIs(a.devices, true);
    var x, y := Wanted(req.nmics), Wanted(req.ngpus);
    var mics, gpus := OfKind(a.devices, true), OfKind(a.devices, false);
    PrefixKnown(m, a, true, x);
    PrefixKnown(m, a, false, y);
    AllNamedIff(m.node.devices, mics[..x]);
    AllNamedIff(m.node.devices, gpus[..y]);
    var given, more := Kept(m.node.devices, mics[..x]), Kept(m.node.devices, gpus[..y]);
    assert Assignment(m, req, a, sockets).names == given + more;
    assert forall d :: d in given ==> d in Elements(given);
    assert forall d :: d in more ==> d in Elements(more);
    if given + more == mics[..x] + gpus[..y] {
      assert |given + more| == |given| + |more|;
    }
  }

  lemma PrefixKnown(m: Machine, a: Avail, mics: bool, n: nat)
    requires Usable(m, a) && n <= |OfKind(a.devices, mics)|
    ensures Elements(OfKind(a.devices, mics)[..n]) <= m.node.devices.Keys
  {
    var all := OfKind(a.devices, mics);
    OfKindElements(a.devices, mics);
    assert forall d :: d in Elements(all[..n]) ==> d in Elements(all);
  }

  /** However a job is placed, it is given what it asks for. */
  lemma PlaceCount(m: Machine, req: Request, avail: map<int, Avail>, sockets: seq<int>)
    requires AllUsable(m, avail) && Place(m, req, avail, sockets).Some?
    ensures var g := Place(m, req, avail, sockets).value;
      && |g.cpus| == |Elements(g.cpus)| == (if req.ncpus.GetOr(0) <= 0 then 0
                     else if m.cfg.useHyperthreads && m.cfg.ncpusAreCores then req.ncpus.GetOr(0) * m.info.perCore
                     else req.ncpus.GetOr(0))
      && g.mem == req.mem
  {
    var i := FirstFit(m, req, avail, sockets);
    if i < |sockets| {
      AssignmentCount(m, req, avail[sockets[i]], {sockets[i]});
    } else {
      PooledUsable(m, avail, sockets);
      AssignmentCount(m, req, Pooled(avail, sockets), Elements(sockets));
    }
  }

  /** The CPUs requested on all vnodes; a count that is not positive asks for none. */
  function TotalCpus(vs: seq<VnodeRequest>): nat {
    if vs == [] then 0
    else (if vs[0].req.ncpus.GetOr(0) > 0 then vs[0].req.ncpus.value else 0) + TotalCpus(vs[1..])
  }

  /** On vnodes a job is given the CPUs that it asks for on all of them together. */
  lemma VnodeCount(m: Machine, vs: seq<VnodeRequest>, avail: map<int, Avail>)
    requires AllUsable(m, avail) && VnodesFit(m, vs, avail)
    ensures |Fold(m, vs, avail).cpus| ==
      TotalCpus(vs) * if m.cfg.useHyperthreads && m.cfg.ncpusAreCores then m.info.perCore else 1
  {
    VnodeCountBy(m, vs, avail, if m.cfg.useHyperthreads && m.cfg.ncpusAreCores then m.info.perCore else 1);
  }

  lemma {:induction false} VnodeCountBy(m: Machine, vs: seq<VnodeRequest>, avail: map<int, Avail>, width: nat)
    requires AllUsable(m, avail) && VnodesFit(m, vs, avail)
    requires width == if m.cfg.useHyperthreads && m.cfg.ncpusAreCores then m.info.perCore else 1
    ensures |Fold(m, vs, avail).cpus| == TotalCpus(vs) * width
  {
    if vs != [] {
      var n := |vs| - 1;
      var count := if vs[n].req.ncpus.GetOr(0) > 0 then vs[n].req.ncpus.value else 0;
      LastVnode(m, vs, avail);
      VnodeCountBy(m, vs[..n], avail, width);
      TotalLast(vs);
      SumScales(TotalCpus(vs[..n]), count, width, |Fold(m, vs[..n], avail).cpus|, |Fold(m, vs, avail).cpus|, TotalCpus(vs));
    }
  }

  lemma SumScales(a: nat, b: nat, k: nat, front: nat, whole: nat, total: nat)
    requires front == a * k && whole == front + b * k && total == a + b
    ensures whole == total * k
  {
  }

  /** What the last vnode adds to a fold. */
  lemma LastVnode(m: Machine, vs: seq<VnodeRequest>, avail: map<int, Avail>)
    requires AllUsable(m, avail) && VnodesFit(m, vs, avail) && vs != []
    ensures var n := |vs| - 1;
      && FitsOn(m, vs[n].req, avail, vs[n].socket) && VnodesFit(m, vs[..n], avail)
      && Fold(m, vs, avail).names ==
         Fold(m, vs[..n], avail).names + Assignment(m, vs[n].req, avail[vs[n].socket], {vs[n].socket}).names
      && |Fold(m, vs, avail).cpus| == |Fold(m, vs[..n], avail).cpus| +
         (if vs[n].req.ncpus.GetOr(0) > 0 then vs[n].req.ncpus.value else 0) *
         if m.cfg.useHyperthreads && m.cfg.ncpusAreCores then m.info.perCore else 1
  {
    var n := |vs| - 1;
    assert FitsOn(m, vs[n].req, avail, vs[n].socket);
    AssignmentCount(m, vs[n].req, avail[vs[n].socket], {vs[n].socket});
  }

  lemma TotalLast(vs: seq<VnodeRequest>)
    requires vs != []
    ensures var v := vs[|vs| - 1];
      TotalCpus(vs) == TotalCpus(vs[..|vs| - 1]) + if v.req.ncpus.GetOr(0) > 0 then v.req.ncpus.value else 0
  {
    TotalSnoc(vs[..|vs| - 1], vs[|vs| - 1]);
    assert vs[..|vs| - 1] + [vs[|vs| - 1]] == vs;
  }

  lemma {:induction false} TotalSnoc(vs: seq<VnodeRequest>, v: VnodeRequest)
    ensures TotalCpus(vs + [v]) == TotalCpus(vs) + if v.req.ncpus.GetOr(0) > 0 then v.req.ncpus.value else 0
  {
    if vs == [] {
      assert TotalCpus([v][1..]) == 0;
    } else {
      assert (vs + [v])[1..] == vs[1..] + [v];
      TotalSnoc(vs[1..], v);
    }
  }

  /** The device names of the single vnodes, one list after the other. */
  ghost function AllNames(m: Machine, vs: seq<VnodeRequest>, avail: map<int, Avail>): seq<DeviceName>
    requires AllUsable(m, avail) && VnodesFit(m, vs, avail)
  {
    if vs == [] then []
    else
      assert FitsOn(m, vs[0].req, avail, vs[0].socket);
      Assignment(m, vs[0].req, avail[vs[0].socket], {vs[0].socket}).names + AllNames(m, vs[1..], avail)
  }

  lemma {:induction false} VnodeNames(m: Machine, vs: seq<VnodeRequest>, avail: map<int, Avail>)
    requires AllUsable(m, avail) && VnodesFit(m, vs, avail)
    ensures Fold(m, vs, avail).names == AllNames(m, vs, avail)
  {
    if vs != [] {
      var n := |vs| - 1;
      VnodeNames(m, vs[..n], avail);
      LastVnode(m, vs, avail);
      NamesLast(m, vs, avail);
    }
  }

  lemma NamesLast(m: Machine, vs: seq<VnodeRequest>, avail: map<int, Avail>)
    requires AllUsable(m, avail) && VnodesFit(m, vs, avail) && vs != []
    ensures var n := |vs| - 1;
      && FitsOn(m, vs[n].req, avail, vs[n].socket) && VnodesFit(m, vs[..n], avail)
      && AllNames(m, vs, avail) ==
         AllNames(m, vs[..n], avail) + Assignment(m, vs[n].req, avail[vs[n].socket], {vs[n].socket}).names
  {
    var n := |vs| - 1;
    assert vs[..n] + [vs[n]] == vs;
    NamesSnoc(m, vs[..n], vs[n], avail);
  }

  lemma {:induction false} NamesSnoc(m: Machine, vs: seq<VnodeRequest>, v: VnodeRequest, avail: map<int, Avail>)
    requires AllUsable(m, avail) && VnodesFit(m, vs + [v], avail)
    ensures VnodesFit(m, vs, avail) && FitsOn(m, v.req, avail, v.socket)
    ensures AllNames(m, vs + [v], avail) ==
      AllNames(m, vs, avail) + Assignment(m, v.req, avail[v.socket], {v.socket}).names
  {
    FitParts(m, vs, v, avail);
    var last := Assignment(m, v.req, avail[v.socket], {v.socket}).names;
    if vs == [] {
      assert (vs + [v])[1..] == [];
    } else {
      assert (vs + [v])[1..] == vs[1..] + [v] && (vs + [v])[0] == vs[0];
      NamesSnoc(m, vs[1..], v, avail);
      var first, rest := Assignment(m, vs[0].req, avail[vs[0].socket], {vs[0].socket}).names, AllNames(m, vs[1..], avail);
      assert first + (rest + last) == (first + rest) + last;
    }
  }

  lemma FitParts(m: Machine, vs: seq<VnodeRequest>, v: VnodeRequest, avail: map<int, Avail>)
    requires VnodesFit(m, vs + [v], avail)
    ensures VnodesFit(m, vs, avail) && FitsOn(m, v.req, avail, v.socket)
    ensures vs != [] ==> VnodesFit(m, vs[1..] + [v], avail) && FitsOn(m, vs[0].req, avail, vs[0].socket)
  {
    forall i | 0 <= i < |vs| ensures FitsOn(m, vs[i].req, avail, vs[i].socket) {
      assert (vs + [v])[i] == vs[i];
    }
    assert (vs + [v])[|vs|] == v;
    if vs != [] {
      assert (vs + [v])[1..] == vs[1..] + [v];
    }
  }

  // ---------- devices ----------

  /** Each device named to the job was free on some NUMA node. */
  ghost predicate DevicesFree(avail: map<int, Avail>, names: seq<DeviceName>) {
    forall d :: d in Elements(names) ==> FreeSomewhere(avail, d)
  }

  ghost predicate FreeSomewhere(avail: map<int, Avail>, d: DeviceName) {
    exists s :: s in avail && d in Elements(avail[s].devices)
  }

  lemma {:induction false} PooledDevices(avail: map<int, Avail>, sockets: seq<int>)
    ensures DevicesFree(avail, Pooled(avail, sockets).devices)
  {
    if sockets != [] {
      var front, last := sockets[..|sockets| - 1], sockets[|sockets| - 1];
      PooledDevices(avail, front);
      if last in avail {
        ElementsAppend(Pooled(avail, front).devices, avail[last].devices);
      }
    }
  }

  lemma AssignmentDevices(m: Machine, req: Request, a: Avail, sockets: set<int>)
    requires Usable(m, a) && Fits(m, req, a)
    ensures var g := Assignment(m, req, a, sockets);
      && Elements(g.names) <= Elements(a.devices) && Elements(g.names) <= m.node.devices.Keys
      && g.entries == Granted(m.node.devices, g.names)
  {
    ElementsAppend(DevicesGiven(m, a, true, Wanted(req.nmics)), DevicesGiven(m, a, false, Wanted(req.ngpus)));
  }

  lemma PlaceDevices(m: Machine, req: Request, avail: map<int, Avail>, sockets: seq<int>)
    requires AllUsable(m, avail) && Place(m, req, avail, sockets).Some?
    ensures var g := Place(m, req, avail, sockets).value;
      DevicesFree(avail, g.names) && Elements(g.names) <= m.node.devices.Keys && g.entries == Granted(m.node.devices, g.names)
  {
    var i := FirstFit(m, req, avail, sockets);
    if i < |sockets| {
      AssignmentDevices(m, req, avail[sockets[i]], {sockets[i]});
    } else {
      PooledUsable(m, avail, sockets);
      PooledDevices(avail, sockets);
      AssignmentDevices(m, req, Pooled(avail, sockets), Elements(sockets));
    }
  }

  lemma {:induction false} FoldDevices(m: Machine, vs: seq<VnodeRequest>, avail: map<int, Avail>)
    requires AllUsable(m, avail) && VnodesFit(m, vs, avail)
    ensures var g := Fold(m, vs, avail);
      DevicesFree(avail, g.names) && Elements(g.names) <= m.node.devices.Keys && g.entries == Granted(m.node.devices, g.names)
  {
    if vs != [] {
      var n := |vs| - 1;
      var s := vs[n].socket;
      assert FitsOn(m, vs[n].req, avail, s);
      FoldDevices(m, vs[..n], avail);
      AssignmentDevices(m, vs[n].req, avail[s], {s});
      var a, b := Fold(m, vs[..n], avail).names, OnSocket(m, vs[n].req, avail, s).names;
      ElementsAppend(a, b);
      GrantedUnion(m.node.devices, a, b);
    }
  }
}
