/**
 * The allocator over whole runs: jobs begin, resize, get suspended, resume and end, cleanups take leftovers
 * away, and the free view is rebuilt every time.
 */
module Allocator {
  import opened Collections
  import opened CpuSelection
  import opened Devices
  import opened Availability
  import opened Placement

  /** What a job asks of this host: a total, or a total together with the scheduler's vnodes. */
  datatype Ask = Whole(total: Request) | ByVnode(total: Request, vs: seq<VnodeRequest>)

  /**
   * The cgroup tree as job table, the jobs that printjob reports as suspended, and the live jobs: those
   * whose begin succeeded and that have not ended. A cgroup may outlive its job. `given` is what the hook
   * stores about a job's devices, from which the launch environment names them.
   */
  datatype State = State(
    jobs: JobTable,
    suspended: set<JobId>,
    live: set<JobId>,
    given: map<JobId, seq<DeviceName>>)

  /** What one placement works from: the free resources and the dictionary orders it meets. */
  datatype View = View(avail: map<int, Avail>, keys: seq<int>, placed: seq<int>)

  /**
   * One handler run, suspension, resumption or cleanup. `cleared` says whether a leftover cgroup of the same
   * job could be deleted first; a cleanup removes cgroups or only manages to rename one, whose ever they are.
   */
  datatype Event =
    | Begin(id: JobId, ask: Ask, result: Option<Grants>, cleared: bool, lines: seq<Option<DeviceNumber>>)
    | Resize(id: JobId, ask: Ask, result: Option<Grants>, lines: seq<Option<DeviceNumber>>)
    | Refuse(id: JobId, cleared: bool)
    | End(id: JobId, gone: bool)
    | Suspend(id: JobId)
    | Resume(id: JobId)
    | Clear(ids: set<JobId>)
    | Rename(from: JobId, to: JobId)

  /** NUMA nodes do not share CPUs. */
  ghost predicate DisjointNuma(node: Node) {
    forall a, b :: a in node.numa && b in node.numa && a != b ==> Elements(node.numa[a].cpus) !! Elements(node.numa[b].cpus)
  }

  /** configure_job fills in the memory request whenever the memory controller is on. */
  predicate Admissible(m: Machine, ask: Ask) {
    && (m.cfg.memoryEnabled ==> ask.total.mem.Some?)
    && (ask.ByVnode? ==> |ask.vs| > 0 && forall i :: 0 <= i < |ask.vs| ==> ask.vs[i].socket in m.node.numa)
  }

  ghost predicate GoodView(m: Machine, jobs: JobTable, active: set<JobId>, v: View)
    requires active <= jobs.Keys
  {
    && IsAvailable(m.node, jobs, active, v.avail)
    && Distinct(v.keys) && Elements(v.keys) == m.node.numa.Keys && Elements(v.placed) <= m.node.numa.Keys
  }

  /** A view of what is free is always usable: it stays within the node's own CPUs and devices. */
  lemma ViewUsable(m: Machine, jobs: JobTable, active: set<JobId>, v: View)
    requires m.Valid() && active <= jobs.Keys && GoodView(m, jobs, active, v)
    ensures AllUsable(m, v.avail)
  {
    forall s | s in v.avail ensures Usable(m, v.avail[s]) {
      assert IsFree(m.node, jobs, active, s, v.avail[s]);
      WithoutElements(m.node.numa[s].cpus, TakenCpus(jobs, active, s));
      WithoutElements(m.node.deviceOrder, Elsewhere(m.node, s));
      WithoutElements(DevicesOn(m.node, s), TakenDevices(m.node, jobs, active));
    }
  }

  /** The outcome of the placement; an empty CPU list is refused when the cpuset is written. */
  ghost function Outcome(m: Machine, ask: Ask, v: View): Option<Grants>
    requires AllUsable(m, v.avail)
  {
    var r := match ask
      case Whole(req) => Place(m, req, v.avail, SocketOrder(m.cfg, v.keys, v.placed))
      case ByVnode(_, vs) => if VnodesFit(m, vs, v.avail) then
        var all := Fold(m, vs, v.avail);
        Some(all.(cpus := SortBy(all.cpus, c => c)))
      else None;
    if r.Some? && r.value.cpus == [] then None else r
  }

  /** A placement result that some view of the free resources explains. */
  ghost predicate Placed(m: Machine, jobs: JobTable, active: set<JobId>, ask: Ask, r: Option<Grants>)
    requires active <= jobs.Keys
  {
    exists v: View :: Explains(m, jobs, active, ask, v, r)
  }

  ghost predicate Explains(m: Machine, jobs: JobTable, active: set<JobId>, ask: Ask, v: View, r: Option<Grants>)
    requires active <= jobs.Keys
  {
    GoodView(m, jobs, active, v) && AllUsable(m, v.avail) && r == Outcome(m, ask, v)
  }

  /** What the tree shows after the limits are written: the kernel lists CPUs and NUMA nodes in order. */
  ghost function Recorded(m: Machine, ask: Ask, g: Grants, lines: seq<Option<DeviceNumber>>): JobUse {
    JobUse(
      Sorted(Elements(g.cpus)),
      Sorted(if m.cfg.memFences then g.mems else m.node.numa.Keys),
      if m.cfg.memoryEnabled then ask.total.mem.GetOr(0) else 0,
      lines)
  }

  const FRESH := JobUse([], [], 0, [])

  /** The jobs whose holdings a begin subtracts: all active ones, and the job's own leftover if it is stuck. */
  function BeginActive(s: State, id: JobId, cleared: bool): set<JobId> {
    Active(s.jobs, s.suspended - {id}, if cleared then Some(id) else None)
  }

  ghost predicate BeginStep(m: Machine, s: State, id: JobId, ask: Ask, r: Option<Grants>, cleared: bool,
                            lines: seq<Option<DeviceNumber>>, t: State)
    requires m.Valid()
  {
    && Admissible(m, ask) && Placed(m, s.jobs, BeginActive(s, id, cleared), ask, r)
    && t == (match r
             case Some(g) => State(s.jobs[id := Recorded(m, ask, g, lines)], s.suspended - {id}, s.live + {id}, s.given[id := g.names])
             case None => State(if cleared then s.jobs[id := FRESH] else s.jobs, s.suspended - {id}, s.live - {id}, s.given))
  }

  ghost predicate ResizeStep(m: Machine, s: State, id: JobId, ask: Ask, r: Option<Grants>,
                             lines: seq<Option<DeviceNumber>>, t: State)
    requires m.Valid()
  {
    && id in s.jobs
    && Admissible(m, ask) && Placed(m, s.jobs, Active(s.jobs, s.suspended, Some(id)), ask, r)
    && t == (match r
             case Some(g) => s.(jobs := s.jobs[id := Recorded(m, ask, g, lines)], given := s.given[id := g.names])
             case None => s)
  }

  /** One atomic handler run (handlers are serialised by the file lock). */
  ghost predicate Step(m: Machine, s: State, e: Event, t: State)
    requires m.Valid()
  {
    match e
    case Begin(id, ask, r, cleared, lines) => BeginStep(m, s, id, ask, r, cleared, lines, t)
    case Resize(id, ask, r, lines) => ResizeStep(m, s, id, ask, r, lines, t)
    case Refuse(id, cleared) =>
      t == State(if cleared then s.jobs[id := FRESH] else s.jobs, s.suspended - {id}, s.live - {id}, s.given)
    case End(id, gone) => t == s.(jobs := if gone then s.jobs - {id} else s.jobs, live := s.live - {id})
    case Suspend(id) => t == s.(suspended := s.suspended + {id})
    case Resume(id) => t == s.(suspended := s.suspended - {id})
    case Clear(ids) => t == s.(jobs := s.jobs - ids)
    case Rename(from, to) =>
      from in s.jobs && to !in s.jobs && t == s.(jobs := (s.jobs - {from})[to := s.jobs[from]])
  }

  ghost predicate Run(m: Machine, states: seq<State>, events: seq<Event>)
    requires m.Valid()
  {
    |states| == |events| + 1 && forall i :: 0 <= i < |events| ==> Step(m, states[i], events[i], states[i + 1])
  }

  // ---------- what a granted request puts on record ----------

  /** A request is refused exactly if it fits nowhere or asks for no CPU. */
  lemma RefusedIff(m: Machine, req: Request, v: View)
    requires AllUsable(m, v.avail)
    ensures Outcome(m, Whole(req), v).None? <==>
      Place(m, req, v.avail, SocketOrder(m.cfg, v.keys, v.placed)).None? || req.ncpus.GetOr(0) <= 0
  {
    var order := SocketOrder(m.cfg, v.keys, v.placed);
    if Place(m, req, v.avail, order).Some? {
      PlaceCount(m, req, v.avail, order);
      NotPositive(-req.ncpus.GetOr(0), m.info.perCore);
      if req.ncpus.GetOr(0) > 0 {
        MultiplePositive(req.ncpus.GetOr(0), m.info.perCore);
      }
    }
  }

  /** A job of `n` CPUs on one host: `n` threads, or those of `n` whole cores if requests count cores with threads on. */
  lemma OutcomeCount(m: Machine, req: Request, v: View)
    requires AllUsable(m, v.avail) && Outcome(m, Whole(req), v).Some?
    ensures var cpus := Outcome(m, Whole(req), v).value.cpus;
      req.ncpus.GetOr(0) > 0 && |Elements(cpus)| ==
        req.ncpus.value * if m.cfg.useHyperthreads && m.cfg.ncpusAreCores then m.info.perCore else 1
  {
    PlaceCount(m, req, v.avail, SocketOrder(m.cfg, v.keys, v.placed));
  }

  /** On distinct vnodes a job gets what it asks for on all of them together. */
  lemma OutcomeVnodeCount(m: Machine, total: Request, vs: seq<VnodeRequest>, v: View)
    requires AllUsable(m, v.avail) && DisjointCpus(v.avail) && DistinctSockets(vs) && Outcome(m, ByVnode(total, vs), v).Some?
    ensures |Elements(Outcome(m, ByVnode(total, vs), v).value.cpus)| ==
      TotalCpus(vs) * if m.cfg.useHyperthreads && m.cfg.ncpusAreCores then m.info.perCore else 1
  {
    VnodeCount(m, vs, v.avail);
    VnodeRule(m, vs, v.avail);
    ElementsCard(SortBy(Fold(m, vs, v.avail).cpus, c => c));
  }

  /** What is on record after a granted begin or resize, in the terms of the grant; nothing else changes. */
  lemma GrantOnRecord(m: Machine, s: State, e: Event, t: State)
    requires m.Valid() && Step(m, s, e, t) && (e.Begin? || e.Resize?) && e.result.Some?
    ensures e.id in t.jobs && e.id in t.given && t.given[e.id] == e.result.value.names
    ensures var use, g := t.jobs[e.id], e.result.value;
      && Increasing(use.cpus) && Elements(use.cpus) == Elements(g.cpus)
      && Increasing(use.mems) && Elements(use.mems) == (if m.cfg.memFences then g.mems else m.node.numa.Keys)
      && use.limit == (if m.cfg.memoryEnabled then e.ask.total.mem.GetOr(0) else 0) && use.devices == e.lines
    ensures e.Begin? ==> e.id in t.live && e.id !in t.suspended
    ensures e.Resize? ==> t.live == s.live && t.suspended == s.suspended
  {
  }

  /** Apart from cleanups, an event leaves all jobs but its own as they were. */
  lemma OthersUntouched(m: Machine, s: State, e: Event, t: State, j: JobId)
    requires m.Valid() && Step(m, s, e, t) && !e.Clear? && !e.Rename? && e.id != j
    ensures (j in t.jobs <==> j in s.jobs) && (j in s.jobs ==> t.jobs[j] == s.jobs[j])
    ensures (j in t.live <==> j in s.live) && (j in t.suspended <==> j in s.suspended)
    ensures (j in t.given <==> j in s.given) && (j in s.given ==> t.given[j] == s.given[j])
  {
  }

  /** What the other events do to their own job: an empty cgroup, none any more, or the mark of a suspension. */
  lemma OwnJob(m: Machine, s: State, e: Event, t: State)
    requires m.Valid() && Step(m, s, e, t) && !e.Clear? && !e.Rename?
    ensures e.Refuse? || (e.Begin? && e.result.None?) ==>
      (&& e.id !in t.live && e.id !in t.suspended
       && (e.cleared ==> e.id in t.jobs && t.jobs[e.id] == JobUse([], [], 0, []))
       && (!e.cleared ==> (e.id in t.jobs <==> e.id in s.jobs) && (e.id in s.jobs ==> t.jobs[e.id] == s.jobs[e.id])))
    ensures e.End? ==> e.id !in t.live && (e.id in t.jobs <==> e.id in s.jobs && !e.gone)
    ensures e.Suspend? ==> e.id in t.suspended && (e.id in t.live <==> e.id in s.live)
    ensures e.Resume? ==> e.id !in t.suspended && (e.id in t.live <==> e.id in s.live)
    ensures e.End? || e.Suspend? || e.Resume? ==> (e.id in t.jobs && e.id in s.jobs ==> t.jobs[e.id] == s.jobs[e.id])
  {
  }

  /** So the CPU set on record has the size of the request. */
  lemma GrantedCount(m: Machine, s: State, e: Event, t: State)
    requires m.Valid() && DisjointNuma(m.node) && Step(m, s, e, t) && (e.Begin? || e.Resize?) && e.result.Some?
    requires e.ask.ByVnode? ==> DistinctSockets(e.ask.vs)
    ensures e.id in t.jobs
    ensures |t.jobs[e.id].cpus| ==
      (match e.ask
       case Whole(req) => if req.ncpus.GetOr(0) > 0 then req.ncpus.value else 0
       case ByVnode(_, vs) => TotalCpus(vs)) *
      if m.cfg.useHyperthreads && m.cfg.ncpusAreCores then m.info.perCore else 1
  {
    var active := if e.Begin? then BeginActive(s, e.id, e.cleared) else Active(s.jobs, s.suspended, Some(e.id));
    var v: View :| Explains(m, s.jobs, active, e.ask, v, e.result);
    match e.ask
    case Whole(req) => OutcomeCount(m, req, v);
    case ByVnode(total, vs) =>
      ViewDisjoint(m, s.jobs, active, v);
      OutcomeVnodeCount(m, total, vs, v);
  }

  lemma ViewDisjoint(m: Machine, jobs: JobTable, active: set<JobId>, v: View)
    requires DisjointNuma(m.node) && active <= jobs.Keys && GoodView(m, jobs, active, v)
    ensures DisjointCpus(v.avail)
  {
    forall s | s in v.avail ensures Elements(v.avail[s].cpus) <= Elements(m.node.numa[s].cpus) {
      assert IsFree(m.node, jobs, active, s, v.avail[s]);
      WithoutElements(m.node.numa[s].cpus, TakenCpus(jobs, active, s));
    }
  }

  // ---------- exclusivity ----------

  /** A job's CPUs all lie in NUMA nodes of its own mems. */
  ghost predicate Contained(node: Node, use: JobUse) {
    && Elements(use.mems) <= node.numa.Keys
    && forall c :: c in use.cpus ==> exists n :: n in use.mems && n in node.numa && c in Elements(node.numa[n].cpus)
  }

  /** The live jobs that hold their CPUs at this moment. */
  function Holding(s: State): set<JobId> {
    s.live - s.suspended
  }

  ghost predicate Apart(jobs: JobTable, ids: set<JobId>)
    requires ids <= jobs.Keys
  {
    forall i, j :: i in ids && j in ids && i != j ==> Elements(jobs[i].cpus) !! Elements(jobs[j].cpus)
  }

  ghost predicate Exclusive(m: Machine, s: State) {
    && s.live <= s.jobs.Keys
    && (forall j :: j in s.jobs ==> Contained(m.node, s.jobs[j]))
    && Apart(s.jobs, Holding(s))
  }

  lemma OutcomeSound(m: Machine, ask: Ask, v: View)
    requires AllUsable(m, v.avail) && v.avail.Keys == m.node.numa.Keys
    requires Outcome(m, ask, v).Some? && Admissible(m, ask) && Elements(v.keys) == m.node.numa.Keys
    ensures Sound(v.avail, Outcome(m, ask, v).value)
    ensures Outcome(m, ask, v).value.mems <= m.node.numa.Keys
  {
    match ask
    case Whole(req) =>
      SocketOrderElements(m.cfg, v.keys, v.placed);
      var order := SocketOrder(m.cfg, v.keys, v.placed);
      PlaceSound(m, req, v.avail, order);
      PlaceMems(m, req, v.avail, order);
    case ByVnode(_, vs) =>
      VnodeRule(m, vs, v.avail);
      VnodeMems(m, vs, v.avail);
  }

  lemma PlaceMems(m: Machine, req: Request, avail: map<int, Avail>, order: seq<int>)
    requires AllUsable(m, avail) && avail.Keys == m.node.numa.Keys && Elements(order) == avail.Keys
    requires Place(m, req, avail, order).Some?
    ensures Place(m, req, avail, order).value.mems <= m.node.numa.Keys
  {
    var i := FirstFit(m, req, avail, order);
    if i < |order| {
      OnSocketSound(m, req, avail, order[i]);
    }
  }

  lemma VnodeMems(m: Machine, vs: seq<VnodeRequest>, avail: map<int, Avail>)
    requires AllUsable(m, avail) && avail.Keys == m.node.numa.Keys && VnodesFit(m, vs, avail)
    ensures Fold(m, vs, avail).mems <= m.node.numa.Keys
  {
    FoldMems(m, vs, avail);
    SocketsExist(m, vs, avail);
  }

  lemma {:induction false} SocketsExist(m: Machine, vs: seq<VnodeRequest>, avail: map<int, Avail>)
    requires VnodesFit(m, vs, avail)
    ensures SocketsOf(vs) <= avail.Keys
  {
    if vs != [] {
      SocketsExist(m, vs[..|vs| - 1], avail);
      assert FitsOn(m, vs[|vs| - 1].req, avail, vs[|vs| - 1].socket);
    }
  }

  /** A recorded grant is contained and disjoint from every job that the view had subtracted. */
  lemma GrantSafe(m: Machine, jobs: JobTable, active: set<JobId>, ask: Ask, g: Grants, lines: seq<Option<DeviceNumber>>)
    requires m.Valid() && DisjointNuma(m.node) && active <= jobs.Keys && Admissible(m, ask)
    requires Placed(m, jobs, active, ask, Some(g))
    requires forall j :: j in active ==> Contained(m.node, jobs[j])
    ensures var use := Recorded(m, ask, g, lines);
      Contained(m.node, use) && forall j :: j in active ==> Elements(use.cpus) !! Elements(jobs[j].cpus)
  {
    var use := Recorded(m, ask, g, lines);
    var v: View :| Explains(m, jobs, active, ask, v, Some(g));
    OutcomeSound(m, ask, v);
    forall c | c in use.cpus ensures exists n :: n in use.mems && n in m.node.numa && c in Elements(m.node.numa[n].cpus) {
      var n := FreeHome(m, jobs, active, v, g, c);
      assert n in Elements(use.mems);
    }
    forall j | j in active ensures Elements(use.cpus) !! Elements(jobs[j].cpus) {
      forall c | c in Elements(use.cpus) ensures c !in Elements(jobs[j].cpus) {
        var n := FreeHome(m, jobs, active, v, g, c);
        NotHeld(m.node, jobs, active, j, n, c);
      }
    }
  }

  /** A CPU that is not taken on its NUMA node is held by no contained job. */
  lemma NotHeld(node: Node, jobs: JobTable, active: set<JobId>, j: JobId, n: int, c: int)
    requires DisjointNuma(node) && active <= jobs.Keys && j in active && Contained(node, jobs[j])
    requires n in node.numa && c in Elements(node.numa[n].cpus) && c !in TakenCpus(jobs, active, n)
    ensures c !in jobs[j].cpus
  {
  }

  /** The NUMA node on which a granted CPU was free. */
  lemma FreeHome(m: Machine, jobs: JobTable, active: set<JobId>, v: View, g: Grants, c: int) returns (n: int)
    requires active <= jobs.Keys && GoodView(m, jobs, active, v) && Sound(v.avail, g)
    requires c in Sorted(Elements(g.cpus))
    ensures n in g.mems && n in m.node.numa && c in Elements(m.node.numa[n].cpus) && c !in TakenCpus(jobs, active, n)
  {
    assert c in Elements(Sorted(Elements(g.cpus)));
    assert HasCpu(v.avail, g.mems, c);
    n :| n in g.mems && n in v.avail && c in Elements(v.avail[n].cpus);
    assert IsFree(m.node, jobs, active, n, v.avail[n]);
    WithoutElements(m.node.numa[n].cpus, TakenCpus(jobs, active, n));
  }

  lemma ReplacedExclusive(m: Machine, s: State, id: JobId, use: JobUse, t: State)
    requires Exclusive(m, s) && t.jobs == s.jobs[id := use] && t.live <= s.live + {id}
    requires t.suspended >= s.suspended - {id}
    requires Contained(m.node, use)
    requires forall j :: j in Holding(s) - {id} ==> Elements(use.cpus) !! Elements(s.jobs[j].cpus)
    ensures Exclusive(m, t)
  {
    assert forall j :: j in Holding(t) ==> j == id || j in Holding(s) - {id};
  }

  lemma BeginExclusive(m: Machine, s: State, id: JobId, ask: Ask, r: Option<Grants>, cleared: bool,
                       lines: seq<Option<DeviceNumber>>, t: State)
    requires m.Valid() && DisjointNuma(m.node) && Exclusive(m, s)
    requires Step(m, s, Begin(id, ask, r, cleared, lines), t)
    ensures Exclusive(m, t)
  {
    if r.Some? {
      GrantSafe(m, s.jobs, BeginActive(s, id, cleared), ask, r.value, lines);
      ReplacedExclusive(m, s, id, Recorded(m, ask, r.value, lines), t);
    } else {
      RefuseExclusive(m, s, id, cleared, t);
    }
  }

  lemma RefuseExclusive(m: Machine, s: State, id: JobId, cleared: bool, t: State)
    requires Exclusive(m, s) && t == State(if cleared then s.jobs[id := FRESH] else s.jobs, s.suspended - {id}, s.live - {id}, s.given)
    ensures Exclusive(m, t)
  {
    if cleared {
      ReplacedExclusive(m, s, id, FRESH, t);
    } else {
      assert Holding(t) <= Holding(s);
    }
  }

  lemma ResizeExclusive(m: Machine, s: State, id: JobId, ask: Ask, r: Option<Grants>, lines: seq<Option<DeviceNumber>>, t: State)
    requires m.Valid() && DisjointNuma(m.node) && Exclusive(m, s)
    requires Step(m, s, Resize(id, ask, r, lines), t)
    ensures Exclusive(m, t)
  {
    if r.Some? {
      GrantSafe(m, s.jobs, Active(s.jobs, s.suspended, Some(id)), ask, r.value, lines);
      ReplacedExclusive(m, s, id, Recorded(m, ask, r.value, lines), t);
    }
  }

  /** A job resumed may hold again what it held if no job has been given any of its CPUs meanwhile. */
  ghost predicate CpusKept(s: State, id: JobId) {
    id in s.live && id in s.jobs ==>
      forall j :: j in Holding(s) && j in s.jobs && j != id ==> Elements(s.jobs[id].cpus) !! Elements(s.jobs[j].cpus)
  }

  /** Cleanups touch leftovers only. */
  predicate SparesLive(s: State, e: Event) {
    match e
    case Clear(ids) => ids !! s.live
    case Rename(from, _) => from !in s.live
    case _ => true
  }

  /** Only a resumption, or a cleanup that takes a live job's cgroup, can go wrong. */
  ghost predicate MayHold(s: State, e: Event) {
    SparesLive(s, e) && (e.Resume? ==> CpusKept(s, e.id))
  }

  /** Resuming a job keeps exclusivity exactly when its CPUs were not given away. */
  lemma ResumeExclusive(m: Machine, s: State, id: JobId)
    requires Exclusive(m, s)
    ensures Exclusive(m, s.(suspended := s.suspended - {id})) <==> CpusKept(s, id)
  {
    var t := s.(suspended := s.suspended - {id});
    assert forall j :: j in Holding(t) <==> j in Holding(s) || (j == id && j in s.live);
    if id in s.live && Exclusive(m, t) {
      assert id in Holding(t);
    }
  }

  lemma {:induction false} StepExclusive(m: Machine, s: State, e: Event, t: State)
    requires m.Valid() && DisjointNuma(m.node) && Exclusive(m, s) && Step(m, s, e, t)
    ensures Exclusive(m, t) <==> MayHold(s, e)
  {
    match e
    case Begin(id, ask, r, cleared, lines) => BeginExclusive(m, s, id, ask, r, cleared, lines, t);
    case Resize(id, ask, r, lines) => ResizeExclusive(m, s, id, ask, r, lines, t);
    case Refuse(id, cleared) => RefuseExclusive(m, s, id, cleared, t);
    case End(id, gone) => assert Holding(t) <= Holding(s);
    case Suspend(id) => assert Holding(t) <= Holding(s);
    case Resume(id) => ResumeExclusive(m, s, id);
    case Clear(ids) => ClearExclusive(m, s, ids);
    case Rename(from, to) => RenameExclusive(m, s, from, to);
  }

  /** A cleanup keeps every live job on record exactly when it spares them all. */
  lemma ClearExclusive(m: Machine, s: State, ids: set<JobId>)
    requires Exclusive(m, s)
    ensures Exclusive(m, s.(jobs := s.jobs - ids)) <==> ids !! s.live
  {
    var t := s.(jobs := s.jobs - ids);
    assert Holding(t) == Holding(s);
  }

  lemma RenameExclusive(m: Machine, s: State, from: JobId, to: JobId)
    requires Exclusive(m, s) && from in s.jobs && to !in s.jobs
    ensures Exclusive(m, s.(jobs := (s.jobs - {from})[to := s.jobs[from]])) <==> from !in s.live
  {
    var t := s.(jobs := (s.jobs - {from})[to := s.jobs[from]]);
    assert Holding(t) == Holding(s);
  }

  lemma {:induction false} FitResumes(m: Machine, states: seq<State>, events: seq<Event>, n: nat)
    requires m.Valid() && DisjointNuma(m.node) && Run(m, states, events) && n < |states| && Exclusive(m, states[0])
    requires forall i :: 0 <= i < n ==> MayHold(states[i], events[i])
    ensures Exclusive(m, states[n])
  {
    if n > 0 {
      FitResumes(m, states, events, n - 1);
      StepExclusive(m, states[n - 1], events[n - 1], states[n]);
    }
  }

  /**
   * In every run all live jobs stay on record, and the CPU sets of those that hold their CPUs pairwise disjoint,
   * exactly as long as no job is resumed whose CPUs were given away and no cleanup takes a live job's cgroup.
   */
  lemma ExclusiveForever(m: Machine, states: seq<State>, events: seq<Event>, n: nat)
    requires m.Valid() && DisjointNuma(m.node) && Run(m, states, events) && n < |states|
    requires Exclusive(m, states[0])
    ensures (forall k :: 0 <= k <= n ==> Exclusive(m, states[k])) <==>
      forall i :: 0 <= i < n ==> MayHold(states[i], events[i])
    ensures (forall i :: 0 <= i < n ==> !events[i].Resume? && SparesLive(states[i], events[i])) ==> Exclusive(m, states[n])
  {
    if forall i :: 0 <= i < n ==> MayHold(states[i], events[i]) {
      forall k | 0 <= k <= n ensures Exclusive(m, states[k]) {
        FitResumes(m, states, events, k);
      }
    }
    if forall k :: 0 <= k <= n ==> Exclusive(m, states[k]) {
      forall i | 0 <= i < n ensures MayHold(states[i], events[i]) {
        StepExclusive(m, states[i], events[i], states[i + 1]);
      }
    }
  }

  // ---------- memory ----------

  /** The jobs whose holdings are subtracted at this moment. */
  function Counted(s: State): set<JobId> {
    Active(s.jobs, s.suspended, None)
  }

  /** The limits charged to each NUMA node fit into its memory. */
  ghost predicate MemorySafe(m: Machine, s: State) {
    forall n :: n in m.node.numa ==> ChargeSum(s.jobs, Counted(s), n) <= NodeMemory(m.node.numa[n])
  }

  lemma EmptyIsSafe(m: Machine, s: State)
    requires s.jobs == map[]
    ensures MemorySafe(m, s)
  {
    forall n | n in m.node.numa ensures ChargeSum(s.jobs, Counted(s), n) == 0 {
      assert Charged(s.jobs, Counted(s), n) == {};
    }
  }

  /** What one job brings to a NUMA node fits beside what others are charged there. */
  ghost predicate RoomFor(m: Machine, jobs: JobTable, others: set<JobId>, use: JobUse)
    requires others <= jobs.Keys
  {
    forall n :: n in m.node.numa && use.mems == [n] ==> use.limit <= NodeMemory(m.node.numa[n]) - ChargeSum(jobs, others, n)
  }

  /** The job whose charge an event may bring in. */
  function Brings(e: Event): Option<JobId> {
    match e
    case Begin(id, _, _, _, _) => Some(id)
    case Resize(id, _, _, _) => Some(id)
    case Refuse(id, _) => Some(id)
    case End(id, _) => Some(id)
    case Suspend(id) => Some(id)
    case Resume(id) => Some(id)
    case Clear(_) => None
    case Rename(_, to) => Some(to)
  }

  /** The jobs that an event leaves alone. */
  function Others(s: State, e: Event): set<JobId> {
    match e
    case Clear(ids) => Counted(s) - ids
    case Rename(from, to) => Counted(s) - {from}
    case _ => Counted(s) - {Brings(e).value}
  }

  /** What the job of an event is counted with afterwards, if it is counted. */
  ghost function Incoming(m: Machine, s: State, e: Event): Option<JobUse> {
    match e
    case Begin(id, ask, Some(g), _, lines) => Some(Recorded(m, ask, g, lines))
    case Begin(id, _, None, cleared, _) => if cleared then Some(FRESH) else OnRecord(s, id)
    case Refuse(id, cleared) => if cleared then Some(FRESH) else OnRecord(s, id)
    case Resize(id, ask, r, lines) =>
      if id in s.suspended then None else if r.Some? then Some(Recorded(m, ask, r.value, lines)) else OnRecord(s, id)
    case End(id, gone) => if gone || id in s.suspended then None else OnRecord(s, id)
    case Suspend(_) => None
    case Resume(id) => OnRecord(s, id)
    case Clear(_) => None
    case Rename(from, to) => if to in s.suspended then None else OnRecord(s, from)
  }

  function OnRecord(s: State, id: JobId): Option<JobUse> {
    if id in s.jobs then Some(s.jobs[id]) else None
  }

  /** What an event brings has room beside the jobs that it leaves alone. */
  ghost predicate MemoryFits(m: Machine, s: State, e: Event) {
    Incoming(m, s, e).Some? ==> RoomFor(m, s.jobs, Others(s, e), Incoming(m, s, e).value)
  }

  /** Conservation survives the arrival of one job exactly when there is room for it. */
  lemma ArrivalSafe(m: Machine, s: State, t: State, others: set<JobId>, id: JobId)
    requires MemorySafe(m, s) && others <= Counted(s) && others == Counted(t) - {id}
    requires forall j :: j in others ==> t.jobs[j] == s.jobs[j]
    ensures MemorySafe(m, t) <==> (id in Counted(t) ==> RoomFor(m, s.jobs, others, t.jobs[id]))
  {
    forall n | n in m.node.numa
      ensures ChargeSum(s.jobs, others, n) <= NodeMemory(m.node.numa[n])
      ensures ChargeSum(t.jobs, Counted(t), n) ==
        ChargeSum(s.jobs, others, n) + if id in Counted(t) && t.jobs[id].mems == [n] then t.jobs[id].limit else 0
    {
      SumOverSubset(Charged(s.jobs, others, n), Charged(s.jobs, Counted(s), n), Limits(s.jobs));
      Arrival(s.jobs, t.jobs, others, Counted(t), id, n);
    }
  }

  lemma Arrival(a: JobTable, b: JobTable, others: set<JobId>, active: set<JobId>, id: JobId, n: int)
    requires others <= a.Keys && active <= b.Keys && others == active - {id}
    requires forall j :: j in others ==> a[j] == b[j]
    ensures ChargeSum(b, active, n) == ChargeSum(a, others, n) + if id in active && b[id].mems == [n] then b[id].limit else 0
  {
    assert Charged(a, others, n) == Charged(b, others, n);
    SumOverAgree(Charged(a, others, n), Limits(a), Limits(b));
    if id in active {
      ChargeOne(b, active, others, id, n);
      assert others + {id} == active;
    } else {
      assert others == active;
    }
  }

  /** Each step keeps memory conservation exactly when the job it is about has room. */
  lemma {:induction false} StepMemory(m: Machine, s: State, e: Event, t: State)
    requires m.Valid() && MemorySafe(m, s) && Step(m, s, e, t)
    ensures MemorySafe(m, t) <==> MemoryFits(m, s, e)
  {
    if e.Clear? {
      forall n | n in m.node.numa ensures ChargeSum(t.jobs, Counted(t), n) <= NodeMemory(m.node.numa[n]) {
        assert Charged(t.jobs, Counted(t), n) <= Charged(s.jobs, Counted(s), n);
        SumOverAgree(Charged(t.jobs, Counted(t), n), Limits(t.jobs), Limits(s.jobs));
        SumOverSubset(Charged(t.jobs, Counted(t), n), Charged(s.jobs, Counted(s), n), Limits(s.jobs));
      }
    } else {
      OthersStay(m, s, e, t);
      IncomingIs(m, s, e, t);
      ArrivalSafe(m, s, t, Others(s, e), Brings(e).value);
    }
  }

  lemma IncomingIs(m: Machine, s: State, e: Event, t: State)
    requires m.Valid() && Step(m, s, e, t) && !e.Clear?
    ensures Brings(e).value in Counted(t) <==> Incoming(m, s, e).Some?
    ensures Incoming(m, s, e).Some? ==> t.jobs[Brings(e).value] == Incoming(m, s, e).value
  {
  }

  lemma OthersStay(m: Machine, s: State, e: Event, t: State)
    requires m.Valid() && Step(m, s, e, t) && !e.Clear?
    ensures Others(s, e) == Counted(t) - {Brings(e).value}
    ensures forall j :: j in Others(s, e) ==> t.jobs[j] == s.jobs[j]
  {
    if e.Rename? {
      assert Counted(s) - {e.from} == Counted(t) - {e.to};
    } else {
      OnlyOne(s, t, Brings(e).value);
    }
  }

  lemma OnlyOne(s: State, t: State, id: JobId)
    requires forall j :: j != id ==> (j in s.jobs <==> j in t.jobs) && (j in s.suspended <==> j in t.suspended)
    requires forall j :: j != id && j in s.jobs ==> t.jobs[j] == s.jobs[j]
    ensures Counted(s) - {id} == Counted(t) - {id}
    ensures forall j :: j in Counted(s) - {id} ==> t.jobs[j] == s.jobs[j]
  {
  }

  // ---------- where there is always room ----------

  /** The limit that is charged was also asked for on the sockets: always so without vnodes. */
  predicate Backed(ask: Ask) {
    ask.ByVnode? ==> DistinctSockets(ask.vs) && ask.total.mem.GetOr(0) <= TotalMem(ask.vs)
  }

  /**
   * The steps that find room by themselves: the charge of a grant is backed, and no leftover of a suspended
   * job comes back into the count.
   */
  predicate Plain(s: State, e: Event) {
    match e
    case Begin(id, ask, r, cleared, _) => (r.Some? ==> Backed(ask)) && (cleared || id !in s.suspended)
    case Resize(_, ask, r, _) => r.Some? ==> Backed(ask)
    case Refuse(id, cleared) => cleared || id !in s.suspended
    case End(_, _) => true
    case Suspend(_) => true
    case Resume(id) => id !in s.suspended
    case Clear(_) => true
    case Rename(from, to) => from !in s.suspended || to in s.suspended
  }

  /** If a grant is recorded on one NUMA node only, its memory came out of what was free there. */
  lemma LimitFits(m: Machine, ask: Ask, v: View, lines: seq<Option<DeviceNumber>>, n: int)
    requires AllUsable(m, v.avail) && v.avail.Keys == m.node.numa.Keys && Distinct(v.keys) && Backed(ask)
    requires Elements(v.keys) == m.node.numa.Keys && Outcome(m, ask, v).Some?
    requires n in v.avail && v.avail[n].memory >= 0
    requires Recorded(m, ask, Outcome(m, ask, v).value, lines).mems == [n]
    ensures Recorded(m, ask, Outcome(m, ask, v).value, lines).limit <= v.avail[n].memory
  {
    var g := Outcome(m, ask, v).value;
    OneSorted(if m.cfg.memFences then g.mems else m.node.numa.Keys, n);
    match ask
    case Whole(req) =>
      var order := SocketOrder(m.cfg, v.keys, v.placed);
      SocketOrderElements(m.cfg, v.keys, v.placed);
      PlacedMemory(m, req, v.avail, v.keys, order, n);
    case ByVnode(total, vs) =>
      FoldMems(m, vs, v.avail);
      SocketsExist(m, vs, v.avail);
      OneVnode(m, vs, v.avail, n);
  }

  lemma {:induction false} SocketListed(vs: seq<VnodeRequest>, i: nat)
    requires i < |vs|
    ensures vs[i].socket in SocketsOf(vs)
  {
    if i < |vs| - 1 {
      SocketListed(vs[..|vs| - 1], i);
    }
  }

  /** Distinct sockets within one NUMA node are one socket. */
  lemma OneSocketOnly(vs: seq<VnodeRequest>, n: int)
    requires DistinctSockets(vs) && SocketsOf(vs) <= {n}
    ensures |vs| <= 1 && forall i :: 0 <= i < |vs| ==> vs[i].socket == n
  {
    forall i | 0 <= i < |vs| ensures vs[i].socket == n {
      SocketListed(vs, i);
    }
  }

  lemma OneVnode(m: Machine, vs: seq<VnodeRequest>, avail: map<int, Avail>, n: int)
    requires VnodesFit(m, vs, avail) && DistinctSockets(vs) && SocketsOf(vs) <= {n}
    requires n in avail && avail[n].memory >= 0
    ensures TotalMem(vs) <= avail[n].memory
  {
    OneSocketOnly(vs, n);
    if vs != [] {
      assert FitsOn(m, vs[0].req, avail, vs[0].socket);
      assert TotalMem(vs[..0]) == 0;
    }
  }

  lemma PlacedMemory(m: Machine, req: Request, avail: map<int, Avail>, keys: seq<int>, order: seq<int>, n: int)
    requires AllUsable(m, avail) && n in avail && avail.Keys == m.node.numa.Keys
    requires Distinct(keys) && multiset(order) == multiset(keys) && Elements(order) == avail.Keys
    requires Place(m, req, avail, order).Some? && Place(m, req, avail, order).value.cpus != []
    requires Elements(order) == {n} || Place(m, req, avail, order).value.mems == {n}
    ensures req.mem.Some? ==> req.mem.value <= avail[n].memory
  {
    PlaceMems(m, req, avail, order);
    if FirstFit(m, req, avail, order) < |order| {
      SocketMemory(m, req, avail, order, n);
    } else {
      SpanMemory(m, req, avail, keys, order, n);
    }
  }

  lemma SocketMemory(m: Machine, req: Request, avail: map<int, Avail>, order: seq<int>, n: int)
    requires AllUsable(m, avail) && n in avail && FirstFit(m, req, avail, order) < |order|
    requires Place(m, req, avail, order).value.mems <= {n}
    ensures req.mem.Some? ==> req.mem.value <= avail[n].memory
  {
    var s := order[FirstFit(m, req, avail, order)];
    OnSocketSound(m, req, avail, s);
    assert s in Place(m, req, avail, order).value.mems;
  }

  lemma SpanMemory(m: Machine, req: Request, avail: map<int, Avail>, keys: seq<int>, order: seq<int>, n: int)
    requires AllUsable(m, avail) && n in avail && FirstFit(m, req, avail, order) == |order|
    requires Distinct(keys) && multiset(order) == multiset(keys)
    requires Place(m, req, avail, order).Some? && Place(m, req, avail, order).value.cpus != []
    requires Elements(order) == {n} || Place(m, req, avail, order).value.mems == {n}
    ensures req.mem.Some? ==> req.mem.value <= avail[n].memory
  {
    PooledUsable(m, avail, order);
    AssignmentCpus(m, req, Pooled(avail, order), Elements(order));
    OnlySocket(keys, order, n);
    PooledOne(avail, n);
  }

  lemma OnlySocket(keys: seq<int>, order: seq<int>, n: int)
    requires Distinct(keys) && multiset(order) == multiset(keys) && Elements(order) == {n}
    ensures order == [n]
  {
    SameElements(order, keys);
    ElementsCard(keys);
    assert |multiset(order)| == |multiset(keys)|;
    assert order[0] in Elements(order);
  }

  lemma PooledOne(avail: map<int, Avail>, n: int)
    requires n in avail
    ensures Pooled(avail, [n]).memory == avail[n].memory
  {
    assert [n][..0] == [];
    assert Pooled(avail, []).memory == 0;
  }

  lemma GrantRoom(m: Machine, jobs: JobTable, active: set<JobId>, ask: Ask, g: Grants, lines: seq<Option<DeviceNumber>>)
    requires m.Valid() && active <= jobs.Keys && Placed(m, jobs, active, ask, Some(g)) && Backed(ask)
    requires forall n :: n in m.node.numa ==> ChargeSum(jobs, active, n) <= NodeMemory(m.node.numa[n])
    ensures RoomFor(m, jobs, active, Recorded(m, ask, g, lines))
  {
    var use := Recorded(m, ask, g, lines);
    var v: View :| Explains(m, jobs, active, ask, v, Some(g));
    forall n | n in m.node.numa && use.mems == [n]
      ensures use.limit <= NodeMemory(m.node.numa[n]) - ChargeSum(jobs, active, n)
    {
      ViewMemory(m, jobs, active, v, n);
      LimitFits(m, ask, v, lines, n);
    }
  }

  lemma ViewMemory(m: Machine, jobs: JobTable, active: set<JobId>, v: View, n: int)
    requires active <= jobs.Keys && GoodView(m, jobs, active, v) && n in m.node.numa
    requires ChargeSum(jobs, active, n) <= NodeMemory(m.node.numa[n])
    ensures n in v.avail && v.avail[n].memory == NodeMemory(m.node.numa[n]) - ChargeSum(jobs, active, n)
  {
    assert IsFree(m.node, jobs, active, n, v.avail[n]);
  }

  /** Room beside more jobs is room beside fewer, and what was counted before had room. */
  lemma RoomBeside(m: Machine, s: State, others: set<JobId>, active: set<JobId>, use: JobUse)
    requires others <= active <= s.jobs.Keys && RoomFor(m, s.jobs, active, use)
    ensures RoomFor(m, s.jobs, others, use)
  {
    forall n | n in m.node.numa ensures ChargeSum(s.jobs, others, n) <= ChargeSum(s.jobs, active, n) {
      SumOverSubset(Charged(s.jobs, others, n), Charged(s.jobs, active, n), Limits(s.jobs));
    }
  }

  lemma FewerCharges(m: Machine, s: State, active: set<JobId>)
    requires MemorySafe(m, s) && active <= Counted(s)
    ensures forall n :: n in m.node.numa ==> ChargeSum(s.jobs, active, n) <= NodeMemory(m.node.numa[n])
  {
    forall n | n in m.node.numa ensures ChargeSum(s.jobs, active, n) <= NodeMemory(m.node.numa[n]) {
      SumOverSubset(Charged(s.jobs, active, n), Charged(s.jobs, Counted(s), n), Limits(s.jobs));
    }
  }

  lemma CountedHadRoom(m: Machine, s: State, id: JobId)
    requires MemorySafe(m, s) && id in Counted(s)
    ensures RoomFor(m, s.jobs, Counted(s) - {id}, s.jobs[id])
  {
    ArrivalSafe(m, s, s, Counted(s) - {id}, id);
  }

  lemma Excluding(s: State, id: JobId)
    ensures Active(s.jobs, s.suspended, Some(id)) == Counted(s) - {id}
  {
  }

  lemma BeginRoom(m: Machine, s: State, id: JobId, ask: Ask, g: Grants, cleared: bool, lines: seq<Option<DeviceNumber>>)
    requires m.Valid() && MemorySafe(m, s) && Backed(ask) && (cleared || id !in s.suspended)
    requires Placed(m, s.jobs, BeginActive(s, id, cleared), ask, Some(g))
    ensures RoomFor(m, s.jobs, Counted(s) - {id}, Recorded(m, ask, g, lines))
  {
    var active := BeginActive(s, id, cleared);
    assert Counted(s) - {id} <= active <= Counted(s);
    FewerCharges(m, s, active);
    GrantRoom(m, s.jobs, active, ask, g, lines);
    RoomBeside(m, s, Counted(s) - {id}, active, Recorded(m, ask, g, lines));
  }

  lemma ResizeRoom(m: Machine, s: State, id: JobId, ask: Ask, g: Grants, lines: seq<Option<DeviceNumber>>)
    requires m.Valid() && MemorySafe(m, s) && Backed(ask)
    requires Placed(m, s.jobs, Active(s.jobs, s.suspended, Some(id)), ask, Some(g))
    ensures RoomFor(m, s.jobs, Counted(s) - {id}, Recorded(m, ask, g, lines))
  {
    Excluding(s, id);
    FewerCharges(m, s, Counted(s) - {id});
    GrantRoom(m, s.jobs, Counted(s) - {id}, ask, g, lines);
  }

  /** A plain step keeps memory conservation. */
  lemma {:induction false} PlainStep(m: Machine, s: State, e: Event, t: State)
    requires m.Valid() && MemorySafe(m, s) && Step(m, s, e, t) && Plain(s, e)
    ensures MemorySafe(m, t)
  {
    StepMemory(m, s, e, t);
    match e
    case Begin(id, ask, r, cleared, lines) =>
      if r.Some? {
        BeginRoom(m, s, id, ask, r.value, cleared, lines);
      } else {
        Unchanged(m, s, id, t);
      }
    case Resize(id, ask, r, lines) =>
      if r.Some? {
        ResizeRoom(m, s, id, ask, r.value, lines);
      } else {
        Unchanged(m, s, id, t);
      }
    case Clear(_) =>
    case Rename(from, to) =>
      if from in Counted(s) {
        CountedHadRoom(m, s, from);
      }
    case _ => Unchanged(m, s, Brings(e).value, t);
  }

  /** A job that is no longer counted, that starts afresh, or that was counted with the same limit has room. */
  lemma Unchanged(m: Machine, s: State, id: JobId, t: State)
    requires MemorySafe(m, s)
    requires id in Counted(t) ==> t.jobs[id] == FRESH || (id in Counted(s) && t.jobs[id] == s.jobs[id])
    ensures id in Counted(t) ==> RoomFor(m, s.jobs, Counted(s) - {id}, t.jobs[id])
  {
    if id in Counted(s) {
      CountedHadRoom(m, s, id);
    }
  }

  /** The NUMA nodes on which a job placed on vnodes is recorded. */
  function VnodeNodes(m: Machine, vs: seq<VnodeRequest>): set<int> {
    if m.cfg.memFences then SocketsOf(vs) + MemoryOnly(m.node) else m.node.numa.Keys
  }

  /** Before its placement: the limit of a job on vnodes fits where it will be charged. */
  ghost predicate VnodeRoom(m: Machine, jobs: JobTable, others: set<JobId>, ask: Ask)
    requires others <= jobs.Keys && ask.ByVnode?
  {
    forall n :: n in m.node.numa && VnodeNodes(m, ask.vs) == {n} && m.cfg.memoryEnabled ==>
      ask.total.mem.GetOr(0) <= NodeMemory(m.node.numa[n]) - ChargeSum(jobs, others, n)
  }

  /**
   * Granting a job on vnodes its begin or resize keeps memory conservation exactly when its whole limit, not
   * just its vnodes', fits; a suspended job is not counted when it is resized.
   */
  lemma VnodeMemoryIff(m: Machine, s: State, e: Event, t: State)
    requires m.Valid() && MemorySafe(m, s) && Step(m, s, e, t)
    requires (e.Begin? || e.Resize?) && e.ask.ByVnode? && e.result.Some?
    ensures MemorySafe(m, t) <==>
      (e.Resize? && e.id in s.suspended) || VnodeRoom(m, s.jobs, Counted(s) - {e.id}, e.ask)
  {
    var active := if e.Begin? then BeginActive(s, e.id, e.cleared) else Active(s.jobs, s.suspended, Some(e.id));
    StepMemory(m, s, e, t);
    VnodeRecord(m, s.jobs, active, e.ask, e.result.value);
    FewerCharges(m, s, Counted(s) - {e.id});
    RoomOnVnodes(m, s.jobs, Counted(s) - {e.id}, e.ask, e.result.value, e.lines);
  }

  lemma RoomOnVnodes(m: Machine, jobs: JobTable, others: set<JobId>, ask: Ask, g: Grants, lines: seq<Option<DeviceNumber>>)
    requires others <= jobs.Keys && ask.ByVnode?
    requires (if m.cfg.memFences then g.mems else m.node.numa.Keys) == VnodeNodes(m, ask.vs)
    requires forall n :: n in m.node.numa ==> ChargeSum(jobs, others, n) <= NodeMemory(m.node.numa[n])
    ensures RoomFor(m, jobs, others, Recorded(m, ask, g, lines)) <==> VnodeRoom(m, jobs, others, ask)
  {
    forall n | n in m.node.numa
      ensures Recorded(m, ask, g, lines).mems == [n] <==> VnodeNodes(m, ask.vs) == {n}
    {
      OneSorted(VnodeNodes(m, ask.vs), n);
    }
  }

  lemma VnodeRecord(m: Machine, jobs: JobTable, active: set<JobId>, ask: Ask, g: Grants)
    requires active <= jobs.Keys && ask.ByVnode? && Admissible(m, ask) && Placed(m, jobs, active, ask, Some(g))
    ensures (if m.cfg.memFences then g.mems else m.node.numa.Keys) == VnodeNodes(m, ask.vs)
  {
    var v: View :| Explains(m, jobs, active, ask, v, Some(g));
    FoldMems(m, ask.vs, v.avail);
  }

  lemma OneSorted(mems: set<int>, n: int)
    ensures Sorted(mems) == [n] <==> mems == {n}
  {
    assert Elements([n]) == {n};
    if mems == {n} {
      IncreasingUnique([n], Sorted(mems));
    }
  }

  lemma {:induction false} FitArrivals(m: Machine, states: seq<State>, events: seq<Event>, n: nat)
    requires m.Valid() && Run(m, states, events) && n < |states| && MemorySafe(m, states[0])
    requires forall i :: 0 <= i < n ==> MemoryFits(m, states[i], events[i])
    ensures MemorySafe(m, states[n])
  {
    if n > 0 {
      FitArrivals(m, states, events, n - 1);
      StepMemory(m, states[n - 1], events[n - 1], states[n]);
    }
  }

  lemma {:induction false} PlainForever(m: Machine, states: seq<State>, events: seq<Event>, n: nat)
    requires m.Valid() && Run(m, states, events) && n < |states| && MemorySafe(m, states[0])
    requires forall i :: 0 <= i < n ==> Plain(states[i], events[i])
    ensures MemorySafe(m, states[n])
  {
    if n > 0 {
      PlainForever(m, states, events, n - 1);
      PlainStep(m, states[n - 1], events[n - 1], states[n]);
    }
  }

  /**
   * In every run the limits charged to a NUMA node stay within its memory exactly as long as each arriving
   * charge has room; plain steps always have it. The guarded subtraction of any later view is then exact,
   * whatever order the jobs are visited in.
   */
  lemma MemorySafeForever(m: Machine, states: seq<State>, events: seq<Event>, n: nat)
    requires m.Valid() && Run(m, states, events) && n < |states| && MemorySafe(m, states[0])
    ensures (forall k :: 0 <= k <= n ==> MemorySafe(m, states[k])) <==>
      forall i :: 0 <= i < n ==> MemoryFits(m, states[i], events[i])
    ensures (forall i :: 0 <= i < n ==> Plain(states[i], events[i])) ==> MemorySafe(m, states[n])
    ensures MemorySafe(m, states[n]) ==>
      forall avail: map<int, Avail>, s :: IsAvailable(m.node, states[n].jobs, Counted(states[n]), avail) && s in m.node.numa ==>
        avail[s].memory == NodeMemory(m.node.numa[s]) - ChargeSum(states[n].jobs, Counted(states[n]), s)
  {
    if forall i :: 0 <= i < n ==> MemoryFits(m, states[i], events[i]) {
      forall k | 0 <= k <= n ensures MemorySafe(m, states[k]) {
        FitArrivals(m, states, events, k);
      }
    }
    if forall k :: 0 <= k <= n ==> MemorySafe(m, states[k]) {
      forall i | 0 <= i < n ensures MemoryFits(m, states[i], events[i]) {
        StepMemory(m, states[i], events[i], states[i + 1]);
      }
    }
    if forall i :: 0 <= i < n ==> Plain(states[i], events[i]) {
      PlainForever(m, states, events, n);
    }
    if MemorySafe(m, states[n]) {
      ExactSubtraction(m, states[n]);
    }
  }

  lemma ExactSubtraction(m: Machine, s: State)
    requires MemorySafe(m, s)
    ensures forall avail: map<int, Avail>, n :: IsAvailable(m.node, s.jobs, Counted(s), avail) && n in m.node.numa ==>
      avail[n].memory == NodeMemory(m.node.numa[n]) - ChargeSum(s.jobs, Counted(s), n)
  {
    forall avail: map<int, Avail>, n | IsAvailable(m.node, s.jobs, Counted(s), avail) && n in m.node.numa
      ensures avail[n].memory == NodeMemory(m.node.numa[n]) - ChargeSum(s.jobs, Counted(s), n)
    {
      assert IsFree(m.node, s.jobs, Counted(s), n, avail[n]);
    }
  }

  // ---------- devices ----------

  /** The whitelist read back later contains what was written to it. */
  ghost predicate Covers(lines: seq<Option<DeviceNumber>>, entries: set<Entry>) {
    forall e :: e in entries ==> Some(DeviceNumber(e.major, e.minor)) in lines
  }

  ghost predicate EventCovers(e: Event) {
    match e
    case Begin(_, _, r, _, lines) => r.Some? ==> Covers(lines, r.value.entries)
    case Resize(_, _, r, lines) => r.Some? ==> Covers(lines, r.value.entries)
    case _ => true
  }

  /** Every device named to a live job is on that job's whitelist, and no two holding jobs share one. */
  ghost predicate DevicesExclusive(m: Machine, s: State) {
    && s.live <= s.jobs.Keys && s.live <= s.given.Keys
    && (forall j :: j in s.live ==> Elements(s.given[j]) <= Named(m.node, s.jobs[j].devices))
    && forall i, j :: i in Holding(s) && j in Holding(s) && i != j ==> Elements(s.given[i]) !! Elements(s.given[j])
  }

  lemma OutcomeDevices(m: Machine, ask: Ask, v: View)
    requires AllUsable(m, v.avail) && Outcome(m, ask, v).Some?
    ensures var g := Outcome(m, ask, v).value;
      DevicesFree(v.avail, g.names) && Elements(g.names) <= m.node.devices.Keys && g.entries == Granted(m.node.devices, g.names)
  {
    match ask
    case Whole(req) => PlaceDevices(m, req, v.avail, SocketOrder(m.cfg, v.keys, v.placed));
    case ByVnode(_, vs) => FoldDevices(m, vs, v.avail);
  }

  lemma OwnListed(node: Node, names: seq<DeviceName>, lines: seq<Option<DeviceNumber>>)
    requires Elements(names) <= node.devices.Keys && Covers(lines, Granted(node.devices, names))
    ensures Elements(names) <= Named(node, lines)
  {
    forall d | d in Elements(names) ensures d in Named(node, lines) {
      assert Own(node.devices, d) in Grant(node.devices, d);
      assert Own(node.devices, d) in Granted(node.devices, names);
    }
  }

  lemma FreeNotListed(m: Machine, jobs: JobTable, active: set<JobId>, avail: map<int, Avail>, d: DeviceName, j: JobId)
    requires active <= jobs.Keys && IsAvailable(m.node, jobs, active, avail) && FreeSomewhere(avail, d) && j in active
    ensures d !in Named(m.node, jobs[j].devices)
  {
    var s :| s in avail && d in Elements(avail[s].devices);
    assert IsFree(m.node, jobs, active, s, avail[s]);
    WithoutElements(DevicesOn(m.node, s), TakenDevices(m.node, jobs, active));
  }

  /** A granted device is on no whitelist of the jobs that were subtracted, and on the job's own. */
  lemma GrantDevices(m: Machine, jobs: JobTable, active: set<JobId>, ask: Ask, g: Grants, lines: seq<Option<DeviceNumber>>)
    requires active <= jobs.Keys && Placed(m, jobs, active, ask, Some(g)) && Covers(lines, g.entries)
    ensures Elements(g.names) <= Named(m.node, lines)
    ensures forall j :: j in active ==> Elements(g.names) !! Named(m.node, jobs[j].devices)
  {
    var v: View :| Explains(m, jobs, active, ask, v, Some(g));
    OutcomeDevices(m, ask, v);
    OwnListed(m.node, g.names, lines);
    forall j, d | j in active && d in Elements(g.names) ensures d !in Named(m.node, jobs[j].devices) {
      FreeNotListed(m, jobs, active, v.avail, d, j);
    }
  }

  lemma ReplacedDevices(m: Machine, s: State, id: JobId, use: JobUse, names: seq<DeviceName>, t: State)
    requires DevicesExclusive(m, s) && t.jobs == s.jobs[id := use] && t.live <= s.live + {id}
    requires t.given == s.given[id := names] && t.suspended >= s.suspended - {id}
    requires Elements(names) <= Named(m.node, use.devices)
    requires forall j :: j in Holding(s) - {id} ==> Elements(names) !! Named(m.node, s.jobs[j].devices)
    ensures DevicesExclusive(m, t)
  {
    assert forall j :: j in Holding(t) ==> j == id || j in Holding(s) - {id};
  }

  /** Fewer live or holding jobs, with what they hold unchanged. */
  lemma FewerHolding(m: Machine, s: State, t: State)
    requires DevicesExclusive(m, s) && t.given == s.given && Holding(t) <= Holding(s) && t.live <= s.live
    requires forall j :: j in t.live ==> j in t.jobs && t.jobs[j] == s.jobs[j]
    ensures DevicesExclusive(m, t)
  {
  }

  /** A job resumed may hold again what it was named if no job has been named any of it meanwhile. */
  ghost predicate DevicesKept(s: State, id: JobId) {
    id in s.live && id in s.given ==>
      forall j :: j in Holding(s) && j in s.given && j != id ==> Elements(s.given[id]) !! Elements(s.given[j])
  }

  ghost predicate MayName(s: State, e: Event) {
    SparesLive(s, e) && (e.Resume? ==> DevicesKept(s, e.id))
  }

  lemma ResumeDevices(m: Machine, s: State, id: JobId)
    requires DevicesExclusive(m, s)
    ensures DevicesExclusive(m, s.(suspended := s.suspended - {id})) <==> DevicesKept(s, id)
  {
    var t := s.(suspended := s.suspended - {id});
    assert forall j :: j in Holding(t) <==> j in Holding(s) || (j == id && j in s.live);
    if id in s.live && DevicesExclusive(m, t) {
      assert id in Holding(t);
    }
  }

  lemma GrantedDevices(m: Machine, s: State, id: JobId, active: set<JobId>, ask: Ask, g: Grants,
                       lines: seq<Option<DeviceNumber>>, t: State)
    requires DevicesExclusive(m, s) && Holding(s) - {id} <= active <= s.jobs.Keys
    requires Placed(m, s.jobs, active, ask, Some(g)) && Covers(lines, g.entries)
    requires t.jobs == s.jobs[id := Recorded(m, ask, g, lines)] && t.given == s.given[id := g.names]
    requires t.live <= s.live + {id} && t.suspended >= s.suspended - {id}
    ensures DevicesExclusive(m, t)
  {
    GrantDevices(m, s.jobs, active, ask, g, lines);
    ReplacedDevices(m, s, id, Recorded(m, ask, g, lines), g.names, t);
  }

  lemma BeginDevices(m: Machine, s: State, id: JobId, ask: Ask, r: Option<Grants>, cleared: bool,
                     lines: seq<Option<DeviceNumber>>, t: State)
    requires m.Valid() && DevicesExclusive(m, s) && BeginStep(m, s, id, ask, r, cleared, lines, t)
    requires r.Some? ==> Covers(lines, r.value.entries)
    ensures DevicesExclusive(m, t)
  {
    if r.Some? {
      GrantedDevices(m, s, id, BeginActive(s, id, cleared), ask, r.value, lines, t);
    } else {
      FewerHolding(m, s, t);
    }
  }

  lemma MoveDevices(m: Machine, s: State, id: JobId, ask: Ask, r: Option<Grants>, lines: seq<Option<DeviceNumber>>, t: State)
    requires m.Valid() && DevicesExclusive(m, s) && ResizeStep(m, s, id, ask, r, lines, t)
    requires r.Some? ==> Covers(lines, r.value.entries)
    ensures DevicesExclusive(m, t)
  {
    if r.Some? {
      GrantedDevices(m, s, id, Active(s.jobs, s.suspended, Some(id)), ask, r.value, lines, t);
    }
  }

  lemma {:induction false} StepDevices(m: Machine, s: State, e: Event, t: State)
    requires m.Valid() && DevicesExclusive(m, s) && Step(m, s, e, t) && EventCovers(e)
    ensures DevicesExclusive(m, t) <==> MayName(s, e)
  {
    match e
    case Begin(id, ask, r, cleared, lines) => BeginDevices(m, s, id, ask, r, cleared, lines, t);
    case Resize(id, ask, r, lines) => MoveDevices(m, s, id, ask, r, lines, t);
    case Resume(id) => ResumeDevices(m, s, id);
    case Clear(ids) => CleanupDevices(m, s, t, ids);
    case Rename(from, to) => CleanupDevices(m, s, t, {from});
    case _ => FewerHolding(m, s, t);
  }

  lemma CleanupDevices(m: Machine, s: State, t: State, ids: set<JobId>)
    requires DevicesExclusive(m, s) && t == s.(jobs := t.jobs)
    requires forall j :: j in s.jobs - ids ==> j in t.jobs && t.jobs[j] == s.jobs[j]
    requires t.jobs.Keys !! ids
    ensures DevicesExclusive(m, t) <==> ids !! s.live
  {
    assert Holding(t) == Holding(s);
    if ids !! s.live {
      FewerHolding(m, s, t);
    }
  }

  lemma {:induction false} FitDevices(m: Machine, states: seq<State>, events: seq<Event>, n: nat)
    requires m.Valid() && Run(m, states, events) && n < |states| && DevicesExclusive(m, states[0])
    requires forall i :: 0 <= i < n ==> EventCovers(events[i]) && MayName(states[i], events[i])
    ensures DevicesExclusive(m, states[n])
  {
    if n > 0 {
      FitDevices(m, states, events, n - 1);
      StepDevices(m, states[n - 1], events[n - 1], states[n]);
    }
  }

  /**
   * In every run in which whitelists read back what was written, no two holding jobs are named the same
   * device, exactly as long as no job is resumed whose devices were given away and no cleanup takes a live
   * job's cgroup.
   */
  lemma DevicesExclusiveForever(m: Machine, states: seq<State>, events: seq<Event>, n: nat)
    requires m.Valid() && Run(m, states, events) && n < |states|
    requires DevicesExclusive(m, states[0]) && forall i :: 0 <= i < n ==> EventCovers(events[i])
    ensures (forall k :: 0 <= k <= n ==> DevicesExclusive(m, states[k])) <==>
      forall i :: 0 <= i < n ==> MayName(states[i], events[i])
  {
    if forall i :: 0 <= i < n ==> MayName(states[i], events[i]) {
      forall k | 0 <= k <= n ensures DevicesExclusive(m, states[k]) {
        FitDevices(m, states, events, k);
      }
    }
    if forall k :: 0 <= k <= n ==> DevicesExclusive(m, states[k]) {
      forall i | 0 <= i < n ensures MayName(states[i], events[i]) {
        StepDevices(m, states[i], events[i], states[i + 1]);
      }
    }
  }
}
