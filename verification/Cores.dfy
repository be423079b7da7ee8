/** With hyperthreads off, over whole runs: no two CPUs that are held share a physical core. */
module Cores {
  import opened Collections
  import opened CpuSelection
  import opened Topology
  import opened Availability
  import opened Placement
  import opened Allocator

  /** None of the CPUs is a hyperthread. */
  ghost predicate FirstThreadsOnly(info: CpuInfo, cpus: seq<int>) {
    Elements(cpus) !! Elements(info.hyperthreads)
  }

  lemma AssignmentAvoids(m: Machine, req: Request, a: Avail, sockets: set<int>)
    requires !m.cfg.useHyperthreads && Usable(m, a) && Fits(m, req, a)
    ensures FirstThreadsOnly(m.info, Assignment(m, req, a, sockets).cpus)
  {
    if Wanted(req.ncpus) > 0 {
      ChoiceIsExact(m.cfg, m.info, NeededNat(m, Wanted(req.ncpus)), a.cpus);
    }
  }

  lemma PlaceAvoids(m: Machine, req: Request, avail: map<int, Avail>, sockets: seq<int>)
    requires !m.cfg.useHyperthreads && AllUsable(m, avail) && Place(m, req, avail, sockets).Some?
    ensures FirstThreadsOnly(m.info, Place(m, req, avail, sockets).value.cpus)
  {
    var i := FirstFit(m, req, avail, sockets);
    if i < |sockets| {
      AssignmentAvoids(m, req, avail[sockets[i]], {sockets[i]});
    } else {
      PooledUsable(m, avail, sockets);
      AssignmentAvoids(m, req, Pooled(avail, sockets), Elements(sockets));
    }
  }

  lemma {:induction false} FoldAvoids(m: Machine, vs: seq<VnodeRequest>, avail: map<int, Avail>)
    requires !m.cfg.useHyperthreads && AllUsable(m, avail) && VnodesFit(m, vs, avail)
    ensures FirstThreadsOnly(m.info, Fold(m, vs, avail).cpus)
  {
    if vs != [] {
      var n := |vs| - 1;
      var s := vs[n].socket;
      assert FitsOn(m, vs[n].req, avail, s);
      FoldAvoids(m, vs[..n], avail);
      AssignmentAvoids(m, vs[n].req, avail[s], {s});
      ElementsAppend(Fold(m, vs[..n], avail).cpus, OnSocket(m, vs[n].req, avail, s).cpus);
    }
  }

  lemma GrantAvoids(m: Machine, jobs: JobTable, active: set<JobId>, ask: Ask, g: Grants)
    requires !m.cfg.useHyperthreads && active <= jobs.Keys && Placed(m, jobs, active, ask, Some(g))
    ensures FirstThreadsOnly(m.info, g.cpus)
  {
    var v: View :| Explains(m, jobs, active, ask, v, Some(g));
    match ask
    case Whole(req) => PlaceAvoids(m, req, v.avail, SocketOrder(m.cfg, v.keys, v.placed));
    case ByVnode(_, vs) =>
      FoldAvoids(m, vs, v.avail);
      SameElements(g.cpus, Fold(m, vs, v.avail).cpus);
  }

  /** No job on record holds a hyperthread. */
  ghost predicate AllAvoid(m: Machine, s: State) {
    forall j :: j in s.jobs ==> FirstThreadsOnly(m.info, s.jobs[j].cpus)
  }

  lemma RecordAvoids(m: Machine, jobs: JobTable, active: set<JobId>, ask: Ask, g: Grants, lines: seq<Option<DeviceNumber>>)
    requires !m.cfg.useHyperthreads && active <= jobs.Keys && Placed(m, jobs, active, ask, Some(g))
    ensures FirstThreadsOnly(m.info, Recorded(m, ask, g, lines).cpus)
  {
    GrantAvoids(m, jobs, active, ask, g);
  }

  lemma BeginAvoids(m: Machine, s: State, id: JobId, ask: Ask, r: Option<Grants>, cleared: bool,
                    lines: seq<Option<DeviceNumber>>, t: State)
    requires m.Valid() && !m.cfg.useHyperthreads && AllAvoid(m, s) && BeginStep(m, s, id, ask, r, cleared, lines, t)
    ensures AllAvoid(m, t)
  {
    if r.Some? {
      RecordAvoids(m, s.jobs, BeginActive(s, id, cleared), ask, r.value, lines);
    }
  }

  lemma ResizeAvoids(m: Machine, s: State, id: JobId, ask: Ask, r: Option<Grants>, lines: seq<Option<DeviceNumber>>, t: State)
    requires m.Valid() && !m.cfg.useHyperthreads && AllAvoid(m, s) && ResizeStep(m, s, id, ask, r, lines, t)
    ensures AllAvoid(m, t)
  {
    if r.Some? {
      RecordAvoids(m, s.jobs, Active(s.jobs, s.suspended, Some(id)), ask, r.value, lines);
    }
  }

  lemma {:induction false} StepAvoids(m: Machine, s: State, e: Event, t: State)
    requires m.Valid() && !m.cfg.useHyperthreads && AllAvoid(m, s) && Step(m, s, e, t)
    ensures AllAvoid(m, t)
  {
    match e
    case Begin(id, ask, r, cleared, lines) => BeginAvoids(m, s, id, ask, r, cleared, lines, t);
    case Resize(id, ask, r, lines) => ResizeAvoids(m, s, id, ask, r, lines, t);
    case _ =>
  }

  lemma {:induction false} AvoidForever(m: Machine, states: seq<State>, events: seq<Event>, n: nat)
    requires m.Valid() && !m.cfg.useHyperthreads && Run(m, states, events) && n < |states| && AllAvoid(m, states[0])
    ensures AllAvoid(m, states[n])
  {
    if n > 0 {
      AvoidForever(m, states, events, n - 1);
      StepAvoids(m, states[n - 1], events[n - 1], states[n]);
    }
  }

  /** Two jobs that hold their CPUs share no physical core, and no two CPUs of one job do. */
  ghost predicate CoresApart(cpus: CpuTable, s: State) {
    forall i, j, c, d :: Holds(s, i, c) && Holds(s, j, d) && c in cpus && d in cpus && (i != j || c != d) ==>
      !Same(cpus, c, d)
  }

  ghost predicate Holds(s: State, j: JobId, c: int) {
    j in Holding(s) && j in s.jobs && c in s.jobs[j].cpus
  }

  lemma FirstsApart(m: Machine, cpus: CpuTable, s: State)
    requires Mapped(cpus, m.info) && AllAvoid(m, s) && Exclusive(m, s)
    ensures CoresApart(cpus, s)
  {
    forall i, j, c, d | Holds(s, i, c) && Holds(s, j, d) && c in cpus && d in cpus && (i != j || c != d)
      ensures !Same(cpus, c, d)
    {
      assert c in Elements(s.jobs[i].cpus) && d in Elements(s.jobs[j].cpus);
      FirstThreads(cpus, m.info, c);
      FirstThreads(cpus, m.info, d);
    }
  }

  /**
   * In every run with hyperthreads off, physical cores are shared neither between jobs that hold their CPUs
   * nor within one, exactly as long as no job is resumed whose CPUs were given away and no cleanup takes a
   * live job's cgroup.
   */
  lemma OwnCoresForever(m: Machine, cpus: CpuTable, states: seq<State>, events: seq<Event>, n: nat)
    requires m.Valid() && DisjointNuma(m.node) && !m.cfg.useHyperthreads && Mapped(cpus, m.info)
    requires Run(m, states, events) && n < |states| && Exclusive(m, states[0]) && AllAvoid(m, states[0])
    ensures (forall k :: 0 <= k <= n ==> Exclusive(m, states[k]) && CoresApart(cpus, states[k])) <==>
      forall i :: 0 <= i < n ==> MayHold(states[i], events[i])
  {
    ExclusiveForever(m, states, events, n);
    forall k | 0 <= k <= n && Exclusive(m, states[k]) ensures CoresApart(cpus, states[k]) {
      AvoidForever(m, states, events, k);
      FirstsApart(m, cpus, states[k]);
    }
  }
}
