/**
 * A node with one CPU on which holdings are handed out twice: after a resumption, after a cleanup that takes a
 * live job's cgroup, and to a vnode without memory.
 */
module Overcommit {
  import opened Collections
  import opened CpuSelection
  import opened Devices
  import opened Availability
  import opened Placement
  import opened Allocator

  /** One NUMA node with one CPU and 4096 bytes. */
  function OneCpu(): Machine {
    Machine(
      Config(false, false, false, true, true),
      CpuInfo([], 1, map[0 := []]),
      Node(map[0 := NumaNode([0], None, 4096, [])], map[], []))
  }

  /** A request for the CPU and possibly some memory, and what it is given. */
  function Ask(mem: Option<nat>): Request {
    Request(Some(1), mem, None, None)
  }

  function Grant(mem: Option<nat>): Grants {
    Grants([0], {0}, mem, [], {})
  }

  function Use(limit: nat): JobUse {
    JobUse([0], [0], limit, [])
  }

  lemma OneCpuValid()
    ensures OneCpu().Valid() && DisjointNuma(OneCpu().node)
  {
    assert Elements([0]) == {0};
  }

  lemma ZeroSorted()
    ensures Sorted({0}) == [0] && Elements([0]) == {0}
  {
    assert Elements([0]) == {0};
    IncreasingUnique([0], Sorted({0}));
  }

  const VIEW := View(map[0 := Avail([0], 4096, [])], [0], [])

  lemma ViewIsGood(jobs: JobTable)
    ensures GoodView(OneCpu(), jobs, {}, VIEW) && AllUsable(OneCpu(), VIEW.avail)
  {
    OneCpuValid();
    ZeroSorted();
    WithoutNone([0]);
    assert TakenCpus(jobs, {}, 0) == {} && DevicesOn(OneCpu().node, 0) == [];
    assert Charged(jobs, {}, 0) == {};
    assert IsFree(OneCpu().node, jobs, {}, 0, VIEW.avail[0]);
    ViewUsable(OneCpu(), jobs, {}, VIEW);
  }

  lemma GrantIsOnSocket(mem: Option<nat>)
    requires AllUsable(OneCpu(), VIEW.avail) && mem.GetOr(0) <= 4096
    ensures FitsOn(OneCpu(), Ask(mem), VIEW.avail, 0) && OnSocket(OneCpu(), Ask(mem), VIEW.avail, 0) == Grant(mem)
  {
    ZeroSorted();
    assert Pool(OneCpu().cfg, OneCpu().info, [0]) == {0};
    assert MemoryOnly(OneCpu().node) == {};
    GrantOfOne(OneCpu(), mem, VIEW.avail);
  }

  lemma GrantOfOne(m: Machine, mem: Option<nat>, avail: map<int, Avail>)
    requires AllUsable(m, avail) && FitsOn(m, Ask(mem), avail, 0) && MemoryOnly(m.node) == {}
    requires avail[0].devices == [] && Elements(avail[0].cpus) == {0} && Needed(m.cfg, m.info, 1) == 1
    ensures OnSocket(m, Ask(mem), avail, 0) == Grant(mem)
  {
    OnSocketSound(m, Ask(mem), avail, 0);
    AssignmentCpus(m, Ask(mem), avail[0], {0});
    AssignmentDevices(m, Ask(mem), avail[0], {0});
    OnlyZero(OnSocket(m, Ask(mem), avail, 0).cpus);
    NoNames(OnSocket(m, Ask(mem), avail, 0).names);
  }

  lemma NoNames(names: seq<DeviceName>)
    ensures Elements(names) == {} <==> names == []
  {
    if names != [] {
      assert names[0] in Elements(names);
    }
  }

  lemma OnlyZero(s: seq<int>)
    requires |s| == 1 && Elements(s) <= {0}
    ensures s == [0]
  {
    assert s[0] in Elements(s);
  }

  // ---------- a resumption ----------

  /** With nothing subtracted, the job gets the CPU and all memory. */
  lemma GetsTheCpu(jobs: JobTable)
    ensures Placed(OneCpu(), jobs, {}, Whole(Ask(Some(4096))), Some(Grant(Some(4096))))
  {
    ViewIsGood(jobs);
    GrantIsOnSocket(Some(4096));
    assert FirstFit(OneCpu(), Ask(Some(4096)), VIEW.avail, [0]) == 0;
    assert Explains(OneCpu(), jobs, {}, Whole(Ask(Some(4096))), VIEW, Some(Grant(Some(4096))));
  }

  /** Some event leads from one state to the other. */
  ghost predicate Follows(m: Machine, s: State, t: State)
    requires m.Valid()
  {
    exists e: Event :: Step(m, s, e, t)
  }

  lemma BeginFollows(m: Machine, s: State, id: JobId, ask: Ask, g: Grants, t: State)
    requires m.Valid() && Admissible(m, ask) && Placed(m, s.jobs, BeginActive(s, id, true), ask, Some(g))
    requires t == State(s.jobs[id := Recorded(m, ask, g, [])], s.suspended - {id}, s.live + {id}, s.given[id := g.names])
    ensures Follows(m, s, t)
  {
    assert Step(m, s, Begin(id, ask, Some(g), true, []), t);
  }

  lemma RecordedUse(ask: Allocator.Ask, mem: Option<nat>)
    ensures Recorded(OneCpu(), ask, Grant(mem), []) == Use(ask.total.mem.GetOr(0))
  {
    ZeroSorted();
  }

  /** The state after job `id` began and was given the CPU. */
  function AfterBegin(s: State, id: JobId, limit: nat): State {
    State(s.jobs[id := Use(limit)], s.suspended - {id}, s.live + {id}, s.given[id := []])
  }

  /** A job that is placed with nothing subtracted is recorded with its limit. */
  lemma BeginOnCpu(m: Machine, s: State, id: JobId, ask: Allocator.Ask, mem: Option<nat>)
    requires m.Valid() && Admissible(m, ask) && s.jobs.Keys - {id} <= s.suspended - {id}
    requires Placed(m, s.jobs, {}, ask, Some(Grant(mem)))
    requires Recorded(m, ask, Grant(mem), []) == Use(ask.total.mem.GetOr(0))
    ensures Follows(m, s, AfterBegin(s, id, ask.total.mem.GetOr(0)))
  {
    assert BeginActive(s, id, true) == {};
    BeginFollows(m, s, id, ask, Grant(mem), AfterBegin(s, id, ask.total.mem.GetOr(0)));
  }

  /** A job begins while every other job on record is suspended. */
  lemma BeginAlone(s: State, id: JobId)
    requires s.jobs.Keys - {id} <= s.suspended - {id}
    ensures OneCpu().Valid() && Follows(OneCpu(), s, AfterBegin(s, id, 4096))
  {
    OneCpuValid();
    GetsTheCpu(s.jobs);
    RecordedUse(Whole(Ask(Some(4096))), Some(4096));
    BeginOnCpu(OneCpu(), s, id, Whole(Ask(Some(4096))), Some(4096));
  }

  lemma SuspendFollows(m: Machine, s: State, id: JobId)
    requires m.Valid()
    ensures Follows(m, s, s.(suspended := s.suspended + {id}))
    ensures Follows(m, s, s.(suspended := s.suspended - {id}))
  {
    assert Step(m, s, Suspend(id), s.(suspended := s.suspended + {id}));
    assert Step(m, s, Resume(id), s.(suspended := s.suspended - {id}));
  }

  /**
   * A first job begins, is suspended, a second one begins, and the first one is resumed: four steps from
   * the empty state after which both hold the same CPU and twice the memory there is.
   */
  lemma ResumeCollides(a: JobId, b: JobId)
    requires a != b
    ensures OneCpu().Valid()
    ensures var s0 := State(map[], {}, {}, map[]);
      var s1 := AfterBegin(s0, a, 4096);
      var s2 := s1.(suspended := {a});
      var s3 := AfterBegin(s2, b, 4096);
      var s4 := s3.(suspended := {});
      && Follows(OneCpu(), s0, s1) && Follows(OneCpu(), s1, s2) && Follows(OneCpu(), s2, s3) && Follows(OneCpu(), s3, s4)
      && !CpusKept(s3, a) && !Exclusive(OneCpu(), s4) && !MemorySafe(OneCpu(), s4)
  {
    var s0 := State(map[], {}, {}, map[]);
    var s1 := AfterBegin(s0, a, 4096);
    var s2 := s1.(suspended := {a});
    var s3 := AfterBegin(s2, b, 4096);
    var s4 := s3.(suspended := {});
    OneCpuValid();
    BeginAlone(s0, a);
    assert s1.suspended + {a} == {a} && s3.suspended - {a} == {};
    SuspendFollows(OneCpu(), s1, a);
    BeginAlone(s2, b);
    SuspendFollows(OneCpu(), s3, a);
    Collided(s3, a, b);
  }

  lemma Collided(s: State, a: JobId, b: JobId)
    requires a != b && s.jobs == map[a := Use(4096), b := Use(4096)] && s.live == {a, b} && s.suspended == {a}
    ensures !CpusKept(s, a)
    ensures !Exclusive(OneCpu(), s.(suspended := {})) && !MemorySafe(OneCpu(), s.(suspended := {}))
  {
    var t := s.(suspended := {});
    SameCpu(s.jobs, a, b);
    assert Holding(s) == {b} && Holding(t) == {a, b};
    NotExclusive(OneCpu(), t, a, b);
    assert Counted(t) == {a, b};
    TwiceTheMemory(t, a, b);
  }

  lemma NotExclusive(m: Machine, s: State, a: JobId, b: JobId)
    requires a != b && a in Holding(s) && b in Holding(s) && a in s.jobs && b in s.jobs
    requires !(Elements(s.jobs[a].cpus) !! Elements(s.jobs[b].cpus))
    ensures !Exclusive(m, s)
  {
  }

  lemma SameCpu(jobs: JobTable, a: JobId, b: JobId)
    requires a in jobs && b in jobs && jobs[a] == jobs[b] == Use(4096)
    ensures !(Elements(jobs[a].cpus) !! Elements(jobs[b].cpus))
  {
    assert 0 in Elements(jobs[a].cpus) && 0 in Elements(jobs[b].cpus);
  }

  lemma TwiceTheMemory(s: State, a: JobId, b: JobId)
    requires a != b && Counted(s) == {a, b} && s.jobs[a] == s.jobs[b] == Use(4096)
    ensures !MemorySafe(OneCpu(), s)
  {
    assert Charged(s.jobs, {}, 0) == {};
    ChargeOne(s.jobs, {a, b}, {}, a, 0);
    ChargeOne(s.jobs, {a, b}, {a}, b, 0);
    assert {} + {a} == {a} && {a} + {b} == {a, b};
    assert 0 in OneCpu().node.numa;
  }

  // ---------- a cleanup that takes a live job's cgroup ----------

  /**
   * A first job begins, a cleanup takes its cgroup although it lives on, and a second one begins: three steps
   * without any suspension after which both have been given the only CPU and all memory.
   */
  lemma ClearCollides(a: JobId, b: JobId)
    requires a != b
    ensures OneCpu().Valid()
    ensures var s0 := State(map[], {}, {}, map[]);
      var s1 := AfterBegin(s0, a, 4096);
      var s2 := s1.(jobs := map[]);
      var s3 := AfterBegin(s2, b, 4096);
      && Follows(OneCpu(), s0, s1) && Follows(OneCpu(), s1, s2) && Follows(OneCpu(), s2, s3)
      && !SparesLive(s1, Clear({a})) && !Exclusive(OneCpu(), s2)
      && s3.live == {a, b} && s3.suspended == {} && s3.jobs[b] == s1.jobs[a] == Use(4096)
  {
    var s0 := State(map[], {}, {}, map[]);
    var s1 := AfterBegin(s0, a, 4096);
    var s2 := s1.(jobs := map[]);
    OneCpuValid();
    BeginAlone(s0, a);
    ClearFollows(OneCpu(), s1, {a});
    assert s1.jobs - {a} == map[];
    BeginAlone(s2, b);
    assert a in s1.live;
  }

  lemma ClearFollows(m: Machine, s: State, ids: set<JobId>)
    requires m.Valid()
    ensures Follows(m, s, s.(jobs := s.jobs - ids))
  {
    assert Step(m, s, Clear(ids), s.(jobs := s.jobs - ids));
  }

  // ---------- a vnode without memory ----------

  /** One vnode that asks for a CPU; the job is charged the configured default of 8192 bytes. */
  const ON_VNODE := ByVnode(Ask(Some(8192)), [VnodeRequest(0, Ask(None))])

  /** The vnode's own request mentions no memory, so none is checked against what is free. */
  lemma VnodeGetsTheCpu(jobs: JobTable)
    ensures Placed(OneCpu(), jobs, {}, ON_VNODE, Some(Grant(None)))
  {
    ViewIsGood(jobs);
    GrantIsOnSocket(None);
    FoldOne(OneCpu(), VnodeRequest(0, Ask(None)), VIEW.avail);
    ExplainsOne(OneCpu(), jobs, ON_VNODE, VnodeRequest(0, Ask(None)), VIEW);
  }

  lemma ExplainsOne(m: Machine, jobs: JobTable, ask: Allocator.Ask, v: VnodeRequest, view: View)
    requires ask.ByVnode? && ask.vs == [v] && GoodView(m, jobs, {}, view) && AllUsable(m, view.avail)
    requires VnodesFit(m, [v], view.avail) && Fold(m, [v], view.avail) == Grant(None)
    ensures Placed(m, jobs, {}, ask, Some(Grant(None)))
  {
    SortOne(0);
    assert Explains(m, jobs, {}, ask, view, Some(Grant(None)));
  }

  lemma FoldOne(m: Machine, v: VnodeRequest, avail: map<int, Avail>)
    requires AllUsable(m, avail) && FitsOn(m, v.req, avail, v.socket)
    requires OnSocket(m, v.req, avail, v.socket) == Grant(None)
    ensures VnodesFit(m, [v], avail) && Fold(m, [v], avail) == Grant(None)
  {
    assert [v][..0] == [];
    assert Fold(m, [], avail) == Grants([], {}, None, [], {});
    assert Merge(Grants([], {}, None, [], {}), Grant(None)) == Grant(None);
  }

  lemma SortOne(c: int)
    ensures SortBy([c], x => x) == [c]
  {
    assert multiset(SortBy([c], x => x)) == multiset{c};
  }

  /** On an empty node, a charge beyond a NUMA node's memory breaks conservation at once. */
  lemma ChargedAlone(m: Machine, s: State, id: JobId, limit: nat)
    requires s.jobs == map[] && s.suspended == {}
    requires 0 in m.node.numa && limit > NodeMemory(m.node.numa[0])
    ensures MemorySafe(m, s) && !MemorySafe(m, AfterBegin(s, id, limit))
  {
    var t := AfterBegin(s, id, limit);
    forall n | n in m.node.numa ensures ChargeSum(s.jobs, Counted(s), n) == 0 {
      assert Charged(s.jobs, Counted(s), n) == {};
    }
    assert Counted(s) == {} && Counted(t) == {id};
    Arrival(s.jobs, t.jobs, {}, Counted(t), id, 0);
  }

  /** So the default is charged to a NUMA node that has less. */
  lemma VnodeOvercharges(id: JobId)
    ensures OneCpu().Valid()
    ensures var s := State(map[], {}, {}, map[]);
      var t := AfterBegin(s, id, 8192);
      Follows(OneCpu(), s, t) && MemorySafe(OneCpu(), s) && !MemorySafe(OneCpu(), t)
  {
    var s := State(map[], {}, {}, map[]);
    OneCpuValid();
    VnodeGetsTheCpu(s.jobs);
    RecordedUse(ON_VNODE, None);
    VnodeAdmissible();
    BeginOnCpu(OneCpu(), s, id, ON_VNODE, None);
    ChargedAlone(OneCpu(), s, id, 8192);
  }

  lemma VnodeAdmissible()
    ensures Admissible(OneCpu(), ON_VNODE)
  {
  }
}
