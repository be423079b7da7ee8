/** The configuration of a job on the node: limits, two placement attempts, and the recorded result. */
module JobSetup {
  import opened Collections
  import opened CpuSelection
  import opened Devices
  import opened Availability
  import opened Placement
  import opened Allocator
  import L = Limits

  /** What a job asks for beyond the entries of its resource dictionary. */
  datatype Extra = Extra(nmics: Option<int>, ngpus: Option<int>, vs: seq<VnodeRequest>)

  /** The dictionary orders that one handler run happens to meet. */
  datatype Orders = Orders(keys: seq<int>, placed: seq<int>)

  function AskOf(a: L.Asked, x: Extra): Ask {
    var total := Request(a.ncpus, a.mem, x.nmics, x.ngpus);
    if x.vs == [] then Whole(total) else ByVnode(total, x.vs)
  }

  /** A request carries each count under its own name, and the vnodes whenever the scheduler chose some. */
  lemma AskIs(a: L.Asked, x: Extra)
    ensures var total := AskOf(a, x).total;
      total.ncpus == a.ncpus && total.mem == a.mem && total.nmics == x.nmics && total.ngpus == x.ngpus
    ensures x.vs == [] ==> AskOf(a, x).Whole?
    ensures x.vs != [] ==> AskOf(a, x).ByVnode? && AskOf(a, x).vs == x.vs
  {
  }

  /** Free resources depend on the table only through the jobs that are subtracted. */
  lemma AvailableAgree(node: Node, t1: JobTable, t2: JobTable, active: set<JobId>, avail: map<int, Avail>)
    requires active <= t1.Keys && active <= t2.Keys && forall j :: j in active ==> t1[j] == t2[j]
    requires IsAvailable(node, t1, active, avail)
    ensures IsAvailable(node, t2, active, avail)
  {
    forall s | s in avail ensures IsFree(node, t2, active, s, avail[s]) {
      assert IsFree(node, t1, active, s, avail[s]);
      assert TakenCpus(t1, active, s) == TakenCpus(t2, active, s);
      assert TakenDevices(node, t1, active) == TakenDevices(node, t2, active);
      assert Charged(t1, active, s) == Charged(t2, active, s);
      SumOverAgree(Charged(t1, active, s), Limits(t1), Limits(t2));
    }
  }

  /** A begin of job `id` with this very request, granted exactly if `ok`, leads from `s` to `t`. */
  ghost predicate Begun(m: Machine, s: State, id: JobId, ask: Ask, ok: bool, cleared: bool,
                        lines: seq<Option<DeviceNumber>>, t: State)
    requires m.Valid()
  {
    exists r: Option<Grants> :: (r.Some? <==> ok) && Step(m, s, Event.Begin(id, ask, r, cleared, lines), t)
  }

  /** A resize of job `id` with this very request, granted exactly if `ok`, leads from `s` to `t`. */
  ghost predicate Moved(m: Machine, s: State, id: JobId, ask: Ask, ok: bool, lines: seq<Option<DeviceNumber>>, t: State)
    requires m.Valid()
  {
    exists r: Option<Grants> :: (r.Some? <==> ok) && Step(m, s, Event.Resize(id, ask, r, lines), t)
  }

  lemma BegunBy(m: Machine, s: State, id: JobId, ask: Ask, r: Option<Grants>, cleared: bool,
                lines: seq<Option<DeviceNumber>>, t: State)
    requires m.Valid() && BeginStep(m, s, id, ask, r, cleared, lines, t)
    ensures Begun(m, s, id, ask, r.Some?, cleared, lines, t)
  {
    assert Step(m, s, Event.Begin(id, ask, r, cleared, lines), t);
  }

  lemma MovedBy(m: Machine, s: State, id: JobId, ask: Ask, r: Option<Grants>, lines: seq<Option<DeviceNumber>>, t: State)
    requires m.Valid() && ResizeStep(m, s, id, ask, r, lines, t)
    ensures Moved(m, s, id, ask, r.Some?, lines, t)
  {
    assert Step(m, s, Event.Resize(id, ask, r, lines), t);
  }

  /** What a handler's step keeps. */
  lemma StepKeeps(m: Machine, s: State, e: Event, t: State)
    requires m.Valid() && Step(m, s, e, t) && MayHold(s, e)
    ensures DisjointNuma(m.node) && Exclusive(m, s) ==> Exclusive(m, t)
    ensures MemorySafe(m, s) && Plain(s, e) ==> MemorySafe(m, t)
  {
    if DisjointNuma(m.node) && Exclusive(m, s) {
      StepExclusive(m, s, e, t);
    }
    if MemorySafe(m, s) && Plain(s, e) {
      PlainStep(m, s, e, t);
    }
  }

  lemma RefusedBy(m: Machine, s: State, id: JobId, cleared: bool, t: State)
    requires m.Valid()
    requires t == State(if cleared then s.jobs[id := FRESH] else s.jobs, s.suspended - {id}, s.live - {id}, s.given)
    ensures Step(m, s, Event.Refuse(id, cleared), t)
    ensures DisjointNuma(m.node) && Exclusive(m, s) ==> Exclusive(m, t)
    ensures MemorySafe(m, s) && (cleared || id !in s.suspended) ==> MemorySafe(m, t)
  {
    StepKeeps(m, s, Event.Refuse(id, cleared), t);
  }

  /** A begin keeps exclusivity, and memory conservation if its charge is backed and no suspended leftover is stuck. */
  lemma BegunKeeps(m: Machine, s: State, id: JobId, ask: Ask, r: Option<Grants>, cleared: bool,
                   lines: seq<Option<DeviceNumber>>, t: State)
    requires m.Valid() && BeginStep(m, s, id, ask, r, cleared, lines, t)
    ensures DisjointNuma(m.node) && Exclusive(m, s) ==> Exclusive(m, t)
    ensures MemorySafe(m, s) && (r.Some? ==> Backed(ask)) && (cleared || id !in s.suspended) ==> MemorySafe(m, t)
    ensures r.Some? <==> id in t.live
  {
    StepKeeps(m, s, Event.Begin(id, ask, r, cleared, lines), t);
  }

  lemma MovedKeeps(m: Machine, s: State, id: JobId, ask: Ask, r: Option<Grants>, lines: seq<Option<DeviceNumber>>, t: State)
    requires m.Valid() && ResizeStep(m, s, id, ask, r, lines, t)
    ensures DisjointNuma(m.node) && Exclusive(m, s) ==> Exclusive(m, t)
    ensures MemorySafe(m, s) && (r.Some? ==> Backed(ask)) ==> MemorySafe(m, t)
    ensures r.None? ==> t == s
  {
    StepKeeps(m, s, Event.Resize(id, ask, r, lines), t);
  }

  lemma FoundIsPlaced(m: Machine, jobs: JobTable, active: set<JobId>, ask: Ask, v: View, r: Option<Grants>)
    requires active <= jobs.Keys && Explains(m, jobs, active, ask, v, r)
    ensures Placed(m, jobs, active, ask, r)
  {
  }

  lemma PlacedAgree(m: Machine, t1: JobTable, t2: JobTable, active: set<JobId>, ask: Ask, r: Option<Grants>)
    requires active <= t1.Keys && active <= t2.Keys && forall j :: j in active ==> t1[j] == t2[j]
    requires Placed(m, t1, active, ask, r)
    ensures Placed(m, t2, active, ask, r)
  {
    var v: View :| Explains(m, t1, active, ask, v, r);
    AvailableAgree(m.node, t1, t2, active, v.avail);
    assert Explains(m, t2, active, ask, v, r);
  }

  ghost predicate AllContained(node: Node, table: JobTable) {
    forall j :: j in table ==> Contained(node, table[j])
  }

  lemma SameActive(table: JobTable, a: set<JobId>, b: set<JobId>, exclude: Option<JobId>)
    ensures (forall j :: j in table ==> (j in a <==> j in b)) ==> Active(table, a, exclude) == Active(table, b, exclude)
  {
  }

  /** The entries of a dictionary in some order. */
  method OrderKeys(table: JobTable) returns (order: seq<JobId>)
    ensures OrderOf(order, table)
  {
    order := [];
    var todo := table.Keys;
    while todo != {}
      invariant todo <= table.Keys && Distinct(order) && Elements(order) == table.Keys - todo
    {
      var j :| j in todo;
      todo := todo - {j};
      DistinctAppend(order, [j]);
      assert Elements([j]) == {j};
      order := order + [j];
    }
  }

  class NodeAllocator {
    const m: Machine
    const settings: L.Settings
    const offer: L.Offer
    var jobs: JobTable
    var suspended: set<JobId>
    var given: map<JobId, seq<DeviceName>>
    ghost var live: set<JobId>

    ghost predicate Valid()
      reads this
    {
      && m.Valid() && DisjointNuma(m.node) && Exclusive(m, Now())
      && settings.cpuset && m.cfg.memoryEnabled == settings.memory
    }

    ghost function Now(): State
      reads this
    {
      State(jobs, suspended, live, given)
    }

    constructor (m: Machine, settings: L.Settings, offer: L.Offer)
      requires m.Valid() && DisjointNuma(m.node) && settings.cpuset && m.cfg.memoryEnabled == settings.memory
      ensures Valid() && Now() == State(map[], {}, {}, map[]) && this.m == m && MemorySafe(m, Now())
    {
      this.m, this.settings, this.offer := m, settings, offer;
      jobs, suspended, given, live := map[], {}, map[], {};
      new;
      EmptyIsSafe(m, Now());
    }

    ghost predicate GoodOrders(o: Orders)
      reads this
    {
      Distinct(o.keys) && Elements(o.keys) == m.node.numa.Keys && Elements(o.placed) <= m.node.numa.Keys
    }

    /** What one attempt finds when the job table is visited in the given order. */
    ghost function Found(ask: Ask, table: JobTable, without: set<JobId>, exclude: Option<JobId>, o: Orders, order: seq<JobId>): Option<Grants>
      requires m.Valid() && GoodOrders(o) && AllUsable(m, Available(m.node, table, Active(table, without, exclude), order))
      reads this
    {
      Outcome(m, ask, View(Available(m.node, table, Active(table, without, exclude), order), o.keys, o.placed))
    }

    ghost predicate IsFound(ask: Ask, table: JobTable, without: set<JobId>, exclude: Option<JobId>, o: Orders, order: seq<JobId>,
                            r: Option<Grants>)
      requires m.Valid() && GoodOrders(o)
      reads this
    {
      var avail := Available(m.node, table, Active(table, without, exclude), order);
      AllUsable(m, avail) && r == Found(ask, table, without, exclude, o, order)
    }

    /**
     * The two attempts. The second one runs even after a success and decides the outcome. Both visit the same
     * table in the same order, which is not read again in between, so they differ only if some job was
     * suspended or resumed meanwhile; `earlier` are the jobs that the first attempt saw suspended.
     */
    method FindPlace(ask: Ask, table: JobTable, earlier: set<JobId>, without: set<JobId>, exclude: Option<JobId>, o: Orders)
      returns (first: Option<Grants>, r: Option<Grants>, order: seq<JobId>)
      requires m.Valid() && Admissible(m, ask) && GoodOrders(o)
      requires AllContained(m.node, table)
      ensures OrderOf(order, table)
      ensures IsFound(ask, table, earlier, exclude, o, order, first)
      ensures IsFound(ask, table, without, exclude, o, order, r)
      ensures (forall j :: j in table ==> (j in earlier <==> j in without)) ==> first == r
      ensures Placed(m, table, Active(table, without, exclude), ask, r)
    {
      order := OrderKeys(table);
      first := Attempt(ask, table, earlier, exclude, o, order);
      r := Attempt(ask, table, without, exclude, o, order);
      SameActive(table, earlier, without, exclude);
    }

    method Attempt(ask: Ask, table: JobTable, without: set<JobId>, exclude: Option<JobId>, o: Orders, order: seq<JobId>)
      returns (r: Option<Grants>)
      requires m.Valid() && Admissible(m, ask) && GoodOrders(o) && OrderOf(order, table)
      requires AllContained(m.node, table)
      ensures IsFound(ask, table, without, exclude, o, order, r)
      ensures Placed(m, table, Active(table, without, exclude), ask, r)
    {
      var avail := AvailableNodeResources(m.node, table, without, exclude, order);
      ViewUsable(m, table, Active(table, without, exclude), View(avail, o.keys, o.placed));
      r := PlaceIn(ask, avail, o);
      FoundIsPlaced(m, table, Active(table, without, exclude), ask, View(avail, o.keys, o.placed), r);
    }

    /** The placement in what is free; an empty CPU list is refused when the cpuset is written. */
    method PlaceIn(ask: Ask, avail: map<int, Avail>, o: Orders) returns (r: Option<Grants>)
      requires m.Valid() && Admissible(m, ask) && GoodOrders(o) && AllUsable(m, avail) && avail.Keys == m.node.numa.Keys
      ensures r == Outcome(m, ask, View(avail, o.keys, o.placed))
    {
      match ask {
        case Whole(req) => r := PlaceJob(m, req, avail, o.keys, o.placed);
        case ByVnode(_, vs) => r := PlaceVnodes(m, vs, avail);
      }
      if r.Some? && r.value.cpus == [] {
        r := None;
      }
    }

    /** What the kernel shows after the grant is written. */
    method Record(ask: Ask, g: Grants, lines: seq<Option<DeviceNumber>>) returns (use: JobUse)
      ensures use == Recorded(m, ask, g, lines)
    {
      var cpus := SortSet(Elements(g.cpus));
      var mems := SortSet(if m.cfg.memFences then g.mems else m.node.numa.Keys);
      use := JobUse(cpus, mems, if m.cfg.memoryEnabled then ask.total.mem.GetOr(0) else 0, lines);
    }

    /**
     * A job begins. A leftover cgroup of the same id is deleted first, which the kernel may refuse. If the
     * limits are refused, nothing is placed; otherwise exactly the configured request is.
     */
    method Begin(id: JobId, host: L.HostResources, x: Extra, o: Orders, lines: seq<Option<DeviceNumber>>, earlier: set<JobId>)
      returns (ok: bool, err: Option<L.LimitError>, cleared: bool)
      requires Valid() && GoodOrders(o) && forall i :: 0 <= i < |x.vs| ==> x.vs[i].socket in m.node.numa
      modifies this, host
      ensures Valid() && (ok <==> id in live)
      ensures err == L.LimitsRefusal(settings, old(host.Ask()), offer)
      ensures err.Some? ==> !ok && Step(m, old(Now()), Event.Refuse(id, cleared), Now())
      ensures err.None? ==> Begun(m, old(Now()), id, Requested(old(host.Ask()), x), ok, cleared, lines, Now())
      ensures old(MemorySafe(m, Now())) && (ok ==> Backed(Requested(old(host.Ask()), x))) && (cleared || id !in old(suspended)) ==>
        MemorySafe(m, Now())
    {
      ghost var s := Now();
      cleared := *;
      cleared := cleared || id !in jobs;
      live, suspended := live - {id}, suspended - {id};
      if cleared {
        jobs := jobs[id := FRESH];
      }
      RefusedBy(m, s, id, cleared, Now());
      err := host.ConfigureLimits(settings, offer);
      if err.Some? {
        return false, err, cleared;
      }
      ok := Admit(id, AskOf(host.Ask(), x), cleared, o, lines, earlier, s);
    }

    /** The request that is placed: what was asked for, with what was left open filled in. */
    function Requested(a: L.Asked, x: Extra): Ask {
      AskOf(L.Configured(settings, a, offer), x)
    }

    /** Place the job in the fresh cgroup; `s` is the state in which its begin started. */
    method Admit(id: JobId, ask: Ask, cleared: bool, o: Orders, lines: seq<Option<DeviceNumber>>, earlier: set<JobId>, ghost s: State)
      returns (ok: bool)
      requires m.Valid() && GoodOrders(o) && Admissible(m, ask) && AllContained(m.node, jobs)
      requires Now() == State(if cleared then s.jobs[id := FRESH] else s.jobs, s.suspended - {id}, s.live - {id}, s.given)
      modifies this
      ensures Begun(m, s, id, ask, ok, cleared, lines, Now()) && (ok <==> id in live)
      ensures DisjointNuma(m.node) && Exclusive(m, s) ==> Exclusive(m, Now())
      ensures MemorySafe(m, s) && (ok ==> Backed(ask)) && (cleared || id !in s.suspended) ==> MemorySafe(m, Now())
    {
      var r := FindNewPlace(id, ask, cleared, o, earlier, s);
      ok := r.Some?;
      if ok {
        Commit(id, ask, r.value, cleared, lines, s);
      }
      assert BeginStep(m, s, id, ask, r, cleared, lines, Now());
      BegunBy(m, s, id, ask, r, cleared, lines, Now());
      BegunKeeps(m, s, id, ask, r, cleared, lines, Now());
    }

    /** Write the limits of a placed job; it is live from now on. */
    method Commit(id: JobId, ask: Ask, g: Grants, cleared: bool, lines: seq<Option<DeviceNumber>>, ghost s: State)
      requires Now() == State(if cleared then s.jobs[id := FRESH] else s.jobs, s.suspended - {id}, s.live - {id}, s.given)
      modifies this
      ensures Now() == State(s.jobs[id := Recorded(m, ask, g, lines)], s.suspended - {id}, s.live + {id}, s.given[id := g.names])
    {
      var use := Record(ask, g, lines);
      jobs := jobs[id := use];
      given := given[id := g.names];
      live := live + {id};
      assert jobs == s.jobs[id := use] && live == s.live + {id};
    }

    method FindNewPlace(id: JobId, ask: Ask, cleared: bool, o: Orders, earlier: set<JobId>, ghost s: State)
      returns (r: Option<Grants>)
      requires m.Valid() && GoodOrders(o) && Admissible(m, ask) && AllContained(m.node, jobs)
      requires Now() == State(if cleared then s.jobs[id := FRESH] else s.jobs, s.suspended - {id}, s.live - {id}, s.given)
      ensures Placed(m, s.jobs, BeginActive(s, id, cleared), ask, r)
    {
      var table := if cleared then jobs - {id} else jobs;
      ghost var active := BeginActive(s, id, cleared);
      assert Active(table, suspended, None) == active;
      var first, order;
      first, r, order := FindPlace(ask, table, earlier, suspended, None, o);
      PlacedAgree(m, table, s.jobs, active, ask, r);
    }

    /** A job is resized: its own holdings count as free, and a failure leaves everything as it was. */
    method Resize(id: JobId, host: L.HostResources, x: Extra, o: Orders, lines: seq<Option<DeviceNumber>>, earlier: set<JobId>)
      returns (ok: bool, err: Option<L.LimitError>)
      requires Valid() && GoodOrders(o) && id in jobs && forall i :: 0 <= i < |x.vs| ==> x.vs[i].socket in m.node.numa
      modifies this, host
      ensures Valid()
      ensures err == L.LimitsRefusal(settings, old(host.Ask()), offer)
      ensures err.None? ==> Moved(m, old(Now()), id, Requested(old(host.Ask()), x), ok, lines, Now())
      ensures (err.Some? ==> !ok) && (!ok ==> Now() == old(Now()))
      ensures old(MemorySafe(m, Now())) && (ok ==> Backed(Requested(old(host.Ask()), x))) ==> MemorySafe(m, Now())
    {
      err := host.ConfigureLimits(settings, offer);
      if err.Some? {
        return false, err;
      }
      ok := Move(id, AskOf(host.Ask(), x), o, lines, earlier);
    }

    /** Place the job anew, with its own holdings free. */
    method Move(id: JobId, ask: Ask, o: Orders, lines: seq<Option<DeviceNumber>>, earlier: set<JobId>) returns (ok: bool)
      requires m.Valid() && GoodOrders(o) && Admissible(m, ask) && AllContained(m.node, jobs) && id in jobs
      modifies this
      ensures Moved(m, old(Now()), id, ask, ok, lines, Now()) && (!ok ==> Now() == old(Now()))
      ensures DisjointNuma(m.node) && old(Exclusive(m, Now())) ==> Exclusive(m, Now())
      ensures old(MemorySafe(m, Now())) && (ok ==> Backed(ask)) ==> MemorySafe(m, Now())
    {
      ghost var s := Now();
      var first, r, order := FindPlace(ask, jobs, earlier, suspended, Some(id), o);
      ok := r.Some?;
      if ok {
        Replace(id, ask, r.value, lines);
      }
      assert ResizeStep(m, s, id, ask, r, lines, Now());
      MovedBy(m, s, id, ask, r, lines, Now());
      MovedKeeps(m, s, id, ask, r, lines, Now());
    }

    /** Write the new limits over the old ones. */
    method Replace(id: JobId, ask: Ask, g: Grants, lines: seq<Option<DeviceNumber>>)
      modifies this
      ensures Now() == old(Now()).(jobs := old(jobs)[id := Recorded(m, ask, g, lines)], given := old(given)[id := g.names])
    {
      var use := Record(ask, g, lines);
      jobs := jobs[id := use];
      given := given[id := g.names];
    }

    /** A job ends; the kernel may keep its cgroup. */
    method End(id: JobId) returns (gone: bool)
      requires Valid()
      modifies this
      ensures Valid() && Step(m, old(Now()), Event.End(id, gone), Now())
      ensures old(MemorySafe(m, Now())) ==> MemorySafe(m, Now())
    {
      ghost var s := Now();
      gone := *;
      if gone {
        jobs := jobs - {id};
      }
      live := live - {id};
      StepKeeps(m, s, Event.End(id, gone), Now());
    }

    method Suspend(id: JobId)
      requires Valid()
      modifies this
      ensures Valid() && Step(m, old(Now()), Event.Suspend(id), Now())
      ensures old(MemorySafe(m, Now())) ==> MemorySafe(m, Now())
    {
      ghost var s := Now();
      suspended := suspended + {id};
      StepKeeps(m, s, Event.Suspend(id), Now());
    }
  }
}
