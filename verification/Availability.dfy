/** What is free on the node: its NUMA nodes minus everything that live jobs hold. */
module Availability {
  import opened Collections
  import opened Devices

  type JobId = string

  /** A NUMA node as discovered; `mem` is set when memory was spread over the nodes beforehand. */
  datatype NumaNode = NumaNode(cpus: seq<int>, mem: Option<int>, memTotal: nat, devices: seq<DeviceName>)

  datatype Node = Node(numa: map<int, NumaNode>, devices: DeviceTable, deviceOrder: seq<DeviceName>) {
    /** What discovery guarantees: CPU lists without duplicates, devices attached to known NUMA nodes. */
    ghost predicate Valid() {
      && 0 in numa
      && (forall s :: s in numa ==> Distinct(numa[s].cpus))
      && Distinct(deviceOrder) && Elements(deviceOrder) == devices.Keys
      && (forall d :: d in devices ==> devices[d].numaNode in numa)
      && (forall s :: s in numa ==> numa[s].devices == [])
      && (forall d, e :: d in devices && e in devices && Number(devices[d]) == Number(devices[e]) ==> d == e)
    }
  }

  datatype DeviceNumber = DeviceNumber(major: int, minor: int)

  function Number(info: DeviceInfo): DeviceNumber {
    DeviceNumber(info.major, info.minor)
  }

  /** What the cgroup tree says about one job. A wildcard line of the device list has no number. */
  datatype JobUse = JobUse(cpus: seq<int>, mems: seq<int>, limit: nat, devices: seq<Option<DeviceNumber>>)

  type JobTable = map<JobId, JobUse>

  datatype Avail = Avail(cpus: seq<int>, memory: int, devices: seq<DeviceName>)

  /** No CPU is free on two NUMA nodes. */
  ghost predicate DisjointCpus(avail: map<int, Avail>) {
    forall a, b :: a in avail && b in avail && a != b ==> Elements(avail[a].cpus) !! Elements(avail[b].cpus)
  }

  /** The memory of a NUMA node in bytes; a negative spread value converts to zero. */
  function NodeMemory(n: NumaNode): nat {
    match n.mem
    case Some(m) => if m < 0 then 0 else m
    case None => n.memTotal
  }

  function Elsewhere(node: Node, s: int): set<DeviceName> {
    set d | d in node.devices && node.devices[d].numaNode != s
  }

  /** The devices attached to a NUMA node, in discovery order. */
  ghost function DevicesOn(node: Node, s: int): seq<DeviceName> {
    Without(node.deviceOrder, Elsewhere(node, s))
  }

  /** The jobs whose holdings count: neither excluded nor suspended. */
  function Active(jobs: JobTable, suspended: set<JobId>, exclude: Option<JobId>): set<JobId> {
    set j | j in jobs && j !in suspended && exclude != Some(j)
  }

  ghost function TakenCpus(jobs: JobTable, active: set<JobId>, s: int): set<int>
    requires active <= jobs.Keys
  {
    set j, c | j in active && s in jobs[j].mems && c in jobs[j].cpus :: c
  }

  /** The node's devices that carry one of the given numbers. */
  ghost function Named(node: Node, numbers: seq<Option<DeviceNumber>>): set<DeviceName> {
    set d | d in node.devices && Some(Number(node.devices[d])) in numbers
  }

  ghost function TakenDevices(node: Node, jobs: JobTable, active: set<JobId>): set<DeviceName>
    requires active <= jobs.Keys
  {
    set j, d | j in active && d in Named(node, jobs[j].devices) :: d
  }

  /** The jobs whose memory limit is charged to one NUMA node: those confined to exactly that node. */
  function Charged(jobs: JobTable, active: set<JobId>, s: int): set<JobId>
    requires active <= jobs.Keys
  {
    set j | j in active && jobs[j].mems == [s]
  }

  function Limits(jobs: JobTable): map<JobId, nat> {
    map j | j in jobs :: jobs[j].limit
  }

  ghost function ChargeSum(jobs: JobTable, active: set<JobId>, s: int): nat
    requires active <= jobs.Keys
  {
    SumOver(Charged(jobs, active, s), Limits(jobs))
  }

  /** One socket's free resources, stated without reference to any iteration order. */
  ghost predicate IsFree(node: Node, jobs: JobTable, active: set<JobId>, s: int, a: Avail)
    requires s in node.numa && active <= jobs.Keys
  {
    && a.cpus == Without(node.numa[s].cpus, TakenCpus(jobs, active, s))
    && a.devices == Without(DevicesOn(node, s), TakenDevices(node, jobs, active))
    && 0 <= a.memory <= NodeMemory(node.numa[s])
    && (ChargeSum(jobs, active, s) <= NodeMemory(node.numa[s])
        ==> a.memory == NodeMemory(node.numa[s]) - ChargeSum(jobs, active, s))
  }

  ghost predicate IsAvailable(node: Node, jobs: JobTable, active: set<JobId>, avail: map<int, Avail>)
    requires active <= jobs.Keys
  {
    avail.Keys == node.numa.Keys && forall s :: s in avail ==> IsFree(node, jobs, active, s, avail[s])
  }

  /** What the guarded subtraction leaves of a NUMA node's memory when the jobs are visited in the given order. */
  ghost function MemoryLeft(jobs: JobTable, active: set<JobId>, order: seq<JobId>, s: int, memory: int): int {
    if order == [] then memory
    else
      var left, j := MemoryLeft(jobs, active, order[..|order| - 1], s, memory), order[|order| - 1];
      if j in active && j in jobs && jobs[j].mems == [s] && jobs[j].limit <= left then left - jobs[j].limit else left
  }

  /** The free resources as a function of the order in which the job table is visited. */
  ghost function Available(node: Node, jobs: JobTable, active: set<JobId>, order: seq<JobId>): map<int, Avail>
    requires active <= jobs.Keys
  {
    map s | s in node.numa :: Avail(
      Without(node.numa[s].cpus, TakenCpus(jobs, active, s)),
      MemoryLeft(jobs, active, order, s, NodeMemory(node.numa[s])),
      Without(DevicesOn(node, s), TakenDevices(node, jobs, active)))
  }

  /** Each entry of a dictionary once, in some order. */
  ghost predicate OrderOf(order: seq<JobId>, jobs: JobTable) {
    Distinct(order) && Elements(order) == jobs.Keys
  }

  /**
   * Rebuild the free resources. The free CPUs and devices do not depend on the order in which the job table
   * is visited, and neither does the memory as long as the charges fit.
   */
  method AvailableNodeResources(node: Node, jobs: JobTable, suspended: set<JobId>, exclude: Option<JobId>, order: seq<JobId>)
    returns (avail: map<int, Avail>)
    requires node.Valid() && OrderOf(order, jobs)
    requires forall j :: j in jobs ==> Elements(jobs[j].mems) <= node.numa.Keys
    ensures IsAvailable(node, jobs, Active(jobs, suspended, exclude), avail)
    ensures avail == Available(node, jobs, Active(jobs, suspended, exclude), order)
  {
    avail := IdleResources(node);
    ghost var active := Active(jobs, suspended, exclude);
    ghost var done: set<JobId> := {};
    NothingTaken(node, jobs, active, avail);
    var i := 0;
    while i < |order|
      invariant 0 <= i <= |order| && done == DoneAt(active, order, i)
      invariant Partly(node, jobs, active, done, avail)
      invariant MemoryIsLeft(node, jobs, active, order[..i], avail)
    {
      var jobid := order[i];
      NextJob(active, order, i);
      avail := VisitJob(node, jobs, suspended, exclude, jobid, avail, done, order[..i]);
      done := if jobid in active then done + {jobid} else done;
      i := i + 1;
    }
    assert order[..i] == order;
    AllTaken(node, jobs, active, avail);
    AvailableIs(node, jobs, active, order, avail);
  }

  /** The jobs that have been subtracted after the first `i` entries. */
  ghost function DoneAt(active: set<JobId>, order: seq<JobId>, i: nat): (done: set<JobId>)
    requires i <= |order|
    ensures done <= active
    ensures i == 0 ==> done == {}
    ensures i == |order| && active <= Elements(order) ==> done == active
  {
    assert i == |order| ==> order[..i] == order;
    active * Elements(order[..i])
  }

  lemma NextJob(active: set<JobId>, order: seq<JobId>, i: nat)
    requires Distinct(order) && i < |order|
    ensures order[i] !in DoneAt(active, order, i) && order[i] in Elements(order)
    ensures DoneAt(active, order, i + 1) == DoneAt(active, order, i) + if order[i] in active then {order[i]} else {}
    ensures order[..i + 1] == order[..i] + [order[i]]
  {
    assert order[..i + 1] == order[..i] + [order[i]];
    ElementsAppend(order[..i], [order[i]]);
  }

  ghost predicate MemoryIsLeft(node: Node, jobs: JobTable, active: set<JobId>, order: seq<JobId>, avail: map<int, Avail>) {
    forall s :: s in avail && s in node.numa ==>
      avail[s].memory == MemoryLeft(jobs, active, order, s, NodeMemory(node.numa[s]))
  }

  lemma AvailableIs(node: Node, jobs: JobTable, active: set<JobId>, order: seq<JobId>, avail: map<int, Avail>)
    requires active <= jobs.Keys && IsAvailable(node, jobs, active, avail) && MemoryIsLeft(node, jobs, active, order, avail)
    ensures avail == Available(node, jobs, active, order)
  {
    forall s | s in avail ensures avail[s] == Available(node, jobs, active, order)[s] {
      assert IsFree(node, jobs, active, s, avail[s]);
    }
  }

  /** The body of the job loop. */
  method VisitJob(node: Node, jobs: JobTable, suspended: set<JobId>, exclude: Option<JobId>, jobid: JobId,
                  avail0: map<int, Avail>, ghost done: set<JobId>, ghost before: seq<JobId>)
    returns (avail: map<int, Avail>)
    requires node.Valid() && jobid in jobs && Elements(jobs[jobid].mems) <= node.numa.Keys
    requires done <= Active(jobs, suspended, exclude) && jobid !in done
    requires Partly(node, jobs, Active(jobs, suspended, exclude), done, avail0)
    requires MemoryIsLeft(node, jobs, Active(jobs, suspended, exclude), before, avail0)
    ensures var active := Active(jobs, suspended, exclude);
      && Partly(node, jobs, active, if jobid in active then done + {jobid} else done, avail)
      && MemoryIsLeft(node, jobs, active, before + [jobid], avail)
  {
    ghost var active := Active(jobs, suspended, exclude);
    if exclude == Some(jobid) || jobid in suspended {
      MemorySkips(node, jobs, active, before, jobid, avail0);
      return avail0;
    }
    PartlyDistinct(node, jobs, active, done, avail0);
    avail := SubtractJob(node, avail0, jobs[jobid]);
    JobTaken(node, jobs, active, done, jobid, avail0, avail);
    MemoryVisits(node, jobs, active, before, jobid, avail0, avail);
  }

  lemma MemorySkips(node: Node, jobs: JobTable, active: set<JobId>, before: seq<JobId>, j: JobId, avail: map<int, Avail>)
    requires j !in active && MemoryIsLeft(node, jobs, active, before, avail)
    ensures MemoryIsLeft(node, jobs, active, before + [j], avail)
  {
    assert (before + [j])[..|before|] == before;
  }

  lemma MemoryVisits(node: Node, jobs: JobTable, active: set<JobId>, before: seq<JobId>, j: JobId,
                     avail0: map<int, Avail>, avail: map<int, Avail>)
    requires j in active && j in jobs && MemoryIsLeft(node, jobs, active, before, avail0) && avail.Keys == avail0.Keys
    requires forall s :: s in avail ==> avail[s] == Subtracted(node, avail0[s], jobs[j], s)
    ensures MemoryIsLeft(node, jobs, active, before + [j], avail)
  {
    assert (before + [j])[..|before|] == before;
  }

  /** Everything one job holds, taken off the free resources. */
  method SubtractJob(node: Node, avail0: map<int, Avail>, use: JobUse) returns (avail: map<int, Avail>)
    requires node.Valid() && Elements(use.mems) <= avail0.Keys
    requires forall s :: s in avail0 ==> Distinct(avail0[s].cpus)
    requires forall s :: s in avail0 ==> Distinct(avail0[s].devices) && Elements(avail0[s].devices) <= node.devices.Keys
    ensures avail.Keys == avail0.Keys
    ensures forall s :: s in avail ==> avail[s] == Subtracted(node, avail0[s], use, s)
  {
    avail := RemoveCpus(avail0, use);
    avail := ChargeMemory(avail, use);
    avail := RemoveDevices(node, avail, use.devices);
  }

  /** The node's own resources, before any job is subtracted. */
  method IdleResources(node: Node) returns (avail: map<int, Avail>)
    requires node.Valid()
    ensures avail.Keys == node.numa.Keys
    ensures forall s :: s in avail ==>
      avail[s] == Avail(node.numa[s].cpus, NodeMemory(node.numa[s]), DevicesOn(node, s))
  {
    avail := map s | s in node.numa :: Avail(node.numa[s].cpus, NodeMemory(node.numa[s]), node.numa[s].devices);
    var i := 0;
    while i < |node.deviceOrder|
      invariant 0 <= i <= |node.deviceOrder| && avail.Keys == node.numa.Keys
      invariant forall s :: s in avail ==> avail[s] == Avail(node.numa[s].cpus, NodeMemory(node.numa[s]),
        Without(node.deviceOrder[..i], Elsewhere(node, s)))
    {
      var d := node.deviceOrder[i];
      assert d in Elements(node.deviceOrder);
      var s := node.devices[d].numaNode;
      forall t | t in avail
        ensures Without(node.deviceOrder[..i + 1], Elsewhere(node, t)) ==
          Without(node.deviceOrder[..i], Elsewhere(node, t)) + if t == s then [d] else []
      {
        NextDevice(node, i, t);
      }
      avail := avail[s := avail[s].(devices := avail[s].devices + [d])];
      i := i + 1;
    }
    assert node.deviceOrder[..i] == node.deviceOrder;
  }

  lemma NextDevice(node: Node, i: nat, t: int)
    requires node.Valid() && i < |node.deviceOrder| && node.deviceOrder[i] in node.devices
    ensures Without(node.deviceOrder[..i + 1], Elsewhere(node, t)) ==
      Without(node.deviceOrder[..i], Elsewhere(node, t)) +
      if node.devices[node.deviceOrder[i]].numaNode == t then [node.deviceOrder[i]] else []
  {
    assert node.deviceOrder[..i + 1] == node.deviceOrder[..i] + [node.deviceOrder[i]];
    WithoutSnoc(node.deviceOrder[..i], node.deviceOrder[i], Elsewhere(node, t));
  }

  ghost function WithoutCpus(a: Avail, use: JobUse): Avail {
    a.(cpus := Without(a.cpus, Elements(use.cpus)))
  }

  ghost function WithoutMemory(a: Avail, use: JobUse, s: int): Avail {
    if use.mems == [s] && use.limit <= a.memory then a.(memory := a.memory - use.limit) else a
  }

  /** Take a job's CPUs out of the list of every socket it names. */
  method RemoveCpus(avail0: map<int, Avail>, use: JobUse) returns (avail: map<int, Avail>)
    requires forall s :: s in avail0 ==> Distinct(avail0[s].cpus)
    requires Elements(use.mems) <= avail0.Keys
    ensures avail.Keys == avail0.Keys
    ensures forall s :: s in avail ==> avail[s] == if s in use.mems then WithoutCpus(avail0[s], use) else avail0[s]
  {
    avail := avail0;
    var i := 0;
    while i < |use.mems|
      invariant 0 <= i <= |use.mems| && avail.Keys == avail0.Keys
      invariant forall s :: s in avail ==> avail[s] == if s in use.mems[..i] then WithoutCpus(avail0[s], use) else avail0[s]
    {
      var s := use.mems[i];
      assert s in Elements(use.mems);
      var old_cpus := avail[s].cpus;
      WithoutElements(avail0[s].cpus, Elements(use.cpus));
      var cpus := RemoveEach(old_cpus, use.cpus);
      WithoutTwice(avail0[s].cpus, Elements(use.cpus), Elements(use.cpus));
      assert Elements(use.cpus) + Elements(use.cpus) == Elements(use.cpus);
      avail := avail[s := avail[s].(cpus := cpus)];
      assert use.mems[..i + 1] == use.mems[..i] + [s];
      i := i + 1;
    }
    assert use.mems[..i] == use.mems;
  }

  /** The innermost removal loop, one list.remove per CPU. */
  method RemoveEach(list: seq<int>, gone: seq<int>) returns (r: seq<int>)
    requires Distinct(list)
    ensures r == Without(list, Elements(gone))
  {
    r := list;
    WithoutNone(list);
    var k := 0;
    assert Elements(gone[..0]) == {};
    while k < |gone|
      invariant 0 <= k <= |gone| && r == Without(list, Elements(gone[..k]))
    {
      WithoutElements(list, Elements(gone[..k]));
      RemoveFirstDistinct(r, gone[k]);
      WithoutTwice(list, Elements(gone[..k]), {gone[k]});
      assert Elements(gone[..k + 1]) == Elements(gone[..k]) + {gone[k]};
      r := RemoveFirst(r, gone[k]);
      k := k + 1;
    }
    assert gone[..k] == gone;
  }

  /** Charge a job's memory limit to its only NUMA node, unless the limit exceeds what is left there. */
  method ChargeMemory(avail0: map<int, Avail>, use: JobUse) returns (avail: map<int, Avail>)
    requires Elements(use.mems) <= avail0.Keys
    ensures avail.Keys == avail0.Keys
    ensures forall s :: s in avail ==> avail[s] == WithoutMemory(avail0[s], use, s)
  {
    avail := avail0;
    if |use.mems| == 1 {
      var s := use.mems[0];
      assert s in Elements(use.mems) && use.mems == [s];
      if use.limit <= avail[s].memory {
        avail := avail[s := avail[s].(memory := avail[s].memory - use.limit)];
      }
    }
  }

  /** Take the devices with a job's device numbers off every socket. */
  method RemoveDevices(node: Node, avail0: map<int, Avail>, numbers: seq<Option<DeviceNumber>>)
    returns (avail: map<int, Avail>)
    requires node.Valid()
    requires forall s :: s in avail0 ==> Distinct(avail0[s].devices) && Elements(avail0[s].devices) <= node.devices.Keys
    ensures avail.Keys == avail0.Keys
    ensures forall s :: s in avail ==>
      avail[s] == avail0[s].(devices := Without(avail0[s].devices, Named(node, numbers)))
  {
    avail := map[];
    var todo := avail0.Keys;
    while todo != {}
      invariant todo <= avail0.Keys && avail.Keys == avail0.Keys - todo
      invariant forall s :: s in avail ==>
        avail[s] == avail0[s].(devices := Without(avail0[s].devices, Named(node, numbers)))
    {
      assert exists s :: s in todo by {
        var s := Any(todo);
      }
      var s: int :| s in todo;
      todo := todo - {s};
      var devices := RemoveNumbers(node, avail0[s].devices, numbers);
      avail := avail[s := avail0[s].(devices := devices)];
    }
  }

  /** For each number in turn, drop the first available device that carries it. */
  method RemoveNumbers(node: Node, list: seq<DeviceName>, numbers: seq<Option<DeviceNumber>>) returns (r: seq<DeviceName>)
    requires node.Valid() && Distinct(list) && Elements(list) <= node.devices.Keys
    ensures r == Without(list, Named(node, numbers))
  {
    r := list;
    WithoutNone(list);
    ghost var gone: set<DeviceName> := {};
    var k := 0;
    while k < |numbers|
      invariant 0 <= k <= |numbers| && r == Without(list, gone)
      invariant gone == Named(node, numbers[..k])
    {
      WithoutElements(list, gone);
      assert numbers[..k + 1] == numbers[..k] + [numbers[k]];
      ghost var more := Named(node, numbers[..k + 1]);
      ghost var hit := set d | d in node.devices && Some(Number(node.devices[d])) == numbers[k];
      assert more == gone + hit;
      WithoutTwice(list, gone, hit);
      if numbers[k].Some? {
        var found := FindDevice(node, r, numbers[k].value);
        if found.Some? {
          assert found.value in Elements(r);
          assert hit == {found.value};
          RemoveFirstDistinct(r, found.value);
          r := RemoveFirst(r, found.value);
        } else {
          assert forall d :: d in r ==> d in Elements(r);
          WithoutAbsent(r, hit);
        }
      } else {
        assert hit == {};
        WithoutNone(r);
      }
      gone := more;
      k := k + 1;
    }
    assert numbers[..k] == numbers;
  }

  method FindDevice(node: Node, list: seq<DeviceName>, number: DeviceNumber) returns (r: Option<DeviceName>)
    requires Elements(list) <= node.devices.Keys
    ensures r.Some? ==> r.value in list && r.value in node.devices && Number(node.devices[r.value]) == number
    ensures r.None? ==> forall d :: d in list && d in node.devices ==> Number(node.devices[d]) != number
  {
    var i := 0;
    while i < |list|
      invariant 0 <= i <= |list|
      invariant forall d :: d in list[..i] && d in node.devices ==> Number(node.devices[d]) != number
    {
      assert list[i] in Elements(list);
      assert list[..i + 1] == list[..i] + [list[i]];
      if Number(node.devices[list[i]]) == number {
        return Some(list[i]);
      }
      i := i + 1;
    }
    assert list[..i] == list;
    return None;
  }

  // ---------- what is free, CPU by CPU and device by device ----------

  /** A CPU is free on its NUMA node exactly if no job that counts holds it there. */
  lemma FreeCpuIff(node: Node, jobs: JobTable, suspended: set<JobId>, exclude: Option<JobId>, avail: map<int, Avail>, s: int, c: int)
    requires IsAvailable(node, jobs, Active(jobs, suspended, exclude), avail) && s in node.numa
    ensures s in avail
    ensures c in avail[s].cpus <==>
      (c in node.numa[s].cpus &&
       forall j :: j in jobs && j !in suspended && exclude != Some(j) && s in jobs[j].mems ==> c !in jobs[j].cpus)
  {
    var active := Active(jobs, suspended, exclude);
    assert IsFree(node, jobs, active, s, avail[s]);
    WithoutElements(node.numa[s].cpus, TakenCpus(jobs, active, s));
    assert c in avail[s].cpus <==> c in Elements(avail[s].cpus);
    assert forall j :: j in active <==> j in jobs && j !in suspended && exclude != Some(j);
  }

  /** A device is free on the NUMA node it is attached to exactly if no job that counts lists its number. */
  lemma FreeDeviceIff(node: Node, jobs: JobTable, suspended: set<JobId>, exclude: Option<JobId>, avail: map<int, Avail>, s: int,
                      d: DeviceName)
    requires node.Valid() && IsAvailable(node, jobs, Active(jobs, suspended, exclude), avail) && s in node.numa && d in node.devices
    ensures s in avail
    ensures d in avail[s].devices <==>
      (node.devices[d].numaNode == s &&
       forall j :: j in jobs && j !in suspended && exclude != Some(j) ==>
         Some(DeviceNumber(node.devices[d].major, node.devices[d].minor)) !in jobs[j].devices)
  {
    var active := Active(jobs, suspended, exclude);
    assert IsFree(node, jobs, active, s, avail[s]);
    WithoutElements(node.deviceOrder, Elsewhere(node, s));
    WithoutElements(DevicesOn(node, s), TakenDevices(node, jobs, active));
    assert d in avail[s].devices <==> d in Elements(avail[s].devices);
    assert forall j :: j in active ==> (d in Named(node, jobs[j].devices) <==> Some(Number(node.devices[d])) in jobs[j].devices);
    assert forall j :: j in jobs ==> (j in active <==> j !in suspended && exclude != Some(j));
  }

  /** Without charges a NUMA node offers its spread share, where there is one and it is not negative, else all its memory. */
  lemma FreeMemory(node: Node, jobs: JobTable, suspended: set<JobId>, exclude: Option<JobId>, avail: map<int, Avail>, s: int)
    requires IsAvailable(node, jobs, Active(jobs, suspended, exclude), avail) && s in node.numa
    requires forall j :: j in jobs && j !in suspended && exclude != Some(j) ==> jobs[j].mems != [s]
    ensures s in avail
    ensures node.numa[s].mem == None ==> avail[s].memory == node.numa[s].memTotal
    ensures node.numa[s].mem != None && node.numa[s].mem.value >= 0 ==> avail[s].memory == node.numa[s].mem.value
    ensures node.numa[s].mem != None && node.numa[s].mem.value < 0 ==> avail[s].memory == 0
  {
    var active := Active(jobs, suspended, exclude);
    assert IsFree(node, jobs, active, s, avail[s]);
    assert Charged(jobs, active, s) == {};
  }

  /** The one job on a NUMA node is charged there if its limit is not above what the node offers, and only then. */
  lemma OneCharge(node: Node, jobs: JobTable, suspended: set<JobId>, exclude: Option<JobId>, order: seq<JobId>, s: int, j: JobId)
    requires s in node.numa && order == [j] && j in jobs && j !in suspended && exclude != Some(j) && jobs[j].mems == [s]
    ensures var left := Available(node, jobs, Active(jobs, suspended, exclude), order)[s].memory;
      && (jobs[j].limit <= NodeMemory(node.numa[s]) ==> left == NodeMemory(node.numa[s]) - jobs[j].limit)
      && (jobs[j].limit > NodeMemory(node.numa[s]) ==> left == NodeMemory(node.numa[s]))
  {
    var active, memory := Active(jobs, suspended, exclude), NodeMemory(node.numa[s]);
    assert order[..0] == [] && MemoryLeft(jobs, active, [], s, memory) == memory;
    assert MemoryLeft(jobs, active, order, s, memory) ==
      if j in active && jobs[j].limit <= memory then memory - jobs[j].limit else memory;
  }

  // ---------- the outer loop's bookkeeping ----------

  /** The state after the jobs in `done`, out of all that are `active`, have been subtracted. */
  ghost predicate Partly(node: Node, jobs: JobTable, active: set<JobId>, done: set<JobId>, avail: map<int, Avail>)
    requires done <= active <= jobs.Keys
  {
    avail.Keys == node.numa.Keys && forall s :: s in avail ==> PartlyOn(node, jobs, active, done, s, avail[s])
  }

  ghost predicate PartlyOn(node: Node, jobs: JobTable, active: set<JobId>, done: set<JobId>, s: int, a: Avail)
    requires done <= active <= jobs.Keys && s in node.numa
  {
    && a.cpus == Without(node.numa[s].cpus, TakenCpus(jobs, done, s))
    && a.devices == Without(DevicesOn(node, s), TakenDevices(node, jobs, done))
    && 0 <= a.memory <= NodeMemory(node.numa[s])
    && (ChargeSum(jobs, active, s) <= NodeMemory(node.numa[s])
        ==> a.memory == NodeMemory(node.numa[s]) - ChargeSum(jobs, done, s))
  }

  lemma NothingTaken(node: Node, jobs: JobTable, active: set<JobId>, avail: map<int, Avail>)
    requires active <= jobs.Keys && avail.Keys == node.numa.Keys
    requires forall s :: s in avail ==>
      avail[s] == Avail(node.numa[s].cpus, NodeMemory(node.numa[s]), DevicesOn(node, s))
    ensures Partly(node, jobs, active, {}, avail)
  {
    forall s | s in avail ensures PartlyOn(node, jobs, active, {}, s, avail[s]) {
      WithoutNone(node.numa[s].cpus);
      WithoutNone(DevicesOn(node, s));
      assert Charged(jobs, {}, s) == {};
      assert TakenCpus(jobs, {}, s) == {};
      assert TakenDevices(node, jobs, {}) == {};
    }
  }

  lemma PartlyDistinct(node: Node, jobs: JobTable, active: set<JobId>, done: set<JobId>, avail: map<int, Avail>)
    requires node.Valid() && done <= active <= jobs.Keys && Partly(node, jobs, active, done, avail)
    ensures forall s :: s in avail ==> Distinct(avail[s].cpus)
    ensures forall s :: s in avail ==> Distinct(avail[s].devices) && Elements(avail[s].devices) <= node.devices.Keys
  {
    forall s | s in avail
      ensures Distinct(avail[s].cpus) && Distinct(avail[s].devices) && Elements(avail[s].devices) <= node.devices.Keys
    {
      assert PartlyOn(node, jobs, active, done, s, avail[s]);
      WithoutElements(node.numa[s].cpus, TakenCpus(jobs, done, s));
      WithoutElements(node.deviceOrder, Elsewhere(node, s));
      WithoutElements(DevicesOn(node, s), TakenDevices(node, jobs, done));
    }
  }

  lemma AllTaken(node: Node, jobs: JobTable, active: set<JobId>, avail: map<int, Avail>)
    requires active <= jobs.Keys && Partly(node, jobs, active, active, avail)
    ensures IsAvailable(node, jobs, active, avail)
  {
  }

  lemma JobTaken(node: Node, jobs: JobTable, active: set<JobId>, done: set<JobId>, j: JobId,
                 before: map<int, Avail>, after: map<int, Avail>)
    requires done <= active <= jobs.Keys && j in active && j !in done
    requires Partly(node, jobs, active, done, before) && after.Keys == before.Keys
    requires forall s :: s in before ==> after[s] == Subtracted(node, before[s], jobs[j], s)
    ensures Partly(node, jobs, active, done + {j}, after)
  {
    forall s | s in after ensures PartlyOn(node, jobs, active, done + {j}, s, after[s]) {
      JobTakenOn(node, jobs, active, done, j, s, before[s], after[s]);
    }
  }

  /** One job's effect on one socket. */
  ghost function Subtracted(node: Node, a: Avail, use: JobUse, s: int): Avail {
    var b := if s in use.mems then WithoutCpus(a, use) else a;
    var c := WithoutMemory(b, use, s);
    c.(devices := Without(c.devices, Named(node, use.devices)))
  }

  lemma JobTakenOn(node: Node, jobs: JobTable, active: set<JobId>, done: set<JobId>, j: JobId, s: int, a: Avail, b: Avail)
    requires done <= active <= jobs.Keys && j in active && j !in done && s in node.numa
    requires PartlyOn(node, jobs, active, done, s, a) && b == Subtracted(node, a, jobs[j], s)
    ensures PartlyOn(node, jobs, active, done + {j}, s, b)
  {
    var use := jobs[j];
    var more := if s in use.mems then Elements(use.cpus) else {};
    WithoutTwice(node.numa[s].cpus, TakenCpus(jobs, done, s), more);
    WithoutNone(a.cpus);
    TakenOneMore(jobs, done, j, s);
    WithoutTwice(DevicesOn(node, s), TakenDevices(node, jobs, done), Named(node, use.devices));
    assert TakenDevices(node, jobs, done + {j}) == TakenDevices(node, jobs, done) + Named(node, use.devices);
    ChargeOne(jobs, active, done, j, s);
  }

  lemma TakenOneMore(jobs: JobTable, done: set<JobId>, j: JobId, s: int)
    requires done <= jobs.Keys && j in jobs
    ensures TakenCpus(jobs, done + {j}, s) ==
      TakenCpus(jobs, done, s) + if s in jobs[j].mems then Elements(jobs[j].cpus) else {}
  {
    forall c | c in TakenCpus(jobs, done + {j}, s)
      ensures c in TakenCpus(jobs, done, s) + if s in jobs[j].mems then Elements(jobs[j].cpus) else {}
    {
      var k :| k in done + {j} && s in jobs[k].mems && c in jobs[k].cpus;
      assert k != j ==> c in TakenCpus(jobs, done, s);
    }
    if s in jobs[j].mems {
      forall c | c in Elements(jobs[j].cpus) ensures c in TakenCpus(jobs, done + {j}, s) {
        assert j in done + {j} && s in jobs[j].mems && c in jobs[j].cpus;
      }
    }
  }

  lemma ChargeOne(jobs: JobTable, active: set<JobId>, done: set<JobId>, j: JobId, s: int)
    requires done <= active <= jobs.Keys && j in active && j !in done
    ensures ChargeSum(jobs, done + {j}, s) ==
      ChargeSum(jobs, done, s) + if jobs[j].mems == [s] then jobs[j].limit else 0
    ensures ChargeSum(jobs, done + {j}, s) <= ChargeSum(jobs, active, s)
  {
    var more := Charged(jobs, done + {j}, s);
    if jobs[j].mems == [s] {
      SumOverRemove(more, Limits(jobs), j);
      assert more - {j} == Charged(jobs, done, s);
    } else {
      assert more == Charged(jobs, done, s);
    }
    SumOverSubset(more, Charged(jobs, active, s), Limits(jobs));
  }
}
