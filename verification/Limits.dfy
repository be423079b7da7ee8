/** The interdependent memory, virtual-memory and soft-memory limits of one job. Sizes are in bytes. */
module Limits {
  import opened Collections

  const KB := 1024

  /** Conversion to whole kilobytes, rounding up. */
  function ToKb(n: nat): nat {
    (n + KB - 1) / KB * KB
  }

  datatype Settings = Settings(
    memory: bool,
    memsw: bool,
    hugetlb: bool,
    cpuset: bool,
    softLimit: bool,
    memDefault: Option<nat>,
    memswDefault: Option<nat>,
    hugetlbDefault: Option<nat>)

  /** What the node offers after its reserves. */
  datatype Offer = Offer(mem: nat, vmem: nat, hpmem: nat)

  /** The resources asked for on entry, as a value. */
  datatype Asked = Asked(ncpus: Option<int>, mem: Option<nat>, vmem: Option<nat>, hpmem: Option<nat>)

  datatype LimitError =
    | MemExceedsAvailable
    | VmemExceedsAvailable
    | VmemLimitExceedsRequested
    | NoSwap
    | HpmemExceedsAvailable
    | UnboundLocal

  /** The limits decided on, before they are written back. */
  datatype Decision = Decision(mem: nat, softmem: nat, vmem: nat)

  function Max(a: nat, b: nat): nat {
    if a < b then b else a
  }

  function Min(a: nat, b: nat): nat {
    if a < b then a else b
  }

  /** The available virtual memory is never taken to be less than the available memory. */
  function VmemAvail(o: Offer): nat {
    Max(o.vmem, o.mem)
  }

  /** The memory a job may expect: its request, else the configured default, else everything. */
  function BaseMem(c: Settings, a: Asked, o: Offer): nat {
    if a.mem.Some? then ToKb(a.mem.value)
    else if c.memory && c.memDefault.Some? then c.memDefault.value
    else o.mem
  }

  function BaseVmem(c: Settings, a: Asked, o: Offer): nat {
    if a.vmem.Some? then ToKb(a.vmem.value)
    else if c.memsw && c.memswDefault.Some? then c.memswDefault.value
    else VmemAvail(o)
  }

  /** The decision in closed form. */
  function Decide(c: Settings, a: Asked, o: Offer): Decision {
    var base := BaseMem(c, a, o);
    var vmem := Max(BaseVmem(c, a, o), base);
    Decision(if c.memory && c.softLimit then Min(vmem, o.mem) else base, base, vmem)
  }

  /** A request alone may exceed what is available. */
  function BaseRefusal(a: Asked, o: Offer): Option<LimitError> {
    if a.mem.Some? && ToKb(a.mem.value) > o.mem then Some(MemExceedsAvailable)
    else if a.vmem.Some? && ToKb(a.vmem.value) > VmemAvail(o) then Some(VmemExceedsAvailable)
    else None
  }

  /** Why the memory part refuses a job, checks in the order of the source. */
  function Refusal(c: Settings, a: Asked, o: Offer): Option<LimitError> {
    var d := Decide(c, a, o);
    if BaseRefusal(a, o).Some? then BaseRefusal(a, o)
    else if c.memory && c.memsw && a.vmem.Some? && d.vmem > ToKb(a.vmem.value) then Some(VmemLimitExceedsRequested)
    else if c.memory && c.memsw && d.vmem > d.mem && o.vmem <= o.mem then Some(NoSwap)
    else None
  }

  function HugePages(c: Settings, a: Asked, o: Offer): nat {
    if a.hpmem.Some? then ToKb(a.hpmem.value) else c.hugetlbDefault.GetOr(o.hpmem)
  }

  function AtLeastOne(n: Option<int>): int {
    if n.Some? && n.value >= 1 then n.value else 1
  }

  /** Why a job is refused altogether. */
  function LimitsRefusal(c: Settings, a: Asked, o: Offer): Option<LimitError> {
    if (c.memory || c.memsw) && Refusal(c, a, o).Some? then Refusal(c, a, o)
    else if c.hugetlb && !c.memory && !c.memsw then Some(UnboundLocal)
    else if c.hugetlb && HugePages(c, a, o) > o.hpmem then Some(HpmemExceedsAvailable)
    else None
  }

  /** The resources of an accepted job: what was asked for stays, and what was left open is filled in. */
  function Configured(c: Settings, a: Asked, o: Offer): Asked {
    Asked(
      if c.cpuset then Some(AtLeastOne(a.ncpus)) else a.ncpus,
      if c.memory && a.mem.None? then Some(Decide(c, a, o).mem) else a.mem,
      if c.memsw && a.vmem.None? then Some(Decide(c, a, o).vmem) else a.vmem,
      if c.hugetlb then Some(HugePages(c, a, o)) else a.hpmem)
  }

  /** The job's resource dictionary on this host, which the configuration step updates in place. */
  class HostResources {
    var ncpus: Option<int>
    var mem: Option<nat>
    var softmem: Option<nat>
    var vmem: Option<nat>
    var hpmem: Option<nat>

    constructor (a: Asked)
      ensures Ask() == a && softmem == None
    {
      ncpus, mem, softmem, vmem, hpmem := a.ncpus, a.mem, None, a.vmem, a.hpmem;
    }

    function Ask(): Asked
      reads this
    {
      Asked(ncpus, mem, vmem, hpmem)
    }

    /** The memory and virtual memory to start from: requests within what is available, else defaults, else everything. */
    method ChooseBases(c: Settings, o: Offer, memAvail: nat, vmemAvail: nat)
      returns (err: Option<LimitError>, memLimit: nat, vmemLimit: nat)
      requires memAvail == o.mem && vmemAvail == VmemAvail(o)
      ensures err == BaseRefusal(Ask(), o)
      ensures err.None? ==> memLimit == BaseMem(c, Ask(), o) && vmemLimit == BaseVmem(c, Ask(), o)
    {
      err, memLimit, vmemLimit := None, 0, 0;
      var memRequested := if mem.Some? then Some(ToKb(mem.value)) else None;
      var vmemRequested := if vmem.Some? then Some(ToKb(vmem.value)) else None;
      var memDefault := if c.memory then c.memDefault else None;
      var vmemDefault := if c.memsw then c.memswDefault else None;
      if memRequested.Some? {
        if memRequested.value > memAvail {
          return Some(MemExceedsAvailable), 0, 0;
        }
        memLimit := memRequested.value;
      } else if memDefault.None? {
        memLimit := memAvail;
      } else {
        memLimit := memDefault.value;
      }
      if vmemRequested.Some? {
        if vmemRequested.value > vmemAvail {
          return Some(VmemExceedsAvailable), 0, 0;
        }
        vmemLimit := vmemRequested.value;
      } else if vmemDefault.None? {
        vmemLimit := vmemAvail;
      } else {
        vmemLimit := vmemDefault.value;
      }
    }

    /** The mem, vmem and softmem limits. Nothing is written if the job is refused. */
    method ConfigureMemory(c: Settings, o: Offer) returns (err: Option<LimitError>)
      requires c.memory || c.memsw
      modifies this
      ensures err == Refusal(c, old(Ask()), o)
      ensures err.Some? ==> unchanged(this)
      ensures err.None? ==>
        var d := Decide(c, old(Ask()), o);
        && mem == (if c.memory && old(mem).None? then Some(d.mem) else old(mem))
        && softmem == (if c.memory && c.softLimit then Some(d.softmem) else old(softmem))
        && vmem == (if c.memsw && old(vmem).None? then Some(d.vmem) else old(vmem))
        && ncpus == old(ncpus) && hpmem == old(hpmem)
    {
      var memAvail, vmemAvail := o.mem, o.vmem;
      var vmemRequested := if vmem.Some? then Some(ToKb(vmem.value)) else None;
      if memAvail > vmemAvail {
        vmemAvail := memAvail;
      }
      var memLimit, vmemLimit, softLimit;
      err, memLimit, vmemLimit := ChooseBases(c, o, memAvail, vmemAvail);
      if err.Some? {
        return;
      }
      if vmemLimit < memLimit {
        vmemLimit := memLimit;
      }
      softLimit := memLimit;
      if c.memory && c.softLimit {
        if vmemLimit < memAvail {
          memLimit := vmemLimit;
        } else {
          memLimit := memAvail;
        }
      }
      // The second raise of the virtual limit in the source is dead code.
      if vmemLimit < memLimit {
        assert false;
      }
      if c.memory && c.memsw {
        if vmemRequested.Some? && vmemLimit > vmemRequested.value {
          return Some(VmemLimitExceedsRequested);
        }
        if vmemLimit > memLimit && vmemAvail <= memAvail {
          return Some(NoSwap);
        }
      }
      if c.memory {
        if mem.None? {
          mem := Some(memLimit);
        }
        if c.softLimit {
          softmem := Some(softLimit);
        }
      }
      if c.memsw && vmemRequested.None? {
        vmem := Some(vmemLimit);
      }
      return None;
    }

    /** All limits and the CPU count. Huge pages alone run into a local variable that was never set. */
    method ConfigureLimits(c: Settings, o: Offer) returns (err: Option<LimitError>)
      modifies this
      ensures err == LimitsRefusal(c, old(Ask()), o)
      ensures err.None? ==> Ask() == Configured(c, old(Ask()), o)
      ensures (c.memory || c.memsw) && Refusal(c, old(Ask()), o).Some? ==> unchanged(this)
      ensures (c.memory || c.memsw) && Refusal(c, old(Ask()), o).None? ==>
        && mem == Configured(c, old(Ask()), o).mem && vmem == Configured(c, old(Ask()), o).vmem
        && softmem == if c.memory && c.softLimit then Some(Decide(c, old(Ask()), o).softmem) else old(softmem)
      ensures !(c.memory || c.memsw) ==> mem == old(mem) && vmem == old(vmem) && softmem == old(softmem)
    {
      if c.memory || c.memsw {
        err := ConfigureMemory(c, o);
        if err.Some? {
          return;
        }
      }
      if c.hugetlb {
        if !c.memory && !c.memsw {
          return Some(UnboundLocal);
        }
        var hpDefault := if c.hugetlbDefault.None? then o.hpmem else c.hugetlbDefault.value;
        var hpLimit := if hpmem.Some? then ToKb(hpmem.value) else hpDefault;
        if hpLimit > o.hpmem {
          return Some(HpmemExceedsAvailable);
        }
        hpmem := Some(hpLimit);
      }
      if c.cpuset {
        var cpuLimit := 1;
        if ncpus.Some? {
          cpuLimit := ncpus.value;
        }
        if cpuLimit < 1 {
          cpuLimit := 1;
        }
        ncpus := Some(cpuLimit);
      }
      return None;
    }
  }

  // ---------- what the decision guarantees ----------

  predicate WholeKb(a: Asked) {
    (a.mem.Some? ==> a.mem.value % KB == 0) && (a.vmem.Some? ==> a.vmem.value % KB == 0)
  }

  lemma ToKbWhole(n: nat)
    ensures n % KB == 0 ==> ToKb(n) == n
    ensures ToKb(n) >= n && ToKb(n) - n < KB && ToKb(n) % KB == 0
    ensures KB == 1024
  {
  }

  /**
   * The limits of a job in plain numbers. Memory starts from the request in whole kilobytes, the default of the
   * memory controller, or all there is; virtual memory alike, from memsw's default or the larger of both totals.
   * It is raised to the memory, and a soft limit lets the memory grow up to it.
   */
  lemma DecideIs(c: Settings, a: Asked, o: Offer)
    ensures var mem := if a.mem.Some? then ToKb(a.mem.value) else if c.memory then c.memDefault.GetOr(o.mem) else o.mem;
      var most := if o.vmem < o.mem then o.mem else o.vmem;
      var vmem := if a.vmem.Some? then ToKb(a.vmem.value) else if c.memsw then c.memswDefault.GetOr(most) else most;
      var d := Decide(c, a, o);
      && d.softmem == mem && d.vmem == (if vmem < mem then mem else vmem)
      && (!(c.memory && c.softLimit) ==> d.mem == mem)
      && (c.memory && c.softLimit ==> d.mem == if d.vmem < o.mem then d.vmem else o.mem)
  {
  }

  /** Each refusal of the memory part, and when it is the one that is raised. */
  lemma RefusalIs(c: Settings, a: Asked, o: Offer)
    ensures var d := Decide(c, a, o);
      var memTooMuch := a.mem.Some? && ToKb(a.mem.value) > o.mem;
      var vmemTooMuch := a.vmem.Some? && ToKb(a.vmem.value) > o.mem && ToKb(a.vmem.value) > o.vmem;
      var raised := c.memory && c.memsw && a.vmem.Some? && d.softmem > ToKb(a.vmem.value);
      var swaps := c.memory && c.memsw && d.vmem > d.mem && o.vmem <= o.mem;
      && (Refusal(c, a, o) == Some(MemExceedsAvailable) <==> memTooMuch)
      && (Refusal(c, a, o) == Some(VmemExceedsAvailable) <==> !memTooMuch && vmemTooMuch)
      && (Refusal(c, a, o) == Some(VmemLimitExceedsRequested) <==> !memTooMuch && !vmemTooMuch && raised)
      && (Refusal(c, a, o) == Some(NoSwap) <==> !memTooMuch && !vmemTooMuch && !raised && swaps)
      && (Refusal(c, a, o) == None <==> !memTooMuch && !vmemTooMuch && !raised && !swaps)
  {
    DecideIs(c, a, o);
  }

  /** What a job that is accepted altogether ends up with, and why the rest is refused. */
  lemma ConfiguredIs(c: Settings, a: Asked, o: Offer)
    ensures var t := Configured(c, a, o);
      var d := Decide(c, a, o);
      var pages := if a.hpmem.Some? then ToKb(a.hpmem.value) else c.hugetlbDefault.GetOr(o.hpmem);
      var refused := (c.memory || c.memsw) && Refusal(c, a, o).Some?;
      && (LimitsRefusal(c, a, o) == Some(UnboundLocal) <==> c.hugetlb && !c.memory && !c.memsw)
      && (LimitsRefusal(c, a, o) == Some(HpmemExceedsAvailable) <==>
          !refused && c.hugetlb && (c.memory || c.memsw) && pages > o.hpmem)
      && (LimitsRefusal(c, a, o) == None <==> !refused && (c.hugetlb ==> (c.memory || c.memsw) && pages <= o.hpmem))
      && (refused ==> LimitsRefusal(c, a, o) == Refusal(c, a, o))
      && t.ncpus == (if !c.cpuset || a.ncpus.GetOr(0) >= 1 then a.ncpus else Some(1))
      && t.mem == (if a.mem.Some? || !c.memory then a.mem else Some(d.mem))
      && t.vmem == (if a.vmem.Some? || !c.memsw then a.vmem else Some(d.vmem))
      && t.hpmem == (if c.hugetlb then Some(pages) else a.hpmem)
  {
    RefusalIs(c, a, o);
  }

  /** The limits as written for an accepted job. */
  function WrittenMem(c: Settings, a: Asked, o: Offer): nat {
    a.mem.GetOr(Decide(c, a, o).mem)
  }

  function WrittenVmem(c: Settings, a: Asked, o: Offer): nat {
    a.vmem.GetOr(Decide(c, a, o).vmem)
  }

  /**
   * An accepted job with both controllers on and requests in whole kilobytes: its written memory is at most
   * its written virtual memory, swap is promised only if there is some, and the soft limit stays within the
   * memory limit exactly when it does not come from a default that exceeds the available memory.
   */
  lemma AcceptedLimits(c: Settings, a: Asked, o: Offer)
    requires c.memory && c.memsw && WholeKb(a) && Refusal(c, a, o).None?
    ensures WrittenMem(c, a, o) <= WrittenVmem(c, a, o) <= Max(VmemAvail(o), Max(BaseVmem(c, a, o), BaseMem(c, a, o)))
    ensures Decide(c, a, o).vmem > Decide(c, a, o).mem ==> o.vmem > o.mem
    ensures c.softLimit ==>
      (Decide(c, a, o).softmem <= WrittenMem(c, a, o) <==> a.mem.Some? || c.memDefault.None? || c.memDefault.value <= o.mem)
  {
    if a.mem.Some? {
      ToKbWhole(a.mem.value);
    }
    if a.vmem.Some? {
      ToKbWhole(a.vmem.value);
    }
  }

  /** Requests below a whole kilobyte are compared after rounding, so memory may end above virtual memory. */
  lemma PartKilobyteExample()
    ensures var c := Settings(true, true, false, true, false, Some(0), Some(0), None);
      var a := Asked(Some(1), Some(2000), Some(1500), None);
      var o := Offer(1048576, 2097152, 0);
      Refusal(c, a, o).None? && WrittenMem(c, a, o) > WrittenVmem(c, a, o)
  {
  }

  /** The same from virtual memory alone: the memory limit is taken from the rounded-up virtual limit. */
  lemma VirtualAloneExample()
    ensures var c := Settings(true, true, false, true, true, Some(0), Some(0), None);
      var a := Asked(Some(1), None, Some(1500), None);
      var o := Offer(1048576, 2097152, 0);
      Refusal(c, a, o).None? && WrittenMem(c, a, o) == 2048 && WrittenVmem(c, a, o) == 1500
  {
  }

  /** The memory that an accepted request for virtual memory has to cover, before any rounding of that request. */
  function MemoryToCover(c: Settings, a: Asked, o: Offer): nat {
    if a.mem.Some? then a.mem.value
    else if c.softLimit then o.mem
    else BaseMem(c, a, o)
  }

  /**
   * Exactly when an accepted job is written with memory within its virtual memory: if it asks for no
   * virtual memory, or for whole kilobytes of it, or for enough to cover the memory without rounding up. When
   * both are requested, rounding to the same kilobyte is the only way to end out of order.
   */
  lemma WrittenOrder(c: Settings, a: Asked, o: Offer)
    requires c.memory && c.memsw && Refusal(c, a, o).None?
    ensures WrittenMem(c, a, o) <= WrittenVmem(c, a, o) <==>
      a.vmem.None? || a.vmem.value % KB == 0 || MemoryToCover(c, a, o) <= a.vmem.value
    ensures a.mem.Some? && a.vmem.Some? && WrittenMem(c, a, o) > WrittenVmem(c, a, o) ==>
      ToKb(a.mem.value) == ToKb(a.vmem.value)
  {
    if a.mem.Some? {
      ToKbWhole(a.mem.value);
    }
    if a.vmem.Some? {
      ToKbWhole(a.vmem.value);
    }
    if a.mem.Some? && a.vmem.Some? {
      ToKbMonotone(a.mem.value, a.vmem.value);
      ToKbMonotone(a.vmem.value, a.mem.value);
    }
  }

  lemma ToKbMonotone(x: nat, y: nat)
    ensures x <= y ==> ToKb(x) <= ToKb(y)
  {
  }
}
