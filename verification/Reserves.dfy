/** Memory of the host after reserves, and its spread over the NUMA nodes. Sizes are in bytes. */
module Reserves {
  import opened Collections

  const MB := 1048576

  datatype Reserve = Reserve(percent: int, amount: nat)

  datatype Host = Host(
    memTotal: nat,
    swapTotal: nat,
    pageSize: nat,
    pagesTotal: nat,
    pagesReserved: nat,
    memory: Reserve,
    memsw: Reserve,
    hugetlb: Reserve)

  datatype MemError = TotalInvalid | TooMuchReserved | DivisionByZero

  function RoundDown(n: int, unit: int): int
    requires unit > 0
  {
    n - n % unit
  }

  /** The reserve on a total. The percentage is divided by 100 in whole numbers, so below 100 it counts for nothing. */
  function ReservedOn(total: int, r: Reserve): int {
    total * (r.percent / 100) + r.amount
  }

  function Remaining(total: int, r: Reserve, ignoreReserved: bool, unit: int): int
    requires unit > 0
  {
    RoundDown(total - if ignoreReserved then 0 else ReservedOn(total, r), unit)
  }

  /** Physical memory on the host. */
  function MemoryOnNode(h: Host, ignoreReserved: bool): Result<nat, MemError> {
    if h.memTotal == 0 then Err(TotalInvalid)
    else
      var left := Remaining(h.memTotal, h.memory, ignoreReserved, MB);
      if left <= 0 then Err(TooMuchReserved) else Ok(left)
  }

  /** Virtual memory on the host; it always starts from the memory left after the memory reserve. */
  function VmemOnNode(h: Host, ignoreReserved: bool): Result<nat, MemError> {
    match MemoryOnNode(h, false)
    case Err(e) => Err(e)
    case Ok(mem) =>
      var left := Remaining(mem + h.swapTotal, h.memsw, ignoreReserved, MB);
      if left <= 0 then Err(TooMuchReserved) else Ok(left)
  }

  /** Huge-page memory on the host. */
  function HpmemOnNode(h: Host, ignoreReserved: bool): Result<nat, MemError> {
    var total := h.pageSize * (h.pagesTotal - h.pagesReserved);
    if total <= 0 then Ok(0)
    else
      PageSizePositive(h.pageSize, h.pagesTotal - h.pagesReserved);
      var left := Remaining(total, h.hugetlb, ignoreReserved, h.pageSize);
      if left <= 0 then Err(TooMuchReserved) else Ok(left)
  }

  lemma PageSizePositive(size: nat, pages: int)
    requires size * pages > 0
    ensures size > 0
  {
  }

  /** The facts about one NUMA node, and what the spread assigns to it. */
  datatype NodeFacts = NodeFacts(memTotal: nat, pages: nat)
  datatype Share = Share(hpmem: int, mem: int, vmem: int)

  /** One node's part of a host reserve. */
  function NodeReserve(host: int, kept: int, nodes: int, unit: int): int
    requires nodes > 0 && unit > 0
  {
    RoundDown((if host - kept < 0 then 0 else host - kept) / nodes, unit)
  }

  /** The host figures that the spread is computed from. */
  datatype Figures = Figures(hpmem: nat, hpmemKept: nat, mem: nat, memKept: nat, vmem: nat, vmemKept: nat)

  function HostFigures(h: Host): Result<Figures, MemError> {
    match HpmemOnNode(h, true)
    case Err(e) => Err(e)
    case Ok(hpAll) =>
      match HpmemOnNode(h, false)
      case Err(e) => Err(e)
      case Ok(hpKept) =>
        if h.pageSize == 0 then Err(DivisionByZero)
        else
          match MemoryOnNode(h, true)
          case Err(e) => Err(e)
          case Ok(memAll) =>
            match MemoryOnNode(h, false)
            case Err(e) => Err(e)
            case Ok(memKept) =>
              match VmemOnNode(h, true)
              case Err(e) => Err(e)
              case Ok(vmemAll) =>
                match VmemOnNode(h, false)
                case Err(e) => Err(e)
                case Ok(vmemKept) => Ok(Figures(hpAll, hpKept, memAll, memKept, vmemAll, vmemKept))
  }

  function ShareOf(f: Figures, pageSize: nat, n: NodeFacts, nodes: nat): Share
    requires nodes > 0 && pageSize > 0
  {
    Share(
      n.pages * pageSize - NodeReserve(f.hpmem, f.hpmemKept, nodes, pageSize),
      RoundDown(n.memTotal, MB) - NodeReserve(f.mem, f.memKept, nodes, MB),
      RoundDown(f.vmem / nodes, MB) - NodeReserve(f.vmem, f.vmemKept, nodes, MB))
  }

  /** Spread the host's memory over its NUMA nodes. */
  method SpreadMemory(h: Host, nodes: map<int, NodeFacts>) returns (r: Result<map<int, Share>, MemError>)
    requires nodes != map[]
    ensures HostFigures(h).Err? ==> r == Err(HostFigures(h).error)
    ensures HostFigures(h).Ok? ==> r.Ok? && h.pageSize > 0 && |nodes| > 0 && r.value.Keys == nodes.Keys
    ensures HostFigures(h).Ok? ==>
      forall s :: s in nodes ==> r.value[s] == ShareOf(HostFigures(h).value, h.pageSize, nodes[s], |nodes|)
  {
    var figures := HostFigures(h);
    if figures.Err? {
      return Err(figures.error);
    }
    var f := figures.value;
    var count := |nodes|;
    NonEmpty(nodes);
    var resvHpmem := f.hpmem - f.hpmemKept;
    if resvHpmem < 0 {
      resvHpmem := 0;
    }
    var nodeHpmem := resvHpmem / count;
    nodeHpmem := nodeHpmem - nodeHpmem % h.pageSize;
    var resvMem := f.mem - f.memKept;
    if resvMem < 0 {
      resvMem := 0;
    }
    var nodeMem := resvMem / count;
    nodeMem := nodeMem - nodeMem % MB;
    var resvVmem := f.vmem - f.vmemKept;
    if resvVmem < 0 {
      resvVmem := 0;
    }
    var nodeVmem := resvVmem / count;
    nodeVmem := nodeVmem - nodeVmem % MB;
    var shares := Shares(f, h.pageSize, nodes, nodeHpmem, nodeMem, nodeVmem);
    return Ok(shares);
  }

  method Shares(f: Figures, pageSize: nat, nodes: map<int, NodeFacts>, nodeHpmem: int, nodeMem: int, nodeVmem: int)
    returns (shares: map<int, Share>)
    requires |nodes| > 0 && pageSize > 0
    requires nodeHpmem == NodeReserve(f.hpmem, f.hpmemKept, |nodes|, pageSize)
    requires nodeMem == NodeReserve(f.mem, f.memKept, |nodes|, MB) && nodeVmem == NodeReserve(f.vmem, f.vmemKept, |nodes|, MB)
    ensures shares.Keys == nodes.Keys
    ensures forall s :: s in nodes ==> shares[s] == ShareOf(f, pageSize, nodes[s], |nodes|)
  {
    shares := map[];
    var todo := nodes.Keys;
    while todo != {}
      invariant todo <= nodes.Keys && shares.Keys == nodes.Keys - todo
      invariant forall s :: s in shares ==> shares[s] == ShareOf(f, pageSize, nodes[s], |nodes|)
    {
      assert exists s :: s in todo by {
        var s := Any(todo);
      }
      var s: int :| s in todo;
      todo := todo - {s};
      var hpmem := nodes[s].pages * pageSize;
      hpmem := hpmem - nodeHpmem;
      var mem := nodes[s].memTotal;
      mem := mem - mem % MB;
      var vmem := f.vmem / |nodes|;
      vmem := vmem - vmem % MB;
      shares := shares[s := Share(hpmem, mem - nodeMem, vmem - nodeVmem)];
    }
  }

  lemma NonEmpty(nodes: map<int, NodeFacts>)
    requires nodes != map[]
    ensures |nodes| > 0
  {
  }

  // ---------- bounds ----------

  lemma MultiplesOf(a: int, b: int, unit: int)
    requires unit > 0
    ensures (RoundDown(a, unit) - RoundDown(b, unit)) % unit == 0
    ensures RoundDown(a, unit) % unit == 0
  {
    var x, y := a / unit, b / unit;
    assert RoundDown(a, unit) == unit * x && RoundDown(b, unit) == unit * y;
    ExactMultiple(x, unit);
    ExactMultiple(x - y, unit);
    assert unit * (x - y) == unit * x - unit * y;
  }

  lemma ExactMultiple(q: int, unit: int)
    requires unit > 0
    ensures (unit * q) % unit == 0
  {
    var x, y := (unit * q) / unit, (unit * q) % unit;
    assert unit * q == unit * x + y;
    if q > x {
      Scale(x + 1, q, unit);
    }
    if q < x {
      Scale(q + 1, x, unit);
    }
  }

  lemma Scale(a: int, b: int, k: int)
    requires a <= b && k > 0
    ensures k * a <= k * b
  {
  }

  /** Giving each of n nodes a rounded-down n-th part gives away at most the whole, and all but less than n units. */
  lemma PartsOf(total: nat, n: nat, unit: nat)
    requires n > 0 && unit > 0
    ensures var part := RoundDown(total / n, unit);
      0 <= part && n * part <= total < n * part + n * unit
  {
    var f := total / n;
    var part := RoundDown(f, unit);
    assert total == n * f + total % n;
    assert f >= 0 && f % unit <= f;
    PartBounds(total, n, unit, f, part);
  }

  lemma PartBounds(total: int, n: int, unit: int, f: int, part: int)
    requires n > 0 && part <= f <= part + unit - 1 && n * f <= total < n * f + n
    ensures n * part <= total < n * part + n * unit
  {
    Scale(part, f, n);
    Scale(f, part + unit - 1, n);
    assert n * (part + unit - 1) == n * part + n * unit - n;
  }

  /** With percentages that are not negative, a reserve can only lower a host figure. */
  lemma KeptIsLess(h: Host)
    requires HostFigures(h).Ok? && h.memory.percent >= 0 && h.memsw.percent >= 0 && h.hugetlb.percent >= 0
    ensures var f := HostFigures(h).value;
      f.memKept <= f.mem && f.vmemKept <= f.vmem && f.hpmemKept <= f.hpmem
  {
    KeptPagesAreLess(h);
    var mem := HostFigures(h).value.memKept;
    LessAfterReserve(h.memTotal, h.memory, MB);
    LessAfterReserve(mem + h.swapTotal, h.memsw, MB);
  }

  lemma KeptPagesAreLess(h: Host)
    requires h.hugetlb.percent >= 0 && HpmemOnNode(h, true).Ok? && HpmemOnNode(h, false).Ok?
    ensures HpmemOnNode(h, false).value <= HpmemOnNode(h, true).value
  {
    var pages := h.pageSize * (h.pagesTotal - h.pagesReserved);
    if pages > 0 {
      PageSizePositive(h.pageSize, h.pagesTotal - h.pagesReserved);
      LessAfterReserve(pages, h.hugetlb, h.pageSize);
    }
  }

  lemma LessAfterReserve(total: nat, r: Reserve, unit: nat)
    requires unit > 0 && r.percent >= 0
    ensures Remaining(total, r, false, unit) <= Remaining(total, r, true, unit)
  {
    var reserved := ReservedOn(total, r);
    assert reserved >= 0 by {
      Product(total, r.percent / 100);
    }
    RoundMono(total - reserved, total, unit);
  }

  lemma Product(a: nat, b: nat)
    ensures a * b >= 0
  {
  }

  lemma RoundMono(a: int, b: int, unit: int)
    requires a <= b && unit > 0
    ensures RoundDown(a, unit) <= RoundDown(b, unit)
  {
    var x, y := a / unit, b / unit;
    assert a == unit * x + a % unit && b == unit * y + b % unit;
    if y < x {
      Scale(y + 1, x, unit);
    }
    Scale(if x <= y then x else y, y, unit);
  }

  /** What is left of a host figure: a reserve that would raise it, from a negative percentage, counts as none. */
  function Least(all: nat, kept: nat): nat {
    if kept < all then kept else all
  }

  /** The part of the host reserve that the nodes bear, and how close n equal parts come to it. */
  lemma ReserveParts(all: nat, kept: nat, n: nat, unit: nat)
    requires n > 0 && unit > 0
    ensures var part := NodeReserve(all, kept, n, unit);
      part % unit == 0 && n * part <= all - Least(all, kept) < n * part + n * unit
  {
    PartsOf(all - Least(all, kept), n, unit);
    MultiplesOf((all - Least(all, kept)) / n, 0, unit);
  }

  /**
   * The spread: per-node memory and virtual memory are whole megabytes and huge-page memory whole pages;
   * the n virtual shares add up to what the reserve leaves of the host's virtual memory within less than n
   * megabytes; and each reserve taken off the nodes never exceeds the host's reserve and falls short of it
   * by less than n units.
   */
  lemma SpreadBounds(h: Host, nodes: map<int, NodeFacts>, s: int)
    requires HostFigures(h).Ok? && s in nodes && h.pageSize > 0 && |nodes| > 0
    ensures var f := HostFigures(h).value;
      var n := |nodes|;
      var share := ShareOf(f, h.pageSize, nodes[s], n);
      var taken := RoundDown(nodes[s].memTotal, MB) - share.mem;
      var pagesTaken := nodes[s].pages * h.pageSize - share.hpmem;
      && share.mem % MB == 0 && share.vmem % MB == 0 && share.hpmem % h.pageSize == 0
      && Least(f.vmem, f.vmemKept) - n * MB < n * share.vmem < Least(f.vmem, f.vmemKept) + n * MB
      && n * taken <= f.mem - Least(f.mem, f.memKept) < n * taken + n * MB
      && n * pagesTaken <= f.hpmem - Least(f.hpmem, f.hpmemKept) < n * pagesTaken + n * h.pageSize
  {
    var f := HostFigures(h).value;
    var n := |nodes|;
    MegabyteShares(f, nodes[s], n, h.pageSize);
    PageShares(f, nodes[s], n, h.pageSize);
  }

  lemma MegabyteShares(f: Figures, node: NodeFacts, n: nat, pageSize: nat)
    requires n > 0 && pageSize > 0
    ensures var share := ShareOf(f, pageSize, node, n);
      && share.mem % MB == 0 && share.vmem % MB == 0
      && Least(f.vmem, f.vmemKept) - n * MB < n * share.vmem < Least(f.vmem, f.vmemKept) + n * MB
      && var taken := RoundDown(node.memTotal, MB) - share.mem;
        n * taken <= f.mem - Least(f.mem, f.memKept) < n * taken + n * MB
  {
    ReserveParts(f.mem, f.memKept, n, MB);
    MultiplesOf(node.memTotal, (f.mem - Least(f.mem, f.memKept)) / n, MB);
    VirtualPart(f.vmem, f.vmemKept, n, MB);
  }

  lemma VirtualPart(all: nat, kept: nat, n: nat, unit: nat)
    requires n > 0 && unit > 0
    ensures var part := RoundDown(all / n, unit) - NodeReserve(all, kept, n, unit);
      part % unit == 0 && Least(all, kept) - n * unit < n * part < Least(all, kept) + n * unit
  {
    MultiplesOf(all / n, (all - Least(all, kept)) / n, unit);
    PartsOf(all, n, unit);
    ReserveParts(all, kept, n, unit);
    Difference(n, RoundDown(all / n, unit), NodeReserve(all, kept, n, unit));
  }

  lemma PageShares(f: Figures, node: NodeFacts, n: nat, pageSize: nat)
    requires n > 0 && pageSize > 0
    ensures var share := ShareOf(f, pageSize, node, n);
      var pagesTaken := node.pages * pageSize - share.hpmem;
      && share.hpmem % pageSize == 0
      && n * pagesTaken <= f.hpmem - Least(f.hpmem, f.hpmemKept) < n * pagesTaken + n * pageSize
  {
    ReserveParts(f.hpmem, f.hpmemKept, n, pageSize);
    WholePages(node.pages, NodeReserve(f.hpmem, f.hpmemKept, n, pageSize), pageSize);
  }

  lemma WholePages(pages: nat, reserve: int, pageSize: nat)
    requires pageSize > 0 && reserve % pageSize == 0
    ensures (pages * pageSize - reserve) % pageSize == 0
  {
    var k := reserve / pageSize;
    assert reserve == pageSize * k;
    Difference(pageSize, pages, k);
    ExactMultiple(pages - k, pageSize);
  }

  lemma Difference(n: int, a: int, b: int)
    ensures n * (a - b) == n * a - n * b
  {
  }

  // ---------- the host figures in plain numbers ----------

  /** What is left of a total without its reserve: whole units, and less than one unit is lost. */
  lemma RemainingIs(total: int, r: Reserve, ignoreReserved: bool, unit: int, left: int)
    requires unit > 0 && left == total - if ignoreReserved then 0 else total * (r.percent / 100) + r.amount
    ensures var kept := Remaining(total, r, ignoreReserved, unit);
      kept % unit == 0 && kept <= left < kept + unit && (kept <= 0 <==> left < unit)
  {
    RoundDownIs(left, unit);
  }

  lemma RoundDownIs(n: int, unit: int)
    requires unit > 0
    ensures RoundDown(n, unit) % unit == 0 && RoundDown(n, unit) <= n < RoundDown(n, unit) + unit
    ensures RoundDown(n, unit) <= 0 <==> n < unit
  {
    MultiplesOf(n, 0, unit);
    if n >= unit {
      RoundMono(unit, n, unit);
    }
  }

  /** Memory is what the kernel reports without the reserve; it is refused where less than a megabyte is left. */
  lemma MemoryIs(h: Host, ignoreReserved: bool)
    ensures var left := h.memTotal - if ignoreReserved then 0 else h.memTotal * (h.memory.percent / 100) + h.memory.amount;
      var r := MemoryOnNode(h, ignoreReserved);
      && (r == Err(TotalInvalid) <==> h.memTotal == 0)
      && (r == Err(TooMuchReserved) <==> h.memTotal > 0 && left < 1048576)
      && (r.Ok? ==> r.value % 1048576 == 0 && r.value <= left < r.value + 1048576)
      && r != Err(DivisionByZero)
  {
    var left := h.memTotal - if ignoreReserved then 0 else h.memTotal * (h.memory.percent / 100) + h.memory.amount;
    RemainingIs(h.memTotal, h.memory, ignoreReserved, MB, left);
  }

  /** Virtual memory is swap and the memory that its own reserve leaves, again without a reserve. */
  lemma VmemIs(h: Host, ignoreReserved: bool)
    ensures MemoryOnNode(h, false).Err? ==> VmemOnNode(h, ignoreReserved) == Err(MemoryOnNode(h, false).error)
    ensures MemoryOnNode(h, false).Ok? ==>
      var total := MemoryOnNode(h, false).value + h.swapTotal;
      var left := total - if ignoreReserved then 0 else total * (h.memsw.percent / 100) + h.memsw.amount;
      var r := VmemOnNode(h, ignoreReserved);
      && (r == Err(TooMuchReserved) <==> left < 1048576)
      && (r.Ok? <==> left >= 1048576)
      && (r.Ok? ==> r.value % 1048576 == 0 && r.value <= left < r.value + 1048576)
  {
    if MemoryOnNode(h, false).Ok? {
      var total := MemoryOnNode(h, false).value + h.swapTotal;
      VmemLeft(h, ignoreReserved, total, total - if ignoreReserved then 0 else total * (h.memsw.percent / 100) + h.memsw.amount);
    }
  }

  lemma VmemLeft(h: Host, ignoreReserved: bool, total: int, left: int)
    requires MemoryOnNode(h, false).Ok? && total == MemoryOnNode(h, false).value + h.swapTotal
    requires left == total - if ignoreReserved then 0 else total * (h.memsw.percent / 100) + h.memsw.amount
    ensures var r := VmemOnNode(h, ignoreReserved);
      && (r == Err(TooMuchReserved) <==> left < 1048576)
      && (r.Ok? <==> left >= 1048576)
      && (r.Ok? ==> r.value % 1048576 == 0 && r.value <= left < r.value + 1048576)
  {
    RemainingIs(total, h.memsw, ignoreReserved, MB, left);
  }

  /** Huge pages: none at all is not an error, but a reserve that leaves less than one page is. */
  lemma HpmemIs(h: Host, ignoreReserved: bool)
    ensures var total := h.pageSize * (h.pagesTotal - h.pagesReserved);
      var left := total - if ignoreReserved then 0 else total * (h.hugetlb.percent / 100) + h.hugetlb.amount;
      var r := HpmemOnNode(h, ignoreReserved);
      && (total <= 0 ==> r == Ok(0))
      && (total > 0 ==> h.pageSize > 0)
      && (total > 0 && left < h.pageSize ==> r == Err(TooMuchReserved))
      && (total > 0 && left >= h.pageSize ==>
          r.Ok? && r.value % h.pageSize == 0 && r.value <= left < r.value + h.pageSize)
  {
    var total := h.pageSize * (h.pagesTotal - h.pagesReserved);
    if total > 0 {
      PageSizePositive(h.pageSize, h.pagesTotal - h.pagesReserved);
      var left := total - if ignoreReserved then 0 else total * (h.hugetlb.percent / 100) + h.hugetlb.amount;
      RemainingIs(total, h.hugetlb, ignoreReserved, h.pageSize, left);
    }
  }

  /** The spread needs all six figures and a page size, and fails with the first that is missing. */
  lemma FiguresAre(h: Host)
    ensures HostFigures(h).Ok? <==>
      (&& h.pageSize > 0 && HpmemOnNode(h, true).Ok? && HpmemOnNode(h, false).Ok?
       && MemoryOnNode(h, true).Ok? && MemoryOnNode(h, false).Ok? && VmemOnNode(h, true).Ok? && VmemOnNode(h, false).Ok?)
    ensures HostFigures(h).Ok? ==>
      var f := HostFigures(h).value;
      && Ok(f.hpmem) == HpmemOnNode(h, true) && Ok(f.hpmemKept) == HpmemOnNode(h, false)
      && Ok(f.mem) == MemoryOnNode(h, true) && Ok(f.memKept) == MemoryOnNode(h, false)
      && Ok(f.vmem) == VmemOnNode(h, true) && Ok(f.vmemKept) == VmemOnNode(h, false)
    ensures HpmemOnNode(h, false).Ok? ==> (HostFigures(h) == Err(DivisionByZero) <==> h.pageSize == 0)
    ensures HostFigures(h) == Err(TotalInvalid) ==> h.memTotal == 0
  {
    HpmemIs(h, true);
    HpmemIs(h, false);
    MemoryIs(h, true);
    MemoryIs(h, false);
  }

  // ---------- percentages ----------

  /** A reserve percentage has no effect exactly when it lies below one hundred. */
  lemma SmallPercentIgnored(total: nat, r: Reserve)
    requires total > 0
    ensures ReservedOn(total, r) == r.amount <==> 0 <= r.percent < 100
  {
    var q := r.percent / 100;
    if q > 0 {
      Scale(1, q, total);
    }
    if q < 0 {
      Scale(q, -1, total);
    }
  }

  /**
   * Dividing the percentage before multiplying reserves the intended share exactly when what the division
   * drops is worth less than one byte.
   */
  lemma ShareReservedIff(total: nat, percent: int)
    ensures total * percent / 100 == total * (percent / 100) <==> total * (percent % 100) < 100
  {
    var q, r := percent / 100, percent % 100;
    Difference(total, percent, 100 * q);
    assert total * (100 * q) == 100 * (total * q);
    Product(total, r);
    Quotient(total * q, total * r, total * percent);
  }

  lemma Quotient(whole: int, rest: nat, n: int)
    requires n == 100 * whole + rest
    ensures n / 100 == whole <==> rest < 100
  {
  }

  /** A percentage of one hundred or more leaves nothing, so no spread succeeds with one. */
  lemma FullPercentFails(h: Host)
    ensures h.memTotal > 0 && h.memory.percent >= 100 ==> MemoryOnNode(h, false) == Err(TooMuchReserved)
    ensures MemoryOnNode(h, false).Ok? && h.memsw.percent >= 100 ==> VmemOnNode(h, false) == Err(TooMuchReserved)
    ensures h.pageSize * (h.pagesTotal - h.pagesReserved) > 0 && h.hugetlb.percent >= 100 ==>
      HpmemOnNode(h, false) == Err(TooMuchReserved)
    ensures HostFigures(h).Ok? ==> h.memory.percent < 100 && h.memsw.percent < 100
  {
    NothingLeft(h.memTotal, h.memory, MB);
    if MemoryOnNode(h, false).Ok? {
      NothingLeft(MemoryOnNode(h, false).value + h.swapTotal, h.memsw, MB);
    }
    var pages := h.pageSize * (h.pagesTotal - h.pagesReserved);
    if pages > 0 {
      PageSizePositive(h.pageSize, h.pagesTotal - h.pagesReserved);
      NothingLeft(pages, h.hugetlb, h.pageSize);
    }
  }

  lemma NothingLeft(total: nat, r: Reserve, unit: nat)
    requires unit > 0
    ensures r.percent >= 100 ==> Remaining(total, r, false, unit) <= 0
  {
    if r.percent >= 100 {
      Scale(1, r.percent / 100, if total > 0 then total else 1);
      assert ReservedOn(total, r) >= total;
      RoundMono(total - ReservedOn(total, r), 0, unit);
    }
  }
}
