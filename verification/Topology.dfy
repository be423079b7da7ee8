/** Discovery of hyperthread siblings from the processor table, and what the resulting map means. */
module Topology {
  import opened Collections
  import opened CpuSelection

  /** The fields of one processor record that discovery reads; a missing field raises KeyError. */
  datatype CpuEntry = CpuEntry(
    intel: Option<bool>,
    hasHt: Option<bool>,
    siblings: Option<nat>,
    cpuCores: Option<nat>,
    physicalId: Option<nat>,
    coreId: Option<nat>)

  type CpuTable = map<int, CpuEntry>

  /** Two processors on one physical core. */
  predicate Same(cpus: CpuTable, x: int, y: int)
    requires x in cpus && y in cpus
  {
    cpus[x].physicalId == cpus[y].physicalId && cpus[x].coreId == cpus[y].coreId
  }

  /** The comparison of two processors that raises no KeyError. */
  predicate Readable(cpus: CpuTable, x: int, y: int)
    requires x in cpus && y in cpus
  {
    && cpus[x].physicalId.Some? && cpus[y].physicalId.Some?
    && (cpus[x].physicalId == cpus[y].physicalId ==> cpus[x].coreId.Some? && cpus[y].coreId.Some?)
  }

  predicate AllReadable(cpus: CpuTable) {
    forall x, y :: x in cpus && y in cpus && x < y ==> Readable(cpus, x, y)
  }

  /** The processors of x's core with a larger id. */
  function Later(cpus: CpuTable, x: int): set<int>
    requires x in cpus
  {
    set y | y in cpus && x < y && Same(cpus, x, y)
  }

  /** The map has been built: larger siblings are attached to each processor and listed as hyperthreads. */
  ghost predicate Mapped(cpus: CpuTable, info: CpuInfo) {
    && info.threads.Keys == cpus.Keys
    && (forall x :: x in cpus ==> Elements(info.threads[x]) == Later(cpus, x))
    && (forall y :: y in info.hyperthreads <==> exists x :: x in cpus && y in Later(cpus, x))
  }

  /** The threads per core that the first processor record announces; 1 where it says nothing usable. */
  function PerCore(cpus: CpuTable): nat {
    if 0 in cpus && cpus[0].intel == Some(true) && cpus[0].hasHt == Some(true)
       && cpus[0].siblings.Some? && cpus[0].cpuCores.Some? && cpus[0].cpuCores.value > 0
    then cpus[0].siblings.value / cpus[0].cpuCores.value
    else 1
  }

  /** The larger siblings of a CPU among the listed ones, in the order of the list. */
  function Row(cpus: CpuTable, list: seq<int>, x: int): seq<int>
    requires x in cpus
  {
    Without(list, cpus.Keys - Later(cpus, x))
  }

  /** The comparison of a CPU with the one at position `j` is the first that meets a missing field. */
  ghost predicate StopsAt(cpus: CpuTable, order: seq<int>, x: int, j: int)
    requires x in cpus
  {
    && 0 <= j < |order| && order[j] in cpus && x < order[j] && !Readable(cpus, x, order[j])
    && forall k :: 0 <= k < j && order[k] in cpus && x < order[k] ==> Readable(cpus, x, order[k])
  }

  lemma RowElements(cpus: CpuTable, order: seq<int>, x: int)
    requires x in cpus && Elements(order) == cpus.Keys
    ensures Elements(Row(cpus, order, x)) == Later(cpus, x)
  {
    WithoutElements(order, cpus.Keys - Later(cpus, x));
  }

  /** The inner loop: the siblings of `xid` with a larger id, in the table's order, up to the first KeyError. */
  method MapRow(cpus: CpuTable, order: seq<int>, xid: int) returns (ok: bool, row: seq<int>)
    requires Distinct(order) && Elements(order) == cpus.Keys && xid in cpus
    ensures ok <==> forall y :: y in cpus && xid < y ==> Readable(cpus, xid, y)
    ensures ok ==> row == Row(cpus, order, xid) && Elements(row) == Later(cpus, xid)
    ensures !ok ==> exists j :: StopsAt(cpus, order, xid, j) && row == Row(cpus, order[..j], xid)
  {
    row := [];
    var j := 0;
    while j < |order|
      invariant 0 <= j <= |order|
      invariant row == Row(cpus, order[..j], xid)
      invariant forall k :: 0 <= k < j && order[k] in cpus && xid < order[k] ==> Readable(cpus, xid, order[k])
    {
      var yid := order[j];
      assert yid in Elements(order);
      assert order[..j + 1] == order[..j] + [yid];
      WithoutSnoc(order[..j], yid, cpus.Keys - Later(cpus, xid));
      if xid >= yid {
        j := j + 1;
        continue;
      }
      if cpus[xid].physicalId.None? || cpus[yid].physicalId.None? {
        assert StopsAt(cpus, order, xid, j);
        return false, row;
      }
      if cpus[xid].physicalId != cpus[yid].physicalId {
        j := j + 1;
        continue;
      }
      if cpus[xid].coreId.None? || cpus[yid].coreId.None? {
        assert StopsAt(cpus, order, xid, j);
        return false, row;
      }
      if cpus[xid].coreId == cpus[yid].coreId {
        row := row + [yid];
      }
      j := j + 1;
    }
    assert order[..j] == order;
    assert forall y :: y in cpus ==> y in Elements(order);
    RowElements(cpus, order, xid);
    return true, row;
  }

  /** What a mapping that fails leaves behind: full rows before the CPU it fails at, a partial one there, none after. */
  ghost predicate PartlyMapped(cpus: CpuTable, order: seq<int>, threads: map<int, seq<int>>, i: int) {
    && 0 <= i < |order| && order[i] in cpus && threads.Keys == cpus.Keys
    && (forall k :: 0 <= k < i && order[k] in cpus ==> threads[order[k]] == Row(cpus, order, order[k]))
    && (exists j :: StopsAt(cpus, order, order[i], j) && threads[order[i]] == Row(cpus, order[..j], order[i]))
    && (forall k :: i < k < |order| && order[k] in cpus ==> threads[order[k]] == [])
  }

  /** A finished row adds exactly its later siblings to those found so far. */
  lemma RowDone(cpus: CpuTable, order: seq<int>, i: nat, row: seq<int>, found: seq<int>)
    requires Distinct(order) && i < |order| && order[i] in cpus && Elements(row) == Later(cpus, order[i])
    requires forall y :: y in found <==> exists x :: x in order[..i] && x in cpus && y in Later(cpus, x)
    ensures order[i] !in order[..i]
    ensures forall x :: x in order[..i + 1] <==> x in order[..i] || x == order[i]
    ensures forall y :: y in found + row <==> exists x :: x in order[..i + 1] && x in cpus && y in Later(cpus, x)
  {
    assert order[..i + 1] == order[..i] + [order[i]];
    assert forall y :: y in row <==> y in Elements(row);
  }

  /** The mapping after the first `i` processors of the table. */
  ghost predicate MappedSoFar(cpus: CpuTable, order: seq<int>, i: nat, threads: map<int, seq<int>>, found: seq<int>) {
    && i <= |order| && threads.Keys == cpus.Keys
    && (forall k :: 0 <= k < i ==> order[k] in cpus && threads[order[k]] == Row(cpus, order, order[k]))
    && (forall k :: i <= k < |order| && order[k] in cpus ==> threads[order[k]] == [])
    && (forall y :: y in found <==> exists x :: x in order[..i] && x in cpus && y in Later(cpus, x))
    && (forall x, y :: x in order[..i] && x in cpus && y in cpus && x < y ==> Readable(cpus, x, y))
  }

  lemma SoFarStep(cpus: CpuTable, order: seq<int>, i: nat, threads: map<int, seq<int>>, found: seq<int>, row: seq<int>)
    requires Distinct(order) && Elements(order) == cpus.Keys && i < |order| && order[i] in cpus
    requires MappedSoFar(cpus, order, i, threads, found)
    requires row == Row(cpus, order, order[i]) && Elements(row) == Later(cpus, order[i])
    requires forall y :: y in cpus && order[i] < y ==> Readable(cpus, order[i], y)
    ensures MappedSoFar(cpus, order, i + 1, threads[order[i] := row], found + row)
  {
    RowDone(cpus, order, i, row, found);
  }

  lemma SoFarStop(cpus: CpuTable, order: seq<int>, i: nat, threads: map<int, seq<int>>, found: seq<int>, row: seq<int>)
    requires Distinct(order) && i < |order| && order[i] in cpus && MappedSoFar(cpus, order, i, threads, found)
    requires exists j :: StopsAt(cpus, order, order[i], j) && row == Row(cpus, order[..j], order[i])
    ensures PartlyMapped(cpus, order, threads[order[i] := row], i) && !AllReadable(cpus)
  {
  }

  lemma SoFarDone(cpus: CpuTable, order: seq<int>, threads: map<int, seq<int>>, found: seq<int>)
    requires Elements(order) == cpus.Keys && MappedSoFar(cpus, order, |order|, threads, found)
    ensures AllReadable(cpus) && Mapped(cpus, CpuInfo(found, 0, threads))
    ensures forall x :: x in cpus ==> threads[x] == Row(cpus, order, x)
  {
    assert order[..|order|] == order;
    forall x | x in cpus ensures x in order && threads[x] == Row(cpus, order, x) && Elements(threads[x]) == Later(cpus, x) {
      assert x in Elements(order);
      RowElements(cpus, order, x);
    }
  }

  /** The outer loop over the processors; `order` is the iteration order of the table. */
  method MapHyperthreads(cpus: CpuTable, order: seq<int>)
    returns (built: bool, threads: map<int, seq<int>>, hyperthreads: seq<int>)
    requires Distinct(order) && Elements(order) == cpus.Keys
    ensures threads.Keys == cpus.Keys
    ensures built <==> AllReadable(cpus)
    ensures built ==> Mapped(cpus, CpuInfo(hyperthreads, 0, threads))
    ensures built ==> forall x :: x in cpus ==> threads[x] == Row(cpus, order, x)
    ensures !built ==> hyperthreads == [] && exists i :: PartlyMapped(cpus, order, threads, i)
  {
    threads := map x | x in cpus :: [];
    var found := [];
    var i := 0;
    while i < |order|
      invariant 0 <= i <= |order| && MappedSoFar(cpus, order, i, threads, found)
    {
      var xid := order[i];
      assert xid in Elements(order);
      var ok, row := MapRow(cpus, order, xid);
      if !ok {
        SoFarStop(cpus, order, i, threads, found, row);
        return false, threads[xid := row], [];
      }
      SoFarStep(cpus, order, i, threads, found, row);
      threads := threads[xid := row];
      found := found + row;
      i := i + 1;
    }
    SoFarDone(cpus, order, threads, found);
    return true, threads, found;
  }

  /** The first record is of an Intel processor with the ht flag, a sibling count and a positive core count. */
  predicate Announces(cpus: CpuTable) {
    && 0 in cpus && cpus[0].intel.Some? && cpus[0].intel.value
    && cpus[0].hasHt.Some? && cpus[0].hasHt.value
    && cpus[0].siblings.Some? && cpus[0].cpuCores.Some? && cpus[0].cpuCores.value > 0
  }

  /** The threads per core are how often the cores go into the siblings, and 1 where the first record does not say. */
  lemma PerCoreIs(cpus: CpuTable, k: nat)
    ensures !Announces(cpus) ==> PerCore(cpus) == 1
    ensures Announces(cpus) && k * cpus[0].cpuCores.value <= cpus[0].siblings.value < (k + 1) * cpus[0].cpuCores.value ==>
      PerCore(cpus) == k
  {
    if Announces(cpus) && k * cpus[0].cpuCores.value <= cpus[0].siblings.value < (k + 1) * cpus[0].cpuCores.value {
      QuotientIs(cpus[0].siblings.value, cpus[0].cpuCores.value, k);
    }
  }

  lemma QuotientIs(n: nat, d: nat, k: nat)
    requires d > 0 && k * d <= n < (k + 1) * d
    ensures n / d == k
  {
    var q := n / d;
    assert n == d * q + n % d;
    if q > k {
      Products(k + 1, q, d);
    }
    if q < k {
      Products(q + 1, k, d);
    }
  }

  lemma Products(a: nat, b: nat, d: nat)
    requires a <= b
    ensures a * d <= b * d
  {
  }

  lemma Announced(cpus: CpuTable)
    requires Announces(cpus)
    ensures var n, d, k := cpus[0].siblings.value, cpus[0].cpuCores.value, PerCore(cpus);
      k * d <= n < (k + 1) * d && (k == 0 <==> n < d)
  {
    QuotientBounds(cpus[0].siblings.value, cpus[0].cpuCores.value);
  }

  lemma QuotientBounds(n: nat, d: nat)
    requires d > 0
    ensures n / d * d <= n < (n / d + 1) * d && (n / d == 0 <==> n < d)
  {
    var k := n / d;
    assert n == d * k + n % d;
    assert (k + 1) * d == k * d + d;
    if k >= 1 {
      Products(1, k, d);
    }
  }

  /** Siblings are told apart by the two ids alone, and each is attached to those before it. */
  lemma SiblingsById(cpus: CpuTable, info: CpuInfo, x: int, y: int)
    requires Mapped(cpus, info) && x in cpus && y in cpus
    ensures y in info.threads[x] <==>
      x < y && cpus[x].physicalId == cpus[y].physicalId && cpus[x].coreId == cpus[y].coreId
    ensures y in info.hyperthreads <==>
      (exists z :: z in cpus && z < y && cpus[z].physicalId == cpus[y].physicalId && cpus[z].coreId == cpus[y].coreId)
  {
    assert y in info.threads[x] <==> y in Elements(info.threads[x]);
    if y in info.hyperthreads {
      var z :| z in cpus && y in Later(cpus, z);
      assert z < y && cpus[z].physicalId == cpus[y].physicalId && cpus[z].coreId == cpus[y].coreId;
    }
    if z :| z in cpus && z < y && cpus[z].physicalId == cpus[y].physicalId && cpus[z].coreId == cpus[y].coreId {
      assert y in Later(cpus, z);
    }
  }

  /** The mapping meets a missing field exactly where two records cannot be told apart without it. */
  lemma MissingFields(cpus: CpuTable, x: int, y: int)
    requires x in cpus && y in cpus && x < y
    ensures cpus[x].physicalId.None? || cpus[y].physicalId.None? ==> !AllReadable(cpus)
    ensures cpus[x].physicalId == cpus[y].physicalId && (cpus[x].coreId.None? || cpus[y].coreId.None?) ==> !AllReadable(cpus)
    ensures (forall z :: z in cpus ==> cpus[z].physicalId.Some? && cpus[z].coreId.Some?) ==> AllReadable(cpus)
  {
    if AllReadable(cpus) {
      assert Readable(cpus, x, y);
    }
  }

  datatype DiscoveryError = NoCpus | DivisionByZero

  /**
   * The hyperthread part of the discovery. A failure of the mapping is caught: the threads found so far stay,
   * the hyperthread list stays empty, and a core count that was already computed is kept. If that count is
   * zero, because fewer siblings than cores are announced, counting the physical CPUs afterwards fails.
   */
  method DiscoverCpuInfo(cpus: CpuTable, order: seq<int>) returns (r: Result<CpuInfo, DiscoveryError>)
    requires Distinct(order) && Elements(order) == cpus.Keys
    ensures r == Err(NoCpus) <==> cpus == map[]
    ensures r == Err(DivisionByZero) <==> cpus != map[] && PerCore(cpus) == 0
    ensures r.Ok? ==> r.value.threads.Keys == cpus.Keys && r.value.perCore == PerCore(cpus)
    ensures r == Err(DivisionByZero) <==> Announces(cpus) && cpus[0].siblings.value < cpus[0].cpuCores.value
    ensures r.Ok? && Announces(cpus) ==> r.value.perCore * cpus[0].cpuCores.value <= cpus[0].siblings.value
    ensures r.Ok? && Announces(cpus) ==> cpus[0].siblings.value < (r.value.perCore + 1) * cpus[0].cpuCores.value
    ensures r.Ok? && PerCore(cpus) > 1 && AllReadable(cpus) ==>
      Mapped(cpus, r.value) && forall x :: x in cpus ==> r.value.threads[x] == Row(cpus, order, x)
    ensures r.Ok? && PerCore(cpus) > 1 && !AllReadable(cpus) ==> exists i :: PartlyMapped(cpus, order, r.value.threads, i)
    ensures r.Ok? && !(PerCore(cpus) > 1 && AllReadable(cpus)) ==> r.value.hyperthreads == []
    ensures r.Ok? && PerCore(cpus) == 1 ==> forall x :: x in cpus ==> r.value.threads[x] == []
    ensures cpus != map[] && !Announces(cpus) ==>
      r.Ok? && r.value.perCore == 1 && r.value.hyperthreads == [] && forall x :: x in cpus ==> r.value.threads[x] == []
  {
    if cpus == map[] {
      return Err(NoCpus);
    }
    var info := CpuInfo([], 1, map x | x in cpus :: []);
    if Announces(cpus) {
      Announced(cpus);
    }
    if 0 in cpus && cpus[0].intel == Some(true) && cpus[0].hasHt == Some(true) {
      if cpus[0].siblings.Some? && cpus[0].cpuCores.Some? && cpus[0].cpuCores.value != 0 {
        info := info.(perCore := cpus[0].siblings.value / cpus[0].cpuCores.value);
        if info.perCore > 1 {
          var built, threads, hyperthreads := MapHyperthreads(cpus, order);
          info := info.(threads := threads, hyperthreads := hyperthreads);
        }
      }
    }
    if info.perCore == 0 {
      return Err(DivisionByZero);
    }
    return Ok(info);
  }

  /** Once the map is built, the processors outside it are exactly the least of each physical core. */
  lemma FirstThreads(cpus: CpuTable, info: CpuInfo, c: int)
    requires Mapped(cpus, info) && c in cpus
    ensures c !in info.hyperthreads <==> forall d :: d in cpus && Same(cpus, c, d) ==> c <= d
  {
    if d :| d in cpus && Same(cpus, c, d) && d < c {
      assert c in Later(cpus, d);
    }
    if c in info.hyperthreads {
      var x :| x in cpus && c in Later(cpus, x);
      assert Same(cpus, c, x) && x < c;
    }
  }

  /** With hyperthreads off, no two CPUs given to a job share a physical core. */
  lemma NoSharedCore(cfg: Config, cpus: CpuTable, info: CpuInfo, needed: nat, available: seq<int>, c: int, d: int)
    requires Mapped(cpus, info) && !cfg.useHyperthreads && Elements(available) <= cpus.Keys
    requires needed <= |Pool(cfg, info, available)|
    requires c in Choice(cfg, info, needed, available) && d in Choice(cfg, info, needed, available) && c != d
    ensures c in cpus && d in cpus && !Same(cpus, c, d)
  {
    ChoiceIsExact(cfg, info, needed, available);
    var r := Choice(cfg, info, needed, available);
    assert c in Elements(r) && d in Elements(r);
    assert c in Pool(cfg, info, available) && d in Pool(cfg, info, available);
    FirstThreads(cpus, info, c);
    FirstThreads(cpus, info, d);
  }
}
