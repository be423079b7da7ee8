/** Accelerator devices: selection for a job, and the device-controller entries that go with it. */
module Devices {
  import opened Collections

  /** Device names are told apart by the words "mic" and "nvidia" in them. */
  datatype DeviceName = Mic(ordinal: nat) | Nvidia(ordinal: nat)

  datatype DeviceInfo = DeviceInfo(devType: string, major: int, minor: int, numaNode: int)

  type DeviceTable = map<DeviceName, DeviceInfo>

  /** One line written to the device whitelist. */
  datatype Entry = Entry(devType: string, major: int, minor: int)

  function Own(table: DeviceTable, d: DeviceName): Entry
    requires d in table
  {
    Entry(table[d].devType, table[d].major, table[d].minor)
  }

  /** The entries that come with a device: its controllers (minor 0 and 1, or 255) and its own. */
  function Grant(table: DeviceTable, d: DeviceName): set<Entry>
    requires d in table
  {
    var control := (m: int) => Entry(table[d].devType, table[d].major, m);
    match d
    case Mic(_) => {control(0), control(1), Own(table, d)}
    case Nvidia(_) => {control(255), Own(table, d)}
  }

  ghost function Granted(table: DeviceTable, names: seq<DeviceName>): set<Entry>
    requires Elements(names) <= table.Keys
  {
    set d, e | d in Elements(names) && e in Grant(table, d) :: e
  }

  /** The whitelist of a job in device numbers: its devices' own, minors 0 and 1 with a coprocessor, 255 with a GPU. */
  lemma GrantedIs(table: DeviceTable, names: seq<DeviceName>, e: Entry)
    requires Elements(names) <= table.Keys
    ensures e in Granted(table, names) <==>
      exists d :: (d in names && d in table && e.devType == table[d].devType && e.major == table[d].major
        && (e.minor == table[d].minor || (d.Mic? && 0 <= e.minor <= 1) || (d.Nvidia? && e.minor == 255)))
  {
    forall d | d in names
      ensures d in Elements(names) && d in table
      ensures e in Grant(table, d) <==> (e.devType == table[d].devType && e.major == table[d].major
        && (e.minor == table[d].minor || (d.Mic? && 0 <= e.minor <= 1) || (d.Nvidia? && e.minor == 255)))
    {
    }
    if e in Granted(table, names) {
      var d :| d in Elements(names) && e in Grant(table, d);
      assert d in names;
    }
  }

  lemma GrantedAppend(table: DeviceTable, names: seq<DeviceName>, d: DeviceName)
    requires Elements(names) <= table.Keys && d in table
    ensures Elements(names + [d]) <= table.Keys
    ensures Granted(table, names + [d]) == Granted(table, names) + Grant(table, d)
  {
    ElementsAppend(names, [d]);
    assert Elements([d]) == {d};
  }

  /** The devices of a list that are kept: not named before, and not covered by an earlier grant. */
  ghost function Kept(table: DeviceTable, list: seq<DeviceName>): (r: seq<DeviceName>)
    requires Elements(list) <= table.Keys
    ensures Elements(r) <= Elements(list)
  {
    if list == [] then []
    else
      var front, last := list[..|list| - 1], list[|list| - 1];
      assert Elements(list) == Elements(front) + {last};
      var kept := Kept(table, front);
      if last in kept || Own(table, last) in Granted(table, kept) then kept
      else
        ElementsAppend(kept, [last]);
        kept + [last]
  }

  lemma KeptStep(table: DeviceTable, list: seq<DeviceName>, i: nat)
    requires i < |list| && Elements(list[..i]) <= table.Keys && list[i] in table
    ensures Elements(list[..i + 1]) <= table.Keys
    ensures var kept := Kept(table, list[..i]);
      && Elements(kept) <= table.Keys
      && Kept(table, list[..i + 1]) ==
        if list[i] in kept || Own(table, list[i]) in Granted(table, kept) then kept else kept + [list[i]]
  {
    assert list[..i + 1] == list[..i] + [list[i]];
    assert list[..i + 1][..i] == list[..i];
    ElementsAppend(list[..i], [list[i]]);
    assert Elements([list[i]]) == {list[i]};
  }

  /** The selection loop. The whitelist holds exactly the grants of the named devices, each once. */
  method AssignDevices(table: DeviceTable, list: seq<DeviceName>, count: nat)
    returns (names: seq<DeviceName>, allowed: seq<Entry>)
    requires count <= |list| && Elements(list) <= table.Keys
    ensures Elements(list[..count]) <= table.Keys && names == Kept(table, list[..count])
    ensures Elements(names) <= table.Keys && Elements(allowed) == Granted(table, names)
    ensures Distinct(allowed) && Distinct(names)
  {
    var devices := list[..count];
    assert forall d :: d in Elements(devices) ==> d in Elements(list);
    names, allowed := [], [];
    var i := 0;
    while i < |devices|
      invariant 0 <= i <= |devices| && Elements(devices[..i]) <= table.Keys
      invariant names == Kept(table, devices[..i]) && Elements(names) <= table.Keys
      invariant Elements(allowed) == Granted(table, names)
      invariant Distinct(allowed) && Distinct(names)
    {
      var dev := devices[i];
      assert dev in Elements(devices);
      KeptStep(table, devices, i);
      i := i + 1;
      assert Own(table, dev) in allowed <==> Own(table, dev) in Elements(allowed);
      if dev in names || Own(table, dev) in allowed {
        continue;
      }
      GrantedAppend(table, names, dev);
      names := names + [dev];
      allowed := AllowDevice(table, allowed, dev);
    }
    assert devices[..i] == devices;
  }

  /** Whitelist a device: its controllers first, then its own entry. */
  method AllowDevice(table: DeviceTable, allowed0: seq<Entry>, dev: DeviceName) returns (allowed: seq<Entry>)
    requires Distinct(allowed0) && dev in table
    ensures Distinct(allowed) && Elements(allowed) == Elements(allowed0) + Grant(table, dev)
  {
    var own := Own(table, dev);
    match dev {
      case Mic(_) =>
        allowed := AddOnce(allowed0, own.(minor := 0));
        allowed := AddOnce(allowed, own.(minor := 1));
      case Nvidia(_) =>
        allowed := AddOnce(allowed0, own.(minor := 255));
    }
    allowed := AddOnce(allowed, own);
  }

  method AddOnce(list: seq<Entry>, e: Entry) returns (r: seq<Entry>)
    requires Distinct(list)
    ensures Distinct(r) && Elements(r) == Elements(list) + {e}
  {
    if e in list {
      return list;
    }
    ElementsAppend(list, [e]);
    return list + [e];
  }

  /** A device repeats an earlier one, or hides behind an earlier one's controller entries. */
  ghost predicate Shadowed(table: DeviceTable, list: seq<DeviceName>, i: nat)
    requires Elements(list) <= table.Keys && i < |list|
  {
    var d := list[i];
    assert d in Elements(list);
    exists j :: 0 <= j < i && list[j] in Elements(list) && (list[j] == d || Own(table, d) in Grant(table, list[j]))
  }

  /**
   * A job is named every device it was counted for exactly when none of them is shadowed. The hook
   * compares counts only before this step, so a shadowed device is silently dropped.
   */
  lemma {:induction false} AllNamedIff(table: DeviceTable, list: seq<DeviceName>)
    requires Elements(list) <= table.Keys
    ensures |Kept(table, list)| <= |list|
    ensures |Kept(table, list)| == |list| <==> forall i :: 0 <= i < |list| ==> !Shadowed(table, list, i)
    ensures |Kept(table, list)| == |list| ==> Kept(table, list) == list
  {
    if list != [] {
      var n := |list| - 1;
      var front, last := list[..n], list[n];
      assert Elements(list) == Elements(front) + {last};
      AllNamedIff(table, front);
      forall i | 0 <= i < n ensures Shadowed(table, front, i) <==> Shadowed(table, list, i) {
        forall j | 0 <= j < i ensures front[j] == list[j] && front[j] in Elements(front) {
        }
      }
      var kept := Kept(table, front);
      if kept == front {
        assert Shadowed(table, list, n) <==> last in kept || Own(table, last) in Granted(table, kept) by {
          forall j | 0 <= j < n ensures list[j] == front[j] && list[j] in Elements(front) && list[j] in Elements(list) {
          }
        }
        assert front + [last] == list;
      }
    }
  }

  /** Two coprocessors with minors 2 and 1: the second hides behind the first's controller entry. */
  lemma ShadowedExample()
    ensures var table := map[Mic(0) := DeviceInfo("c", 10, 2, 0), Mic(1) := DeviceInfo("c", 10, 1, 0)];
      Elements([Mic(0), Mic(1)]) <= table.Keys && Kept(table, [Mic(0), Mic(1)]) == [Mic(0)]
  {
    var table := map[Mic(0) := DeviceInfo("c", 10, 2, 0), Mic(1) := DeviceInfo("c", 10, 1, 0)];
    assert Elements([Mic(0), Mic(1)]) == {Mic(0), Mic(1)};
    AllNamedIff(table, [Mic(0), Mic(1)]);
    assert Own(table, Mic(1)) in Grant(table, Mic(0));
    assert Shadowed(table, [Mic(0), Mic(1)], 1);
    assert [Mic(0), Mic(1)][..1] == [Mic(0)] && [Mic(0)][..0] == [];
    assert Kept(table, []) == [];
    assert Elements([Mic(0)]) == {Mic(0)};
    assert Granted(table, []) == {};
    assert Kept(table, [Mic(0)]) == [Mic(0)];
  }
}
