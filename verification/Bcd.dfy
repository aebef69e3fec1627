/** bcd_logic.py and mkbcd.py: the object tree of a BCD store, as registry keys. */
module Bcd {
  import opened Bytes
  import opened Text
  import opened HiveTree
  import opened BcdText

  const REG_SZ := 1
  const REG_BINARY := 3
  const REG_DWORD := 4
  const REG_MULTI_SZ := 7

  const BOOTMGR_GUID := "{9dea862c-5cdd-4e70-acc1-f32b344d4795}"
  const WTG_ENTRY_GUID := "{a1b2c3d4-1111-4a2b-9c3d-4e5f60718293}"

  const TYPE_BOOTMGR := 0x10100002
  const TYPE_OSLOADER := 0x10200003

  const EL_DEVICE := "11000001"
  const EL_PATH := "12000002"
  const EL_DESCRIPTION := "12000004"
  const EL_LOCALE := "12000005"
  const EL_DEFAULT := "23000003"
  const EL_DISPLAYORDER := "24000001"
  const EL_TIMEOUT := "25000004"
  const EL_OSDEVICE := "21000001"
  const EL_SYSTEMROOT := "22000002"

  type dword = x: nat | x < U32_LIMIT

  /** (element id, value type, data) */
  datatype Element = Element(id: string, vtype: nat, data: seq<byte>)

  /** One BCD object: its GUID, its type and its elements in the order written. */
  datatype Spec = Spec(guid: string, otype: dword, elements: seq<Element>)

  // ---- device elements ----

  /** The device element that stands for the volume the loader itself came from. */
  function DeviceBoot(): (r: seq<byte>)
    ensures |r| == 88 && U32At(r, 16) == 5 && U32At(r, 24) == 0x48
  {
    Zeros(16) + (Le32(5) + Le32(0) + Le32(0x48) + Le32(0)) + Zeros(56)
  }

  /** `device partition=...`, or None where the source raises ValueError. */
  method DevicePartition(partition: seq<byte>, disk: seq<byte>) returns (r: Option<seq<byte>>)
    ensures r == PartitionElement(partition, disk)
  {
    if |partition| != 16 || |disk| != 16 {
      return None;
    }
    var d := Zeros(72);
    d := Overwrite(d, 0, Le32(6) + Le32(0) + Le32(0x48) + Le32(0));
    d := Overwrite(d, 16, partition);
    d := Overwrite(d, 32, Le32(0) + Le32(0));
    d := Overwrite(d, 40, disk);
    assert d == (Le32(6) + Le32(0) + Le32(0x48) + Le32(0)) + partition + (Le32(0) + Le32(0)) + disk + Zeros(16);
    r := Some(Zeros(16) + d);
  }

  function PartitionElement(partition: seq<byte>, disk: seq<byte>): Option<seq<byte>> {
    if |partition| != 16 || |disk| != 16 then None
    else Some(Zeros(16)
              + ((Le32(6) + Le32(0) + Le32(0x48) + Le32(0)) + partition + (Le32(0) + Le32(0)) + disk + Zeros(16)))
  }

  /** Where a partition element says what: the type, its own length, and both raw GUIDs. */
  lemma PartitionFields(partition: seq<byte>, disk: seq<byte>)
    ensures PartitionElement(partition, disk).Some? <==> |partition| == 16 && |disk| == 16
    ensures |partition| == 16 && |disk| == 16 ==>
              var r := PartitionElement(partition, disk).value;
              && |r| == 88 && U32At(r, 16) == 6 && U32At(r, 24) == 0x48 && U32At(r, 48) == 0 && U32At(r, 52) == 0
              && r[32..48] == partition && r[56..72] == disk
  {
    if |partition| == 16 && |disk| == 16 {
      hide Le32, Zeros;
      var r := PartitionElement(partition, disk).value;
      assert forall i :: 0 <= i < 4 ==> r[16 + i] == Le32(6)[i] && r[24 + i] == Le32(0x48)[i];
      assert forall i :: 0 <= i < 4 ==> r[48 + i] == Le32(0)[i] && r[52 + i] == Le32(0)[i];
    }
  }

  // ---- the registry keys of an object ----

  function ElementKey(e: Element): Key {
    Key(e.id, [Val("Element", e.vtype, e.data)], [])
  }

  function ElementKeys(es: seq<Element>): (r: seq<Key>)
    ensures |r| == |es| && forall i :: 0 <= i < |es| ==> r[i] == ElementKey(es[i])
  {
    seq(|es|, i requires 0 <= i < |es| => ElementKey(es[i]))
  }

  function TypeKey(otype: dword): Key {
    Key("Description", [Val("Type", REG_DWORD, Le32(otype))], [])
  }

  function ObjectKey(o: Spec): (r: Key)
    ensures r.name == o.guid
  {
    Key(o.guid, [], [TypeKey(o.otype), Key("Elements", [], ElementKeys(o.elements))])
  }

  function ObjectKeys(os: seq<Spec>): (r: seq<Key>)
    ensures |r| == |os| && forall i :: 0 <= i < |os| ==> r[i] == ObjectKey(os[i])
  {
    seq(|os|, i requires 0 <= i < |os| => ObjectKey(os[i]))
  }

  /** The root: a Description key holding `values`, and the objects. */
  function StoreKey(values: seq<Val>, os: seq<Spec>): Key {
    Key("System", [], [Key("Description", values, []), Key("Objects", [], ObjectKeys(os))])
  }

  // ---- mkbcd.py ----

  /** (guid, description, device, osdevice) */
  datatype Entry = Entry(guid: string, description: string, device: seq<byte>, osdevice: seq<byte>)

  function EntryGuids(entries: seq<Entry>): (r: seq<string>)
    ensures |r| == |entries| && forall i :: 0 <= i < |r| ==> r[i] == entries[i].guid
  {
    seq(|entries|, i requires 0 <= i < |entries| => entries[i].guid)
  }

  function LoaderSpec(e: Entry): Spec {
    Spec(e.guid, TYPE_OSLOADER, [
      Element(EL_DEVICE, REG_BINARY, e.device),
      Element(EL_PATH, REG_SZ, Sz(@"\Windows\system32\winload.efi")),
      Element(EL_DESCRIPTION, REG_SZ, Sz(e.description)),
      Element(EL_LOCALE, REG_SZ, Sz("en-US")),
      Element(EL_OSDEVICE, REG_BINARY, e.osdevice),
      Element(EL_SYSTEMROOT, REG_SZ, Sz(@"\Windows"))])
  }

  /** `device` is empty when the caller gives none: then bootmgr's is `boot`. */
  function BootmgrSpec(entries: seq<Entry>, defaultGuid: string, timeout: dword, device: seq<byte>): Spec {
    Spec(BOOTMGR_GUID, TYPE_BOOTMGR, [
      Element(EL_DEVICE, REG_BINARY, if device != [] then device else DeviceBoot()),
      Element(EL_DESCRIPTION, REG_SZ, Sz("Windows Boot Manager")),
      Element(EL_LOCALE, REG_SZ, Sz("en-US")),
      Element(EL_DEFAULT, REG_SZ, Sz(defaultGuid)),
      Element(EL_DISPLAYORDER, REG_MULTI_SZ, MultiSz(EntryGuids(entries))),
      Element(EL_TIMEOUT, REG_BINARY, Le32(timeout))])
  }

  function LoaderSpecs(entries: seq<Entry>): seq<Spec> {
    if entries == [] then [] else LoaderSpecs(entries[..|entries| - 1]) + [LoaderSpec(entries[|entries| - 1])]
  }

  function MkbcdSpecs(entries: seq<Entry>, defaultGuid: string, timeout: dword, device: seq<byte>): seq<Spec> {
    LoaderSpecs(entries) + [BootmgrSpec(entries, defaultGuid, timeout, device)]
  }

  function MkbcdValues(): seq<Val> {
    [Val("KeyName", REG_SZ, Sz("BCD"))]
  }

  // ---- build_bcd ----

  /** The two objects of a Windows To Go store. */
  function WtgSpecs(device: seq<byte>, description: string, timeout: dword): seq<Spec> {
    [LoaderSpec(Entry(WTG_ENTRY_GUID, description, device, device)),
     Spec(BOOTMGR_GUID, TYPE_BOOTMGR, [
       Element(EL_DEVICE, REG_BINARY, DeviceBoot()),
       Element(EL_PATH, REG_SZ, Sz(@"\EFI\Microsoft\Boot\bootmgfw.efi")),
       Element(EL_DESCRIPTION, REG_SZ, Sz("Windows Boot Manager")),
       Element(EL_LOCALE, REG_SZ, Sz("en-US")),
       Element(EL_DEFAULT, REG_SZ, Sz(WTG_ENTRY_GUID)),
       Element(EL_DISPLAYORDER, REG_MULTI_SZ, MultiSz([WTG_ENTRY_GUID])),
       Element(EL_TIMEOUT, REG_BINARY, Le32(timeout))])]
  }

  function WtgValues(): seq<Val> {
    [Val("KeyName", REG_SZ, Sz("BCD00000000")), Val("System", REG_DWORD, Le32(1))]
  }
}
