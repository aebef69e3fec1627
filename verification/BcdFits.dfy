/** How large a store may be asked for: the Windows To Go store always fits, mkbcd's up to 4096 entries. */
module BcdFits {
  import opened Bytes
  import opened Text
  import opened CellHeap
  import opened HiveCells
  import opened HiveTree
  import opened WriterState
  import opened TreeStore
  import opened BcdText
  import opened Bcd
  import opened BcdBuild
  import opened BcdRoundTrip
  import opened BcdStores

  const MAX_DESCRIPTION := 0x100_0000
  const MAX_GUID := 255
  const MAX_ENTRIES := 4096

  /** The most bytes in one element of an entry's object, and of bootmgr's. */
  const LOADER_DATA := 0x4000 * 4 + 1000
  const BOOTMGR_DATA := MAX_ENTRIES * (4 * MAX_GUID + 2) + 0x1_0000

  predicate ElementFits(e: Element, size: nat) {
    IsName(e.id) && |e.id| <= 8 && e.vtype < U32_LIMIT && |e.data| <= size
  }

  lemma KeyNamesFit()
    ensures IsName("Element") && IsName("Elements") && IsName("Type") && IsName("Description")
    ensures IsName("Objects") && IsName("System") && IsName("KeyName")
  {
  }

  lemma WtgGuidFits()
    ensures IsName(WTG_ENTRY_GUID) && |WTG_ENTRY_GUID| == 38
  {
  }

  lemma BootmgrGuidFits()
    ensures IsName(BOOTMGR_GUID) && |BOOTMGR_GUID| == 38
  {
  }

  lemma IdsFit()
    ensures IsName(EL_DEVICE) && IsName(EL_PATH) && IsName(EL_DESCRIPTION) && IsName(EL_LOCALE) && IsName(EL_DEFAULT)
    ensures IsName(EL_DISPLAYORDER) && IsName(EL_TIMEOUT) && IsName(EL_OSDEVICE) && IsName(EL_SYSTEMROOT)
  {
  }

  lemma ElementKeyFits(e: Element, size: nat)
    requires ElementFits(e, size) && size <= MAX_PAYLOAD
    ensures Writable(ElementKey(e)) && TreeCost(ElementKey(e)) <= size + 200
  {
    hide IsName, KeyCost;
    KeyNamesFit();
    OneValueCost(Val("Element", e.vtype, e.data));
    CostOfKey(ElementKey(e));
    KeyCostBound(e.id, 0, 1);
  }

  lemma OneValueCost(v: Val)
    ensures ValuesCost([v]) == ValueCost(v) <= 20 + |v.name| + |v.data| + 24
  {
    assert [v][..0] == [];
  }

  lemma KeyCostBound(name: string, subkeys: nat, values: nat)
    ensures KeyCost(name, subkeys, values) <= 8 * subkeys + 4 * values + |name| + 120
  {
  }

  lemma {:induction false} ElementKeysFit(es: seq<Element>, size: nat)
    requires size <= MAX_PAYLOAD && forall i :: 0 <= i < |es| ==> ElementFits(es[i], size)
    ensures forall i :: 0 <= i < |es| ==> Writable(ElementKeys(es)[i])
    ensures TreesCost(ElementKeys(es)) <= |es| * (size + 200)
  {
    hide Writable, TreeCost, ElementKey, ElementFits;
    if es == [] {
    } else {
      var n := |es| - 1;
      ElementKeysFit(es[..n], size);
      ElementKeyFits(es[n], size);
      assert ElementKeys(es)[..n] == ElementKeys(es[..n]);
      assert |es| * (size + 200) == n * (size + 200) + (size + 200);
      forall i | 0 <= i < n
        ensures Writable(ElementKeys(es)[i])
      {
        assert ElementKeys(es)[i] == ElementKeys(es[..n])[i];
      }
    }
  }

  predicate SpecFits(o: Spec, size: nat) {
    && IsName(o.guid) && |o.guid| <= MAX_GUID && |o.elements| <= 7
    && forall i :: 0 <= i < |o.elements| ==> ElementFits(o.elements[i], size)
  }

  function ObjectBound(size: nat): nat {
    7 * (size + 200) + 1000
  }

  lemma ObjectKeyFits(o: Spec, size: nat)
    requires SpecFits(o, size) && size <= 0x1000_0000
    ensures Writable(ObjectKey(o)) && TreeCost(ObjectKey(o)) <= ObjectBound(size)
  {
    hide IsName, KeyCost, ElementKeys, ElementFits, TreesCost, TreeCost;
    var desc, all := TypeKey(o.otype), Key("Elements", [], ElementKeys(o.elements));
    KeyNamesFit();
    TypeKeyFits(o.otype);
    ElementsKeyFits(o.elements, size);
    KeyCostBound(o.guid, 2, 0);
    TwoTreesCost(desc, all);
    assert ObjectKey(o).subkeys == [desc, all];
    CostOfKey(ObjectKey(o));
    assert Writable(desc) && Writable(all);
  }

  lemma TypeKeyFits(otype: dword)
    ensures Writable(TypeKey(otype)) && TreeCost(TypeKey(otype)) <= 260
  {
    hide IsName, KeyCost, ValueCost, Le32;
    KeyNamesFit();
    OneValueCost(Val("Type", REG_DWORD, Le32(otype)));
    NoTreesCost();
    CostOfKey(TypeKey(otype));
    KeyCostBound("Description", 0, 1);
  }

  lemma ElementsKeyFits(es: seq<Element>, size: nat)
    requires |es| <= 7 && size <= 0x1000_0000 && forall i :: 0 <= i < |es| ==> ElementFits(es[i], size)
    ensures var all := Key("Elements", [], ElementKeys(es));
            Writable(all) && TreeCost(all) <= 7 * (size + 200) + 200
  {
    hide IsName, KeyCost, ElementKeys, ElementFits, TreesCost;
    KeyNamesFit();
    ElementKeysFit(es, size);
    CostOfKey(Key("Elements", [], ElementKeys(es)));
    KeyCostBound("Elements", |es|, 0);
    assert |es| * (size + 200) <= 7 * (size + 200);
  }

  lemma {:induction false} ObjectKeysFit(os: seq<Spec>, size: nat)
    requires size <= 0x1000_0000 && forall i :: 0 <= i < |os| ==> SpecFits(os[i], size)
    ensures forall i :: 0 <= i < |os| ==> Writable(ObjectKeys(os)[i])
    ensures TreesCost(ObjectKeys(os)) <= |os| * ObjectBound(size)
  {
    hide Writable, TreeCost, ObjectKey, SpecFits, ObjectBound;
    if os == [] {
    } else {
      var n := |os| - 1;
      ObjectKeysFit(os[..n], size);
      ObjectKeyFits(os[n], size);
      OneMoreCost(os[..n], os[n]);
      assert os[..n] + [os[n]] == os;
      assert |os| * ObjectBound(size) == n * ObjectBound(size) + ObjectBound(size);
      forall i | 0 <= i < n
        ensures Writable(ObjectKeys(os)[i])
      {
        assert ObjectKeys(os)[i] == ObjectKeys(os[..n])[i];
      }
    }
  }

  lemma OneMoreCost(os: seq<Spec>, o: Spec)
    ensures TreesCost(ObjectKeys(os + [o])) == TreesCost(ObjectKeys(os)) + TreeCost(ObjectKey(o))
  {
    hide TreeCost, ObjectKey;
    assert ObjectKeys(os + [o])[..|os|] == ObjectKeys(os);
  }

  lemma NoTreesCost()
    ensures TreesCost([]) == 0
  {
  }

  lemma SzSize(text: string)
    ensures |Sz(text)| <= 4 * |text| + 2
  {
  }

  lemma {:induction false} SzAllSize(items: seq<string>, n: nat)
    requires forall i :: 0 <= i < |items| ==> |items[i]| <= n
    ensures |SzAll(items)| <= |items| * (4 * n + 2)
  {
    hide Sz;
    if items == [] {
    } else {
      SzSize(items[0]);
      SzAllSize(items[1..], n);
      assert |items| * (4 * n + 2) == (|items| - 1) * (4 * n + 2) + (4 * n + 2);
    }
  }

  lemma MultiSzSize(items: seq<string>, n: nat)
    requires forall i :: 0 <= i < |items| ==> |items[i]| <= n
    ensures |MultiSz(items)| <= |items| * (4 * n + 2) + 2
  {
    hide SzAll;
    SzAllSize(items, n);
  }

  lemma LoaderFits(e: Entry, size: nat)
    requires IsName(e.guid) && |e.guid| <= MAX_GUID
    requires |e.device| <= size && |e.osdevice| <= size && size >= 4 * |e.description| + 1000
    ensures SpecFits(LoaderSpec(e), size)
  {
    hide Sz, IsName;
    IdsFit();
    SzSize(e.description);
    SzSize(@"\Windows\system32\winload.efi");
    SzSize("en-US");
    SzSize(@"\Windows");
  }

  lemma WtgBootmgrFits(device: seq<byte>, description: string, timeout: dword, size: nat)
    requires size >= 1000
    ensures SpecFits(WtgSpecs(device, description, timeout)[1], size)
  {
    hide Sz, MultiSz, IsName, DeviceBoot, Le32, LoaderSpec;
    IdsFit();
    WtgGuidFits();
    BootmgrGuidFits();
    SzSize(@"\EFI\Microsoft\Boot\bootmgfw.efi");
    SzSize("Windows Boot Manager");
    SzSize("en-US");
    SzSize(WTG_ENTRY_GUID);
    MultiSzSize([WTG_ENTRY_GUID], 38);
  }

  lemma StoreValuesFit()
    ensures Writable(Key("Description", WtgValues(), [])) && TreeCost(Key("Description", WtgValues(), [])) <= 1000
  {
    hide Sz, IsName, KeyCost, ValueCost, Le32;
    KeyNamesFit();
    SzSize("BCD00000000");
    var vs := WtgValues();
    assert vs[..1][..0] == [] && vs[..1] == [vs[0]];
    OneValueCost(vs[0]);
    OneValueCost(vs[1]);
    NoTreesCost();
    CostOfKey(Key("Description", vs, []));
    KeyCostBound("Description", 0, 2);
  }

  /** An 88-byte device element and a description of up to 16 Mi characters fit with room to spare. */
  lemma WtgFits(device: seq<byte>, description: string, timeout: dword)
    requires |device| == 88 && |description| <= MAX_DESCRIPTION
    ensures StoreFits(WtgValues(), WtgSpecs(device, description, timeout))
  {
    hide IsName, TreesCost, SpecFits, ObjectKey, WtgSpecs, WtgValues, LoaderSpec, Writable, StoreFits, DistinctIds,
      DistinctGuids, Sz, MultiSz, ElementMap, DeviceBoot, Le32;
    var size := 4 * |description| + 1000;
    WtgShape(device, description, timeout);
    WtgGuidFits();
    LoaderFits(Entry(WTG_ENTRY_GUID, description, device, device), size);
    WtgBootmgrFits(device, description, timeout, size);
    ObjectKeysFit(WtgSpecs(device, description, timeout), size);
    StoreValuesFit();
    ObjectsFit(WtgValues(), WtgSpecs(device, description, timeout));
  }

  /** Objects of up to 3 GiB fit. */
  lemma ObjectsFit(values: seq<Val>, os: seq<Spec>)
    requires |os| < U16_LIMIT && TreesCost(ObjectKeys(os)) <= 0xC000_0000
    requires forall i :: 0 <= i < |os| ==> Writable(ObjectKeys(os)[i])
    requires Writable(Key("Description", values, [])) && TreeCost(Key("Description", values, [])) <= 1000
    ensures StoreFits(values, os)
  {
    hide IsName, KeyCost, TreeCost, ObjectKeys, SECURITY_COST;
    KeyNamesFit();
    var desc, all := Key("Description", values, []), Key("Objects", [], ObjectKeys(os));
    TwoTreesCost(desc, all);
    CostOfKey(all);
    KeyCostBound("Objects", |os|, 0);
    KeyCostBound("System", 2, 0);
    assert StoreKey(values, os).subkeys == [desc, all];
    CostOfKey(StoreKey(values, os));
    SecurityCostIs();
    assert Writable(desc) && Writable(all);
  }

  // ---- mkbcd ----

  /** An entry whose GUID encodes, with up to 16 Ki characters of description and two elements of up to 64 KiB. */
  predicate EntryFits(e: Entry) {
    && IsName(e.guid) && |e.guid| <= MAX_GUID && |e.description| <= 0x4000
    && |e.device| <= 0x1_0000 && |e.osdevice| <= 0x1_0000
  }

  lemma {:induction false} LoadersFit(entries: seq<Entry>)
    requires forall i :: 0 <= i < |entries| ==> EntryFits(entries[i])
    ensures |LoaderSpecs(entries)| == |entries|
    ensures forall i :: 0 <= i < |entries| ==> SpecFits(LoaderSpecs(entries)[i], LOADER_DATA)
  {
    hide SpecFits, LoaderSpec, IsName;
    if entries != [] {
      LoadersFit(entries[..|entries| - 1]);
      LoaderFits(entries[|entries| - 1], LOADER_DATA);
    }
  }

  lemma BootmgrFits(entries: seq<Entry>, defaultGuid: string, timeout: dword, device: seq<byte>)
    requires |entries| <= MAX_ENTRIES && forall i :: 0 <= i < |entries| ==> EntryFits(entries[i])
    requires |defaultGuid| <= 0x4000 && |device| <= 0x1_0000
    ensures SpecFits(BootmgrSpec(entries, defaultGuid, timeout, device), BOOTMGR_DATA)
  {
    hide Sz, MultiSz, IsName, DeviceBoot, Le32;
    IdsFit();
    BootmgrGuidFits();
    SzSize("Windows Boot Manager");
    SzSize("en-US");
    SzSize(defaultGuid);
    MultiSzSize(EntryGuids(entries), MAX_GUID);
    assert |entries| * (4 * MAX_GUID + 2) <= MAX_ENTRIES * (4 * MAX_GUID + 2);
  }

  lemma MkbcdValuesFit()
    ensures Writable(Key("Description", MkbcdValues(), [])) && TreeCost(Key("Description", MkbcdValues(), [])) <= 1000
  {
    hide Sz, IsName, KeyCost, ValueCost;
    KeyNamesFit();
    SzSize("BCD");
    OneValueCost(MkbcdValues()[0]);
    NoTreesCost();
    CostOfKey(Key("Description", MkbcdValues(), []));
    KeyCostBound("Description", 0, 1);
  }

  /** Up to 4096 such entries fit, distinct or not. */
  lemma MkbcdFits(entries: seq<Entry>, defaultGuid: string, timeout: dword, device: seq<byte>)
    requires |entries| <= MAX_ENTRIES && forall i :: 0 <= i < |entries| ==> EntryFits(entries[i])
    requires |defaultGuid| <= 0x4000 && |device| <= 0x1_0000
    ensures StoreFits(MkbcdValues(), MkbcdSpecs(entries, defaultGuid, timeout, device))
  {
    hide TreesCost, TreeCost, SpecFits, EntryFits, ObjectKey, BootmgrSpec, LoaderSpecs, MkbcdValues, Writable,
      StoreFits;
    var loaders, boot := LoaderSpecs(entries), BootmgrSpec(entries, defaultGuid, timeout, device);
    LoadersFit(entries);
    BootmgrFits(entries, defaultGuid, timeout, device);
    ObjectKeysFit(loaders, LOADER_DATA);
    ObjectKeyFits(boot, BOOTMGR_DATA);
    OneMoreCost(loaders, boot);
    assert |entries| * ObjectBound(LOADER_DATA) <= MAX_ENTRIES * ObjectBound(LOADER_DATA);
    MkbcdValuesFit();
    ObjectsFit(MkbcdValues(), loaders + [boot]);
  }

  lemma SecurityCostIs()
    ensures SECURITY_COST == 128
  {
  }
}
