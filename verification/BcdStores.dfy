/** The two callers of the store builder, and what dumping their stores shows. */
module BcdStores {
  import opened Bytes
  import opened Text
  import opened HiveTree
  import opened HiveReader
  import opened HiveRoundTrip
  import opened HiveVisits
  import opened NameOrder
  import opened TreeStore
  import opened BcdText
  import opened Bcd
  import opened BcdBuild
  import opened BcdDump
  import opened BcdRoundTrip
  import opened Gpt

  /** mkbcd.build */
  method Mkbcd(entries: seq<Entry>, defaultGuid: string, timeout: dword, device: seq<byte>) returns (store: seq<byte>)
    requires StoreFits(MkbcdValues(), MkbcdSpecs(entries, defaultGuid, timeout, device))
    ensures ReadsBackAs(store, Stored(StoreKey(MkbcdValues(), MkbcdSpecs(entries, defaultGuid, timeout, device))))
    ensures HoldsTree(store, Stored(StoreKey(MkbcdValues(), MkbcdSpecs(entries, defaultGuid, timeout, device))))
    ensures StandsWhole(store, "BCD",
                        Stored(StoreKey(MkbcdValues(), MkbcdSpecs(entries, defaultGuid, timeout, device))))
  {
    hide *;
    var objects := [];
    var i := 0;
    LoadersOfNone();
    while i < |entries|
      invariant 0 <= i <= |entries| && objects == LoaderSpecs(entries[..i])
    {
      LoadersOfMore(entries, i);
      objects := objects + [LoaderSpec(entries[i])];
      i := i + 1;
    }
    assert entries[..i] == entries;
    objects := objects + [BootmgrSpec(entries, defaultGuid, timeout, device)];
    MkbcdParts(entries, defaultGuid, timeout, device);
    store := BuildStore(MkbcdValues(), objects);
  }

  lemma LoadersOfNone()
    ensures LoaderSpecs([]) == []
  {
  }

  lemma LoadersOfMore(entries: seq<Entry>, i: nat)
    requires i < |entries|
    ensures entries[..0] == []
    ensures LoaderSpecs(entries[..i + 1]) == LoaderSpecs(entries[..i]) + [LoaderSpec(entries[i])]
  {
    hide LoaderSpec;
    assert entries[..i + 1][..i] == entries[..i];
  }

  lemma MkbcdParts(entries: seq<Entry>, defaultGuid: string, timeout: dword, device: seq<byte>)
    ensures MkbcdSpecs(entries, defaultGuid, timeout, device)
            == LoaderSpecs(entries) + [BootmgrSpec(entries, defaultGuid, timeout, device)]
  {
    hide LoaderSpecs, BootmgrSpec;
  }

  // ---- what an entry's object holds ----

  lemma LoaderShape(e: Entry)
    ensures LoaderSpec(e).guid == e.guid && LoaderSpec(e).otype == 0x10200003
    ensures var es := LoaderSpec(e).elements;
            && |es| == 6 && DistinctIds(es)
            && es[0] == Element("11000001", 3, e.device)
            && es[1] == Element("12000002", 1, Sz("\\Windows\\system32\\winload.efi"))
            && es[2] == Element("12000004", 1, Sz(e.description))
            && es[3] == Element("12000005", 1, Sz("en-US"))
            && es[4] == Element("21000001", 3, e.osdevice)
            && es[5] == Element("22000002", 1, Sz("\\Windows"))
  {
    hide Sz;
    var es := LoaderSpec(e).elements;
    assert es[0].id[7] == '1' && es[0].id[0] == '1';
    assert es[1].id[7] == '2' && es[1].id[0] == '1';
    assert es[2].id[7] == '4';
    assert es[3].id[7] == '5';
    assert es[4].id[7] == '1' && es[4].id[0] == '2';
    assert es[5].id[7] == '2' && es[5].id[0] == '2';
  }

  lemma BootmgrShape(entries: seq<Entry>, defaultGuid: string, timeout: dword, device: seq<byte>)
    ensures var o := BootmgrSpec(entries, defaultGuid, timeout, device);
            && o.guid == "{9dea862c-5cdd-4e70-acc1-f32b344d4795}" && o.otype == 0x10100002
            && |o.elements| == 6 && DistinctIds(o.elements)
            && o.elements[0] == Element("11000001", 3, if device != [] then device else DeviceBoot())
            && o.elements[1] == Element("12000004", 1, Sz("Windows Boot Manager"))
            && o.elements[2] == Element("12000005", 1, Sz("en-US"))
            && o.elements[3] == Element("23000003", 1, Sz(defaultGuid))
            && o.elements[4] == Element("24000001", 7, MultiSz(EntryGuids(entries)))
            && o.elements[5] == Element("25000004", 3, Le32(timeout))
  {
    hide Sz, MultiSz, Le32, DeviceBoot;
    var es := BootmgrSpec(entries, defaultGuid, timeout, device).elements;
    assert es[0].id[7] == '1' && es[0].id[1] == '1';
    assert es[1].id[7] == '4' && es[1].id[1] == '2';
    assert es[2].id[7] == '5';
    assert es[3].id[7] == '3';
    assert es[4].id[7] == '1' && es[4].id[1] == '4';
    assert es[5].id[7] == '4' && es[5].id[1] == '5';
  }

  /** No two entries share a GUID, and none takes bootmgr's. */
  ghost predicate EntriesDistinct(entries: seq<Entry>) {
    && (forall i, j :: 0 <= i < j < |entries| ==> entries[i].guid != entries[j].guid)
    && (forall i :: 0 <= i < |entries| ==> entries[i].guid != BOOTMGR_GUID)
  }

  lemma {:induction false} LoaderSpecsAre(entries: seq<Entry>)
    ensures |LoaderSpecs(entries)| == |entries|
    ensures forall i :: 0 <= i < |entries| ==> LoaderSpecs(entries)[i] == LoaderSpec(entries[i])
  {
    hide LoaderSpec;
    if entries == [] {
    } else {
      LoaderSpecsAre(entries[..|entries| - 1]);
    }
  }

  lemma MkbcdSpecsAre(entries: seq<Entry>, defaultGuid: string, timeout: dword, device: seq<byte>)
    ensures var os := MkbcdSpecs(entries, defaultGuid, timeout, device);
            && |os| == |entries| + 1
            && (forall i :: 0 <= i < |entries| ==> os[i] == LoaderSpec(entries[i]) && os[i].guid == entries[i].guid)
            && os[|entries|] == BootmgrSpec(entries, defaultGuid, timeout, device) && os[|entries|].guid == BOOTMGR_GUID
            && (DistinctGuids(os) <==> EntriesDistinct(entries))
  {
    hide LoaderSpecs, BootmgrSpec, LoaderSpec, DistinctIds;
    MkbcdParts(entries, defaultGuid, timeout, device);
    LoaderSpecsAre(entries);
    BootmgrShape(entries, defaultGuid, timeout, device);
    var os := MkbcdSpecs(entries, defaultGuid, timeout, device);
    forall i | 0 <= i < |entries|
      ensures os[i].guid == entries[i].guid
    {
      LoaderShape(entries[i]);
    }
    if DistinctGuids(os) {
      forall i | 0 <= i < |entries|
        ensures entries[i].guid != BOOTMGR_GUID
      {
        assert os[i].guid != os[|entries|].guid;
      }
      forall i, j | 0 <= i < j < |entries|
        ensures entries[i].guid != entries[j].guid
      {
        assert os[i].guid != os[j].guid;
      }
    }
  }

  /** The element is a string, and its bytes are this text and a NUL. */
  predicate Says(o: Object, id: string, text: string) {
    id in o.elems && o.elems[id].0 == 1 && DecodeUtf16(o.elems[id].1) == Some(text + [0 as char])
  }

  /** The element is these bytes. */
  predicate HasBytes(o: Object, id: string, bytes: seq<byte>) {
    id in o.elems && o.elems[id] == (3, bytes)
  }

  /** The element is a list of strings: each with a NUL, and a NUL after the last. */
  predicate SaysAll(o: Object, id: string, items: seq<string>) {
    && id in o.elems && o.elems[id].0 == 7
    && DecodeUtf16(o.elems[id].1) == Some(Terminated(items) + [0 as char])
  }

  /** The element is a number of four bytes, low byte first. */
  predicate HasNumber(o: Object, id: string, n: nat) {
    && id in o.elems && o.elems[id].0 == 3 && |o.elems[id].1| == 4
    && var b := o.elems[id].1;
    n == b[0] as int + 0x100 * (b[1] as int) + 0x1_0000 * (b[2] as int) + 0x100_0000 * (b[3] as int)
  }

  /** A loader of Windows: its two devices, and the texts Windows starts by. */
  ghost predicate IsLoader(o: Object, description: string, device: seq<byte>, osdevice: seq<byte>) {
    && o.otype == Some(0x10200003)
    && o.elems.Keys == {"11000001", "12000002", "12000004", "12000005", "21000001", "22000002"}
    && HasBytes(o, "11000001", device) && HasBytes(o, "21000001", osdevice)
    && Says(o, "12000002", "\\Windows\\system32\\winload.efi") && Says(o, "22000002", "\\Windows")
    && Says(o, "12000004", description) && Says(o, "12000005", "en-US")
  }

  /** The device `boot`: its type 5 and its length 0x48, and zeros. */
  predicate IsBootDevice(raw: seq<byte>) {
    |raw| == 88 && forall k :: 0 <= k < 88 ==> raw[k] == if k == 16 then 5 else if k == 24 then 0x48 else 0
  }

  lemma BootDeviceIs()
    ensures IsBootDevice(DeviceBoot())
  {
    assert Le32(5) == [5, 0, 0, 0] && Le32(0x48) == [0x48, 0, 0, 0] && Le32(0) == [0, 0, 0, 0];
  }

  /** An entry's object: a loader that reads back text by text, the description less trailing NULs. */
  ghost predicate ShowsEntry(objs: map<string, Object>, e: Entry) {
    && e.guid in objs && IsLoader(objs[e.guid], e.description, e.device, e.osdevice)
    && DecodeSz(objs[e.guid].elems["12000004"].1) == Some(StripNuls(e.description))
  }

  /** Bootmgr's object: its device, its default entry, its timeout, and the display order as a list of strings. */
  ghost predicate ShowsBootmgr(objs: map<string, Object>, entries: seq<Entry>, defaultGuid: string, timeout: dword,
                               device: seq<byte>)
  {
    && "{9dea862c-5cdd-4e70-acc1-f32b344d4795}" in objs
    && var o := objs["{9dea862c-5cdd-4e70-acc1-f32b344d4795}"];
    && o.otype == Some(0x10100002)
    && o.elems.Keys == {"11000001", "12000004", "12000005", "23000003", "24000001", "25000004"}
    && o.elems["11000001"].0 == 3
    && (if device != [] then o.elems["11000001"].1 == device else IsBootDevice(o.elems["11000001"].1))
    && Says(o, "12000004", "Windows Boot Manager") && Says(o, "12000005", "en-US") && Says(o, "23000003", defaultGuid)
    && DecodeSz(o.elems["23000003"].1) == Some(StripNuls(defaultGuid))
    && HasNumber(o, "25000004", timeout) && SaysAll(o, "24000001", EntryGuids(entries))
    && (DecodeMultiSz(o.elems["24000001"].1) == Some(EntryGuids(entries))
        <==> forall i :: 0 <= i < |entries| ==> entries[i].guid != "" && NUL !in entries[i].guid)
  }

  lemma SzSays(text: string)
    ensures DecodeUtf16(Sz(text)) == Some(text + [0 as char])
  {
    hide Sz;
    SzIsText(text);
    Utf16RoundTrip(text + [NUL]);
  }

  lemma DwordSays(n: dword)
    ensures var b := Le32(n);
            && |b| == 4
            && n == b[0] as int + 0x100 * (b[1] as int) + 0x1_0000 * (b[2] as int) + 0x100_0000 * (b[3] as int)
  {
    hide Le32;
  }

  lemma SixIds(es: seq<Element>)
    requires |es| == 6
    ensures Ids(es) == {es[0].id, es[1].id, es[2].id, es[3].id, es[4].id, es[5].id}
  {
  }

  lemma EntryShown(objs: map<string, Object>, e: Entry)
    requires e.guid in objs && objs[e.guid] == ObjectOf(LoaderSpec(e))
    ensures ShowsEntry(objs, e)
  {
    hide LoaderSpec, Sz, DecodeSz, ElementMap, StripNuls, DecodeUtf16;
    var es := LoaderSpec(e).elements;
    LoaderShape(e);
    ElementMapDescribes(es);
    SixIds(es);
    SzSays("\\Windows\\system32\\winload.efi");
    SzSays(e.description);
    SzSays("en-US");
    SzSays("\\Windows");
    SzRoundTrip(e.description);
    var m := ElementMap(es);
    assert m[es[0].id] == (3, e.device) && m[es[4].id] == (3, e.osdevice);
    assert m[es[1].id].0 == 1 && m[es[2].id].0 == 1 && m[es[3].id].0 == 1 && m[es[5].id].0 == 1;
  }

  lemma BootmgrShown(objs: map<string, Object>, entries: seq<Entry>, defaultGuid: string, timeout: dword,
                     device: seq<byte>)
    requires BOOTMGR_GUID in objs && objs[BOOTMGR_GUID] == ObjectOf(BootmgrSpec(entries, defaultGuid, timeout, device))
    ensures ShowsBootmgr(objs, entries, defaultGuid, timeout, device)
  {
    hide BootmgrSpec, Sz, MultiSz, DecodeSz, DecodeMultiSz, ElementMap, StripNuls, Le32, DecodeUtf16, DeviceBoot,
      Terminated, IsBootDevice;
    var es := BootmgrSpec(entries, defaultGuid, timeout, device).elements;
    BootmgrShape(entries, defaultGuid, timeout, device);
    ElementMapDescribes(es);
    SixIds(es);
    BootDeviceIs();
    DwordSays(timeout);
    SzSays("Windows Boot Manager");
    SzSays("en-US");
    SzSays(defaultGuid);
    SzRoundTrip(defaultGuid);
    MultiSzSays(EntryGuids(entries));
    MultiSzRoundTrip(EntryGuids(entries));
    var m := ElementMap(es);
    assert m[es[0].id].0 == 3 && m[es[4].id].0 == 7 && m[es[5].id] == (3, Le32(timeout));
    assert m[es[1].id].0 == 1 && m[es[2].id].0 == 1 && m[es[3].id].0 == 1;
  }

  lemma MultiSzSays(items: seq<string>)
    ensures DecodeUtf16(MultiSz(items)) == Some(Terminated(items) + [0 as char])
  {
    hide Terminated;
    MultiSzIsText(items);
    Utf16RoundTrip(Terminated(items) + [NUL]);
  }

  /**
   * The BCD round trip. Dumping a store built by mkbcd shows bootmgr and the
   * entries' GUIDs and nothing else; there is one object for each exactly when
   * the GUIDs are distinct, and then each shows what was written.
   */
  lemma MkbcdRoundTrip(store: seq<byte>, entries: seq<Entry>, defaultGuid: string, timeout: dword, device: seq<byte>,
                       fuel: nat)
    requires HoldsTree(store, Stored(StoreKey(MkbcdValues(), MkbcdSpecs(entries, defaultGuid, timeout, device))))
    requires fuel >= |store|
    ensures Dump(store, fuel).Ok?
    ensures var objs := Dump(store, fuel).value;
            && objs == Fold(map[], MkbcdSpecs(entries, defaultGuid, timeout, device))
            && objs.Keys == GuidSet(MkbcdSpecs(entries, defaultGuid, timeout, device))
            && (|objs| == |entries| + 1 <==> EntriesDistinct(entries))
            && (EntriesDistinct(entries) ==>
                  && (forall i :: 0 <= i < |entries| ==> ShowsEntry(objs, entries[i]))
                  && ShowsBootmgr(objs, entries, defaultGuid, timeout, device))
  {
    hide HoldsTree, Stored, StoreKey, MkbcdValues, MkbcdSpecs, Dump, ShowsEntry, ShowsBootmgr, LoaderSpec, BootmgrSpec,
      ElementMap, DistinctIds, DistinctGuids, EntriesDistinct;
    var os := MkbcdSpecs(entries, defaultGuid, timeout, device);
    MkbcdSpecsAre(entries, defaultGuid, timeout, device);
    DumpShowsWhatWasWritten(store, MkbcdValues(), os, fuel);
    OneObjectEach(os);
    var objs := Dump(store, fuel).value;
    assert |objs| == |objs.Keys|;
    if EntriesDistinct(entries) {
      BootmgrShape(entries, defaultGuid, timeout, device);
      assert objs[os[|entries|].guid] == ObjectOf(os[|entries|]);
      BootmgrShown(objs, entries, defaultGuid, timeout, device);
      forall i | 0 <= i < |entries|
        ensures ShowsEntry(objs, entries[i])
      {
        LoaderShape(entries[i]);
        assert objs[os[i].guid] == ObjectOf(os[i]);
        EntryShown(objs, entries[i]);
      }
    }
  }

  /** mkbcd and the dump one after the other, for every list of entries the format has room for. */
  method MkbcdAndDump(entries: seq<Entry>, defaultGuid: string, timeout: dword, device: seq<byte>)
    returns (objs: map<string, Object>)
    requires StoreFits(MkbcdValues(), MkbcdSpecs(entries, defaultGuid, timeout, device))
    ensures objs.Keys == GuidSet(MkbcdSpecs(entries, defaultGuid, timeout, device))
    ensures |objs| == |entries| + 1 <==> EntriesDistinct(entries)
    ensures EntriesDistinct(entries) ==>
              && (forall i :: 0 <= i < |entries| ==> ShowsEntry(objs, entries[i]))
              && ShowsBootmgr(objs, entries, defaultGuid, timeout, device)
  {
    hide *;
    var store := Mkbcd(entries, defaultGuid, timeout, device);
    MkbcdRoundTrip(store, entries, defaultGuid, timeout, device, |store|);
    var found := Collect(store, |store|);
    objs := found.value;
  }

  // ---- build_bcd ----

  /** None where device_partition raises ValueError; else the store for one Windows partition. */
  method BuildBcd(partition: seq<byte>, disk: seq<byte>, description: string, timeout: dword)
    returns (r: Option<seq<byte>>)
    requires PartitionElement(partition, disk).Some? ==>
               StoreFits(WtgValues(), WtgSpecs(PartitionElement(partition, disk).value, description, timeout))
    ensures r.Some? <==> |partition| == 16 && |disk| == 16
    ensures r.Some? ==> WtgStore(r.value, partition, disk, description, timeout)
  {
    hide *;
    PartitionFields(partition, disk);
    var device := DevicePartition(partition, disk);
    if device.None? {
      return None;
    }
    var store := BuildStore(WtgValues(), WtgSpecs(device.value, description, timeout));
    IsWtgStore(store, partition, disk, description, timeout);
    r := Some(store);
  }

  ghost predicate WtgStore(store: seq<byte>, partition: seq<byte>, disk: seq<byte>, description: string,
                           timeout: dword) {
    && PartitionElement(partition, disk).Some?
    && var t := Stored(StoreKey(WtgValues(), WtgSpecs(PartitionElement(partition, disk).value, description, timeout)));
    HoldsTree(store, t) && ReadsBackAs(store, t) && StandsWhole(store, "BCD", t)
  }

  lemma IsWtgStore(store: seq<byte>, partition: seq<byte>, disk: seq<byte>, description: string, timeout: dword)
    requires PartitionElement(partition, disk).Some?
    requires var d := PartitionElement(partition, disk).value;
             var t := Stored(StoreKey(WtgValues(), WtgSpecs(d, description, timeout)));
             HoldsTree(store, t) && ReadsBackAs(store, t) && StandsWhole(store, "BCD", t)
    ensures WtgStore(store, partition, disk, description, timeout)
  {
    hide HoldsTree, ReadsBackAs, StandsWhole, Stored, StoreKey, WtgValues, WtgSpecs, PartitionElement;
  }

  lemma WtgShape(device: seq<byte>, description: string, timeout: dword)
    ensures var os := WtgSpecs(device, description, timeout);
            && |os| == 2 && DistinctGuids(os)
            && os[0] == LoaderSpec(Entry(WTG_ENTRY_GUID, description, device, device))
            && os[1].guid == BOOTMGR_GUID && os[1].otype == 0x10100002 && |os[1].elements| == 7
            && os[1].elements[0] == Element("11000001", 3, DeviceBoot())
            && os[1].elements[1] == Element("12000002", 1, Sz("\\EFI\\Microsoft\\Boot\\bootmgfw.efi"))
            && os[1].elements[2] == Element("12000004", 1, Sz("Windows Boot Manager"))
            && os[1].elements[3] == Element("12000005", 1, Sz("en-US"))
            && os[1].elements[4] == Element("23000003", 1, Sz(WTG_ENTRY_GUID))
            && os[1].elements[5] == Element("24000001", 7, MultiSz([WTG_ENTRY_GUID]))
            && os[1].elements[6] == Element("25000004", 3, Le32(timeout))
  {
    hide Sz, MultiSz, Le32, DeviceBoot;
    var os := WtgSpecs(device, description, timeout);
    assert os[0].guid[1] == 'a' && os[1].guid[1] == '9';
  }

  lemma WtgBootmgrIds(device: seq<byte>, description: string, timeout: dword)
    ensures DistinctIds(WtgSpecs(device, description, timeout)[1].elements)
  {
    hide Sz, MultiSz, Le32, DeviceBoot, LoaderSpec;
    var es := WtgSpecs(device, description, timeout)[1].elements;
    assert es[0].id[7] == '1' && es[0].id[1] == '1';
    assert es[1].id[7] == '2';
    assert es[2].id[7] == '4' && es[2].id[1] == '2';
    assert es[3].id[7] == '5';
    assert es[4].id[7] == '3';
    assert es[5].id[7] == '1' && es[5].id[1] == '4';
    assert es[6].id[7] == '4' && es[6].id[1] == '5';
  }

  /** Every byte of a partition element: type 6, length 0x48, both raw GUIDs, zeros. */
  predicate IsPartitionDevice(raw: seq<byte>, partition: seq<byte>, disk: seq<byte>) {
    && |raw| == 88 && |partition| == 16 && |disk| == 16
    && forall k :: 0 <= k < 88 ==>
         raw[k] == if k == 16 then 6 else if k == 24 then 0x48
                   else if 32 <= k < 48 then partition[k - 32] else if 56 <= k < 72 then disk[k - 56] else 0
  }

  lemma PartitionDeviceIs(partition: seq<byte>, disk: seq<byte>)
    requires |partition| == 16 && |disk| == 16
    ensures PartitionElement(partition, disk).Some?
    ensures IsPartitionDevice(PartitionElement(partition, disk).value, partition, disk)
  {
    assert Le32(6) == [6, 0, 0, 0] && Le32(0x48) == [0x48, 0, 0, 0] && Le32(0) == [0, 0, 0, 0];
    hide Le32;
  }

  /** Bootmgr as the store of one Windows has it: it shows and starts that one loader. */
  ghost predicate IsWtgBootmgr(o: Object, timeout: dword) {
    && o.otype == Some(0x10100002)
    && o.elems.Keys == {"11000001", "12000002", "12000004", "12000005", "23000003", "24000001", "25000004"}
    && o.elems["11000001"].0 == 3 && IsBootDevice(o.elems["11000001"].1)
    && Says(o, "12000002", "\\EFI\\Microsoft\\Boot\\bootmgfw.efi")
    && Says(o, "12000004", "Windows Boot Manager") && Says(o, "12000005", "en-US")
    && Says(o, "23000003", "{a1b2c3d4-1111-4a2b-9c3d-4e5f60718293}")
    && SaysAll(o, "24000001", ["{a1b2c3d4-1111-4a2b-9c3d-4e5f60718293}"])
    && DecodeMultiSz(o.elems["24000001"].1) == Some(["{a1b2c3d4-1111-4a2b-9c3d-4e5f60718293}"])
    && HasNumber(o, "25000004", timeout)
  }

  /** Two objects: the loader, both of its devices the partition with both raw GUIDs, and bootmgr. */
  ghost predicate ShowsWtg(objs: map<string, Object>, partition: seq<byte>, disk: seq<byte>, description: string,
                           timeout: dword)
  {
    && objs.Keys == {"{a1b2c3d4-1111-4a2b-9c3d-4e5f60718293}", "{9dea862c-5cdd-4e70-acc1-f32b344d4795}"}
    && (exists device :: IsPartitionDevice(device, partition, disk)
          && IsLoader(objs["{a1b2c3d4-1111-4a2b-9c3d-4e5f60718293}"], description, device, device))
    && DecodeSz(objs["{a1b2c3d4-1111-4a2b-9c3d-4e5f60718293}"].elems["12000004"].1) == Some(StripNuls(description))
    && IsWtgBootmgr(objs["{9dea862c-5cdd-4e70-acc1-f32b344d4795}"], timeout)
  }

  lemma WtgGuidText()
    ensures WTG_ENTRY_GUID != "" && WTG_ENTRY_GUID[|WTG_ENTRY_GUID| - 1] != NUL && NUL !in WTG_ENTRY_GUID
  {
  }

  lemma SevenIds(es: seq<Element>)
    requires |es| == 7
    ensures Ids(es) == {es[0].id, es[1].id, es[2].id, es[3].id, es[4].id, es[5].id, es[6].id}
  {
  }

  lemma WtgBootmgrShown(device: seq<byte>, description: string, timeout: dword)
    ensures IsWtgBootmgr(ObjectOf(WtgSpecs(device, description, timeout)[1]), timeout)
  {
    hide WtgSpecs, Sz, MultiSz, DecodeSz, DecodeMultiSz, ElementMap, Le32, DeviceBoot, LoaderSpec, DecodeUtf16,
      Terminated, IsBootDevice;
    WtgShape(device, description, timeout);
    var es := WtgSpecs(device, description, timeout)[1].elements;
    WtgBootmgrIds(device, description, timeout);
    ElementMapDescribes(es);
    SevenIds(es);
    BootDeviceIs();
    DwordSays(timeout);
    SzSays("\\EFI\\Microsoft\\Boot\\bootmgfw.efi");
    SzSays("Windows Boot Manager");
    SzSays("en-US");
    SzSays(WTG_ENTRY_GUID);
    MultiSzSays([WTG_ENTRY_GUID]);
    WtgGuidText();
    MultiSzRoundTrip([WTG_ENTRY_GUID]);
    var m := ElementMap(es);
    assert m[es[0].id] == (3, DeviceBoot()) && m[es[5].id].0 == 7 && m[es[6].id] == (3, Le32(timeout));
    assert m[es[1].id].0 == 1 && m[es[2].id].0 == 1 && m[es[3].id].0 == 1 && m[es[4].id].0 == 1;
  }

  lemma WtgGuids(os: seq<Spec>)
    requires |os| == 2
    ensures GuidSet(os) == {os[0].guid, os[1].guid}
  {
    assert os[0].guid in GuidSet(os) && os[1].guid in GuidSet(os);
  }

  lemma WtgDumps(store: seq<byte>, device: seq<byte>, description: string, timeout: dword, fuel: nat)
    requires HoldsTree(store, Stored(StoreKey(WtgValues(), WtgSpecs(device, description, timeout)))) && fuel >= |store|
    ensures Dump(store, fuel).Ok?
    ensures var objs, os := Dump(store, fuel).value, WtgSpecs(device, description, timeout);
            && objs.Keys == {WTG_ENTRY_GUID, BOOTMGR_GUID}
            && objs[WTG_ENTRY_GUID] == ObjectOf(LoaderSpec(Entry(WTG_ENTRY_GUID, description, device, device)))
            && |os| == 2 && objs[BOOTMGR_GUID] == ObjectOf(os[1])
  {
    hide HoldsTree, Stored, StoreKey, WtgValues, WtgSpecs, Dump, LoaderSpec, ElementMap, DistinctIds, DistinctGuids,
      ElementsUnder, LastType, GuidSet, ObjectOf, Sz, MultiSz, DeviceBoot;
    var os := WtgSpecs(device, description, timeout);
    WtgShape(device, description, timeout);
    WtgBootmgrIds(device, description, timeout);
    LoaderShape(Entry(WTG_ENTRY_GUID, description, device, device));
    DumpShowsWhatWasWritten(store, WtgValues(), os, fuel);
    WtgGuids(os);
    var objs := Dump(store, fuel).value;
    assert objs[os[0].guid] == ObjectOf(os[0]) && objs[os[1].guid] == ObjectOf(os[1]);
  }

  /**
   * Dumping the store shows exactly bootmgr and one loader; the loader's device
   * elements hold the two GUIDs given, raw, and bootmgr starts that loader.
   */
  lemma WtgRoundTrip(store: seq<byte>, partition: seq<byte>, disk: seq<byte>, description: string, timeout: dword,
                     fuel: nat)
    requires WtgStore(store, partition, disk, description, timeout) && fuel >= |store|
    ensures Dump(store, fuel).Ok? && ShowsWtg(Dump(store, fuel).value, partition, disk, description, timeout)
  {
    hide HoldsTree, ReadsBackAs, Stored, StoreKey, WtgValues, WtgSpecs, PartitionElement, Dump, LoaderSpec, ObjectOf,
      DecodeSz, DecodeMultiSz, StripNuls, IsWtgBootmgr, IsLoader, StandsWhole, IsPartitionDevice;
    PartitionFields(partition, disk);
    PartitionDeviceIs(partition, disk);
    var device := PartitionElement(partition, disk).value;
    WtgDumps(store, device, description, timeout, fuel);
    EntryShown(Dump(store, fuel).value, Entry(WTG_ENTRY_GUID, description, device, device));
    WtgBootmgrShown(device, description, timeout);
  }

  // ---- the store's own description ----

  /** The walk begins with the root, the Description key with these values, and the Objects key. */
  ghost predicate BeginsWith(store: seq<byte>, values: seq<ReadValue>) {
    && RootOffset(store).Ok?
    && var walk := Walk(store, RootOffset(store).value, "", |store|);
    && walk.Ok? && |walk.value| >= 3
    && walk.value[0].path == "System" && walk.value[1].path == "System\\Description"
    && walk.value[2].path == "System\\Objects"
    && ValuesOf(store, walk.value[1].nk.values, walk.value[1].nk.list) == Ok(values)
  }

  lemma StoreBeginsWith(store: seq<byte>, values: seq<Val>, os: seq<Spec>)
    requires ReadsBackAs(store, Stored(StoreKey(values, os)))
    ensures BeginsWith(store, ReadBackAll(values))
  {
    hide Stored, StoreKey, StoredEach, ObjectKeys, ReadBackAll, Walk, Pick, Order, PreorderEach, ValuesOf, ObjectKey,
      Distinct, VisitOffsets;
    var sorted := Pick(os, Order(BcdRoundTrip.Guids(os)));
    var desc, all := Key("Description", values, []), Key("Objects", [], StoredEach(ObjectKeys(sorted)));
    StoredStoreKey(values, os);
    var t := Key("System", [], [desc, all]);
    FirstThree(desc, all);
    assert WalksAs(store, RootOffset(store).value, "", |store|, t);
    var walk := Walk(store, RootOffset(store).value, "", |store|).value;
    assert Shows(store, walk[1].nk, desc);
  }

  lemma FirstThree(desc: Key, all: Key)
    requires desc.name == "Description" && desc.subkeys == [] && all.name == "Objects"
    ensures var items := Preorder(Key("System", [], [desc, all]), "");
            && |items| >= 3 && items[0].0 == "System"
            && items[1] == ("System\\Description", desc) && items[2] == ("System\\Objects", all)
  {
    var kids := [desc, all];
    assert kids[1..] == [all];
    PathsBelow();
    LeafAlone(desc, "System");
    OnePath(all, "System");
    OnePath(Key("System", [], kids), "");
    assert PreorderEach(kids, "System") == Preorder(desc, "System") + PreorderEach([all], "System");
    assert PreorderEach([all], "System") == Preorder(all, "System") + PreorderEach([all][1..], "System");
  }

  lemma PathsBelow()
    ensures JoinPath("System", "Description") == "System\\Description" && JoinPath("", "System") == "System"
    ensures JoinPath("System", "Objects") == "System\\Objects"
  {
  }

  lemma LeafAlone(t: Key, path: string)
    requires t.subkeys == []
    ensures Preorder(t, path) == [(JoinPath(path, t.name), t)]
  {
    hide JoinPath;
  }

  lemma OnePath(t: Key, path: string)
    ensures Preorder(t, path) == [(JoinPath(path, t.name), t)] + PreorderEach(t.subkeys, JoinPath(path, t.name))
  {
    hide JoinPath, PreorderEach;
  }

  /** KeyName "BCD00000000", and System set: the registry key it is mounted under, and that it is the system store. */
  lemma WtgDescription(store: seq<byte>, partition: seq<byte>, disk: seq<byte>, description: string, timeout: dword)
    returns (name: seq<byte>)
    requires WtgStore(store, partition, disk, description, timeout)
    ensures DecodeUtf16(name) == Some("BCD00000000" + [0 as char])
    ensures BeginsWith(store, [ReadValue("KeyName", 1, name), ReadValue("System", 4, [1, 0, 0, 0])])
  {
    hide HoldsTree, StandsWhole, ReadsBackAs, Stored, StoreKey, WtgSpecs, PartitionElement, BeginsWith, Sz, DecodeUtf16;
    name := Sz("BCD00000000");
    SzSays("BCD00000000");
    StoreBeginsWith(store, WtgValues(), WtgSpecs(PartitionElement(partition, disk).value, description, timeout));
    assert Le32(1) == [1, 0, 0, 0];
    assert ReadBackAll(WtgValues()) == [ReadValue("KeyName", 1, name), ReadValue("System", 4, Le32(1))];
  }

  lemma MkbcdDescription(store: seq<byte>, entries: seq<Entry>, defaultGuid: string, timeout: dword,
                         device: seq<byte>) returns (name: seq<byte>)
    requires ReadsBackAs(store, Stored(StoreKey(MkbcdValues(), MkbcdSpecs(entries, defaultGuid, timeout, device))))
    ensures DecodeUtf16(name) == Some("BCD" + [0 as char]) && BeginsWith(store, [ReadValue("KeyName", 1, name)])
  {
    hide ReadsBackAs, Stored, StoreKey, MkbcdSpecs, BeginsWith, Sz, DecodeUtf16;
    name := Sz("BCD");
    SzSays("BCD");
    StoreBeginsWith(store, MkbcdValues(), MkbcdSpecs(entries, defaultGuid, timeout, device));
    assert ReadBackAll(MkbcdValues()) == [ReadValue("KeyName", 1, name)];
  }
}
