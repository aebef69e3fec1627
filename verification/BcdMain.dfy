/** bcd_logic.py as a program: from a disk's GPT to a store that boots its partition. */
module BcdMain {
  import opened Bytes
  import opened Text
  import opened HiveReader
  import opened Bcd
  import opened BcdBuild
  import opened BcdDump
  import opened BcdStores
  import opened BcdFits
  import opened Gpt

  const TIMEOUT: dword := 30

  /** None where the program ends in an exception instead of a store. */
  method StoreForDisk(disk: seq<byte>, number: int, description: string) returns (r: Option<seq<byte>>)
    requires |description| <= MAX_DESCRIPTION
    ensures r.Some? <==> HasPartition(disk, number)
    ensures r.Some? ==>
              var sector, off := SectorOf(disk), EntryStart(disk, number);
              WtgStore(r.value, disk[off + 16..off + 32], disk[sector + 56..sector + 72], description, 30)
  {
    hide Find, WtgStore, WtgSpecs, WtgValues, PartitionElement, StoreFits, SignedAt, IsZero, U64At, U32At;
    FindsExactly(disk, number);
    var found := GptGuids(disk, number);
    if found.Error? {
      return None;
    }
    PartitionFields(found.partition, found.disk);
    if |found.partition| == 16 && |found.disk| == 16 {
      WtgFits(PartitionElement(found.partition, found.disk).value, description, TIMEOUT);
    }
    r := BuildBcd(found.partition, found.disk, description, TIMEOUT);
  }

  /**
   * GPT to BCD, end to end: on a disk laid out per the UEFI Specification, the
   * program succeeds for every used partition, and the loader's device element
   * read back from its store holds that partition's and the disk's raw GUIDs.
   */
  lemma DiskRoundTrip(disk: seq<byte>, sector: nat, g: Layout, n: nat, kind: seq<byte>, unique: seq<byte>,
                      description: string, store: seq<byte>, fuel: nat)
    requires HeaderAt(disk, sector, g) && EntryAt(disk, sector, g, n, kind, unique) && kind != Zeros(16)
    requires sector == 512 || (sector == 4096 && !HasSignature(disk, 512))
    requires Find(disk, n).Guids? ==> WtgStore(store, Find(disk, n).partition, Find(disk, n).disk, description, TIMEOUT)
    requires fuel >= |store|
    ensures Find(disk, n) == Guids(unique, g.disk) && |unique| == 16 && |g.disk| == 16
    ensures Dump(store, fuel).Ok? && ShowsWtg(Dump(store, fuel).value, unique, g.disk, description, TIMEOUT)
  {
    hide Find, WtgStore, ShowsWtg, Dump, HasSignature;
    FindReadsLayout(disk, sector, g, n, kind, unique);
    WtgRoundTrip(store, unique, g.disk, description, TIMEOUT, fuel);
  }

  /** The two programs one after the other: what the dump of the store shows, for every disk and partition number. */
  method DumpForDisk(disk: seq<byte>, number: int, description: string) returns (objs: Option<map<string, Object>>)
    requires |description| <= MAX_DESCRIPTION
    ensures objs.Some? <==> HasPartition(disk, number)
    ensures objs.Some? ==>
              var sector, off := SectorOf(disk), EntryStart(disk, number);
              ShowsWtg(objs.value, disk[off + 16..off + 32], disk[sector + 56..sector + 72], description, 30)
  {
    hide WtgStore, ShowsWtg, Dump, SignedAt, IsZero, U64At, U32At;
    ghost var sector := SectorOf(disk);
    var store := StoreForDisk(disk, number, description);
    if store.None? {
      return None;
    }
    ghost var off := EntryStart(disk, number);
    WtgRoundTrip(store.value, disk[off + 16..off + 32], disk[sector + 56..sector + 72], description, TIMEOUT,
                 |store.value|);
    var found := Collect(store.value, |store.value|);
    return Some(found.value);
  }
}
