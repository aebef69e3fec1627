/** bios_boot_code: GRUB's boot.img and core.img patched to boot from the gap before the first partition. */
module GrubBoot {
  import opened Bytes
  import opened Text

  const SECTOR: nat := 512
  const BLOCKLIST: nat := 12
  const FIRST: nat := 500
  const CORE_SEGMENT: nat := 0x820
  const NO_RS_LENGTH: nat := 0x214
  const MAX_CORE_SECTORS: nat := 2047
  const KERNEL_SECTOR: nat := 0x5C
  const LOAD_ADDRESS: nat := 0x8000

  datatype BootCode = Code(boot: seq<byte>, core: seq<byte>) | TooBig | VersionMismatch

  /** Where a slice bound falls: negative ones count from the end, and all are clipped. */
  function Bound(i: int, n: nat): (r: nat)
    ensures r <= n && (0 <= i <= n ==> r == i)
  {
    var j := if i < 0 then i + n else i;
    if j < 0 then 0 else if j < n then j else n
  }

  /** Assigning to a slice of a bytearray: it may grow or shrink, and crossed bounds insert at the first. */
  function SliceAssign(s: seq<byte>, from: int, to: int, v: seq<byte>): (r: seq<byte>)
    ensures 0 <= from <= to <= |s| && |v| == to - from ==> r == Overwrite(s, from, v)
  {
    var lo := Bound(from, |s|);
    var hi := if Bound(to, |s|) < lo then lo else Bound(to, |s|);
    s[..lo] + v + s[hi..]
  }

  /** A slice, with Python's reading of its bounds. */
  function PySlice(s: seq<byte>, from: int, to: int): (r: seq<byte>)
    ensures 0 <= from <= to ==> r == Slice(s, from, to)
    ensures 0 <= from <= to || from <= to < 0 ==> |r| <= to - from
  {
    var lo, hi := Bound(from, |s|), Bound(to, |s|);
    if lo <= hi then s[lo..hi] else []
  }

  /** How many sectors hold n bytes. */
  function Sectors(n: nat): (r: nat)
    ensures r * SECTOR >= n && (r > 0 ==> (r - 1) * SECTOR < n)
  {
    (n + 511) / 512
  }

  function Padded(core: seq<byte>): (r: seq<byte>)
    ensures |r| == Sectors(|core|) * SECTOR
  {
    core + Zeros(Sectors(|core|) * SECTOR - |core|)
  }

  /** At most two bytes as a little-endian number. */
  function LittleInt(s: seq<byte>): nat
    requires |s| <= 2
  {
    if |s| == 0 then 0 else if |s| == 1 then s[0] else U16At(s, 0)
  }

  function Length(core: seq<byte>, at: nat): nat {
    LittleInt(Slice(core, at + 8, at + 10))
  }

  /** Walking down from `at`, the first block list slot whose length is zero; None past the sector's start. */
  function Stop(core: seq<byte>, at: nat): (r: Option<nat>)
    ensures r.Some? ==> r.value <= at
  {
    if Length(core, at) == 0 then Some(at) else if at < BLOCKLIST then None else Stop(core, at - BLOCKLIST)
  }

  /** The one entry that has the rest of the core loaded behind its first sector. */
  function ListEntry(nsec: nat): (r: seq<byte>)
    requires 1 < nsec <= MAX_CORE_SECTORS
    ensures |r| == BLOCKLIST
  {
    Le64(2) + Le16(nsec - 1) + Le16(CORE_SEGMENT)
  }

  /** The MBR: boot.img with the disk's own parameter block and partition table, pointing at LBA 1. */
  function Mbr(boot: seq<byte>, sector0: seq<byte>): (r: seq<byte>)
    requires |boot| >= 0x1FE && |sector0| >= 0x1FE
    ensures |r| == |boot|
  {
    boot[..3] + sector0[3..0x5A] + boot[0x5A..0x5C] + Le64(1) + [0xFF] + boot[0x65..0x66] + [0x90, 0x90]
    + boot[0x68..0x1B8] + sector0[0x1B8..0x1FE] + boot[0x1FE..]
  }

  /** The first sector with every slot above `at` cleared. */
  function Cleared(padded: seq<byte>, at: int): (r: seq<byte>)
    requires -4 <= at <= FIRST && |padded| >= SECTOR
    ensures |r| == |padded|
  {
    padded[..at + BLOCKLIST] + Zeros(FIRST - at) + padded[SECTOR..]
  }

  /** No slot from byte 500 down to byte 8 has length zero, and neither has the one that would begin before the core. */
  predicate Grows(padded: seq<byte>) {
    |padded| >= SECTOR && Stop(padded, FIRST).None? && LittleInt(padded[4..6]) != 0
  }

  /**
   * What the erase loop leaves. Past the sector's start its index is negative:
   * the length it looks at there is that of bytes 4 and 5, and clearing that
   * slot inserts twelve zeros before the last four bytes, which end the loop.
   */
  function Erased(padded: seq<byte>): (r: seq<byte>)
    requires |padded| >= SECTOR
    ensures |r| == |padded| + if Grows(padded) then BLOCKLIST else 0
  {
    var stop := Stop(padded, FIRST);
    var cleared := Cleared(padded, if stop.Some? then stop.value else -4);
    if Grows(padded) then Grown(cleared) else cleared
  }

  function Grown(core: seq<byte>): (r: seq<byte>)
    requires |core| >= SECTOR
    ensures |r| == |core| + BLOCKLIST
  {
    core[..|core| - 4] + Zeros(BLOCKLIST) + core[|core| - 4..]
  }

  /** The new list, if there is more than one sector, and the zero entry that ends it. */
  function Listed(core: seq<byte>, nsec: nat): (r: seq<byte>)
    requires |core| >= SECTOR && nsec <= MAX_CORE_SECTORS
    ensures |r| == |core|
  {
    if nsec > 1 then core[..FIRST - BLOCKLIST] + Zeros(BLOCKLIST) + ListEntry(nsec) + core[SECTOR..]
    else core[..FIRST] + Zeros(BLOCKLIST) + core[SECTOR..]
  }

  /** The core as it is written from LBA 1 on. */
  function Embedded(core: seq<byte>): (r: seq<byte>)
    requires core != [] && Sectors(|core|) <= MAX_CORE_SECTORS
    ensures |r| == Sectors(|core|) * SECTOR + if Grows(Padded(core)) then BLOCKLIST else 0
  {
    Listed(Erased(Padded(core)), Sectors(|core|))
  }

  /** The MBR is boot.img with five ranges overwritten. */
  lemma MbrPieces(boot: seq<byte>, sector0: seq<byte>)
    requires |boot| >= 0x1FE && |sector0| >= 0x1FE
    ensures var parameters := Overwrite(boot, 3, sector0[3..0x5A]);
            var table := Overwrite(parameters, 0x1B8, sector0[0x1B8..0x1FE]);
            var nops := Overwrite(table, 0x66, [0x90, 0x90]);
            Overwrite(nops[0x64 := 0xFF], KERNEL_SECTOR, Le64(1)) == Mbr(boot, sector0)
  {
    hide Le64, Mbr, Overwrite;
    var parameters := Overwrite(boot, 3, sector0[3..0x5A]);
    var table := Overwrite(parameters, 0x1B8, sector0[0x1B8..0x1FE]);
    var nops := Overwrite(table, 0x66, [0x90, 0x90]);
    var named := Overwrite(nops[0x64 := 0xFF], KERNEL_SECTOR, Le64(1));
    forall i: nat | i < |boot|
      ensures named[i] == Mbr(boot, sector0)[i]
    {
      OverwrittenAt(boot, 3, sector0[3..0x5A], i);
      OverwrittenAt(parameters, 0x1B8, sector0[0x1B8..0x1FE], i);
      OverwrittenAt(table, 0x66, [0x90, 0x90], i);
      OverwrittenAt(nops[0x64 := 0xFF], KERNEL_SECTOR, Le64(1), i);
      MbrAt(boot, sector0, i);
    }
  }

  lemma OverwrittenAt(s: seq<byte>, from: nat, v: seq<byte>, i: nat)
    requires from + |v| <= |s| && i < |s|
    ensures Overwrite(s, from, v)[i] == if from <= i < from + |v| then v[i - from] else s[i]
  {
  }

  lemma MbrAt(boot: seq<byte>, sector0: seq<byte>, i: nat)
    requires |boot| >= 0x1FE && |sector0| >= 0x1FE && i < |boot|
    ensures Mbr(boot, sector0)[i] ==
              if 3 <= i < 0x5A || 0x1B8 <= i < 0x1FE then sector0[i]
              else if KERNEL_SECTOR <= i < KERNEL_SECTOR + 8 then Le64(1)[i - KERNEL_SECTOR]
              else if i == 0x64 then 0xFF
              else if i in {0x66, 0x67} then 0x90
              else boot[i]
  {
    hide Le64;
  }

  method PatchBoot(bootImg: seq<byte>, sector0: seq<byte>) returns (boot: seq<byte>)
    requires |bootImg| >= 0x1FE && |sector0| >= 0x1FE
    ensures boot == Mbr(bootImg, sector0)
  {
    hide Le64, Zeros, SliceAssign, Overwrite, Mbr;
    boot := bootImg;
    boot := SliceAssign(boot, 3, 0x5A, sector0[3..0x5A]);
    boot := SliceAssign(boot, 0x1B8, 0x1FE, sector0[0x1B8..0x1FE]);
    boot := SliceAssign(boot, 0x66, 0x68, [0x90, 0x90]);
    boot := boot[0x64 := 0xFF];
    boot := SliceAssign(boot, KERNEL_SECTOR, KERNEL_SECTOR + 8, Le64(1));
    MbrPieces(bootImg, sector0);
  }

  /** The mark of a core that another version of GRUB made: 0xFF twice at 0x214. */
  lemma MarkStands(core: seq<byte>)
    ensures Slice(Padded(core), NO_RS_LENGTH, NO_RS_LENGTH + 2) == [0xFF, 0xFF]
            <==> |core| > 0x215 && core[0x214] == 0xFF && core[0x215] == 0xFF
  {
    var padded := Padded(core);
    if |padded| > 0x215 {
      assert padded[0x214..0x216] == [padded[0x214], padded[0x215]];
    }
  }

  method BiosBootCode(bootImg: seq<byte>, coreImg: seq<byte>, sector0: seq<byte>) returns (r: BootCode)
    requires |bootImg| >= 0x1FE && |sector0| >= 0x1FE
    ensures r.TooBig? <==> |coreImg| > 2047 * 512
    ensures r.VersionMismatch? <==>
              0x215 < |coreImg| <= 2047 * 512 && coreImg[0x214] == 0xFF && coreImg[0x215] == 0xFF
    ensures r.Code? ==> r.boot == Mbr(bootImg, sector0)
    ensures r.Code? ==> r.core == if coreImg == [] then Zeros(BLOCKLIST) else Embedded(coreImg)
  {
    hide Le64, Zeros, Stop, Length, ListEntry, Listed, Erased, Mbr;
    var boot := PatchBoot(bootImg, sector0);

    var nsec := Sectors(|coreImg|);
    if nsec > MAX_CORE_SECTORS {
      return TooBig;
    }
    var core := coreImg + Zeros(nsec * SECTOR - |coreImg|);
    MarkStands(coreImg);
    if Slice(core, NO_RS_LENGTH, NO_RS_LENGTH + 2) == [0xFF, 0xFF] {
      return VersionMismatch;
    }
    core := Embed(core, nsec);
    r := Code(boot, core);
  }

  /** The erase loop, then the new list and its terminator. */
  method Embed(padded: seq<byte>, nsec: nat) returns (core: seq<byte>)
    requires |padded| == nsec * SECTOR && nsec <= MAX_CORE_SECTORS
    ensures core == if nsec == 0 then Zeros(BLOCKLIST) else Listed(Erased(padded), nsec)
  {
    hide Listed;
    core := Erase(padded);
    core := WriteList(core, nsec);
  }

  method Erase(padded: seq<byte>) returns (core: seq<byte>)
    requires padded == [] || |padded| >= SECTOR
    ensures core == if padded == [] then [] else Erased(padded)
  {
    hide Reached, Erased, PySlice, SliceAssign, LittleIntAt;
    core := padded;
    var at: int := FIRST;
    ReachedFirst(padded);
    while LittleIntAt(core, at) != 0
      invariant if padded == [] then core == [] && at == FIRST else Reached(padded, core, at)
      decreases at + 28
    {
      EraseStep(padded, core, at);
      core := SliceAssign(core, at, at + BLOCKLIST, Zeros(BLOCKLIST));
      at := at - BLOCKLIST;
    }
    if padded != [] {
      ReachedStop(padded, core, at);
    }
  }

  /** The loop has come down to `at`: to a slot, to the one that begins before the core, or past that. */
  predicate Reached(padded: seq<byte>, core: seq<byte>, at: int) {
    && |padded| >= SECTOR && (FIRST - at) % BLOCKLIST == 0
    && ((8 <= at <= FIRST && Stop(padded, at) == Stop(padded, FIRST) && core == Cleared(padded, at))
        || (at == -4 && Stop(padded, FIRST) == None && core == Cleared(padded, at))
        || (at == -16 && Grows(padded) && core == Grown(Cleared(padded, -4))))
  }

  lemma ReachedFirst(padded: seq<byte>)
    ensures |padded| >= SECTOR ==> Reached(padded, padded, FIRST)
    ensures padded == [] ==> LittleIntAt(padded, FIRST) == 0
  {
    NothingCleared(padded);
  }

  lemma EraseStep(padded: seq<byte>, core: seq<byte>, at: int)
    requires padded == [] ==> core == [] && at == FIRST
    requires padded != [] ==> Reached(padded, core, at)
    requires LittleIntAt(core, at) != 0
    ensures padded != [] && Reached(padded, SliceAssign(core, at, at + BLOCKLIST, Zeros(BLOCKLIST)), at - BLOCKLIST)
    ensures at >= -4
  {
    hide Stop, Cleared, Grown, Zeros, PySlice, SliceAssign;
    if padded == [] {
      ReachedFirst(padded);
    } else if at >= 8 {
      StopStep(padded, at);
      ClearedSlot(padded, at);
    } else if at == -4 {
      ClearedFront(padded);
    } else {
      GrownEnds(Cleared(padded, -4));
    }
  }

  /** The length in the slot at `at`, wherever that falls. */
  function LittleIntAt(core: seq<byte>, at: int): nat {
    LittleInt(PySlice(core, at + 8, at + 10))
  }

  lemma ReachedStop(padded: seq<byte>, core: seq<byte>, at: int)
    requires Reached(padded, core, at) && LittleIntAt(core, at) == 0
    ensures core == Erased(padded)
  {
    hide Stop, Cleared, Grown, Zeros, PySlice;
    if at >= 8 {
      StopStep(padded, at);
      ClearedSlot(padded, at);
    } else {
      ClearedFront(padded);
    }
  }

  lemma NothingCleared(padded: seq<byte>)
    ensures |padded| >= SECTOR ==> Cleared(padded, FIRST) == padded
  {
  }

  lemma ClearedSlot(padded: seq<byte>, at: nat)
    requires 8 <= at <= FIRST && |padded| >= SECTOR
    ensures PySlice(Cleared(padded, at), at + 8, at + 10) == Slice(padded, at + 8, at + 10)
    ensures SliceAssign(Cleared(padded, at), at, at + BLOCKLIST, Zeros(BLOCKLIST)) == Cleared(padded, at - BLOCKLIST)
  {
    var c := Cleared(padded, at);
    assert c[at + 8..at + 10] == padded[at + 8..at + 10];
    SlotCleared(padded, at);
  }

  lemma SlotCleared(padded: seq<byte>, at: nat)
    requires 8 <= at <= FIRST && |padded| >= SECTOR
    ensures Overwrite(Cleared(padded, at), at, Zeros(BLOCKLIST)) == Cleared(padded, at - BLOCKLIST)
  {
    hide Zeros;
    var zeros := Zeros(FIRST - (at - BLOCKLIST));
    assert zeros == Zeros(BLOCKLIST) + Zeros(FIRST - at);
  }

  lemma ClearedFront(padded: seq<byte>)
    requires |padded| >= SECTOR
    ensures PySlice(Cleared(padded, -4), 4, 6) == padded[4..6]
    ensures SliceAssign(Cleared(padded, -4), -4, 8, Zeros(BLOCKLIST)) == Grown(Cleared(padded, -4))
  {
    hide Zeros;
  }

  lemma GrownEnds(core: seq<byte>)
    requires |core| >= SECTOR
    ensures PySlice(Grown(core), -8, -6) == [0, 0]
  {
  }

  lemma StopStep(core: seq<byte>, at: nat)
    ensures Length(core, at) == 0 ==> Stop(core, at) == Some(at)
    ensures Length(core, at) != 0 && at < BLOCKLIST ==> Stop(core, at) == None
    ensures Length(core, at) != 0 && at >= BLOCKLIST ==> Stop(core, at) == Stop(core, at - BLOCKLIST)
  {
  }

  method WriteList(cleared: seq<byte>, nsec: nat) returns (core: seq<byte>)
    requires nsec <= MAX_CORE_SECTORS && (nsec == 0 ==> cleared == []) && (nsec > 0 ==> |cleared| >= SECTOR)
    ensures core == if nsec == 0 then Zeros(BLOCKLIST) else Listed(cleared, nsec)
  {
    hide Le64;
    core := cleared;
    var end := FIRST;
    if nsec > 1 {
      core := SliceAssign(core, FIRST, FIRST + BLOCKLIST, ListEntry(nsec));
      end := end - BLOCKLIST;
    }
    core := SliceAssign(core, end, end + BLOCKLIST, Zeros(BLOCKLIST));
  }

  /**
   * What embedding changes: in the first sector nothing below the old list's
   * lowest used slot (and below the new list), above it only zeros and the new
   * entry; behind it nothing, unless the core grows: then its last four bytes
   * have moved back by twelve zeros.
   */
  lemma EmbeddedBytes(core: seq<byte>)
    requires core != [] && Sectors(|core|) <= MAX_CORE_SECTORS
    ensures var nsec, padded := Sectors(|core|), Padded(core);
            var used := if Stop(padded, FIRST).Some? then Stop(padded, FIRST).value + BLOCKLIST else 8;
            var end := if nsec > 1 then FIRST - BLOCKLIST else FIRST;
            && |padded| >= SECTOR && |Embedded(core)| >= |padded|
            && (forall i :: 0 <= i < used && i < end ==> Embedded(core)[i] == padded[i])
            && (forall i :: 0 <= i < FIRST && (i >= used || i >= end) ==> Embedded(core)[i] == 0)
            && Embedded(core)[FIRST..SECTOR] == (if nsec > 1 then ListEntry(nsec) else Zeros(BLOCKLIST))
            && (forall i :: SECTOR <= i < |padded| ==>
                  Embedded(core)[i] == if Grows(padded) && i >= |padded| - 4 then 0 else padded[i])
  {
    hide ListEntry, Stop, Sectors;
    var padded := Padded(core);
    ErasedBytes(padded);
    assert Embedded(core) == Listed(Erased(padded), Sectors(|core|));
  }

  lemma ErasedBytes(padded: seq<byte>)
    requires |padded| >= SECTOR
    ensures var used := if Stop(padded, FIRST).Some? then Stop(padded, FIRST).value + BLOCKLIST else 8;
            && (forall i :: 0 <= i < SECTOR ==> Erased(padded)[i] == if i < used then padded[i] else 0)
            && (forall i :: SECTOR <= i < |padded| ==>
                  Erased(padded)[i] == if Grows(padded) && i >= |padded| - 4 then 0 else padded[i])
  {
    hide Stop, Cleared, Grown;
    var at := if Stop(padded, FIRST).Some? then Stop(padded, FIRST).value else -4;
    ClearedBytes(padded, at);
    GrownBytes(Cleared(padded, at));
  }

  lemma ClearedBytes(padded: seq<byte>, at: int)
    requires -4 <= at <= FIRST && |padded| >= SECTOR
    ensures forall i :: 0 <= i < |padded| ==>
                          Cleared(padded, at)[i] == if at + BLOCKLIST <= i < SECTOR then 0 else padded[i]
  {
  }

  lemma GrownBytes(core: seq<byte>)
    requires |core| >= SECTOR
    ensures forall i :: 0 <= i < |core| - 4 ==> Grown(core)[i] == core[i]
    ensures forall i :: |core| - 4 <= i < |core| ==> Grown(core)[i] == 0
  {
  }

  // ---- the boot loader ----

  /** Reading n sectors of the disk at an LBA into memory; None past either end. */
  function Load(disk: seq<byte>, mem: seq<byte>, lba: nat, n: nat, address: nat): Option<seq<byte>> {
    if (lba + n) * SECTOR <= |disk| && address + n * SECTOR <= |mem|
    then Some(Overwrite(mem, address, disk[lba * SECTOR..(lba + n) * SECTOR]))
    else None
  }

  /**
   * The first sector's own loop: from the slot at `at`, counted from the load
   * address, downwards to one whose length is zero.
   */
  function FollowList(disk: seq<byte>, mem: seq<byte>, at: nat): Option<seq<byte>>
    requires LOAD_ADDRESS + at + BLOCKLIST <= |mem|
    decreases at
  {
    var slot := LOAD_ADDRESS + at;
    var n := U16At(mem, slot + 8);
    if n == 0 then Some(mem)
    else
      var next := Load(disk, mem, U64At(mem, slot), n, U16At(mem, slot + 10) * 16);
      if next.None? || at < BLOCKLIST then None else FollowList(disk, next.value, at - BLOCKLIST)
  }

  /** The BIOS has run the MBR: it loads one sector from the LBA it names, which loads the rest. */
  function Boot(disk: seq<byte>, mem: seq<byte>): Option<seq<byte>>
    requires |disk| >= SECTOR && |mem| >= LOAD_ADDRESS + SECTOR
  {
    var first := Load(disk, mem, U64At(disk, KERNEL_SECTOR), 1, LOAD_ADDRESS);
    if first.None? then None else FollowList(disk, first.value, FIRST)
  }

  /** The two writes of _install_bios_boot. */
  function Installed(disk: seq<byte>, code: BootCode): (r: seq<byte>)
    requires code.Code? && SECTOR + |code.core| <= |disk| && |code.boot| <= |disk|
    ensures |r| == |disk|
  {
    Overwrite(Overwrite(disk, SECTOR, code.core), 0, code.boot)
  }

  lemma MbrFields(boot: seq<byte>, sector0: seq<byte>)
    requires |boot| >= 0x1FE && |sector0| >= 0x1FE
    ensures U64At(Mbr(boot, sector0), KERNEL_SECTOR) == 1
    ensures Mbr(boot, sector0)[0x1B8..0x1FE] == sector0[0x1B8..0x1FE]
    ensures Mbr(boot, sector0)[3..0x5A] == sector0[3..0x5A] && Mbr(boot, sector0)[0x1FE..] == boot[0x1FE..]
  {
    hide Le64;
    var head := boot[..3] + sector0[3..0x5A] + boot[0x5A..0x5C];
    var tail := [0xFF] + boot[0x65..0x66] + [0x90, 0x90] + boot[0x68..0x1B8] + sector0[0x1B8..0x1FE] + boot[0x1FE..];
    assert Mbr(boot, sector0) == head + (Le64(1) + tail);
    FieldInTail(head, Le64(1) + tail, 0);
    FieldInTail(head, Le64(1) + tail, 4);
  }

  lemma ListEntryFields(nsec: nat)
    requires 1 < nsec <= MAX_CORE_SECTORS
    ensures U64At(ListEntry(nsec), 0) == 2 && U16At(ListEntry(nsec), 8) == nsec - 1
    ensures U16At(ListEntry(nsec), 10) == CORE_SEGMENT
  {
    hide Le64, Le16;
    var a, b, c := Le64(2), Le16(nsec - 1), Le16(CORE_SEGMENT);
    assert ListEntry(nsec) == a + (b + c);
    FieldInTail(a, b + c, 0);
    FieldInTail(a, b + c, 2);
    FieldInTail(b, c, 0);
  }

  /** The sectors of the embedded core that its list counts. */
  function Loaded(core: seq<byte>): (r: seq<byte>)
    requires core != [] && Sectors(|core|) <= MAX_CORE_SECTORS
    ensures |r| == Sectors(|core|) * SECTOR && r == Embedded(core)[..|r|]
  {
    Embedded(core)[..Sectors(|core|) * SECTOR]
  }

  /**
   * The boot chain. With the patched images installed, the loader ends, and has
   * put all sectors of the core at 0x8000, one after the other, touching no
   * other memory. The writes end before the partition at 1 MiB, except for
   * a core of the largest size that grows: that one reaches 12 bytes into it.
   */
  lemma BootsTheCore(disk: seq<byte>, bootImg: seq<byte>, core: seq<byte>, sector0: seq<byte>, mem: seq<byte>)
    requires |bootImg| == SECTOR && |sector0| >= 0x1FE
    requires core != [] && Sectors(|core|) <= MAX_CORE_SECTORS
    requires |disk| >= 0x10_0000 + BLOCKLIST && |mem| >= LOAD_ADDRESS + |Padded(core)|
    ensures SECTOR + |Embedded(core)| <= 0x10_0000
            <==> !(Sectors(|core|) == MAX_CORE_SECTORS && Grows(Padded(core)))
    ensures !Grows(Padded(core)) ==> Loaded(core) == Embedded(core)
    ensures var code := Code(Mbr(bootImg, sector0), Embedded(core));
            && |code.boot| == SECTOR && |mem| >= LOAD_ADDRESS + SECTOR
            && SECTOR + |code.core| <= |disk|
            && Boot(Installed(disk, code), mem) == Some(Overwrite(mem, LOAD_ADDRESS, Loaded(core)))
  {
    hide Le64, Zeros, Stop, ListEntry, Embedded, Padded, Mbr, U64At, U16At, FollowList, Sectors, Grows;
    var nsec, img := Sectors(|core|), Loaded(core);
    var installed := Installed(disk, Code(Mbr(bootImg, sector0), Embedded(core)));
    InstalledHolds(disk, bootImg, core, sector0);
    MbrFields(bootImg, sector0);
    FieldInSlice(installed, 0, Mbr(bootImg, sector0), KERNEL_SECTOR);
    FieldInSlice(installed, 0, Mbr(bootImg, sector0), KERNEL_SECTOR + 4);
    SameU64(installed, Mbr(bootImg, sector0), KERNEL_SECTOR);
    var first := Overwrite(mem, LOAD_ADDRESS, img[..SECTOR]);
    assert installed[SECTOR..2 * SECTOR] == img[..SECTOR];
    if nsec == 1 {
      assert img[..SECTOR] == img;
      ListEnds(installed, first, core, FIRST);
    } else {
      RestLoads(installed, first, mem, core);
    }
  }

  lemma SameU64(a: seq<byte>, b: seq<byte>, at: nat)
    requires at + 8 <= |a| && at + 8 <= |b| && U32At(a, at) == U32At(b, at) && U32At(a, at + 4) == U32At(b, at + 4)
    ensures U64At(a, at) == U64At(b, at)
  {
  }

  lemma InstalledHolds(disk: seq<byte>, bootImg: seq<byte>, core: seq<byte>, sector0: seq<byte>)
    requires |bootImg| == SECTOR && |sector0| >= 0x1FE
    requires core != [] && Sectors(|core|) <= MAX_CORE_SECTORS
    requires |disk| >= 0x10_0000 + BLOCKLIST
    ensures var img := Loaded(core);
            var installed := Installed(disk, Code(Mbr(bootImg, sector0), Embedded(core)));
            && SECTOR <= |img| && SECTOR + |img| <= 0x10_0000
            && installed[0..SECTOR] == Mbr(bootImg, sector0)
            && installed[SECTOR..SECTOR + |img|] == img
  {
    hide Stop, Embedded, Mbr, Grows;
    var mid := Overwrite(disk, SECTOR, Embedded(core));
    var installed := Overwrite(mid, 0, Mbr(bootImg, sector0));
    assert installed[SECTOR..SECTOR + |Embedded(core)|] == mid[SECTOR..SECTOR + |Embedded(core)|];
  }

  /** At a slot that is zero in the core, the list ends. */
  lemma ListEnds(disk: seq<byte>, mem: seq<byte>, core: seq<byte>, at: nat)
    requires core != [] && Sectors(|core|) <= MAX_CORE_SECTORS
    requires |mem| >= LOAD_ADDRESS + SECTOR && mem[LOAD_ADDRESS..LOAD_ADDRESS + SECTOR] == Loaded(core)[..SECTOR]
    requires at == if Sectors(|core|) > 1 then FIRST - BLOCKLIST else FIRST
    ensures FollowList(disk, mem, at) == Some(mem)
  {
    hide Stop, Embedded, Load, Grows;
    EmbeddedBytes(core);
    FieldInSlice(mem, LOAD_ADDRESS, Loaded(core)[..SECTOR], at + 8);
    if Sectors(|core|) == 1 {
      assert forall i :: FIRST <= i < SECTOR ==> Embedded(core)[i] == Embedded(core)[FIRST..SECTOR][i - FIRST];
    }
  }

  lemma EntryReads(mem: seq<byte>, slot: nat, nsec: nat)
    requires 1 < nsec <= MAX_CORE_SECTORS && slot + BLOCKLIST <= |mem| && mem[slot..slot + BLOCKLIST] == ListEntry(nsec)
    ensures U64At(mem, slot) == 2 && U16At(mem, slot + 8) == nsec - 1 && U16At(mem, slot + 10) == CORE_SEGMENT
  {
    hide ListEntry, U64At, U16At;
    ListEntryFields(nsec);
    U64InSlice(mem, slot, ListEntry(nsec));
    FieldInSlice(mem, slot, ListEntry(nsec), 8);
    FieldInSlice(mem, slot, ListEntry(nsec), 10);
  }

  /** With more than one sector, the list loads the rest right behind the first. */
  lemma RestLoads(disk: seq<byte>, first: seq<byte>, mem: seq<byte>, core: seq<byte>)
    requires core != [] && 1 < Sectors(|core|) <= MAX_CORE_SECTORS
    requires |disk| >= 0x10_0000 && |mem| >= LOAD_ADDRESS + |Padded(core)|
    requires disk[SECTOR..SECTOR + |Loaded(core)|] == Loaded(core)
    requires first == Overwrite(mem, LOAD_ADDRESS, Loaded(core)[..SECTOR])
    ensures FollowList(disk, first, FIRST) == Some(Overwrite(mem, LOAD_ADDRESS, Loaded(core)))
  {
    hide Stop, Embedded, Padded, ListEntry, U64At, U16At, Sectors, Grows, Loaded;
    var nsec, img := Sectors(|core|), Loaded(core);
    EmbeddedBytes(core);
    assert first[LOAD_ADDRESS + FIRST..LOAD_ADDRESS + FIRST + BLOCKLIST] == ListEntry(nsec) by {
      assert img[..SECTOR][FIRST..SECTOR] == img[FIRST..SECTOR] == Embedded(core)[FIRST..SECTOR];
    }
    EntryReads(first, LOAD_ADDRESS + FIRST, nsec);
    var all := Overwrite(mem, LOAD_ADDRESS, img);
    assert disk[2 * SECTOR..(2 + (nsec - 1)) * SECTOR] == img[SECTOR..];
    assert Overwrite(first, LOAD_ADDRESS + SECTOR, img[SECTOR..]) == all;
    assert all[LOAD_ADDRESS..LOAD_ADDRESS + SECTOR] == img[..SECTOR];
    ListEnds(disk, all, core, FIRST - BLOCKLIST);
  }

  lemma U64InSlice(s: seq<byte>, from: nat, part: seq<byte>)
    requires |part| >= 8 && from + |part| <= |s|
    requires U32At(s, from) == U32At(part, 0) && U32At(s, from + 4) == U32At(part, 4)
    ensures U64At(s, from) == U64At(part, 0)
  {
  }
}
