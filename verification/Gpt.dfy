/** gpt_guids: the two GUIDs of a partition, read off a disk's own GPT. */
module Gpt {
  import opened Bytes

  datatype GptResult = Guids(partition: seq<byte>, disk: seq<byte>) | Error(reason: GptError)
  datatype GptError = NoHeader | NoPartition | Unused | Truncated | BadSeek

  const EFI_PART: seq<byte> := [0x45, 0x46, 0x49, 0x20, 0x50, 0x41, 0x52, 0x54]
  const MAX_SEEK := 0x8000_0000_0000_0000

  /** Bytes read from an offset: fewer at the end of the disk, none past it. */
  function ReadAt(disk: seq<byte>, off: nat, n: nat): (r: seq<byte>)
    ensures off + n <= |disk| ==> r == disk[off..off + n]
  {
    Slice(disk, off, off + n)
  }

  predicate HasSignature(disk: seq<byte>, sector: nat) {
    Slice(ReadAt(disk, sector, 92), 0, 8) == EFI_PART
  }

  function EntryOffset(lba: nat, sector: nat, number: nat, size: nat): nat
    requires number >= 1
  {
    lba * sector + (number - 1) * size
  }

  /** What follows once a header has been found for the given sector size. */
  function Lookup(disk: seq<byte>, sector: nat, number: int): GptResult {
    var header := ReadAt(disk, sector, 92);
    if |header| < 0x58 then Error(Truncated)
    else
      var lba, count, size := U64At(header, 0x48), U32At(header, 0x50), U32At(header, 0x54);
      if !(1 <= number <= count) then Error(NoPartition)
      else if EntryOffset(lba, sector, number, size) >= MAX_SEEK then Error(BadSeek)
      else
        var entry := ReadAt(disk, EntryOffset(lba, sector, number, size), size);
        if Slice(entry, 0, 16) == Zeros(16) then Error(Unused)
        else Guids(Slice(entry, 16, 32), Slice(header, 0x38, 0x48))
  }

  /** The first of the two sector sizes whose block 1 is signed decides. */
  function Find(disk: seq<byte>, number: int): GptResult {
    if HasSignature(disk, 512) then Lookup(disk, 512, number)
    else if HasSignature(disk, 4096) then Lookup(disk, 4096, number)
    else Error(NoHeader)
  }

  method GptGuids(disk: seq<byte>, number: int) returns (r: GptResult)
    ensures r == Find(disk, number)
  {
    var sectors := [512, 4096];
    var i := 0;
    while i < |sectors|
      invariant 0 <= i <= |sectors| && forall j :: 0 <= j < i ==> !HasSignature(disk, sectors[j])
    {
      var header := ReadAt(disk, sectors[i], 92);
      if Slice(header, 0, 8) == EFI_PART {
        break;
      }
      i := i + 1;
    }
    if i == |sectors| {
      assert !HasSignature(disk, sectors[0]) && !HasSignature(disk, sectors[1]);
      return Error(NoHeader);
    }
    assert i == 1 ==> !HasSignature(disk, sectors[0]);
    r := Lookup(disk, sectors[i], number);
  }

  /** A GPT header's fields and one partition entry, UEFI Specification 2.10 sections 5.3.2 and 5.3.3. */
  datatype Layout = Layout(disk: seq<byte>, lba: nat, count: nat, size: nat)

  /** Logical block 1 holds the header: signature, disk GUID at 56, entry array at 72, 80 and 84. */
  ghost predicate HeaderAt(disk: seq<byte>, sector: nat, g: Layout) {
    && |g.disk| == 16 && g.size >= 128 && sector + 92 <= |disk|
    && SignedAt(disk, sector)
    && disk[sector + 56..sector + 72] == g.disk
    && U64At(disk, sector + 72) == g.lba && U32At(disk, sector + 80) == g.count && U32At(disk, sector + 84) == g.size
  }

  /** Entry n (from 1) of the array: type GUID, then the partition's unique GUID. */
  ghost predicate EntryAt(disk: seq<byte>, sector: nat, g: Layout, n: nat, kind: seq<byte>, unique: seq<byte>) {
    && 1 <= n <= g.count && g.size >= 128 && |kind| == 16 && |unique| == 16
    && var off := Behind(g.lba, sector, n - 1, g.size);
    && off + g.size <= |disk| < 0x8000_0000_0000_0000
    && disk[off..off + 16] == kind && disk[off + 16..off + 32] == unique
  }

  lemma HeaderReads(disk: seq<byte>, sector: nat, g: Layout)
    requires HeaderAt(disk, sector, g)
    ensures HasSignature(disk, sector)
    ensures var header := ReadAt(disk, sector, 92);
            && |header| == 92 && U64At(header, 0x48) == g.lba && U32At(header, 0x50) == g.count
            && U32At(header, 0x54) == g.size && Slice(header, 0x38, 0x48) == g.disk
  {
    hide U32At, U64At, Slice, HasSignature, SignedAt;
    SignatureIs(disk, sector);
    HeaderFields(disk, sector);
  }

  lemma EntryReads(disk: seq<byte>, off: nat, size: nat, kind: seq<byte>, unique: seq<byte>)
    requires size >= 128 && |kind| == 16 && |unique| == 16 && off + size <= |disk|
    requires disk[off..off + 16] == kind && disk[off + 16..off + 32] == unique
    ensures var entry := ReadAt(disk, off, size);
            Slice(entry, 0, 16) == kind && Slice(entry, 16, 32) == unique
  {
    hide ReadAt, Slice;
    EntryFields(disk, off, size);
  }

  /**
   * On a disk laid out as the specification says, the lookup returns the raw
   * GUIDs of a used partition and of the disk, and refuses an unused one.
   */
  lemma FindReadsLayout(disk: seq<byte>, sector: nat, g: Layout, n: nat, kind: seq<byte>, unique: seq<byte>)
    requires HeaderAt(disk, sector, g) && EntryAt(disk, sector, g, n, kind, unique)
    requires sector == 512 || (sector == 4096 && !HasSignature(disk, 512))
    ensures kind != Zeros(16) ==> Find(disk, n) == Guids(unique, g.disk)
    ensures kind == Zeros(16) ==> Find(disk, n) == Error(Unused)
  {
    hide ReadAt, Slice, HasSignature, U32At, U64At, Zeros, SignedAt;
    HeaderReads(disk, sector, g);
    EntryReads(disk, Behind(g.lba, sector, n - 1, g.size), g.size, kind, unique);
  }

  // ---- which disks give two whole GUIDs ----

  /** The sector size whose block 1 decides. */
  function SectorOf(disk: seq<byte>): nat {
    if SignedAt(disk, 512) then 512 else 4096
  }

  predicate SignedAt(disk: seq<byte>, at: nat) {
    && at + 8 <= |disk|
    && disk[at] == 'E' as int && disk[at + 1] == 'F' as int && disk[at + 2] == 'I' as int && disk[at + 3] == ' ' as int
    && disk[at + 4] == 'P' as int && disk[at + 5] == 'A' as int && disk[at + 6] == 'R' as int
    && disk[at + 7] == 'T' as int
  }

  /** So many blocks and then so many entries into the disk. */
  function Behind(blocks: nat, sector: nat, entries: nat, size: nat): nat {
    blocks * sector + entries * size
  }

  function EntryStart(disk: seq<byte>, number: nat): nat
    requires SectorOf(disk) + 88 <= |disk| && number >= 1
  {
    var sector := SectorOf(disk);
    Behind(U64At(disk, sector + 72), sector, number - 1, U32At(disk, sector + 84))
  }

  /**
   * A signed header with all its fields on the disk that counts the number, and
   * an entry of it with room for both GUIDs, on the disk and of some type.
   */
  predicate HasPartition(disk: seq<byte>, number: int) {
    var sector := SectorOf(disk);
    && SignedAt(disk, sector) && sector + 88 <= |disk|
    && 1 <= number <= U32At(disk, sector + 80) && U32At(disk, sector + 84) >= 32
    && var off := EntryStart(disk, number);
    && off < 0x8000_0000_0000_0000 && off + 32 <= |disk| && !IsZero(disk[off..off + 16])
  }

  predicate IsZero(b: seq<byte>) {
    forall k :: 0 <= k < |b| ==> b[k] == 0
  }

  lemma SignatureIs(disk: seq<byte>, sector: nat)
    ensures HasSignature(disk, sector) <==> SignedAt(disk, sector)
  {
    var header := ReadAt(disk, sector, 92);
    if sector + 8 <= |disk| {
      assert disk[sector..sector + |header|] == header;
      SliceOfSlice(disk, sector, header, 0, 8);
      Moves(disk, sector, header[..8]);
    }
  }

  lemma HeaderFields(disk: seq<byte>, sector: nat)
    ensures |ReadAt(disk, sector, 92)| >= 0x58 <==> sector + 88 <= |disk|
    ensures var header := ReadAt(disk, sector, 92);
            sector + 88 <= |disk| ==>
              && U64At(header, 0x48) == U64At(disk, sector + 72) && U32At(header, 0x50) == U32At(disk, sector + 80)
              && U32At(header, 0x54) == U32At(disk, sector + 84)
              && Slice(header, 0x38, 0x48) == disk[sector + 56..sector + 72]
  {
    hide U32At;
    var header := ReadAt(disk, sector, 92);
    if sector + 88 <= |disk| {
      assert disk[sector..sector + |header|] == header;
      FieldInSlice(disk, sector, header, 0x48);
      FieldInSlice(disk, sector, header, 0x4C);
      FieldInSlice(disk, sector, header, 0x50);
      FieldInSlice(disk, sector, header, 0x54);
      SliceOfSlice(disk, sector, header, 0x38, 0x48);
    }
  }

  lemma EntryFields(disk: seq<byte>, off: nat, size: nat)
    ensures |Slice(ReadAt(disk, off, size), 16, 32)| == 16 <==> size >= 32 && off + 32 <= |disk|
    ensures size >= 32 && off + 32 <= |disk| ==>
              && Slice(ReadAt(disk, off, size), 0, 16) == disk[off..off + 16]
              && Slice(ReadAt(disk, off, size), 16, 32) == disk[off + 16..off + 32]
  {
    var entry := ReadAt(disk, off, size);
    if size >= 32 && off + 32 <= |disk| {
      assert disk[off..off + |entry|] == entry;
      SliceOfSlice(disk, off, entry, 0, 16);
      SliceOfSlice(disk, off, entry, 16, 32);
    }
  }

  /** The lookup gives two whole GUIDs exactly on such disks, and they are the bytes that stand there. */
  lemma FindsExactly(disk: seq<byte>, number: int)
    ensures Find(disk, number).Guids? && |Find(disk, number).partition| == 16 && |Find(disk, number).disk| == 16
            <==> HasPartition(disk, number)
    ensures HasPartition(disk, number) ==>
              var sector, off := SectorOf(disk), EntryStart(disk, number);
              Find(disk, number) == Guids(disk[off + 16..off + 32], disk[sector + 56..sector + 72])
  {
    hide ReadAt, Slice, HasSignature, SignedAt, U32At, U64At, Zeros;
    SignatureIs(disk, 512);
    SignatureIs(disk, 4096);
    var sector := SectorOf(disk);
    HeaderFields(disk, sector);
    if sector + 88 <= |disk| && number >= 1 {
      EntryFields(disk, EntryStart(disk, number), U32At(disk, sector + 84));
    }
  }

  /** And otherwise fails for this reason, the first that applies. */
  lemma FailsExactly(disk: seq<byte>, number: int)
    ensures var sector := SectorOf(disk);
            if !SignedAt(disk, sector) then Find(disk, number) == Error(NoHeader)
            else if sector + 88 > |disk| then Find(disk, number) == Error(Truncated)
            else if number < 1 || number > U32At(disk, sector + 80) then Find(disk, number) == Error(NoPartition)
            else
              var off := EntryStart(disk, number);
              if off >= 0x8000_0000_0000_0000 then Find(disk, number) == Error(BadSeek)
              else Find(disk, number) == Error(Unused) <==> EntryIsZero(disk, off, U32At(disk, sector + 84))
  {
    hide ReadAt, Slice, HasSignature, SignedAt, U32At, U64At, Zeros, EntryIsZero;
    SignatureIs(disk, 512);
    SignatureIs(disk, 4096);
    var sector := SectorOf(disk);
    HeaderFields(disk, sector);
    if sector + 88 <= |disk| && number >= 1 {
      EntryZeros(disk, EntryStart(disk, number), U32At(disk, sector + 84));
    }
  }

  /** The entry has 16 bytes on the disk, and they are zero. */
  predicate EntryIsZero(disk: seq<byte>, off: nat, size: nat) {
    size >= 16 && off + 16 <= |disk| && IsZero(disk[off..off + 16])
  }

  lemma EntryZeros(disk: seq<byte>, off: nat, size: nat)
    ensures Slice(ReadAt(disk, off, size), 0, 16) == Zeros(16) <==> EntryIsZero(disk, off, size)
  {
    var entry := ReadAt(disk, off, size);
    if size >= 16 && off + 16 <= |disk| {
      assert disk[off..off + |entry|] == entry;
      SliceOfSlice(disk, off, entry, 0, 16);
    }
  }
}
