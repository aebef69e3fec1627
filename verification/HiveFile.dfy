/** The file serialise() makes: a checksummed header page, then the cells padded to whole pages. */
module HiveFile {
  import opened Bytes
  import opened Text
  import opened CellHeap
  import opened HiveCells

  const PAGE := 4096
  const ROOT_FIELD := 0x24
  const CHECKSUM_FIELD := 0x1FC
  const SIG_REGF: seq<byte> := [0x72, 0x65, 0x67, 0x66]
  const SIG_HBIN: seq<byte> := [0x68, 0x62, 0x69, 0x6E]

  // ---- header ----

  function BaseBlock(root: nat, length: nat): (r: seq<byte>)
    requires root < U32_LIMIT && length < U32_LIMIT
    ensures |r| == 0x30
    ensures r[..4] == SIG_REGF && U32At(r, ROOT_FIELD) == root && U32At(r, 0x28) == length
  {
    var first := SIG_REGF + Le32(1) + Le32(1) + Le64(0) + (Le32(1) + Le32(3) + Le32(0) + Le32(1));
    var last := Le32(root) + Le32(length) + Le32(1);
    FieldInTail(first, last, 0);
    FieldInTail(first, last, 4);
    first + last
  }

  function BinHeader(length: nat): (r: seq<byte>)
    requires length < U32_LIMIT
    ensures |r| == HBIN_HEADER && r[..4] == SIG_HBIN && U32At(r, 8) == length
  {
    SIG_HBIN + Le32(0) + Le32(length) + (Le32(0) + Le32(0) + Le64(0) + Le32(0))
  }

  /** The hive's name as the header holds it: UTF-16, cut or padded to 64 bytes. */
  function NameField(name: string): (r: seq<byte>)
    ensures |r| == 64
  {
    var b := EncodeUtf16(name);
    if |b| >= 64 then b[..64] else b + Zeros(64 - |b|)
  }

  /** The exclusive or of the dwords of s. */
  function XorDwords(s: seq<byte>): bv32
    requires |s| % 4 == 0
  {
    if s == [] then 0 else XorDwords(s[..|s| - 4]) ^ (U32At(s, |s| - 4) as bv32)
  }

  lemma XorOfNothing()
    ensures XorDwords([]) == 0
  {
  }

  lemma DwordOfLe32(c: bv32)
    ensures c as nat < U32_LIMIT && U32At(Le32(c as nat), 0) as bv32 == c
  {
  }

  lemma XorCancels(c: bv32)
    ensures c ^ c == 0
  {
  }

  /** Appending its own checksum makes the dwords of a header cancel out. */
  lemma ChecksumCancels(s: seq<byte>)
    requires |s| % 4 == 0
    ensures XorDwords(s) as nat < U32_LIMIT && XorDwords(s + Le32(XorDwords(s) as nat)) == 0
  {
    hide *;
    DwordOfLe32(XorDwords(s));
    CancelsWith(s, Le32(XorDwords(s) as nat), XorDwords(s));
  }

  lemma CancelsWith(s: seq<byte>, dword: seq<byte>, c: bv32)
    requires |s| % 4 == 0 && |dword| == 4 && U32At(dword, 0) as bv32 == c && XorDwords(s) == c
    ensures XorDwords(s + dword) == 0
  {
    hide *;
    XorAppend(s, dword);
    XorCancels(c);
  }

  lemma XorAppend(s: seq<byte>, dword: seq<byte>)
    requires |s| % 4 == 0 && |dword| == 4
    ensures XorDwords(s + dword) == XorDwords(s) ^ (U32At(dword, 0) as bv32)
  {
    var t := s + dword;
    assert t[..|t| - 4] == s;
    FieldInTail(s, dword, 0);
  }

  lemma XorNext(head: seq<byte>, i: nat)
    requires i % 4 == 0 && i + 4 <= |head|
    ensures XorDwords(head[..i + 4]) == XorDwords(head[..i]) ^ (U32At(head, i) as bv32)
  {
    hide XorDwords;
    XorAppend(head[..i], head[i..i + 4]);
    assert head[..i + 4] == head[..i] + head[i..i + 4];
  }

  // ---- the header page, position by position ----

  /** The base block's fields; the time stamp and the file type are zero. */
  predicate BaseStands(s: seq<byte>, root: nat, length: nat) {
    && |s| >= 0x30 && s[0] == 'r' as int && s[1] == 'e' as int && s[2] == 'g' as int && s[3] == 'f' as int
    && U32At(s, 4) == 1 && U32At(s, 8) == 1 && U32At(s, 12) == 0 && U32At(s, 16) == 0
    && U32At(s, 20) == 1 && U32At(s, 24) == 3 && U32At(s, 28) == 0 && U32At(s, 32) == 1
    && U32At(s, 0x24) == root && U32At(s, 0x28) == length && U32At(s, 0x2C) == 1
  }

  /** The file's name in UTF-16, at most 32 units of it, zeros behind. */
  predicate NameStands(s: seq<byte>, name: string) {
    var b := EncodeUtf16(name);
    |s| >= 0x70 && forall k :: 0 <= k < 64 ==> s[0x30 + k] == if k < |b| then b[k] else 0
  }

  /** A page with such a base block and name, all else zero, whose first 128 dwords cancel. */
  predicate HeaderStands(s: seq<byte>, name: string, root: nat, length: nat) {
    && |s| >= 0x1000 && BaseStands(s, root, length) && NameStands(s, name)
    && (forall k :: 0x70 <= k < 0x1000 && !(0x1FC <= k < 0x200) ==> s[k] == 0)
    && XorDwords(s[..0x200]) == 0
  }

  /** The bin's header behind it: its signature, its offset 0 and its length. */
  predicate BinStands(s: seq<byte>, length: nat) {
    && |s| >= 0x1020
    && s[0x1000] == 'h' as int && s[0x1001] == 'b' as int && s[0x1002] == 'i' as int && s[0x1003] == 'n' as int
    && U32At(s, 0x1004) == 0 && U32At(s, 0x1008) == length
    && forall k :: 0x100C <= k < 0x1020 ==> s[k] == 0
  }

  lemma BaseBlockStands(root: nat, length: nat)
    requires root < U32_LIMIT && length < U32_LIMIT
    ensures BaseStands(BaseBlock(root, length), root, length)
  {
    hide Le32, Le64, U32At;
    var s := BaseBlock(root, length);
    var a := Le32(1) + Le32(3) + Le32(0) + Le32(1);
    assert s == SIG_REGF + Le32(1) + Le32(1) + Le64(0) + a + Le32(root) + Le32(length) + Le32(1);
    FourDwords(Le32(1), Le32(3), Le32(0), Le32(1));
    assert s[4..8] == Le32(1) && s[8..12] == Le32(1) && s[12..20] == Le64(0) && s[20..36] == a;
    assert s[36..40] == Le32(root) && s[40..44] == Le32(length) && s[44..48] == Le32(1);
    Moves(s, 4, Le32(1));
    Moves(s, 8, Le32(1));
    Moves(s, 20, a);
    Moves(s, 44, Le32(1));
    assert U32At(Le64(0), 0) == 0 && U32At(Le64(0), 4) == 0 by {
      ZeroDwords();
    }
    Moves(s, 12, Le64(0));
  }

  lemma ZeroDwords()
    ensures U32At(Le64(0), 0) == 0 && U32At(Le64(0), 4) == 0
  {
  }

  lemma PageStands(s: seq<byte>, name: string, root: nat, length: nat)
    requires root < U32_LIMIT && length < U32_LIMIT && |s| >= 0x1000
    requires s[..0x30] == BaseBlock(root, length) && s[0x30..0x70] == NameField(name)
    requires forall k :: 0x70 <= k < 0x1000 && !(0x1FC <= k < 0x200) ==> s[k] == 0
    requires XorDwords(s[..0x200]) == 0
    ensures HeaderStands(s, name, root, length)
  {
    hide BaseBlock, XorDwords, EncodeUtf16, U32At;
    BaseBlockStands(root, length);
    Moves(s, 0, BaseBlock(root, length));
    Moves(s, 0x30, NameField(name));
  }

  lemma PageMoves(head: seq<byte>, s: seq<byte>, name: string, root: nat, length: nat)
    requires HeaderStands(head, name, root, length) && |head| == 0x1000 && head <= s
    ensures HeaderStands(s, name, root, length)
  {
    hide XorDwords, EncodeUtf16, U32At;
    Moves(s, 0, head);
    assert s[..0x200] == head[..0x200];
  }

  lemma BinHeaderStands(s: seq<byte>, length: nat)
    requires length < U32_LIMIT && |s| >= 0x1020 && s[0x1000..0x1020] == BinHeader(length)
    ensures BinStands(s, length)
  {
    hide Le32, Le64, U32At;
    var b := BinHeader(length);
    assert b == SIG_HBIN + Le32(0) + Le32(length) + Le32(0) + Le32(0) + Le64(0) + Le32(0);
    assert Le32(0) == Zeros(4) && Le64(0) == Zeros(8) by {
      ZeroWords();
    }
    assert b[4..8] == Le32(0) && b[12..] == Zeros(20);
    Moves(b, 4, Le32(0));
    Moves(s, 0x1000, b);
    Moves(b, 12, Zeros(20));
  }

  lemma ZeroWords()
    ensures Le32(0) == Zeros(4) && Le64(0) == Zeros(8)
  {
  }

  // ---- the whole file ----

  lemma PageEnd(n: nat, pages: nat, over: nat)
    requires n == PAGE * pages + over && 0 < over < PAGE
    ensures (n + (PAGE - over)) % PAGE == 0
  {
    assert n + (PAGE - over) == PAGE * (pages + 1);
  }

  lemma EightsStay(n: nat, pages: nat, over: nat)
    requires n == PAGE * pages + over && n % 8 == 0 && over < PAGE
    ensures (PAGE - over) % 8 == 0
  {
    var eights := n / 8;
    assert n == 8 * eights;
    assert PAGE - over == 8 * (512 - (eights - 512 * pages));
  }

  lemma PaddingFits(n: nat)
    ensures n % PAGE != 0 ==> (n + (PAGE - n % PAGE)) % PAGE == 0 && (n % 8 == 0 ==> (PAGE - n % PAGE) % 8 == 0)
  {
    if n % PAGE != 0 {
      PageEnd(n, n / PAGE, n % PAGE);
      if n % 8 == 0 {
        EightsStay(n, n / PAGE, n % PAGE);
      }
    }
  }

  /** How many bytes are missing to the next page. */
  function Padding(n: nat): (r: nat)
    ensures r < PAGE && (n + r) % PAGE == 0
    ensures n % 8 == 0 ==> r % 8 == 0
  {
    PaddingFits(n);
    if n % PAGE == 0 then 0 else PAGE - n % PAGE
  }

  /** The unused tail of the last page: nothing, or one free cell with a positive size. */
  function FreeCell(pad: nat): (r: seq<byte>)
    requires pad == 0 || 4 <= pad < PAGE
    ensures |r| == pad
  {
    if pad == 0 then [] else Le32(pad) + Zeros(pad - 4)
  }

  /** What serialise() promises about the bytes it returns for the cells in `buf` and the given root. */
  ghost predicate IsStore(store: seq<byte>, buf: seq<byte>, root: nat) {
    && |buf| % 8 == 0 && |buf| >= HBIN_HEADER
    && var pad := Padding(|buf|);
    && |store| == PAGE + |buf| + pad
    && store[..4] == SIG_REGF
    && U32At(store, ROOT_FIELD) == root
    && U32At(store, 0x28) == |buf| + pad
    && XorDwords(store[..CHECKSUM_FIELD + 4]) == 0
    && store[PAGE..PAGE + 4] == SIG_HBIN
    && U32At(store, PAGE + 8) == |buf| + pad
    && store[PAGE + HBIN_HEADER..PAGE + |buf|] == buf[HBIN_HEADER..]
    && store[PAGE + |buf|..] == FreeCell(pad)
  }

  lemma StoreOfParts(head: seq<byte>, hbins: seq<byte>, buf: seq<byte>, root: nat)
    requires |buf| % 8 == 0 && |buf| >= HBIN_HEADER && |buf| + Padding(|buf|) < U32_LIMIT && root < U32_LIMIT
    requires |head| == PAGE && head[..0x30] == BaseBlock(root, |buf| + Padding(|buf|))
    requires XorDwords(head[..CHECKSUM_FIELD + 4]) == 0
    requires hbins == BinHeader(|buf| + Padding(|buf|)) + buf[HBIN_HEADER..] + FreeCell(Padding(|buf|))
    ensures IsStore(head + hbins, buf, root)
  {
    hide BaseBlock, BinHeader, FreeCell, Padding, XorDwords;
    var pad, store := Padding(|buf|), head + hbins;
    var base := BaseBlock(root, |buf| + pad);
    assert store[0..0x30] == base;
    FieldInSlice(store, 0, base, ROOT_FIELD);
    FieldInSlice(store, 0, base, 0x28);
    assert store[..4] == base[..4];
    assert store[..CHECKSUM_FIELD + 4] == head[..CHECKSUM_FIELD + 4];
    FieldInTail(head, hbins, 8);
    StoreTail(head, BinHeader(|buf| + pad), buf[HBIN_HEADER..], FreeCell(pad));
  }

  lemma StoreTail(head: seq<byte>, bin: seq<byte>, cells: seq<byte>, free: seq<byte>)
    requires |head| == PAGE && |bin| == HBIN_HEADER
    ensures var s := head + (bin + cells + free);
            && s[PAGE..PAGE + 4] == bin[..4]
            && U32At(s, PAGE + 8) == U32At(bin, 8)
            && s[PAGE + HBIN_HEADER..PAGE + HBIN_HEADER + |cells|] == cells
            && s[PAGE + HBIN_HEADER + |cells|..] == free
  {
    hide Zeros;
    var s := head + (bin + cells + free);
    assert s == head + bin + cells + free;
  }
}
