/** What the reader makes of any hive, stated in the positions of its bytes: stores that other programs wrote. */
module HiveForeign {
  import opened Bytes
  import opened Text
  import opened HiveReader

  /** Where the payload of the cell at `off` begins in the file. */
  function At(off: nat): nat {
    0x1000 + off + 4
  }

  /** The characters of a name as they stand in the file: one byte each, or UTF-16. */
  ghost predicate NameStands(d: seq<byte>, p: nat, size: nat, name: string, ascii: bool) {
    && p + size <= |d|
    && if ascii then |name| == size && forall k :: 0 <= k < size ==> d[p + k] == name[k] as int
       else d[p..p + size] == EncodeUtf16(name)
  }

  lemma NameReads(d: seq<byte>, p: nat, size: nat, name: string, ascii: bool)
    requires NameStands(d, p, size, name, ascii)
    ensures DecodeName(Slice(d, p, p + size), ascii) == Ok(name)
  {
    var raw := d[p..p + size];
    if ascii {
      var text := DecodeLatin1(raw);
      forall k | 0 <= k < size
        ensures text[k] == name[k]
      {
        assert text[k] as int == raw[k];
      }
      assert text == name;
    } else {
      Utf16RoundTrip(name);
    }
  }

  lemma CellIs(d: seq<byte>, off: nat)
    ensures CellAt(d, off).Ok? <==> At(off) <= |d|
    ensures CellAt(d, off).Ok? ==> CellAt(d, off).value.0 == At(off)
    ensures !CellAt(d, off).Ok? ==> CellAt(d, off) == Raised
  {
  }

  // ---- keys ----

  /** An nk cell, field by field; bit 0x20 of the flags says how the name is stored. */
  ghost predicate KeyStands(d: seq<byte>, off: nat, nk: Nk) {
    var p := At(off);
    && p + 0x4C <= |d| && d[p] == 'n' as int && d[p + 1] == 'k' as int
    && U32At(d, p + 0x14) == nk.subkeys && U32At(d, p + 0x1C) == nk.leaf
    && U32At(d, p + 0x24) == nk.values && U32At(d, p + 0x28) == nk.list
    && NameStands(d, p + 0x4C, U16At(d, p + 0x48), nk.name, d[p + 2] / 0x20 % 2 == 1)
  }

  /** The two letters of a signature. */
  lemma SignatureIs(d: seq<byte>, p: nat, a: char, b: char)
    requires p + 2 <= |d| && a as int < 0x100 && b as int < 0x100
    ensures Slice(d, p, p + 2) == [a as int, b as int] <==> d[p] == a as int && d[p + 1] == b as int
  {
    assert d[p..p + 2] == [d[p], d[p + 1]];
  }

  lemma ShortSlice(d: seq<byte>, p: nat)
    ensures |d| < p + 2 ==> |Slice(d, p, p + 2)| < 2
  {
  }

  lemma FlagBit(d: seq<byte>, p: nat)
    requires p + 2 <= |d|
    ensures U16At(d, p) / 0x20 % 2 == d[p] / 0x20 % 2 && U16At(d, p) % 2 == d[p] % 2
  {
    var low, high := d[p] as int, d[p + 1] as int;
    assert (low + 0x100 * high) / 0x20 == low / 0x20 + 8 * high;
  }

  /** Whoever wrote it, such a cell reads as that key. */
  lemma KeyReads(d: seq<byte>, off: nat, nk: Nk)
    requires KeyStands(d, off, nk)
    ensures ReadNk(d, off) == Ok(nk)
  {
    hide NameStands, U32At, U16At, CellAt, Slice, DecodeName;
    CellIs(d, off);
    var p := At(off);
    SignatureIs(d, p, 'n', 'k');
    FlagBit(d, p + 2);
    NameReads(d, p + 0x4C, U16At(d, p + 0x48), nk.name, d[p + 2] / 0x20 % 2 == 1);
  }

  /** A key reads exactly where its fixed part is in the file, signed, and its name decodes. */
  lemma KeyReadsExactly(d: seq<byte>, off: nat)
    ensures var p := At(off);
            ReadNk(d, off).Ok?
            <==> p + 0x4A <= |d| && d[p] == 'n' as int && d[p + 1] == 'k' as int
                 && (d[p + 2] / 0x20 % 2 == 1 || DecodeUtf16(Slice(d, p + 0x4C, p + 0x4C + U16At(d, p + 0x48))).Some?)
  {
    hide U32At, U16At, DecodeUtf16, DecodeLatin1, CellAt, Slice;
    CellIs(d, off);
    var p := At(off);
    ShortSlice(d, p);
    if p + 2 <= |d| {
      SignatureIs(d, p, 'n', 'k');
    }
    if p + 4 <= |d| {
      FlagBit(d, p + 2);
    }
  }

  // ---- subkey lists ----

  /** A list of subkeys in any of the four forms; an index holds the offsets of further lists. */
  datatype List =
    | Fast(keys: seq<nat>)
    | Hashed(keys: seq<nat>)
    | Plain(keys: seq<nat>)
    | Index(ats: seq<nat>, parts: seq<List>)

  /** The keys it lists, in order. */
  function Keys(l: List): seq<nat> {
    match l
    case Index(_, parts) => KeysOf(parts)
    case _ => l.keys
  }

  function KeysOf(parts: seq<List>): seq<nat> {
    if parts == [] then [] else KeysOf(parts[..|parts| - 1]) + Keys(parts[|parts| - 1])
  }

  function Depth(l: List): nat {
    if l.Index? then 1 + DepthOf(l.parts) else 1
  }

  function DepthOf(parts: seq<List>): (r: nat)
    ensures forall i :: 0 <= i < |parts| ==> Depth(parts[i]) <= r
  {
    if parts == [] then 0
    else
      var most, last := DepthOf(parts[..|parts| - 1]), Depth(parts[|parts| - 1]);
      assert forall i :: 0 <= i < |parts| - 1 ==> parts[..|parts| - 1][i] == parts[i];
      if most < last then last else most
  }

  ghost predicate HeadStands(d: seq<byte>, p: nat, first: char, second: char, n: nat) {
    p + 4 <= |d| && d[p] == first as int && d[p + 1] == second as int && U16At(d, p + 2) == n
  }

  /** One offset every `stride` bytes behind the count. */
  ghost predicate OffsetsStand(d: seq<byte>, p: nat, stride: nat, offs: seq<nat>) {
    forall i {:trigger offs[i]} :: 0 <= i < |offs| ==>
                                     p + 4 + stride * i + 4 <= |d| && U32At(d, p + 4 + stride * i) == offs[i]
  }

  ghost predicate ListStands(d: seq<byte>, off: nat, l: List)
    decreases l
  {
    && off != 0xFFFF_FFFF
    && match l
       case Fast(keys) => HeadStands(d, At(off), 'l', 'f', |keys|) && OffsetsStand(d, At(off), 8, keys)
       case Hashed(keys) => HeadStands(d, At(off), 'l', 'h', |keys|) && OffsetsStand(d, At(off), 8, keys)
       case Plain(keys) => HeadStands(d, At(off), 'l', 'i', |keys|) && OffsetsStand(d, At(off), 4, keys)
       case Index(ats, parts) =>
         && HeadStands(d, At(off), 'r', 'i', |ats|) && OffsetsStand(d, At(off), 4, ats)
         && |ats| == |parts| && forall i :: 0 <= i < |parts| ==> ListStands(d, ats[i], parts[i])
  }

  lemma {:induction false} OffsetsRead(d: seq<byte>, p: nat, stride: nat, offs: seq<nat>, n: nat)
    requires n <= |offs| && OffsetsStand(d, p, stride, offs)
    ensures OffsetsFrom(d, p + 4, stride, n) == Ok(offs[..n])
  {
    if n > 0 {
      OffsetsRead(d, p, stride, offs, n - 1);
      assert offs[..n] == offs[..n - 1] + [offs[n - 1]];
      assert p + 4 + (n - 1) * stride == p + 4 + stride * (n - 1);
    }
  }

  lemma HeadReads(d: seq<byte>, off: nat, first: char, second: char, n: nat)
    requires HeadStands(d, At(off), first, second, n) && first as int < 0x100 && second as int < 0x100
    ensures CellAt(d, off).Ok? && CellAt(d, off).value.0 == At(off)
    ensures Slice(d, At(off), At(off) + 2) == [first as int, second as int] && Word16(d, At(off) + 2) == Ok(n)
  {
    SignatureIs(d, At(off), first, second);
  }

  lemma LeafReads(d: seq<byte>, count: nat, off: nat, l: List, fuel: nat)
    requires ListStands(d, off, l) && !l.Index? && count > 0 && fuel > 0
    ensures SubkeyOffsets(d, count, off, fuel) == Ok(l.keys)
  {
    hide CellAt, Slice, Word16, OffsetsFrom, OffsetsStand, HeadStands;
    HeadReads(d, off, 'l', if l.Fast? then 'f' else if l.Hashed? then 'h' else 'i', |l.keys|);
    OffsetsRead(d, At(off), if l.Plain? then 4 else 8, l.keys, |l.keys|);
    assert l.keys[..|l.keys|] == l.keys;
  }

  lemma IndexFound(d: seq<byte>, count: nat, off: nat, n: nat, fuel: nat)
    requires off != 0xFFFF_FFFF && HeadStands(d, At(off), 'r', 'i', n) && count > 0 && fuel > 0
    ensures SubkeyOffsets(d, count, off, fuel) == IndexedOffsets(d, At(off), n, fuel - 1)
  {
    hide CellAt, Slice, Word16, HeadStands, IndexedOffsets, OffsetsFrom;
    HeadReads(d, off, 'r', 'i', n);
  }

  /** Every such list is read as the keys it lists, an index as its lists one after the other. */
  lemma {:induction false} ListReads(d: seq<byte>, count: nat, off: nat, l: List, fuel: nat)
    requires ListStands(d, off, l) && count > 0 && fuel >= Depth(l)
    ensures SubkeyOffsets(d, count, off, fuel) == Ok(Keys(l))
    decreases l, 1
  {
    hide OffsetsStand, HeadStands, SubkeyOffsets, IndexedOffsets, DepthOf, KeysOf;
    if l.Index? {
      IndexReads(d, At(off), l, |l.parts|, fuel - 1);
      assert l.parts[..|l.parts|] == l.parts;
      IndexFound(d, count, off, |l.ats|, fuel);
    } else {
      LeafReads(d, count, off, l, fuel);
    }
  }

  lemma {:induction false} IndexReads(d: seq<byte>, p: nat, l: List, n: nat, fuel: nat)
    requires l.Index? && n <= |l.parts| == |l.ats| && OffsetsStand(d, p, 4, l.ats) && fuel >= DepthOf(l.parts)
    requires forall i :: 0 <= i < |l.parts| ==> ListStands(d, l.ats[i], l.parts[i])
    ensures IndexedOffsets(d, p, n, fuel) == Ok(KeysOf(l.parts[..n]))
    decreases l, 0, n
  {
    hide ListStands, Keys, SubkeyOffsets;
    if n > 0 {
      IndexReads(d, p, l, n - 1, fuel);
      ListReads(d, 1, l.ats[n - 1], l.parts[n - 1], fuel);
      assert l.parts[..n][..n - 1] == l.parts[..n - 1];
      assert Word32(d, p + 4 + (n - 1) * 4) == Ok(l.ats[n - 1]);
    }
  }

  /** The letters of the four forms. */
  function Signatures(): set<seq<int>> {
    {['l' as int, 'f' as int], ['l' as int, 'h' as int], ['l' as int, 'i' as int], ['r' as int, 'i' as int]}
  }

  /** A signature of none of the four forms lists nothing, and neither does the offset that stands for none. */
  lemma NothingListed(d: seq<byte>, count: nat, off: nat, fuel: nat)
    requires fuel > 0 && At(off) + 2 <= |d|
    requires off == 0xFFFF_FFFF || count == 0
             || [d[At(off)], d[At(off) + 1]] !in Signatures()
    ensures SubkeyOffsets(d, count, off, fuel) == Ok([])
  {
    var p := At(off);
    SignatureIs(d, p, 'l', 'f');
    SignatureIs(d, p, 'l', 'h');
    SignatureIs(d, p, 'l', 'i');
    SignatureIs(d, p, 'r', 'i');
  }

  // ---- values ----

  /**
   * A vk cell and its data: inside the cell, at most four bytes, when the
   * length's top bit is set, else in a cell of its own. Bit 1 of the flags says how the name is stored.
   */
  ghost predicate ValueStands(d: seq<byte>, off: nat, name: string, vtype: nat, data: seq<byte>) {
    var p := At(off);
    && p + 0x14 <= |d| && d[p] == 'v' as int && d[p + 1] == 'k' as int
    && NameStands(d, p + 0x14, U16At(d, p + 2), name, d[p + 16] % 2 == 1)
    && U32At(d, p + 12) == vtype
    && (InlineStands(d, p, data) || DataStands(d, p, data))
  }

  ghost predicate InlineStands(d: seq<byte>, p: nat, data: seq<byte>)
    requires p + 0x14 <= |d|
  {
    && U32At(d, p + 4) >= 0x8000_0000
    && |data| == (if U32At(d, p + 4) - 0x8000_0000 < 4 then U32At(d, p + 4) - 0x8000_0000 else 4)
    && d[p + 8..p + 8 + |data|] == data
  }

  ghost predicate DataStands(d: seq<byte>, p: nat, data: seq<byte>)
    requires p + 0x14 <= |d|
  {
    && U32At(d, p + 4) == |data| < 0x8000_0000
    && var q := At(U32At(d, p + 8));
    q + |data| <= |d| && d[q..q + |data|] == data
  }

  lemma InlineReads(d: seq<byte>, p: nat, data: seq<byte>)
    requires p + 0x14 <= |d| && InlineStands(d, p, data)
    ensures ValueData(d, U32At(d, p + 4), U32At(d, p + 8)) == Ok(data)
  {
    var word := Le32(U32At(d, p + 8));
    SameDword(word, d[p + 8..p + 12]);
    FieldInSlice(d, p + 8, d[p + 8..p + 12], 0);
    assert d[p + 8..p + 12][..|data|] == d[p + 8..p + 8 + |data|];
    hide U32At;
    assert Slice(word, 0, U32At(d, p + 4) - 0x8000_0000) == word[..|data|];
  }

  lemma SameDword(a: seq<byte>, b: seq<byte>)
    requires |a| == 4 && |b| == 4 && U32At(a, 0) == U32At(b, 0)
    ensures a == b
  {
    SameDigit(a[0], b[0], a[1] as int + 0x100 * (a[2] as int) + 0x1_0000 * (a[3] as int),
              b[1] as int + 0x100 * (b[2] as int) + 0x1_0000 * (b[3] as int));
    SameDigit(a[1], b[1], a[2] as int + 0x100 * (a[3] as int), b[2] as int + 0x100 * (b[3] as int));
    SameDigit(a[2], b[2], a[3], b[3]);
  }

  lemma SameDigit(x: nat, y: nat, p: nat, q: nat)
    requires x < 0x100 && y < 0x100 && x + 0x100 * p == y + 0x100 * q
    ensures x == y && p == q
  {
  }

  lemma DataReads(d: seq<byte>, p: nat, data: seq<byte>)
    requires p + 0x14 <= |d| && DataStands(d, p, data)
    ensures ValueData(d, U32At(d, p + 4), U32At(d, p + 8)) == Ok(data)
  {
    hide U32At;
  }

  /** Such a value reads as its name, type and bytes; without a name it is "(default)". */
  lemma ValueReads(d: seq<byte>, off: nat, name: string, vtype: nat, data: seq<byte>)
    requires ValueStands(d, off, name, vtype, data)
    ensures ValueAt(d, off) == Ok(ReadValue(if name == "" then "(default)" else name, vtype, data))
  {
    hide NameStands, U32At, U16At, ValueData, InlineStands, DataStands, CellAt, Slice, DecodeName;
    CellIs(d, off);
    var p := At(off);
    SignatureIs(d, p, 'v', 'k');
    FlagBit(d, p + 16);
    NameReads(d, p + 0x14, U16At(d, p + 2), name, d[p + 16] % 2 == 1);
    if InlineStands(d, p, data) {
      InlineReads(d, p, data);
    } else {
      DataReads(d, p, data);
    }
  }

  /** A value reads only with its signature and its fields in the file. */
  lemma ValueReadsOnly(d: seq<byte>, off: nat)
    requires ValueAt(d, off).Ok?
    ensures At(off) + 18 <= |d| && d[At(off)] == 'v' as int && d[At(off) + 1] == 'k' as int
    ensures d[At(off) + 16] % 2 == 0 ==>
              DecodeUtf16(Slice(d, At(off) + 0x14, At(off) + 0x14 + U16At(d, At(off) + 2))).Some?
    ensures U32At(d, At(off) + 4) < 0x8000_0000 ==> 0x1000 + U32At(d, At(off) + 8) + 4 <= |d|
  {
    hide U32At, U16At, DecodeUtf16, CellAt;
    CellIs(d, off);
    CellIs(d, if At(off) + 12 <= |d| then U32At(d, At(off) + 8) else 0);
    if At(off) + 18 <= |d| {
      SignatureIs(d, At(off), 'v', 'k');
      FlagBit(d, At(off) + 16);
    }
  }

  /** The values of a key: four bytes each in a cell that holds their offsets. */
  ghost predicate ValuesStand(d: seq<byte>, list: nat, vs: seq<ReadValue>) {
    list != 0xFFFF_FFFF && At(list) <= |d|
    && forall i {:trigger vs[i]} :: 0 <= i < |vs| ==>
         && At(list) + 4 * i + 4 <= |d|
         && ShowsAs(d, U32At(d, At(list) + 4 * i), vs[i])
  }

  ghost predicate ReadsAs(d: seq<byte>, off: nat, name: string, v: ReadValue) {
    ValueStands(d, off, name, v.vtype, v.raw) && v.name == if name == "" then "(default)" else name
  }

  ghost predicate ShowsAs(d: seq<byte>, off: nat, v: ReadValue) {
    exists name :: ReadsAs(d, off, name, v)
  }

  lemma {:induction false} SomeValuesRead(d: seq<byte>, list: nat, vs: seq<ReadValue>, n: nat)
    requires ValuesStand(d, list, vs) && n <= |vs|
    ensures ValuesFrom(d, At(list), n) == Ok(vs[..n])
  {
    hide ValueStands, ValueAt, U32At;
    if n > 0 {
      SomeValuesRead(d, list, vs, n - 1);
      var v := vs[n - 1];
      var off := U32At(d, At(list) + 4 * (n - 1));
      var name :| ReadsAs(d, off, name, v);
      ValueReads(d, off, name, v.vtype, v.raw);
      assert Word32(d, At(list) + (n - 1) * 4) == Ok(off);
      assert vs[..n] == vs[..n - 1] + [v];
    }
  }

  lemma ValuesRead(d: seq<byte>, list: nat, vs: seq<ReadValue>)
    requires ValuesStand(d, list, vs) && vs != []
    ensures ValuesOf(d, |vs|, list) == Ok(vs)
  {
    hide ValuesFrom, U32At, ValueStands;
    SomeValuesRead(d, list, vs, |vs|);
    assert vs[..|vs|] == vs;
  }

  // ---- whole trees ----

  /** A key, the list of its subkeys, and the subkeys. */
  datatype Tree = Tree(at: nat, nk: Nk, list: List, kids: seq<Tree>)

  function Ats(ts: seq<Tree>): (r: seq<nat>)
    ensures |r| == |ts| && forall i :: 0 <= i < |r| ==> r[i] == ts[i].at
  {
    seq(|ts|, i requires 0 <= i < |ts| => ts[i].at)
  }

  predicate HasList(nk: Nk) {
    nk.subkeys != 0 && nk.leaf != 0xFFFF_FFFF
  }

  /** Keys and lists as they stand in the file, each list naming the subkeys below. */
  ghost predicate TreeStands(d: seq<byte>, t: Tree)
    decreases t
  {
    && KeyStands(d, t.at, t.nk)
    && (if HasList(t.nk) then ListStands(d, t.nk.leaf, t.list) && Keys(t.list) == Ats(t.kids) else t.kids == [])
    && forall i :: 0 <= i < |t.kids| ==> TreeStands(d, t.kids[i])
  }

  function Height(t: Tree): (r: nat)
    ensures r > 0
  {
    1 + if Depth(t.list) < HeightOf(t.kids) then HeightOf(t.kids) else Depth(t.list)
  }

  function HeightOf(ts: seq<Tree>): nat {
    if ts == [] then 0 else if Height(ts[0]) < HeightOf(ts[1..]) then HeightOf(ts[1..]) else Height(ts[0])
  }

  /** The keys of a tree, parents first, each with the path of names above it. */
  function Visits(t: Tree, path: string): seq<Visit<string>> {
    var here := if path == "" then t.nk.name else path + "\\" + t.nk.name;
    [Visit(t.at, here, t.nk)] + VisitsOf(t.kids, here)
  }

  function VisitsOf(ts: seq<Tree>, path: string): seq<Visit<string>> {
    if ts == [] then [] else Visits(ts[0], path) + VisitsOf(ts[1..], path)
  }

  lemma SubkeysOf(d: seq<byte>, t: Tree, fuel: nat)
    requires TreeStands(d, t) && fuel >= Height(t)
    ensures ReadNk(d, t.at) == Ok(t.nk) && SubkeyOffsets(d, t.nk.subkeys, t.nk.leaf, fuel) == Ok(Ats(t.kids))
  {
    hide KeyStands, ListStands, ReadNk, SubkeyOffsets, Keys;
    KeyReads(d, t.at, t.nk);
    if HasList(t.nk) {
      ListReads(d, t.nk.subkeys, t.nk.leaf, t.list, fuel);
    } else {
      NoList(d, t.nk.subkeys, t.nk.leaf, fuel);
    }
  }

  lemma NoList(d: seq<byte>, count: nat, off: nat, fuel: nat)
    requires count == 0 || off == 0xFFFF_FFFF
    ensures SubkeyOffsets(d, count, off, fuel) == Ok([])
  {
  }

  /** The walk of any such tree meets its keys, whoever laid them out. */
  lemma {:induction false} TreeWalks(d: seq<byte>, t: Tree, path: string, fuel: nat)
    requires TreeStands(d, t) && fuel >= Height(t)
    ensures Walk(d, t.at, path, fuel) == Ok(Visits(t, path))
    decreases t, 1
  {
    hide KeyStands, ListStands, ReadNk, SubkeyOffsets, Depth, Keys;
    SubkeysOf(d, t, fuel);
    TreesWalk(d, t.kids, JoinPath(path, t.nk.name), fuel - 1);
  }

  lemma {:induction false} TreesWalk(d: seq<byte>, ts: seq<Tree>, path: string, fuel: nat)
    requires (forall i :: 0 <= i < |ts| ==> TreeStands(d, ts[i])) && fuel >= HeightOf(ts)
    ensures WalkEach(d, Ats(ts), path, fuel) == Ok(VisitsOf(ts, path))
    decreases ts, 0
  {
    hide TreeStands, Walk, Visits, Height;
    if ts != [] {
      TreeWalks(d, ts[0], path, fuel);
      TreesWalk(d, ts[1..], path, fuel);
      assert Ats(ts)[1..] == Ats(ts[1..]);
    }
  }
}
