/**
 * The cells of a registry hive, typed, and the bytes each one is packed into
 * (the struct.pack calls of HiveWriter).
 */
module HiveCells {
  import opened Bytes
  import opened CellHeap
  import opened Text

  const NONE: nat := 0xFFFF_FFFF
  const ROOT_FLAGS := 0x2C
  const KEY_FLAGS := 0x20
  const VK_ASCII_NAME := 1
  const PARENT_FIELD: nat := 0x10
  const DATA_FIELD: nat := 0x08

  const SIG_NK: seq<byte> := [0x6E, 0x6B]
  const SIG_VK: seq<byte> := [0x76, 0x6B]
  const SIG_SK: seq<byte> := [0x73, 0x6B]
  const SIG_LF: seq<byte> := [0x6C, 0x66]
  const SIG_LH: seq<byte> := [0x6C, 0x68]
  const SIG_LI: seq<byte> := [0x6C, 0x69]
  const SIG_RI: seq<byte> := [0x72, 0x69]

  /** (offset, name) of a key already written. */
  datatype KeyRef = KeyRef(at: nat, name: string)

  datatype Cell =
    | Security(links: nat, descriptor: seq<byte>)
    | Value(name: string, len: nat, data: nat, vtype: nat)
    | Data(bytes: seq<byte>)
    | Offsets(offsets: seq<nat>)
    | Leaf(entries: seq<KeyRef>)
    | KeyNode(name: string, root: bool, parent: nat, subkeys: nat, leaf: nat, values: nat, list: nat,
              security: nat, maxName: nat, maxValueName: nat, maxData: nat)

  // ---- payloads ----

  predicate IsName(s: string) {
    IsLatin1(s) && |s| < U16_LIMIT
  }

  /** Every field of the cell fits the format character it is packed with. */
  predicate FieldsFit(c: Cell) {
    match c
    case Security(links, descriptor) => links < U32_LIMIT && |descriptor| <= MAX_PAYLOAD - 20
    case Value(name, len, data, vtype) => IsName(name) && len < U32_LIMIT && data < U32_LIMIT && vtype < U32_LIMIT
    case Data(bytes) => |bytes| <= MAX_PAYLOAD
    case Offsets(list) => 4 * |list| <= MAX_PAYLOAD && forall i :: 0 <= i < |list| ==> list[i] < U32_LIMIT
    case Leaf(entries) =>
      |entries| < U16_LIMIT
      && forall i :: 0 <= i < |entries| ==> entries[i].at < U32_LIMIT && IsLatin1(entries[i].name)
    case KeyNode(name, _, parent, subkeys, leaf, values, list, security, maxName, maxValueName, maxData) =>
      IsName(name) && parent < U32_LIMIT && subkeys < U32_LIMIT && leaf < U32_LIMIT && values < U32_LIMIT
      && list < U32_LIMIT && security < U32_LIMIT && maxName < U32_LIMIT && maxValueName < U32_LIMIT
      && maxData < U32_LIMIT
  }

  function OffsetBytes(list: seq<nat>): (r: seq<byte>)
    requires forall i :: 0 <= i < |list| ==> list[i] < U32_LIMIT
    ensures |r| == 4 * |list|
  {
    if list == [] then [] else OffsetBytes(list[..|list| - 1]) + Le32(list[|list| - 1])
  }

  /** The first four characters of a name, padded with zeros. */
  function Hint(name: string): (r: seq<byte>)
    requires IsLatin1(name)
    ensures |r| == 4
  {
    var b := EncodeLatin1(name);
    if |b| >= 4 then b[..4] else b + Zeros(4 - |b|)
  }

  function EntryBytes(entries: seq<KeyRef>): (r: seq<byte>)
    requires forall i :: 0 <= i < |entries| ==> entries[i].at < U32_LIMIT && IsLatin1(entries[i].name)
    ensures |r| == 8 * |entries|
  {
    if entries == [] then []
    else
      var last := entries[|entries| - 1];
      EntryBytes(entries[..|entries| - 1]) + (Le32(last.at) + Hint(last.name))
  }

  function SecurityBytes(c: Cell): (r: seq<byte>)
    requires c.Security? && FieldsFit(c)
    ensures |r| == 20 + |c.descriptor|
  {
    SIG_SK + Le16(0) + (Le32(c.links) + Le32(c.links)) + (Le32(1) + Le32(|c.descriptor|) + c.descriptor)
  }

  function ValueHead(c: Cell): (r: seq<byte>)
    requires c.Value? && FieldsFit(c)
    ensures |r| == 8
  {
    SIG_VK + Le16(|c.name|) + Le32(c.len)
  }

  function ValueTail(c: Cell): (r: seq<byte>)
    requires c.Value? && FieldsFit(c)
    ensures |r| == 8 + |c.name|
  {
    Le32(c.vtype) + (Le16(VK_ASCII_NAME) + Le16(0)) + EncodeLatin1(c.name)
  }

  function KeyHead(c: Cell): (r: seq<byte>)
    requires c.KeyNode? && FieldsFit(c)
    ensures |r| == 16
  {
    SIG_NK + Le16(if c.root then ROOT_FLAGS else KEY_FLAGS) + Le64(0) + Le32(0)
  }

  function KeyCounts(c: Cell): (r: seq<byte>)
    requires c.KeyNode? && FieldsFit(c)
    ensures |r| == 32
  {
    (Le32(c.subkeys) + Le32(0) + Le32(c.leaf) + Le32(NONE))
    + (Le32(c.values) + Le32(c.list) + Le32(c.security) + Le32(NONE))
  }

  function KeySizes(c: Cell): (r: seq<byte>)
    requires c.KeyNode? && FieldsFit(c)
    ensures |r| == 24 + |c.name|
  {
    (Le32(c.maxName) + Le32(0) + Le32(c.maxValueName) + Le32(c.maxData) + Le32(0))
    + ((Le16(|c.name|) + Le16(0)) + EncodeLatin1(c.name))
  }

  function PackFields(c: Cell): (r: seq<byte>)
    requires FieldsFit(c)
    ensures |r| == PayloadLength(c) <= MAX_PAYLOAD
  {
    match c
    case Security(_, _) => SecurityBytes(c)
    case Value(_, _, data, _) => ValueHead(c) + Le32(data) + ValueTail(c)
    case Data(bytes) => bytes
    case Offsets(list) => OffsetBytes(list)
    case Leaf(entries) => SIG_LF + (Le16(|entries|) + EntryBytes(entries))
    case KeyNode(_, _, parent, _, _, _, _, _, _, _, _) => KeyHead(c) + Le32(parent) + (KeyCounts(c) + KeySizes(c))
  }

  /** A cell's payload, or None where struct.pack raises because a field does not fit. */
  function Pack(c: Cell): Option<seq<byte>> {
    if FieldsFit(c) then Some(PackFields(c)) else None
  }

  predicate Encodable(c: Cell) {
    Pack(c).Some?
  }

  function Payload(c: Cell): (r: seq<byte>)
    requires Encodable(c)
    ensures |r| == PayloadLength(c) <= MAX_PAYLOAD
  {
    Pack(c).value
  }

  function PayloadLength(c: Cell): nat {
    match c
    case Security(_, descriptor) => 20 + |descriptor|
    case Value(name, _, _, _) => 20 + |name|
    case Data(bytes) => |bytes|
    case Offsets(list) => 4 * |list|
    case Leaf(entries) => 4 + 8 * |entries|
    case KeyNode(name, _, _, _, _, _, _, _, _, _, _) => 76 + |name|
  }

  // ---- the typed heap ----

  ghost predicate AllEncodable(heap: map<int, Cell>) {
    forall at :: at in heap ==> Encodable(heap[at])
  }

  /** The payload bytes of every cell. */
  ghost function Image(heap: map<int, Cell>): (r: map<int, seq<byte>>)
    requires AllEncodable(heap)
    ensures r.Keys == heap.Keys && forall at :: at in heap ==> r[at] == Payload(heap[at])
  {
    map at | at in heap :: Payload(heap[at])
  }

  /** From byte 32 on the buffer is exactly the cells of the typed heap. */
  ghost predicate Laid(buf: seq<byte>, heap: map<int, Cell>) {
    AllEncodable(heap) && Tiles(buf, Image(heap))
  }

  lemma ImageOfUpdate(heap: map<int, Cell>, at: nat, c: Cell)
    requires AllEncodable(heap) && Encodable(c)
    ensures AllEncodable(heap[at := c])
    ensures Image(heap[at := c]) == Image(heap)[at := Payload(c)]
  {
  }

  lemma AllocKeepsLaid(buf: seq<byte>, heap: map<int, Cell>, c: Cell)
    requires Laid(buf, heap) && Encodable(c)
    ensures |buf| !in heap
    ensures Laid(buf + CellBytes(Payload(c)), heap[|buf| := c])
  {
    ImageOfUpdate(heap, |buf|, c);
    AllocKeepsTiles(buf, Image(heap), Payload(c));
  }

  lemma PatchKeepsLaid(buf: seq<byte>, heap: map<int, Cell>, at: nat, c: Cell, field: nat, v: seq<byte>)
    requires Laid(buf, heap) && at in heap && Encodable(heap[at]) && Encodable(c)
    requires field + |v| <= |Payload(heap[at])|
    requires Payload(c) == Overwrite(Payload(heap[at]), field, v)
    ensures at + 4 + field + |v| <= |buf|
    ensures Laid(Overwrite(buf, at + 4 + field, v), heap[at := c])
  {
    ImageOfUpdate(heap, at, c);
    PatchKeepsTiles(buf, Image(heap), at, field, v);
  }

  lemma KeyPayloadIs(c: Cell)
    requires c.KeyNode? && Encodable(c)
    ensures FieldsFit(c) && Payload(c) == KeyHead(c) + Le32(c.parent) + (KeyCounts(c) + KeySizes(c))
  {
    hide KeyHead, KeyCounts, KeySizes, Le32;
  }

  lemma OtherPartsStay(c: Cell, parent: nat)
    requires c.KeyNode? && FieldsFit(c) && parent < U32_LIMIT
    ensures var c' := c.(parent := parent);
            FieldsFit(c') && KeyHead(c') == KeyHead(c) && KeyCounts(c') == KeyCounts(c) && KeySizes(c') == KeySizes(c)
  {
    hide Le16, Le32, Le64;
  }

  lemma PatchParent(c: Cell, parent: nat)
    requires c.KeyNode? && Encodable(c) && parent < U32_LIMIT
    ensures Encodable(c.(parent := parent)) && PARENT_FIELD + 4 <= |Payload(c)|
    ensures Payload(c.(parent := parent)) == Overwrite(Payload(c), PARENT_FIELD, Le32(parent))
  {
    hide KeyHead, KeyCounts, KeySizes, Le32, PackFields, Overwrite, FieldsFit, Payload;
    KeyPayloadIs(c);
    OtherPartsStay(c, parent);
    KeyPayloadIs(c.(parent := parent));
    OverwriteMiddle(KeyHead(c), Le32(c.parent), KeyCounts(c) + KeySizes(c), Le32(parent));
  }

  lemma ValuePayloadIs(c: Cell)
    requires c.Value? && Encodable(c)
    ensures FieldsFit(c) && Payload(c) == ValueHead(c) + Le32(c.data) + ValueTail(c)
  {
    hide ValueHead, ValueTail, Le32;
  }

  lemma PatchData(c: Cell, data: nat)
    requires c.Value? && Encodable(c) && data < U32_LIMIT
    ensures Encodable(c.(data := data)) && DATA_FIELD + 4 <= |Payload(c)|
    ensures Payload(c.(data := data)) == Overwrite(Payload(c), DATA_FIELD, Le32(data))
  {
    hide Le16, Le32, Overwrite, PackFields, Payload;
    var c' := c.(data := data);
    ValuePayloadIs(c);
    ValuePayloadIs(c');
    assert ValueHead(c') == ValueHead(c) && ValueTail(c') == ValueTail(c);
    OverwriteMiddle(ValueHead(c), Le32(c.data), ValueTail(c), Le32(data));
  }

  lemma PatchLinks(c: Cell, links: nat)
    requires c.Security? && Encodable(c) && links < U32_LIMIT
    ensures Encodable(c.(links := links)) && 4 + 8 <= |Payload(c)|
    ensures Payload(c.(links := links)) == Overwrite(Payload(c), 4, Le32(links) + Le32(links))
  {
    hide Le16, Le32, Overwrite;
    var rest := Le32(1) + Le32(|c.descriptor|) + c.descriptor;
    OverwriteMiddle(SIG_SK + Le16(0), Le32(c.links) + Le32(c.links), rest, Le32(links) + Le32(links));
  }

  lemma LaidEncodes(buf: seq<byte>, heap: map<int, Cell>, at: nat)
    requires Laid(buf, heap) && at in heap
    ensures Encodable(heap[at])
  {
  }

  lemma SetParentKeepsLaid(buf: seq<byte>, heap: map<int, Cell>, at: nat, c: Cell, parent: nat)
    requires Laid(buf, heap) && at in heap && heap[at] == c && c.KeyNode? && parent < U32_LIMIT
    ensures at + 4 + PARENT_FIELD + 4 <= |buf|
    ensures Laid(Overwrite(buf, at + 4 + PARENT_FIELD, Le32(parent)), heap[at := c.(parent := parent)])
  {
    hide *;
    LaidEncodes(buf, heap, at);
    PatchParent(c, parent);
    PatchKeepsLaid(buf, heap, at, c.(parent := parent), PARENT_FIELD, Le32(parent));
  }

  lemma SetDataKeepsLaid(buf: seq<byte>, heap: map<int, Cell>, at: nat, c: Cell, data: nat)
    requires Laid(buf, heap) && at in heap && heap[at] == c && c.Value? && data < U32_LIMIT
    ensures at + 4 + DATA_FIELD + 4 <= |buf|
    ensures Laid(Overwrite(buf, at + 4 + DATA_FIELD, Le32(data)), heap[at := c.(data := data)])
  {
    hide *;
    LaidEncodes(buf, heap, at);
    PatchData(c, data);
    PatchKeepsLaid(buf, heap, at, c.(data := data), DATA_FIELD, Le32(data));
  }

  lemma SetLinksKeepsLaid(buf: seq<byte>, heap: map<int, Cell>, at: nat, c: Cell, links: nat)
    requires Laid(buf, heap) && at in heap && heap[at] == c && c.Security? && links < U32_LIMIT
    ensures at + 16 <= |buf|
    ensures Laid(Overwrite(buf, at + 4 + 4, Le32(links) + Le32(links)), heap[at := c.(links := links)])
  {
    hide *;
    LaidEncodes(buf, heap, at);
    PatchLinks(c, links);
    PatchKeepsLaid(buf, heap, at, c.(links := links), 4, Le32(links) + Le32(links));
  }
}
