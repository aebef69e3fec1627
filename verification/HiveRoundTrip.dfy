/** A store the writer serialised, read back by regf.py, is the tree that was written. */
module HiveRoundTrip {
  import opened Bytes
  import opened Text
  import opened CellHeap
  import opened HiveCells
  import opened HiveTree
  import opened HiveFile
  import opened HiveReader

  // ---- a typed heap inside a file ----

  /** The payload of every cell stands in the file where the reader looks for it. */
  ghost predicate InFile(d: seq<byte>, heap: map<int, Cell>) {
    && AllEncodable(heap) && NONE !in heap
    && forall at :: at in heap ==> PayloadAt(d, at, Payload(heap[at]))
  }

  ghost predicate PayloadAt(d: seq<byte>, at: int, payload: seq<byte>) {
    && 0 <= at && BASE + at + 4 + |payload| <= |d|
    && d[BASE + at + 4..BASE + at + 4 + |payload|] == payload
  }

  lemma StoreHoldsHeap(store: seq<byte>, buf: seq<byte>, heap: map<int, Cell>, root: nat)
    requires Laid(buf, heap) && NONE !in heap && IsStore(store, buf, root)
    ensures InFile(store, heap)
  {
    hide XorDwords, Payload, CellBytes, CellSize, Chained, Disjoint;
    forall at | at in heap
      ensures PayloadAt(store, at, Payload(heap[at]))
    {
      var payload := Payload(heap[at]);
      assert HoldsCell(buf, at, Image(heap)[at]);
      PayloadInStore(store, buf, at, payload);
    }
  }

  lemma PayloadInStore(store: seq<byte>, buf: seq<byte>, at: nat, payload: seq<byte>)
    requires HBIN_HEADER <= at && HoldsCell(buf, at, payload) && |store| >= PAGE + |buf|
    requires store[PAGE + HBIN_HEADER..PAGE + |buf|] == buf[HBIN_HEADER..]
    ensures PayloadAt(store, at, payload)
  {
    hide CellBytes, CellSize;
    var cell := CellBytes(payload);
    assert cell[4..4 + |payload|] == payload;
    SliceOfSlice(buf, at, cell, 4, 4 + |payload|);
    var part := buf[HBIN_HEADER..];
    SliceOfSlice(store, PAGE + HBIN_HEADER, part, at + 4 - HBIN_HEADER, at + 4 + |payload| - HBIN_HEADER);
    assert part[at + 4 - HBIN_HEADER..at + 4 + |payload| - HBIN_HEADER] == buf[at + 4..at + 4 + |payload|];
  }

  // ---- fields of cells ----

  lemma KeyFields(c: Cell)
    requires c.KeyNode? && Encodable(c)
    ensures var p := Payload(c);
            && p[..2] == SIG_NK
            && U16At(p, 2) == (if c.root then ROOT_FLAGS else KEY_FLAGS)
            && U32At(p, 0x14) == c.subkeys && U32At(p, 0x1C) == c.leaf
            && U32At(p, 0x24) == c.values && U32At(p, 0x28) == c.list
            && U16At(p, 0x48) == |c.name| && p[0x4C..] == EncodeLatin1(c.name)
  {
    var p := Payload(c);
    var front := KeyHead(c) + Le32(c.parent);
    assert p == front + (KeyCounts(c) + KeySizes(c));
    assert p == front + KeyCounts(c) + KeySizes(c);
    KeyHeadFields(c);
    KeyCountFields(c);
    KeySizeFields(c);
    hide KeyHead, KeyCounts, KeySizes, Le32;
    assert p[..2] == KeyHead(c)[..2];
    assert forall k :: 0 <= k < 32 ==> p[20 + k] == KeyCounts(c)[k];
    assert forall k :: 0 <= k < |KeySizes(c)| ==> p[52 + k] == KeySizes(c)[k];
    FieldInTail(front, KeyCounts(c) + KeySizes(c), 0);
    assert p[0x4C..] == KeySizes(c)[24..];
  }

  lemma KeyHeadFields(c: Cell)
    requires c.KeyNode? && FieldsFit(c)
    ensures KeyHead(c)[..2] == SIG_NK && U16At(KeyHead(c), 2) == (if c.root then ROOT_FLAGS else KEY_FLAGS)
  {
  }

  lemma KeyCountFields(c: Cell)
    requires c.KeyNode? && FieldsFit(c)
    ensures U32At(KeyCounts(c), 0) == c.subkeys && U32At(KeyCounts(c), 8) == c.leaf
    ensures U32At(KeyCounts(c), 16) == c.values && U32At(KeyCounts(c), 20) == c.list
  {
    var a := Le32(c.subkeys) + Le32(0) + Le32(c.leaf) + Le32(NONE);
    var b := Le32(c.values) + Le32(c.list) + Le32(c.security) + Le32(NONE);
    assert KeyCounts(c) == a + b;
    FieldInTail(a, b, 0);
    FieldInTail(a, b, 4);
    FieldInTail(Le32(c.subkeys) + Le32(0), Le32(c.leaf) + Le32(NONE), 0);
    assert a == (Le32(c.subkeys) + Le32(0)) + (Le32(c.leaf) + Le32(NONE));
    FieldInTail(Le32(c.values), Le32(c.list) + Le32(c.security) + Le32(NONE), 0);
  }

  lemma KeySizeFields(c: Cell)
    requires c.KeyNode? && FieldsFit(c)
    ensures U16At(KeySizes(c), 20) == |c.name| && KeySizes(c)[24..] == EncodeLatin1(c.name)
  {
    var a := Le32(c.maxName) + Le32(0) + Le32(c.maxValueName) + Le32(c.maxData) + Le32(0);
    var b := (Le16(|c.name|) + Le16(0)) + EncodeLatin1(c.name);
    assert KeySizes(c) == a + b;
    FieldInTail(a, b, 0);
  }

  lemma ValueFields(c: Cell)
    requires c.Value? && Encodable(c)
    ensures var p := Payload(c);
            && p[..2] == SIG_VK && U16At(p, 2) == |c.name| && U32At(p, 4) == c.len
            && U32At(p, 8) == c.data && U32At(p, 12) == c.vtype && U16At(p, 16) == VK_ASCII_NAME
            && p[0x14..] == EncodeLatin1(c.name)
  {
    var p := Payload(c);
    assert p == (ValueHead(c) + Le32(c.data)) + ValueTail(c);
    FieldInTail(ValueHead(c), Le32(c.data) + ValueTail(c), 0);
    FieldInTail(ValueHead(c) + Le32(c.data), ValueTail(c), 0);
    FieldInTail(ValueHead(c) + Le32(c.data), ValueTail(c), 4);
  }

  lemma {:induction false} EntryField(entries: seq<KeyRef>, i: nat)
    requires i < |entries|
    requires forall j :: 0 <= j < |entries| ==> entries[j].at < U32_LIMIT && IsLatin1(entries[j].name)
    ensures U32At(EntryBytes(entries), 8 * i) == entries[i].at
  {
    hide Le32, Hint;
    var n := |entries| - 1;
    var most, last := EntryBytes(entries[..n]), Le32(entries[n].at) + Hint(entries[n].name);
    assert EntryBytes(entries) == most + last;
    if i < n {
      EntryField(entries[..n], i);
      assert forall k :: 0 <= k < |most| ==> (most + last)[k] == most[k];
    } else {
      FieldInTail(most, last, 0);
    }
  }

  lemma {:induction false} OffsetField(list: seq<nat>, i: nat)
    requires i < |list| && forall j :: 0 <= j < |list| ==> list[j] < U32_LIMIT
    ensures U32At(OffsetBytes(list), 4 * i) == list[i]
  {
    hide Le32;
    var n := |list| - 1;
    var most, last := OffsetBytes(list[..n]), Le32(list[n]);
    assert OffsetBytes(list) == most + last;
    if i < n {
      OffsetField(list[..n], i);
      assert forall k :: 0 <= k < |most| ==> (most + last)[k] == most[k];
    } else {
      FieldInTail(most, last, 0);
    }
  }

  // ---- what the reader makes of each cell ----

  lemma CellReads(d: seq<byte>, at: nat, payload: seq<byte>)
    requires PayloadAt(d, at, payload)
    ensures CellAt(d, at).Ok? && CellAt(d, at).value.0 == BASE + at + 4
    ensures |payload| >= 2 ==> Slice(d, BASE + at + 4, BASE + at + 6) == payload[..2]
  {
    if |payload| >= 2 {
      SliceOfSlice(d, BASE + at + 4, payload, 0, 2);
    }
  }

  lemma NkReads(d: seq<byte>, heap: map<int, Cell>, at: nat)
    requires InFile(d, heap) && at in heap && heap[at].KeyNode?
    ensures var c := heap[at];
            ReadNk(d, at) == Ok(Nk(c.name, c.subkeys, c.leaf, c.values, c.list))
  {
    hide Payload, CellAt, Pack, DecodeLatin1, EncodeLatin1, U16At, U32At, Slice;
    var c := heap[at];
    var payload, p := Payload(c), BASE + at + 4;
    KeyFields(c);
    NameDecodes(c);
    CellReads(d, at, payload);
    FieldInSlice(d, p, payload, 2);
    FieldInSlice(d, p, payload, 0x14);
    FieldInSlice(d, p, payload, 0x1C);
    FieldInSlice(d, p, payload, 0x24);
    FieldInSlice(d, p, payload, 0x28);
    FieldInSlice(d, p, payload, 0x48);
    SliceOfSlice(d, p, payload, 0x4C, 0x4C + |c.name|);
  }

  lemma NameDecodes(c: Cell)
    requires (c.KeyNode? || c.Value?) && Encodable(c)
    ensures IsLatin1(c.name) && DecodeLatin1(EncodeLatin1(c.name)) == c.name
    ensures |Payload(c)| == (if c.KeyNode? then 76 else 20) + |c.name|
  {
    Latin1RoundTrip(c.name);
  }

  function EntryOffsets(entries: seq<KeyRef>): (r: seq<nat>)
    ensures |r| == |entries| && forall i :: 0 <= i < |r| ==> r[i] == entries[i].at
  {
    seq(|entries|, i requires 0 <= i < |entries| => entries[i].at)
  }

  /** A list of offsets from p, one every `stride` bytes. */
  ghost predicate OffsetsLie(d: seq<byte>, p: nat, stride: nat, list: seq<nat>) {
    forall i {:trigger list[i]} :: 0 <= i < |list| ==> p + i * stride + 4 <= |d| && U32At(d, p + i * stride) == list[i]
  }

  lemma {:induction false} OffsetsRead(d: seq<byte>, p: nat, stride: nat, xs: seq<nat>, n: nat)
    requires n <= |xs| && OffsetsLie(d, p, stride, xs)
    ensures OffsetsFrom(d, p, stride, n) == Ok(xs[..n])
  {
    if n == 0 {
    } else {
      OffsetsRead(d, p, stride, xs, n - 1);
      assert xs[..n] == xs[..n - 1] + [xs[n - 1]];
    }
  }

  lemma LeafReads(d: seq<byte>, heap: map<int, Cell>, at: nat, count: nat, fuel: nat)
    requires InFile(d, heap) && at in heap && heap[at].Leaf? && at != NONE && count > 0 && fuel > 0
    ensures SubkeyOffsets(d, count, at, fuel) == Ok(EntryOffsets(heap[at].entries))
  {
    hide Payload, Pack, CellAt, EntryBytes, Le16, U16At, U32At, Slice, OffsetsFrom;
    var entries, p := heap[at].entries, BASE + at + 4;
    var payload := Payload(heap[at]);
    LeafLayout(entries);
    CellReads(d, at, payload);
    FieldInSlice(d, p, payload, 2);
    var ats := EntryOffsets(entries);
    forall i {:trigger ats[i]} | 0 <= i < |ats|
      ensures p + 4 + i * 8 + 4 <= |d| && U32At(d, p + 4 + i * 8) == ats[i]
    {
      EntryField(entries, i);
      FieldInTail(payload[..4], EntryBytes(entries), 8 * i);
      FieldInSlice(d, p, payload, 4 + 8 * i);
    }
    OffsetsRead(d, p + 4, 8, ats, |ats|);
    assert ats[..|ats|] == ats;
  }

  lemma LeafLayout(entries: seq<KeyRef>)
    requires Encodable(Leaf(entries))
    ensures |entries| < U16_LIMIT
    ensures forall j :: 0 <= j < |entries| ==> entries[j].at < U32_LIMIT && IsLatin1(entries[j].name)
    ensures var p := Payload(Leaf(entries));
            |p| >= 4 && p[..2] == SIG_LF && U16At(p, 2) == |entries| && p == p[..4] + EntryBytes(entries)
  {
    hide EntryBytes;
    var p := Payload(Leaf(entries));
    assert p == SIG_LF + (Le16(|entries|) + EntryBytes(entries));
    FieldInTail(SIG_LF, Le16(|entries|) + EntryBytes(entries), 0);
    assert p == (SIG_LF + Le16(|entries|)) + EntryBytes(entries);
  }

  // ---- values ----

  /** How a written value reads back: an unnamed one comes out as "(default)". */
  function ReadBack(v: Val): ReadValue {
    ReadValue(if v.name == "" then "(default)" else v.name, v.vtype, v.data)
  }

  function ReadBackAll(vs: seq<Val>): (r: seq<ReadValue>)
    ensures |r| == |vs| && forall i :: 0 <= i < |vs| ==> r[i] == ReadBack(vs[i])
  {
    seq(|vs|, i requires 0 <= i < |vs| => ReadBack(vs[i]))
  }

  lemma DataReads(d: seq<byte>, heap: map<int, Cell>, at: nat, data: seq<byte>)
    requires InFile(d, heap) && at in heap && heap[at] == Data(data) && at < U32_LIMIT
    ensures |data| < I32_LIMIT && ValueData(d, |data|, at) == Ok(data)
  {
    assert Encodable(heap[at]);
    CellReads(d, at, Payload(heap[at]));
  }

  lemma ValueReads(d: seq<byte>, heap: map<int, Cell>, at: nat, v: Val)
    requires InFile(d, heap) && HoldsValue(heap, at, v)
    ensures ValueAt(d, at) == Ok(ReadBack(v))
  {
    hide Payload, Pack, CellAt, DecodeLatin1, EncodeLatin1, U16At, U32At, Slice, ValueData;
    var c := heap[at];
    var payload, p := Payload(c), BASE + at + 4;
    ValueFields(c);
    NameDecodes(c);
    CellReads(d, at, payload);
    FieldInSlice(d, p, payload, 2);
    FieldInSlice(d, p, payload, 4);
    FieldInSlice(d, p, payload, 8);
    FieldInSlice(d, p, payload, 12);
    FieldInSlice(d, p, payload, 16);
    SliceOfSlice(d, p, payload, 0x14, 0x14 + |c.name|);
    DataReads(d, heap, c.data, v.data);
  }

  lemma {:induction false} ValuesRead(d: seq<byte>, heap: map<int, Cell>, list: seq<nat>, vs: seq<Val>, p: nat, n: nat)
    requires InFile(d, heap) && |list| == |vs| && n <= |vs|
    requires forall i :: 0 <= i < |vs| ==> HoldsValue(heap, list[i], vs[i])
    requires OffsetsLie(d, p, 4, list)
    ensures ValuesFrom(d, p, n) == Ok(ReadBackAll(vs[..n]))
  {
    hide InFile, HoldsValue, ValueAt, U32At;
    if n == 0 {
    } else {
      ValuesRead(d, heap, list, vs, p, n - 1);
      ValueReads(d, heap, list[n - 1], vs[n - 1]);
      assert ReadBackAll(vs[..n]) == ReadBackAll(vs[..n - 1]) + [ReadBack(vs[n - 1])];
    }
  }

  /** The values of a key come back with their names, types and bytes, in order. */
  lemma KeyValuesRead(d: seq<byte>, heap: map<int, Cell>, list: nat, vs: seq<Val>)
    requires InFile(d, heap) && HoldsValues(heap, list, vs)
    ensures ValuesOf(d, |vs|, list) == Ok(ReadBackAll(vs))
  {
    hide Payload, Pack, CellAt, OffsetBytes, U32At, HoldsValue, ValuesFrom;
    if vs == [] {
      return;
    }
    var offs, payload, p := heap[list].offsets, Payload(heap[list]), BASE + list + 4;
    OffsetsLayout(heap[list]);
    CellReads(d, list, payload);
    forall i {:trigger offs[i]} | 0 <= i < |offs|
      ensures p + i * 4 + 4 <= |d| && U32At(d, p + i * 4) == offs[i]
    {
      OffsetField(offs, i);
      FieldInSlice(d, p, payload, 4 * i);
    }
    ValuesRead(d, heap, offs, vs, p, |vs|);
    assert vs[..|vs|] == vs;
  }

  lemma OffsetsLayout(c: Cell)
    requires c.Offsets? && Encodable(c)
    ensures Payload(c) == OffsetBytes(c.offsets) && forall i :: 0 <= i < |c.offsets| ==> c.offsets[i] < U32_LIMIT
  {
  }

  // ---- the walk ----

  /** A tree's keys, parents first, with the paths Hive.walk gives them. */
  function Preorder(t: Key, path: string): seq<(string, Key)> {
    var here := JoinPath(path, t.name);
    [(here, t)] + PreorderEach(t.subkeys, here)
  }

  function PreorderEach(ts: seq<Key>, path: string): seq<(string, Key)> {
    if ts == [] then [] else Preorder(ts[0], path) + PreorderEach(ts[1..], path)
  }

  /** What the walk yields at a key is that key: its name and, read through it, its values. */
  ghost predicate Shows(d: seq<byte>, nk: Nk, t: Key) {
    && nk.name == t.name && nk.subkeys == |t.subkeys| && nk.values == |t.values|
    && ValuesOf(d, nk.values, nk.list) == Ok(ReadBackAll(t.values))
  }

  ghost predicate Lists<P(!new)>(d: seq<byte>, visits: seq<Visit<P>>, keys: seq<(P, Key)>) {
    && |visits| == |keys|
    && forall i :: 0 <= i < |keys| ==> visits[i].path == keys[i].0 && Shows(d, visits[i].nk, keys[i].1)
  }

  /** One key, before its children: what any walk learns there. */
  lemma KeyReads(d: seq<byte>, heap: map<int, Cell>, at: nat, t: Key, fuel: nat)
    requires InFile(d, heap) && HoldsKey(heap, at, t) && fuel > 0
    ensures ReadNk(d, at).Ok? && Shows(d, ReadNk(d, at).value, t)
    ensures var nk := ReadNk(d, at).value;
            && SubkeyOffsets(d, nk.subkeys, nk.leaf, fuel) == Ok(EntryOffsets(Kids(heap, at)))
            && |Kids(heap, at)| == |t.subkeys|
            && forall i :: 0 <= i < |t.subkeys| ==>
                 Kids(heap, at)[i].at < at && HoldsKey(heap, Kids(heap, at)[i].at, t.subkeys[i])
  {
    hide InFile, ReadNk, ValuesOf, HoldsValues, Max;
    NkReads(d, heap, at);
    KeyValuesRead(d, heap, heap[at].list, t.values);
    NoneIsFree(d, heap);
    if t.subkeys != [] {
      LeafReads(d, heap, heap[at].leaf, |t.subkeys|, fuel);
    }
  }

  lemma NoneIsFree(d: seq<byte>, heap: map<int, Cell>)
    requires InFile(d, heap)
    ensures NONE !in heap
  {
  }

  /**
   * Hive.walk from a key yields exactly the keys of its tree, parents first.
   * It ends: every child lies below its parent, so the key's own offset bounds the depth.
   */
  lemma {:induction false} WalkReads(d: seq<byte>, heap: map<int, Cell>, at: nat, t: Key, path: string, fuel: nat)
    requires InFile(d, heap) && HoldsKey(heap, at, t) && fuel > at
    ensures Walk(d, at, path, fuel).Ok? && Lists(d, Walk(d, at, path, fuel).value, Preorder(t, path))
    decreases fuel, 0
  {
    hide InFile, HoldsKey, SubkeyOffsets, ReadNk, Kids, ValuesOf;
    KeyReads(d, heap, at, t, fuel);
    WalkEachReads(d, heap, EntryOffsets(Kids(heap, at)), t.subkeys, JoinPath(path, t.name), fuel - 1);
  }

  lemma {:induction false} WalkEachReads(d: seq<byte>, heap: map<int, Cell>, offs: seq<nat>, ts: seq<Key>, path: string,
                                         fuel: nat)
    requires InFile(d, heap) && |offs| == |ts|
    requires forall i :: 0 <= i < |ts| ==> offs[i] < fuel && HoldsKey(heap, offs[i], ts[i])
    ensures WalkEach(d, offs, path, fuel).Ok? && Lists(d, WalkEach(d, offs, path, fuel).value, PreorderEach(ts, path))
    decreases fuel, |offs| + 1
  {
    hide InFile, HoldsKey, Shows, Walk;
    if ts == [] {
    } else {
      WalkReads(d, heap, offs[0], ts[0], path, fuel);
      WalkEachReads(d, heap, offs[1..], ts[1..], path, fuel);
    }
  }
}
