/** HiveWriter: lays the cells of a registry hive out in one growing buffer. */
module HiveWriting {
  import opened Bytes
  import opened Text
  import opened CellHeap
  import opened HiveCells
  import opened HiveTree
  import opened NameOrder
  import opened WriterState
  import opened HiveFile

  class HiveWriter {
    var hiveName: string
    var buf: seq<byte>
    ghost var heap: map<int, Cell>
    ghost var trees: map<int, Key>
    ghost var vals: map<int, Val>
    ghost var loose: set<int>

    ghost predicate Valid()
      reads this
    {
      Sound(buf, heap, trees, vals, loose)
    }

    constructor (name: string)
      ensures Valid() && hiveName == name
      ensures buf == Zeros(HBIN_HEADER) && heap == map[] && trees == map[] && vals == map[] && loose == {}
    {
      hiveName := name;
      buf := Zeros(HBIN_HEADER);
      heap, trees, vals, loose := map[], map[], map[], {};
    }

    method Alloc(payload: seq<byte>) returns (at: nat)
      requires |payload| <= MAX_PAYLOAD
      modifies `buf
      ensures at == |old(buf)| && buf == old(buf) + CellBytes(payload)
    {
      var size := (4 + |payload| + 7) / 8 * 8;
      at := |buf|;
      buf := buf + (Le32(U32_LIMIT - size) + payload);
      buf := buf + Zeros(size - 4 - |payload|);
    }

    method Patch(cell: nat, field: nat, v: seq<byte>)
      requires cell + 4 + field + |v| <= |buf|
      modifies `buf
      ensures buf == Overwrite(old(buf), cell + 4 + field, v)
    {
      buf := buf[..cell + 4 + field] + v + buf[cell + 4 + field + |v|..];
    }

    method Security() returns (at: nat)
      requires Valid() && |buf| + SECURITY_COST <= MAX_BUF
      modifies this
      ensures Valid() && hiveName == old(hiveName)
      ensures at < U32_LIMIT && at !in old(heap) && at in heap
      ensures heap == old(heap)[at := Cell.Security(at, SecurityDescriptor())]
      ensures trees == old(trees) && vals == old(vals) && loose == old(loose)
      ensures |buf| == |old(buf)| + SECURITY_COST
    {
      hide Sound, CellBytes, CellSize, Le32, SecurityDescriptor, Overwrite;
      var sd := SecurityDescriptor();
      SecurityKeepsSound(buf, heap, trees, vals, loose, sd);
      SecurityEncodes(0, sd);
      at := Alloc(Payload(Cell.Security(0, sd)));
      Patch(at, 4, Le32(at) + Le32(at));
      heap := heap[at := Cell.Security(at, sd)];
    }

    method Value(name: string, vtype: nat, data: seq<byte>) returns (r: ValueRef)
      requires Valid() && IsName(name) && vtype < U32_LIMIT && |data| <= MAX_PAYLOAD
      requires |buf| + ValueCost(Val(name, vtype, data)) <= MAX_BUF
      modifies this
      ensures Valid() && hiveName == old(hiveName)
      ensures r == ValueRef(|old(buf)|, name, |data|) && r.at !in old(heap) && r.at !in old(vals)
      ensures vals == old(vals)[r.at := Val(name, vtype, data)] && trees == old(trees) && loose == old(loose)
      ensures SameButParents(old(heap), heap)
      ensures |buf| == |old(buf)| + ValueCost(Val(name, vtype, data))
    {
      hide Sound, CellBytes, CellSize, Le32, Le16, Overwrite;
      ghost var v := Val(name, vtype, data);
      ValueKeepsSound(buf, heap, trees, vals, loose, v);
      FreshOffset(buf, heap, trees, vals, loose, |buf|);
      ValueEncodes(v, 0);
      var at := Alloc(Payload(Cell.Value(name, |data|, 0, vtype)));
      var dataAt := Alloc(data);
      Patch(at, DATA_FIELD, Le32(dataAt));
      assert buf == AfterValue(old(buf), v);
      heap, vals := HeapAfterValue(heap, at, v), vals[at := v];
      r := ValueRef(at, name, |data|);
    }

    /** The count, then an offset and a hint for every entry. */
    static method LeafBody(sorted: seq<KeyRef>) returns (body: seq<byte>)
      requires |sorted| < U16_LIMIT
      requires forall i :: 0 <= i < |sorted| ==> sorted[i].at < U32_LIMIT && IsLatin1(sorted[i].name)
      ensures body == Le16(|sorted|) + EntryBytes(sorted)
    {
      hide Le32, Le16, Hint, IsLatin1;
      body := Le16(|sorted|);
      var i := 0;
      while i < |sorted|
        invariant 0 <= i <= |sorted|
        invariant body == Le16(|sorted|) + EntryBytes(sorted[..i])
      {
        assert sorted[..i + 1][..i] == sorted[..i];
        body := body + (Le32(sorted[i].at) + Hint(sorted[i].name));
        i := i + 1;
      }
      assert sorted[..i] == sorted;
    }

    method SubkeyList(entries: seq<KeyRef>) returns (at: nat)
      requires Valid() && 0 < |entries| < U16_LIMIT
      requires forall i :: 0 <= i < |entries| ==> entries[i].at < U32_LIMIT && IsLatin1(entries[i].name)
      requires |buf| + CellSize(4 + 8 * |entries|) <= MAX_BUF
      modifies this
      ensures Valid() && hiveName == old(hiveName)
      ensures at == |old(buf)| && at !in old(heap) && heap == old(heap)[at := Leaf(Sorted(entries))]
      ensures trees == old(trees) && vals == old(vals) && loose == old(loose)
      ensures |buf| == |old(buf)| + CellSize(4 + 8 * |entries|)
    {
      hide Sound, CellBytes, CellSize, Le32, Le16, Hint, Order, Encodable, Payload, Pack, PackFields, FieldsFit;
      var sorted := Sorted(entries);
      var body := LeafBody(sorted);
      LeafEncodes(sorted);
      AllocKeepsSound(buf, heap, trees, vals, loose, Leaf(sorted));
      at := Alloc(SIG_LF + body);
      heap := heap[at := Leaf(sorted)];
    }

    method Key(name: string, security: nat, subkeys: seq<KeyRef>, values: seq<ValueRef>, root: bool) returns (r: KeyRef)
      requires Valid() && IsName(name) && security < U32_LIMIT
      requires |subkeys| < U16_LIMIT && 4 * |values| <= MAX_PAYLOAD
      requires ChildrenAreLoose(trees, loose, subkeys) && ValuesAreWritten(vals, values)
      requires |buf| + KeyCost(name, |subkeys|, |values|) <= MAX_BUF
      modifies this
      ensures Valid() && hiveName == old(hiveName)
      ensures r.name == name && r.at < U32_LIMIT && r.at !in old(heap) && r.at !in old(trees)
      ensures r.at in heap && heap[r.at].KeyNode?
      ensures heap[r.at].root == root && heap[r.at].security == security
      ensures trees == old(trees)[r.at := NewTree(name, old(trees), subkeys, old(vals), values)]
      ensures loose == old(loose) - Offs(subkeys) + {r.at}
      ensures vals == old(vals) && SameButParents(old(heap), heap)
      ensures ParentsSet(old(heap), heap, subkeys, r.at)
      ensures |buf| == |old(buf)| + KeyCost(name, |subkeys|, |values|)
    {
      hide Laid, Held, Linked, CellBytes, CellSize, Le32, Encodable, Payload, Pack, PackFields, FieldsFit, Overwrite,
        Adopt, OffsetBytes, Max, Lengths, Sizes, RefNames, ValueRefNames, Sorted, SameButParents, ParentsSet, NewTree,
        Offs, Ats, PayloadLength;
      ChildrenEncode(buf, heap, trees, vals, loose, subkeys, values);
      var leaf, list := KeyLists(subkeys, values);
      NodeEncodes(|buf|, name, root, security, subkeys, values, leaf, list);
      var node := NodeCell(name, root, security, subkeys, values, leaf, list);
      AllocKeepsLaid(buf, heap, node);
      FreshOffset(buf, heap, trees, vals, loose, |buf|);
      KeyKeepsPromises(heap, trees, vals, loose, subkeys, values, |buf|, node);
      var at := Alloc(Payload(node));
      AdoptParents(subkeys, at, heap[at := node]);
      ComposeFrames(old(heap), heap, Adopt(heap[at := node], subkeys, at));
      AdoptSetsParents(old(heap), heap, at, node, subkeys);
      heap := Adopt(heap[at := node], subkeys, at);
      trees, loose := trees[at := NewTree(name, trees, subkeys, vals, values)], loose - Offs(subkeys) + {at};
      r := KeyRef(at, name);
    }

    method KeyLists(subkeys: seq<KeyRef>, values: seq<ValueRef>) returns (leaf: nat, list: nat)
      requires Valid() && |subkeys| < U16_LIMIT && 4 * |values| <= MAX_PAYLOAD && RefsEncode(|buf|, subkeys, values)
      requires |buf| + KeyCost("", |subkeys|, |values|) <= MAX_BUF
      modifies this
      ensures Valid() && hiveName == old(hiveName)
      ensures ListsReady(heap, leaf, list, subkeys, values) && leaf <= NONE && list <= NONE
      ensures SameButParents(old(heap), heap) && forall a :: a in old(heap) ==> a in heap && heap[a] == old(heap)[a]
      ensures trees == old(trees) && vals == old(vals) && loose == old(loose)
      ensures |buf| == |old(buf)| + KeyCost("", |subkeys|, |values|) - CellSize(76)
    {
      hide Sound, CellSize, Sorted, Ats, IsName;
      leaf, list := NONE, NONE;
      if subkeys != [] {
        forall i | 0 <= i < |subkeys|
          ensures IsLatin1(subkeys[i].name)
        {
          NamesAreLatin1(subkeys[i].name);
        }
        leaf := SubkeyList(subkeys);
      }
      if values != [] {
        list := ValueList(values);
      }
    }

    method ValueList(values: seq<ValueRef>) returns (list: nat)
      requires Valid() && values != [] && 4 * |values| <= MAX_PAYLOAD && RefsEncode(|buf|, [], values)
      requires |buf| + CellSize(4 * |values|) <= MAX_BUF
      modifies this
      ensures Valid() && hiveName == old(hiveName)
      ensures list == |old(buf)| && list !in old(heap) && heap == old(heap)[list := Offsets(Ats(values))]
      ensures trees == old(trees) && vals == old(vals) && loose == old(loose)
      ensures |buf| == |old(buf)| + CellSize(4 * |values|)
    {
      hide Laid, Held, Linked, CellBytes, CellSize, Encodable, Payload, PayloadLength, OffsetBytes, Ats;
      OffsetsEncode(|buf|, values);
      AllocKeepsSound(buf, heap, trees, vals, loose, Offsets(Ats(values)));
      list := Alloc(OffsetBytes(Ats(values)));
      heap := heap[list := Offsets(Ats(values))];
    }

    method AdoptParents(subkeys: seq<KeyRef>, at: nat, ghost grown: map<int, Cell>)
      requires Laid(buf, grown) && at < U32_LIMIT
      requires forall i :: 0 <= i < |subkeys| ==> subkeys[i].at in grown && grown[subkeys[i].at].KeyNode?
      modifies `buf
      ensures Laid(buf, Adopt(grown, subkeys, at)) && |buf| == |old(buf)|
    {
      hide Laid, Le32, Overwrite, Adopt;
      var i := 0;
      AdoptNone(grown, at);
      assert subkeys[..0] == [];
      while i < |subkeys|
        invariant 0 <= i <= |subkeys| && |buf| == |old(buf)|
        invariant Laid(buf, Adopt(grown, subkeys[..i], at))
      {
        AdoptOneMore(grown, subkeys, i, at);
        SetParent(subkeys[i].at, at, Adopt(grown, subkeys[..i], at));
        i := i + 1;
      }
      assert subkeys[..i] == subkeys;
    }

    /** The parent's offset goes into a child that is already in the buffer. */
    method SetParent(child: nat, at: nat, ghost before: map<int, Cell>)
      requires Laid(buf, before) && at < U32_LIMIT && child in before && before[child].KeyNode?
      modifies `buf
      ensures Laid(buf, before[child := before[child].(parent := at)]) && |buf| == |old(buf)|
    {
      hide Laid, Le32, Overwrite;
      SetParentKeepsLaid(buf, before, child, before[child], at);
      Patch(child, PARENT_FIELD, Le32(at));
    }

    /** The finished store: the header page with its checksum, then the cells padded to whole pages. */
    method Serialise(root: nat) returns (store: seq<byte>)
      requires Valid() && root < U32_LIMIT
      ensures IsStore(store, buf, root)
      ensures |store| >= 0x1000
      ensures HeaderStands(store, hiveName, root, |store| - 0x1000) && BinStands(store, |store| - 0x1000)
    {
      hide Laid, Held, Linked, IsStore, XorDwords, BaseBlock, BinHeader, Le32, HeaderStands, BinStands;
      BufferShape(buf, heap);
      var hbins := buf;
      var pad := Padding(|hbins|);
      if pad != 0 {
        hbins := hbins + (Le32(pad) + Zeros(pad - 4));
      }
      hbins := BinHeader(|hbins|) + hbins[HBIN_HEADER..];
      var head := HeaderPage(root, |hbins|);
      assert hbins == BinHeader(|buf| + pad) + buf[HBIN_HEADER..] + FreeCell(pad);
      StoreOfParts(head, hbins, buf, root);
      store := head + hbins;
      PageMoves(head, store, hiveName, root, |hbins|);
      BinHeaderStands(store, |hbins|);
    }

    method HeaderPage(root: nat, length: nat) returns (head: seq<byte>)
      requires root < U32_LIMIT && length < U32_LIMIT
      ensures |head| == PAGE && head[..0x30] == BaseBlock(root, length)
      ensures XorDwords(head[..CHECKSUM_FIELD + 4]) == 0
      ensures HeaderStands(head, hiveName, root, length)
    {
      hide XorDwords, BaseBlock, NameField, Le32, Zeros, Overwrite, HeaderStands;
      head := Zeros(PAGE);
      head := Overwrite(head, 0, BaseBlock(root, length));
      head := Overwrite(head, 0x30, NameField(hiveName));
      var checksum := Checksum(head);
      ghost var before := head[..CHECKSUM_FIELD];
      ChecksumCancels(before);
      head := Overwrite(head, CHECKSUM_FIELD, Le32(checksum as nat));
      assert head[..CHECKSUM_FIELD + 4] == before + Le32(checksum as nat);
      assert head[0x30..0x70] == NameField(hiveName);
      PageStands(head, hiveName, root, length);
    }

    static method Checksum(head: seq<byte>) returns (checksum: bv32)
      requires |head| == PAGE
      ensures checksum == XorDwords(head[..CHECKSUM_FIELD])
    {
      hide XorDwords, U32At;
      checksum := 0;
      var i := 0;
      assert head[..0] == [];
      XorOfNothing();
      while i < CHECKSUM_FIELD
        invariant 0 <= i <= CHECKSUM_FIELD && i % 4 == 0
        invariant checksum == XorDwords(head[..i])
      {
        XorNext(head, i);
        checksum := checksum ^ (U32At(head, i) as bv32);
        i := i + 4;
      }
    }
  }
}
