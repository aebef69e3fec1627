/** What stands in the bytes of a finished store: the tiling of its cells and the links between its keys. */
module StoreLayout {
  import opened Bytes
  import opened CellHeap
  import opened HiveCells
  import opened HiveTree
  import opened HiveFile
  import opened HiveReader
  import opened HiveRoundTrip

  /**
   * The cells run without gap or overlap to the end of the buffer, each one
   * marked in use; what is left of the last page is one free cell, never
   * smaller than 8 bytes, and the store ends on a page boundary.
   */
  lemma StoreIsTiled(store: seq<byte>, buf: seq<byte>, heap: map<int, Cell>, root: nat)
    requires Laid(buf, heap) && IsStore(store, buf, root)
    ensures Tiled(Image(heap), |buf|)
    ensures |store| % PAGE == 0 && |buf| <= |store| - PAGE < |buf| + PAGE
    ensures |store| - PAGE > |buf| ==>
              |store| - PAGE - |buf| >= 8 && U32At(store, PAGE + |buf|) == |store| - PAGE - |buf|
    ensures forall at :: at in heap ==> InUse(store, at, SizeOf(heap[at]))
  {
    hide XorDwords, Payload, Chained, Disjoint, CellSize, CellBytes, U32At, FreeCell;
    TailIsFree(store, buf, root);
    forall at | at in heap
      ensures InUse(store, at, SizeOf(heap[at]))
    {
      assert HoldsCell(buf, at, Image(heap)[at]);
      SizeInStore(store, buf, at, Payload(heap[at]));
    }
  }

  lemma TailIsFree(store: seq<byte>, buf: seq<byte>, root: nat)
    requires IsStore(store, buf, root)
    ensures |store| % PAGE == 0 && |buf| <= |store| - PAGE < |buf| + PAGE
    ensures |store| - PAGE > |buf| ==>
              |store| - PAGE - |buf| >= 8 && U32At(store, PAGE + |buf|) == |store| - PAGE - |buf|
  {
    hide XorDwords, U32At, Padding;
    var pad := Padding(|buf|);
    if pad > 0 {
      FieldInSlice(store, PAGE + |buf|, FreeCell(pad), 0);
      FieldInSlice(FreeCell(pad), 0, Le32(pad), 0);
    }
  }

  function SizeOf(c: Cell): nat {
    CellSize(PayloadLength(c))
  }

  /** A negative size field: the two's complement of the cell's size. */
  ghost predicate InUse(store: seq<byte>, at: int, size: nat) {
    0 <= at && 4 <= size <= I32_LIMIT && PAGE + at + size <= |store| && U32At(store, PAGE + at) == U32_LIMIT - size
  }

  /** The reader takes the size for what it is, the sign left out and its own four bytes taken off. */
  lemma SizeReads(store: seq<byte>, at: nat, size: nat)
    requires InUse(store, at, size)
    ensures CellAt(store, at) == Ok((0x1000 + at + 4, size - 4))
  {
    hide U32At;
  }

  lemma SizeInStore(store: seq<byte>, buf: seq<byte>, at: nat, payload: seq<byte>)
    requires HBIN_HEADER <= at && HoldsCell(buf, at, payload) && |store| >= PAGE + |buf|
    requires store[PAGE + HBIN_HEADER..PAGE + |buf|] == buf[HBIN_HEADER..]
    ensures InUse(store, at, CellSize(|payload|))
  {
    var cell, part := CellBytes(payload), buf[HBIN_HEADER..];
    FieldInSlice(buf, at, cell, 0);
    FieldInSlice(store, PAGE + HBIN_HEADER, part, at - HBIN_HEADER);
    FieldInTail(buf[..HBIN_HEADER], part, at - HBIN_HEADER);
    assert buf == buf[..HBIN_HEADER] + part;
    CellSizeField(payload);
  }

  lemma CellSizeField(payload: seq<byte>)
    requires |payload| <= MAX_PAYLOAD
    ensures U32At(CellBytes(payload), 0) == U32_LIMIT - CellSize(|payload|) && CellSize(|payload|) <= I32_LIMIT
  {
    var size := CellSize(|payload|);
    FieldInSlice(CellBytes(payload), 0, Le32(U32_LIMIT - size), 0);
  }

  /** The parent field of the key at `at`, as it stands in the store. */
  function ParentField(store: seq<byte>, at: nat): nat
    requires BASE + at + 4 + PARENT_FIELD + 4 <= |store|
  {
    U32At(store, BASE + at + 4 + PARENT_FIELD)
  }

  /** Some key lists `a` among its children. */
  ghost predicate IsListed(heap: map<int, Cell>, a: int) {
    exists p :: p in heap && IsKid(Kids(heap, p), a)
  }

  lemma LooseIsUnlisted(heap: map<int, Cell>, loose: set<int>, a: int)
    requires Linked(heap, loose) && a in heap && heap[a].KeyNode?
    ensures a in loose <==> !IsListed(heap, a)
  {
    if IsListed(heap, a) {
      var p :| p in heap && IsKid(Kids(heap, p), a);
      ListedNamesParent(heap, loose, p, a);
    }
    if a !in loose {
      assert ListedByParent(heap, a);
    }
  }

  lemma ListedNamesParent(heap: map<int, Cell>, loose: set<int>, p: int, a: int)
    requires Linked(heap, loose) && p in heap && IsKid(Kids(heap, p), a)
    ensures a in heap && heap[a].KeyNode? && heap[a].parent == p && p != NONE
  {
    var i: nat :| i < |Kids(heap, p)| && Kids(heap, p)[i].at == a;
    assert LinkedChild(heap, p, i);
  }

  /**
   * Every key listed under another holds that key's offset in its parent
   * field; a key holds 0xFFFFFFFF there exactly when no key lists it.
   */
  lemma ParentLinksInStore(store: seq<byte>, heap: map<int, Cell>, loose: set<int>, at: nat)
    requires InFile(store, heap) && Linked(heap, loose) && at in heap && heap[at].KeyNode?
    ensures BASE + at + 4 + PARENT_FIELD + 4 <= |store|
    ensures forall i :: 0 <= i < |Kids(heap, at)| ==>
              var c := Kids(heap, at)[i].at;
              c in heap && BASE + c + 4 + PARENT_FIELD + 4 <= |store| && ParentField(store, c) == at
    ensures ParentField(store, at) == NONE <==> !IsListed(heap, at)
  {
    hide Payload, U32At, Kids, IsListed;
    ParentReads(store, heap, at);
    LooseIsUnlisted(heap, loose, at);
    forall i | 0 <= i < |Kids(heap, at)|
      ensures var c := Kids(heap, at)[i].at;
              c in heap && BASE + c + 4 + PARENT_FIELD + 4 <= |store| && ParentField(store, c) == at
    {
      assert LinkedChild(heap, at, i);
      ParentReads(store, heap, Kids(heap, at)[i].at);
    }
  }

  lemma ParentReads(store: seq<byte>, heap: map<int, Cell>, at: nat)
    requires InFile(store, heap) && at in heap && heap[at].KeyNode?
    ensures BASE + at + 4 + PARENT_FIELD + 4 <= |store| && ParentField(store, at) == heap[at].parent
  {
    ParentInPayload(heap[at]);
    hide Payload, Pack, U32At;
    FieldInSlice(store, BASE + at + 4, Payload(heap[at]), PARENT_FIELD);
  }

  lemma ParentInPayload(c: Cell)
    requires c.KeyNode? && Encodable(c)
    ensures |Payload(c)| >= 76 && U32At(Payload(c), PARENT_FIELD) == c.parent
  {
    hide KeyHead, KeyCounts, KeySizes, Le32;
    FieldInTail(KeyHead(c), Le32(c.parent) + (KeyCounts(c) + KeySizes(c)), 0);
    FieldInSlice(Le32(c.parent) + (KeyCounts(c) + KeySizes(c)), 0, Le32(c.parent), 0);
    assert Payload(c) == KeyHead(c) + (Le32(c.parent) + (KeyCounts(c) + KeySizes(c)));
  }
}
