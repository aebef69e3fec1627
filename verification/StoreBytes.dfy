/** Every field of a finished store, at the position the format gives it. */
module StoreBytes {
  import opened Bytes
  import opened Text
  import opened CellHeap
  import opened HiveCells
  import opened HiveTree
  import opened WriterState
  import opened HiveReader
  import opened HiveRoundTrip

  /** Where the payload of the cell at `at` begins in the file. */
  function At(at: nat): nat {
    0x1000 + at + 4
  }

  // ---- keys ----

  /** A key cell, field by field: what stands in no field is written as zero. */
  predicate KeyBytes(s: seq<byte>, p: nat, c: Cell)
    requires c.KeyNode?
  {
    && p + 76 + |c.name| <= |s| && s[p] == 'n' as int && s[p + 1] == 'k' as int
    && U16At(s, p + 2) == (if c.root then 0x2C else 0x20)
    && U32At(s, p + 4) == 0 && U32At(s, p + 8) == 0 && U32At(s, p + 12) == 0
    && U32At(s, p + 0x10) == c.parent
    && U32At(s, p + 0x14) == c.subkeys && U32At(s, p + 0x18) == 0 && U32At(s, p + 0x1C) == c.leaf
    && U32At(s, p + 0x20) == 0xFFFF_FFFF
    && U32At(s, p + 0x24) == c.values && U32At(s, p + 0x28) == c.list && U32At(s, p + 0x2C) == c.security
    && U32At(s, p + 0x30) == 0xFFFF_FFFF
    && U32At(s, p + 0x34) == c.maxName && U32At(s, p + 0x38) == 0 && U32At(s, p + 0x3C) == c.maxValueName
    && U32At(s, p + 0x40) == c.maxData && U32At(s, p + 0x44) == 0
    && U16At(s, p + 0x48) == |c.name| && U16At(s, p + 0x4A) == 0
    && forall k :: 0 <= k < |c.name| ==> s[p + 0x4C + k] == c.name[k] as int
  }

  lemma HeadBytes(c: Cell)
    requires c.KeyNode? && FieldsFit(c)
    ensures var h := KeyHead(c);
            && h[0] == 'n' as int && h[1] == 'k' as int && U16At(h, 2) == (if c.root then 0x2C else 0x20)
            && U32At(h, 4) == 0 && U32At(h, 8) == 0 && U32At(h, 12) == 0
  {
    hide Le32, Le64;
    var flags := Le16(if c.root then ROOT_FLAGS else KEY_FLAGS);
    assert KeyHead(c) == (SIG_NK + flags) + Le64(0) + Le32(0);
    FieldInTail(SIG_NK, flags, 0);
    FieldInSlice(KeyHead(c), 0, SIG_NK + flags, 2);
    FieldInSlice(KeyHead(c), 4, Le64(0), 0);
    FieldInSlice(KeyHead(c), 4, Le64(0), 4);
    FieldInSlice(KeyHead(c), 12, Le32(0), 0);
  }

  lemma CountBytes(c: Cell)
    requires c.KeyNode? && FieldsFit(c)
    ensures var h := KeyCounts(c);
            && U32At(h, 0) == c.subkeys && U32At(h, 4) == 0 && U32At(h, 8) == c.leaf && U32At(h, 12) == 0xFFFF_FFFF
            && U32At(h, 16) == c.values && U32At(h, 20) == c.list && U32At(h, 24) == c.security
            && U32At(h, 28) == 0xFFFF_FFFF
  {
    hide Le32, U32At;
    var a := Le32(c.subkeys) + Le32(0) + Le32(c.leaf) + Le32(NONE);
    var b := Le32(c.values) + Le32(c.list) + Le32(c.security) + Le32(NONE);
    FourDwords(Le32(c.subkeys), Le32(0), Le32(c.leaf), Le32(NONE));
    FourDwords(Le32(c.values), Le32(c.list), Le32(c.security), Le32(NONE));
    Halves(a, b);
  }

  lemma Halves(a: seq<byte>, b: seq<byte>)
    requires |a| == 16 && |b| == 16
    ensures forall k :: 0 <= k <= 12 ==> U32At(a + b, k) == U32At(a, k) && U32At(a + b, 16 + k) == U32At(b, k)
  {
    forall k: nat | k <= 12
      ensures U32At(a + b, k) == U32At(a, k) && U32At(a + b, 16 + k) == U32At(b, k)
    {
      FieldInSlice(a + b, 0, a, k);
      FieldInTail(a, b, k);
    }
  }

  lemma SizeBytes(c: Cell)
    requires c.KeyNode? && FieldsFit(c)
    ensures var h := KeySizes(c);
            && U32At(h, 0) == c.maxName && U32At(h, 4) == 0 && U32At(h, 8) == c.maxValueName
            && U32At(h, 12) == c.maxData && U32At(h, 16) == 0 && U16At(h, 20) == |c.name| && U16At(h, 22) == 0
            && forall k :: 0 <= k < |c.name| ==> h[24 + k] == c.name[k] as int
  {
    hide Le32, Le16;
    var a := Le32(c.maxName) + Le32(0) + Le32(c.maxValueName) + Le32(c.maxData);
    var b := Le16(|c.name|) + Le16(0);
    var h := KeySizes(c);
    FourDwords(Le32(c.maxName), Le32(0), Le32(c.maxValueName), Le32(c.maxData));
    assert h == a + Le32(0) + b + EncodeLatin1(c.name);
    SizeFields(h, a, Le32(0), Le16(|c.name|), Le16(0), EncodeLatin1(c.name));
  }

  lemma SizeFields(h: seq<byte>, a: seq<byte>, b: seq<byte>, c: seq<byte>, d: seq<byte>, name: seq<byte>)
    requires |a| == 16 && |b| == 4 && |c| == 2 && |d| == 2 && h == a + b + (c + d) + name
    ensures forall k :: 0 <= k <= 12 ==> U32At(h, k) == U32At(a, k)
    ensures U32At(h, 16) == U32At(b, 0) && U16At(h, 20) == U16At(c, 0) && U16At(h, 22) == U16At(d, 0)
    ensures h[24..] == name
  {
    forall k: nat | k <= 12
      ensures U32At(h, k) == U32At(a, k)
    {
      FieldInSlice(h, 0, a, k);
    }
    FieldInSlice(h, 16, b, 0);
    FieldInSlice(h, 20, c, 0);
    FieldInSlice(h, 22, d, 0);
  }

  /** The key cell of any heap in a file, byte by byte. */
  lemma KeyInStore(store: seq<byte>, heap: map<int, Cell>, at: nat)
    requires InFile(store, heap) && at in heap && heap[at].KeyNode?
    ensures KeyBytes(store, At(at), heap[at])
  {
    hide Payload, Pack, KeyHead, KeyCounts, KeySizes, Le32, U32At, U16At, KeyBytes;
    var c := heap[at];
    KeyPayload(c);
    var s, p := Payload(c), At(at);
    assert store[p..p + |s|] == s;
    KeyMoves(store, p, s, c);
  }

  lemma KeyPayload(c: Cell)
    requires c.KeyNode? && Encodable(c)
    ensures KeyBytes(Payload(c), 0, c) && |Payload(c)| == 76 + |c.name|
  {
    HeadBytes(c);
    CountBytes(c);
    SizeBytes(c);
    hide KeyHead, KeyCounts, KeySizes, Le32, U32At, U16At;
    KeyParts(Payload(c), KeyHead(c), Le32(c.parent), KeyCounts(c), KeySizes(c));
  }

  lemma KeyParts(s: seq<byte>, head: seq<byte>, parent: seq<byte>, counts: seq<byte>, sizes: seq<byte>)
    requires |head| == 16 && |parent| == 4 && |counts| == 32 && |sizes| >= 24
    requires s == head + parent + (counts + sizes)
    ensures s[0] == head[0] && s[1] == head[1] && U16At(s, 2) == U16At(head, 2)
    ensures forall k :: 4 <= k <= 12 ==> U32At(s, k) == U32At(head, k)
    ensures U32At(s, 16) == U32At(parent, 0)
    ensures forall k {:trigger U32At(counts, k)} :: 0 <= k <= 28 ==> U32At(s, 20 + k) == U32At(counts, k)
    ensures forall k {:trigger U32At(sizes, k)} :: 0 <= k <= 20 ==> U32At(s, 52 + k) == U32At(sizes, k)
    ensures U16At(s, 72) == U16At(sizes, 20) && U16At(s, 74) == U16At(sizes, 22)
    ensures forall k :: 24 <= k < |sizes| ==> s[52 + k] == sizes[k]
  {
    FieldInSlice(s, 0, head, 2);
    forall k: nat | 4 <= k <= 12
      ensures U32At(s, k) == U32At(head, k)
    {
      FieldInSlice(s, 0, head, k);
    }
    FieldInSlice(s, 16, parent, 0);
    forall k: nat {:trigger U32At(counts, k)} | k <= 28
      ensures U32At(s, 20 + k) == U32At(counts, k)
    {
      FieldInSlice(s, 20, counts, k);
    }
    forall k: nat {:trigger U32At(sizes, k)} | k <= 20
      ensures U32At(s, 52 + k) == U32At(sizes, k)
    {
      FieldInSlice(s, 52, sizes, k);
    }
    FieldInSlice(s, 52, sizes, 20);
    FieldInSlice(s, 52, sizes, 22);
    assert s[52..] == sizes;
  }

  lemma KeyMoves(store: seq<byte>, p: nat, s: seq<byte>, c: Cell)
    requires c.KeyNode? && |s| == 76 + |c.name| && p + |s| <= |store| && store[p..p + |s|] == s && KeyBytes(s, 0, c)
    ensures KeyBytes(store, p, c)
  {
    forall k: nat | k + 4 <= |s|
      ensures U32At(store, p + k) == U32At(s, k) && U16At(store, p + k) == U16At(s, k)
    {
      FieldInSlice(store, p, s, k);
    }
    forall k: nat | k < |s|
      ensures store[p + k] == s[k]
    {
      assert store[p..p + |s|][k] == s[k];
    }
    hide U32At, U16At;
    assert U16At(store, p + 0x4A) == U16At(s, 0x4A) by {
      FieldInSlice(store, p, s, 0x4A);
    }
  }

  // ---- values ----

  /** A value cell, field by field; its data stands in a cell of its own. */
  predicate ValueBytes(s: seq<byte>, p: nat, c: Cell)
    requires c.Value?
  {
    && p + 20 + |c.name| <= |s| && s[p] == 'v' as int && s[p + 1] == 'k' as int
    && U16At(s, p + 2) == |c.name| && U32At(s, p + 4) == c.len && U32At(s, p + 8) == c.data
    && U32At(s, p + 12) == c.vtype && U16At(s, p + 16) == 1 && U16At(s, p + 18) == 0
    && forall k :: 0 <= k < |c.name| ==> s[p + 0x14 + k] == c.name[k] as int
  }

  lemma ValueHeadBytes(c: Cell)
    requires c.Value? && FieldsFit(c)
    ensures var h := ValueHead(c);
            h[0] == 'v' as int && h[1] == 'k' as int && U16At(h, 2) == |c.name| && U32At(h, 4) == c.len
  {
    hide Le16, Le32;
    var h := ValueHead(c);
    assert h[2..4] == Le16(|c.name|) && h[4..8] == Le32(c.len);
    Moves(h, 2, Le16(|c.name|));
    Moves(h, 4, Le32(c.len));
  }

  lemma ValueTailBytes(c: Cell)
    requires c.Value? && FieldsFit(c)
    ensures var t := ValueTail(c);
            U32At(t, 0) == c.vtype && U16At(t, 4) == 1 && U16At(t, 6) == 0 && t[8..] == EncodeLatin1(c.name)
  {
    hide Le16, Le32, EncodeLatin1;
    var t := ValueTail(c);
    assert t[0..4] == Le32(c.vtype) && t[4..6] == Le16(VK_ASCII_NAME) && t[6..8] == Le16(0);
    Moves(t, 0, Le32(c.vtype));
    Moves(t, 4, Le16(VK_ASCII_NAME));
    Moves(t, 6, Le16(0));
  }

  lemma ValuePayload(c: Cell)
    requires c.Value? && Encodable(c)
    ensures ValueBytes(Payload(c), 0, c)
  {
    ValuePayloadIs(c);
    ValueHeadBytes(c);
    ValueTailBytes(c);
    hide Le32, ValueHead, ValueTail, Payload, U16At, U32At;
    ValueParts(Payload(c), ValueHead(c), Le32(c.data), ValueTail(c));
  }

  lemma ValueParts(s: seq<byte>, head: seq<byte>, data: seq<byte>, tail: seq<byte>)
    requires |head| == 8 && |data| == 4 && |tail| >= 8 && s == head + data + tail
    ensures s[0] == head[0] && s[1] == head[1] && U16At(s, 2) == U16At(head, 2) && U32At(s, 4) == U32At(head, 4)
    ensures U32At(s, 8) == U32At(data, 0) && U32At(s, 12) == U32At(tail, 0)
    ensures U16At(s, 16) == U16At(tail, 4) && U16At(s, 18) == U16At(tail, 6) && s[20..] == tail[8..]
  {
    assert s[0..8] == head && s[8..12] == data && s[12..] == tail;
    Moves(s, 0, head);
    Moves(s, 8, data);
    Moves(s, 12, tail);
  }

  lemma ValueInStore(store: seq<byte>, heap: map<int, Cell>, at: nat)
    requires InFile(store, heap) && at in heap && heap[at].Value?
    ensures ValueBytes(store, At(at), heap[at])
  {
    hide Payload, U16At, U32At;
    ValuePayload(heap[at]);
    Moves(store, At(at), Payload(heap[at]));
  }

  // ---- lists ----

  /** An lf list: its length, and for each key its offset and the first four characters of its name, then zeros. */
  predicate LeafBytes(s: seq<byte>, p: nat, entries: seq<KeyRef>) {
    && p + 4 + 8 * |entries| <= |s| && s[p] == 'l' as int && s[p + 1] == 'f' as int && U16At(s, p + 2) == |entries|
    && forall i :: 0 <= i < |entries| ==> EntryStands(s, p + 4 + 8 * i, entries[i])
  }

  predicate EntryStands(s: seq<byte>, q: nat, e: KeyRef)
    requires q + 8 <= |s|
  {
    U32At(s, q) == e.at && HintStands(s, q + 4, e.name)
  }

  predicate HintStands(s: seq<byte>, q: nat, name: string)
    requires q + 4 <= |s|
  {
    && s[q] == Initial(name, 0) && s[q + 1] == Initial(name, 1)
    && s[q + 2] == Initial(name, 2) && s[q + 3] == Initial(name, 3)
  }

  function Initial(name: string, k: nat): int {
    if k < |name| then name[k] as int else 0
  }

  lemma EntryMoves(s: seq<byte>, q: nat, t: seq<byte>, r: nat, e: KeyRef)
    requires q + 8 <= |s| && r + 8 <= |t| && s[q..q + 8] == t[r..r + 8] && EntryStands(t, r, e)
    ensures EntryStands(s, q, e)
  {
    var part := s[q..q + 8];
    Moves(s, q, part);
    Moves(t, r, part);
    assert s[q] == part[0] && s[q + 4] == part[4] && s[q + 5] == part[5] && s[q + 6] == part[6] && s[q + 7] == part[7];
    assert t[r + 4] == part[4] && t[r + 5] == part[5] && t[r + 6] == part[6] && t[r + 7] == part[7];
  }

  lemma OneEntry(e: KeyRef)
    requires e.at < U32_LIMIT && IsLatin1(e.name)
    ensures EntryStands(Le32(e.at) + Hint(e.name), 0, e)
  {
    hide Le32;
    var s := Le32(e.at) + Hint(e.name);
    FieldInSlice(s, 0, Le32(e.at), 0);
    assert s[4..] == Hint(e.name);
    assert s[4] == s[4..][0] && s[5] == s[4..][1] && s[6] == s[4..][2] && s[7] == s[4..][3];
  }

  lemma {:induction false} EntriesStand(entries: seq<KeyRef>, i: nat)
    requires i < |entries|
    requires forall j :: 0 <= j < |entries| ==> entries[j].at < U32_LIMIT && IsLatin1(entries[j].name)
    ensures EntryStands(EntryBytes(entries), 8 * i, entries[i])
  {
    hide Le32, Hint, EntryStands;
    var n := |entries| - 1;
    var most, last := EntryBytes(entries[..n]), Le32(entries[n].at) + Hint(entries[n].name);
    assert EntryBytes(entries) == most + last;
    if i < n {
      EntriesStand(entries[..n], i);
      EntryMoves(most + last, 8 * i, most, 8 * i, entries[i]);
    } else {
      OneEntry(entries[n]);
      EntryMoves(most + last, 8 * i, last, 0, entries[n]);
    }
  }

  lemma LeafInStore(store: seq<byte>, heap: map<int, Cell>, at: nat)
    requires InFile(store, heap) && at in heap && heap[at].Leaf?
    ensures LeafBytes(store, At(at), heap[at].entries)
  {
    hide Payload, U16At, U32At, EntryBytes, EntryStands;
    var entries, s := heap[at].entries, Payload(heap[at]);
    LeafHead(entries);
    Moves(store, At(at), s);
    var list := EntryBytes(entries);
    SliceOfSlice(store, At(at), s, 4, |s|);
    forall i | 0 <= i < |entries|
      ensures EntryStands(store, At(at) + 4 + 8 * i, entries[i])
    {
      EntriesStand(entries, i);
      SliceOfSlice(store, At(at) + 4, list, 8 * i, 8 * i + 8);
      EntryMoves(store, At(at) + 4 + 8 * i, list, 8 * i, entries[i]);
    }
  }

  lemma LeafHead(entries: seq<KeyRef>)
    requires Encodable(Leaf(entries))
    ensures forall j :: 0 <= j < |entries| ==> entries[j].at < U32_LIMIT && IsLatin1(entries[j].name)
    ensures var s := Payload(Leaf(entries));
            && |s| == 4 + 8 * |entries| && s[0] == 'l' as int && s[1] == 'f' as int && U16At(s, 2) == |entries|
            && s[4..] == EntryBytes(entries)
  {
    hide EntryBytes, Le16;
    var s := Payload(Leaf(entries));
    assert s == SIG_LF + Le16(|entries|) + EntryBytes(entries);
    FieldInSlice(s, 2, Le16(|entries|), 0);
  }

  // ---- the security descriptor ----

  /** S-1-5 and these authorities. */
  predicate SidAt(s: seq<byte>, p: nat, authorities: seq<nat>) {
    && p + 8 + 4 * |authorities| <= |s|
    && s[p..p + 8] == [1, |authorities|, 0, 0, 0, 0, 0, 5]
    && forall i :: 0 <= i < |authorities| ==> U32At(s, p + 8 + 4 * i) == authorities[i]
  }

  /** An entry that allows all access to keys, inherited by the keys below. */
  predicate AceAt(s: seq<byte>, p: nat, authorities: seq<nat>) {
    && p + 8 <= |s| && s[p] == 0 && s[p + 1] == 2 && U16At(s, p + 2) == 16 + 4 * |authorities|
    && U32At(s, p + 4) == 0xF003F && SidAt(s, p + 8, authorities)
  }

  /**
   * A self-relative descriptor (section 2.4.6 of MS-DTYP): Administrators own
   * it, its group is SYSTEM, and both are allowed everything.
   */
  predicate DescriptorStands(s: seq<byte>) {
    && |s| >= 20 && s[0] == 1 && s[1] == 0 && U16At(s, 2) == 0x8004
    && SidAt(s, U32At(s, 4), [32, 544]) && SidAt(s, U32At(s, 8), [18]) && U32At(s, 12) == 0
    && var acl := U32At(s, 16);
    && acl + 8 + 24 + 20 <= |s| && s[acl] == 2 && s[acl + 1] == 0 && U16At(s, acl + 2) == 8 + 24 + 20
    && U16At(s, acl + 4) == 2 && U16At(s, acl + 6) == 0
    && AceAt(s, acl + 8, [32, 544]) && AceAt(s, acl + 8 + 24, [18])
  }

  const ADMINISTRATORS: seq<byte> := [1, 2, 0, 0, 0, 0, 0, 5, 0x20, 0, 0, 0, 0x20, 2, 0, 0]
  const SYSTEM: seq<byte> := [1, 1, 0, 0, 0, 0, 0, 5, 0x12, 0, 0, 0]
  const DESCRIPTOR_HEAD: seq<byte> := [1, 0, 4, 0x80, 72, 0, 0, 0, 88, 0, 0, 0, 0, 0, 0, 0, 20, 0, 0, 0]
  const LIST_HEAD: seq<byte> := [2, 0, 52, 0, 2, 0, 0, 0]
  const ADMINISTRATORS_ACE: seq<byte> := [0, 2, 24, 0, 0x3F, 0, 0xF, 0] + ADMINISTRATORS
  const SYSTEM_ACE: seq<byte> := [0, 2, 20, 0, 0x3F, 0, 0xF, 0] + SYSTEM

  lemma SidsAre()
    ensures Sid([32, 544]) == ADMINISTRATORS && Sid([18]) == SYSTEM
  {
    assert [32, 544][..1] == [32] && [32][..0] == [] && [18][..0] == [];
    assert OffsetBytes([32]) == Le32(32);
    assert OffsetBytes([32, 544]) == Le32(32) + Le32(544);
    assert OffsetBytes([18]) == Le32(18);
  }

  lemma AcesAre()
    ensures FullAccessAce(ADMINISTRATORS) == ADMINISTRATORS_ACE && FullAccessAce(SYSTEM) == SYSTEM_ACE
  {
    assert Le32(0xF003F) == [0x3F, 0, 0xF, 0];
  }

  lemma HeadsAre()
    ensures [1, 0] + Le16(0x8004) + Le32(72) + Le32(88) + Le32(0) + Le32(20) == DESCRIPTOR_HEAD
    ensures [2, 0] + Le16(52) + Le16(2) + Le16(0) == LIST_HEAD
  {
  }

  lemma DescriptorIs()
    ensures SecurityDescriptor() ==
              DESCRIPTOR_HEAD + (LIST_HEAD + (ADMINISTRATORS_ACE + SYSTEM_ACE)) + ADMINISTRATORS + SYSTEM
  {
    SidsAre();
    AcesAre();
    HeadsAre();
    hide Sid, FullAccessAce, Le32, Le16, DESCRIPTOR_HEAD, LIST_HEAD;
    assert |ADMINISTRATORS_ACE + SYSTEM_ACE| == 44;
  }

  lemma SidMoves(s: seq<byte>, p: nat, sid: seq<byte>, authorities: seq<nat>)
    requires SidAt(sid, 0, authorities) && p + |sid| <= |s| && s[p..p + |sid|] == sid
    ensures SidAt(s, p, authorities)
  {
    SliceOfSlice(s, p, sid, 0, 8);
    forall i | 0 <= i < |authorities|
      ensures U32At(s, p + 8 + 4 * i) == authorities[i]
    {
      FieldInSlice(s, p, sid, 8 + 4 * i);
    }
  }

  lemma AceMoves(s: seq<byte>, p: nat, sid: seq<byte>, authorities: seq<nat>)
    requires SidAt(sid, 0, authorities) && |authorities| <= 4 && |sid| == 8 + 4 * |authorities|
    requires p + 8 + |sid| <= |s| && s[p..p + 8 + |sid|] == [0, 2, 16 + 4 * |authorities|, 0, 0x3F, 0, 0xF, 0] + sid
    ensures AceAt(s, p, authorities)
  {
    var ace := s[p..p + 8 + |sid|];
    assert ace[8..] == sid;
    SliceOfSlice(s, p, ace, 8, |ace|);
    SidMoves(s, p + 8, sid, authorities);
    FieldInSlice(s, p, ace, 2);
    FieldInSlice(s, p, ace, 4);
    assert s[p] == ace[0] && s[p + 1] == ace[1];
  }

  lemma SidsStand()
    ensures SidAt(ADMINISTRATORS, 0, [32, 544]) && SidAt(SYSTEM, 0, [18])
  {
  }

  lemma DescriptorReads()
    ensures DescriptorStands(SecurityDescriptor())
  {
    hide SecurityDescriptor, SidAt, AceAt, U16At, U32At;
    DescriptorIs();
    SidsStand();
    var s := SecurityDescriptor();
    assert s[..20] == DESCRIPTOR_HEAD && s[20..28] == LIST_HEAD;
    assert s[28..52] == ADMINISTRATORS_ACE && s[52..72] == SYSTEM_ACE;
    assert s[72..88] == ADMINISTRATORS && s[88..100] == SYSTEM;
    HeadStands(s);
    SidMoves(s, 72, ADMINISTRATORS, [32, 544]);
    SidMoves(s, 88, SYSTEM, [18]);
    AceMoves(s, 28, ADMINISTRATORS, [32, 544]);
    AceMoves(s, 52, SYSTEM, [18]);
  }

  lemma HeadStands(s: seq<byte>)
    requires |s| == 100 && s[..20] == DESCRIPTOR_HEAD && s[20..28] == LIST_HEAD
    ensures s[0] == 1 && s[1] == 0 && U16At(s, 2) == 0x8004 && U32At(s, 4) == 72 && U32At(s, 8) == 88
    ensures U32At(s, 12) == 0 && U32At(s, 16) == 20
    ensures s[20] == 2 && s[21] == 0 && U16At(s, 22) == 52 && U16At(s, 24) == 2 && U16At(s, 26) == 0
  {
    hide DESCRIPTOR_HEAD, LIST_HEAD, U16At, U32At;
    DescriptorHeadFields();
    ListHeadFields();
    Moves(s, 0, DESCRIPTOR_HEAD);
    Moves(s, 20, LIST_HEAD);
  }

  lemma DescriptorHeadFields()
    ensures var h := DESCRIPTOR_HEAD;
            && |h| == 20 && h[0] == 1 && h[1] == 0 && U16At(h, 2) == 0x8004 && U32At(h, 4) == 72
            && U32At(h, 8) == 88 && U32At(h, 12) == 0 && U32At(h, 16) == 20
  {
  }

  lemma ListHeadFields()
    ensures var h := LIST_HEAD;
            |h| == 8 && h[0] == 2 && h[1] == 0 && U16At(h, 2) == 52 && U16At(h, 4) == 2 && U16At(h, 6) == 0
  {
  }

  /** A descriptor cell: linked to itself, one user, its length and the descriptor. */
  predicate SecurityStands(s: seq<byte>, at: nat) {
    var p := At(at);
    && p + 20 <= |s| && s[p] == 's' as int && s[p + 1] == 'k' as int && U16At(s, p + 2) == 0
    && U32At(s, p + 4) == at && U32At(s, p + 8) == at && U32At(s, p + 12) == 1
    && p + 20 + U32At(s, p + 16) <= |s| && DescriptorStands(s[p + 20..p + 20 + U32At(s, p + 16)])
  }

  lemma SecurityInStore(store: seq<byte>, heap: map<int, Cell>, at: nat)
    requires InFile(store, heap) && at in heap && heap[at] == Security(at, SecurityDescriptor())
    ensures SecurityStands(store, at)
  {
    hide Payload, U16At, U32At, SecurityDescriptor, DescriptorStands;
    DescriptorReads();
    SecurityPayload(heap[at]);
    Moves(store, At(at), Payload(heap[at]));
    SliceOfSlice(store, At(at), Payload(heap[at]), 20, 120);
  }

  lemma SecurityPayload(c: Cell)
    requires c.Security? && Encodable(c)
    ensures var s := Payload(c);
            && |s| == 20 + |c.descriptor| && s[0] == 's' as int && s[1] == 'k' as int && U16At(s, 2) == 0
            && U32At(s, 4) == c.links && U32At(s, 8) == c.links && U32At(s, 12) == 1 && U32At(s, 16) == |c.descriptor|
            && s[20..] == c.descriptor
  {
    hide Le16, Le32, U32At, U16At;
    var s, links, size := Payload(c), Le32(c.links), Le32(|c.descriptor|);
    assert s == SIG_SK + Le16(0) + links + links + Le32(1) + size + c.descriptor;
    FourDwords(links, links, Le32(1), size);
    assert s[4..20] == links + links + Le32(1) + size && s[2..4] == Le16(0) && s[20..] == c.descriptor;
    Moves(s, 4, links + links + Le32(1) + size);
    Moves(s, 2, Le16(0));
  }

  // ---- a whole tree of keys ----

  /** One descriptor for all keys, and of the keys only the one at `root` is marked as the hive's entry. */
  ghost predicate Secured(heap: map<int, Cell>, security: nat, root: int) {
    && security in heap && heap[security] == Security(security, SecurityDescriptor())
    && forall at: nat :: at in heap && heap[at].KeyNode? ==>
                           heap[at].security == security && (heap[at].root <==> at == root)
  }

  /** The largest of these lengths, 0 if there are none. */
  predicate IsLargest(n: nat, lengths: seq<nat>) {
    (forall i :: 0 <= i < |lengths| ==> lengths[i] <= n) && (n in lengths || (n == 0 && lengths == []))
  }

  lemma MaxIsLargest(ns: seq<nat>)
    ensures IsLargest(Max(ns), ns)
  {
  }

  /**
   * The key cell of t: flags, parent, descriptor, the three maxima, its own
   * name, and in its list the first four characters of each subkey's name.
   */
  ghost predicate KeyIsRight(s: seq<byte>, at: nat, parent: nat, t: Key, security: nat, root: bool) {
    var p := At(at);
    && p + 0x4C <= |s| && U16At(s, p + 2) == (if root then 0x2C else 0x20)
    && U32At(s, p + 0x10) == parent && U32At(s, p + 0x2C) == security
    && IsLargest(U32At(s, p + 0x34), Lengths(KeyNames(t.subkeys)))
    && IsLargest(U32At(s, p + 0x3C), Lengths(ValueNames(t.values)))
    && IsLargest(U32At(s, p + 0x40), ValueSizes(t.values))
    && ReadNk(s, at).Ok? && ReadNk(s, at).value.name == t.name
    && forall i :: 0 <= i < |t.subkeys| ==> HintIsRight(s, At(U32At(s, p + 0x1C)) + 4 + 8 * i, t.subkeys[i].name)
  }

  ghost predicate HintIsRight(s: seq<byte>, q: nat, name: string) {
    q + 8 <= |s| && HintStands(s, q + 4, name)
  }

  /** The offset of a key's subkey i, as its list has it. */
  function ChildAt(s: seq<byte>, at: nat, i: nat): nat {
    if At(at) + 0x20 > |s| then 0
    else
      var q := At(U32At(s, At(at) + 0x1C)) + 4 + 8 * i;
      if q + 4 <= |s| then U32At(s, q) else 0
  }

  /** So for every key of the tree, each below the one whose list names it. */
  ghost predicate KeysAreRight(s: seq<byte>, at: nat, parent: nat, t: Key, security: nat, root: bool)
    decreases t
  {
    && KeyIsRight(s, at, parent, t, security, root)
    && forall i :: 0 <= i < |t.subkeys| ==> KeysAreRight(s, ChildAt(s, at, i), at, t.subkeys[i], security, false)
  }

  /** A store's root: one descriptor, all keys under it right, the root without a parent. */
  ghost predicate RootIsRight(s: seq<byte>, at: nat, t: Key) {
    exists security :: SecurityStands(s, security) && KeysAreRight(s, at, 0xFFFF_FFFF, t, security, true)
  }

  lemma ChildIs(store: seq<byte>, heap: map<int, Cell>, at: nat, t: Key, i: nat)
    requires InFile(store, heap) && HoldsKey(heap, at, t) && i < |t.subkeys|
    ensures At(at) + 0x20 <= |store| && U32At(store, At(at) + 0x1C) == heap[at].leaf
    ensures heap[at].leaf in heap && heap[heap[at].leaf].Leaf? && i < |heap[heap[at].leaf].entries|
    ensures ChildAt(store, at, i) == heap[heap[at].leaf].entries[i].at
    ensures HintIsRight(store, At(heap[at].leaf) + 4 + 8 * i, t.subkeys[i].name)
  {
    hide InFile, HoldsKey, U32At, U16At, HintStands, LeafBytes;
    LeafOf(heap, at, t, i);
    KeyInStore(store, heap, at);
    LeafInStore(store, heap, heap[at].leaf);
    LeafEntry(store, At(heap[at].leaf), heap[heap[at].leaf].entries, i);
  }

  lemma LeafOf(heap: map<int, Cell>, at: nat, t: Key, i: nat)
    requires HoldsKey(heap, at, t) && i < |t.subkeys|
    ensures at in heap && heap[at].KeyNode? && heap[at].leaf in heap && heap[heap[at].leaf].Leaf?
    ensures i < |heap[heap[at].leaf].entries| && heap[heap[at].leaf].entries[i].name == t.subkeys[i].name
  {
  }

  lemma LeafEntry(s: seq<byte>, p: nat, entries: seq<KeyRef>, i: nat)
    requires LeafBytes(s, p, entries) && i < |entries|
    ensures p + 4 + 8 * i + 8 <= |s| && EntryStands(s, p + 4 + 8 * i, entries[i])
  {
  }

  lemma KeyStandsRight(store: seq<byte>, heap: map<int, Cell>, at: nat, t: Key, security: nat, root: int)
    requires InFile(store, heap) && HoldsKey(heap, at, t) && Secured(heap, security, root)
    ensures KeyIsRight(store, at, heap[at].parent, t, security, at == root)
  {
    hide InFile, HoldsKey, U32At, U16At, ReadNk, HintIsRight, Max, Lengths, ValueSizes, KeyNames, ValueNames, IsLargest;
    MaximaOf(heap, at, t);
    KeyInStore(store, heap, at);
    NkReads(store, heap, at);
    MaxIsLargest(Lengths(KeyNames(t.subkeys)));
    MaxIsLargest(Lengths(ValueNames(t.values)));
    MaxIsLargest(ValueSizes(t.values));
    forall i | 0 <= i < |t.subkeys|
      ensures HintIsRight(store, At(U32At(store, At(at) + 0x1C)) + 4 + 8 * i, t.subkeys[i].name)
    {
      ChildIs(store, heap, at, t, i);
    }
  }

  lemma MaximaOf(heap: map<int, Cell>, at: nat, t: Key)
    requires HoldsKey(heap, at, t)
    ensures at in heap && heap[at].KeyNode? && heap[at].name == t.name
    ensures heap[at].maxName == Max(Lengths(KeyNames(t.subkeys)))
    ensures heap[at].maxValueName == Max(Lengths(ValueNames(t.values))) && heap[at].maxData == Max(ValueSizes(t.values))
  {
  }

  lemma {:induction false} KeysStandRight(store: seq<byte>, heap: map<int, Cell>, loose: set<int>, at: nat, t: Key,
                                          security: nat, root: int)
    requires InFile(store, heap) && HoldsKey(heap, at, t) && Linked(heap, loose) && Secured(heap, security, root)
    requires at <= root || root < 0
    ensures KeysAreRight(store, at, heap[at].parent, t, security, at == root)
    decreases t
  {
    KeyStandsRight(store, heap, at, t, security, root);
    forall i | 0 <= i < |t.subkeys|
      ensures KeysAreRight(store, ChildAt(store, at, i), at, t.subkeys[i], security, false)
    {
      hide InFile, Linked, Secured, ChildAt, KeysAreRight;
      ChildIs(store, heap, at, t, i);
      ChildFacts(heap, loose, at, t, i);
      KeysStandRight(store, heap, loose, ChildAt(store, at, i), t.subkeys[i], security, root);
    }
  }

  lemma ChildFacts(heap: map<int, Cell>, loose: set<int>, at: nat, t: Key, i: nat)
    requires HoldsKey(heap, at, t) && Linked(heap, loose) && i < |t.subkeys|
    ensures var c := heap[heap[at].leaf].entries[i].at;
            c < at && HoldsKey(heap, c, t.subkeys[i]) && heap[c].parent == at
  {
    assert LinkedChild(heap, at, i);
  }

  ghost predicate KeysAreTrees(heap: map<int, Cell>, trees: map<int, Key>) {
    forall at: nat :: at in trees <==> at in heap && heap[at].KeyNode?
  }

  lemma SoundKeys(buf: seq<byte>, heap: map<int, Cell>, trees: map<int, Key>, vals: map<int, Val>, loose: set<int>)
    requires Sound(buf, heap, trees, vals, loose)
    ensures KeysAreTrees(heap, trees)
  {
    hide Laid, Linked;
    forall at: nat | at in trees
      ensures at in heap && heap[at].KeyNode?
    {
      assert HoldsKey(heap, at, trees[at]);
    }
  }

  /** Writing values and parent fields leaves the keys secured. */
  lemma StaySecured(h: map<int, Cell>, h': map<int, Cell>, trees: map<int, Key>, security: nat, root: int)
    requires Secured(h, security, root) && SameButParents(h, h') && KeysAreTrees(h, trees) && KeysAreTrees(h', trees)
    ensures Secured(h', security, root)
  {
    forall at: nat | at in h' && h'[at].KeyNode?
      ensures h'[at].security == security && (h'[at].root <==> at == root)
    {
      assert at in trees && at in h;
    }
  }

  /** So does another key with the same descriptor, whether it is the root or not. */
  lemma OneMoreSecured(h: map<int, Cell>, h': map<int, Cell>, trees: map<int, Key>, at: nat, t: Key, security: nat,
                       root: bool)
    requires Secured(h, security, -1) && SameButParents(h, h')
    requires KeysAreTrees(h, trees) && KeysAreTrees(h', trees[at := t]) && at !in h
    requires at in h' && h'[at].KeyNode? && h'[at].security == security && h'[at].root == root
    ensures Secured(h', security, if root then at else -1)
  {
    forall a: nat | a in h' && h'[a].KeyNode?
      ensures h'[a].security == security && (h'[a].root <==> a == if root then at else -1)
    {
      assert a != at ==> a in trees && a in h;
    }
  }

  lemma FirstSecured(security: nat)
    ensures Secured(map[security := Security(security, SecurityDescriptor())], security, -1)
  {
    hide SecurityDescriptor;
  }
}
