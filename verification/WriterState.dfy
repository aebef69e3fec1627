/**
 * What HiveWriter promises of its buffer, its typed heap and the trees in it,
 * and why each of its calls keeps those promises.
 */
module WriterState {
  import opened Bytes
  import opened Text
  import opened CellHeap
  import opened HiveCells
  import opened HiveTree
  import opened NameOrder

  /** What value() returns: where the value is, its name and how long its data is. */
  datatype ValueRef = ValueRef(at: nat, name: string, size: nat)

  /** The longest buffer whose padded length still fits the header's 32-bit field. */
  const MAX_BUF := U32_LIMIT - 4096

  // ---- what each call appends ----

  function ValueCost(v: Val): nat {
    CellSize(20 + |v.name|) + CellSize(|v.data|)
  }

  function KeyCost(name: string, subkeys: nat, values: nat): nat {
    (if subkeys > 0 then CellSize(4 + 8 * subkeys) else 0) + (if values > 0 then CellSize(4 * values) else 0)
    + CellSize(76 + |name|)
  }

  const SECURITY_COST := CellSize(120)

  // ---- the security descriptor shared by every key ----

  function Sid(authorities: seq<nat>): (r: seq<byte>)
    requires |authorities| < 256 && forall i :: 0 <= i < |authorities| ==> authorities[i] < U32_LIMIT
    ensures |r| == 8 + 4 * |authorities|
  {
    [1, |authorities|, 0, 0, 0, 0, 0, 5] + OffsetBytes(authorities)
  }

  function FullAccessAce(sid: seq<byte>): (r: seq<byte>)
    requires |sid| < 256
    ensures |r| == 8 + |sid|
  {
    [0, 2] + Le16(8 + |sid|) + Le32(0xF003F) + sid
  }

  /** Administrators own it; they and SYSTEM get full access, inherited below. */
  function SecurityDescriptor(): (r: seq<byte>)
    ensures |r| == 100
  {
    var admins, system := Sid([32, 544]), Sid([18]);
    var aces := FullAccessAce(admins) + FullAccessAce(system);
    var dacl := [2, 0] + Le16(8 + |aces|) + Le16(2) + Le16(0) + aces;
    var owner := 20 + |dacl|;
    [1, 0] + Le16(0x8004) + Le32(owner) + Le32(owner + |admins|) + Le32(0) + Le32(20) + dacl + admins + system
  }

  // ---- what the writer promises of its heap ----

  /** Every recorded value and key is held at its offset, and every key cell is recorded. */
  ghost predicate Held(heap: map<int, Cell>, trees: map<int, Key>, vals: map<int, Val>) {
    && (forall at :: at in vals ==> HoldsValue(heap, at, vals[at]))
    && (forall at :: at in trees ==> HoldsKey(heap, at, trees[at]))
    && (forall at :: at in heap && heap[at].KeyNode? ==> at in trees)
  }

  lemma HeldFrame(h: map<int, Cell>, h': map<int, Cell>, trees: map<int, Key>, vals: map<int, Val>)
    requires Held(h, trees, vals) && SameButParents(h, h')
    requires forall at :: at in h' && h'[at].KeyNode? ==> at in trees
    ensures Held(h', trees, vals)
  {
    forall at | at in vals
      ensures HoldsValue(h', at, vals[at])
    {
      ValueFrame(h, h', at, vals[at]);
    }
    forall at | at in trees
      ensures HoldsKey(h', at, trees[at])
    {
      KeyFrame(h, h', at, trees[at]);
    }
  }

  ghost predicate Sound(buf: seq<byte>, heap: map<int, Cell>, trees: map<int, Key>, vals: map<int, Val>,
                        loose: set<int>)
  {
    Laid(buf, heap) && |buf| <= MAX_BUF && Held(heap, trees, vals) && Linked(heap, loose)
  }

  /** An offset not yet in the heap is not yet a value, a key or a loose key. */
  lemma FreshOffset(buf: seq<byte>, heap: map<int, Cell>, trees: map<int, Key>, vals: map<int, Val>, loose: set<int>,
                    at: nat)
    requires Sound(buf, heap, trees, vals, loose) && at !in heap
    ensures at !in vals && at !in trees && at !in loose
  {
    hide Laid;
    assert at in trees ==> HoldsKey(heap, at, trees[at]);
  }

  lemma LooseAreTrees(buf: seq<byte>, heap: map<int, Cell>, trees: map<int, Key>, vals: map<int, Val>, loose: set<int>)
    requires Sound(buf, heap, trees, vals, loose)
    ensures loose <= trees.Keys
  {
    hide Laid;
    forall at | at in loose
      ensures at in trees.Keys
    {
      assert at in heap && heap[at].KeyNode?;
    }
  }

  lemma BufferShape(buf: seq<byte>, heap: map<int, Cell>)
    requires Laid(buf, heap)
    ensures |buf| >= HBIN_HEADER && |buf| % 8 == 0
  {
  }

  lemma CellsInBuf(buf: seq<byte>, heap: map<int, Cell>)
    requires Laid(buf, heap)
    ensures forall at :: at in heap ==> at < |buf|
  {
    forall at | at in heap
      ensures at < |buf|
    {
      assert HoldsCell(buf, at, Image(heap)[at]);
    }
  }

  /** Appending cells that are no keys keeps every promise about the cells before them. */
  lemma GrowthKeepsHeld(heap: map<int, Cell>, trees: map<int, Key>, vals: map<int, Val>, loose: set<int>,
                        at: nat, c: Cell)
    requires Held(heap, trees, vals) && Linked(heap, loose)
    requires at !in heap && at != NONE && !c.KeyNode?
    ensures at !in trees && at !in vals && SameButParents(heap, heap[at := c])
    ensures Held(heap[at := c], trees, vals) && Linked(heap[at := c], loose)
  {
    LinkedGrows(heap, loose, at, c);
    HeldFrame(heap, heap[at := c], trees, vals);
  }

  lemma AllocKeepsSound(buf: seq<byte>, heap: map<int, Cell>, trees: map<int, Key>, vals: map<int, Val>,
                        loose: set<int>, c: Cell)
    requires Sound(buf, heap, trees, vals, loose) && Encodable(c) && !c.KeyNode?
    requires |buf| + CellSize(PayloadLength(c)) <= MAX_BUF
    ensures |buf| !in heap && SameButParents(heap, heap[|buf| := c])
    ensures Sound(buf + CellBytes(Payload(c)), heap[|buf| := c], trees, vals, loose)
  {
    hide Laid, Held, Linked, Encodable, SameButParents, Payload;
    AllocKeepsLaid(buf, heap, c);
    assert |buf + CellBytes(Payload(c))| <= MAX_BUF;
    assert |buf| != NONE;
    GrowthKeepsHeld(heap, trees, vals, loose, |buf|, c);
  }

  /** The buffer after value() has allocated both cells and patched the pointer between them. */
  function AfterValue(buf: seq<byte>, v: Val): (r: seq<byte>)
    requires IsName(v.name) && v.vtype < U32_LIMIT && |v.data| <= MAX_PAYLOAD
    requires |buf| + ValueCost(v) <= MAX_BUF
    ensures |r| == |buf| + ValueCost(v)
  {
    var blank := Value(v.name, |v.data|, 0, v.vtype);
    var one := buf + CellBytes(Payload(blank));
    Overwrite(one + CellBytes(v.data), |buf| + 4 + DATA_FIELD, Le32(|one|))
  }

  ghost function HeapAfterValue(heap: map<int, Cell>, at: nat, v: Val): map<int, Cell> {
    var dataAt := at + CellSize(20 + |v.name|);
    heap[at := Value(v.name, |v.data|, dataAt, v.vtype)][dataAt := Data(v.data)]
  }

  lemma DataPayload(data: seq<byte>)
    requires |data| <= MAX_PAYLOAD
    ensures Encodable(Data(data)) && Payload(Data(data)) == data
  {
  }

  lemma ValueAllocsKeepLaid(buf: seq<byte>, heap: map<int, Cell>, blank: Cell, data: seq<byte>)
    requires Laid(buf, heap) && Encodable(blank) && |data| <= MAX_PAYLOAD
    ensures var one := buf + CellBytes(Payload(blank));
            && |buf| !in heap && |one| !in heap[|buf| := blank]
            && Laid(one + CellBytes(data), heap[|buf| := blank][|one| := Data(data)])
  {
    hide *;
    DataPayload(data);
    AllocKeepsLaid(buf, heap, blank);
    AllocKeepsLaid(buf + CellBytes(Payload(blank)), heap[|buf| := blank], Data(data));
  }

  lemma ValueKeepsLaid(buf: seq<byte>, heap: map<int, Cell>, v: Val)
    requires Laid(buf, heap)
    requires IsName(v.name) && v.vtype < U32_LIMIT && |v.data| <= MAX_PAYLOAD
    requires |buf| + ValueCost(v) <= MAX_BUF
    ensures |buf| !in heap && |buf| + CellSize(20 + |v.name|) !in heap
    ensures Laid(AfterValue(buf, v), HeapAfterValue(heap, |buf|, v))
  {
    hide Laid, Tiles, Encodable, CellBytes, CellSize, Payload, Pack, Overwrite, Le32, IsName;
    var blank := Value(v.name, |v.data|, 0, v.vtype);
    ValueEncodes(v, 0);
    var one := buf + CellBytes(Payload(blank));
    assert |one| < U32_LIMIT && |buf| + CellSize(20 + |v.name|) == |one| != |buf|;
    assert AfterValue(buf, v) == Overwrite(one + CellBytes(v.data), |buf| + 4 + DATA_FIELD, Le32(|one|));
    var two := heap[|buf| := blank][|one| := Data(v.data)];
    UpdatesCommute(heap, |buf|, |one|, blank, blank.(data := |one|), Data(v.data));
    ValueAllocsKeepLaid(buf, heap, blank, v.data);
    SetDataKeepsLaid(one + CellBytes(v.data), two, |buf|, blank, |one|);
  }

  lemma ValueKeepsSound(buf: seq<byte>, heap: map<int, Cell>, trees: map<int, Key>, vals: map<int, Val>,
                        loose: set<int>, v: Val)
    requires Sound(buf, heap, trees, vals, loose)
    requires IsName(v.name) && v.vtype < U32_LIMIT && |v.data| <= MAX_PAYLOAD
    requires |buf| + ValueCost(v) <= MAX_BUF
    ensures |buf| !in heap && SameButParents(heap, HeapAfterValue(heap, |buf|, v))
    ensures Sound(AfterValue(buf, v), HeapAfterValue(heap, |buf|, v), trees, vals[|buf| := v], loose)
  {
    hide Laid, Linked, AfterValue, Held, CellSize, HoldsKey, SameButParents, Encodable, Payload;
    ValueKeepsLaid(buf, heap, v);
    var at, dataAt := |buf|, |buf| + CellSize(20 + |v.name|);
    var vk := Value(v.name, |v.data|, dataAt, v.vtype);
    var heap' := HeapAfterValue(heap, at, v);
    GrowthKeepsHeld(heap, trees, vals, loose, at, vk);
    GrowthKeepsHeld(heap[at := vk], trees, vals, loose, dataAt, Data(v.data));
    RecordValue(heap', trees, vals, at, v);
    ComposeFrames(heap, heap[at := vk], heap');
  }

  lemma RecordValue(heap: map<int, Cell>, trees: map<int, Key>, vals: map<int, Val>, at: nat, v: Val)
    requires Held(heap, trees, vals) && HoldsValue(heap, at, v)
    ensures Held(heap, trees, vals[at := v])
  {
  }

  lemma ComposeFrames(a: map<int, Cell>, b: map<int, Cell>, c: map<int, Cell>)
    requires SameButParents(a, b) && SameButParents(b, c)
    ensures SameButParents(a, c)
  {
    forall at | at in a
      ensures at in c
      ensures (c[at] == a[at] || (a[at].KeyNode? && c[at].KeyNode? && c[at] == a[at].(parent := c[at].parent)))
    {
      assert at in b;
    }
  }

  lemma LastUpdateWins(heap: map<int, Cell>, at: int, was: Cell, now: Cell)
    ensures heap[at := was][at := now] == heap[at := now]
  {
  }

  lemma UpdatesCommute(heap: map<int, Cell>, a: int, b: int, was: Cell, now: Cell, other: Cell)
    requires a != b
    ensures heap[a := was][b := other][a := now] == heap[a := now][b := other]
  {
  }

  lemma SecurityEncodes(links: nat, sd: seq<byte>)
    requires links < U32_LIMIT && |sd| <= MAX_PAYLOAD - 20
    ensures Encodable(Security(links, sd)) && |Payload(Security(links, sd))| == 20 + |sd|
  {
  }

  lemma ValueEncodes(v: Val, data: nat)
    requires IsName(v.name) && v.vtype < U32_LIMIT && |v.data| <= MAX_PAYLOAD && data < U32_LIMIT
    ensures var c := Value(v.name, |v.data|, data, v.vtype);
            Encodable(c) && |Payload(c)| == 20 + |v.name|
  {
  }

  lemma SecurityKeepsLaid(buf: seq<byte>, heap: map<int, Cell>, sd: seq<byte>)
    requires Laid(buf, heap) && |buf| < U32_LIMIT && |sd| <= MAX_PAYLOAD - 20
    ensures |buf| !in heap
    ensures Laid(Overwrite(buf + CellBytes(Payload(Security(0, sd))), |buf| + 4 + 4, Le32(|buf|) + Le32(|buf|)),
                 heap[|buf| := Security(|buf|, sd)])
  {
    hide *;
    var blank, full := Security(0, sd), Security(|buf|, sd);
    SecurityEncodes(|buf|, sd);
    SecurityEncodes(0, sd);
    AllocKeepsLaid(buf, heap, blank);
    SetLinksKeepsLaid(buf + CellBytes(Payload(blank)), heap[|buf| := blank], |buf|, blank, |buf|);
    LastUpdateWins(heap, |buf|, blank, full);
  }

  lemma SecurityKeepsSound(buf: seq<byte>, heap: map<int, Cell>, trees: map<int, Key>, vals: map<int, Val>,
                           loose: set<int>, sd: seq<byte>)
    requires Sound(buf, heap, trees, vals, loose) && |sd| == 100 && |buf| + SECURITY_COST <= MAX_BUF
    ensures var grown := buf + CellBytes(Payload(Security(0, sd)));
            && |buf| !in heap && |grown| == |buf| + SECURITY_COST
            && Sound(Overwrite(grown, |buf| + 4 + 4, Le32(|buf|) + Le32(|buf|)),
                     heap[|buf| := Security(|buf|, sd)], trees, vals, loose)
  {
    hide Laid, Held, Linked, Payload, CellBytes, Encodable, Overwrite, Le32;
    SecurityEncodes(0, sd);
    SecurityKeepsLaid(buf, heap, sd);
    GrowthKeepsHeld(heap, trees, vals, loose, |buf|, Security(|buf|, sd));
  }

  function RefNames(refs: seq<KeyRef>): (r: seq<string>)
    ensures |r| == |refs| && forall i :: 0 <= i < |refs| ==> r[i] == refs[i].name
  {
    seq(|refs|, i requires 0 <= i < |refs| => refs[i].name)
  }

  /** The entries of a subkey list in the order they are written. */
  function Sorted(refs: seq<KeyRef>): (r: seq<KeyRef>)
    ensures |r| == |refs| && forall p :: 0 <= p < |r| ==> r[p] in refs
  {
    var r := Pick(refs, Order(RefNames(refs)));
    assert forall p :: 0 <= p < |r| ==> r[p] == refs[Order(RefNames(refs))[p]];
    r
  }

  lemma LeafEncodes(entries: seq<KeyRef>)
    requires |entries| < U16_LIMIT
    requires forall i :: 0 <= i < |entries| ==> entries[i].at < U32_LIMIT && IsLatin1(entries[i].name)
    ensures Encodable(Leaf(entries)) && PayloadLength(Leaf(entries)) == 4 + 8 * |entries|
    ensures Payload(Leaf(entries)) == SIG_LF + (Le16(|entries|) + EntryBytes(entries))
  {
    hide EntryBytes, Hint, Le16, Le32, SecurityBytes, ValueHead, ValueTail, KeyHead, KeyCounts, KeySizes, OffsetBytes,
      EncodeLatin1, U16At, U32At, U64At;
  }

  /** The children passed to key() were returned by earlier calls and have no parent yet, each named once. */
  ghost predicate ChildrenAreLoose(trees: map<int, Key>, loose: set<int>, subkeys: seq<KeyRef>) {
    && (forall i :: 0 <= i < |subkeys| ==>
          subkeys[i].at in loose && subkeys[i].at in trees && trees[subkeys[i].at].name == subkeys[i].name)
    && (forall i, j :: 0 <= i < j < |subkeys| ==> subkeys[i].at != subkeys[j].at)
  }

  ghost predicate ValuesAreWritten(vals: map<int, Val>, values: seq<ValueRef>) {
    forall i :: 0 <= i < |values| ==>
      values[i].at in vals && vals[values[i].at].name == values[i].name && |vals[values[i].at].data| == values[i].size
  }

  ghost function TreesAt(trees: map<int, Key>, refs: seq<KeyRef>): (r: seq<Key>)
    requires forall i :: 0 <= i < |refs| ==> refs[i].at in trees
    ensures |r| == |refs| && forall i :: 0 <= i < |refs| ==> r[i] == trees[refs[i].at]
  {
    seq(|refs|, i requires 0 <= i < |refs| => trees[refs[i].at])
  }

  ghost function ValsAt(vals: map<int, Val>, refs: seq<ValueRef>): (r: seq<Val>)
    requires forall i :: 0 <= i < |refs| ==> refs[i].at in vals
    ensures |r| == |refs| && forall i :: 0 <= i < |refs| ==> r[i] == vals[refs[i].at]
  {
    seq(|refs|, i requires 0 <= i < |refs| => vals[refs[i].at])
  }

  function Ats(refs: seq<ValueRef>): (r: seq<nat>)
    ensures |r| == |refs| && forall i :: 0 <= i < |refs| ==> r[i] == refs[i].at
  {
    seq(|refs|, i requires 0 <= i < |refs| => refs[i].at)
  }

  function ValueRefNames(refs: seq<ValueRef>): (r: seq<string>)
    ensures |r| == |refs| && forall i :: 0 <= i < |refs| ==> r[i] == refs[i].name
  {
    seq(|refs|, i requires 0 <= i < |refs| => refs[i].name)
  }

  function Sizes(refs: seq<ValueRef>): (r: seq<nat>)
    ensures |r| == |refs| && forall i :: 0 <= i < |refs| ==> r[i] == refs[i].size
  {
    seq(|refs|, i requires 0 <= i < |refs| => refs[i].size)
  }

  ghost function Offs(refs: seq<KeyRef>): (r: set<int>) {
    set i | 0 <= i < |refs| :: refs[i].at
  }

  lemma OffsOfMore(refs: seq<KeyRef>, r: KeyRef)
    ensures Offs(refs + [r]) == Offs(refs) + {r.at} && Offs([]) == {}
  {
    var all := refs + [r];
    assert all[|refs|] == r;
    forall x | x in Offs(refs)
      ensures x in Offs(all)
    {
      var i :| 0 <= i < |refs| && refs[i].at == x;
      assert all[i] == refs[i];
    }
  }

  /** The tree key() adds: the named values, and the children in sorted order. */
  ghost function NewTree(name: string, trees: map<int, Key>, subkeys: seq<KeyRef>,
                         vals: map<int, Val>, values: seq<ValueRef>): Key
    requires forall i :: 0 <= i < |subkeys| ==> subkeys[i].at in trees
    requires forall i :: 0 <= i < |values| ==> values[i].at in vals
  {
    Key(name, ValsAt(vals, values), Arrange(TreesAt(trees, subkeys)))
  }

  function NodeCell(name: string, root: bool, security: nat, subkeys: seq<KeyRef>, values: seq<ValueRef>,
                    leaf: nat, list: nat): Cell
  {
    KeyNode(name, root, NONE, |subkeys|, leaf, |values|, list, security, Max(Lengths(RefNames(subkeys))),
            Max(Lengths(ValueRefNames(values))), Max(Sizes(values)))
  }

  /** The cells key() has written before the key cell itself. */
  ghost predicate ListsReady(heap: map<int, Cell>, leaf: nat, list: nat, subkeys: seq<KeyRef>, values: seq<ValueRef>) {
    && (if subkeys == [] then leaf == NONE else leaf in heap && heap[leaf] == Leaf(Sorted(subkeys)))
    && (if values == [] then list == NONE else list in heap && heap[list] == Offsets(Ats(values)))
  }

  /** What a writer knows of a child or a value it was handed: its offset and sizes fit their fields. */
  ghost predicate RefsEncode(end: nat, subkeys: seq<KeyRef>, values: seq<ValueRef>) {
    && (forall i :: 0 <= i < |subkeys| ==> IsName(subkeys[i].name) && subkeys[i].at < end)
    && (forall i :: 0 <= i < |values| ==>
          IsName(values[i].name) && values[i].at < end && values[i].size <= MAX_PAYLOAD)
  }

  lemma NamesAreLatin1(name: string)
    requires IsName(name)
    ensures IsLatin1(name)
  {
  }

  lemma KeyOffsetEncodes(buf: seq<byte>, heap: map<int, Cell>, at: int)
    requires Laid(buf, heap) && at in heap && heap[at].KeyNode?
    ensures IsName(heap[at].name) && 0 <= at < |buf|
  {
    CellsInBuf(buf, heap);
    assert Encodable(heap[at]);
    assert HoldsCell(buf, at, Image(heap)[at]);
  }

  lemma ValueOffsetEncodes(buf: seq<byte>, heap: map<int, Cell>, at: int, v: Val)
    requires Laid(buf, heap) && at >= 0 && HoldsValue(heap, at, v)
    ensures IsName(v.name) && |v.data| <= MAX_PAYLOAD && at < |buf|
  {
    CellsInBuf(buf, heap);
    assert Encodable(heap[at]) && Encodable(heap[heap[at].data]);
  }

  lemma ChildrenEncode(buf: seq<byte>, heap: map<int, Cell>, trees: map<int, Key>, vals: map<int, Val>,
                       loose: set<int>, subkeys: seq<KeyRef>, values: seq<ValueRef>)
    requires Sound(buf, heap, trees, vals, loose)
    requires ChildrenAreLoose(trees, loose, subkeys) && ValuesAreWritten(vals, values)
    ensures RefsEncode(|buf|, subkeys, values)
  {
    hide Laid, Linked, IsName;
    forall i | 0 <= i < |subkeys|
      ensures IsName(subkeys[i].name) && subkeys[i].at < |buf|
    {
      assert HoldsKey(heap, subkeys[i].at, trees[subkeys[i].at]);
      KeyOffsetEncodes(buf, heap, subkeys[i].at);
    }
    forall i | 0 <= i < |values|
      ensures IsName(values[i].name) && values[i].at < |buf| && values[i].size <= MAX_PAYLOAD
    {
      ValueOffsetEncodes(buf, heap, values[i].at, vals[values[i].at]);
    }
  }

  lemma OffsetsEncode(end: nat, values: seq<ValueRef>)
    requires RefsEncode(end, [], values) && end <= MAX_BUF && 4 * |values| <= MAX_PAYLOAD
    ensures Encodable(Offsets(Ats(values))) && PayloadLength(Offsets(Ats(values))) == 4 * |values|
    ensures Payload(Offsets(Ats(values))) == OffsetBytes(Ats(values))
  {
  }

  /** The bytes of a key cell, as key() packs them. */
  lemma NodeEncodes(end: nat, name: string, root: bool, security: nat, subkeys: seq<KeyRef>, values: seq<ValueRef>,
                    leaf: nat, list: nat)
    requires RefsEncode(end, subkeys, values) && IsName(name) && security < U32_LIMIT
    requires |subkeys| < U16_LIMIT && 4 * |values| <= MAX_PAYLOAD && leaf < U32_LIMIT && list < U32_LIMIT
    ensures var node := NodeCell(name, root, security, subkeys, values, leaf, list);
            && Encodable(node) && PayloadLength(node) == 76 + |name|
  {
    hide PackFields;
    var node := NodeCell(name, root, security, subkeys, values, leaf, list);
    assert FieldsFit(node);
  }

  /** The sorted entries name the arranged children, one for one. */
  lemma SortedMatchesArrange(trees: map<int, Key>, subkeys: seq<KeyRef>)
    requires forall i :: 0 <= i < |subkeys| ==> subkeys[i].at in trees && trees[subkeys[i].at].name == subkeys[i].name
    ensures var ts := Arrange(TreesAt(trees, subkeys));
            && |ts| == |Sorted(subkeys)|
            && (forall p :: 0 <= p < |ts| ==> Sorted(subkeys)[p] in subkeys && ts[p] == trees[Sorted(subkeys)[p].at]
                                              && ts[p].name == Sorted(subkeys)[p].name)
            && Max(Lengths(KeyNames(ts))) == Max(Lengths(RefNames(subkeys)))
  {
    hide Max;
    var kids, order := TreesAt(trees, subkeys), Order(RefNames(subkeys));
    assert KeyNames(kids) == RefNames(subkeys);
    OrderSorts(RefNames(subkeys));
    MaxOfPicked(Lengths(RefNames(subkeys)), order);
    assert Lengths(KeyNames(Arrange(kids))) == Pick(Lengths(RefNames(subkeys)), order);
  }

  lemma SortedHasSameMembers(subkeys: seq<KeyRef>)
    requires forall i, j :: 0 <= i < j < |subkeys| ==> subkeys[i].at != subkeys[j].at
    ensures SameMembers(Sorted(subkeys), subkeys)
  {
    hide Order;
    var order, r := Order(RefNames(subkeys)), Sorted(subkeys);
    OrderSorts(RefNames(subkeys));
    assert forall p :: 0 <= p < |r| ==> r[p] == subkeys[order[p]];
    forall e | e in subkeys
      ensures e in r
    {
      var i :| 0 <= i < |subkeys| && subkeys[i] == e;
      assert i in order;
      var p :| 0 <= p < |order| && order[p] == i;
      assert r[p] == e;
    }
  }

  lemma NewValuesHeld(heap: map<int, Cell>, vals: map<int, Val>, values: seq<ValueRef>, list: nat)
    requires forall at :: at in vals ==> HoldsValue(heap, at, vals[at])
    requires ValuesAreWritten(vals, values)
    requires if values == [] then list == NONE else list in heap && heap[list] == Offsets(Ats(values))
    ensures HoldsValues(heap, list, ValsAt(vals, values))
    ensures ValueNames(ValsAt(vals, values)) == ValueRefNames(values)
    ensures ValueSizes(ValsAt(vals, values)) == Sizes(values)
  {
  }

  lemma NewKeyHeld(heap: map<int, Cell>, trees: map<int, Key>, vals: map<int, Val>, loose: set<int>,
                   subkeys: seq<KeyRef>, values: seq<ValueRef>, at: nat, node: Cell)
    requires Held(heap, trees, vals) && at !in heap
    requires ChildrenAreLoose(trees, loose, subkeys) && ValuesAreWritten(vals, values)
    requires RefsEncode(at, subkeys, values)
    requires node.KeyNode? && ListsReady(heap, node.leaf, node.list, subkeys, values)
    requires node == NodeCell(node.name, node.root, node.security, subkeys, values, node.leaf, node.list)
    ensures HoldsKey(heap[at := node], at, NewTree(node.name, trees, subkeys, vals, values))
  {
    hide Sorted, Arrange, Max, HoldsValues, HoldsValue, IsName;
    var t := NewTree(node.name, trees, subkeys, vals, values);
    SortedMatchesArrange(trees, subkeys);
    NewValuesHeld(heap, vals, values, node.list);
    var entries := Sorted(subkeys);
    forall i | 0 <= i < |entries|
      ensures entries[i].name == t.subkeys[i].name && entries[i].at < at && HoldsKey(heap, entries[i].at, t.subkeys[i])
    {
      assert entries[i] in subkeys;
    }
    NewKeyHolds(heap, at, node, t, entries);
  }

  /** The whole of key(): the new key is held and has adopted its children. */
  lemma KeyKeepsPromises(heap: map<int, Cell>, trees: map<int, Key>, vals: map<int, Val>, loose: set<int>,
                         subkeys: seq<KeyRef>, values: seq<ValueRef>, at: nat, node: Cell)
    requires Held(heap, trees, vals) && Linked(heap, loose) && at !in heap && at != NONE
    requires ChildrenAreLoose(trees, loose, subkeys) && ValuesAreWritten(vals, values)
    requires RefsEncode(at, subkeys, values)
    requires node.KeyNode? && ListsReady(heap, node.leaf, node.list, subkeys, values)
    requires node == NodeCell(node.name, node.root, node.security, subkeys, values, node.leaf, node.list)
    ensures forall i :: 0 <= i < |subkeys| ==> subkeys[i].at in heap && heap[subkeys[i].at].KeyNode?
    ensures var heap' := Adopt(heap[at := node], subkeys, at);
            && SameButParents(heap, heap')
            && Held(heap', trees[at := NewTree(node.name, trees, subkeys, vals, values)], vals)
            && Linked(heap', loose - Offs(subkeys) + {at})
            && at in heap' && heap'[at] == node
  {
    hide HoldsKey, HoldsValue, HoldsValues, Max, Sorted, IsName, NewTree;
    NewKeyHeld(heap, trees, vals, loose, subkeys, values, at, node);
    SortedHasSameMembers(subkeys);
    AdoptKeepsLinked(heap, loose, at, node, subkeys);
    var t := NewTree(node.name, trees, subkeys, vals, values);
    HeldFrame2(heap, heap[at := node], trees, vals, at, t);
    HeldFrame(heap[at := node], Adopt(heap[at := node], subkeys, at), trees[at := t], vals);
  }

  lemma HeldFrame2(h: map<int, Cell>, h': map<int, Cell>, trees: map<int, Key>, vals: map<int, Val>,
                   at: int, t: Key)
    requires Held(h, trees, vals) && at !in h && at in h' && h' == h[at := h'[at]]
    requires at >= 0 && HoldsKey(h', at, t)
    ensures Held(h', trees[at := t], vals)
  {
    hide HoldsKey, HoldsValue;
    forall a | a in vals
      ensures HoldsValue(h', a, vals[a])
    {
      ValueFrame(h, h', a, vals[a]);
    }
    forall a | a in trees && a != at
      ensures HoldsKey(h', a, trees[a])
    {
      KeyFrame(h, h', a, trees[a]);
    }
  }
}
