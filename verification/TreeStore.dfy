/** Whole trees through the writer: written bottom-up, serialised and walked again. */
module TreeStore {
  import opened Bytes
  import opened CellHeap
  import opened HiveCells
  import opened HiveTree
  import opened HiveFile
  import opened WriterState
  import opened HiveWriting
  import opened HiveReader
  import opened HiveRoundTrip
  import opened StoreBytes
  import opened HiveVisits
  import opened NameOrder
  import opened Text

  /** The bounds of the format: what encode() and struct.pack accept for a tree. */
  predicate Writable(t: Key) {
    && IsName(t.name) && |t.subkeys| < U16_LIMIT && 4 * |t.values| <= MAX_PAYLOAD
    && (forall i :: 0 <= i < |t.values| ==> WritableValue(t.values[i]))
    && (forall i :: 0 <= i < |t.subkeys| ==> Writable(t.subkeys[i]))
  }

  predicate WritableValue(v: Val) {
    IsName(v.name) && v.vtype < U32_LIMIT && |v.data| <= MAX_PAYLOAD
  }

  function ValuesCost(vs: seq<Val>): nat {
    if vs == [] then 0 else ValuesCost(vs[..|vs| - 1]) + ValueCost(vs[|vs| - 1])
  }

  /** The bytes a tree takes in the buffer. */
  function TreeCost(t: Key): nat {
    TreesCost(t.subkeys) + ValuesCost(t.values) + KeyCost(t.name, |t.subkeys|, |t.values|)
  }

  function TreesCost(ts: seq<Key>): nat {
    if ts == [] then 0 else TreesCost(ts[..|ts| - 1]) + TreeCost(ts[|ts| - 1])
  }

  lemma {:induction false} ValuesCostGrows(vs: seq<Val>, i: nat)
    requires i < |vs|
    ensures ValuesCost(vs[..i + 1]) == ValuesCost(vs[..i]) + ValueCost(vs[i]) <= ValuesCost(vs)
    decreases |vs|
  {
    assert vs[..i + 1][..i] == vs[..i];
    if i + 1 < |vs| {
      ValuesCostGrows(vs[..|vs| - 1], i);
      assert vs[..|vs| - 1][..i + 1] == vs[..i + 1] && vs[..|vs| - 1][..i] == vs[..i];
    } else {
      assert vs[..i + 1] == vs;
    }
  }

  lemma {:induction false} TreesCostGrows(ts: seq<Key>, i: nat)
    requires i < |ts|
    ensures TreesCost(ts[..i + 1]) == TreesCost(ts[..i]) + TreeCost(ts[i]) <= TreesCost(ts)
    decreases |ts|
  {
    assert ts[..i + 1][..i] == ts[..i];
    if i + 1 < |ts| {
      TreesCostGrows(ts[..|ts| - 1], i);
      assert ts[..|ts| - 1][..i + 1] == ts[..i + 1] && ts[..|ts| - 1][..i] == ts[..i];
    } else {
      assert ts[..i + 1] == ts;
    }
  }

  /** A tree as the store holds it: every key's children stably sorted by lower-cased name. */
  function Stored(t: Key): (r: Key)
    ensures r.name == t.name
  {
    Key(t.name, t.values, Arrange(StoredEach(t.subkeys)))
  }

  function StoredEach(ts: seq<Key>): (r: seq<Key>)
    ensures |r| == |ts| && forall i :: 0 <= i < |ts| ==> r[i] == Stored(ts[i])
  {
    seq(|ts|, i requires 0 <= i < |ts| => Stored(ts[i]))
  }

  // ---- the writer driven over a whole tree ----

  /** The references stand for the given trees and values, ready to be handed to key(). */
  ghost predicate Refer(w: HiveWriter, refs: seq<KeyRef>, ts: seq<Key>)
    reads w
  {
    Stand(w.trees, w.loose, refs, ts)
  }

  ghost predicate Stand(trees: map<int, Key>, loose: set<int>, refs: seq<KeyRef>, ts: seq<Key>) {
    && |refs| == |ts| && ChildrenAreLoose(trees, loose, refs)
    && forall i :: 0 <= i < |ts| ==> trees[refs[i].at] == ts[i]
  }

  /** Writing one more tree leaves the earlier references good and adds its own. */
  lemma ReferMore(trees: map<int, Key>, loose: set<int>, refs: seq<KeyRef>, ts: seq<Key>,
                  trees': map<int, Key>, loose': set<int>, r: KeyRef)
    requires Stand(trees, loose, refs, ts) && r.at !in trees
    requires loose <= loose' && forall at :: at in trees ==> at in trees' && trees'[at] == trees[at]
    requires r.at in loose' && r.at in trees' && trees'[r.at].name == r.name
    ensures Stand(trees', loose', refs + [r], ts + [trees'[r.at]])
  {
  }

  lemma ReferNothing(trees: map<int, Key>, loose: set<int>)
    ensures Stand(trees, loose, [], [])
  {
  }

  ghost predicate ReferValues(w: HiveWriter, refs: seq<ValueRef>, vs: seq<Val>)
    reads w
  {
    && |refs| == |vs| && ValuesAreWritten(w.vals, refs)
    && forall i :: 0 <= i < |vs| ==> w.vals[refs[i].at] == vs[i]
  }

  /** Everything recorded earlier is still recorded. */
  twostate predicate Keeps(w: HiveWriter)
    reads w
  {
    && w.hiveName == old(w.hiveName)
    && (forall at :: at in old(w.trees) ==> at in w.trees && w.trees[at] == old(w.trees)[at])
    && (forall at :: at in old(w.vals) ==> at in w.vals && w.vals[at] == old(w.vals)[at])
  }

  /** Writes a value; the keys stay secured. */
  method AddValue(w: HiveWriter, v: Val, ghost security: nat) returns (r: ValueRef)
    requires w.Valid() && WritableValue(v) && |w.buf| + ValueCost(v) <= MAX_BUF && Secured(w.heap, security, -1)
    modifies w
    ensures w.Valid() && w.hiveName == old(w.hiveName) && Secured(w.heap, security, -1)
    ensures r.name == v.name && r.size == |v.data| && r.at !in old(w.vals)
    ensures w.vals == old(w.vals)[r.at := v] && w.trees == old(w.trees) && w.loose == old(w.loose)
    ensures |w.buf| == |old(w.buf)| + ValueCost(v)
  {
    hide Sound, ValueCost, SameButParents, Secured, KeysAreTrees;
    ghost var heap := w.heap;
    SoundKeys(w.buf, w.heap, w.trees, w.vals, w.loose);
    r := w.Value(v.name, v.vtype, v.data);
    SoundKeys(w.buf, w.heap, w.trees, w.vals, w.loose);
    StaySecured(heap, w.heap, w.trees, security, -1);
  }

  /** Writes a key under the one descriptor. */
  method AddKey(w: HiveWriter, name: string, security: nat, subkeys: seq<KeyRef>, values: seq<ValueRef>, root: bool)
    returns (r: KeyRef)
    requires w.Valid() && IsName(name) && security < U32_LIMIT && Secured(w.heap, security, -1)
    requires |subkeys| < U16_LIMIT && 4 * |values| <= MAX_PAYLOAD
    requires ChildrenAreLoose(w.trees, w.loose, subkeys) && ValuesAreWritten(w.vals, values)
    requires |w.buf| + KeyCost(name, |subkeys|, |values|) <= MAX_BUF
    modifies w
    ensures w.Valid() && w.hiveName == old(w.hiveName) && Secured(w.heap, security, if root then r.at else -1)
    ensures r.name == name && r.at < U32_LIMIT && r.at !in old(w.trees)
    ensures w.trees == old(w.trees)[r.at := NewTree(name, old(w.trees), subkeys, old(w.vals), values)]
    ensures w.loose == old(w.loose) - Offs(subkeys) + {r.at} && w.vals == old(w.vals)
    ensures |w.buf| == |old(w.buf)| + KeyCost(name, |subkeys|, |values|)
  {
    hide Sound, KeyCost, SameButParents, ParentsSet, Secured, KeysAreTrees, NewTree, Offs, ChildrenAreLoose,
      ValuesAreWritten, IsName;
    ghost var heap, trees := w.heap, w.trees;
    SoundKeys(w.buf, w.heap, w.trees, w.vals, w.loose);
    r := w.Key(name, security, subkeys, values, root);
    SoundKeys(w.buf, w.heap, w.trees, w.vals, w.loose);
    OneMoreSecured(heap, w.heap, trees, r.at, w.trees[r.at], security, root);
  }

  method WriteValues(w: HiveWriter, vs: seq<Val>, ghost security: nat) returns (refs: seq<ValueRef>)
    requires Secured(w.heap, security, -1) && w.Valid() && forall i :: 0 <= i < |vs| ==> WritableValue(vs[i])
    requires |w.buf| + ValuesCost(vs) <= MAX_BUF
    modifies w
    ensures w.Valid() && ReferValues(w, refs, vs)
    ensures Keeps(w) && w.trees == old(w.trees) && w.loose == old(w.loose)
    ensures Secured(w.heap, security, -1)
    ensures |w.buf| == |old(w.buf)| + ValuesCost(vs)
  {
    hide Sound, ValueCost, Secured;
    refs := [];
    var i := 0;
    while i < |vs|
      invariant 0 <= i <= |vs| && w.Valid() && ReferValues(w, refs, vs[..i])
      invariant Keeps(w) && w.trees == old(w.trees) && w.loose == old(w.loose) && Secured(w.heap, security, -1)
      invariant |w.buf| == |old(w.buf)| + ValuesCost(vs[..i])
    {
      ValuesCostGrows(vs, i);
      var r := AddValue(w, vs[i], security);
      refs := refs + [r];
      i := i + 1;
    }
    assert vs[..i] == vs;
  }

  lemma StoredOneMore(ts: seq<Key>, i: nat)
    requires i < |ts|
    ensures StoredEach(ts[..i + 1]) == StoredEach(ts[..i]) + [Stored(ts[i])]
  {
    hide *;
  }

  /** Writes the children in order, then the values, then the key itself. */
  method WriteTree(w: HiveWriter, t: Key, security: nat, root: bool) returns (r: KeyRef)
    requires w.Valid() && Writable(t) && security < U32_LIMIT && Secured(w.heap, security, -1)
    requires |w.buf| + TreeCost(t) <= MAX_BUF
    modifies w
    ensures w.Valid() && Keeps(w) && Secured(w.heap, security, if root then r.at else -1)
    ensures r.name == t.name && r.at < U32_LIMIT && r.at in w.trees && w.trees[r.at] == Stored(t)
    ensures r.at !in old(w.trees) && w.loose == old(w.loose) + {r.at}
    ensures |w.buf| == |old(w.buf)| + TreeCost(t)
    decreases t, 1
  {
    hide Sound, KeyCost, Arrange, Secured;
    LooseAreTrees(w.buf, w.heap, w.trees, w.vals, w.loose);
    var kids := WriteTrees(w, t.subkeys, security);
    var values := WriteValues(w, t.values, security);
    assert TreesAt(w.trees, kids) == StoredEach(t.subkeys);
    assert ValsAt(w.vals, values) == t.values;
    r := AddKey(w, t.name, security, kids, values, root);
    assert old(w.loose) + Offs(kids) - Offs(kids) + {r.at} == old(w.loose) + {r.at};
  }

  method WriteTrees(w: HiveWriter, ts: seq<Key>, security: nat) returns (refs: seq<KeyRef>)
    requires w.Valid() && security < U32_LIMIT && forall i :: 0 <= i < |ts| ==> Writable(ts[i])
    requires |w.buf| + TreesCost(ts) <= MAX_BUF && Secured(w.heap, security, -1)
    modifies w
    ensures w.Valid() && Secured(w.heap, security, -1) && Keeps(w) && Refer(w, refs, StoredEach(ts))
    ensures w.loose == old(w.loose) + Offs(refs) && Offs(refs) !! old(w.trees).Keys
    ensures |w.buf| == |old(w.buf)| + TreesCost(ts)
    decreases ts, 0
  {
    hide Sound, TreeCost, Stored, Writable, Stand, Offs, Secured;
    LooseAreTrees(w.buf, w.heap, w.trees, w.vals, w.loose);
    refs := [];
    var i := 0;
    OffsOfMore([], KeyRef(0, ""));
    ReferNothing(w.trees, w.loose);
    while i < |ts|
      invariant 0 <= i <= |ts| && w.Valid() && Keeps(w) && Refer(w, refs, StoredEach(ts[..i]))
      invariant Secured(w.heap, security, -1)
      invariant w.loose == old(w.loose) + Offs(refs) && Offs(refs) !! old(w.trees).Keys
      invariant |w.buf| == |old(w.buf)| + TreesCost(ts[..i])
    {
      TreesCostGrows(ts, i);
      ghost var trees, loose := w.trees, w.loose;
      var r := WriteTree(w, ts[i], security, false);
      OffsOfMore(refs, r);
      StoredOneMore(ts, i);
      ReferMore(trees, loose, refs, StoredEach(ts[..i]), w.trees, w.loose, r);
      refs := refs + [r];
      i := i + 1;
    }
    assert ts[..i] == ts;
  }

  // ---- reading it back ----

  /** Below any key of the tree the lower-cased names run in order. */
  ghost predicate SortedTree(t: Key) {
    && (forall i, j :: 0 <= i < j < |t.subkeys| ==> LexLe(Lower(t.subkeys[i].name), Lower(t.subkeys[j].name)))
    && (forall i :: 0 <= i < |t.subkeys| ==> SortedTree(t.subkeys[i]))
  }

  /** What is stored are the children given, under each key in stably sorted order. */
  lemma {:induction false} StoredIsSorted(t: Key)
    ensures SortedTree(Stored(t))
    ensures multiset(Stored(t).subkeys) == multiset(StoredEach(t.subkeys))
    ensures var kids := StoredEach(t.subkeys);
            && IsOrder(KeyNames(kids), |kids|, Order(KeyNames(kids)))
            && Stored(t).subkeys == Pick(kids, Order(KeyNames(kids)))
  {
    hide Order, Lower, LexLe;
    var kids := StoredEach(t.subkeys);
    OrderSorts(KeyNames(kids));
    ArrangeSorts(kids);
    forall i | 0 <= i < |kids|
      ensures SortedTree(Arrange(kids)[i])
    {
      StoredIsSorted(t.subkeys[Order(KeyNames(kids))[i]]);
    }
  }

  lemma ArrangeSorts(ts: seq<Key>)
    ensures forall i, j :: 0 <= i < j < |ts| ==> LexLe(Lower(Arrange(ts)[i].name), Lower(Arrange(ts)[j].name))
    ensures multiset(Arrange(ts)) == multiset(ts)
  {
    hide LexLe, Lower;
    OrderSorts(KeyNames(ts));
    SortingPermutes(KeyNames(ts), ts, |ts|);
    assert ts[..|ts|] == ts;
  }

  /**
   * Any store the writer serialises, whatever calls built it: the reader finds
   * the root, and its walk ends with exactly the keys under it, each once.
   */
  lemma StoreReads(store: seq<byte>, buf: seq<byte>, heap: map<int, Cell>, trees: map<int, Key>, vals: map<int, Val>,
                   loose: set<int>, root: nat, path: string, fuel: nat)
    requires Sound(buf, heap, trees, vals, loose) && root in trees && IsStore(store, buf, root) && fuel >= |store|
    ensures RootOffset(store) == Ok(root) && InFile(store, heap) && root < |store|
    ensures Walk(store, root, path, fuel).Ok?
    ensures Lists(store, Walk(store, root, path, fuel).value, Preorder(trees[root], path))
    ensures Distinct(VisitOffsets(Walk(store, root, path, fuel).value))
  {
    hide Laid, HoldsKey, Linked, Walk, Lists, XorDwords, U32At, Padding, FreeCell, VisitOffsets, Distinct, InFile;
    NoneIsUnused(heap, loose);
    StoreHoldsHeap(store, buf, heap, root);
    RootInFile(store, buf, heap, trees, vals, loose, root);
    WalkMeetsEachKeyOnce(store, heap, loose, root, trees[root], path, fuel);
  }

  /**
   * Opened with Hive(), the store walks, for every starting path, as the keys
   * of t, parents first and each once; the file's length bounds the depth.
   */
  ghost predicate ReadsBackAs(store: seq<byte>, t: Key) {
    && RootOffset(store).Ok?
    && forall path, fuel :: fuel >= |store| ==> WalksAs(store, RootOffset(store).value, path, fuel, t)
  }

  ghost predicate WalksAs(store: seq<byte>, root: nat, path: string, fuel: nat, t: Key) {
    var walk := Walk(store, root, path, fuel);
    walk.Ok? && Lists(store, walk.value, Preorder(t, path)) && Distinct(VisitOffsets(walk.value))
  }

  lemma StoreReadsBack(store: seq<byte>, buf: seq<byte>, heap: map<int, Cell>, trees: map<int, Key>,
                       vals: map<int, Val>, loose: set<int>, root: nat)
    requires Sound(buf, heap, trees, vals, loose) && root in trees && IsStore(store, buf, root)
    ensures ReadsBackAs(store, trees[root])
  {
    hide Sound, IsStore, Walk, Lists, RootOffset, Distinct, VisitOffsets, Preorder;
    StoreReads(store, buf, heap, trees, vals, loose, root, "", |store|);
    forall path, fuel | fuel >= |store|
      ensures WalksAs(store, root, path, fuel, trees[root])
    {
      StoreReads(store, buf, heap, trees, vals, loose, root, path, fuel);
    }
  }

  /** Somewhere in the store's bytes lies, under its root, a heap holding t. */
  ghost predicate HoldsTree(store: seq<byte>, t: Key) {
    && RootOffset(store).Ok? && RootOffset(store).value < |store|
    && exists heap :: InFile(store, heap) && HoldsKey(heap, RootOffset(store).value, t)
  }

  lemma StoreHoldsTree(store: seq<byte>, buf: seq<byte>, heap: map<int, Cell>, trees: map<int, Key>,
                       vals: map<int, Val>, loose: set<int>, root: nat)
    requires Sound(buf, heap, trees, vals, loose) && root in trees && IsStore(store, buf, root)
    ensures HoldsTree(store, trees[root])
  {
    hide Laid, Walk, Lists, Distinct, VisitOffsets, Preorder, XorDwords, InFile, U32At, FreeCell;
    StoreReads(store, buf, heap, trees, vals, loose, root, "", |store|);
    RootInFile(store, buf, heap, trees, vals, loose, root);
  }

  lemma NoneIsUnused(heap: map<int, Cell>, loose: set<int>)
    requires Linked(heap, loose)
    ensures NONE !in heap
  {
  }

  lemma RootInFile(store: seq<byte>, buf: seq<byte>, heap: map<int, Cell>, trees: map<int, Key>, vals: map<int, Val>,
                   loose: set<int>, root: nat)
    requires Sound(buf, heap, trees, vals, loose) && root in trees && |store| >= |buf|
    ensures HoldsKey(heap, root, trees[root]) && root < |store|
  {
    hide Laid, Linked;
    assert HoldsKey(heap, root, trees[root]);
    CellsInBuf(buf, heap);
  }

  /** The header page, the bin's header, and all keys from the root on, field by field at their positions. */
  ghost predicate StandsWhole(store: seq<byte>, hiveName: string, t: Key) {
    && RootOffset(store).Ok? && |store| >= 0x1000
    && HeaderStands(store, hiveName, RootOffset(store).value, |store| - 0x1000) && BinStands(store, |store| - 0x1000)
    && RootIsRight(store, RootOffset(store).value, t)
  }

  lemma StoreStandsWhole(store: seq<byte>, hiveName: string, buf: seq<byte>, heap: map<int, Cell>,
                         trees: map<int, Key>, vals: map<int, Val>, loose: set<int>, root: nat, security: nat)
    requires Sound(buf, heap, trees, vals, loose) && root in trees && IsStore(store, buf, root) && root in loose
    requires Secured(heap, security, root)
    requires |store| >= 0x1000 && HeaderStands(store, hiveName, root, |store| - 0x1000)
    requires BinStands(store, |store| - 0x1000)
    ensures StandsWhole(store, hiveName, trees[root])
  {
    hide HeaderStands, BinStands, HoldsKey, InFile, IsStore, Secured, RootIsRight, Walk, Lists, Distinct, VisitOffsets,
      Preorder, Laid, Linked;
    StoreReads(store, buf, heap, trees, vals, loose, root, "", |store|);
    StoreIsLonger(store, buf, root);
    RootInFile(store, buf, heap, trees, vals, loose, root);
    RootStandsRight(store, heap, loose, root, trees[root], security);
  }

  lemma StoreIsLonger(store: seq<byte>, buf: seq<byte>, root: nat)
    requires IsStore(store, buf, root)
    ensures |store| >= |buf|
  {
    hide XorDwords, FreeCell, U32At;
  }

  lemma RootStandsRight(store: seq<byte>, heap: map<int, Cell>, loose: set<int>, root: nat, t: Key, security: nat)
    requires InFile(store, heap) && HoldsKey(heap, root, t) && Linked(heap, loose) && root in loose
    requires Secured(heap, security, root)
    ensures RootIsRight(store, root, t)
  {
    hide InFile, HoldsKey, Linked, Secured, KeysAreRight, SecurityStands;
    LooseHasNoParent(heap, loose, root);
    SecuredHas(heap, security, root);
    SecurityInStore(store, heap, security);
    KeysStandRight(store, heap, loose, root, t, security, root);
  }

  lemma LooseHasNoParent(heap: map<int, Cell>, loose: set<int>, at: int)
    requires Linked(heap, loose) && at in loose
    ensures at in heap && heap[at].KeyNode? && heap[at].parent == 0xFFFF_FFFF
  {
  }

  lemma SecuredHas(heap: map<int, Cell>, security: nat, root: int)
    requires Secured(heap, security, root)
    ensures security in heap && heap[security] == Cell.Security(security, SecurityDescriptor())
  {
    hide SecurityDescriptor;
  }

  /**
   * The round trip for every tree within the format's bounds: written bottom-up
   * and serialised, it reads back with the same names, types and bytes, every
   * key's children in sorted order.
   */
  method StoreTree(hiveName: string, t: Key) returns (store: seq<byte>)
    requires Writable(t) && HBIN_HEADER + SECURITY_COST + TreeCost(t) <= MAX_BUF
    ensures ReadsBackAs(store, Stored(t)) && HoldsTree(store, Stored(t)) && StandsWhole(store, hiveName, Stored(t))
  {
    hide HoldsTree, Sound, TreeCost, Writable, IsStore, Stored, ReadsBackAs, SECURITY_COST, Secured, StandsWhole,
      HeaderStands, BinStands, SecurityDescriptor;
    var w := new HiveWriter(hiveName);
    var security := w.Security();
    FirstSecured(security);
    var root := WriteTree(w, t, security, true);
    store := w.Serialise(root.at);
    StoreReadsBack(store, w.buf, w.heap, w.trees, w.vals, w.loose, root.at);
    StoreHoldsTree(store, w.buf, w.heap, w.trees, w.vals, w.loose, root.at);
    StoreStandsWhole(store, w.hiveName, w.buf, w.heap, w.trees, w.vals, w.loose, root.at, security);
  }
}
