/**
 * Registry trees, and what it means for a typed heap to hold one: the pointers
 * HiveWriter.key lays down, followed the way a reader follows them.
 */
module HiveTree {
  import opened Bytes
  import opened CellHeap
  import opened HiveCells
  import opened NameOrder

  datatype Val = Val(name: string, vtype: nat, data: seq<byte>)
  datatype Key = Key(name: string, values: seq<Val>, subkeys: seq<Key>)

  function KeyNames(ts: seq<Key>): (r: seq<string>)
    ensures |r| == |ts| && forall i :: 0 <= i < |ts| ==> r[i] == ts[i].name
  {
    seq(|ts|, i requires 0 <= i < |ts| => ts[i].name)
  }

  function ValueNames(vs: seq<Val>): (r: seq<string>)
    ensures |r| == |vs| && forall i :: 0 <= i < |vs| ==> r[i] == vs[i].name
  {
    seq(|vs|, i requires 0 <= i < |vs| => vs[i].name)
  }

  function ValueSizes(vs: seq<Val>): (r: seq<nat>)
    ensures |r| == |vs| && forall i :: 0 <= i < |vs| ==> r[i] == |vs[i].data|
  {
    seq(|vs|, i requires 0 <= i < |vs| => |vs[i].data|)
  }

  /** The largest, or 0 if there is none. */
  function Max(ns: seq<nat>): (r: nat)
    ensures forall i :: 0 <= i < |ns| ==> ns[i] <= r
    ensures r == 0 || r in ns
  {
    if ns == [] then 0
    else
      var m := Max(ns[..|ns| - 1]);
      if m < ns[|ns| - 1] then ns[|ns| - 1] else m
  }

  function Lengths(names: seq<string>): (r: seq<nat>)
    ensures |r| == |names| && forall i :: 0 <= i < |names| ==> r[i] == |names[i]|
  {
    seq(|names|, i requires 0 <= i < |names| => |names[i]|)
  }

  /** A key's children in the order its list has them. */
  function Arrange(ts: seq<Key>): (r: seq<Key>)
    ensures |r| == |ts|
  {
    Pick(ts, Order(KeyNames(ts)))
  }

  // ---- a tree in a heap ----

  ghost predicate HoldsValue(heap: map<int, Cell>, at: nat, v: Val) {
    && at in heap && heap[at].Value?
    && heap[at].name == v.name && heap[at].vtype == v.vtype && heap[at].len == |v.data|
    && heap[at].data in heap && heap[heap[at].data] == Data(v.data)
  }

  ghost predicate HoldsValues(heap: map<int, Cell>, list: nat, vs: seq<Val>) {
    if vs == [] then list == NONE
    else
      && list in heap && heap[list].Offsets? && |heap[list].offsets| == |vs|
      && forall i :: 0 <= i < |vs| ==> HoldsValue(heap, heap[list].offsets[i], vs[i])
  }

  /**
   * The key cell at `at` is the root of tree t: its counts and sizes are t's,
   * its lists name t's values and subkeys in order, and every subkey was
   * written before it.
   */
  ghost predicate HoldsKey(heap: map<int, Cell>, at: nat, t: Key)
    decreases at
  {
    && at in heap && heap[at].KeyNode?
    && heap[at].name == t.name
    && heap[at].subkeys == |t.subkeys| && heap[at].values == |t.values|
    && heap[at].maxName == Max(Lengths(KeyNames(t.subkeys)))
    && heap[at].maxValueName == Max(Lengths(ValueNames(t.values)))
    && heap[at].maxData == Max(ValueSizes(t.values))
    && HoldsValues(heap, heap[at].list, t.values)
    && if t.subkeys == [] then heap[at].leaf == NONE
       else
         && heap[at].leaf in heap && heap[heap[at].leaf].Leaf?
         && |heap[heap[at].leaf].entries| == |t.subkeys|
         && forall i :: 0 <= i < |t.subkeys| ==>
              var e := heap[heap[at].leaf].entries[i];
              e.name == t.subkeys[i].name && e.at < at && HoldsKey(heap, e.at, t.subkeys[i])
  }

  // ---- frame ----

  /** Every cell of h is still there; at most parent pointers differ. */
  ghost predicate SameButParents(h: map<int, Cell>, h': map<int, Cell>) {
    forall at :: at in h ==>
      && at in h'
      && (h'[at] == h[at] || (h[at].KeyNode? && h'[at].KeyNode? && h'[at] == h[at].(parent := h'[at].parent)))
  }

  lemma ValuesFrame(h: map<int, Cell>, h': map<int, Cell>, list: nat, vs: seq<Val>)
    requires SameButParents(h, h') && HoldsValues(h, list, vs)
    ensures HoldsValues(h', list, vs)
  {
    if vs != [] {
      forall i | 0 <= i < |vs|
        ensures HoldsValue(h', h'[list].offsets[i], vs[i])
      {
        ValueFrame(h, h', h[list].offsets[i], vs[i]);
      }
    }
  }

  lemma ValueFrame(h: map<int, Cell>, h': map<int, Cell>, at: nat, v: Val)
    requires SameButParents(h, h') && HoldsValue(h, at, v)
    ensures HoldsValue(h', at, v)
  {
  }

  /** Nothing a reader follows goes through a parent pointer. */
  lemma {:induction false} KeyFrame(h: map<int, Cell>, h': map<int, Cell>, at: nat, t: Key)
    requires SameButParents(h, h') && HoldsKey(h, at, t)
    ensures HoldsKey(h', at, t)
    decreases at
  {
    ValuesFrame(h, h', h[at].list, t.values);
    if t.subkeys != [] {
      forall i | 0 <= i < |t.subkeys|
        ensures HoldsKey(h', h[h[at].leaf].entries[i].at, t.subkeys[i])
      {
        KeyFrame(h, h', h[h[at].leaf].entries[i].at, t.subkeys[i]);
      }
    }
  }

  // ---- parent links ----

  function Kids(heap: map<int, Cell>, at: int): seq<KeyRef> {
    if at in heap && heap[at].KeyNode? && heap[at].subkeys > 0 && heap[at].leaf in heap && heap[heap[at].leaf].Leaf?
    then heap[heap[at].leaf].entries
    else []
  }

  /** The i-th child of `at` is a key whose parent pointer is `at`, listed once. */
  ghost predicate LinkedChild(heap: map<int, Cell>, at: int, i: nat)
    requires i < |Kids(heap, at)|
  {
    var c := Kids(heap, at)[i].at;
    && c in heap && heap[c].KeyNode? && heap[c].parent == at && c < at
    && forall j :: 0 <= j < |Kids(heap, at)| && j != i ==> Kids(heap, at)[j].at != c
  }

  ghost predicate LeafInHeap(heap: map<int, Cell>, at: int)
    requires at in heap
  {
    heap[at].KeyNode? && heap[at].subkeys > 0 ==> heap[at].leaf in heap && heap[heap[at].leaf].Leaf?
  }

  predicate IsKid(kids: seq<KeyRef>, a: int) {
    exists i :: 0 <= i < |kids| && kids[i].at == a
  }

  /** The key that `a` names as its parent lists it. */
  ghost predicate ListedByParent(heap: map<int, Cell>, a: int)
    requires a in heap && heap[a].KeyNode?
  {
    heap[a].parent in heap && IsKid(Kids(heap, heap[a].parent), a)
  }

  /** Every child points back at its parent, every parent named lists its child; the keys in `loose` have none. */
  ghost predicate Linked(heap: map<int, Cell>, loose: set<int>) {
    && (forall at {:trigger LeafInHeap(heap, at)} :: at in heap ==> LeafInHeap(heap, at))
    && (forall at, i {:trigger LinkedChild(heap, at, i)} :: at in heap && 0 <= i < |Kids(heap, at)|
          ==> LinkedChild(heap, at, i))
    && (forall at :: at in heap && heap[at].KeyNode? ==> (at in loose <==> heap[at].parent == NONE))
    && (forall at :: at in loose ==> at in heap && heap[at].KeyNode?)
    && (forall at {:trigger ListedByParent(heap, at)} :: at in heap && heap[at].KeyNode? && at !in loose
          ==> ListedByParent(heap, at))
    && NONE !in heap
  }

  /** Adding a cell that is no key changes no links. */
  lemma LinkedGrows(heap: map<int, Cell>, loose: set<int>, at: nat, c: Cell)
    requires Linked(heap, loose) && at !in heap && at != NONE && !c.KeyNode?
    ensures Linked(heap[at := c], loose)
  {
    var heap' := heap[at := c];
    forall a {:trigger LeafInHeap(heap', a)} | a in heap'
      ensures LeafInHeap(heap', a)
    {
      assert a != at ==> LeafInHeap(heap, a);
    }
    forall a, i {:trigger LinkedChild(heap', a, i)} | a in heap' && 0 <= i < |Kids(heap', a)|
      ensures LinkedChild(heap', a, i)
    {
      KidsGrow(heap, heap', a);
      assert LinkedChild(heap, a, i);
    }
    forall a {:trigger ListedByParent(heap', a)} | a in heap' && heap'[a].KeyNode? && a !in loose
      ensures ListedByParent(heap', a)
    {
      assert ListedByParent(heap, a) && LeafInHeap(heap, heap[a].parent);
      KidsGrow(heap, heap', heap[a].parent);
    }
  }

  lemma KidsGrow(h: map<int, Cell>, h': map<int, Cell>, at: int)
    requires forall a :: a in h ==> a in h' && h'[a] == h[a]
    requires at in h ==> LeafInHeap(h, at)
    requires at !in h && at in h' ==> !h'[at].KeyNode?
    ensures Kids(h', at) == Kids(h, at)
  {
  }

  /** The parent pointers of the given children set to `parent`. */
  ghost function Adopt(heap: map<int, Cell>, kids: seq<KeyRef>, parent: nat): (r: map<int, Cell>)
    ensures r.Keys == heap.Keys && SameButParents(heap, r)
  {
    map a | a in heap :: if IsKid(kids, a) && heap[a].KeyNode? then heap[a].(parent := parent) else heap[a]
  }

  /** From h to h' the parents of the given children were set, and no other cell of h was touched. */
  ghost predicate ParentsSet(h: map<int, Cell>, h': map<int, Cell>, kids: seq<KeyRef>, parent: nat) {
    forall a :: a in h ==>
      a in h' && (!IsKid(kids, a) ==> h'[a] == h[a])
      && (IsKid(kids, a) ==> h[a].KeyNode? && h'[a] == h[a].(parent := parent))
  }

  lemma AdoptSetsParents(before: map<int, Cell>, mid: map<int, Cell>, at: nat, node: Cell, kids: seq<KeyRef>)
    requires at !in mid && forall a :: a in before ==> a in mid && mid[a] == before[a]
    requires forall i :: 0 <= i < |kids| ==> kids[i].at in mid && mid[kids[i].at].KeyNode?
    ensures ParentsSet(before, Adopt(mid[at := node], kids, at), kids, at)
  {
    hide SameButParents;
  }

  /** A key whose children were all loose adopts them: every link still holds. */
  lemma AdoptKeepsLinked(heap: map<int, Cell>, loose: set<int>, at: nat, node: Cell, kids: seq<KeyRef>)
    requires Linked(heap, loose) && at !in heap && at != NONE
    requires node.KeyNode? && node.parent == NONE && (node.subkeys > 0) == (kids != [])
    requires kids != [] ==> node.leaf in heap && heap[node.leaf].Leaf?
    requires kids != [] ==> SameMembers(heap[node.leaf].entries, kids)
    requires forall i :: 0 <= i < |kids| ==> kids[i].at in loose && kids[i].at < at
    ensures Linked(Adopt(heap[at := node], kids, at), loose - (set i | 0 <= i < |kids| :: kids[i].at) + {at})
  {
    var mid := heap[at := node];
    var heap' := Adopt(mid, kids, at);
    forall a {:trigger LeafInHeap(heap', a)} | a in heap'
      ensures LeafInHeap(heap', a)
    {
      assert a != at ==> LeafInHeap(heap, a);
    }
    forall a, i {:trigger LinkedChild(heap', a, i)} | a in heap' && 0 <= i < |Kids(heap', a)|
      ensures LinkedChild(heap', a, i)
    {
      if a == at {
        assert heap'[node.leaf] == heap[node.leaf];
        var e := Kids(heap', at)[i];
        assert e in heap[node.leaf].entries;
      } else {
        assert LeafInHeap(heap, a);
        assert heap[a].KeyNode? && heap[a].subkeys > 0 ==> heap'[heap[a].leaf] == heap[heap[a].leaf];
        assert Kids(heap', a) == Kids(heap, a);
        assert LinkedChild(heap, a, i);
      }
    }
    forall a {:trigger ListedByParent(heap', a)}
      | a in heap' && heap'[a].KeyNode? && a !in loose - (set i | 0 <= i < |kids| :: kids[i].at) + {at}
      ensures ListedByParent(heap', a)
    {
      AdoptedIsListed(heap, loose, at, node, kids, a);
    }
  }

  /** After the adoption a key that is not loose is listed: by the new key, or by the parent it had. */
  lemma AdoptedIsListed(heap: map<int, Cell>, loose: set<int>, at: nat, node: Cell, kids: seq<KeyRef>, a: int)
    requires Linked(heap, loose) && at !in heap && node.KeyNode? && (node.subkeys > 0) == (kids != [])
    requires kids != [] ==> node.leaf in heap && heap[node.leaf].Leaf?
    requires kids != [] ==> SameMembers(heap[node.leaf].entries, kids)
    requires a in heap && heap[a].KeyNode? && (a in loose ==> IsKid(kids, a))
    ensures ListedByParent(Adopt(heap[at := node], kids, at), a)
  {
    var heap' := Adopt(heap[at := node], kids, at);
    if i: nat :| i < |kids| && kids[i].at == a {
      assert kids[i] in heap[node.leaf].entries;
      assert heap'[node.leaf] == heap[node.leaf];
    } else {
      var p := heap[a].parent;
      assert ListedByParent(heap, a) && LeafInHeap(heap, p);
      assert heap[p].KeyNode? && heap[p].subkeys > 0 ==> heap'[heap[p].leaf] == heap[heap[p].leaf];
      assert Kids(heap', p) == Kids(heap, p);
    }
  }

  /** The two lists name the same keys, each once. */
  ghost predicate SameMembers(a: seq<KeyRef>, b: seq<KeyRef>) {
    && (forall i, j :: 0 <= i < j < |a| ==> a[i].at != a[j].at)
    && (forall e :: e in a <==> e in b)
  }

  lemma KidsOneMore(kids: seq<KeyRef>, i: nat, a: int)
    requires i < |kids|
    ensures IsKid(kids[..i + 1], a) <==> IsKid(kids[..i], a) || kids[i].at == a
  {
    assert kids[..i + 1] == kids[..i] + [kids[i]];
    if kids[i].at == a {
      assert kids[..i + 1][i].at == a;
    }
    if j :| 0 <= j < i && kids[..i][j].at == a {
      assert kids[..i + 1][j].at == a;
    }
  }

  lemma AdoptNone(heap: map<int, Cell>, parent: nat)
    ensures Adopt(heap, [], parent) == heap
  {
  }

  lemma AdoptOneMore(heap: map<int, Cell>, kids: seq<KeyRef>, i: nat, parent: nat)
    requires i < |kids| && kids[i].at in heap && heap[kids[i].at].KeyNode?
    ensures var before := Adopt(heap, kids[..i], parent);
            var c := kids[i].at;
            && before[c].KeyNode?
            && Adopt(heap, kids[..i + 1], parent) == before[c := before[c].(parent := parent)]
  {
    hide IsKid, SameButParents;
    forall a | a in heap
      ensures IsKid(kids[..i + 1], a) <==> IsKid(kids[..i], a) || kids[i].at == a
    {
      KidsOneMore(kids, i, a);
    }
  }

  /** The greatest length does not depend on the order of the names. */
  lemma MaxOfPicked(ns: seq<nat>, order: seq<nat>)
    requires |order| == |ns|
    requires forall p :: 0 <= p < |order| ==> order[p] < |ns|
    requires forall i :: 0 <= i < |ns| ==> i in order
    ensures Max(Pick(ns, order)) == Max(ns)
  {
    var ps := Pick(ns, order);
    if Max(ns) != 0 {
      var i :| 0 <= i < |ns| && ns[i] == Max(ns);
      assert i in order;
      var p :| 0 <= p < |order| && order[p] == i;
      assert ps[p] == ns[i];
    }
    if Max(ps) != 0 {
      var p :| 0 <= p < |ps| && ps[p] == Max(ps);
      assert ps[p] == ns[order[p]];
    }
  }

  /** A key cell written after its lists and children holds the tree they make up. */
  lemma NewKeyHolds(heap: map<int, Cell>, at: nat, node: Cell, t: Key, entries: seq<KeyRef>)
    requires at !in heap && node.KeyNode? && node.name == t.name
    requires node.subkeys == |t.subkeys| && node.values == |t.values|
    requires node.maxName == Max(Lengths(KeyNames(t.subkeys)))
    requires node.maxValueName == Max(Lengths(ValueNames(t.values)))
    requires node.maxData == Max(ValueSizes(t.values))
    requires HoldsValues(heap, node.list, t.values)
    requires |entries| == |t.subkeys|
    requires if t.subkeys == [] then node.leaf == NONE else node.leaf in heap && heap[node.leaf] == Leaf(entries)
    requires forall i :: 0 <= i < |entries| ==>
               entries[i].name == t.subkeys[i].name && entries[i].at < at && HoldsKey(heap, entries[i].at, t.subkeys[i])
    ensures HoldsKey(heap[at := node], at, t)
  {
    hide Max, Lengths, KeyNames, ValueNames, ValueSizes, HoldsValues;
    var heap' := heap[at := node];
    ValuesFrame(heap, heap', node.list, t.values);
    forall i | 0 <= i < |entries|
      ensures HoldsKey(heap', entries[i].at, t.subkeys[i])
    {
      KeyFrame(heap, heap', entries[i].at, t.subkeys[i]);
    }
  }
}
