/** What dumpbcd.py collects from a BCD store is what was written into it. */
module BcdRoundTrip {
  import opened Bytes
  import opened Text
  import opened HiveTree
  import opened NameOrder
  import opened HiveReader
  import opened HiveRoundTrip
  import opened TreeStore
  import opened Bcd
  import opened BcdDump

  // ---- order of the two keys inside an object, and inside the root ----

  lemma TwoInOrder(a: Key, b: Key)
    requires a.name != "" && b.name != "" && LowerChar(a.name[0]) < LowerChar(b.name[0])
    ensures Arrange([a, b]) == [a, b]
  {
    var names := KeyNames([a, b]);
    assert LexLe(Lower(names[0]), Lower(names[1]));
    assert OrderUpTo(names, 1) == [0] by {
      assert OrderUpTo(names, 0) == [];
    }
    var one: seq<nat> := [0];
    assert one[1..] == [] && Insert(names, one, 1) == [0] + Insert(names, [], 1);
    assert Order(names) == [0, 1];
  }

  // ---- elements ----

  /** {id: (type, data)}, a later element replacing an earlier one of the same id. */
  function ElementMap(es: seq<Element>): map<string, (nat, seq<byte>)> {
    if es == [] then map[] else map[es[0].id := (es[0].vtype, es[0].data)] + ElementMap(es[1..])
  }

  ghost predicate DistinctIds(es: seq<Element>) {
    forall i, j :: 0 <= i < j < |es| ==> es[i].id != es[j].id
  }

  function Ids(es: seq<Element>): set<string> {
    set i | 0 <= i < |es| :: es[i].id
  }

  /** m maps every element's id to its type and data, and nothing else. */
  ghost predicate Describes(m: map<string, (nat, seq<byte>)>, es: seq<Element>) {
    m.Keys == Ids(es) && forall i :: 0 <= i < |es| ==> es[i].id in m && m[es[i].id] == (es[i].vtype, es[i].data)
  }

  lemma {:induction false} ElementMapDescribes(es: seq<Element>)
    requires DistinctIds(es)
    ensures Describes(ElementMap(es), es)
  {
    if es == [] {
    } else {
      ElementMapDescribes(es[1..]);
      IdsOfRest(es);
      forall i | 0 <= i < |es|
        ensures es[i].id in ElementMap(es) && ElementMap(es)[es[i].id] == (es[i].vtype, es[i].data)
      {
        if i > 0 {
          assert es[1..][i - 1] == es[i];
        }
      }
    }
  }

  lemma IdsOfRest(es: seq<Element>)
    requires es != []
    ensures Ids(es) == {es[0].id} + Ids(es[1..])
    ensures DistinctIds(es) ==> es[0].id !in Ids(es[1..])
  {
    forall id | id in Ids(es)
      ensures id in {es[0].id} + Ids(es[1..])
    {
      var i :| 0 <= i < |es| && es[i].id == id;
      if i > 0 {
        assert es[1..][i - 1].id == id;
      }
    }
  }

  type Elements = map<string, (nat, seq<byte>)>

  /** One more element, written before or after those of m. */
  function First(e: Element, m: Elements): Elements {
    map[e.id := (e.vtype, e.data)] + m
  }

  function Last(m: Elements, e: Element): Elements {
    m[e.id := (e.vtype, e.data)]
  }

  lemma FirstAndLast(h: Element, m: Elements, e: Element)
    ensures First(h, Last(m, e)) == Last(First(h, m), e)
    ensures e.id !in m ==> First(e, m) == Last(m, e)
  {
  }

  lemma ElementMapMore(es: seq<Element>, e: Element)
    ensures ElementMap([e] + es) == First(e, ElementMap(es))
    ensures ElementMap([]) == map[]
  {
    assert ([e] + es)[1..] == es;
  }

  lemma {:induction false} ElementMapConcat(xs: seq<Element>, ys: seq<Element>)
    ensures ElementMap(xs + ys) == ElementMap(xs) + ElementMap(ys)
  {
    hide ElementMap;
    if xs == [] {
      assert xs + ys == ys;
      ElementMapMore(ys, Element("", 0, []));
    } else {
      ElementMapConcat(xs[1..], ys);
      assert xs + ys == [xs[0]] + (xs[1..] + ys) && xs == [xs[0]] + xs[1..];
      ElementMapMore(xs[1..] + ys, xs[0]);
      ElementMapMore(xs[1..], xs[0]);
    }
  }

  lemma ElementMapEndsWith(es: seq<Element>, e: Element)
    ensures ElementMap(es + [e]) == Last(ElementMap(es), e)
  {
    hide ElementMap;
    ElementMapConcat(es, [e]);
    ElementMapMore([], e);
    assert [e] + [] == [e];
  }

  lemma {:induction false} IdsMapped(es: seq<Element>, id: string)
    requires forall i :: 0 <= i < |es| ==> es[i].id != id
    ensures id !in ElementMap(es)
  {
    if es == [] {
    } else {
      IdsMapped(es[1..], id);
    }
  }

  /** The names of the elements are their ids. */
  predicate NamedById(es: seq<Element>, names: seq<string>) {
    |names| == |es| && forall i :: 0 <= i < |es| ==> names[i] == es[i].id
  }

  lemma InsertInRange(names: seq<string>, order: seq<nat>, k: nat)
    requires k < |names| && Chain(names, order)
    ensures forall p :: 0 <= p < |Insert(names, order, k)| ==> Insert(names, order, k)[p] < |names|
  {
    hide Insert, Before;
    var r := Insert(names, order, k);
    assert forall p :: 0 <= p < |r| ==> r[p] in r;
  }

  /** Inserting one more element where the sort puts it is the same as writing it last. */
  lemma {:induction false} InsertedLast(es: seq<Element>, names: seq<string>, order: seq<nat>, k: nat)
    requires NamedById(es, names) && k < |es| && Chain(names, order)
    ensures forall p :: 0 <= p < |Insert(names, order, k)| ==> Insert(names, order, k)[p] < |es|
    ensures ElementMap(Pick(es, Insert(names, order, k))) == Last(ElementMap(Pick(es, order)), es[k])
  {
    hide ElementMap, LexLe, Lower, Pick, Before, Chain, First, Last;
    ChainSteps(names, order);
    InsertInRange(names, order, k);
    if order == [] {
      PickOfMore(es, k, []);
      ElementMapMore([], es[k]);
      FirstAndLast(es[k], map[], es[k]);
      assert Pick(es, order) == [];
    } else if LexLe(Lower(names[order[0]]), Lower(names[k])) {
      var rest, h := Insert(names, order[1..], k), es[order[0]];
      InsertedLast(es, names, order[1..], k);
      assert order == [order[0]] + order[1..];
      PickOfMore(es, order[0], rest);
      PickOfMore(es, order[0], order[1..]);
      ElementMapMore(Pick(es, rest), h);
      ElementMapMore(Pick(es, order[1..]), h);
      FirstAndLast(h, ElementMap(Pick(es, order[1..])), es[k]);
    } else {
      FrontIsNew(es, names, order, k);
      PickOfMore(es, k, order);
      ElementMapMore(Pick(es, order), es[k]);
      FirstAndLast(es[k], ElementMap(Pick(es, order)), es[k]);
    }
  }

  lemma FrontIsNew(es: seq<Element>, names: seq<string>, order: seq<nat>, k: nat)
    requires NamedById(es, names) && k < |es| && Chain(names, order) && order != []
    requires !LexLe(Lower(names[order[0]]), Lower(names[k]))
    ensures es[k].id !in ElementMap(Pick(es, order))
  {
    hide ElementMap, LexLe, Lower, Before;
    FrontNameIsNew(names, order, k);
    IdsMapped(Pick(es, order), es[k].id);
  }

  lemma {:induction false} SortedUpTo(es: seq<Element>, names: seq<string>, n: nat)
    requires |names| == |es| && NamedById(es, names) && n <= |es|
    ensures ElementMap(Pick(es, OrderUpTo(names, n))) == ElementMap(es[..n])
  {
    hide ElementMap, Pick, Chain, NamedById, Insert, Last;
    if n == 0 {
      assert Pick(es, OrderUpTo(names, n)) == [] == es[..n];
    } else {
      SortedUpTo(es, names, n - 1);
      OrderIsChain(names, n - 1);
      InsertedLast(es, names, OrderUpTo(names, n - 1), n - 1);
      assert es[..n] == es[..n - 1] + [es[n - 1]];
      ElementMapEndsWith(es[..n - 1], es[n - 1]);
    }
  }

  /** The sort is stable, so of elements with one id the last written still wins. */
  lemma ElementMapInOrder(es: seq<Element>)
    ensures ElementMap(InOrder(es)) == ElementMap(es)
  {
    hide ElementMap, OrderUpTo, Pick;
    SortedUpTo(es, IdNames(es), |es|);
    assert es[..|es|] == es;
  }

  // ---- the collecting loop over part of a walk ----

  lemma {:induction false} KeyStepsConcat(m: map<string, Object>, a: seq<(seq<string>, Key)>, b: seq<(seq<string>,
                                          Key)>)
    ensures KeySteps(m, a + b) == KeySteps(KeySteps(m, a), b)
  {
    hide KeyStep;
    if b == [] {
      assert a + b == a;
    } else {
      KeyStepsConcat(m, a, b[..|b| - 1]);
      assert (a + b)[..|a + b| - 1] == a + b[..|b| - 1];
    }
  }

  lemma KeyStepsOne(m: map<string, Object>, parts: seq<string>, t: Key)
    ensures KeySteps(m, [(parts, t)]) == KeyStep(m, parts, t)
    ensures KeySteps(m, []) == m
  {
    assert [(parts, t)][..0] == [];
  }

  lemma OneElement(m: map<string, Object>, g: string, e: Element)
    requires g in m
    ensures KeyStep(m, ["Objects", g, "Elements", e.id], ElementKey(e))
            == m[g := m[g].(elems := m[g].elems[e.id := (e.vtype, e.data)])]
  {
    var vs := ReadBackAll(ElementKey(e).values);
    assert vs == [ReadValue("Element", e.vtype, e.data)];
    assert vs[..0] == [];
    assert ElementFrom(m[g], e.id, vs[..0]) == m[g];
  }

  lemma {:induction false} ElementsCollected(m: map<string, Object>, g: string, es: seq<Element>)
    requires g in m
    ensures KeySteps(m, PreorderPartsEach(ElementKeys(es), ["Objects", g, "Elements"]))
            == m[g := m[g].(elems := m[g].elems + ElementMap(es))]
  {
    hide KeyStep, KeySteps;
    var parts := ["Objects", g, "Elements"];
    if es == [] {
      KeyStepsOne(m, [], Key("", [], []));
      assert m[g].elems + ElementMap(es) == m[g].elems;
    } else {
      var e, ks := es[0], ElementKeys(es);
      assert ks[1..] == ElementKeys(es[1..]);
      assert parts + [e.id] == ["Objects", g, "Elements", e.id];
      assert PreorderParts(ks[0], parts + [e.id]) == [(parts + [e.id], ks[0])];
      KeyStepsConcat(m, [(parts + [e.id], ks[0])], PreorderPartsEach(ks[1..], parts));
      KeyStepsOne(m, parts + [e.id], ks[0]);
      OneElement(m, g, e);
      var m' := m[g := m[g].(elems := m[g].elems[e.id := (e.vtype, e.data)])];
      ElementsCollected(m', g, es[1..]);
      assert m'[g].elems + ElementMap(es[1..]) == m[g].elems + ElementMap(es);
    }
  }

  // ---- one object ----

  function IdNames(es: seq<Element>): (r: seq<string>)
    ensures |r| == |es|
  {
    KeyNames(ElementKeys(es))
  }

  /** The elements in the order the store keeps them. */
  function InOrder(es: seq<Element>): seq<Element> {
    Pick(es, Order(IdNames(es)))
  }

  lemma LeafIsStored(name: string, values: seq<Val>)
    ensures Stored(Key(name, values, [])) == Key(name, values, [])
  {
    assert StoredEach([]) == [];
  }

  lemma StoredElements(es: seq<Element>)
    ensures Stored(Key("Elements", [], ElementKeys(es))) == Key("Elements", [], ElementKeys(InOrder(es)))
  {
    hide Order, Stored;
    var ks := ElementKeys(es);
    forall i | 0 <= i < |es|
      ensures Stored(ks[i]) == ks[i]
    {
      LeafIsStored(es[i].id, [Val("Element", es[i].vtype, es[i].data)]);
    }
    assert StoredEach(ks) == ks;
    assert Pick(ks, Order(KeyNames(ks))) == ElementKeys(InOrder(es));
    StoredUnfolds(Key("Elements", [], ks));
  }

  lemma StoredUnfolds(t: Key)
    ensures Stored(t) == Key(t.name, t.values, Arrange(StoredEach(t.subkeys)))
  {
  }

  lemma StoredObject(o: Spec)
    ensures Stored(ObjectKey(o))
            == Key(o.guid, [], [TypeKey(o.otype), Key("Elements", [], ElementKeys(InOrder(o.elements)))])
  {
    hide Stored, ElementKeys, Arrange, InOrder, Le32;
    var kids := ObjectKey(o).subkeys;
    StoredElements(o.elements);
    LeafIsStored("Description", [Val("Type", REG_DWORD, Le32(o.otype))]);
    assert StoredEach(kids) == [TypeKey(o.otype), Key("Elements", [], ElementKeys(InOrder(o.elements)))];
    TwoInOrder(StoredEach(kids)[0], StoredEach(kids)[1]);
    StoredUnfolds(ObjectKey(o));
  }

  /** What collecting an object adds to what was known under its GUID. */
  function Merge(known: Object, o: Spec): Object {
    Object(Some(o.otype), known.elems + ElementMap(o.elements))
  }

  lemma OneType(m: map<string, Object>, g: string, otype: dword)
    requires g in m
    ensures KeyStep(m, ["Objects", g, "Description"], TypeKey(otype)) == m[g := m[g].(otype := Some(otype))]
  {
    hide Le32;
    var vs := ReadBackAll(TypeKey(otype).values);
    assert vs == [ReadValue("Type", REG_DWORD, Le32(otype))];
    assert vs[..0] == [];
    assert TypeFrom(m[g], vs[..0]) == m[g];
  }

  lemma PreorderOfTwo(name: string, a: Key, b: Key, parts: seq<string>)
    requires a.subkeys == []
    ensures PreorderParts(Key(name, [], [a, b]), parts)
            == [(parts, Key(name, [], [a, b]))]
               + ([(parts + [a.name], a)] + ([(parts + [b.name], b)] + PreorderPartsEach(b.subkeys, parts + [b.name])))
  {
    assert [a, b][1..] == [b] && [b][1..] == [];
    assert PreorderPartsEach([b], parts) == PreorderParts(b, parts + [b.name]);
    assert PreorderParts(a, parts + [a.name]) == [(parts + [a.name], a)];
  }

  lemma ObjectCollected(m: map<string, Object>, o: Spec)
    ensures KeySteps(m, PreorderParts(Stored(ObjectKey(o)), ["Objects", o.guid])) == Put(m, o)
  {
    hide KeySteps, Stored, ElementKeys, PreorderParts, PreorderPartsEach, ElementMap, InOrder, Le32;
    var g, parts := o.guid, ["Objects", o.guid];
    var desc, all := TypeKey(o.otype), Key("Elements", [], ElementKeys(InOrder(o.elements)));
    var key := Key(g, [], [desc, all]);
    StoredObject(o);
    PreorderOfTwo(g, desc, all, parts);
    assert parts + ["Description"] == ["Objects", g, "Description"];
    assert parts + ["Elements"] == ["Objects", g, "Elements"];
    var rest := PreorderPartsEach(all.subkeys, parts + ["Elements"]);
    KeyStepsConcat(m, [(parts, key)], [(parts + ["Description"], desc)] + ([(parts + ["Elements"], all)] + rest));
    KeyStepsOne(m, parts, key);
    var m1 := m[g := Known(m, g)];
    KeyStepsConcat(m1, [(parts + ["Description"], desc)], [(parts + ["Elements"], all)] + rest);
    KeyStepsOne(m1, parts + ["Description"], desc);
    OneType(m1, g, o.otype);
    var m2 := m1[g := m1[g].(otype := Some(o.otype))];
    KeyStepsConcat(m2, [(parts + ["Elements"], all)], rest);
    KeyStepsOne(m2, parts + ["Elements"], all);
    assert KeyStep(m2, parts + ["Elements"], all) == m2;
    ElementsCollected(m2, g, InOrder(o.elements));
    ElementMapInOrder(o.elements);
  }

  // ---- all objects ----

  function Put(m: map<string, Object>, o: Spec): map<string, Object> {
    m[o.guid := Merge(Known(m, o.guid), o)]
  }

  /** Every object written, one after the other. */
  function Fold(m: map<string, Object>, os: seq<Spec>): map<string, Object>
    decreases |os|
  {
    if os == [] then m else Fold(Put(m, os[0]), os[1..])
  }

  lemma {:induction false} ObjectsCollected(m: map<string, Object>, os: seq<Spec>)
    ensures KeySteps(m, PreorderPartsEach(StoredEach(ObjectKeys(os)), ["Objects"])) == Fold(m, os)
    decreases |os|
  {
    hide KeySteps, Stored, PreorderParts, ObjectKey, Merge;
    var ks := StoredEach(ObjectKeys(os));
    if os == [] {
      KeyStepsOne(m, [], Key("", [], []));
    } else {
      var o := os[0];
      StoredEachRest(os);
      assert ["Objects"] + [o.guid] == ["Objects", o.guid];
      KeyStepsConcat(m, PreorderParts(ks[0], ["Objects", o.guid]), PreorderPartsEach(ks[1..], ["Objects"]));
      ObjectCollected(m, o);
      ObjectsCollected(Put(m, o), os[1..]);
    }
  }

  lemma StoredEachRest(os: seq<Spec>)
    requires os != []
    ensures StoredEach(ObjectKeys(os))[1..] == StoredEach(ObjectKeys(os[1..]))
    ensures StoredEach(ObjectKeys(os))[0].name == os[0].guid
    ensures StoredEach(ObjectKeys(os))[0] == Stored(ObjectKey(os[0]))
  {
    hide Stored, ObjectKey;
    assert ObjectKeys(os)[1..] == ObjectKeys(os[1..]);
  }

  function Guids(os: seq<Spec>): (r: seq<string>)
    ensures |r| == |os| && forall i :: 0 <= i < |r| ==> r[i] == os[i].guid
  {
    KeyNames(ObjectKeys(os))
  }

  lemma StoredStoreKey(values: seq<Val>, os: seq<Spec>)
    ensures var sorted := Pick(os, Order(Guids(os)));
            Stored(StoreKey(values, os))
            == Key("System", [], [Key("Description", values, []), Key("Objects", [], StoredEach(ObjectKeys(sorted)))])
  {
    hide Stored, ObjectKey, Order;
    var ks, sorted := ObjectKeys(os), Pick(os, Order(Guids(os)));
    LeafIsStored("Description", values);
    StoredUnfolds(Key("Objects", [], ks));
    assert KeyNames(StoredEach(ks)) == Guids(os);
    assert Pick(StoredEach(ks), Order(Guids(os))) == StoredEach(ObjectKeys(sorted));
    var kids := StoreKey(values, os).subkeys;
    assert StoredEach(kids) == [Key("Description", values, []), Key("Objects", [], StoredEach(ObjectKeys(sorted)))];
    TwoInOrder(StoredEach(kids)[0], StoredEach(kids)[1]);
    StoredUnfolds(StoreKey(values, os));
  }

  lemma StoreCollected(values: seq<Val>, os: seq<Spec>)
    ensures KeySteps(map[], PreorderParts(Stored(StoreKey(values, os)), []))
            == Fold(map[], Pick(os, Order(Guids(os))))
  {
    hide KeySteps, Stored, PreorderParts, PreorderPartsEach, StoredEach, ObjectKeys, Order, Pick, Fold;
    var sorted := Pick(os, Order(Guids(os)));
    var desc, all := Key("Description", values, []), Key("Objects", [], StoredEach(ObjectKeys(sorted)));
    var root := Key("System", [], [desc, all]);
    StoredStoreKey(values, os);
    PreorderOfTwo("System", desc, all, []);
    assert [] + ["Description"] == ["Description"] && [] + ["Objects"] == ["Objects"];
    var rest := PreorderPartsEach(all.subkeys, ["Objects"]);
    var none: map<string, Object> := map[];
    KeyStepsConcat(none, [([], root)], [(["Description"], desc)] + ([(["Objects"], all)] + rest));
    KeyStepsOne(none, [], root);
    KeyStepsConcat(none, [(["Description"], desc)], [(["Objects"], all)] + rest);
    KeyStepsOne(none, ["Description"], desc);
    KeyStepsConcat(none, [(["Objects"], all)], rest);
    KeyStepsOne(none, ["Objects"], all);
    ObjectsCollected(none, sorted);
  }

  // ---- the order of the store does not matter ----

  lemma FoldMore(m: map<string, Object>, o: Spec, os: seq<Spec>)
    ensures Fold(m, [o] + os) == Fold(Put(m, o), os) && Fold(m, []) == m
  {
    assert ([o] + os)[1..] == os;
  }

  lemma PutsCommute(m: map<string, Object>, a: Spec, b: Spec)
    requires a.guid != b.guid
    ensures Put(Put(m, a), b) == Put(Put(m, b), a)
  {
    hide Merge;
  }

  lemma {:induction false} PutPassesFold(m: map<string, Object>, os: seq<Spec>, o: Spec)
    requires forall i :: 0 <= i < |os| ==> os[i].guid != o.guid
    ensures Fold(Put(m, o), os) == Put(Fold(m, os), o)
    decreases |os|
  {
    hide Put;
    if os == [] {
    } else {
      PutsCommute(m, o, os[0]);
      PutPassesFold(Put(m, os[0]), os[1..], o);
    }
  }

  lemma {:induction false} FoldEndsWith(m: map<string, Object>, os: seq<Spec>, o: Spec)
    ensures Fold(m, os + [o]) == Put(Fold(m, os), o)
    decreases |os|
  {
    hide Put;
    if os == [] {
      assert os + [o] == [o] + os;
      FoldMore(m, o, os);
    } else {
      assert (os + [o])[1..] == os[1..] + [o];
      FoldEndsWith(Put(m, os[0]), os[1..], o);
    }
  }

  /** Inserting one more object where the sort puts it is the same as writing it last. */
  lemma {:induction false} InsertedObjectLast(m: map<string, Object>, os: seq<Spec>, names: seq<string>,
                                              order: seq<nat>,
                                              k: nat)
    requires |names| == |os| && k < |os| && forall i :: 0 <= i < |os| ==> names[i] == os[i].guid
    requires Chain(names, order)
    ensures forall p :: 0 <= p < |Insert(names, order, k)| ==> Insert(names, order, k)[p] < |os|
    ensures Fold(m, Pick(os, Insert(names, order, k))) == Put(Fold(m, Pick(os, order)), os[k])
    decreases |order|
  {
    hide Fold, Put, LexLe, Lower, Pick, Before, Chain;
    ChainSteps(names, order);
    if order == [] {
      PickOfMore(os, k, []);
      FoldMore(m, os[k], []);
      FoldMore(Put(m, os[k]), os[k], []);
      assert Pick(os, order) == [];
    } else if LexLe(Lower(names[order[0]]), Lower(names[k])) {
      var h := os[order[0]];
      InsertedObjectLast(Put(m, h), os, names, order[1..], k);
      var rest := Insert(names, order[1..], k);
      assert order == [order[0]] + order[1..];
      PickOfMore(os, order[0], rest);
      PickOfMore(os, order[0], order[1..]);
      FoldMore(m, h, Pick(os, rest));
      FoldMore(m, h, Pick(os, order[1..]));
    } else {
      FrontNameIsNew(names, order, k);
      PickOfMore(os, k, order);
      FoldMore(m, os[k], Pick(os, order));
      PutPassesFold(m, Pick(os, order), os[k]);
    }
  }

  lemma {:induction false} FoldSortedUpTo(os: seq<Spec>, names: seq<string>, n: nat)
    requires |names| == |os| && n <= |os| && forall i :: 0 <= i < |os| ==> names[i] == os[i].guid
    ensures Fold(map[], Pick(os, OrderUpTo(names, n))) == Fold(map[], os[..n])
  {
    hide Fold, Put, Pick, Chain;
    if n == 0 {
      assert Pick(os, OrderUpTo(names, n)) == [] == os[..n];
    } else {
      FoldSortedUpTo(os, names, n - 1);
      OrderIsChain(names, n - 1);
      InsertedObjectLast(map[], os, names, OrderUpTo(names, n - 1), n - 1);
      assert os[..n] == os[..n - 1] + [os[n - 1]];
      FoldEndsWith(map[], os[..n - 1], os[n - 1]);
    }
  }

  /** Collecting the stored, sorted objects gives what collecting them as written would. */
  lemma FoldInOrder(os: seq<Spec>)
    ensures Fold(map[], Pick(os, Order(Guids(os)))) == Fold(map[], os)
  {
    hide Fold, OrderUpTo, Pick;
    FoldSortedUpTo(os, Guids(os), |os|);
    assert os[..|os|] == os;
  }

  // ---- the objects a dump must show ----

  ghost predicate DistinctGuids(os: seq<Spec>) {
    forall i, j :: 0 <= i < j < |os| ==> os[i].guid != os[j].guid
  }

  function ObjectOf(o: Spec): Object {
    Object(Some(o.otype), ElementMap(o.elements))
  }

  function GuidSet(os: seq<Spec>): set<string> {
    set i | 0 <= i < |os| :: os[i].guid
  }

  /** All elements written under a GUID, in the order written. */
  function ElementsUnder(os: seq<Spec>, g: string): seq<Element> {
    if os == [] then []
    else
      var last := os[|os| - 1];
      ElementsUnder(os[..|os| - 1], g) + if last.guid == g then last.elements else []
  }

  /** The type written last under a GUID. */
  function LastType(os: seq<Spec>, g: string): Option<nat> {
    if os == [] then None
    else if os[|os| - 1].guid == g then Some(os[|os| - 1].otype) else LastType(os[..|os| - 1], g)
  }

  /**
   * What a GUID shows, written once or many times: the last type, and of all
   * its elements the last of each id.
   */
  lemma {:induction false} FoldShows(os: seq<Spec>, g: string)
    ensures g in Fold(map[], os) <==> g in GuidSet(os)
    ensures g in GuidSet(os) ==> Fold(map[], os)[g] == Object(LastType(os, g), ElementMap(ElementsUnder(os, g)))
    ensures g !in GuidSet(os) ==> ElementsUnder(os, g) == []
  {
    hide Fold, ElementMap;
    if os == [] {
      NothingWritten(g);
    } else {
      var most, last := os[..|os| - 1], os[|os| - 1];
      assert os == most + [last];
      FoldShows(most, g);
      FoldEndsWith(map[], most, last);
      GuidsOfMore(most, last);
      ElementMapConcat(ElementsUnder(most, g), last.elements);
      ElementMapMore([], Element("", 0, []));
      assert ElementsUnder(most, g) + [] == ElementsUnder(most, g);
      assert map[] + ElementMap(last.elements) == ElementMap(last.elements);
      assert [] + last.elements == last.elements;
    }
  }

  lemma NothingWritten(g: string)
    ensures Fold(map[], []) == map[] && g !in GuidSet([])
  {
  }

  lemma GuidsOfMore(os: seq<Spec>, o: Spec)
    ensures GuidSet(os + [o]) == GuidSet(os) + {o.guid}
  {
    forall g
      ensures g in GuidSet(os + [o]) <==> g in GuidSet(os) + {o.guid}
    {
      if g in GuidSet(os) {
        var i :| 0 <= i < |os| && os[i].guid == g;
        assert (os + [o])[i].guid == g;
      }
      if g == o.guid {
        assert (os + [o])[|os|].guid == g;
      }
    }
  }

  lemma {:induction false} WrittenOnce(os: seq<Spec>, i: nat)
    requires i < |os| && DistinctGuids(os)
    ensures LastType(os, os[i].guid) == Some(os[i].otype) && ElementsUnder(os, os[i].guid) == os[i].elements
  {
    var most, g := os[..|os| - 1], os[i].guid;
    if i == |os| - 1 {
      NeverWritten(most, g);
    } else {
      assert most[i] == os[i];
      WrittenOnce(most, i);
    }
  }

  lemma {:induction false} NeverWritten(os: seq<Spec>, g: string)
    requires forall i :: 0 <= i < |os| ==> os[i].guid != g
    ensures ElementsUnder(os, g) == []
  {
    if os == [] {
    } else {
      NeverWritten(os[..|os| - 1], g);
    }
  }

  lemma GuidsOfRest(os: seq<Spec>)
    requires os != []
    ensures GuidSet(os) == {os[0].guid} + GuidSet(os[1..])
    ensures DistinctGuids(os) ==> os[0].guid !in GuidSet(os[1..]) && DistinctGuids(os[1..])
  {
    forall g | g in GuidSet(os)
      ensures g in {os[0].guid} + GuidSet(os[1..])
    {
      var i :| 0 <= i < |os| && os[i].guid == g;
      if i > 0 {
        assert os[1..][i - 1].guid == g;
      }
    }
  }

  /**
   * The objects collected from a store read back are exactly the GUIDs written,
   * each with the type written last under it and the last element of each id;
   * a GUID written once shows the type and the elements written.
   */
  lemma DumpShowsWhatWasWritten(store: seq<byte>, values: seq<Val>, os: seq<Spec>, fuel: nat)
    requires HoldsTree(store, Stored(StoreKey(values, os))) && fuel >= |store|
    ensures Dump(store, fuel) == Ok(Fold(map[], os))
    ensures Dump(store, fuel).value.Keys == GuidSet(os)
    ensures forall g <- GuidSet(os) ::
              Dump(store, fuel).value[g] == Object(LastType(os, g), ElementMap(ElementsUnder(os, g)))
    ensures DistinctGuids(os) ==> forall i :: 0 <= i < |os| ==> Dump(store, fuel).value[os[i].guid] == ObjectOf(os[i])
  {
    hide *;
    DumpReadsTree(store, Stored(StoreKey(values, os)), fuel);
    StoreCollected(values, os);
    FoldInOrder(os);
    ShownObjects(os);
  }

  lemma ShownObjects(os: seq<Spec>)
    ensures var objs := Fold(map[], os);
            && objs.Keys == GuidSet(os)
            && (forall g <- GuidSet(os) :: objs[g] == Object(LastType(os, g), ElementMap(ElementsUnder(os, g))))
            && (DistinctGuids(os) ==> forall i :: 0 <= i < |os| ==> objs[os[i].guid] == ObjectOf(os[i]))
  {
    hide Fold, ElementMap, DistinctGuids, ElementsUnder, LastType;
    forall g
      ensures g in Fold(map[], os) <==> g in GuidSet(os)
      ensures g in GuidSet(os) ==> Fold(map[], os)[g] == Object(LastType(os, g), ElementMap(ElementsUnder(os, g)))
    {
      FoldShows(os, g);
    }
    if DistinctGuids(os) {
      forall i | 0 <= i < |os|
        ensures Fold(map[], os)[os[i].guid] == ObjectOf(os[i])
      {
        WrittenOnce(os, i);
        assert os[i].guid in GuidSet(os);
      }
    }
  }

  /** A dump shows one object for each written exactly when no two share a GUID. */
  lemma {:induction false} OneObjectEach(os: seq<Spec>)
    ensures |GuidSet(os)| <= |os|
    ensures |GuidSet(os)| == |os| <==> DistinctGuids(os)
  {
    if os == [] {
      assert GuidSet(os) == {};
    } else {
      GuidsOfRest(os);
      OneObjectEach(os[1..]);
      if os[0].guid in GuidSet(os[1..]) {
        assert GuidSet(os) == GuidSet(os[1..]);
        var i :| 0 <= i < |os[1..]| && os[1..][i].guid == os[0].guid;
        assert os[i + 1].guid == os[0].guid;
      } else if DistinctGuids(os[1..]) {
        forall i, j | 0 <= i < j < |os|
          ensures os[i].guid != os[j].guid
        {
          assert os[j] == os[1..][j - 1];
          assert os[1..][j - 1].guid in GuidSet(os[1..]);
          if i > 0 {
            assert os[i] == os[1..][i - 1];
          }
        }
      } else {
        var i, j :| 0 <= i < j < |os[1..]| && os[1..][i].guid == os[1..][j].guid;
        assert os[i + 1].guid == os[j + 1].guid;
      }
    }
  }
}
