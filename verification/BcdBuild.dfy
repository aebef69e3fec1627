/** build_bcd and mkbcd.build: a whole BCD store written through HiveWriter. */
module BcdBuild {
  import opened Bytes
  import opened Text
  import opened CellHeap
  import opened HiveCells
  import opened HiveTree
  import opened HiveFile
  import opened WriterState
  import opened HiveWriting
  import opened TreeStore
  import opened StoreBytes
  import opened Bcd

  /** The store fits: every name encodes and the padded cells stay below 4 GiB. */
  predicate StoreFits(values: seq<Val>, os: seq<Spec>) {
    Writable(StoreKey(values, os)) && HBIN_HEADER + SECURITY_COST + TreeCost(StoreKey(values, os)) <= MAX_BUF
  }

  lemma StorePartsFit(values: seq<Val>, os: seq<Spec>)
    requires StoreFits(values, os)
    ensures Writable(Key("Description", values, [])) && |os| < U16_LIMIT
    ensures forall i :: 0 <= i < |os| ==> Writable(ObjectKeys(os)[i])
    ensures IsName("Objects") && IsName("System")
    ensures TreeCost(StoreKey(values, os))
            == TreesCost(ObjectKeys(os)) + TreeCost(Key("Description", values, []))
               + KeyCost("Objects", |os|, 0) + KeyCost("System", 2, 0)
  {
    hide KeyCost, ValuesCost, IsName, ObjectKey, WritableValue;
    var desc, objects := Key("Description", values, []), Key("Objects", [], ObjectKeys(os));
    var kids := [desc, objects];
    assert StoreKey(values, os).subkeys == kids;
    assert Writable(kids[0]) && Writable(kids[1]);
    TwoTreesCost(desc, objects);
    CostOfKey(objects);
    CostOfKey(StoreKey(values, os));
  }

  lemma TwoTreesCost(a: Key, b: Key)
    ensures TreesCost([a, b]) == TreeCost(a) + TreeCost(b)
  {
    hide TreeCost;
    assert [a, b][..1] == [a] && [a][..0] == [];
    assert TreesCost([a]) == TreeCost(a);
  }

  lemma CostOfKey(t: Key)
    ensures TreeCost(t) == TreesCost(t.subkeys) + ValuesCost(t.values) + KeyCost(t.name, |t.subkeys|, |t.values|)
    ensures ValuesCost([]) == 0
  {
  }

  lemma StoredStore(values: seq<Val>, os: seq<Spec>, desc: Key, objects: Key)
    requires desc == Stored(Key("Description", values, []))
    requires objects == Key("Objects", [], Arrange(StoredEach(ObjectKeys(os))))
    ensures Key("System", [], Arrange([desc, objects])) == Stored(StoreKey(values, os))
  {
    hide Arrange, ObjectKeys;
    assert StoredEach(StoreKey(values, os).subkeys) == [desc, objects];
  }

  /**
   * Objects first, each with its Description and Elements, then the store's own
   * Description, the Objects key and the root, as both callers write them.
   */
  method BuildStore(values: seq<Val>, os: seq<Spec>) returns (store: seq<byte>)
    requires StoreFits(values, os)
    ensures ReadsBackAs(store, Stored(StoreKey(values, os))) && HoldsTree(store, Stored(StoreKey(values, os)))
    ensures StandsWhole(store, "BCD", Stored(StoreKey(values, os)))
  {
    hide Sound, KeyCost, TreeCost, TreesCost, Writable, IsName, Arrange, Stored, StoredEach, IsStore, ReadsBackAs,
      HoldsTree, SECURITY_COST, ObjectKeys, Secured, HeaderStands, BinStands, StandsWhole;
    var w := new HiveWriter("BCD");
    var security, desc, all := BuildBranches(w, values, os);
    StorePartsFit(values, os);
    assert TreesAt(w.trees, [desc, all]) == [w.trees[desc.at], w.trees[all.at]];
    StoredStore(values, os, w.trees[desc.at], w.trees[all.at]);
    var root := AddKey(w, "System", security, [desc, all], [], true);
    store := w.Serialise(root.at);
    StoreReadsBack(store, w.buf, w.heap, w.trees, w.vals, w.loose, root.at);
    StoreHoldsTree(store, w.buf, w.heap, w.trees, w.vals, w.loose, root.at);
    StoreStandsWhole(store, w.hiveName, w.buf, w.heap, w.trees, w.vals, w.loose, root.at, security);
  }

  /** The two branches below the root: the store's own Description, and the objects. */
  method BuildBranches(w: HiveWriter, values: seq<Val>, os: seq<Spec>)
    returns (security: nat, desc: KeyRef, objects: KeyRef)
    requires StoreFits(values, os) && w.Valid() && |w.buf| == HBIN_HEADER && w.trees == map[] && w.loose == {}
    requires w.heap == map[]
    modifies w
    ensures w.Valid() && security < U32_LIMIT && Secured(w.heap, security, -1) && w.hiveName == old(w.hiveName)
    ensures ChildrenAreLoose(w.trees, w.loose, [desc, objects]) && desc.at in w.trees && objects.at in w.trees
    ensures w.trees[desc.at] == Stored(Key("Description", values, []))
    ensures w.trees[objects.at] == Key("Objects", [], Arrange(StoredEach(ObjectKeys(os))))
    ensures |w.buf| + KeyCost("System", 2, 0) <= MAX_BUF
  {
    hide Sound, KeyCost, TreeCost, TreesCost, Writable, IsName, Arrange, Stored, StoredEach, ObjectKeys,
      SECURITY_COST, Secured, SecurityDescriptor;
    StorePartsFit(values, os);
    security := w.Security();
    FirstSecured(security);
    var each := WriteTrees(w, ObjectKeys(os), security);
    desc := WriteTree(w, Key("Description", values, []), security, false);
    assert TreesAt(w.trees, each) == StoredEach(ObjectKeys(os));
    objects := AddKey(w, "Objects", security, each, [], false);
  }
}
