/** dumpbcd.py: walks a store and collects its BCD objects. */
module BcdDump {
  import opened Bytes
  import opened Text
  import opened HiveCells
  import opened HiveTree
  import opened HiveReader
  import opened HiveRoundTrip
  import opened TreeStore

  // ---- the walk, with paths as lists of names below the root ----

  function WalkParts(d: seq<byte>, off: nat, parts: seq<string>, fuel: nat): Read<seq<Visit<seq<string>>>>
    decreases fuel, 0
  {
    if fuel == 0 then OutOfFuel
    else
      var nk :- ReadNk(d, off);
      var offs :- SubkeyOffsets(d, nk.subkeys, nk.leaf, fuel);
      var below :- WalkPartsEach(d, offs, parts, fuel - 1);
      Ok([Visit(off, parts, nk)] + below)
  }

  function WalkPartsEach(d: seq<byte>, offs: seq<nat>, parts: seq<string>, fuel: nat): Read<seq<Visit<seq<string>>>>
    decreases fuel, |offs| + 1
  {
    if offs == [] then Ok([])
    else
      var child :- ReadNk(d, offs[0]);
      var first :- WalkParts(d, offs[0], parts + [child.name], fuel);
      var rest :- WalkPartsEach(d, offs[1..], parts, fuel);
      Ok(first + rest)
  }

  function PreorderParts(t: Key, parts: seq<string>): seq<(seq<string>, Key)> {
    [(parts, t)] + PreorderPartsEach(t.subkeys, parts)
  }

  function PreorderPartsEach(ts: seq<Key>, parts: seq<string>): seq<(seq<string>, Key)> {
    if ts == [] then [] else PreorderParts(ts[0], parts + [ts[0].name]) + PreorderPartsEach(ts[1..], parts)
  }

  lemma {:induction false} WalkPartsReads(d: seq<byte>, heap: map<int, Cell>, at: nat, t: Key, parts: seq<string>,
                                          fuel: nat)
    requires InFile(d, heap) && HoldsKey(heap, at, t) && fuel > at
    ensures WalkParts(d, at, parts, fuel).Ok?
    ensures Lists(d, WalkParts(d, at, parts, fuel).value, PreorderParts(t, parts))
    decreases fuel, 0
  {
    hide InFile, HoldsKey, SubkeyOffsets, ReadNk, Kids, ValuesOf;
    KeyReads(d, heap, at, t, fuel);
    WalkPartsEachReads(d, heap, EntryOffsets(Kids(heap, at)), t.subkeys, parts, fuel - 1);
  }

  lemma {:induction false} WalkPartsEachReads(d: seq<byte>, heap: map<int, Cell>, offs: seq<nat>, ts: seq<Key>,
                                              parts: seq<string>, fuel: nat)
    requires InFile(d, heap) && |offs| == |ts|
    requires forall i :: 0 <= i < |ts| ==> offs[i] < fuel && HoldsKey(heap, offs[i], ts[i])
    ensures WalkPartsEach(d, offs, parts, fuel).Ok?
    ensures Lists(d, WalkPartsEach(d, offs, parts, fuel).value, PreorderPartsEach(ts, parts))
    decreases fuel, |offs| + 1
  {
    hide InFile, HoldsKey, WalkParts, ReadNk, ValuesOf;
    if ts == [] {
    } else {
      KeyReads(d, heap, offs[0], ts[0], fuel);
      WalkPartsReads(d, heap, offs[0], ts[0], parts + [ts[0].name], fuel);
      WalkPartsEachReads(d, heap, offs[1..], ts[1..], parts, fuel);
    }
  }

  // ---- collecting objects ----

  datatype Object = Object(otype: Option<nat>, elems: map<string, (nat, seq<byte>)>)

  function TypeFrom(o: Object, vs: seq<ReadValue>): Object {
    if vs == [] then o
    else
      var before := TypeFrom(o, vs[..|vs| - 1]);
      var v := vs[|vs| - 1];
      if v.name == "Type" && |v.raw| == 4 then before.(otype := Some(U32At(v.raw, 0))) else before
  }

  function ElementFrom(o: Object, id: string, vs: seq<ReadValue>): Object {
    if vs == [] then o
    else
      var before := ElementFrom(o, id, vs[..|vs| - 1]);
      var v := vs[|vs| - 1];
      if v.name == "Element" then before.(elems := before.elems[id := (v.vtype, v.raw)]) else before
  }

  /** What is known of an object, nothing at first. */
  function Known(objs: map<string, Object>, g: string): Object {
    if g in objs then objs[g] else Object(None, map[])
  }

  predicate InObject(parts: seq<string>) {
    |parts| >= 2 && parts[0] == "Objects"
  }

  predicate IsDescription(parts: seq<string>) {
    |parts| == 3 && parts[2] == "Description"
  }

  predicate IsElement(parts: seq<string>) {
    |parts| == 4 && parts[2] == "Elements"
  }

  /** One turn of the collecting loop, reading values only where the source does. */
  function Step(d: seq<byte>, objs: map<string, Object>, parts: seq<string>, nk: Nk): Read<map<string, Object>> {
    if !InObject(parts) then Ok(objs)
    else
      var g := parts[1];
      if IsDescription(parts) then
        var vs :- ValuesOf(d, nk.values, nk.list);
        Ok(objs[g := TypeFrom(Known(objs, g), vs)])
      else if IsElement(parts) then
        var vs :- ValuesOf(d, nk.values, nk.list);
        Ok(objs[g := ElementFrom(Known(objs, g), parts[3], vs)])
      else Ok(objs[g := Known(objs, g)])
  }

  function Steps(d: seq<byte>, visits: seq<Visit<seq<string>>>): Read<map<string, Object>> {
    if visits == [] then Ok(map[])
    else
      var objs :- Steps(d, visits[..|visits| - 1]);
      var last := visits[|visits| - 1];
      Step(d, objs, last.path, last.nk)
  }

  /** All of dumpbcd.py up to the printing. */
  function Dump(d: seq<byte>, fuel: nat): Read<map<string, Object>> {
    var root :- RootOffset(d);
    var visits :- WalkParts(d, root, [], fuel);
    Steps(d, visits)
  }

  // ---- what the collecting does, path by path ----

  predicate IsType(v: ReadValue) {
    v.name == "Type" && |v.raw| == 4
  }

  /** Of the values called Type with four bytes the last one counts, low byte first; nothing else does. */
  lemma {:induction false} TypeMeans(o: Object, vs: seq<ReadValue>, k: nat)
    ensures TypeFrom(o, vs).elems == o.elems
    ensures (forall i :: 0 <= i < |vs| ==> !IsType(vs[i])) ==> TypeFrom(o, vs) == o
    ensures k < |vs| && IsType(vs[k]) && (forall i :: k < i < |vs| ==> !IsType(vs[i])) ==>
              var b := vs[k].raw;
              TypeFrom(o, vs).otype
              == Some(b[0] as int + 0x100 * (b[1] as int) + 0x1_0000 * (b[2] as int) + 0x100_0000 * (b[3] as int))
  {
    if vs != [] {
      var n := |vs| - 1;
      TypeMeans(o, vs[..n], k);
      assert IsType(vs[n]) || !IsType(vs[n]);
    }
  }

  /** Of the values called Element the last one counts, under this id alone. */
  lemma {:induction false} ElementMeans(o: Object, id: string, vs: seq<ReadValue>, k: nat, other: string)
    ensures var r := ElementFrom(o, id, vs);
            && r.otype == o.otype
            && (other != id ==> (other in r.elems <==> other in o.elems)
                                && (other in o.elems ==> r.elems[other] == o.elems[other]))
            && ((forall i :: 0 <= i < |vs| ==> vs[i].name != "Element") ==> r == o)
            && (k < |vs| && vs[k].name == "Element" && (forall i :: k < i < |vs| ==> vs[i].name != "Element") ==>
                  id in r.elems && r.elems[id] == (vs[k].vtype, vs[k].raw))
  {
    if vs != [] {
      ElementMeans(o, id, vs[..|vs| - 1], k, other);
    }
  }

  /** What an object is before the key at this path has been looked at. */
  function KnownBefore(objs: map<string, Object>, g: string): Object {
    if g in objs then objs[g] else Object(None, map[])
  }

  /**
   * A key outside Objects changes nothing. One below an object's key brings the
   * object up; its type comes from the key Objects\g\Description alone, and an
   * element from a key Objects\g\Elements\id alone.
   */
  lemma StepMeans(d: seq<byte>, objs: map<string, Object>, parts: seq<string>, nk: Nk)
    requires Step(d, objs, parts, nk).Ok?
    ensures var r := Step(d, objs, parts, nk).value;
            if |parts| < 2 || parts[0] != "Objects" then r == objs
            else
              var g := parts[1];
              && r.Keys == objs.Keys + {g} && (forall h <- objs :: h != g ==> r[h] == objs[h])
              && (parts != ["Objects", g, "Description"] ==> r[g].otype == KnownBefore(objs, g).otype)
              && (parts == ["Objects", g, "Description"] ==>
                    ValuesOf(d, nk.values, nk.list).Ok?
                    && r[g] == TypeFrom(KnownBefore(objs, g), ValuesOf(d, nk.values, nk.list).value))
              && ((|parts| != 4 || parts[2] != "Elements") ==> r[g].elems == KnownBefore(objs, g).elems)
              && (|parts| == 4 && parts[2] == "Elements" ==>
                    ValuesOf(d, nk.values, nk.list).Ok?
                    && r[g] == ElementFrom(KnownBefore(objs, g), parts[3], ValuesOf(d, nk.values, nk.list).value))
  {
    hide ValuesOf, TypeFrom, ElementFrom;
    if InObject(parts) {
      var g := parts[1];
      if IsDescription(parts) {
        var vs := ValuesOf(d, nk.values, nk.list).value;
        TypeMeans(Known(objs, g), vs, 0);
        assert parts == ["Objects", g, "Description"];
      } else if IsElement(parts) {
        var vs := ValuesOf(d, nk.values, nk.list).value;
        ElementMeans(Known(objs, g), parts[3], vs, 0, "");
      }
    }
  }

  /** The objects dumped are those whose key, or a key below it, the walk has met. */
  lemma {:induction false} StepsKeys(d: seq<byte>, visits: seq<Visit<seq<string>>>, g: string)
    requires Steps(d, visits).Ok?
    ensures g in Steps(d, visits).value
            <==> exists i :: 0 <= i < |visits| && IsBelow(visits[i].path, g)
  {
    hide Step;
    if visits != [] {
      var n := |visits| - 1;
      StepsKeys(d, visits[..n], g);
      StepMeans(d, Steps(d, visits[..n]).value, visits[n].path, visits[n].nk);
      assert IsBelow(visits[n].path, g) || !IsBelow(visits[n].path, g);
      if i :| 0 <= i < |visits[..n]| && IsBelow(visits[..n][i].path, g) {
        assert IsBelow(visits[i].path, g);
      }
      if i :| 0 <= i < n && IsBelow(visits[i].path, g) {
        assert IsBelow(visits[..n][i].path, g);
      }
    }
  }

  predicate IsBelow(path: seq<string>, g: string) {
    |path| >= 2 && path[0] == "Objects" && path[1] == g
  }

  lemma {:induction false} StepsStop(d: seq<byte>, visits: seq<Visit<seq<string>>>, i: nat)
    requires i < |visits| && Steps(d, visits[..i]).Ok? && !Steps(d, visits[..i + 1]).Ok?
    ensures Steps(d, visits) == Steps(d, visits[..i + 1])
    decreases |visits|
  {
    hide Step;
    if i + 1 < |visits| {
      var most := visits[..|visits| - 1];
      assert most[..i] == visits[..i] && most[..i + 1] == visits[..i + 1];
      StepsStop(d, most, i);
    } else {
      assert visits[..i + 1] == visits;
    }
  }

  /** The module's loop: it fills the dictionary of objects as the walk goes. */
  method Collect(d: seq<byte>, fuel: nat) returns (r: Read<map<string, Object>>)
    ensures r == Dump(d, fuel)
  {
    hide WalkParts, Step, RootOffset;
    var root := RootOffset(d);
    if !root.Ok? {
      return root.PropagateFailure();
    }
    var walk := WalkParts(d, root.value, [], fuel);
    if !walk.Ok? {
      return walk.PropagateFailure();
    }
    var visits := walk.value;
    var objs := map[];
    var i := 0;
    while i < |visits|
      invariant 0 <= i <= |visits| && Steps(d, visits[..i]) == Ok(objs)
    {
      assert visits[..i + 1][..i] == visits[..i];
      var next := CollectOne(d, objs, visits[i].path, visits[i].nk);
      if !next.Ok? {
        StepsStop(d, visits, i);
        return next;
      }
      objs := next.value;
      i := i + 1;
    }
    assert visits[..i] == visits;
    return Ok(objs);
  }

  method CollectOne(d: seq<byte>, objs: map<string, Object>, parts: seq<string>, nk: Nk)
    returns (r: Read<map<string, Object>>)
    ensures r == Step(d, objs, parts, nk)
  {
    hide ValuesOf;
    if |parts| < 2 || parts[0] != "Objects" {
      return Ok(objs);
    }
    var g := parts[1];
    var o := Known(objs, g);
    if |parts| == 3 && parts[2] == "Description" {
      var read := Values(d, nk);
      if !read.Ok? {
        return read.PropagateFailure();
      }
      var vs := read.value;
      var i := 0;
      while i < |vs|
        invariant 0 <= i <= |vs| && o == TypeFrom(Known(objs, g), vs[..i])
      {
        assert vs[..i + 1][..i] == vs[..i];
        if vs[i].name == "Type" && |vs[i].raw| == 4 {
          o := o.(otype := Some(U32At(vs[i].raw, 0)));
        }
        i := i + 1;
      }
      assert vs[..i] == vs;
    }
    if |parts| == 4 && parts[2] == "Elements" {
      var read := Values(d, nk);
      if !read.Ok? {
        return read.PropagateFailure();
      }
      var vs := read.value;
      var i := 0;
      while i < |vs|
        invariant 0 <= i <= |vs| && o == ElementFrom(Known(objs, g), parts[3], vs[..i])
      {
        assert vs[..i + 1][..i] == vs[..i];
        if vs[i].name == "Element" {
          o := o.(elems := o.elems[parts[3] := (vs[i].vtype, vs[i].raw)]);
        }
        i := i + 1;
      }
      assert vs[..i] == vs;
    }
    return Ok(objs[g := o]);
  }

  // ---- the same loop over the keys of a tree ----

  function KeyStep(objs: map<string, Object>, parts: seq<string>, t: Key): map<string, Object> {
    if !InObject(parts) then objs
    else
      var g := parts[1];
      if IsDescription(parts) then objs[g := TypeFrom(Known(objs, g), ReadBackAll(t.values))]
      else if IsElement(parts) then objs[g := ElementFrom(Known(objs, g), parts[3], ReadBackAll(t.values))]
      else objs[g := Known(objs, g)]
  }

  function KeySteps(objs: map<string, Object>, items: seq<(seq<string>, Key)>): map<string, Object> {
    if items == [] then objs
    else
      var last := items[|items| - 1];
      KeyStep(KeySteps(objs, items[..|items| - 1]), last.0, last.1)
  }

  lemma {:induction false} StepsReadKeys(d: seq<byte>, visits: seq<Visit<seq<string>>>, items: seq<(seq<string>, Key)>)
    requires Lists(d, visits, items)
    ensures Steps(d, visits) == Ok(KeySteps(map[], items))
  {
    hide TypeFrom, ElementFrom, ValuesOf;
    if items == [] {
    } else {
      var n := |items| - 1;
      StepsReadKeys(d, visits[..n], items[..n]);
      assert Shows(d, visits[n].nk, items[n].1);
    }
  }

  /** Dumping a store collects what its tree says, whatever the depth bound once it covers the file. */
  lemma DumpReadsTree(store: seq<byte>, t: Key, fuel: nat)
    requires HoldsTree(store, t) && fuel >= |store|
    ensures Dump(store, fuel) == Ok(KeySteps(map[], PreorderParts(t, [])))
  {
    hide InFile, HoldsKey, WalkParts, Steps, KeySteps, PreorderParts, Lists, RootOffset;
    var root := RootOffset(store).value;
    var heap :| InFile(store, heap) && HoldsKey(heap, root, t);
    WalkPartsReads(store, heap, root, t, [], fuel);
    StepsReadKeys(store, WalkParts(store, root, [], fuel).value, PreorderParts(t, []));
  }
}
