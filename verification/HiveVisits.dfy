/** The walk of a store the writer built meets every key of the tree exactly once. */
module HiveVisits {
  import opened Bytes
  import opened HiveCells
  import opened HiveTree
  import opened HiveReader
  import opened HiveRoundTrip

  /** The offsets of a tree's keys, in the order of the walk. */
  ghost function Under(heap: map<int, Cell>, at: nat, t: Key): seq<nat>
    requires HoldsKey(heap, at, t)
    decreases at + 1, 0
  {
    [at] + UnderEach(heap, EntryOffsets(Kids(heap, at)), t.subkeys, at)
  }

  ghost function UnderEach(heap: map<int, Cell>, offs: seq<nat>, ts: seq<Key>, bound: nat): seq<nat>
    requires |offs| == |ts| && forall i :: 0 <= i < |ts| ==> offs[i] < bound && HoldsKey(heap, offs[i], ts[i])
    decreases bound, |offs|
  {
    if offs == [] then [] else Under(heap, offs[0], ts[0]) + UnderEach(heap, offs[1..], ts[1..], bound)
  }

  /** Climbing parent pointers from x, the last key below p. */
  ghost function Top(heap: map<int, Cell>, x: int, p: int): int
    decreases p - x
  {
    if x in heap && heap[x].KeyNode? && x < heap[x].parent < p then Top(heap, heap[x].parent, p) else x
  }

  /** Every key under `at` climbs to `at`, and none lies above it. */
  lemma {:induction false} ClimbsTo(heap: map<int, Cell>, loose: set<int>, at: nat, t: Key, x: nat, p: nat)
    requires Linked(heap, loose) && HoldsKey(heap, at, t) && x in Under(heap, at, t) && at < p
    ensures x <= at && Top(heap, x, p) == Top(heap, at, p)
    decreases at + 1, 0
  {
    if x != at {
      hide HoldsKey, Kids;
      var offs := EntryOffsets(Kids(heap, at));
      assert x in UnderEach(heap, offs, t.subkeys, at);
      var i := FindChild(heap, offs, t.subkeys, at, x);
      assert LinkedChild(heap, at, i);
      ClimbsTo(heap, loose, offs[i], t.subkeys[i], x, p);
    }
  }

  lemma {:induction false} FindChild(heap: map<int, Cell>, offs: seq<nat>, ts: seq<Key>, bound: nat, x: nat)
    returns (i: nat)
    requires |offs| == |ts| && forall j :: 0 <= j < |ts| ==> offs[j] < bound && HoldsKey(heap, offs[j], ts[j])
    requires x in UnderEach(heap, offs, ts, bound)
    ensures i < |offs| && x in Under(heap, offs[i], ts[i])
    decreases |offs|
  {
    hide HoldsKey, Under;
    if x in Under(heap, offs[0], ts[0]) {
      i := 0;
    } else {
      i := FindChild(heap, offs[1..], ts[1..], bound, x);
      i := i + 1;
    }
  }

  ghost predicate Distinct(xs: seq<nat>) {
    forall i, j :: 0 <= i < j < |xs| ==> xs[i] != xs[j]
  }

  lemma DistinctConcat(xs: seq<nat>, ys: seq<nat>)
    requires Distinct(xs) && Distinct(ys) && forall x :: x in xs ==> x !in ys
    ensures Distinct(xs + ys)
  {
    forall i, j | 0 <= i < j < |xs + ys|
      ensures (xs + ys)[i] != (xs + ys)[j]
    {
      if i < |xs| <= j {
        assert xs[i] in xs && ys[j - |xs|] in ys;
      }
    }
  }

  /** The offsets under a key are pairwise distinct: no key is met twice. */
  lemma {:induction false} UnderIsDistinct(heap: map<int, Cell>, loose: set<int>, at: nat, t: Key)
    requires Linked(heap, loose) && HoldsKey(heap, at, t)
    ensures Distinct(Under(heap, at, t))
    decreases at + 1, 0
  {
    var offs := EntryOffsets(Kids(heap, at));
    forall i | 0 <= i < |offs|
      ensures Top(heap, offs[i], at) == offs[i]
    {
      assert LinkedChild(heap, at, i);
    }
    assert Distinct(offs) by {
      forall i, j | 0 <= i < j < |offs|
        ensures offs[i] != offs[j]
      {
        assert LinkedChild(heap, at, i);
      }
    }
    UnderEachIsDistinct(heap, loose, offs, t.subkeys, at);
    var rest := UnderEach(heap, offs, t.subkeys, at);
    if at in rest {
      var i := FindChild(heap, offs, t.subkeys, at, at);
      ClimbsTo(heap, loose, offs[i], t.subkeys[i], at, at);
    }
    DistinctConcat([at], rest);
  }

  lemma {:induction false} UnderEachIsDistinct(heap: map<int, Cell>, loose: set<int>, offs: seq<nat>, ts: seq<Key>,
                                               p: nat)
    requires Linked(heap, loose)
    requires |offs| == |ts| && forall i :: 0 <= i < |ts| ==> offs[i] < p && HoldsKey(heap, offs[i], ts[i])
    requires Distinct(offs) && forall i :: 0 <= i < |offs| ==> Top(heap, offs[i], p) == offs[i]
    ensures Distinct(UnderEach(heap, offs, ts, p))
    decreases p, |offs|
  {
    hide HoldsKey, Linked, Top;
    if offs == [] {
    } else {
      var first, rest := Under(heap, offs[0], ts[0]), UnderEach(heap, offs[1..], ts[1..], p);
      UnderIsDistinct(heap, loose, offs[0], ts[0]);
      UnderEachIsDistinct(heap, loose, offs[1..], ts[1..], p);
      forall x | x in first
        ensures x !in rest
      {
        if x in rest {
          var i := FindChild(heap, offs[1..], ts[1..], p, x);
          ClimbsTo(heap, loose, offs[0], ts[0], x, p);
          ClimbsTo(heap, loose, offs[i + 1], ts[i + 1], x, p);
        }
      }
      DistinctConcat(first, rest);
    }
  }

  // ---- the walk's own offsets ----

  function VisitOffsets<P>(visits: seq<Visit<P>>): (r: seq<nat>)
    ensures |r| == |visits| && forall i :: 0 <= i < |r| ==> r[i] == visits[i].at
  {
    seq(|visits|, i requires 0 <= i < |visits| => visits[i].at)
  }

  lemma {:induction false} WalkOffsets(d: seq<byte>, heap: map<int, Cell>, at: nat, t: Key, path: string, fuel: nat)
    requires InFile(d, heap) && HoldsKey(heap, at, t) && fuel > at
    ensures Walk(d, at, path, fuel).Ok? && VisitOffsets(Walk(d, at, path, fuel).value) == Under(heap, at, t)
    decreases fuel, 0
  {
    hide InFile, HoldsKey, SubkeyOffsets, ReadNk, Kids, ValuesOf;
    KeyReads(d, heap, at, t, fuel);
    WalkEachOffsets(d, heap, EntryOffsets(Kids(heap, at)), t.subkeys, JoinPath(path, t.name), fuel - 1, at);
  }

  lemma {:induction false} WalkEachOffsets(d: seq<byte>, heap: map<int, Cell>, offs: seq<nat>, ts: seq<Key>,
                                           path: string, fuel: nat, bound: nat)
    requires InFile(d, heap) && |offs| == |ts| && bound <= fuel
    requires forall i :: 0 <= i < |ts| ==> offs[i] < bound && HoldsKey(heap, offs[i], ts[i])
    ensures WalkEach(d, offs, path, fuel).Ok?
    ensures VisitOffsets(WalkEach(d, offs, path, fuel).value) == UnderEach(heap, offs, ts, bound)
    decreases fuel, |offs| + 1
  {
    hide InFile, HoldsKey, Walk, Under;
    if ts == [] {
    } else {
      WalkOffsets(d, heap, offs[0], ts[0], path, fuel);
      WalkEachOffsets(d, heap, offs[1..], ts[1..], path, fuel, bound);
      var a, b := Walk(d, offs[0], path, fuel).value, WalkEach(d, offs[1..], path, fuel).value;
      assert VisitOffsets(a + b) == VisitOffsets(a) + VisitOffsets(b);
    }
  }

  /** Hive.walk ends, yields the keys of the tree parents first, and meets no key cell twice. */
  lemma WalkMeetsEachKeyOnce(d: seq<byte>, heap: map<int, Cell>, loose: set<int>, at: nat, t: Key, path: string,
                             fuel: nat)
    requires InFile(d, heap) && Linked(heap, loose) && HoldsKey(heap, at, t) && fuel > at
    ensures Walk(d, at, path, fuel).Ok?
    ensures Lists(d, Walk(d, at, path, fuel).value, Preorder(t, path))
    ensures Distinct(VisitOffsets(Walk(d, at, path, fuel).value))
  {
    hide *;
    WalkReads(d, heap, at, t, path, fuel);
    WalkOffsets(d, heap, at, t, path, fuel);
    UnderIsDistinct(heap, loose, at, t);
  }
}
