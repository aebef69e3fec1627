/** Dumping a store that another program wrote: what is collected follows from the keys and values in its bytes. */
module BcdForeign {
  import opened Bytes
  import opened Text
  import opened HiveReader
  import opened HiveForeign
  import opened BcdDump

  /** The keys of a tree with the names that lead to each, the root's own left out. */
  function PartsVisits(t: Tree, parts: seq<string>): seq<Visit<seq<string>>> {
    [Visit(t.at, parts, t.nk)] + PartsVisitsOf(t.kids, parts)
  }

  function PartsVisitsOf(ts: seq<Tree>, parts: seq<string>): seq<Visit<seq<string>>> {
    if ts == [] then [] else PartsVisits(ts[0], parts + [ts[0].nk.name]) + PartsVisitsOf(ts[1..], parts)
  }

  lemma {:induction false} PartsWalk(d: seq<byte>, t: Tree, parts: seq<string>, fuel: nat)
    requires TreeStands(d, t) && fuel >= Height(t)
    ensures WalkParts(d, t.at, parts, fuel) == Ok(PartsVisits(t, parts))
    decreases t, 1
  {
    hide KeyStands, ListStands, ReadNk, SubkeyOffsets, Depth, Keys;
    SubkeysOf(d, t, fuel);
    PartsWalks(d, t.kids, parts, fuel - 1);
  }

  lemma {:induction false} PartsWalks(d: seq<byte>, ts: seq<Tree>, parts: seq<string>, fuel: nat)
    requires (forall i :: 0 <= i < |ts| ==> TreeStands(d, ts[i])) && fuel >= HeightOf(ts)
    ensures WalkPartsEach(d, Ats(ts), parts, fuel) == Ok(PartsVisitsOf(ts, parts))
    decreases ts, 0
  {
    hide WalkParts, PartsVisits, Height, KeyStands, ListStands, ReadNk, SubkeyOffsets, Depth, Keys;
    if ts != [] {
      SubkeysOf(d, ts[0], Height(ts[0]));
      PartsWalk(d, ts[0], parts + [ts[0].nk.name], fuel);
      PartsWalks(d, ts[1..], parts, fuel);
      assert Ats(ts)[1..] == Ats(ts[1..]);
    }
  }

  /** A hive file: its signature, and at 0x24 the offset of its root. */
  ghost predicate FileStands(d: seq<byte>, t: Tree) {
    && |d| >= 0x28 && d[0] == 'r' as int && d[1] == 'e' as int && d[2] == 'g' as int && d[3] == 'f' as int
    && U32At(d, 0x24) == t.at && TreeStands(d, t)
  }

  lemma RootReads(d: seq<byte>)
    ensures RootOffset(d).Ok?
            <==> |d| >= 0x28 && d[0] == 'r' as int && d[1] == 'e' as int && d[2] == 'g' as int && d[3] == 'f' as int
    ensures RootOffset(d).Ok? ==> RootOffset(d).value == U32At(d, 0x24)
  {
    hide U32At;
    if |d| >= 4 {
      assert d[0..4] == [d[0], d[1], d[2], d[3]];
    }
  }

  /** The dump of such a file collects the keys of its tree in the order of their lists. */
  lemma ForeignDump(d: seq<byte>, t: Tree, fuel: nat)
    requires FileStands(d, t) && fuel >= Height(t)
    ensures Dump(d, fuel) == Steps(d, PartsVisits(t, []))
  {
    hide RootOffset, WalkParts, TreeStands, Steps, PartsVisits, Height, U32At;
    RootReads(d);
    PartsWalk(d, t, [], fuel);
  }

  /**
   * The type of an object from a value inside its cell, as Windows stores it:
   * the last value called Type with its four bytes in the data field.
   */
  lemma InlineType(d: seq<byte>, list: nat, before: seq<ReadValue>, last: ReadValue, o: Object)
    requires ValuesStand(d, list, before + [last]) && last.name == "Type" && |last.raw| == 4
    ensures ValuesOf(d, |before| + 1, list) == Ok(before + [last])
    ensures TypeFrom(o, before + [last]).otype == Some(U32At(last.raw, 0))
  {
    hide ValuesStand, ValuesOf;
    ValuesRead(d, list, before + [last]);
    assert (before + [last])[..|before|] == before;
  }
}
