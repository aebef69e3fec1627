/**
 * A growing buffer cut into cells, as HiveWriter.alloc and _patch see it: a
 * 4-byte size, a payload and padding, one cell after another from byte 32.
 */
module CellHeap {
  import opened Bytes

  const HBIN_HEADER := 32
  const MAX_PAYLOAD := I32_LIMIT - 4

  /** The size field and the payload, rounded up to eight bytes. */
  function CellSize(n: nat): (r: nat)
    ensures r % 8 == 0 && n + 4 <= r < n + 12
  {
    (4 + n + 7) / 8 * 8
  }

  function CellBytes(payload: seq<byte>): (r: seq<byte>)
    requires |payload| <= MAX_PAYLOAD
    ensures |r| == CellSize(|payload|)
    ensures r[4..4 + |payload|] == payload
  {
    var size := CellSize(|payload|);
    // the size in two's complement, negative for a cell in use
    Le32(U32_LIMIT - size) + payload + Zeros(size - 4 - |payload|)
  }

  ghost predicate HoldsCell(buf: seq<byte>, at: int, payload: seq<byte>) {
    && 0 <= at && |payload| <= MAX_PAYLOAD
    && at + CellSize(|payload|) <= |buf|
    && buf[at..at + CellSize(|payload|)] == CellBytes(payload)
  }

  /** The cell at `a` ends where another starts, or at the end. */
  ghost predicate Followed(cells: map<int, seq<byte>>, a: int, end: nat)
    requires a in cells
  {
    var next := a + CellSize(|cells[a]|);
    next == end || next in cells
  }

  ghost predicate Chained(cells: map<int, seq<byte>>, end: nat) {
    && (end == HBIN_HEADER || HBIN_HEADER in cells)
    && (forall a {:trigger Followed(cells, a, end)} :: a in cells ==> Followed(cells, a, end))
  }

  ghost predicate Aligned(cells: map<int, seq<byte>>) {
    forall a :: a in cells ==> HBIN_HEADER <= a && a % 8 == 0
  }

  ghost predicate Disjoint(cells: map<int, seq<byte>>) {
    forall a, b :: a in cells && b in cells && a < b ==> a + CellSize(|cells[a]|) <= b
  }

  /** The cells run from byte 32 to `end` without a gap or an overlap, 8-byte aligned. */
  ghost predicate Tiled(cells: map<int, seq<byte>>, end: nat) {
    end % 8 == 0 && Chained(cells, end) && Aligned(cells) && Disjoint(cells)
  }

  /**
   * The heap invariant: past the reserved header, the buffer is exactly the
   * given cells, each at its offset.
   */
  ghost predicate Tiles(buf: seq<byte>, cells: map<int, seq<byte>>) {
    && |buf| >= HBIN_HEADER
    && (forall a :: a in cells ==> HoldsCell(buf, a, cells[a]))
    && Tiled(cells, |buf|)
  }

  /** alloc() appends one cell at the old end of the buffer and disturbs none. */
  lemma AllocKeepsTiles(buf: seq<byte>, cells: map<int, seq<byte>>, payload: seq<byte>)
    requires Tiles(buf, cells) && |payload| <= MAX_PAYLOAD
    ensures |buf| !in cells
    ensures Tiles(buf + CellBytes(payload), cells[|buf| := payload])
  {
    AllocKeepsTiled(cells, |buf|, payload);
    var cells' := cells[|buf| := payload];
    forall a | a in cells'
      ensures HoldsCell(buf + CellBytes(payload), a, cells'[a])
    {
      if a in cells {
        HoldsInPrefix(buf, CellBytes(payload), a, cells[a]);
      } else {
        HoldsAtEnd(buf, payload);
      }
    }
  }

  lemma AllocKeepsTiled(cells: map<int, seq<byte>>, end: nat, payload: seq<byte>)
    requires Tiled(cells, end) && end >= HBIN_HEADER
    requires forall a :: a in cells ==> a + CellSize(|cells[a]|) <= end
    ensures end !in cells
    ensures Tiled(cells[end := payload], end + CellSize(|payload|))
  {
    hide Chained, Disjoint;
    AllocKeepsChained(cells, end, payload);
    AllocKeepsDisjoint(cells, end, payload);
  }

  lemma AllocKeepsChained(cells: map<int, seq<byte>>, end: nat, payload: seq<byte>)
    requires Chained(cells, end)
    requires forall a :: a in cells ==> a + CellSize(|cells[a]|) <= end
    ensures Chained(cells[end := payload], end + CellSize(|payload|))
  {
    var cells' := cells[end := payload];
    forall a {:trigger Followed(cells', a, end + CellSize(|payload|))} | a in cells'
      ensures Followed(cells', a, end + CellSize(|payload|))
    {
      assert a in cells ==> Followed(cells, a, end);
    }
  }

  lemma AllocKeepsDisjoint(cells: map<int, seq<byte>>, end: nat, payload: seq<byte>)
    requires Disjoint(cells)
    requires forall a :: a in cells ==> a + CellSize(|cells[a]|) <= end
    ensures end !in cells && Disjoint(cells[end := payload])
  {
  }

  lemma HoldsAtEnd(buf: seq<byte>, payload: seq<byte>)
    requires |payload| <= MAX_PAYLOAD
    ensures HoldsCell(buf + CellBytes(payload), |buf|, payload)
  {
  }

  lemma HoldsInPrefix(buf: seq<byte>, more: seq<byte>, at: int, payload: seq<byte>)
    requires HoldsCell(buf, at, payload)
    ensures HoldsCell(buf + more, at, payload)
  {
    var end := at + CellSize(|payload|);
    assert (buf + more)[at..end] == buf[at..end];
  }

  /**
   * A patch inside one cell's payload changes that cell's payload and nothing
   * else: no size field, no other cell, no offset.
   */
  lemma PatchKeepsTiles(buf: seq<byte>, cells: map<int, seq<byte>>, at: nat, field: nat, v: seq<byte>)
    requires Tiles(buf, cells) && at in cells && field + |v| <= |cells[at]|
    ensures at + 4 + field + |v| <= |buf|
    ensures Tiles(Overwrite(buf, at + 4 + field, v), cells[at := Overwrite(cells[at], field, v)])
  {
    assert HoldsCell(buf, at, cells[at]);
    PatchKeepsTiled(cells, |buf|, at, Overwrite(cells[at], field, v));
    var cells' := cells[at := Overwrite(cells[at], field, v)];
    var buf' := Overwrite(buf, at + 4 + field, v);
    forall a | a in cells'
      ensures HoldsCell(buf', a, cells'[a])
    {
      assert HoldsCell(buf, a, cells[a]);
      if a == at {
        PatchInCell(buf, at, cells[at], field, v);
      } else {
        assert if a < at then a + CellSize(|cells[a]|) <= at else at + CellSize(|cells[at]|) <= a;
        HoldsElsewhere(buf, buf', a, cells[a]);
      }
    }
  }

  lemma PatchKeepsTiled(cells: map<int, seq<byte>>, end: nat, at: nat, payload: seq<byte>)
    requires Tiled(cells, end) && at in cells && |payload| == |cells[at]|
    ensures Tiled(cells[at := payload], end)
  {
    PatchKeepsChained(cells, end, at, payload);
  }

  lemma PatchKeepsChained(cells: map<int, seq<byte>>, end: nat, at: nat, payload: seq<byte>)
    requires Chained(cells, end) && at in cells && |payload| == |cells[at]|
    ensures Chained(cells[at := payload], end)
  {
    var cells' := cells[at := payload];
    forall a {:trigger Followed(cells', a, end)} | a in cells'
      ensures Followed(cells', a, end)
    {
      assert Followed(cells, a, end);
    }
  }

  lemma HoldsElsewhere(buf: seq<byte>, buf': seq<byte>, at: int, payload: seq<byte>)
    requires HoldsCell(buf, at, payload) && |buf'| == |buf|
    requires forall i :: at <= i < at + CellSize(|payload|) ==> buf'[i] == buf[i]
    ensures HoldsCell(buf', at, payload)
  {
    var end := at + CellSize(|payload|);
    assert buf'[at..end] == buf[at..end];
  }

  lemma PatchInCell(buf: seq<byte>, at: nat, payload: seq<byte>, field: nat, v: seq<byte>)
    requires HoldsCell(buf, at, payload) && field + |v| <= |payload|
    ensures HoldsCell(Overwrite(buf, at + 4 + field, v), at, Overwrite(payload, field, v))
  {
    hide CellBytes, CellSize, Overwrite;
    PatchedBytes(payload, field, v);
    PatchedSlice(buf, at, CellBytes(payload), 4 + field, v);
  }

  lemma PatchedBytes(payload: seq<byte>, field: nat, v: seq<byte>)
    requires |payload| <= MAX_PAYLOAD && field + |v| <= |payload|
    ensures |CellBytes(payload)| == CellSize(|payload|) && 4 + |payload| <= CellSize(|payload|)
    ensures Overwrite(CellBytes(payload), 4 + field, v) == CellBytes(Overwrite(payload, field, v))
  {
    hide Zeros, Le32;
  }

  lemma PatchedSlice(buf: seq<byte>, at: nat, part: seq<byte>, field: nat, v: seq<byte>)
    requires at + |part| <= |buf| && buf[at..at + |part|] == part && field + |v| <= |part|
    ensures Overwrite(buf, at + field, v)[at..at + |part|] == Overwrite(part, field, v)
  {
  }
}
