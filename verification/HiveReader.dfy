/**
 * tools/wtg-bcd/regf.py: a reader that knows nothing of the writer and follows
 * offsets through a whole file. Any bytes may be given to it.
 */
module HiveReader {
  import opened Bytes
  import opened Text
  import opened HiveCells

  /**
   * Ok for a value returned, Raised for a Python exception. Following offsets
   * in an arbitrary file may never end, so the recursive reads count levels
   * down and answer OutOfFuel when they run out.
   */
  datatype Read<+T> = Ok(value: T) | Raised | OutOfFuel {
    predicate IsFailure() {
      !Ok?
    }

    function PropagateFailure<U>(): Read<U>
      requires !Ok?
    {
      if Raised? then Raised else OutOfFuel
    }

    function Extract(): T
      requires Ok?
    {
      value
    }
  }

  const BASE: nat := 0x1000
  const SIGNATURE: seq<byte> := [0x72, 0x65, 0x67, 0x66]

  function Word16(d: seq<byte>, p: nat): Read<nat> {
    if p + 2 <= |d| then Ok(U16At(d, p)) else Raised
  }

  function Word32(d: seq<byte>, p: nat): Read<nat> {
    if p + 4 <= |d| then Ok(U32At(d, p)) else Raised
  }

  /** Hive(data).root_off */
  function RootOffset(d: seq<byte>): Read<nat> {
    if Slice(d, 0, 4) != SIGNATURE then Raised else Word32(d, 0x24)
  }

  /** Where the payload of the cell at `off` starts, and its size without the size field. */
  function CellAt(d: seq<byte>, off: nat): Read<(nat, int)> {
    var u :- Word32(d, BASE + off);
    var size := if u < I32_LIMIT then u else U32_LIMIT - u;
    Ok((BASE + off + 4, size - 4))
  }

  function DecodeName(raw: seq<byte>, ascii: bool): Read<string> {
    if ascii then Ok(DecodeLatin1(raw))
    else match DecodeUtf16(raw) case Some(s) => Ok(s) case None => Raised
  }

  datatype Nk = Nk(name: string, subkeys: nat, leaf: nat, values: nat, list: nat)

  function ReadNk(d: seq<byte>, off: nat): Read<Nk> {
    var cell :- CellAt(d, off);
    var p := cell.0;
    if Slice(d, p, p + 2) != SIG_NK then Raised
    else
      var flags :- Word16(d, p + 2);
      var subkeys :- Word32(d, p + 0x14);
      var leaf :- Word32(d, p + 0x1C);
      var values :- Word32(d, p + 0x24);
      var list :- Word32(d, p + 0x28);
      var length :- Word16(d, p + 0x48);
      var name :- DecodeName(Slice(d, p + 0x4C, p + 0x4C + length), flags / 0x20 % 2 == 1);
      Ok(Nk(name, subkeys, leaf, values, list))
  }

  // ---- subkeys ----

  /** n offsets, `stride` bytes apart. */
  function OffsetsFrom(d: seq<byte>, p: nat, stride: nat, n: nat): Read<seq<nat>> {
    if n == 0 then Ok([])
    else
      var most :- OffsetsFrom(d, p, stride, n - 1);
      var last :- Word32(d, p + (n - 1) * stride);
      Ok(most + [last])
  }

  /** The offsets in an lf, lh, li or ri list; an unknown signature lists nothing. */
  function SubkeyOffsets(d: seq<byte>, count: nat, list: nat, fuel: nat): Read<seq<nat>>
    decreases fuel, 1, 0
  {
    if count == 0 || list == NONE then Ok([])
    else if fuel == 0 then OutOfFuel
    else
      var cell :- CellAt(d, list);
      var p := cell.0;
      var sig := Slice(d, p, p + 2);
      if sig == SIG_LF || sig == SIG_LH then
        var n :- Word16(d, p + 2);
        OffsetsFrom(d, p + 4, 8, n)
      else if sig == SIG_RI then
        var n :- Word16(d, p + 2);
        IndexedOffsets(d, p, n, fuel - 1)
      else if sig == SIG_LI then
        var n :- Word16(d, p + 2);
        OffsetsFrom(d, p + 4, 4, n)
      else Ok([])
  }

  /** The lists an ri index names, joined. */
  function IndexedOffsets(d: seq<byte>, p: nat, n: nat, fuel: nat): Read<seq<nat>>
    decreases fuel, 2, n
  {
    if n == 0 then Ok([])
    else
      var most :- IndexedOffsets(d, p, n - 1, fuel);
      var list :- Word32(d, p + 4 + (n - 1) * 4);
      var last :- SubkeyOffsets(d, 1, list, fuel);
      Ok(most + last)
  }

  method Subkeys(d: seq<byte>, count: nat, list: nat, fuel: nat) returns (r: Read<seq<nat>>)
    ensures r == SubkeyOffsets(d, count, list, fuel)
    decreases fuel, 1
  {
    if count == 0 || list == NONE {
      return Ok([]);
    }
    if fuel == 0 {
      return OutOfFuel;
    }
    var cell := CellAt(d, list);
    if cell.Raised? {
      return Raised;
    }
    var p := cell.value.0;
    var sig := Slice(d, p, p + 2);
    if sig != SIG_LF && sig != SIG_LH && sig != SIG_RI && sig != SIG_LI {
      return Ok([]);
    }
    var count' := Word16(d, p + 2);
    if count'.Raised? {
      return Raised;
    }
    var n := count'.value;
    if sig == SIG_RI {
      r := ReadIndex(d, p, n, fuel - 1);
    } else {
      r := ReadOffsets(d, p + 4, if sig == SIG_LI then 4 else 8, n);
    }
  }

  method ReadOffsets(d: seq<byte>, p: nat, stride: nat, n: nat) returns (r: Read<seq<nat>>)
    ensures r == OffsetsFrom(d, p, stride, n)
  {
    var out := [];
    var i := 0;
    while i < n
      invariant 0 <= i <= n && OffsetsFrom(d, p, stride, i) == Ok(out)
    {
      var off := Word32(d, p + i * stride);
      if off.Raised? {
        OffsetsStop(d, p, stride, i, n);
        return Raised;
      }
      out := out + [off.value];
      i := i + 1;
    }
    return Ok(out);
  }

  method ReadIndex(d: seq<byte>, p: nat, n: nat, fuel: nat) returns (r: Read<seq<nat>>)
    ensures r == IndexedOffsets(d, p, n, fuel)
    decreases fuel, 2
  {
    hide IndexedOffsets, SubkeyOffsets;
    var out := [];
    var i: nat := 0;
    IndexedNone(d, p, fuel);
    while i < n
      invariant 0 <= i <= n && IndexedOffsets(d, p, i, fuel) == Ok(out)
    {
      IndexedNext(d, p, i, fuel);
      var off := Word32(d, p + 4 + i * 4);
      if off.Raised? {
        IndexedStops(d, p, i, n, fuel);
        return Raised;
      }
      var inner := Subkeys(d, 1, off.value, fuel);
      if !inner.Ok? {
        IndexedStops(d, p, i, n, fuel);
        return inner;
      }
      out := out + inner.value;
      i := i + 1;
    }
    return Ok(out);
  }

  lemma IndexedNone(d: seq<byte>, p: nat, fuel: nat)
    ensures IndexedOffsets(d, p, 0, fuel) == Ok([])
  {
  }

  lemma IndexedNext(d: seq<byte>, p: nat, i: nat, fuel: nat)
    requires IndexedOffsets(d, p, i, fuel).Ok?
    ensures var list := Word32(d, p + 4 + i * 4);
            && (!list.Ok? ==> IndexedOffsets(d, p, i + 1, fuel) == list.PropagateFailure<seq<nat>>())
            && (list.Ok? ==>
                  var last := SubkeyOffsets(d, 1, list.value, fuel);
                  IndexedOffsets(d, p, i + 1, fuel) ==
                    if last.Ok? then Ok(IndexedOffsets(d, p, i, fuel).value + last.value) else last)
  {
    hide SubkeyOffsets, Word32;
  }

  lemma {:induction false} OffsetsStop(d: seq<byte>, p: nat, stride: nat, i: nat, n: nat)
    requires i < n && OffsetsFrom(d, p, stride, i).Ok? && Word32(d, p + i * stride).Raised?
    ensures OffsetsFrom(d, p, stride, n) == Raised
  {
    if i + 1 >= n {
    } else {
      OffsetsStop(d, p, stride, i, n - 1);
    }
  }

  lemma {:induction false} IndexedStops(d: seq<byte>, p: nat, i: nat, n: nat, fuel: nat)
    requires i < n && IndexedOffsets(d, p, i, fuel).Ok? && !IndexedOffsets(d, p, i + 1, fuel).Ok?
    ensures IndexedOffsets(d, p, n, fuel) == IndexedOffsets(d, p, i + 1, fuel)
  {
    hide CellAt, Slice;
    if i + 1 >= n {
    } else {
      IndexedStops(d, p, i, n - 1, fuel);
    }
  }

  // ---- values ----

  /** (name or "(default)", type, raw) */
  datatype ReadValue = ReadValue(name: string, vtype: nat, raw: seq<byte>)

  function ValueData(d: seq<byte>, length: nat, data: nat): Read<seq<byte>>
    requires data < U32_LIMIT
  {
    if length >= I32_LIMIT then Ok(Slice(Le32(data), 0, length - I32_LIMIT))
    else
      var cell :- CellAt(d, data);
      Ok(Slice(d, cell.0, cell.0 + length))
  }

  function ValueAt(d: seq<byte>, off: nat): Read<ReadValue> {
    var cell :- CellAt(d, off);
    var p := cell.0;
    if Slice(d, p, p + 2) != SIG_VK || p + 18 > |d| then Raised
    else
      var name :- DecodeName(Slice(d, p + 0x14, p + 0x14 + U16At(d, p + 2)), U16At(d, p + 16) % 2 == 1);
      var raw :- ValueData(d, U32At(d, p + 4), U32At(d, p + 8));
      Ok(ReadValue(if name == "" then "(default)" else name, U32At(d, p + 12), raw))
  }

  function ValuesFrom(d: seq<byte>, p: nat, n: nat): Read<seq<ReadValue>> {
    if n == 0 then Ok([])
    else
      var most :- ValuesFrom(d, p, n - 1);
      var off :- Word32(d, p + (n - 1) * 4);
      var last :- ValueAt(d, off);
      Ok(most + [last])
  }

  function ValuesOf(d: seq<byte>, count: nat, list: nat): Read<seq<ReadValue>> {
    if count == 0 || list == NONE then Ok([])
    else
      var cell :- CellAt(d, list);
      ValuesFrom(d, cell.0, count)
  }

  lemma {:induction false} ValuesStop(d: seq<byte>, p: nat, i: nat, n: nat)
    requires i < n && ValuesFrom(d, p, i).Ok? && !ValuesFrom(d, p, i + 1).Ok?
    ensures ValuesFrom(d, p, n) == ValuesFrom(d, p, i + 1)
  {
    hide ValueAt;
    if i + 1 >= n {
    } else {
      ValuesStop(d, p, i, n - 1);
    }
  }

  method Values(d: seq<byte>, nk: Nk) returns (r: Read<seq<ReadValue>>)
    ensures r == ValuesOf(d, nk.values, nk.list)
  {
    hide ValueAt, CellAt;
    if nk.values == 0 || nk.list == NONE {
      return Ok([]);
    }
    var cell := CellAt(d, nk.list);
    if !cell.Ok? {
      return cell.PropagateFailure();
    }
    var p := cell.value.0;
    var out := [];
    var i := 0;
    while i < nk.values
      invariant 0 <= i <= nk.values && ValuesFrom(d, p, i) == Ok(out)
    {
      var off := Word32(d, p + i * 4);
      if off.Raised? {
        ValuesStop(d, p, i, nk.values);
        return Raised;
      }
      var v := ValueAt(d, off.value);
      if !v.Ok? {
        ValuesStop(d, p, i, nk.values);
        return v.PropagateFailure();
      }
      out := out + [v.value];
      i := i + 1;
    }
    return Ok(out);
  }

  // ---- walk ----

  /** One item a walk yields: where the key is, its path and its fields. */
  datatype Visit<P> = Visit(at: nat, path: P, nk: Nk)

  /** A key's path below `path`; the root's has no backslash in front. */
  function JoinPath(path: string, name: string): string {
    if path == "" then name else path + "\\" + name
  }

  /** Hive.walk: every key under `off`, parents first, with its path. */
  function Walk(d: seq<byte>, off: nat, path: string, fuel: nat): Read<seq<Visit<string>>>
    decreases fuel, 0
  {
    if fuel == 0 then OutOfFuel
    else
      var nk :- ReadNk(d, off);
      var here := JoinPath(path, nk.name);
      var offs :- SubkeyOffsets(d, nk.subkeys, nk.leaf, fuel);
      var below :- WalkEach(d, offs, here, fuel - 1);
      Ok([Visit(off, here, nk)] + below)
  }

  function WalkEach(d: seq<byte>, offs: seq<nat>, path: string, fuel: nat): Read<seq<Visit<string>>>
    decreases fuel, |offs| + 1
  {
    if offs == [] then Ok([])
    else
      var first :- Walk(d, offs[0], path, fuel);
      var rest :- WalkEach(d, offs[1..], path, fuel);
      Ok(first + rest)
  }
}
