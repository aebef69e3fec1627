/** Byte strings and the little-endian integers that Python's struct module packs into them. */
module Bytes {
  type byte = b: int | 0 <= b < 256

  const U16_LIMIT := 0x1_0000
  const I32_LIMIT := 0x8000_0000
  const U32_LIMIT := 0x1_0000_0000
  const U64_LIMIT := 0x1_0000_0000_0000_0000

  function Zeros(n: nat): (r: seq<byte>)
    ensures |r| == n && forall i :: 0 <= i < n ==> r[i] == 0
  {
    seq(n, _ => 0)
  }

  function Le16(x: nat): (r: seq<byte>)
    requires x < U16_LIMIT
    ensures |r| == 2 && U16At(r, 0) == x
  {
    [x % 0x100, x / 0x100]
  }

  function Le32(x: nat): (r: seq<byte>)
    requires x < U32_LIMIT
    ensures |r| == 4 && U32At(r, 0) == x
  {
    Le16(x % U16_LIMIT) + Le16(x / U16_LIMIT)
  }

  function Le64(x: nat): (r: seq<byte>)
    requires x < U64_LIMIT
    ensures |r| == 8 && U64At(r, 0) == x
  {
    Le32(x % U32_LIMIT) + Le32(x / U32_LIMIT)
  }

  function U16At(s: seq<byte>, at: nat): (r: nat)
    requires at + 2 <= |s|
    ensures r < U16_LIMIT
  {
    s[at] as int + 0x100 * (s[at + 1] as int)
  }

  function U32At(s: seq<byte>, at: nat): (r: nat)
    requires at + 4 <= |s|
    ensures r < U32_LIMIT
  {
    s[at] as int + 0x100 * (s[at + 1] as int) + 0x1_0000 * (s[at + 2] as int) + 0x100_0000 * (s[at + 3] as int)
  }

  function U64At(s: seq<byte>, at: nat): (r: nat)
    requires at + 8 <= |s|
    ensures r < U64_LIMIT
  {
    U32At(s, at) + U32_LIMIT * U32At(s, at + 4)
  }

  /** A Python slice s[from:to] with non-negative bounds: clipped, never an error. */
  function Slice(s: seq<byte>, from: nat, to: nat): (r: seq<byte>)
    ensures from <= to <= |s| ==> r == s[from..to]
  {
    var hi := if to < |s| then to else |s|;
    if from <= hi then s[from..hi] else []
  }

  /** struct.pack_into: the bytes at `at` replaced, nothing else. */
  function Overwrite(s: seq<byte>, at: nat, v: seq<byte>): (r: seq<byte>)
    requires at + |v| <= |s|
    ensures |r| == |s|
    ensures r[at..at + |v|] == v
    ensures forall i :: 0 <= i < at || at + |v| <= i < |s| ==> r[i] == s[i]
  {
    s[..at] + v + s[at + |v|..]
  }

  /** A field read inside a slice is the field read in the slice's own copy. */
  lemma FieldInSlice(s: seq<byte>, from: nat, part: seq<byte>, at: nat)
    requires from + |part| <= |s| && s[from..from + |part|] == part
    ensures at + 2 <= |part| ==> U16At(s, from + at) == U16At(part, at)
    ensures at + 4 <= |part| ==> U32At(s, from + at) == U32At(part, at)
  {
    assert forall i :: 0 <= i < |part| ==> s[from + i] == part[i];
  }

  /** A field of the right operand of a concatenation. */
  lemma FieldInTail(a: seq<byte>, b: seq<byte>, at: nat)
    ensures at + 2 <= |b| ==> U16At(a + b, |a| + at) == U16At(b, at)
    ensures at + 4 <= |b| ==> U32At(a + b, |a| + at) == U32At(b, at)
  {
  }

  lemma SliceOfSlice(s: seq<byte>, from: nat, part: seq<byte>, lo: nat, hi: nat)
    requires from + |part| <= |s| && s[from..from + |part|] == part
    requires lo <= hi <= |part|
    ensures s[from + lo..from + hi] == part[lo..hi]
  {
    assert forall i :: 0 <= i < |part| ==> part[i] == s[from + i];
  }

  /** What stands in a part stands in the whole. */
  lemma Moves(whole: seq<byte>, p: nat, s: seq<byte>)
    requires p + |s| <= |whole| && whole[p..p + |s|] == s
    ensures forall k :: 0 <= k && k + 4 <= |s| ==> U32At(whole, p + k) == U32At(s, k)
    ensures forall k :: 0 <= k && k + 2 <= |s| ==> U16At(whole, p + k) == U16At(s, k)
    ensures forall k :: 0 <= k < |s| ==> whole[p + k] == s[k]
  {
    forall k: nat | k + 4 <= |s|
      ensures U32At(whole, p + k) == U32At(s, k)
    {
      FieldInSlice(whole, p, s, k);
    }
    forall k: nat | k + 2 <= |s|
      ensures U16At(whole, p + k) == U16At(s, k)
    {
      FieldInSlice(whole, p, s, k);
    }
    forall k: nat | k < |s|
      ensures whole[p + k] == s[k]
    {
      assert whole[p..p + |s|][k] == s[k];
    }
  }

  lemma FourDwords(a: seq<byte>, b: seq<byte>, c: seq<byte>, d: seq<byte>)
    requires |a| == 4 && |b| == 4 && |c| == 4 && |d| == 4
    ensures var s := a + b + c + d;
            && U32At(s, 0) == U32At(a, 0) && U32At(s, 4) == U32At(b, 0)
            && U32At(s, 8) == U32At(c, 0) && U32At(s, 12) == U32At(d, 0)
  {
    var s := a + b + c + d;
    assert forall k :: 0 <= k < 4 ==> s[k] == a[k] && s[4 + k] == b[k] && s[8 + k] == c[k] && s[12 + k] == d[k];
  }

  lemma OverwriteMiddle(a: seq<byte>, b: seq<byte>, c: seq<byte>, v: seq<byte>)
    requires |v| == |b|
    ensures Overwrite(a + b + c, |a|, v) == a + v + c
  {
  }
}
