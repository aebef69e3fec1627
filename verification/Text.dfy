/** Python text as the repository encodes it: Latin-1 key names, UTF-16-LE string data. */
module Text {
  import opened Bytes

  datatype Option<+T> = None | Some(value: T) {
    function GetOr(otherwise: T): T {
      if None? then otherwise else value
    }

    predicate IsFailure() {
      None?
    }

    function PropagateFailure<U>(): Option<U>
      requires None?
    {
      None
    }

    function Extract(): T
      requires Some?
    {
      value
    }
  }

  /** Exactly the strings that Latin-1 can encode. */
  predicate IsLatin1(s: string) {
    forall i :: 0 <= i < |s| ==> s[i] as int < 256
  }

  function EncodeLatin1(s: string): (r: seq<byte>)
    requires IsLatin1(s)
    ensures |r| == |s| && forall i :: 0 <= i < |s| ==> r[i] == s[i] as int
  {
    seq(|s|, i requires 0 <= i < |s| => s[i] as int)
  }

  function DecodeLatin1(b: seq<byte>): (r: string)
    ensures |r| == |b| && forall i :: 0 <= i < |b| ==> r[i] as int == b[i]
  {
    seq(|b|, i requires 0 <= i < |b| => b[i] as char)
  }

  lemma Latin1RoundTrip(s: string)
    requires IsLatin1(s)
    ensures DecodeLatin1(EncodeLatin1(s)) == s
  {
    var t := DecodeLatin1(EncodeLatin1(s));
    forall i | 0 <= i < |s|
      ensures t[i] == s[i]
    {
      assert t[i] as int == s[i] as int;
    }
  }

  /** str.lower() on Latin-1 text: one letter in, one letter out. */
  function LowerChar(c: char): char {
    var n := c as int;
    if 0x41 <= n <= 0x5A || (0xC0 <= n <= 0xDE && n != 0xD7) then (n + 0x20) as char else c
  }

  function Lower(s: string): (r: string)
    ensures |r| == |s|
  {
    seq(|s|, i requires 0 <= i < |s| => LowerChar(s[i]))
  }

  // ---- UTF-16-LE ----

  function Utf16Char(c: char): (r: seq<byte>)
    ensures |r| == 2 || |r| == 4
  {
    var n := c as int;
    if n < 0x1_0000 then Le16(n)
    else Le16(0xD800 + (n - 0x1_0000) / 0x400) + Le16(0xDC00 + (n - 0x1_0000) % 0x400)
  }

  /** The last k characters of s, encoded. */
  function Utf16Last(s: string, k: nat): (r: seq<byte>)
    requires k <= |s|
    ensures |r| % 2 == 0 && |r| <= 4 * k
    decreases k
  {
    if k == 0 then []
    else
      var c, rest := Utf16Char(s[|s| - k]), Utf16Last(s, k - 1);
      assert |c + rest| == 2 * (|c| / 2 + |rest| / 2);
      c + rest
  }

  /** Little-endian UTF-16. */
  function EncodeUtf16(s: string): (r: seq<byte>)
    ensures |r| % 2 == 0 && |r| <= 4 * |s|
  {
    Utf16Last(s, |s|)
  }

  lemma {:induction false} Utf16LastOfRest(s: string, k: nat)
    requires k < |s|
    ensures Utf16Last(s, k) == Utf16Last(s[1..], k)
    decreases k
  {
    hide Utf16Char;
    if k == 0 {
    } else {
      var rest := s[1..];
      Utf16LastOfRest(s, k - 1);
      assert rest[|rest| - k] == s[|s| - k];
      assert Utf16Last(rest, k) == Utf16Char(rest[|rest| - k]) + Utf16Last(rest, k - 1);
    }
  }

  lemma EncodeOneMore(c: char, s: string)
    ensures EncodeUtf16([c] + s) == Utf16Char(c) + EncodeUtf16(s)
    ensures EncodeUtf16([]) == []
  {
    hide Utf16Char;
    Utf16LastOfRest([c] + s, |s|);
    assert ([c] + s)[1..] == s;
  }

  /** The text of little-endian UTF-16; None where Python refuses it. */
  function DecodeUtf16(b: seq<byte>): Option<string> {
    if |b| == 0 then Some([])
    else if |b| == 1 then None
    else
      var u := U16At(b, 0);
      if u < 0xD800 || 0xE000 <= u then
        var rest :- DecodeUtf16(b[2..]);
        Some([u as char] + rest)
      else if 0xDC00 <= u || |b| < 4 then None
      else
        var v := U16At(b, 2);
        if v < 0xDC00 || 0xE000 <= v then None
        else
          var rest :- DecodeUtf16(b[4..]);
          Some([(0x1_0000 + (u - 0xD800) * 0x400 + (v - 0xDC00)) as char] + rest)
  }

  lemma {:induction false} Utf16RoundTrip(s: string)
    ensures DecodeUtf16(EncodeUtf16(s)) == Some(s)
  {
    if s == [] {
      EncodeOneMore(' ', []);
    } else {
      Utf16RoundTrip(s[1..]);
      EncodeOneMore(s[0], s[1..]);
      assert s == [s[0]] + s[1..];
      DecodeOneMore(s[0], EncodeUtf16(s[1..]));
    }
  }

  lemma DecodeOneMore(c: char, t: seq<byte>)
    ensures DecodeUtf16(t).Some? ==> DecodeUtf16(Utf16Char(c) + t) == Some([c] + DecodeUtf16(t).value)
  {
    var h, n := Utf16Char(c), c as int;
    assert (h + t)[|h|..] == t;
    assert U16At(h + t, 0) == U16At(h, 0);
    if |h| == 4 {
      FieldInTail(Le16(0xD800 + (n - 0x1_0000) / 0x400), Le16(0xDC00 + (n - 0x1_0000) % 0x400), 0);
      assert U16At(h + t, 2) == U16At(h, 2);
    }
  }

  lemma {:induction false} EncodeUtf16Concat(a: string, b: string)
    ensures EncodeUtf16(a + b) == EncodeUtf16(a) + EncodeUtf16(b)
  {
    hide Utf16Char, EncodeUtf16;
    if a == [] {
      assert a + b == b;
      EncodeOneMore(' ', []);
    } else {
      EncodeUtf16Concat(a[1..], b);
      EncodeOneMore(a[0], a[1..] + b);
      EncodeOneMore(a[0], a[1..]);
      assert a + b == [a[0]] + (a[1..] + b) && a == [a[0]] + a[1..];
    }
  }

  // ---- what the tables say, letter by letter ----

  const CAPITALS := "ABCDEFGHIJKLMNOPQRSTUVWXYZ"
  const SMALLS := "abcdefghijklmnopqrstuvwxyz"
  const FIRST_CAPITALS := "\U{C0}\U{C1}\U{C2}\U{C3}\U{C4}\U{C5}\U{C6}\U{C7}\U{C8}\U{C9}\U{CA}\U{CB}\U{CC}\U{CD}\U{CE}"
  const LATER_CAPITALS := "\U{CF}\U{D0}\U{D1}\U{D2}\U{D3}\U{D4}\U{D5}\U{D6}\U{D8}\U{D9}\U{DA}\U{DB}\U{DC}\U{DD}\U{DE}"
  const FIRST_SMALLS := "\U{E0}\U{E1}\U{E2}\U{E3}\U{E4}\U{E5}\U{E6}\U{E7}\U{E8}\U{E9}\U{EA}\U{EB}\U{EC}\U{ED}\U{EE}"
  const LATER_SMALLS := "\U{EF}\U{F0}\U{F1}\U{F2}\U{F3}\U{F4}\U{F5}\U{F6}\U{F8}\U{F9}\U{FA}\U{FB}\U{FC}\U{FD}\U{FE}"

  /** From A with grave to thorn, the multiplication sign between them left out. */
  const ACCENTED_CAPITALS := FIRST_CAPITALS + LATER_CAPITALS
  const ACCENTED_SMALLS := FIRST_SMALLS + LATER_SMALLS

  lemma Alphabet(k: nat)
    requires k < 26
    ensures CAPITALS[k] as int == 0x41 + k && SMALLS[k] as int == 0x61 + k
  {
  }

  lemma FirstAccented(k: nat)
    requires k < 15
    ensures |FIRST_CAPITALS| == |FIRST_SMALLS| == 15
    ensures FIRST_CAPITALS[k] as int == 0xC0 + k && FIRST_SMALLS[k] as int == 0xE0 + k
  {
  }

  lemma LaterAccented(k: nat)
    requires k < 15
    ensures |LATER_CAPITALS| == |LATER_SMALLS| == 15
    ensures LATER_CAPITALS[k] as int == (if k < 8 then 0xCF else 0xD0) + k
    ensures LATER_SMALLS[k] as int == (if k < 8 then 0xEF else 0xF0) + k
  {
  }

  lemma AccentedAlphabet(k: nat)
    requires k < 30
    ensures |ACCENTED_CAPITALS| == |ACCENTED_SMALLS| == 30
    ensures ACCENTED_CAPITALS[k] as int == (if k < 23 then 0xC0 else 0xC1) + k
    ensures ACCENTED_SMALLS[k] as int == (if k < 23 then 0xE0 else 0xE1) + k
  {
    hide FIRST_CAPITALS, FIRST_SMALLS, LATER_CAPITALS, LATER_SMALLS;
    FirstAccented(if k < 15 then k else 0);
    LaterAccented(if k < 15 then 0 else k - 15);
  }

  /** Each of Latin-1's capitals becomes its small letter, and nothing else changes. */
  lemma LowerIsTheAlphabet(c: char, k: nat)
    ensures k < 26 ==> LowerChar(CAPITALS[k]) == SMALLS[k]
    ensures k < 30 ==> LowerChar(ACCENTED_CAPITALS[k]) == ACCENTED_SMALLS[k]
    ensures c !in CAPITALS && c !in ACCENTED_CAPITALS ==> LowerChar(c) == c
  {
    hide CAPITALS, SMALLS, ACCENTED_CAPITALS, ACCENTED_SMALLS;
    AlphabetLengths();
    AccentedAlphabet(0);
    if k < 26 {
      Alphabet(k);
    }
    if k < 30 {
      AccentedAlphabet(k);
    }
    var n := c as int;
    if 0x41 <= n <= 0x5A {
      Alphabet(n - 0x41);
      assert CAPITALS[n - 0x41] == c;
    } else if 0xC0 <= n <= 0xD6 {
      AccentedAlphabet(n - 0xC0);
      assert ACCENTED_CAPITALS[n - 0xC0] == c;
    } else if 0xD8 <= n <= 0xDE {
      AccentedAlphabet(n - 0xC1);
      assert ACCENTED_CAPITALS[n - 0xC1] == c;
    }
  }

  lemma AlphabetLengths()
    ensures |CAPITALS| == |SMALLS| == 26
  {
  }

  /** c is the ASCII letter m in either case, or m itself if that is no small letter. */
  predicate InEitherCase(c: char, m: char) {
    c == m || ('a' <= m <= 'z' && c as int == m as int - 32)
  }

  /** ASCII without capitals. */
  predicate IsSmall(m: string) {
    forall k :: 0 <= k < |m| ==> m[k] as int < 0x80 && !('A' <= m[k] <= 'Z')
  }

  lemma LowerInEitherCase(c: char, m: char)
    requires m as int < 0x80 && !('A' <= m <= 'Z')
    ensures LowerChar(c) == m <==> InEitherCase(c, m)
  {
  }

  predicate SameButCapitals(s: string, m: string) {
    |s| == |m| && forall k :: 0 <= k < |s| ==> InEitherCase(s[k], m[k])
  }

  /** A text lowers to a small one exactly when they differ by ASCII capitals only. */
  lemma LowersTo(s: string, m: string)
    requires IsSmall(m)
    ensures Lower(s) == m <==> SameButCapitals(s, m)
  {
    hide LowerChar, InEitherCase;
    forall k | 0 <= k < |s| && k < |m|
      ensures Lower(s)[k] == m[k] <==> InEitherCase(s[k], m[k])
    {
      LowerInEitherCase(s[k], m[k]);
    }
    if SameButCapitals(s, m) {
      assert Lower(s) == m;
    }
  }

  /** Below the surrogates and the supplementary planes a character is two bytes, low byte first. */
  lemma {:induction false} PlainUtf16(s: string, k: nat)
    requires k < |s| && forall i :: 0 <= i < |s| ==> s[i] as int < 0x1_0000
    ensures |EncodeUtf16(s)| == 2 * |s|
    ensures EncodeUtf16(s)[2 * k] == s[k] as int % 0x100 && EncodeUtf16(s)[2 * k + 1] == s[k] as int / 0x100
  {
    var rest := s[1..];
    assert s == [s[0]] + rest;
    EncodeOneMore(s[0], rest);
    if rest != [] {
      PlainUtf16(rest, if k > 0 then k - 1 else 0);
    } else {
      EncodeOneMore(s[0], []);
    }
  }

  /** A character beyond is a pair: a unit from 0xD800 on, then one from 0xDC00 on. */
  lemma PairUtf16(c: char)
    requires c as int >= 0x1_0000
    ensures var high, low := U16At(Utf16Char(c), 0), U16At(Utf16Char(c), 2);
            && |Utf16Char(c)| == 4 && 0xD800 <= high < 0xDC00 <= low < 0xE000
            && c as int == 0x1_0000 + (high - 0xD800) * 0x400 + (low - 0xDC00)
  {
  }

  /** Decoding accepts the encodings and nothing else. */
  lemma {:induction false} DecodesExactly(b: seq<byte>, s: string)
    ensures DecodeUtf16(b) == Some(s) <==> b == EncodeUtf16(s)
    decreases |b|
  {
    Utf16RoundTrip(s);
    if DecodeUtf16(b) == Some(s) {
      EncodingIsUnique(b);
    }
  }

  lemma {:induction false} EncodingIsUnique(b: seq<byte>)
    requires DecodeUtf16(b).Some?
    ensures b == EncodeUtf16(DecodeUtf16(b).value)
    decreases |b|
  {
    if |b| == 0 {
      EncodeOneMore('a', []);
    } else {
      hide EncodeUtf16, Utf16Char;
      var s := DecodeUtf16(b).value;
      var u := U16At(b, 0);
      var n := if u < 0xD800 || 0xE000 <= u then 2 else 4;
      EncodingIsUnique(b[n..]);
      var rest := DecodeUtf16(b[n..]).value;
      assert s == [s[0]] + rest;
      EncodeOneMore(s[0], rest);
      FirstUnits(b, s[0], n);
      assert b == b[..n] + b[n..];
    }
  }

  lemma FirstUnits(b: seq<byte>, c: char, n: nat)
    requires |b| >= n
    requires n == 2 ==> c as int == U16At(b, 0)
    requires n == 4 ==> 0xD800 <= U16At(b, 0) < 0xDC00 <= U16At(b, 2) < 0xE000
    requires n == 4 ==> c as int == 0x1_0000 + (U16At(b, 0) - 0xD800) * 0x400 + (U16At(b, 2) - 0xDC00)
    requires n == 2 || n == 4
    ensures Utf16Char(c) == b[..n]
  {
    if n == 2 {
      WordIs(Le16(c as int), b[..2]);
    } else {
      var m := c as int - 0x1_0000;
      assert m / 0x400 == U16At(b, 0) - 0xD800 && m % 0x400 == U16At(b, 2) - 0xDC00;
      WordIs(Le16(U16At(b, 0)), b[..2]);
      WordIs(Le16(U16At(b, 2)), b[2..4]);
      assert b[..4] == b[..2] + b[2..4];
    }
  }

  lemma WordIs(a: seq<byte>, b: seq<byte>)
    requires |a| == 2 && |b| == 2 && U16At(a, 0) == U16At(b, 0)
    ensures a == b
  {
  }
}
