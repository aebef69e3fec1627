/** What the scan shows on any data at all, byte by byte: lone surrogates and two special letters included. */
module IsoExact {
  import opened Bytes
  import opened Text
  import opened IsoScan

  /** A surrogate that begins no pair: decoding drops it. */
  predicate LoneSurrogate(b: seq<byte>)
    requires |b| >= 2
  {
    && 0xD800 <= BeUnit(b, 0) < 0xE000
    && !(BeUnit(b, 0) < 0xDC00 && |b| >= 4 && 0xDC00 <= BeUnit(b, 2) < 0xE000)
  }

  /**
   * The units at the front spell the marker: letters in either case, a Kelvin
   * sign for a k, a dotted capital I for an i at the end, and lone surrogates
   * before any of them.
   */
  predicate Spelled(b: seq<byte>, m: string) {
    if m == [] then true
    else if |b| < 2 then false
    else if LoneSurrogate(b) then Spelled(b[2..], m)
    else if Letter(b, 0, m[0]) || (BeUnit(b, 0) == 0x212A && m[0] == 'k') then Spelled(b[2..], m[1..])
    else BeUnit(b, 0) == 0x130 && m == "i"
  }

  /** The marker in the bytes as the three views let it through. */
  predicate Shown(d: seq<byte>, m: string) {
    exists i :: 0 <= i <= |d| && ShownAt(d, i, m)
  }

  predicate ShownAt(d: seq<byte>, i: nat, m: string)
    requires i <= |d|
  {
    NarrowAt(d, i, m) || Spelled(d[i..], m)
  }

  predicate ShownAny(d: seq<byte>, ms: seq<string>) {
    exists k :: 0 <= k < |ms| && Shown(d, ms[k])
  }

  // ---- the text of one view ----

  function Decoded(b: seq<byte>): string {
    LowerAll(DecodeBe(b))
  }

  predicate IsAscii(m: string) {
    forall k :: 0 <= k < |m| ==> m[k] as int < 0x80
  }

  lemma AsciiRest(m: string)
    requires m != [] && IsAscii(m)
    ensures IsAscii(m[1..]) && m[0] as int < 0x80
  {
  }

  lemma StartsWithFirst(m: string, c: char, text: string)
    requires m != []
    ensures m <= [c] + text <==> m[0] == c && m[1..] <= text
  {
    if m[0] == c && m[1..] <= text {
      assert m == [c] + m[1..];
    }
  }

  lemma TooShort(b: seq<byte>)
    requires |b| < 2
    ensures Decoded(b) == []
  {
  }

  lemma LoneFirst(b: seq<byte>)
    requires |b| >= 2 && LoneSurrogate(b)
    ensures Decoded(b) == Decoded(b[2..])
  {
    hide LowerAll, DecodeBe;
    DecodeStep(b);
    assert Head(b) == ([], 2) && [] + DecodeBe(b[2..]) == DecodeBe(b[2..]);
  }

  /** A pair of surrogates is a character no marker holds. */
  lemma PairFirst(b: seq<byte>) returns (c: char)
    requires |b| >= 2 && 0xD800 <= BeUnit(b, 0) < 0xE000 && !LoneSurrogate(b)
    ensures |b| >= 4 && c as int >= 0x80 && Head(b).1 == 4 && Decoded(b) == [c] + Decoded(b[4..])
  {
    hide LowerAll;
    c := Head(b).0[0];
    assert LowerOne(c) == [c];
    LowerOneMore(c, DecodeBe(b[4..]));
  }

  /** A unit whose lower case is not one ASCII letter: what it begins with, and what stands behind. */
  lemma LowerOfUnit(u: nat)
    requires u < 0x1_0000 && !(0xD800 <= u < 0xE000)
    ensures var t := LowerOne(u as char);
            && (u == 0x130 ==> |t| == 2 && t[0] == 'i' && t[1] as int >= 0x80)
            && (u == 0x212A ==> t == "k")
            && (u != 0x130 && u != 0x212A ==> |t| == 1)
            && (0x100 <= u && u != 0x130 && u != 0x212A ==> t[0] as int >= 0x80)
            && (u < 0x100 ==> t == [LowerChar(u as char)])
  {
  }

  /** A text begins with an ASCII marker exactly when the bytes spell it. */
  lemma {:induction false} SpelledExactly(b: seq<byte>, m: string)
    requires IsAscii(m)
    ensures Spelled(b, m) <==> m <= Decoded(b)
    decreases |b|
  {
    hide Decoded, LowerChar, IsAscii;
    if m == [] {
    } else if |b| < 2 {
      TooShort(b);
    } else if LoneSurrogate(b) {
      LoneFirst(b);
      SpelledExactly(b[2..], m);
    } else if 0xD800 <= BeUnit(b, 0) < 0xE000 {
      var c := PairFirst(b);
      AsciiRest(m);
      StartsWithFirst(m, c, Decoded(b[4..]));
    } else {
      AsciiRest(m);
      SpelledExactly(b[2..], m[1..]);
      UnitSpells(b, m);
    }
  }

  lemma UnitSpells(b: seq<byte>, m: string)
    requires |b| >= 2 && !(0xD800 <= BeUnit(b, 0) < 0xE000) && m != [] && IsAscii(m)
    requires Spelled(b[2..], m[1..]) <==> m[1..] <= Decoded(b[2..])
    ensures Spelled(b, m) <==> m <= Decoded(b)
  {
    hide LowerAll, DecodeBe, LowerOne, LowerChar;
    var u, rest := BeUnit(b, 0), Decoded(b[2..]);
    PlainUnitFirst(b);
    LowerOfUnit(u);
    assert u < 0x100 ==> b[0] == 0 && u == b[1];
    var t := LowerOne(u as char);
    StartsWithFirst(m, t[0], t[1..] + rest);
    assert Decoded(b) == [t[0]] + (t[1..] + rest);
    if u == 0x130 {
      if |m| > 1 {
        assert m[1] == m[1..][0];
        StartsWithFirst(m[1..], t[1], rest);
        assert t[1..] + rest == [t[1]] + rest;
      }
    } else {
      assert t[1..] + rest == rest;
    }
  }

  /** What is spelled from any even offset is in the text, whatever stands before it. */
  lemma {:induction false} SpelledShows(b: seq<byte>, i: nat, m: string)
    requires i % 2 == 0 && i <= |b| && m != [] && IsAscii(m) && Spelled(b[i..], m)
    ensures Contains(Decoded(b), m)
    decreases |b| - i
  {
    hide LowerAll, DecodeBe, LowerChar;
    var p, q := b[..i], b[i..];
    assert b == p + q;
    if 0xDC <= q[0] <= 0xDF {
      assert q[2..] == b[i + 2..];
      SpelledShows(b, i + 2, m);
    } else {
      DecodeSplits(p, q);
      LowerConcat(DecodeBe(p), DecodeBe(q));
      SpelledExactly(q, m);
      var at := |Decoded(p)|;
      assert Decoded(b)[at..] == Decoded(q);
      assert MatchAt(Decoded(b), at, m);
    }
  }

  lemma HeadText(b: seq<byte>)
    requires |b| >= 2
    ensures var t, n := LowerAll(Head(b).0), Head(b).1;
            && Decoded(b) == t + Decoded(b[n..])
            && |t| <= 2 && (|t| == 2 ==> t[1] as int >= 0x80)
  {
    hide LowerAll;
    DecodeStep(b);
    LowerConcat(Head(b).0, DecodeBe(b[Head(b).1..]));
    NothingToLower();
    if Head(b).0 != [] {
      var c := Head(b).0[0];
      LowerOneMore(c, []);
      assert Head(b).0 == [c] == [c] + [] && LowerOne(c) + [] == LowerOne(c);
    }
  }

  /** A marker in the text is spelled in the bytes. */
  lemma {:induction false} TextIsSpelled(b: seq<byte>, at: nat, m: string) returns (i: nat)
    requires m != [] && IsAscii(m) && MatchAt(Decoded(b), at, m)
    ensures i % 2 == 0 && i <= |b| && Spelled(b[i..], m)
    decreases |b|
  {
    hide LowerAll, DecodeBe, LowerChar, Head, Decoded, Spelled;
    var text := Decoded(b);
    if |b| < 2 {
      TooShort(b);
      assert false;
    } else if at == 0 {
      assert text[0..|m|] == m;
      SpelledExactly(b, m);
      assert b[0..] == b;
      i := 0;
    } else {
      HeadText(b);
      var t, n := LowerAll(Head(b).0), Head(b).1;
      assert text[at] == m[0] by {
        assert text[at..at + |m|][0] == text[at];
      }
      AsciiRest(m);
      var from := at - |t|;
      assert Decoded(b[n..])[from..from + |m|] == text[at..at + |m|];
      var j := TextIsSpelled(b[n..], from, m);
      i := n + j;
      assert b[n..][j..] == b[i..];
    }
  }

  // ---- the views ----

  /** An odd byte at the end spells nothing. */
  lemma {:induction false} SpelledWithoutOddByte(b: seq<byte>, m: string)
    requires |b| % 2 == 1
    ensures Spelled(b, m) <==> Spelled(b[..|b| - 1], m)
    decreases |b|
  {
    hide LowerChar;
    var front := b[..|b| - 1];
    if m != [] && |b| > 1 {
      assert BeUnit(front, 0) == BeUnit(b, 0);
      assert |b| >= 4 ==> BeUnit(front, 2) == BeUnit(b, 2);
      assert front[2..] == b[2..][..|b[2..]| - 1];
      SpelledWithoutOddByte(b[2..], m);
      SpelledWithoutOddByte(b[2..], m[1..]);
    }
  }

  /** The whole units from an even or an odd offset on. */
  function Units(d: seq<byte>, start: nat): (b: seq<byte>)
    requires start <= |d|
    ensures |b| == (|d| - start) / 2 * 2
  {
    d[start..][..|d[start..]| / 2 * 2]
  }

  lemma WideViewIs(d: seq<byte>, start: nat)
    requires start < 2 && start <= |d|
    ensures Views(d)[1 + start] == Decoded(Units(d, start))
  {
    hide LowerAll, DecodeBe;
    assert start == 0 ==> d[start..] == d;
  }

  lemma MarkerIsAscii(m: string)
    requires IsMarker(m)
    ensures m != [] && IsAscii(m)
  {
  }

  lemma WholeUnits(d: seq<byte>, start: nat, i: nat, m: string)
    requires start <= i <= |d| && (i - start) % 2 == 0
    ensures var b := Units(d, start);
            i - start <= |b| ==> (Spelled(b[i - start..], m) <==> Spelled(d[i..], m))
  {
    hide Spelled;
    var body := d[start..];
    var b := Units(d, start);
    if i - start <= |b| {
      if |body| % 2 == 1 {
        SpelledWithoutOddByte(d[i..], m);
        assert b[i - start..] == d[i..][..|d[i..]| - 1];
      } else {
        assert b[i - start..] == d[i..];
      }
    }
  }

  lemma SpellingIsInside(d: seq<byte>, i: nat, m: string)
    requires i <= |d| && m != [] && Spelled(d[i..], m)
    ensures i + 2 <= |d|
  {
  }

  /** On any data at all, a marker is in one of the three views exactly when it is shown in the bytes. */
  lemma ViewsShowExactly(d: seq<byte>, m: string)
    requires IsMarker(m)
    ensures (exists v :: 0 <= v < 3 && Contains(Views(d)[v], m)) <==> Shown(d, m)
  {
    hide Contains, Spelled, NarrowAt, Views;
    if Shown(d, m) {
      var i :| 0 <= i <= |d| && ShownAt(d, i, m);
      if NarrowAt(d, i, m) {
        NarrowInView(d, i, m);
      } else {
        SpelledInView(d, i, m);
      }
    }
    if v :| 0 <= v < 3 && Contains(Views(d)[v], m) {
      var i := InBytes(d, v, m);
      assert ShownAt(d, i, m);
    }
  }

  lemma NarrowInView(d: seq<byte>, i: nat, m: string)
    requires NarrowAt(d, i, m)
    ensures Contains(Views(d)[0], m)
  {
    hide Contains, NarrowAt;
    NarrowShows(d, i, m);
  }

  lemma SpelledInView(d: seq<byte>, i: nat, m: string)
    requires i <= |d| && IsMarker(m) && Spelled(d[i..], m)
    ensures Contains(Views(d)[1 + i % 2], m)
  {
    hide Contains, Spelled, LowerAll, DecodeBe, Views, Units, IsMarker, Decoded;
    MarkerIsAscii(m);
    SpellingIsInside(d, i, m);
    var start := i % 2;
    WideViewIs(d, start);
    WholeUnits(d, start, i, m);
    SpelledShows(Units(d, start), i - start, m);
  }

  lemma InBytes(d: seq<byte>, v: nat, m: string) returns (i: nat)
    requires IsMarker(m) && v < 3 && Contains(Views(d)[v], m)
    ensures i <= |d| && ShownAt(d, i, m)
  {
    hide Spelled, LowerAll, DecodeBe, NarrowAt;
    if v == 0 {
      i := NarrowOnly(d, m);
      NarrowIsInside(d, i, m);
    } else {
      var start := if v == 2 && |d| > 0 then 1 else 0;
      var b := Units(d, start);
      assert start == 0 ==> d[start..] == d;
      var at :| 0 <= at <= |Decoded(b)| && MatchAt(Decoded(b), at, m);
      var j := TextIsSpelled(b, at, m);
      i := start + j;
      WholeUnits(d, start, i, m);
    }
  }

  lemma NarrowIsInside(d: seq<byte>, i: nat, m: string)
    requires NarrowAt(d, i, m)
    ensures i <= |d|
  {
  }

  lemma SeenExactly(window: seq<byte>, ms: seq<string>)
    requires AreMarkers(ms)
    ensures Seen(window, 3, ms) <==> ShownAny(window, ms)
  {
    hide Views, Contains, Shown, IsMarker;
    if Seen(window, 3, ms) {
      var v :| 0 <= v < 3 && ContainsAny(Views(window)[v], ms);
      var k :| 0 <= k < |ms| && Contains(Views(window)[v], ms[k]);
      ViewsShowExactly(window, ms[k]);
    }
    if ShownAny(window, ms) {
      var k :| 0 <= k < |ms| && Shown(window, ms[k]);
      ViewsShowExactly(window, ms[k]);
    }
  }

  // ---- the verdict ----

  predicate AnyShown(windows: seq<seq<byte>>, ms: seq<string>) {
    exists i :: 0 <= i < |windows| && ShownAny(windows[i], ms)
  }

  lemma AnySeenExactly(windows: seq<seq<byte>>, ms: seq<string>)
    requires AreMarkers(ms)
    ensures AnySeen(windows, ms) <==> AnyShown(windows, ms)
  {
    hide Seen, ShownAny, AreMarkers;
    if i :| 0 <= i < |windows| && Seen(windows[i], 3, ms) {
      SeenExactly(windows[i], ms);
    }
    if i :| 0 <= i < |windows| && ShownAny(windows[i], ms) {
      SeenExactly(windows[i], ms);
    }
  }

  /** Some window lets a marker through that is not in the bytes as it stands. */
  ghost predicate Invents(whole: seq<byte>, windows: seq<seq<byte>>, ms: seq<string>) {
    AnyShown(windows, ms) && !OccursAny(whole, ms)
  }

  /**
   * The verdict on any data, from the bytes of its windows alone; and it is that
   * of searching the whole front exactly unless a window spells a marker that
   * decides it over surrogates or with a special letter, where none occurs.
   */
  lemma VerdictExactly(chunks: seq<seq<byte>>)
    ensures var whole, windows := ScannedFrom([], chunks, 0), Windows([], chunks, 0);
            var kind := Verdict(windows);
            && (kind == 0 <==> AnyShown(windows, ISO_WINDOWS))
            && (kind == 1 <==> !AnyShown(windows, ISO_WINDOWS) && AnyShown(windows, ISO_LINUX))
            && (kind == (if OccursAny(whole, ISO_WINDOWS) then 0 else if OccursAny(whole, ISO_LINUX) then 1 else 2)
                <==> !Invents(whole, windows, ISO_WINDOWS)
                     && (Invents(whole, windows, ISO_LINUX) ==> AnyShown(windows, ISO_WINDOWS)))
  {
    hide OccursAny, AnySeen, AnyShown, Windows, ScannedFrom, AreMarkers, Clean;
    Markers();
    VerdictIsRight(chunks);
    AnySeenExactly(Windows([], chunks, 0), ISO_WINDOWS);
    AnySeenExactly(Windows([], chunks, 0), ISO_LINUX);
  }
}
