/** iso_kind: what system an image holds, found by scanning its front in chunks. */
module IsoScan {
  import opened Bytes
  import opened Text

  const ISO_SCAN: nat := 0x400_0000
  const ISO_CHUNK: nat := 0x40_0000
  const CARRY: nat := 64
  const ISO_WINDOWS: seq<string> := ["install.wim", "install.esd", "boot.wim", "bootmgr.efi"]
  const ISO_LINUX: seq<string> := ["isolinux", "casper", "vmlinuz", "initrd.img", "grub.cfg"]

  /** What the scan looks for: lower-case ASCII, at most 11 characters. */
  predicate IsMarker(m: string) {
    0 < |m| <= 11 && forall k :: 0 <= k < |m| ==> m[k] as int < 0x80
  }

  lemma MarkersAreMarkers(k: nat)
    ensures k < |ISO_WINDOWS| ==> IsMarker(ISO_WINDOWS[k])
    ensures k < |ISO_LINUX| ==> IsMarker(ISO_LINUX[k])
  {
  }

  // ---- the three views ----

  /** The first unit of big-endian UTF-16 text: its characters, and how many bytes they took. */
  function Head(b: seq<byte>): (r: (string, nat))
    requires |b| >= 2
    ensures r.1 == 2 || (r.1 == 4 && |b| >= 4)
  {
    var u := BeUnit(b, 0);
    if u < 0xD800 || 0xE000 <= u then ([u as char], 2)
    else if u < 0xDC00 && |b| >= 4 && 0xDC00 <= BeUnit(b, 2) < 0xE000 then
      ([(0x1_0000 + (u - 0xD800) * 0x400 + (BeUnit(b, 2) - 0xDC00)) as char], 4)
    else ([], 2)
  }

  /** Big-endian UTF-16, leniently: a pair of surrogates is one character, a lone one is dropped. */
  function DecodeBe(b: seq<byte>): string {
    if |b| < 2 then [] else Head(b).0 + DecodeBe(b[Head(b).1..])
  }

  function BeUnit(b: seq<byte>, at: nat): (u: nat)
    requires at + 2 <= |b|
    ensures u < 0x1_0000
  {
    0x100 * (b[at] as int) + b[at + 1] as int
  }

  /**
   * One character of str.lower(). Beyond Latin-1 only the two letters whose
   * lower case holds an ASCII one matter to an ASCII search: the Kelvin sign
   * and the dotted capital I. Every other character is left as it is.
   */
  function LowerOne(c: char): string {
    if c as int == 0x212A then ['k']
    else if c as int == 0x130 then ['i', 0x307 as char]
    else if c as int < 0x100 then [LowerChar(c)] else [c]
  }

  function LowerAll(s: string): string {
    if s == [] then [] else LowerOne(s[0]) + LowerAll(s[1..])
  }

  /** The whole units of a byte string, decoded and lower-cased. */
  function WideView(body: seq<byte>): string {
    LowerAll(DecodeBe(body[..|body| / 2 * 2]))
  }

  function Views(buf: seq<byte>): (r: seq<string>)
    ensures |r| == 3
  {
    [Lower(DecodeLatin1(buf)), WideView(buf), WideView(buf[if |buf| > 0 then 1 else 0..])]
  }

  predicate MatchAt(text: string, i: int, m: string) {
    0 <= i && i + |m| <= |text| && text[i..i + |m|] == m
  }

  /** The marker is in the text. */
  predicate Contains(text: string, m: string) {
    exists i :: 0 <= i <= |text| && MatchAt(text, i, m)
  }

  /** Some marker is in the text. */
  predicate ContainsAny(text: string, ms: seq<string>) {
    exists k :: 0 <= k < |ms| && Contains(text, ms[k])
  }

  // ---- an occurrence in the bytes themselves ----

  /** The marker's letters, in either case, in consecutive bytes. */
  predicate NarrowAt(d: seq<byte>, i: nat, m: string) {
    i + |m| <= |d| && forall k :: 0 <= k < |m| ==> LowerChar(d[i + k] as char) == m[k]
  }

  /** The same as big-endian 16-bit units, from an even or an odd offset. */
  predicate WideAt(d: seq<byte>, i: nat, m: string) {
    i + 2 * |m| <= |d| && forall k :: 0 <= k < |m| ==> Letter(d, i + 2 * k, m[k])
  }

  predicate Letter(d: seq<byte>, at: nat, c: char)
    requires at + 2 <= |d|
  {
    d[at] == 0 && LowerChar(d[at + 1] as char) == c
  }

  ghost predicate Occurs(d: seq<byte>, m: string) {
    exists i: nat :: NarrowAt(d, i, m) || WideAt(d, i, m)
  }

  ghost predicate OccursAny(d: seq<byte>, ms: seq<string>) {
    exists k :: 0 <= k < |ms| && Occurs(d, ms[k])
  }

  /** No surrogate and neither of the two special letters, at either alignment. */
  predicate Clean(d: seq<byte>) {
    forall i :: 0 <= i < |d| - 1 ==> CleanUnit(BeUnit(d, i))
  }

  predicate CleanUnit(u: nat) {
    u < 0x1_0000 && !(0xD800 <= u < 0xE000) && u != 0x212A && u != 0x130
  }

  // ---- the narrow view ----

  lemma NarrowShows(d: seq<byte>, i: nat, m: string)
    requires NarrowAt(d, i, m)
    ensures Contains(Lower(DecodeLatin1(d)), m)
  {
    hide LowerChar;
    var text := Lower(DecodeLatin1(d));
    forall k | 0 <= k < |m|
      ensures text[i + k] == m[k]
    {
      assert DecodeLatin1(d)[i + k] == d[i + k] as char;
    }
    assert text[i..i + |m|] == m;
    assert MatchAt(text, i, m);
  }

  lemma NarrowOnly(d: seq<byte>, m: string) returns (i: nat)
    requires Contains(Lower(DecodeLatin1(d)), m)
    ensures NarrowAt(d, i, m)
  {
    hide LowerChar;
    var text := Lower(DecodeLatin1(d));
    i :| 0 <= i <= |text| && MatchAt(text, i, m);
    forall k | 0 <= k < |m|
      ensures LowerChar(d[i + k] as char) == m[k]
    {
      assert DecodeLatin1(d)[i + k] == d[i + k] as char;
      assert text[i..i + |m|][k] == text[i + k];
    }
  }

  // ---- the wide views ----

  lemma HeadOfConcat(p: seq<byte>, q: seq<byte>)
    requires |p| >= 2 && |p| % 2 == 0 && |q| >= 2 && !(0xDC <= q[0] <= 0xDF)
    ensures Head(p + q) == Head(p)
  {
    var s := p + q;
    assert BeUnit(s, 0) == BeUnit(p, 0);
    if |p| >= 4 {
      assert BeUnit(s, 2) == BeUnit(p, 2);
    } else {
      assert BeUnit(s, 2) == BeUnit(q, 0);
    }
  }

  /** Decoding splits before any unit that is no low surrogate, whatever stands before it. */
  lemma {:induction false} DecodeSplits(p: seq<byte>, q: seq<byte>)
    requires |p| % 2 == 0 && |q| >= 2 && !(0xDC <= q[0] <= 0xDF)
    ensures DecodeBe(p + q) == DecodeBe(p) + DecodeBe(q)
    decreases |p|
  {
    hide Head, DecodeBe;
    if p == [] {
      assert p + q == q;
      DecodeNothing();
    } else {
      HeadOfConcat(p, q);
      var n := Head(p).1;
      DecodeSplits(p[n..], q);
      assert (p + q)[n..] == p[n..] + q;
      DecodeStep(p);
      DecodeStep(p + q);
    }
  }

  lemma DecodeNothing()
    ensures DecodeBe([]) == []
  {
  }

  lemma DecodeStep(b: seq<byte>)
    requires |b| >= 2
    ensures DecodeBe(b) == Head(b).0 + DecodeBe(b[Head(b).1..])
  {
    hide Head;
  }

  lemma LowerOneMore(c: char, s: string)
    ensures LowerAll([c] + s) == LowerOne(c) + LowerAll(s)
  {
    hide LowerOne;
    assert ([c] + s)[1..] == s;
  }

  lemma {:induction false} LowerConcat(a: string, b: string)
    ensures LowerAll(a + b) == LowerAll(a) + LowerAll(b)
  {
    hide LowerOne, LowerAll;
    if a == [] {
      assert a + b == b && LowerAll([]) == [] by { NothingToLower(); }
    } else {
      LowerConcat(a[1..], b);
      LowerOneMore(a[0], a[1..] + b);
      LowerOneMore(a[0], a[1..]);
      assert a + b == [a[0]] + (a[1..] + b) && a == [a[0]] + a[1..];
    }
  }

  lemma NothingToLower()
    ensures LowerAll([]) == []
  {
  }

  /** One unit that is no surrogate, and the text after it. */
  lemma PlainUnitFirst(d: seq<byte>)
    requires |d| >= 2 && !(0xD800 <= BeUnit(d, 0) < 0xE000)
    ensures LowerAll(DecodeBe(d)) == LowerOne(BeUnit(d, 0) as char) + LowerAll(DecodeBe(d[2..]))
  {
    hide LowerOne, LowerAll;
    LowerOneMore(BeUnit(d, 0) as char, DecodeBe(d[2..]));
  }

  lemma LetterFirst(d: seq<byte>, c: char)
    requires |d| >= 2 && Letter(d, 0, c)
    ensures LowerAll(DecodeBe(d)) == [c] + LowerAll(DecodeBe(d[2..]))
  {
    hide DecodeBe, LowerAll;
    PlainUnitFirst(d);
    assert BeUnit(d, 0) == d[1];
  }

  /** Text that starts with a wide marker decodes and lowers to text that starts with it. */
  lemma {:induction false} WideStarts(d: seq<byte>, m: string)
    requires WideAt(d, 0, m)
    ensures m <= LowerAll(DecodeBe(d))
  {
    hide LowerAll, DecodeBe, LowerChar;
    if m == [] {
    } else {
      var rest := m[1..];
      forall k | 0 <= k < |rest|
        ensures Letter(d[2..], 0 + 2 * k, rest[k])
      {
        assert Letter(d, 0 + 2 * (k + 1), m[k + 1]);
      }
      WideStarts(d[2..], rest);
      assert Letter(d, 0 + 2 * 0, m[0]);
      LetterFirst(d, m[0]);
    }
  }

  /** A wide marker at an even offset is in the decoded, lower-cased text, whatever surrounds it. */
  lemma WideInText(b: seq<byte>, i: nat, m: string)
    requires i % 2 == 0 && |m| > 0 && WideAt(b, i, m)
    ensures Contains(LowerAll(DecodeBe(b)), m)
  {
    hide LowerAll, DecodeBe, LowerChar;
    var p, q := b[..i], b[i..];
    assert b == p + q;
    forall k | 0 <= k < |m|
      ensures Letter(q, 0 + 2 * k, m[k])
    {
      assert Letter(b, i + 2 * k, m[k]);
    }
    assert Letter(q, 0 + 2 * 0, m[0]);
    DecodeSplits(p, q);
    LowerConcat(DecodeBe(p), DecodeBe(q));
    WideStarts(q, m);
    var text, at := LowerAll(DecodeBe(b)), |LowerAll(DecodeBe(p))|;
    assert text[at..] == LowerAll(DecodeBe(q));
    assert MatchAt(text, at, m);
  }

  lemma WideShows(d: seq<byte>, i: nat, m: string)
    requires |m| > 0 && WideAt(d, i, m)
    ensures Contains(Views(d)[1 + i % 2], m)
  {
    hide LowerAll, DecodeBe, LowerChar, Contains;
    var start := i % 2;
    var body := d[start..];
    var b := body[..|body| / 2 * 2];
    forall k | 0 <= k < |m|
      ensures Letter(b, i - start + 2 * k, m[k])
    {
      assert Letter(d, i + 2 * k, m[k]);
    }
    WideInText(b, i - start, m);
    assert start == 0 ==> body == d;
  }

  /** Clean text keeps one character per unit, and a character below 0x80 comes from a plain letter. */
  lemma {:induction false} CleanText(b: seq<byte>, k: nat)
    requires Clean(b) && |b| % 2 == 0
    ensures |LowerAll(DecodeBe(b))| == |b| / 2
    ensures k < |b| / 2 && LowerAll(DecodeBe(b))[k] as int < 0x80 ==> Letter(b, 2 * k, LowerAll(DecodeBe(b))[k])
  {
    hide LowerAll, DecodeBe, LowerOne;
    if b == [] {
      NoText();
    } else {
      var rest := b[2..];
      assert Clean(rest) by {
        forall i | 0 <= i < |rest| - 1
          ensures CleanUnit(BeUnit(rest, i))
        {
          assert BeUnit(rest, i) == BeUnit(b, i + 2);
        }
      }
      assert CleanUnit(BeUnit(b, 0));
      PlainUnitFirst(b);
      CleanLower(BeUnit(b, 0));
      CleanText(rest, if k > 0 then k - 1 else 0);
    }
  }

  lemma NoText()
    ensures LowerAll(DecodeBe([])) == []
  {
  }

  lemma CleanLower(u: nat)
    requires CleanUnit(u)
    ensures |LowerOne(u as char)| == 1
    ensures LowerOne(u as char)[0] as int < 0x80 ==> u < 0x100 && LowerOne(u as char)[0] == LowerChar(u as char)
  {
  }

  /** In clean data the decoded text holds no marker that is not in the bytes. */
  lemma WideOnly(b: seq<byte>, m: string) returns (i: nat)
    requires Clean(b) && |b| % 2 == 0 && IsMarker(m) && Contains(LowerAll(DecodeBe(b)), m)
    ensures WideAt(b, 2 * i, m)
  {
    hide LowerAll, DecodeBe, LowerChar, CleanUnit;
    var text := LowerAll(DecodeBe(b));
    i :| 0 <= i <= |text| && MatchAt(text, i, m);
    CleanText(b, 0);
    forall k | 0 <= k < |m|
      ensures Letter(b, 2 * i + 2 * k, m[k])
    {
      CleanText(b, i + k);
      assert text[i..i + |m|][k] == text[i + k];
    }
  }

  lemma PartIsClean(d: seq<byte>, a: nat, e: nat)
    requires a <= e <= |d| && Clean(d)
    ensures Clean(d[a..e])
  {
    hide CleanUnit;
    forall i | 0 <= i < e - a - 1
      ensures CleanUnit(BeUnit(d[a..e], i))
    {
      assert BeUnit(d[a..e], i) == BeUnit(d, a + i);
    }
  }

  lemma OccursInWhole(d: seq<byte>, a: nat, e: nat, m: string)
    requires a <= e <= |d| && Occurs(d[a..e], m)
    ensures Occurs(d, m)
  {
    hide LowerChar;
    var part := d[a..e];
    var i: nat :| NarrowAt(part, i, m) || WideAt(part, i, m);
    if NarrowAt(part, i, m) {
      forall k | 0 <= k < |m|
        ensures LowerChar(d[a + i + k] as char) == m[k]
      {
        assert part[i + k] == d[a + i + k];
      }
      assert NarrowAt(d, a + i, m);
    } else {
      forall k | 0 <= k < |m|
        ensures Letter(d, a + i + 2 * k, m[k])
      {
        assert Letter(part, i + 2 * k, m[k]);
      }
      assert WideAt(d, a + i, m);
    }
  }

  // ---- the views show exactly the occurrences ----

  predicate Seen(window: seq<byte>, views: nat, ms: seq<string>)
    requires views <= 3
  {
    exists v :: 0 <= v < views && ContainsAny(Views(window)[v], ms)
  }

  lemma ViewsShow(d: seq<byte>, m: string)
    requires IsMarker(m) && Occurs(d, m)
    ensures exists v :: 0 <= v < 3 && Contains(Views(d)[v], m)
  {
    hide LowerAll, DecodeBe, LowerChar, Contains, WideView, NarrowAt, WideAt;
    var i: nat :| NarrowAt(d, i, m) || WideAt(d, i, m);
    if NarrowAt(d, i, m) {
      NarrowShows(d, i, m);
      assert Contains(Views(d)[0], m);
    } else {
      WideShows(d, i, m);
    }
  }

  lemma ViewsShowOnly(d: seq<byte>, v: nat, m: string)
    requires Clean(d) && IsMarker(m) && v < 3 && Contains(Views(d)[v], m)
    ensures Occurs(d, m)
  {
    hide LowerAll, DecodeBe, LowerChar, Contains, NarrowAt, WideAt, Clean;
    if v == 0 {
      var i := NarrowOnly(d, m);
    } else {
      var start := if v == 2 && |d| > 0 then 1 else 0;
      var end := start + (|d| - start) / 2 * 2;
      assert d[start..][..end - start] == d[start..end];
      PartIsClean(d, start, end);
      assert start == 0 ==> d[start..] == d;
      var i := WideOnly(d[start..end], m);
      OccursInWhole(d, start, end, m);
    }
  }

  // ---- the chunked scan ----

  function Tail(d: seq<byte>, n: nat): (r: seq<byte>)
    ensures |r| == if |d| < n then |d| else n
  {
    d[if |d| > n then |d| - n else 0..]
  }

  /** What has been read once the loop stops, when d has been read and chunks[k..] are still to come. */
  function ScannedFrom(d: seq<byte>, chunks: seq<seq<byte>>, k: nat): seq<byte>
    requires k <= |chunks|
    decreases |chunks| - k
  {
    if k == |chunks| || |d| >= ISO_SCAN then d else ScannedFrom(d + chunks[k], chunks, k + 1)
  }

  /** A file, however its reads divide it. */
  function WholeFile(chunks: seq<seq<byte>>, k: nat): seq<byte>
    requires k <= |chunks|
    decreases |chunks| - k
  {
    if k == |chunks| then [] else chunks[k] + WholeFile(chunks, k + 1)
  }

  /** The scan sees a front of the file, all of it or at least ISO_SCAN bytes, and at most one read more. */
  lemma {:induction false} ScanCoversTheFront(d: seq<byte>, chunks: seq<seq<byte>>, k: nat)
    requires k <= |chunks|
    ensures d <= ScannedFrom(d, chunks, k) <= d + WholeFile(chunks, k)
    ensures |ScannedFrom(d, chunks, k)| < 0x400_0000 ==> ScannedFrom(d, chunks, k) == d + WholeFile(chunks, k)
    ensures |d| < 0x440_0000 && (forall c <- chunks :: |c| <= 0x40_0000) ==> |ScannedFrom(d, chunks, k)| < 0x440_0000
    decreases |chunks| - k
  {
    if k >= |chunks| {
    } else {
      ScanCoversTheFront(d + chunks[k], chunks, k + 1);
      assert d + chunks[k] + WholeFile(chunks, k + 1) == d + WholeFile(chunks, k);
    }
  }

  /** Bytes that end within d occur in d. */
  lemma OccursEarlier(d: seq<byte>, buf: seq<byte>, i: nat, m: string)
    requires (NarrowAt(d + buf, i, m) && i + |m| <= |d|) || (WideAt(d + buf, i, m) && i + 2 * |m| <= |d|)
    ensures Occurs(d, m)
  {
    hide LowerChar;
    if NarrowAt(d + buf, i, m) && i + |m| <= |d| {
      assert NarrowAt(d, i, m);
    } else {
      forall k | 0 <= k < |m|
        ensures Letter(d, i + 2 * k, m[k])
      {
        assert Letter(d + buf, i + 2 * k, m[k]);
      }
      assert WideAt(d, i, m);
    }
  }

  /** An occurrence that the bytes read before did not hold lies inside the carry and the new chunk. */
  lemma NewOccurrenceInWindow(d: seq<byte>, buf: seq<byte>, m: string)
    requires IsMarker(m) && Occurs(d + buf, m)
    ensures Occurs(d, m) || Occurs(Tail(d, CARRY) + buf, m)
  {
    hide LowerChar;
    var all, window := d + buf, Tail(d, CARRY) + buf;
    var skip := |all| - |window|;
    assert all[skip..] == window;
    var i: nat :| NarrowAt(all, i, m) || WideAt(all, i, m);
    if (NarrowAt(all, i, m) && i + |m| <= |d|) || (WideAt(all, i, m) && i + 2 * |m| <= |d|) {
      OccursEarlier(d, buf, i, m);
    } else if NarrowAt(all, i, m) {
      forall k | 0 <= k < |m|
        ensures LowerChar(window[i - skip + k] as char) == m[k]
      {
        assert window[i - skip + k] == all[i + k];
      }
      assert NarrowAt(window, i - skip, m);
    } else {
      forall k | 0 <= k < |m|
        ensures Letter(window, i - skip + 2 * k, m[k])
      {
        assert Letter(all, i + 2 * k, m[k]);
      }
      assert WideAt(window, i - skip, m);
    }
  }

  predicate AreMarkers(ms: seq<string>) {
    forall k :: 0 <= k < |ms| ==> IsMarker(ms[k])
  }

  /** Nothing in the window's views: nothing new in the bytes. */
  lemma NothingMissed(d: seq<byte>, buf: seq<byte>, ms: seq<string>)
    requires AreMarkers(ms) && OccursAny(d + buf, ms)
    ensures OccursAny(d, ms) || Seen(Tail(d, CARRY) + buf, 3, ms)
  {
    hide Occurs, Views, Contains, IsMarker, Tail;
    var k :| 0 <= k < |ms| && Occurs(d + buf, ms[k]);
    if !Occurs(d, ms[k]) {
      NewOccurrenceInWindow(d, buf, ms[k]);
      ViewsShow(Tail(d, CARRY) + buf, ms[k]);
    }
  }

  /** Something in the window's views of clean data: it is in the bytes. */
  lemma NothingInvented(d: seq<byte>, buf: seq<byte>, ms: seq<string>)
    requires AreMarkers(ms) && Clean(d + buf) && Seen(Tail(d, CARRY) + buf, 3, ms)
    ensures OccursAny(d + buf, ms)
  {
    hide Occurs, Views, Contains, IsMarker, Clean;
    var all, window := d + buf, Tail(d, CARRY) + buf;
    assert all[|all| - |window|..|all|] == window;
    PartIsClean(all, |all| - |window|, |all|);
    var v :| 0 <= v < 3 && ContainsAny(Views(window)[v], ms);
    var k :| 0 <= k < |ms| && Contains(Views(window)[v], ms[k]);
    ViewsShowOnly(window, v, ms[k]);
    OccursInWhole(all, |all| - |window|, |all|, ms[k]);
  }

  lemma OccursAnyInWhole(d: seq<byte>, all: seq<byte>, ms: seq<string>)
    requires d <= all && OccursAny(d, ms)
    ensures OccursAny(all, ms)
  {
    hide Occurs;
    var k :| 0 <= k < |ms| && Occurs(d, ms[k]);
    assert all[0..|d|] == d;
    OccursInWhole(all, 0, |d|, ms[k]);
  }

  lemma CleanFront(d: seq<byte>, all: seq<byte>)
    requires d <= all && Clean(all)
    ensures Clean(d)
  {
    PartIsClean(all, 0, |d|);
    assert all[0..|d|] == d;
  }

  lemma Markers()
    ensures AreMarkers(ISO_WINDOWS) && AreMarkers(ISO_LINUX)
  {
    forall k | 0 <= k < |ISO_WINDOWS|
      ensures IsMarker(ISO_WINDOWS[k])
    {
      MarkersAreMarkers(k);
    }
    forall k | 0 <= k < |ISO_LINUX|
      ensures IsMarker(ISO_LINUX[k])
    {
      MarkersAreMarkers(k);
    }
  }

  /** One window: whether a Windows marker shows, and otherwise whether a Linux one does. */
  method Look(window: seq<byte>) returns (windows: bool, linux: bool)
    ensures windows <==> Seen(window, 3, ISO_WINDOWS)
    ensures !windows ==> (linux <==> Seen(window, 3, ISO_LINUX))
  {
    hide ContainsAny, Views;
    linux := false;
    var v: nat := 0;
    while v < 3
      invariant v <= 3
      invariant !Seen(window, v, ISO_WINDOWS)
      invariant linux <==> Seen(window, v, ISO_LINUX)
    {
      var text := Views(window)[v];
      if ContainsAny(text, ISO_WINDOWS) {
        return true, linux;
      }
      linux := linux || ContainsAny(text, ISO_LINUX);
      v := v + 1;
    }
    return false, linux;
  }

  // ---- the verdict ----

  /** The windows the loop looks at, when d has been read and chunks[k..] are still to come. */
  function Windows(d: seq<byte>, chunks: seq<seq<byte>>, k: nat): seq<seq<byte>>
    requires k <= |chunks|
    decreases |chunks| - k
  {
    if k == |chunks| || |d| >= ISO_SCAN then []
    else [Tail(d, CARRY) + chunks[k]] + Windows(d + chunks[k], chunks, k + 1)
  }

  predicate AnySeen(windows: seq<seq<byte>>, ms: seq<string>) {
    exists i :: 0 <= i < |windows| && Seen(windows[i], 3, ms)
  }

  /** A Windows marker in any window wins over a Linux one. */
  function Verdict(windows: seq<seq<byte>>): nat {
    if AnySeen(windows, ISO_WINDOWS) then 0 else if AnySeen(windows, ISO_LINUX) then 1 else 2
  }

  lemma SeenInMore(windows: seq<seq<byte>>, w: seq<byte>, ms: seq<string>)
    ensures AnySeen(windows + [w], ms) <==> AnySeen(windows, ms) || Seen(w, 3, ms)
    ensures AnySeen([w] + windows, ms) <==> Seen(w, 3, ms) || AnySeen(windows, ms)
  {
    hide Seen;
    assert (windows + [w])[|windows|] == w && ([w] + windows)[0] == w;
    if i :| 0 <= i < |windows| && Seen(windows[i], 3, ms) {
      assert (windows + [w])[i] == windows[i] && ([w] + windows)[i + 1] == windows[i];
    }
    var more := [w] + windows;
    if i :| 0 < i < |more| && Seen(more[i], 3, ms) {
      assert more[i] == windows[i - 1];
    }
  }

  lemma SeenInFront(windows: seq<seq<byte>>, more: seq<seq<byte>>, ms: seq<string>)
    requires AnySeen(windows, ms)
    ensures AnySeen(windows + more, ms)
  {
    hide Seen;
    var i :| 0 <= i < |windows| && Seen(windows[i], 3, ms);
    assert (windows + more)[i] == windows[i];
  }

  /** Whatever occurs in the bytes scanned shows in some window. */
  lemma {:induction false} WindowsShow(d: seq<byte>, chunks: seq<seq<byte>>, k: nat, ms: seq<string>)
    requires k <= |chunks| && AreMarkers(ms) && OccursAny(ScannedFrom(d, chunks, k), ms)
    ensures OccursAny(d, ms) || AnySeen(Windows(d, chunks, k), ms)
    decreases |chunks| - k
  {
    hide OccursAny, AnySeen, AreMarkers, Tail, Seen;
    if k == |chunks| || |d| >= ISO_SCAN {
    } else {
      WindowsShow(d + chunks[k], chunks, k + 1, ms);
      SeenInMore(Windows(d + chunks[k], chunks, k + 1), Tail(d, CARRY) + chunks[k], ms);
      if OccursAny(d + chunks[k], ms) {
        NothingMissed(d, chunks[k], ms);
      }
    }
  }

  /** In clean data, whatever shows in a window occurs in the bytes scanned. */
  lemma {:induction false} WindowsShowOnly(d: seq<byte>, chunks: seq<seq<byte>>, k: nat, ms: seq<string>)
    requires k <= |chunks| && AreMarkers(ms) && Clean(ScannedFrom(d, chunks, k)) && AnySeen(Windows(d, chunks, k), ms)
    ensures OccursAny(ScannedFrom(d, chunks, k), ms)
    decreases |chunks| - k
  {
    hide OccursAny, AnySeen, AreMarkers, Tail, Seen, Clean;
    if k == |chunks| || |d| >= ISO_SCAN {
      NoWindow(ms);
    } else {
      var window, whole := Tail(d, CARRY) + chunks[k], ScannedFrom(d + chunks[k], chunks, k + 1);
      SeenInMore(Windows(d + chunks[k], chunks, k + 1), window, ms);
      if Seen(window, 3, ms) {
        ScanCoversTheFront(d + chunks[k], chunks, k + 1);
        CleanFront(d + chunks[k], whole);
        NothingInvented(d, chunks[k], ms);
        OccursAnyInWhole(d + chunks[k], whole, ms);
      } else {
        WindowsShowOnly(d + chunks[k], chunks, k + 1, ms);
      }
    }
  }

  lemma NoWindow(ms: seq<string>)
    ensures !AnySeen([], ms)
  {
  }

  /**
   * The verdict against the whole front of the file, however the reads divide
   * it: it misses no marker, and on clean data it is exact.
   */
  lemma VerdictIsRight(chunks: seq<seq<byte>>)
    ensures var whole, kind := ScannedFrom([], chunks, 0), Verdict(Windows([], chunks, 0));
            && (OccursAny(whole, ISO_WINDOWS) ==> kind == 0)
            && (OccursAny(whole, ISO_LINUX) ==> kind <= 1)
            && (Clean(whole) ==>
                  kind == if OccursAny(whole, ISO_WINDOWS) then 0 else if OccursAny(whole, ISO_LINUX) then 1 else 2)
  {
    hide OccursAny, AnySeen, AreMarkers, Clean, Windows, ScannedFrom;
    Markers();
    NothingOccurs();
    var whole, windows := ScannedFrom([], chunks, 0), Windows([], chunks, 0);
    if OccursAny(whole, ISO_WINDOWS) {
      WindowsShow([], chunks, 0, ISO_WINDOWS);
    }
    if OccursAny(whole, ISO_LINUX) {
      WindowsShow([], chunks, 0, ISO_LINUX);
    }
    if Clean(whole) && AnySeen(windows, ISO_WINDOWS) {
      WindowsShowOnly([], chunks, 0, ISO_WINDOWS);
    }
    if Clean(whole) && AnySeen(windows, ISO_LINUX) {
      WindowsShowOnly([], chunks, 0, ISO_LINUX);
    }
  }

  /**
   * iso_kind over the reads of one file. The list ends where the file does, or
   * where reading fails.
   */
  method IsoKind(chunks: seq<seq<byte>>) returns (kind: nat)
    requires forall c <- chunks :: 0 < |c| <= 0x40_0000
    ensures kind == Verdict(Windows([], chunks, 0))
    ensures var front := ScannedFrom([], chunks, 0);
            && (NamesWindows(front) ==> kind == 0)
            && (NamesLinux(front) ==> kind <= 1)
            && (Clean(front) ==> kind == if NamesWindows(front) then 0 else if NamesLinux(front) then 1 else 2)
  {
    hide NamesWindows, NamesLinux, Clean, OccursAny, Seen, AnySeen, ScannedFrom, Windows, Tail;
    VerdictByName(chunks);
    var linux := false;
    var carry: seq<byte> := [];
    var read: nat := 0;
    var k: nat := 0;
    ghost var done: seq<byte> := [];
    ghost var seen: seq<seq<byte>> := [];
    ghost var all := Windows([], chunks, 0);
    NoWindow(ISO_WINDOWS);
    NoWindow(ISO_LINUX);
    TailOfWindow([], []);
    while read < ISO_SCAN && k < |chunks|
      invariant k <= |chunks| && read == |done|
      invariant carry == Tail(done, CARRY)
      invariant seen + Windows(done, chunks, k) == all
      invariant !AnySeen(seen, ISO_WINDOWS) && (linux <==> AnySeen(seen, ISO_LINUX))
      decreases |chunks| - k
    {
      var buf := chunks[k];
      read := read + |buf|;
      var window := carry + buf;
      var windows, more := Look(window);
      SeenInMore(seen, window, ISO_WINDOWS);
      SeenInMore(seen, window, ISO_LINUX);
      WindowsNext(done, chunks, k);
      TailOfWindow(done, buf);
      seen := seen + [window];
      assert seen + Windows(done + buf, chunks, k + 1) == all;
      if windows {
        SeenInFront(seen, Windows(done + buf, chunks, k + 1), ISO_WINDOWS);
        return 0;
      }
      linux := linux || more;
      carry := Tail(window, CARRY);
      done := done + buf;
      k := k + 1;
    }
    WindowsNext(done, chunks, k);
    assert seen == all;
    return if linux then 1 else 2;
  }

  lemma WindowsNext(d: seq<byte>, chunks: seq<seq<byte>>, k: nat)
    requires k <= |chunks|
    ensures Windows(d, chunks, k) ==
              if k == |chunks| || |d| >= ISO_SCAN then []
              else [Tail(d, CARRY) + chunks[k]] + Windows(d + chunks[k], chunks, k + 1)
  {
  }

  /** Carrying from the window is carrying from everything read. */
  lemma TailOfWindow(d: seq<byte>, buf: seq<byte>)
    ensures Tail(Tail(d, CARRY) + buf, CARRY) == Tail(d + buf, CARRY) && Tail([], CARRY) == []
  {
  }

  lemma NothingOccurs()
    ensures !OccursAny([], ISO_WINDOWS) && !OccursAny([], ISO_LINUX)
  {
    Markers();
  }

  // ---- what the scan looks at ----

  /** The bytes of the reads a to b. */
  function Between(chunks: seq<seq<byte>>, a: nat, b: nat): seq<byte>
    requires a <= b <= |chunks|
    decreases b - a
  {
    if a == b then [] else chunks[a] + Between(chunks, a + 1, b)
  }

  lemma BetweenMore(d: seq<byte>, chunks: seq<seq<byte>>, a: nat, b: nat)
    requires a < b <= |chunks|
    ensures d + chunks[a] + Between(chunks, a + 1, b) == d + Between(chunks, a, b)
    ensures d + Between(chunks, a, a) == d
  {
  }

  /** Reading goes on while less than 64 MiB have been read and the file goes on. */
  lemma {:induction false} WindowsEnd(d: seq<byte>, chunks: seq<seq<byte>>, k: nat)
    requires k <= |chunks|
    ensures var end := k + |Windows(d, chunks, k)|;
            end <= |chunks| && (end == |chunks| || |d + Between(chunks, k, end)| >= 0x400_0000)
    decreases |chunks| - k
  {
    hide Tail, Between;
    if k == |chunks| || |d| >= ISO_SCAN {
    } else {
      WindowsEnd(d + chunks[k], chunks, k + 1);
      BetweenMore(d, chunks, k, k + |Windows(d, chunks, k)|);
    }
  }

  /** A window is one read behind the last 64 bytes before it, with less than 64 MiB read. */
  lemma {:induction false} WindowsAre(d: seq<byte>, chunks: seq<seq<byte>>, k: nat, i: nat)
    requires k <= |chunks| && i < |Windows(d, chunks, k)|
    ensures k + i < |chunks|
    ensures var read := d + Between(chunks, k, k + i);
            && |read| < 0x400_0000
            && Windows(d, chunks, k)[i] == read[if |read| > 64 then |read| - 64 else 0..] + chunks[k + i]
    decreases i
  {
    hide Between;
    if i == 0 {
      BetweenMore(d, chunks, k, k + 1);
    } else {
      WindowsAre(d + chunks[k], chunks, k + 1, i - 1);
      BetweenMore(d, chunks, k, k + i);
    }
  }

  // ---- the names, letter by letter ----

  /** The letters of m in consecutive bytes, in either case. */
  predicate NarrowLetters(d: seq<byte>, i: nat, m: string) {
    i + |m| <= |d| && forall k :: 0 <= k < |m| ==> InEitherCase(d[i + k] as char, m[k])
  }

  /** The same in pairs of bytes, each a zero and a letter. */
  predicate WideLetters(d: seq<byte>, i: nat, m: string) {
    i + 2 * |m| <= |d| && forall k :: 0 <= k < |m| ==> PairLetter(d, i + 2 * k, m[k])
  }

  predicate PairLetter(d: seq<byte>, at: nat, c: char)
    requires at + 2 <= |d|
  {
    d[at] == 0 && InEitherCase(d[at + 1] as char, c)
  }

  /** A small name occurs exactly where its letters stand, in capitals or not. */
  lemma LettersOccur(d: seq<byte>, i: nat, m: string)
    requires IsSmall(m)
    ensures NarrowAt(d, i, m) <==> NarrowLetters(d, i, m)
    ensures WideAt(d, i, m) <==> WideLetters(d, i, m)
  {
    hide LowerChar, InEitherCase;
    forall k | 0 <= k < |m|
      ensures i + |m| <= |d| ==> (LowerChar(d[i + k] as char) == m[k] <==> InEitherCase(d[i + k] as char, m[k]))
      ensures i + 2 * |m| <= |d| ==> (Letter(d, i + 2 * k, m[k]) <==> PairLetter(d, i + 2 * k, m[k]))
    {
      if i + |m| <= |d| {
        LowerInEitherCase(d[i + k] as char, m[k]);
      }
      if i + 2 * |m| <= |d| {
        LowerInEitherCase(d[i + 2 * k + 1] as char, m[k]);
      }
    }
  }

  /** Such a name is in the first view, or in the wide view of its offset's parity, whatever surrounds it. */
  lemma LettersShow(d: seq<byte>, i: nat, m: string)
    requires IsSmall(m) && m != []
    ensures NarrowLetters(d, i, m) ==> Contains(Views(d)[0], m)
    ensures WideLetters(d, i, m) ==> Contains(Views(d)[1 + i % 2], m)
  {
    hide NarrowLetters, WideLetters, NarrowAt, WideAt, Contains, WideView, IsSmall;
    LettersOccur(d, i, m);
    if NarrowAt(d, i, m) {
      NarrowShows(d, i, m);
    }
    if WideAt(d, i, m) {
      WideShows(d, i, m);
    }
  }

  ghost predicate Names(d: seq<byte>, m: string) {
    exists i: nat :: NarrowLetters(d, i, m) || WideLetters(d, i, m)
  }

  lemma NamesOccur(d: seq<byte>, m: string)
    requires IsSmall(m)
    ensures Occurs(d, m) <==> Names(d, m)
  {
    hide NarrowAt, WideAt, NarrowLetters, WideLetters, IsSmall;
    forall i: nat
      ensures NarrowAt(d, i, m) <==> NarrowLetters(d, i, m)
      ensures WideAt(d, i, m) <==> WideLetters(d, i, m)
    {
      LettersOccur(d, i, m);
    }
  }

  /** One of the names only Windows media have. */
  ghost predicate NamesWindows(d: seq<byte>) {
    Names(d, "install.wim") || Names(d, "install.esd") || Names(d, "boot.wim") || Names(d, "bootmgr.efi")
  }

  /** One of the names Linux media have. */
  ghost predicate NamesLinux(d: seq<byte>) {
    Names(d, "isolinux") || Names(d, "casper") || Names(d, "vmlinuz") || Names(d, "initrd.img") || Names(d, "grub.cfg")
  }

  lemma WindowsNames(d: seq<byte>)
    ensures OccursAny(d, ISO_WINDOWS) <==> NamesWindows(d)
  {
    hide Occurs, Names;
    assert |ISO_WINDOWS| == 4;
    assert ISO_WINDOWS[0] == "install.wim" && ISO_WINDOWS[1] == "install.esd";
    assert ISO_WINDOWS[2] == "boot.wim" && ISO_WINDOWS[3] == "bootmgr.efi";
    NamesOccur(d, "install.wim");
    NamesOccur(d, "install.esd");
    NamesOccur(d, "boot.wim");
    NamesOccur(d, "bootmgr.efi");
  }

  lemma LinuxNames(d: seq<byte>)
    ensures OccursAny(d, ISO_LINUX) <==> NamesLinux(d)
  {
    hide Occurs, Names;
    assert |ISO_LINUX| == 5;
    assert ISO_LINUX[0] == "isolinux" && ISO_LINUX[1] == "casper" && ISO_LINUX[2] == "vmlinuz";
    assert ISO_LINUX[3] == "initrd.img" && ISO_LINUX[4] == "grub.cfg";
    NamesOccur(d, "isolinux");
    NamesOccur(d, "casper");
    NamesOccur(d, "vmlinuz");
    NamesOccur(d, "initrd.img");
    NamesOccur(d, "grub.cfg");
  }

  /** The verdict against the names in the front of the file: it misses none, and on clean data it is exact. */
  lemma VerdictByName(chunks: seq<seq<byte>>)
    ensures var front, kind := ScannedFrom([], chunks, 0), Verdict(Windows([], chunks, 0));
            && (NamesWindows(front) ==> kind == 0)
            && (NamesLinux(front) ==> kind <= 1)
            && (Clean(front) ==> kind == if NamesWindows(front) then 0 else if NamesLinux(front) then 1 else 2)
  {
    hide NamesWindows, NamesLinux, Clean, OccursAny, ScannedFrom, Windows, Verdict;
    VerdictIsRight(chunks);
    WindowsNames(ScannedFrom([], chunks, 0));
    LinuxNames(ScannedFrom([], chunks, 0));
  }

  // ---- why exactness needs clean data ----

  /** "oot.wim" in big-endian UTF-16. */
  const OOT_WIM: seq<byte> := [0, 0x6F, 0, 0x6F, 0, 0x74, 0, 0x2E, 0, 0x77, 0, 0x69, 0, 0x6D]

  /** "boot.wim" with a lone surrogate after its first letter. */
  const BROKEN: seq<byte> := [0, 0x62, 0xD8, 0] + OOT_WIM

  lemma FirstTwo(d: seq<byte>, i: nat, m: string)
    requires |m| >= 2
    ensures NarrowAt(d, i, m) ==> LowerChar(d[i] as char) == m[0] && LowerChar(d[i + 1] as char) == m[1]
    ensures WideAt(d, i, m) ==> Letter(d, i, m[0]) && Letter(d, i + 2, m[1])
  {
    hide LowerChar;
    if NarrowAt(d, i, m) {
      assert LowerChar(d[i + 0] as char) == m[0];
    }
    if WideAt(d, i, m) {
      assert Letter(d, i + 2 * 0, m[0]) && Letter(d, i + 2 * 1, m[1]);
    }
  }

  /** None of the names begins in the broken data with its first two letters. */
  lemma BrokenHoldsNoName(m: string)
    requires |m| >= 8 && ((m[0] == 'i' && m[1] == 'n') || (m[0] == 'b' && m[1] == 'o'))
    ensures !Occurs(BROKEN, m)
  {
    hide NarrowAt, WideAt;
    forall i: nat
      ensures !NarrowAt(BROKEN, i, m) && !WideAt(BROKEN, i, m)
    {
      FirstTwo(BROKEN, i, m);
      WithinData(BROKEN, i, m);
    }
  }

  lemma BrokenHoldsNoMarker()
    ensures !OccursAny(BROKEN, ISO_WINDOWS)
  {
    hide Occurs;
    forall k | 0 <= k < |ISO_WINDOWS|
      ensures !Occurs(BROKEN, ISO_WINDOWS[k])
    {
      BrokenHoldsNoName(ISO_WINDOWS[k]);
    }
  }

  lemma WithinData(d: seq<byte>, i: nat, m: string)
    ensures NarrowAt(d, i, m) ==> i + |m| <= |d|
    ensures WideAt(d, i, m) ==> i + 2 * |m| <= |d|
  {
  }

  /** A lone surrogate inside a name vanishes when decoding, so the name is seen. */
  lemma BrokenNameIsSeen(c: byte, m: string, rest: seq<byte>)
    requires |m| > 0 && WideAt(rest, 0, m)
    ensures Contains(LowerAll(DecodeBe([0, c, 0xD8, 0] + rest)), [LowerChar(c as char)] + m)
  {
    hide LowerAll, DecodeBe, LowerChar, Contains;
    var d := [0, c, 0xD8, 0] + rest;
    assert Letter(rest, 0 + 2 * 0, m[0]);
    assert d[2..] == [0xD8, 0] + rest && d[2..][2..] == rest;
    LetterFirst(d, LowerChar(c as char));
    SurrogateFirst(d[2..]);
    WideStarts(rest, m);
    var text, name := LowerAll(DecodeBe(d)), [LowerChar(c as char)] + m;
    assert text[0..|name|] == name;
    ContainsAt(text, 0, name);
  }

  /** The limit of exactness: an image whose one read holds no Windows marker is taken for Windows. */
  lemma LoneSurrogateInvents()
    ensures !OccursAny(ScannedFrom([], [BROKEN], 0), ISO_WINDOWS)
    ensures Verdict(Windows([], [BROKEN], 0)) == 0
  {
    hide Occurs, Seen, ContainsAny;
    BrokenHoldsNoMarker();
    BrokenIsSeen();
    assert [] + BROKEN == BROKEN && Tail([], CARRY) + BROKEN == BROKEN;
    assert ScannedFrom([] + BROKEN, [BROKEN], 1) == BROKEN;
    assert Windows([], [BROKEN], 0)[0] == BROKEN;
    assert AnySeen(Windows([], [BROKEN], 0), ISO_WINDOWS);
  }

  lemma BrokenIsSeen()
    ensures Seen(BROKEN, 3, ISO_WINDOWS)
  {
    hide LowerAll, DecodeBe, Contains;
    assert forall k :: 0 <= k < 7 ==> Letter(OOT_WIM, 0 + 2 * k, "oot.wim"[k]);
    BrokenNameIsSeen(0x62, "oot.wim", OOT_WIM);
    assert ['b'] + "oot.wim" == "boot.wim" == ISO_WINDOWS[2];
    assert BROKEN[..|BROKEN| / 2 * 2] == BROKEN;
    assert Contains(Views(BROKEN)[1], ISO_WINDOWS[2]);
  }

  lemma ContainsAt(text: string, i: nat, m: string)
    requires MatchAt(text, i, m)
    ensures Contains(text, m)
  {
  }

  lemma SurrogateFirst(d: seq<byte>)
    requires |d| >= 4 && 0xD800 <= BeUnit(d, 0) < 0xE000 && !(0xDC00 <= BeUnit(d, 2) < 0xE000)
    ensures DecodeBe(d) == DecodeBe(d[2..])
  {
  }
}
