/** parse_wim_info: the editions of a Windows image out of what wimlib prints about it. */
module WimInfo {
  import opened Text
  import opened TextLines

  datatype Edition = Edition(index: int, name: string, size: int)

  /** The loop's variables: the editions so far and an index whose name has not come yet. */
  datatype State = State(editions: seq<Edition>, index: Option<string>)

  const INDEX := "Index:"
  const NAME := "Name:"
  const TOTAL := "Total Bytes:"
  const LINKS := "Hard Link Bytes:"

  // ---- numbers ----

  predicate IsDigit(c: char) {
    '0' <= c <= '9'
  }

  /** int(s) of decimal digits, with or without a minus sign; None where it raises. */
  function ParseInt(s: string): Option<int> {
    if s != [] && s[0] == '-' then
      var n :- ParseNat(s[1..]);
      Some(-n)
    else ParseNat(s)
  }

  function ParseNat(s: string): Option<int> {
    if s == [] || !IsDigit(s[|s| - 1]) then None
    else
      var last := s[|s| - 1] as int - '0' as int;
      if |s| == 1 then Some(last)
      else
        var rest :- ParseNat(s[..|s| - 1]);
        Some(10 * rest + last)
  }

  function Decimal(n: nat): (r: string)
    ensures r != [] && IsDigit(r[0]) && IsDigit(r[|r| - 1])
  {
    if n < 10 then [('0' as int + n) as char] else Decimal(n / 10) + [('0' as int + n % 10) as char]
  }

  lemma {:induction false} DecimalReadsBack(n: nat)
    ensures ParseInt(Decimal(n)) == Some(n)
  {
    if n >= 10 {
      DecimalReadsBack(n / 10);
      assert Decimal(n)[..|Decimal(n)| - 1] == Decimal(n / 10);
    }
  }

  // ---- the parser ----

  /** What follows the first colon; the keys asked for all end in one. */
  function AfterColon(line: string): string {
    if line == [] then [] else if line[0] == ':' then line[1..] else AfterColon(line[1..])
  }

  function Value(line: string): string {
    Strip(AfterColon(line))
  }

  function AddSize(editions: seq<Edition>, n: int): (r: seq<Edition>)
    requires editions != []
    ensures |r| == |editions|
  {
    var last := editions[|editions| - 1];
    editions[..|editions| - 1] + [last.(size := last.size + n)]
  }

  /** One line; None where int() raises. */
  function Feed(s: State, line: string): Option<State> {
    if StartsWith(line, INDEX) then Some(s.(index := Some(Value(line))))
    else if StartsWith(line, NAME) && s.index.Some? then
      var index :- ParseInt(s.index.value);
      Some(State(s.editions + [Edition(index, Value(line), 0)], None))
    else if StartsWith(line, TOTAL) && s.editions != [] then
      var n :- ParseInt(Value(line));
      Some(s.(editions := AddSize(s.editions, n)))
    else if StartsWith(line, LINKS) && s.editions != [] then
      var n :- ParseInt(Value(line));
      Some(s.(editions := AddSize(s.editions, -n)))
    else Some(s)
  }

  /** Each kind of line, as wimlib prints it, and what it adds; v is what follows the colon. */
  lemma LinesMean(s: State, v: string, n: int)
    ensures Feed(s, "Index:" + v) == Some(State(s.editions, Some(Strip(v))))
    ensures s.index.None? ==> Feed(s, "Name:" + v) == Some(s)
    ensures s.index.Some? && ParseInt(s.index.value) == Some(n) ==>
              Feed(s, "Name:" + v) == Some(State(s.editions + [Edition(n, Strip(v), 0)], None))
    ensures s.editions != [] && ParseInt(Strip(v)) == Some(n) ==>
              var k := |s.editions| - 1;
              var last := s.editions[k];
              && Feed(s, "Total Bytes:" + v) ==
                   Some(State(s.editions[k := Edition(last.index, last.name, last.size + n)], s.index))
              && Feed(s, "Hard Link Bytes:" + v) ==
                   Some(State(s.editions[k := Edition(last.index, last.name, last.size - n)], s.index))
    ensures s.editions == [] ==> Feed(s, "Total Bytes:" + v) == Some(s) && Feed(s, "Hard Link Bytes:" + v) == Some(s)
  {
    hide ParseInt, Strip;
    KeysApart(v);
    AfterTheColon("Index:", v);
    AfterTheColon("Name:", v);
    AfterTheColon("Total Bytes:", v);
    AfterTheColon("Hard Link Bytes:", v);
    if s.editions != [] {
      var k := |s.editions| - 1;
      var last := s.editions[k];
      assert AddSize(s.editions, n) == s.editions[k := Edition(last.index, last.name, last.size + n)];
      assert AddSize(s.editions, -n) == s.editions[k := Edition(last.index, last.name, last.size - n)];
    }
  }

  lemma KeysApart(v: string)
    ensures StartsWith("Index:" + v, INDEX)
    ensures StartsWith("Name:" + v, NAME) && !StartsWith("Name:" + v, INDEX)
    ensures var line := "Total Bytes:" + v;
            StartsWith(line, TOTAL) && !StartsWith(line, INDEX) && !StartsWith(line, NAME)
    ensures var line := "Hard Link Bytes:" + v;
            StartsWith(line, LINKS) && !StartsWith(line, INDEX) && !StartsWith(line, NAME) && !StartsWith(line, TOTAL)
  {
    assert ("Name:" + v)[0] == 'N' && ("Total Bytes:" + v)[0] == 'T' && ("Hard Link Bytes:" + v)[0] == 'H';
    FirstLetters("Index:" + v);
    FirstLetters("Name:" + v);
    FirstLetters("Total Bytes:" + v);
    FirstLetters("Hard Link Bytes:" + v);
    StartsWithOwnPrefix("Index:", v);
    StartsWithOwnPrefix("Name:", v);
    StartsWithOwnPrefix("Total Bytes:", v);
    StartsWithOwnPrefix("Hard Link Bytes:", v);
  }

  lemma FirstLetters(line: string)
    requires line != []
    ensures StartsWith(line, INDEX) ==> line[0] == 'I'
    ensures StartsWith(line, NAME) ==> line[0] == 'N'
    ensures StartsWith(line, TOTAL) ==> line[0] == 'T'
    ensures StartsWith(line, LINKS) ==> line[0] == 'H'
  {
    if StartsWith(line, INDEX) {
      assert line[..|INDEX|][0] == line[0];
    }
    if StartsWith(line, NAME) {
      assert line[..|NAME|][0] == line[0];
    }
    if StartsWith(line, TOTAL) {
      assert line[..|TOTAL|][0] == line[0];
    }
    if StartsWith(line, LINKS) {
      assert line[..|LINKS|][0] == line[0];
    }
  }

  lemma AfterTheColon(key: string, v: string)
    requires key in {"Index:", "Name:", "Total Bytes:", "Hard Link Bytes:"}
    ensures Value(key + v) == Strip(v)
  {
    hide Strip;
    var n := |key| - 1;
    ColonAt(key[..n], v);
    assert key + v == key[..n] + ":" + v;
  }

  /** What follows the first colon. */
  lemma {:induction false} ColonAt(before: string, after: string)
    requires ':' !in before
    ensures AfterColon(before + ":" + after) == after
  {
    var line := before + ":" + after;
    if before != [] {
      ColonAt(before[1..], after);
      assert line[1..] == before[1..] + ":" + after;
    } else {
      assert line[1..] == after;
    }
  }

  /** A line of any other key, "Display Name:" say, is passed over. */
  lemma OtherLines(s: State, line: string)
    requires !("Index:" <= line) && !("Name:" <= line) && !("Total Bytes:" <= line) && !("Hard Link Bytes:" <= line)
    ensures Feed(s, line) == Some(s)
  {
    hide ParseInt, Value;
  }

  /** A minus sign and digits, or digits alone, are read as the number they spell; nothing else is read. */
  lemma IntsAre(n: nat, s: string)
    ensures ParseInt(Decimal(n)) == Some(n) && ParseInt("-" + Decimal(n)) == Some(-(n as int))
    ensures Decimal(n)[|Decimal(n)| - 1] == "0123456789"[n % 10]
    ensures ParseInt(s).Some? <==>
              var digits := if s != [] && s[0] == '-' then s[1..] else s;
              digits != [] && forall i :: 0 <= i < |digits| ==> digits[i] in "0123456789"
  {
    hide ParseNat, Decimal;
    DecimalReadsBack(n);
    assert ("-" + Decimal(n))[1..] == Decimal(n);
    LastDigit(n);
    NumbersAre(s);
  }

  lemma NumbersAre(s: string)
    ensures ParseInt(s).Some? <==>
              var digits := if s != [] && s[0] == '-' then s[1..] else s;
              digits != [] && forall i :: 0 <= i < |digits| ==> digits[i] in "0123456789"
  {
    hide ParseNat;
    NatsAre(if s != [] && s[0] == '-' then s[1..] else s);
  }

  lemma DigitsAre(c: char)
    ensures IsDigit(c) <==> c in "0123456789"
    ensures forall k: nat :: k < 10 ==> "0123456789"[k] as int == 48 + k
  {
    if IsDigit(c) {
      assert "0123456789"[c as int - 48] == c;
    }
  }

  lemma LastDigit(n: nat)
    ensures Decimal(n)[|Decimal(n)| - 1] == "0123456789"[n % 10]
  {
    DigitsAre('0');
  }

  lemma {:induction false} NatsAre(s: string)
    ensures ParseNat(s).Some? <==> s != [] && forall i :: 0 <= i < |s| ==> s[i] in "0123456789"
  {
    if s != [] {
      DigitsAre(s[|s| - 1]);
      NatsAre(s[..|s| - 1]);
    }
  }

  function FeedAll(s: State, lines: seq<string>): Option<State>
    decreases |lines|
  {
    if lines == [] then Some(s)
    else
      var t :- Feed(s, lines[0]);
      FeedAll(t, lines[1..])
  }

  function Editions(info: string): Option<seq<Edition>> {
    var s :- FeedAll(State([], None), SplitLines(info, LINE_BREAKS));
    Some(s.editions)
  }

  method ParseWimInfo(info: string) returns (found: Option<seq<Edition>>)
    ensures found == Editions(info)
  {
    hide ParseInt, StartsWith, Value, SplitLines;
    var lines := SplitLines(info, LINE_BREAKS);
    var editions: seq<Edition> := [];
    var index: Option<string> := None;
    var i: nat := 0;
    assert lines[0..] == lines;
    while i < |lines|
      invariant i <= |lines| && FeedAll(State(editions, index), lines[i..]) == FeedAll(State([], None), lines)
    {
      var line := lines[i];
      assert lines[i..][0] == line && lines[i..][1..] == lines[i + 1..];
      if StartsWith(line, INDEX) {
        index := Some(Value(line));
      } else if StartsWith(line, NAME) && index.Some? {
        var number := ParseInt(index.value);
        if number.None? {
          return None;
        }
        editions := editions + [Edition(number.value, Value(line), 0)];
        index := None;
      } else if StartsWith(line, TOTAL) && editions != [] {
        var n := ParseInt(Value(line));
        if n.None? {
          return None;
        }
        editions := AddSize(editions, n.value);
      } else if StartsWith(line, LINKS) && editions != [] {
        var n := ParseInt(Value(line));
        if n.None? {
          return None;
        }
        editions := AddSize(editions, -n.value);
      }
      i := i + 1;
    }
    return Some(editions);
  }

  lemma {:induction false} FeedConcat(s: State, a: seq<string>, b: seq<string>)
    requires FeedAll(s, a).Some?
    ensures FeedAll(s, a + b) == FeedAll(FeedAll(s, a).value, b)
    decreases |a|
  {
    hide Feed;
    if a == [] {
      assert a + b == b;
    } else {
      FeedConcat(Feed(s, a[0]).value, a[1..], b);
      assert (a + b)[1..] == a[1..] + b;
    }
  }

  // ---- the printer ----

  /** A key's value and the blank printed before it. */
  datatype Cell<T> = Cell(pad: string, value: T)

  /**
   * An image as wimlib lists it, keys in its order, other lines after each.
   * A wimlib that stops printing a size leaves the figure out.
   */
  datatype Image = Image(index: Cell<nat>, name: Cell<string>, total: Option<Cell<nat>>, links: Option<Cell<nat>>,
                         rest1: seq<string>, rest2: seq<string>, rest3: seq<string>, rest4: seq<string>)

  predicate IsOther(line: string) {
    !StartsWith(line, INDEX) && !StartsWith(line, NAME) && !StartsWith(line, TOTAL) && !StartsWith(line, LINKS)
  }

  predicate AreOther(lines: seq<string>) {
    AreLines(lines, LINE_BREAKS) && forall i :: 0 <= i < |lines| ==> IsOther(lines[i])
  }

  /** Blank that stays on its line. */
  predicate IsPad(s: string) {
    IsBlank(s) && IsOneLine(s, LINE_BREAKS)
  }

  predicate IsImage(m: Image) {
    && IsPad(m.index.pad) && IsPad(m.name.pad) && IsTrimmed(m.name.value) && IsOneLine(m.name.value, LINE_BREAKS)
    && (m.total.Some? ==> IsPad(m.total.value.pad)) && (m.links.Some? ==> IsPad(m.links.value.pad))
    && AreOther(m.rest1) && AreOther(m.rest2) && AreOther(m.rest3) && AreOther(m.rest4)
  }

  predicate AreImages(ms: seq<Image>) {
    forall i :: 0 <= i < |ms| ==> IsImage(ms[i])
  }

  function Line(key: string, pad: string, value: string): string {
    key + (pad + value)
  }

  function Figure(key: string, cell: Option<Cell<nat>>): seq<string> {
    if cell.None? then [] else [Line(key, cell.value.pad, Decimal(cell.value.value))]
  }

  function PrintImage(m: Image): seq<string> {
    [Line(INDEX, m.index.pad, Decimal(m.index.value))] + (m.rest1
    + ([Line(NAME, m.name.pad, m.name.value)] + (m.rest2
    + (Figure(TOTAL, m.total) + (m.rest3
    + (Figure(LINKS, m.links) + m.rest4))))))
  }

  function PrintImages(ms: seq<Image>): seq<string> {
    if ms == [] then [] else PrintImage(ms[0]) + PrintImages(ms[1..])
  }

  function Amount(cell: Option<Cell<nat>>): nat {
    if cell.None? then 0 else cell.value.value
  }

  /** What applying the image takes: its files less the names that are hard links. */
  function Listed(m: Image): Edition {
    Edition(m.index.value, m.name.value, Amount(m.total) - Amount(m.links))
  }

  function AllListed(ms: seq<Image>): (r: seq<Edition>)
    ensures |r| == |ms| && forall i :: 0 <= i < |ms| ==> r[i] == Listed(ms[i])
  {
    seq(|ms|, i requires 0 <= i < |ms| => Listed(ms[i]))
  }

  // ---- the round trip ----

  lemma ValueOfLine(key: string, pad: string, value: string)
    requires key in {INDEX, NAME, TOTAL, LINKS} && IsBlank(pad) && IsTrimmed(value)
    ensures Value(Line(key, pad, value)) == value
  {
    var n := |key| - 1;
    assert key == key[..n] + ":";
    AfterColonOf(key[..n], pad + value);
    assert Line(key, pad, value) == key[..n] + ":" + (pad + value);
    StripPadded(pad, value);
  }

  lemma {:induction false} AfterColonOf(key: string, rest: string)
    requires ':' !in key
    ensures AfterColon(key + ":" + rest) == rest
  {
    var line := key + ":" + rest;
    if key == [] {
      assert line[1..] == rest;
    } else {
      AfterColonOf(key[1..], rest);
      assert line[1..] == key[1..] + ":" + rest;
    }
  }

  lemma KeyOfLine(key: string, pad: string, value: string)
    requires key in {INDEX, NAME, TOTAL, LINKS}
    ensures forall k <- {INDEX, NAME, TOTAL, LINKS} :: StartsWith(Line(key, pad, value), k) <==> k == key
  {
    var line := Line(key, pad, value);
    assert line[..|key|] == key;
    forall k <- {INDEX, NAME, TOTAL, LINKS}
      ensures StartsWith(line, k) <==> k == key
    {
      if StartsWith(line, k) {
        assert line[..|k|][0] == line[0] == key[0];
      }
    }
  }

  lemma DecimalIsTrimmed(n: nat)
    ensures IsTrimmed(Decimal(n))
  {
  }

  lemma FeedIndex(s: State, cell: Cell<nat>)
    requires IsPad(cell.pad)
    ensures Feed(s, Line(INDEX, cell.pad, Decimal(cell.value))) == Some(s.(index := Some(Decimal(cell.value))))
  {
    hide StartsWith, Value, Line, Decimal;
    KeyOfLine(INDEX, cell.pad, Decimal(cell.value));
    DecimalIsTrimmed(cell.value);
    ValueOfLine(INDEX, cell.pad, Decimal(cell.value));
  }

  lemma FeedName(s: State, index: nat, cell: Cell<string>)
    requires IsPad(cell.pad) && IsTrimmed(cell.value) && s.index == Some(Decimal(index))
    ensures Feed(s, Line(NAME, cell.pad, cell.value)) == Some(State(s.editions + [Edition(index, cell.value, 0)], None))
  {
    hide StartsWith, Value, Line, Decimal, ParseInt;
    KeyOfLine(NAME, cell.pad, cell.value);
    ValueOfLine(NAME, cell.pad, cell.value);
    DecimalReadsBack(index);
  }

  lemma FeedFigure(s: State, key: string, cell: Option<Cell<nat>>)
    requires key in {TOTAL, LINKS} && s.editions != [] && (cell.Some? ==> IsPad(cell.value.pad))
    ensures FeedAll(s, Figure(key, cell)) ==
              Some(s.(editions := AddSize(s.editions, if key == TOTAL then Amount(cell) else 0 - Amount(cell))))
  {
    hide StartsWith, Value, Line, Decimal, ParseInt;
    var last := s.editions[|s.editions| - 1];
    assert last.(size := last.size + 0) == last;
    assert s.editions[..|s.editions| - 1] + [last] == s.editions;
    if cell.Some? {
      var line := Line(key, cell.value.pad, Decimal(cell.value.value));
      KeyOfLine(key, cell.value.pad, Decimal(cell.value.value));
      DecimalIsTrimmed(cell.value.value);
      ValueOfLine(key, cell.value.pad, Decimal(cell.value.value));
      DecimalReadsBack(cell.value.value);
      assert Figure(key, cell)[0] == line && Figure(key, cell)[1..] == [];
    }
  }

  lemma {:induction false} FeedOthers(s: State, lines: seq<string>)
    requires AreOther(lines)
    ensures FeedAll(s, lines) == Some(s)
    decreases |lines|
  {
    hide StartsWith;
    if lines == [] {
    } else {
      assert IsOther(lines[0]);
      FeedOthers(s, lines[1..]);
    }
  }

  /** One step of a listing and what follows it. */
  lemma Then(s: State, part: seq<string>, t: State, rest: seq<string>)
    requires FeedAll(s, part) == Some(t)
    ensures FeedAll(s, part + rest) == FeedAll(t, rest)
  {
    FeedConcat(s, part, rest);
  }

  lemma OneLine(s: State, line: string)
    ensures FeedAll(s, [line]) == Feed(s, line)
  {
    hide Feed;
    assert [line][1..] == [];
  }

  lemma FeedFigures(s: State, m: Image)
    requires IsImage(m) && s.editions != []
    ensures FeedAll(s, Figure(TOTAL, m.total) + (m.rest3 + (Figure(LINKS, m.links) + m.rest4))) ==
              Some(s.(editions := AddSize(AddSize(s.editions, Amount(m.total)), 0 - Amount(m.links))))
  {
    hide FeedAll, Figure, AreOther, IsPad, AddSize, Amount;
    var t := s.(editions := AddSize(s.editions, Amount(m.total)));
    var u := t.(editions := AddSize(t.editions, 0 - Amount(m.links)));
    FeedFigure(s, TOTAL, m.total);
    FeedFigure(t, LINKS, m.links);
    FeedOthers(t, m.rest3);
    FeedOthers(u, m.rest4);
    Then(s, Figure(TOTAL, m.total), t, m.rest3 + (Figure(LINKS, m.links) + m.rest4));
    Then(t, m.rest3, t, Figure(LINKS, m.links) + m.rest4);
    Then(t, Figure(LINKS, m.links), u, m.rest4);
  }

  lemma FeedImage(editions: seq<Edition>, m: Image)
    requires IsImage(m)
    ensures FeedAll(State(editions, None), PrintImage(m)) == Some(State(editions + [Listed(m)], None))
  {
    hide Feed, FeedAll, Figure, AreOther, Line, Decimal, IsPad, IsTrimmed, IsOneLine, Amount;
    var s := State(editions, None);
    var t := s.(index := Some(Decimal(m.index.value)));
    var u := State(editions + [Edition(m.index.value, m.name.value, 0)], None);
    var first, second := Line(INDEX, m.index.pad, Decimal(m.index.value)), Line(NAME, m.name.pad, m.name.value);
    var figures := Figure(TOTAL, m.total) + (m.rest3 + (Figure(LINKS, m.links) + m.rest4));
    FeedIndex(s, m.index);
    OneLine(s, first);
    FeedOthers(t, m.rest1);
    FeedName(t, m.index.value, m.name);
    OneLine(t, second);
    FeedOthers(u, m.rest2);
    FeedFigures(u, m);
    Then(s, [first], t, m.rest1 + ([second] + (m.rest2 + figures)));
    Then(t, m.rest1, t, [second] + (m.rest2 + figures));
    Then(t, [second], u, m.rest2 + figures);
    Then(u, m.rest2, u, figures);
    SizesOfLast(editions, m);
  }

  lemma SizesOfLast(editions: seq<Edition>, m: Image)
    ensures AddSize(AddSize(editions + [Edition(m.index.value, m.name.value, 0)], Amount(m.total)), 0 - Amount(m.links))
            == editions + [Listed(m)]
  {
  }

  lemma {:induction false} FeedImages(editions: seq<Edition>, ms: seq<Image>)
    requires AreImages(ms)
    ensures FeedAll(State(editions, None), PrintImages(ms)) == Some(State(editions + AllListed(ms), None))
    decreases |ms|
  {
    hide FeedAll, PrintImage, IsImage, Listed;
    if ms == [] {
      FeedOthers(State(editions, None), []);
      assert editions + AllListed(ms) == editions;
    } else {
      var t := State(editions + [Listed(ms[0])], None);
      FeedImage(editions, ms[0]);
      Then(State(editions, None), PrintImage(ms[0]), t, PrintImages(ms[1..]));
      FeedImages(t.editions, ms[1..]);
      assert editions + [Listed(ms[0])] + AllListed(ms[1..]) == editions + AllListed(ms);
    }
  }

  lemma {:induction false} DecimalIsOneLine(n: nat)
    ensures IsOneLine(Decimal(n), LINE_BREAKS)
  {
    if n < 10 {
    } else {
      DecimalIsOneLine(n / 10);
    }
  }

  lemma KeyLine(key: string, pad: string, value: string)
    requires key in {INDEX, NAME, TOTAL, LINKS} && IsPad(pad) && IsOneLine(value, LINE_BREAKS)
    ensures AreLines([Line(key, pad, value)], LINE_BREAKS)
  {
    OneLineOf(pad, value, LINE_BREAKS);
    OneLineOf(key, pad + value, LINE_BREAKS);
  }

  lemma FigureLines(key: string, cell: Option<Cell<nat>>)
    requires key in {TOTAL, LINKS} && (cell.Some? ==> IsPad(cell.value.pad))
    ensures AreLines(Figure(key, cell), LINE_BREAKS)
  {
    hide IsOneLine, Line, Decimal;
    if cell.Some? {
      DecimalIsOneLine(cell.value.value);
      KeyLine(key, cell.value.pad, Decimal(cell.value.value));
    }
  }

  lemma ImageLines(m: Image)
    requires IsImage(m)
    ensures AreLines(PrintImage(m), LINE_BREAKS)
  {
    hide IsOneLine, AreLines, Line, Decimal, Figure, IsPad;
    var figures := Figure(TOTAL, m.total) + (m.rest3 + (Figure(LINKS, m.links) + m.rest4));
    FigureLines(TOTAL, m.total);
    FigureLines(LINKS, m.links);
    LinesOf(Figure(LINKS, m.links), m.rest4, LINE_BREAKS);
    LinesOf(m.rest3, Figure(LINKS, m.links) + m.rest4, LINE_BREAKS);
    LinesOf(Figure(TOTAL, m.total), m.rest3 + (Figure(LINKS, m.links) + m.rest4), LINE_BREAKS);
    var name := [Line(NAME, m.name.pad, m.name.value)];
    KeyLine(NAME, m.name.pad, m.name.value);
    LinesOf(m.rest2, figures, LINE_BREAKS);
    LinesOf(name, m.rest2 + figures, LINE_BREAKS);
    LinesOf(m.rest1, name + (m.rest2 + figures), LINE_BREAKS);
    DecimalIsOneLine(m.index.value);
    KeyLine(INDEX, m.index.pad, Decimal(m.index.value));
    LinesOf([Line(INDEX, m.index.pad, Decimal(m.index.value))], m.rest1 + (name + (m.rest2 + figures)), LINE_BREAKS);
  }

  lemma {:induction false} ImagesLines(ms: seq<Image>)
    requires AreImages(ms)
    ensures AreLines(PrintImages(ms), LINE_BREAKS)
  {
    hide PrintImage, IsImage;
    if ms == [] {
    } else {
      ImageLines(ms[0]);
      ImagesLines(ms[1..]);
      LinesOf(PrintImage(ms[0]), PrintImages(ms[1..]), LINE_BREAKS);
    }
  }

  /** A listing in wimlib's key order, other lines anywhere, gives back every image with its net size. */
  lemma WimInfoRoundTrip(preamble: seq<string>, ms: seq<Image>)
    requires AreOther(preamble) && AreImages(ms)
    ensures Editions(JoinLines(preamble + PrintImages(ms))) == Some(AllListed(ms))
  {
    hide FeedAll, PrintImages, AreImages, SplitLines, JoinLines;
    ImagesLines(ms);
    LinesOf(preamble, PrintImages(ms), LINE_BREAKS);
    SplitJoined(preamble + PrintImages(ms), LINE_BREAKS);
    FeedOthers(State([], None), preamble);
    Then(State([], None), preamble, State([], None), PrintImages(ms));
    FeedImages([], ms);
    assert [] + AllListed(ms) == AllListed(ms);
  }
}
