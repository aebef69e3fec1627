/** read_po: translations out of a PO file, one line at a time. */
module PoFile {
  import opened Text
  import opened TextLines

  datatype Field = NoField | Id | Str

  /** The loop's variables: what is in the catalogue, and the entry being read. */
  datatype State = State(catalog: map<string, string>, id: Option<string>, str: Option<string>, field: Field,
                         fuzzy: bool)

  // ---- string literals ----

  const NUL: char := 0 as char

  function Escape(c: char): (r: string)
    ensures 1 <= |r| <= 4
  {
    if c == '\\' then "\\\\"
    else if c == '"' then "\\\""
    else if c == '\n' then "\\n"
    else if c == '\r' then "\\r"
    else if c == '\t' then "\\t"
    else if c == NUL then "\\x00"
    else [c]
  }

  function Escaped(s: string): string {
    if s == [] then [] else Escape(s[0]) + Escaped(s[1..])
  }

  /** A string as a PO file quotes it. */
  function Quote(s: string): string {
    "\"" + Escaped(s) + "\""
  }

  /** The value of a digit up to `base`, 8 or 16. */
  function Digit(c: char, base: nat): Option<nat> {
    var n := c as int;
    var v := if '0' <= c <= '9' then n - '0' as int
             else if 'a' <= c <= 'f' then n - 'a' as int + 10
             else if 'A' <= c <= 'F' then n - 'A' as int + 10 else base;
    if v < base then Some(v) else None
  }

  /** Exactly k hexadecimal digits. */
  function Hex(s: string, k: nat): Option<nat> {
    if k == 0 then Some(0)
    else if |s| < k then None
    else
      var most :- Hex(s, k - 1);
      var last :- Digit(s[k - 1], 16);
      Some(16 * most + last)
  }

  /** Up to k octal digits: their value and their number. */
  function Octal(s: string, k: nat, value: nat): (r: (nat, nat))
    ensures r.1 <= k && r.1 <= |s|
    decreases k
  {
    if k == 0 || s == [] || Digit(s[0], 8).None? then (value, 0)
    else
      var r := Octal(s[1..], k - 1, 8 * value + Digit(s[0], 8).value);
      (r.0, r.1 + 1)
  }

  /** The character with this number; a lone surrogate is no character here. */
  function Numbered(n: nat): Option<string> {
    if n < 0xD800 || 0xE000 <= n <= 0x10_FFFF then Some([n as char]) else None
  }

  /** What a simple escape stands for. */
  function Plain(c: char): Option<char> {
    if c in {'\\', '"', '\''} then Some(c)
    else if c == 'n' then Some('\n')
    else if c == 'r' then Some('\r')
    else if c == 't' then Some('\t')
    else if c == 'a' then Some(7 as char)
    else if c == 'b' then Some(8 as char)
    else if c == 'v' then Some(11 as char)
    else if c == 'f' then Some(12 as char)
    else None
  }

  /**
   * An escape after its backslash: the text it stands for and the characters
   * it takes. One that Python does not know stands for itself.
   */
  function Unescape(s: string): (r: Option<(string, nat)>)
    requires s != []
    ensures r.Some? ==> 1 <= r.value.1 <= |s|
  {
    if Plain(s[0]).Some? then Some(([Plain(s[0]).value], 1))
    else if Digit(s[0], 8).Some? then
      var o := Octal(s[1..], 2, Digit(s[0], 8).value);
      var text :- Numbered(o.0);
      Some((text, o.1 + 1))
    else if s[0] in {'x', 'u', 'U'} then
      var k := if s[0] == 'x' then 2 else if s[0] == 'u' then 4 else 8;
      var n :- Hex(s[1..], k);
      var text :- Numbered(n);
      if k < |s| then Some((text, k + 1)) else None
    else if s[0] in {'N', '\n', '\r', NUL} then None
    else Some((['\\', s[0]], 1))
  }

  /** The literal up to its closing quote, which must end the line. Source text holds no NUL. */
  function Body(s: string): Option<string> {
    if s == [] || s[0] in {'\n', '\r', NUL} then None
    else if s[0] == '"' then if |s| == 1 then Some([]) else None
    else if s[0] == '\\' then
      if |s| == 1 then None
      else
        var u :- Unescape(s[1..]);
        var rest :- Body(s[1 + u.1..]);
        Some(u.0 + rest)
    else
      var rest :- Body(s[1..]);
      Some([s[0]] + rest)
  }

  /** Without the spaces and tabs in front, which is all that literal_eval takes off. */
  function Unindented(s: string): string {
    if s != [] && s[0] in {' ', '\t'} then Unindented(s[1..]) else s
  }

  /** ast.literal_eval of one double-quoted literal; None for anything else. */
  function LiteralEval(s: string): Option<string> {
    var t := Unindented(s);
    if t == [] || t[0] != '"' then None else Body(t[1..])
  }

  lemma BodyOneMore(c: char, rest: string)
    requires Body(rest).Some?
    ensures Body(Escape(c) + rest) == Some([c] + Body(rest).value)
  {
    hide Unescape;
    var s := Escape(c) + rest;
    assert s[|Escape(c)|..] == rest;
    if c == NUL {
      NulReadsBack(rest);
      assert s[1..] == "x00" + rest;
    } else if |Escape(c)| == 2 {
      LetterReadsBack(c, rest);
      assert s[1..] == [Escape(c)[1]] + rest;
    }
  }

  lemma LetterReadsBack(c: char, rest: string)
    requires |Escape(c)| == 2
    ensures Unescape([Escape(c)[1]] + rest) == Some(([c], 1))
  {
    hide Octal, Hex;
  }

  lemma NulReadsBack(rest: string)
    ensures Unescape("x00" + rest) == Some(([NUL], 3))
  {
    var s := ("x00" + rest)[1..];
    assert s[0] == '0' && s[1] == '0';
    assert Hex(s, 0) == Some(0);
    assert Hex(s, 1) == Some(0);
    assert Hex(s, 2) == Some(0);
  }

  lemma {:induction false} EscapedReadsBack(s: string)
    ensures Body(Escaped(s) + "\"") == Some(s)
  {
    hide Escape, Body;
    if s == [] {
      EmptyBody();
      assert Escaped(s) + "\"" == "\"";
    } else {
      EscapedReadsBack(s[1..]);
      BodyOneMore(s[0], Escaped(s[1..]) + "\"");
      assert Escaped(s) + "\"" == Escape(s[0]) + (Escaped(s[1..]) + "\"");
      assert [s[0]] + s[1..] == s;
    }
  }

  lemma EmptyBody()
    ensures Body("\"") == Some([])
  {
  }

  lemma {:induction false} HexHoldsNoNul(s: string, k: nat)
    requires Hex(s, k).Some?
    ensures k <= |s| && NUL !in s[..k]
  {
    if k == 0 {
    } else {
      HexHoldsNoNul(s, k - 1);
      assert s[..k] == s[..k - 1] + [s[k - 1]];
    }
  }

  lemma {:induction false} OctalHoldsNoNul(s: string, k: nat, value: nat)
    ensures NUL !in s[..Octal(s, k, value).1]
    decreases k
  {
    if k == 0 || s == [] || Digit(s[0], 8).None? {
    } else {
      OctalHoldsNoNul(s[1..], k - 1, 8 * value + Digit(s[0], 8).value);
      var n := Octal(s, k, value).1;
      assert s[..n] == [s[0]] + s[1..][..n - 1];
    }
  }

  lemma EscapesHoldNoNul(s: string)
    requires s != [] && Unescape(s).Some?
    ensures NUL !in s[..Unescape(s).value.1]
  {
    hide Octal, Hex, Numbered;
    var n := Unescape(s).value.1;
    assert s[..n] == [s[0]] + s[1..][..n - 1];
    if Plain(s[0]).Some? {
    } else if Digit(s[0], 8).Some? {
      OctalHoldsNoNul(s[1..], 2, Digit(s[0], 8).value);
    } else if s[0] in {'x', 'u', 'U'} {
      HexHoldsNoNul(s[1..], if s[0] == 'x' then 2 else if s[0] == 'u' then 4 else 8);
    }
  }

  /** Python refuses source text with a null byte: no literal that reads holds one. */
  lemma {:induction false} RawNulIsRefused(s: string)
    requires NUL in s
    ensures Body(s).None?
  {
    hide Unescape;
    if s == [] || s[0] in {'\n', '\r', NUL} {
    } else if s[0] == '"' {
    } else if s[0] == '\\' {
      if |s| > 1 && Unescape(s[1..]).Some? {
        EscapesHoldNoNul(s[1..]);
        RawNulIsRefused(s[1 + Unescape(s[1..]).value.1..]);
      }
    } else {
      RawNulIsRefused(s[1..]);
    }
  }

  /** Every string survives quoting. */
  lemma QuoteRoundTrip(s: string)
    ensures LiteralEval(Quote(s)) == Some(s)
    ensures Quote(s) != [] && Quote(s)[0] == '"' && Quote(s)[|Quote(s)| - 1] == '"'
  {
    hide Body, Escaped;
    EscapedReadsBack(s);
    assert Quote(s)[1..] == Escaped(s) + "\"";
    assert Unindented(Quote(s)) == Quote(s);
  }

  // ---- what Python reads, escape by escape ----

  /** What a literal between its quotes cannot hold as it stands. */
  predicate IsPlain(t: string) {
    forall i :: 0 <= i < |t| ==> t[i] !in {'"', '\\', '\n', '\r', NUL}
  }

  /** Without a backslash a literal is the text up to its one closing quote, which ends the line. */
  lemma {:induction false} PlainReads(s: string, t: string)
    requires '\\' !in s
    ensures Body(s) == Some(t) <==> IsPlain(t) && s == t + "\""
  {
    hide Unescape;
    if t != [] && s == t + "\"" {
      assert s[0] == t[0];
    }
    if s == [] || s[0] in {'\n', '\r', NUL} {
    } else if s[0] == '"' {
    } else if t == [] {
      assert s != t + "\"";
    } else {
      PlainReads(s[1..], t[1..]);
      assert t == [t[0]] + t[1..];
      if IsPlain(t) && s == t + "\"" {
        assert s[1..] == t[1..] + "\"" && s[0] == t[0];
      }
      if IsPlain(t[1..]) && s[1..] == t[1..] + "\"" && s[0] == t[0] {
        assert s == [s[0]] + s[1..];
      }
    }
  }

  /** An escape and what it stands for; the rest of the literal is read behind it. */
  lemma EscapeThen(e: string, text: string, rest: string)
    requires e != [] && Unescape(e + rest) == Some((text, |e|))
    ensures Body("\\" + e + rest) == match Body(rest) case None => None case Some(t) => Some(text + t)
  {
    hide Unescape;
    var s := "\\" + e + rest;
    assert s[1..] == e + rest && s[1 + |e|..] == rest;
  }

  const LETTERS := "\\\"'nrtabvf"
  const MEANINGS: seq<int> := [0x5C, 0x22, 0x27, 10, 13, 9, 7, 8, 11, 12]

  /** The letters: backslash, the quotes, n r t a b v f. */
  lemma LetterEscapes(k: nat, rest: string)
    requires k < 10
    ensures Unescape([LETTERS[k]] + rest) == Some(([MEANINGS[k] as char], 1))
  {
    hide Octal, Hex;
    assert |LETTERS| == 10;
  }

  const HEX_DIGITS := "0123456789abcdef"
  const CAPITAL_DIGITS := "0123456789ABCDEF"

  lemma DigitsAre(k: nat, c: char)
    requires k < 16
    ensures Digit(HEX_DIGITS[k], 16) == Some(k) == Digit(CAPITAL_DIGITS[k], 16)
    ensures Digit(HEX_DIGITS[k], 8) == if k < 8 then Some(k) else None
    ensures !('0' <= c <= '9' || 'a' <= c <= 'f' || 'A' <= c <= 'F') ==> Digit(c, 16) == None && Digit(c, 8) == None
  {
  }

  /** Up to three octal digits make one character. */
  lemma OctalEscapes(a: char, b: char, c: char, rest: string)
    requires '0' <= a <= '7' && '0' <= b <= '7' && '0' <= c <= '7'
    ensures var x, y, z := a as int - 48, b as int - 48, c as int - 48;
            && Unescape([a, b, c] + rest) == Some(([(64 * x + 8 * y + z) as char], 3))
            && (rest == [] || !('0' <= rest[0] <= '7') ==>
                  && Unescape([a, b] + rest) == Some(([(8 * x + y) as char], 2))
                  && Unescape([a] + rest) == Some(([x as char], 1)))
  {
    hide Octal, Hex, Plain;
    NoLetter(a);
    var x, y, z := a as int - 48, b as int - 48, c as int - 48;
    OctalThen(b, [c] + rest, 2, x);
    OctalThen(c, rest, 1, 8 * x + y);
    OctalEnds(rest, 0, 64 * x + 8 * y + z);
    assert ([a, b, c] + rest)[1..] == [b] + ([c] + rest) && ([a, b] + rest)[1..] == [b] + rest;
    assert ([a] + rest)[1..] == rest;
    if rest == [] || !('0' <= rest[0] <= '7') {
      OctalThen(b, rest, 2, x);
      OctalEnds(rest, 1, 8 * x + y);
      OctalEnds(rest, 2, x);
    }
  }

  lemma NoLetter(a: char)
    requires '0' <= a <= '7'
    ensures Plain(a).None? && Digit(a, 8) == Some(a as int - 48)
  {
  }

  lemma OctalThen(a: char, rest: string, k: nat, value: nat)
    requires '0' <= a <= '7' && k > 0
    ensures var r := Octal(rest, k - 1, 8 * value + (a as int - 48));
            Octal([a] + rest, k, value) == (r.0, r.1 + 1)
  {
    assert ([a] + rest)[1..] == rest;
  }

  lemma OctalEnds(rest: string, k: nat, value: nat)
    requires k == 0 || rest == [] || !('0' <= rest[0] <= '7')
    ensures Octal(rest, k, value) == (value, 0)
  {
  }

  /** So many digits as one number: the hexadecimal escapes take 2, 4 or 8 of them. */
  function HexValue(digits: seq<nat>): nat {
    if digits == [] then 0 else 16 * HexValue(digits[..|digits| - 1]) + digits[|digits| - 1]
  }

  predicate AreDigits(s: string, digits: seq<nat>) {
    |s| >= |digits| && forall i :: 0 <= i < |digits| ==> Digit(s[i], 16) == Some(digits[i])
  }

  lemma {:induction false} HexIs(s: string, digits: seq<nat>)
    requires AreDigits(s, digits)
    ensures Hex(s, |digits|) == Some(HexValue(digits))
  {
    hide Digit;
    if digits != [] {
      HexIs(s, digits[..|digits| - 1]);
    }
  }

  lemma {:induction false} HexFails(s: string, k: nat, i: nat)
    requires i < k && (i >= |s| || Digit(s[i], 16).None?)
    ensures Hex(s, k).None?
  {
    hide Digit;
    if i < k - 1 && k <= |s| {
      HexFails(s, k - 1, i);
    }
  }

  /** x, u and U take exactly 2, 4 and 8 digits; a lone surrogate or a number past Unicode's end is not read. */
  lemma HexEscapes(letter: char, s: string, digits: seq<nat>)
    requires (letter == 'x' && |digits| == 2) || (letter == 'u' && |digits| == 4) || (letter == 'U' && |digits| == 8)
    requires AreDigits(s, digits)
    ensures var n := HexValue(digits);
            Unescape([letter] + s)
            == if n < 0xD800 || 0xE000 <= n < 0x11_0000 then Some(([n as char], |digits| + 1)) else None
  {
    hide Hex, Octal, Digit, HexValue;
    DigitsAre(0, letter);
    assert ([letter] + s)[1..] == s;
    HexIs(s, digits);
  }

  lemma ShortHexEscapes(letter: char, s: string, i: nat)
    requires letter in {'x', 'u', 'U'} && i < (if letter == 'x' then 2 else if letter == 'u' then 4 else 8)
    requires i >= |s| || Digit(s[i], 16).None?
    ensures Unescape([letter] + s) == None
  {
    hide Hex, Octal, Digit;
    DigitsAre(0, letter);
    assert ([letter] + s)[1..] == s;
    HexFails(s, if letter == 'x' then 2 else if letter == 'u' then 4 else 8, i);
  }

  /** Any other character stands for itself, its backslash too; names and line ends are not read. */
  lemma OtherEscapes(c: char, rest: string)
    requires c !in LETTERS && !('0' <= c <= '7') && c !in {'x', 'u', 'U'}
    ensures Unescape([c] + rest) == if c in {'N', '\n', '\r', NUL} then None else Some((['\\', c], 1))
  {
    hide Hex, Octal;
    LettersAre(c);
  }

  lemma LettersAre(c: char)
    ensures c in LETTERS <==> c in {'\\', '"', '\'', 'n', 'r', 't', 'a', 'b', 'v', 'f'}
  {
    assert |LETTERS| == 10;
    assert LETTERS[0] == '\\' && LETTERS[1] == '"' && LETTERS[2] == '\'' && LETTERS[3] == 'n' && LETTERS[4] == 'r';
    assert LETTERS[5] == 't' && LETTERS[6] == 'a' && LETTERS[7] == 'b' && LETTERS[8] == 'v' && LETTERS[9] == 'f';
  }

  /** A literal is read behind any spaces and tabs; whatever begins otherwise is none. */
  lemma {:induction false} IndentedReads(pad: string, s: string)
    requires forall i :: 0 <= i < |pad| ==> pad[i] == ' ' || pad[i] == '\t'
    requires s == [] || (s[0] != ' ' && s[0] != '\t')
    ensures LiteralEval(pad + s) == if s != [] && s[0] == '"' then Body(s[1..]) else None
  {
    hide Body;
    if pad == [] {
      assert pad + s == s;
    } else {
      IndentedReads(pad[1..], s);
      assert (pad + s)[1..] == pad[1..] + s;
    }
  }

  // ---- the reader ----

  function Start(): State {
    State(map[], None, None, NoField, false)
  }

  function Flush(s: State): map<string, string> {
    if s.id.GetOr([]) != [] && s.str.GetOr([]) != [] && !s.fuzzy then s.catalog[s.id.value := s.str.value]
    else s.catalog
  }

  function Reset(s: State): State {
    State(Flush(s), None, None, NoField, false)
  }

  predicate Contains(s: string, part: string) {
    exists i :: 0 <= i <= |s| && PartAt(s, i, part)
  }

  predicate PartAt(s: string, i: int, part: string) {
    0 <= i && i + |part| <= |s| && s[i..i + |part|] == part
  }

  /** A part stands in a text exactly when the text is something, the part, and something. */
  lemma ContainsMeans(s: string, part: string)
    ensures Contains(s, part) <==> exists a, b :: s == a + part + b
  {
    if Contains(s, part) {
      var i :| 0 <= i <= |s| && PartAt(s, i, part);
      assert s == s[..i] + part + s[i + |part|..];
    }
    if a, b :| s == a + part + b {
      assert PartAt(s, |a|, part);
    }
  }

  predicate OpensEntry(line: string) {
    StartsWith(line, "#") || StartsWith(line, "msgid ")
  }

  /** One line; None where literal_eval raises. */
  function Feed(s: State, raw: string): Option<State> {
    var line := Strip(raw);
    var t := if s.field == Str && OpensEntry(line) then Reset(s) else s;
    if line == [] then Some(Reset(t))
    else if StartsWith(line, "#,") then Some(t.(fuzzy := t.fuzzy || Contains(line, "fuzzy")))
    else if StartsWith(line, "msgid ") then
      var text :- LiteralEval(line[6..]);
      Some(t.(id := Some(text), field := Id))
    else if StartsWith(line, "msgstr ") then
      var text :- LiteralEval(line[7..]);
      Some(t.(str := Some(text), field := Str))
    else if StartsWith(line, "\"") && t.field != NoField then
      var text :- LiteralEval(line);
      Some(if t.field == Id then t.(id := Some(t.id.GetOr([]) + text)) else t.(str := Some(t.str.GetOr([]) + text)))
    else Some(t)
  }

  /** An entry is taken when it has a msgid and a msgstr that are not empty and is not fuzzy. */
  lemma FlushMeans(s: State, id: string, str: string)
    ensures s.id.None? || s.id == Some("") || s.str.None? || s.str == Some("") || s.fuzzy ==> Flush(s) == s.catalog
    ensures s.id == Some(id) && s.str == Some(str) && id != "" && str != "" && !s.fuzzy ==>
              Flush(s) == s.catalog[id := str]
  {
  }

  /** A line with its white space off is blank, a comment, an opening or continued literal, or passed over. */
  lemma FeedMeans(s: State, raw: string)
    ensures var line := Strip(raw);
            var t := if s.field == Str && line != [] && (line[0] == '#' || "msgid " <= line)
                     then State(Flush(s), None, None, NoField, false) else s;
            if line == [] then Feed(s, raw) == Some(State(Flush(t), None, None, NoField, false))
            else if "#," <= line then Feed(s, raw) == Some(t.(fuzzy := t.fuzzy || Contains(line, "fuzzy")))
            else if "msgid " <= line then
              match LiteralEval(line[6..])
              case None => Feed(s, raw) == None
              case Some(text) => Feed(s, raw) == Some(t.(id := Some(text), field := Id))
            else if "msgstr " <= line then
              match LiteralEval(line[7..])
              case None => Feed(s, raw) == None
              case Some(text) => Feed(s, raw) == Some(t.(str := Some(text), field := Str))
            else if line[0] == '"' && t.field == Id then
              match LiteralEval(line)
              case None => Feed(s, raw) == None
              case Some(text) => Feed(s, raw) == Some(t.(id := Some(t.id.GetOr("") + text)))
            else if line[0] == '"' && t.field == Str then
              match LiteralEval(line)
              case None => Feed(s, raw) == None
              case Some(text) => Feed(s, raw) == Some(t.(str := Some(t.str.GetOr("") + text)))
            else Feed(s, raw) == Some(t)
  {
    hide Strip, LiteralEval, Contains, Flush;
    var line := Strip(raw);
    if line != [] {
      OneCharPrefix(line, '#');
      OneCharPrefix(line, '"');
    }
  }

  lemma OneCharPrefix(line: string, c: char)
    requires line != []
    ensures StartsWith(line, [c]) <==> line[0] == c
  {
    assert line[..1] == [line[0]];
  }

  function FeedAll(s: State, lines: seq<string>): Option<State>
    decreases |lines|
  {
    if lines == [] then Some(s)
    else
      var t :- Feed(s, lines[0]);
      FeedAll(t, lines[1..])
  }

  function Catalog(text: string): Option<map<string, string>> {
    var s :- FeedAll(Start(), SplitLines(text, FILE_BREAKS));
    Some(Flush(s))
  }

  /** read_po, over the text of the file. */
  method ReadPo(text: string) returns (catalog: Option<map<string, string>>)
    ensures catalog == Catalog(text)
  {
    hide Feed, Flush, SplitLines;
    var lines := SplitLines(text, FILE_BREAKS);
    var s := Start();
    var i: nat := 0;
    assert lines[0..] == lines;
    while i < |lines|
      invariant i <= |lines| && FeedAll(s, lines[i..]) == FeedAll(Start(), lines)
    {
      assert lines[i..][0] == lines[i] && lines[i..][1..] == lines[i + 1..];
      var t := Feed(s, lines[i]);
      if t.None? {
        return None;
      }
      s := t.value;
      i := i + 1;
    }
    return Some(Flush(s));
  }

  lemma {:induction false} FeedConcat(s: State, a: seq<string>, b: seq<string>)
    requires FeedAll(s, a).Some?
    ensures FeedAll(s, a + b) == FeedAll(FeedAll(s, a).value, b)
    decreases |a|
  {
    hide Feed;
    if a == [] {
      assert a + b == b;
    } else {
      FeedConcat(Feed(s, a[0]).value, a[1..], b);
      assert (a + b)[1..] == a[1..] + b;
    }
  }

  // ---- the printer ----

  /** One entry: its comment lines, msgid and msgstr in pieces, and the blank lines after it. */
  datatype Entry = Entry(notes: seq<string>, id: seq<string>, str: seq<string>, gap: seq<string>)

  predicate IsEntry(e: Entry) {
    && e.id != [] && e.str != []
    && AreLines(e.notes, FILE_BREAKS) && AreLines(e.gap, FILE_BREAKS)
    && (forall i :: 0 <= i < |e.notes| ==> StartsWith(Strip(e.notes[i]), "#"))
    && (forall i :: 0 <= i < |e.gap| ==> Strip(e.gap[i]) == [])
  }

  function Whole(parts: seq<string>): string {
    if parts == [] then [] else parts[0] + Whole(parts[1..])
  }

  predicate MarksFuzzy(note: string) {
    StartsWith(Strip(note), "#,") && Contains(Strip(note), "fuzzy")
  }

  predicate Fuzzy(notes: seq<string>) {
    notes != [] && (MarksFuzzy(notes[0]) || Fuzzy(notes[1..]))
  }

  function Quoted(parts: seq<string>): seq<string> {
    if parts == [] then [] else [Quote(parts[0])] + Quoted(parts[1..])
  }

  /** keyword "first piece", then each further piece on a line of its own. */
  function Printed(keyword: string, parts: seq<string>): seq<string>
    requires parts != []
  {
    [keyword + Quote(parts[0])] + Quoted(parts[1..])
  }

  function PrintEntry(e: Entry): seq<string>
    requires IsEntry(e)
  {
    e.notes + (Printed("msgid ", e.id) + (Printed("msgstr ", e.str) + e.gap))
  }

  predicate AreEntries(es: seq<Entry>) {
    forall i :: 0 <= i < |es| ==> IsEntry(es[i])
  }

  function Print(es: seq<Entry>): seq<string>
    requires AreEntries(es)
  {
    if es == [] then [] else PrintEntry(es[0]) + Print(es[1..])
  }

  /** What the entries mean: the last translation of each message, fuzzy and empty ones left out. */
  function Meaning(was: map<string, string>, es: seq<Entry>): map<string, string>
    decreases |es|
  {
    if es == [] then was else Meaning(Added(was, es[0]), es[1..])
  }

  function Added(was: map<string, string>, e: Entry): map<string, string> {
    if Fuzzy(e.notes) || Whole(e.id) == [] || Whole(e.str) == [] then was else was[Whole(e.id) := Whole(e.str)]
  }

  // ---- the round trip ----

  /** Between entries: nothing pending, or an entry that the next opening line finishes. */
  predicate Between(s: State, was: map<string, string>) {
    && Flush(s) == was
    && (s.field == Str || s == State(was, None, None, NoField, false))
  }

  lemma FeedNote(s: State, note: string)
    requires s.field in {NoField, Str} && StartsWith(Strip(note), "#")
    ensures var t := if s.field == Str then Reset(s) else s;
            Feed(s, note) == Some(t.(fuzzy := t.fuzzy || MarksFuzzy(note)))
  {
    hide Strip, Contains, Flush;
    var line := Strip(note);
    assert line[0] == '#';
    assert !StartsWith(line, "msgid ") && !StartsWith(line, "msgstr ") && !StartsWith(line, "\"") by {
      FirstChar(line);
    }
  }

  lemma FirstChar(line: string)
    requires line != []
    ensures StartsWith(line, "msgid ") || StartsWith(line, "msgstr ") ==> line[0] == 'm'
    ensures StartsWith(line, "\"") ==> line[0] == '"'
    ensures StartsWith(line, "#") || StartsWith(line, "#,") ==> line[0] == '#'
  {
    if StartsWith(line, "msgid ") {
      assert line[..6][0] == 'm';
    }
    if StartsWith(line, "msgstr ") {
      assert line[..7][0] == 'm';
    }
    if StartsWith(line, "#,") {
      assert line[..2][0] == '#';
    }
  }

  lemma {:induction false} FeedNotes(s: State, notes: seq<string>)
    requires s.field == NoField && forall i :: 0 <= i < |notes| ==> StartsWith(Strip(notes[i]), "#")
    ensures FeedAll(s, notes) == Some(s.(fuzzy := s.fuzzy || Fuzzy(notes)))
    decreases |notes|
  {
    hide Feed, Strip, MarksFuzzy, StartsWith;
    if notes == [] {
    } else {
      FeedNote(s, notes[0]);
      FeedNotes(s.(fuzzy := s.fuzzy || MarksFuzzy(notes[0])), notes[1..]);
    }
  }

  lemma PrintedLineStays(keyword: string, part: string)
    requires keyword != [] ==> !IsSpace(keyword[0])
    ensures Strip(keyword + Quote(part)) == keyword + Quote(part)
  {
    hide Quote;
    QuoteRoundTrip(part);
    var line := keyword + Quote(part);
    StripPadded([], line);
    assert [] + line == line;
  }

  lemma FeedId(s: State, part: string)
    requires s.field in {NoField, Str}
    ensures var t := if s.field == Str then Reset(s) else s;
            Feed(s, "msgid " + Quote(part)) == Some(t.(id := Some(part), field := Id))
  {
    hide Strip, Contains, Flush, Quote, LiteralEval;
    var line := "msgid " + Quote(part);
    PrintedLineStays("msgid ", part);
    QuoteRoundTrip(part);
    StartsWithOwnPrefix("msgid ", Quote(part));
    assert line[0] == 'm';
    FirstChar(line);
  }

  lemma FeedStr(s: State, part: string)
    requires s.field == Id
    ensures Feed(s, "msgstr " + Quote(part)) == Some(s.(str := Some(part), field := Str))
  {
    hide Strip, Contains, Flush, Quote, LiteralEval;
    var line := "msgstr " + Quote(part);
    PrintedLineStays("msgstr ", part);
    QuoteRoundTrip(part);
    StartsWithOwnPrefix("msgstr ", Quote(part));
    assert line[0] == 'm';
    FirstChar(line);
    assert line[3] == 's' && line[4] == 't';
    assert !StartsWith(line, "msgid ") by {
      assert line[..6][3] == 's';
    }
  }

  lemma FeedMore(s: State, part: string)
    requires (s.field == Id && s.id.Some?) || (s.field == Str && s.str.Some?)
    ensures Feed(s, Quote(part)) ==
              Some(if s.field == Id then s.(id := Some(s.id.value + part)) else s.(str := Some(s.str.value + part)))
  {
    hide Strip, Contains, Flush, Quote, LiteralEval;
    var line := Quote(part);
    PrintedLineStays([], part);
    assert [] + line == line;
    QuoteRoundTrip(part);
    FirstChar(line);
    assert StartsWith(line, "\"");
  }

  lemma QuotedFirst(parts: seq<string>)
    requires parts != []
    ensures Quoted(parts) == [Quote(parts[0])] + Quoted(parts[1..]) && Whole(parts) == parts[0] + Whole(parts[1..])
  {
    hide Quote;
  }

  lemma FeedAllFirst(s: State, line: string, rest: seq<string>)
    requires Feed(s, line).Some?
    ensures FeedAll(s, [line] + rest) == FeedAll(Feed(s, line).value, rest)
  {
    hide Feed;
    assert ([line] + rest)[1..] == rest;
  }

  lemma NoPieces(s: State)
    ensures FeedAll(s, Quoted([])) == Some(s) && Whole([]) == []
  {
  }

  lemma {:induction false} FeedPieces(s: State, parts: seq<string>)
    requires (s.field == Id && s.id.Some?) || (s.field == Str && s.str.Some?)
    ensures FeedAll(s, Quoted(parts)) ==
              Some(if s.field == Id then s.(id := Some(s.id.value + Whole(parts)))
                   else s.(str := Some(s.str.value + Whole(parts))))
    decreases |parts|
  {
    hide Feed, FeedAll, Quote, Quoted, Whole;
    if parts == [] {
      NoPieces(s);
      assert s.id.GetOr([]) + [] == s.id.GetOr([]) && s.str.GetOr([]) + [] == s.str.GetOr([]);
    } else {
      FeedMore(s, parts[0]);
      var t := Feed(s, Quote(parts[0])).value;
      FeedPieces(t, parts[1..]);
      QuotedFirst(parts);
      FeedAllFirst(s, Quote(parts[0]), Quoted(parts[1..]));
      if s.field == Id {
        assert s.id.value + parts[0] + Whole(parts[1..]) == s.id.value + Whole(parts);
      } else {
        assert s.str.value + parts[0] + Whole(parts[1..]) == s.str.value + Whole(parts);
      }
    }
  }

  lemma FeedIds(s: State, parts: seq<string>)
    requires s.field in {NoField, Str} && parts != []
    ensures var t := if s.field == Str then Reset(s) else s;
            FeedAll(s, Printed("msgid ", parts)) == Some(t.(id := Some(Whole(parts)), field := Id))
  {
    hide Feed, Quote, Quoted, Flush;
    FeedId(s, parts[0]);
    FeedPieces(Feed(s, "msgid " + Quote(parts[0])).value, parts[1..]);
    assert Printed("msgid ", parts)[1..] == Quoted(parts[1..]);
  }

  lemma FeedStrs(s: State, parts: seq<string>)
    requires s.field == Id && parts != []
    ensures FeedAll(s, Printed("msgstr ", parts)) == Some(s.(str := Some(Whole(parts)), field := Str))
  {
    hide Feed, Quote, Quoted, Flush;
    FeedStr(s, parts[0]);
    FeedPieces(Feed(s, "msgstr " + Quote(parts[0])).value, parts[1..]);
    assert Printed("msgstr ", parts)[1..] == Quoted(parts[1..]);
  }

  lemma {:induction false} FeedGap(s: State, gap: seq<string>, was: map<string, string>)
    requires Between(s, was) && forall i :: 0 <= i < |gap| ==> Strip(gap[i]) == []
    ensures FeedAll(s, gap).Some? && Between(FeedAll(s, gap).value, was)
    decreases |gap|
  {
    hide Strip, LiteralEval, Contains;
    if gap == [] {
    } else {
      FeedBlank(s, gap[0]);
      FeedGap(Reset(s), gap[1..], was);
    }
  }

  lemma FeedBlank(s: State, line: string)
    requires Strip(line) == []
    ensures Feed(s, line) == Some(Reset(s))
  {
    hide Strip, LiteralEval, Contains, Flush;
  }

  /** The comments and the msgid of an entry finish what was pending and begin the entry. */
  lemma FeedOpening(s: State, e: Entry, was: map<string, string>)
    requires Between(s, was) && IsEntry(e)
    ensures FeedAll(s, e.notes + Printed("msgid ", e.id)) ==
              Some(State(was, Some(Whole(e.id)), None, Id, Fuzzy(e.notes)))
  {
    hide Feed, Printed, Strip, Whole, StartsWith, MarksFuzzy;
    var clean := State(was, None, None, NoField, false);
    if e.notes == [] {
      assert e.notes + Printed("msgid ", e.id) == Printed("msgid ", e.id);
      FeedIds(s, e.id);
    } else {
      var t := if s.field == Str then Reset(s) else s;
      assert t == clean;
      FeedNote(s, e.notes[0]);
      FeedNote(clean, e.notes[0]);
      FeedNotes(clean, e.notes);
      assert FeedAll(s, e.notes) == FeedAll(clean, e.notes);
      FeedConcat(s, e.notes, Printed("msgid ", e.id));
      FeedIds(clean.(fuzzy := Fuzzy(e.notes)), e.id);
    }
  }

  lemma FeedEntry(s: State, e: Entry, was: map<string, string>)
    requires Between(s, was) && IsEntry(e)
    ensures FeedAll(s, PrintEntry(e)).Some? && Between(FeedAll(s, PrintEntry(e)).value, Added(was, e))
  {
    hide Feed, FeedAll, Printed, Strip, Whole, StartsWith, Fuzzy;
    var opening, body := e.notes + Printed("msgid ", e.id), Printed("msgstr ", e.str);
    FeedOpening(s, e, was);
    var t := FeedAll(s, opening).value;
    FeedStrs(t, e.str);
    var u := t.(str := Some(Whole(e.str)), field := Str);
    FeedGap(u, e.gap, Added(was, e));
    FeedConcat(t, body, e.gap);
    FeedConcat(s, opening, body + e.gap);
    assert PrintEntry(e) == opening + (body + e.gap);
  }

  lemma {:induction false} FeedEntries(s: State, es: seq<Entry>, was: map<string, string>)
    requires Between(s, was) && AreEntries(es)
    ensures FeedAll(s, Print(es)).Some? && Flush(FeedAll(s, Print(es)).value) == Meaning(was, es)
    decreases |es|
  {
    hide Feed, PrintEntry, Added, IsEntry;
    if es == [] {
    } else {
      FeedEntry(s, es[0], was);
      FeedConcat(s, PrintEntry(es[0]), Print(es[1..]));
      FeedEntries(FeedAll(s, PrintEntry(es[0])).value, es[1..], Added(was, es[0]));
    }
  }

  lemma {:induction false} EscapedIsOneLine(s: string)
    ensures IsOneLine(Escaped(s), FILE_BREAKS)
  {
    if s == [] {
    } else {
      EscapedIsOneLine(s[1..]);
      OneLineOf(Escape(s[0]), Escaped(s[1..]), FILE_BREAKS);
    }
  }

  lemma QuoteIsOneLine(s: string)
    ensures IsOneLine(Quote(s), FILE_BREAKS)
  {
    hide Escaped;
    EscapedIsOneLine(s);
  }

  lemma {:induction false} QuotedLines(parts: seq<string>)
    ensures AreLines(Quoted(parts), FILE_BREAKS)
  {
    hide Quote;
    if parts == [] {
    } else {
      QuoteIsOneLine(parts[0]);
      QuotedLines(parts[1..]);
    }
  }

  lemma PrintedLines(keyword: string, parts: seq<string>)
    requires parts != [] && IsOneLine(keyword, FILE_BREAKS)
    ensures AreLines(Printed(keyword, parts), FILE_BREAKS)
  {
    hide Quote, Quoted;
    QuoteIsOneLine(parts[0]);
    OneLineOf(keyword, Quote(parts[0]), FILE_BREAKS);
    QuotedLines(parts[1..]);
  }

  lemma {:induction false} EntriesLines(es: seq<Entry>)
    requires AreEntries(es)
    ensures AreLines(Print(es), FILE_BREAKS)
  {
    hide Printed, Strip, StartsWith;
    if es == [] {
    } else {
      var e := es[0];
      PrintedLines("msgid ", e.id);
      PrintedLines("msgstr ", e.str);
      LinesOf(Printed("msgstr ", e.str), e.gap, FILE_BREAKS);
      LinesOf(Printed("msgid ", e.id), Printed("msgstr ", e.str) + e.gap, FILE_BREAKS);
      LinesOf(e.notes, Printed("msgid ", e.id) + (Printed("msgstr ", e.str) + e.gap), FILE_BREAKS);
      EntriesLines(es[1..]);
      LinesOf(PrintEntry(e), Print(es[1..]), FILE_BREAKS);
    }
  }

  /** Printed entries read back as what they mean, however they are split into lines and spaced. */
  lemma PoRoundTrip(es: seq<Entry>)
    requires AreEntries(es)
    ensures Catalog(JoinLines(Print(es))) == Some(Meaning(map[], es))
  {
    hide FeedAll, Print, Meaning, AreEntries, SplitLines, JoinLines;
    EntriesLines(es);
    SplitJoined(Print(es), FILE_BREAKS);
    FeedEntries(Start(), es, map[]);
  }

  predicate Translates(e: Entry, id: string) {
    !Fuzzy(e.notes) && Whole(e.id) == id && id != [] && Whole(e.str) != []
  }

  /** A message is in the catalogue exactly when a usable entry translates it, and the last such entry wins. */
  lemma {:induction false} LastTranslationWins(was: map<string, string>, es: seq<Entry>, id: string)
    ensures id in Meaning(was, es) <==> id in was || exists k :: 0 <= k < |es| && Translates(es[k], id)
    ensures forall k :: 0 <= k < |es| && Translates(es[k], id) && (forall l :: k < l < |es| ==> !Translates(es[l], id))
              ==> Meaning(was, es)[id] == Whole(es[k].str)
    ensures (forall k :: 0 <= k < |es| ==> !Translates(es[k], id)) && id in was ==> Meaning(was, es)[id] == was[id]
    decreases |es|
  {
    hide Whole, Fuzzy;
    if es == [] {
    } else {
      var n := es[1..];
      LastTranslationWins(Added(was, es[0]), n, id);
      assert forall k :: 0 < k < |es| ==> es[k] == n[k - 1];
      assert forall k :: 0 <= k < |n| ==> n[k] == es[k + 1];
    }
  }
}
