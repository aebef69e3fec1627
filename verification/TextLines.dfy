/** The Python string operations the line-oriented parsers use. */
module TextLines {
  import opened Text

  /** White space: Latin-1's and Unicode's. */
  predicate IsSpace(c: char) {
    var n := c as int;
    || 9 <= n <= 13 || 28 <= n <= 32 || 0x2000 <= n <= 0x200A
    || n in {0x85, 0xA0, 0x1680, 0x2028, 0x2029, 0x202F, 0x205F, 0x3000}
  }

  function LStrip(s: string): (r: string)
    ensures |r| <= |s| && (r != [] ==> !IsSpace(r[0]))
  {
    if s != [] && IsSpace(s[0]) then LStrip(s[1..]) else s
  }

  function RStrip(s: string): (r: string)
    ensures |r| <= |s| && (r != [] ==> !IsSpace(r[|r| - 1]))
  {
    if s != [] && IsSpace(s[|s| - 1]) then RStrip(s[..|s| - 1]) else s
  }

  /** Without the white space at both ends. */
  function Strip(s: string): string {
    RStrip(LStrip(s))
  }

  predicate IsTrimmed(s: string) {
    s == [] || (!IsSpace(s[0]) && !IsSpace(s[|s| - 1]))
  }

  predicate IsBlank(s: string) {
    forall i :: 0 <= i < |s| ==> IsSpace(s[i])
  }

  /** Stripping takes off exactly the blank around a trimmed text. */
  lemma {:induction false} StripPadded(pad: string, s: string)
    requires IsBlank(pad) && IsTrimmed(s)
    ensures Strip(pad + s) == s
    decreases |pad|
  {
    if pad == [] {
      assert pad + s == s;
    } else {
      StripPadded(pad[1..], s);
      assert (pad + s)[1..] == pad[1..] + s;
    }
  }

  // white space code by code: the ASCII controls and space, NEL, NBSP, and the Unicode spaces
  const SPACES: set<int> := {9, 10, 11, 12, 13, 28, 29, 30, 31, 32, 0x85, 0xA0, 0x1680, 0x2000, 0x2001, 0x2002, 0x2003,
                             0x2004, 0x2005, 0x2006, 0x2007, 0x2008, 0x2009, 0x200A, 0x2028, 0x2029, 0x202F, 0x205F,
                             0x3000}

  lemma SpacesAreThese(c: char)
    ensures IsSpace(c) <==> c as int in SPACES
  {
  }

  /** What is stripped is blank, and what is left begins and ends with something else: no other text does that. */
  lemma {:induction false} StripIsTheMiddle(front: string, s: string, back: string)
    requires IsBlank(front) && IsBlank(back) && IsTrimmed(s)
    ensures Strip(front + s + back) == s
    decreases |front|
  {
    if front != [] {
      StripIsTheMiddle(front[1..], s, back);
      assert (front + s + back)[1..] == front[1..] + s + back;
    } else {
      assert front + s + back == s + back;
      if s == [] {
        BlankStrips(back);
        assert s + back == back;
      } else {
        RStripBack(s, back);
      }
    }
  }

  lemma {:induction false} BlankStrips(s: string)
    requires IsBlank(s)
    ensures Strip(s) == []
  {
    if s != [] {
      BlankStrips(s[1..]);
    }
  }

  lemma {:induction false} RStripBack(s: string, back: string)
    requires IsBlank(back) && s != [] && IsTrimmed(s)
    ensures RStrip(s + back) == s
    decreases |back|
  {
    if back == [] {
      assert s + back == s;
    } else {
      var n := |back| - 1;
      RStripBack(s, back[..n]);
      assert (s + back)[..|s| + n] == s + back[..n];
    }
  }

  /** The text begins with the prefix. */
  predicate StartsWith(s: string, prefix: string) {
    |prefix| <= |s| && s[..|prefix|] == prefix
  }

  lemma StartsWithOwnPrefix(prefix: string, rest: string)
    ensures StartsWith(prefix + rest, prefix) && (prefix + rest)[|prefix|..] == rest
  {
  }

  // ---- lines ----

  /** Where a text file opened in Python breaks its lines; CR LF counts as one break. */
  const FILE_BREAKS: set<char> := {'\n', '\r'}

  /** Where Python splits a string into lines. */
  const LINE_BREAKS: set<char> :=
    FILE_BREAKS + {11 as char, 12 as char, 28 as char, 29 as char, 30 as char}
    + {0x85 as char, 0x2028 as char, 0x2029 as char}

  /** The lines of a text; a break at its end begins no further line. */
  function SplitLines(s: string, breaks: set<char>): seq<string> {
    if s == [] then []
    else if s[0] in breaks then
      [[]] + SplitLines(s[if s[0] == '\r' && |s| > 1 && s[1] == '\n' then 2 else 1..], breaks)
    else
      var rest := SplitLines(s[1..], breaks);
      if rest == [] then [[s[0]]] else [[s[0]] + rest[0]] + rest[1..]
  }

  predicate IsOneLine(s: string, breaks: set<char>) {
    forall i :: 0 <= i < |s| ==> s[i] !in breaks
  }

  predicate AreLines(lines: seq<string>, breaks: set<char>) {
    forall i :: 0 <= i < |lines| ==> IsOneLine(lines[i], breaks)
  }

  /** Every line with a newline after it. */
  function JoinLines(lines: seq<string>): string {
    if lines == [] then [] else lines[0] + "\n" + JoinLines(lines[1..])
  }

  /** What ends a line: one of the breaks, or a carriage return and a newline together. */
  predicate Ends(sep: string, rest: string, breaks: set<char>) {
    sep == "\r\n" || (|sep| == 1 && sep[0] in breaks && !(sep == "\r" && rest != [] && rest[0] == '\n'))
  }

  /** A text splits at its first break, whichever that is. */
  lemma {:induction false} SplitAtBreak(line: string, sep: string, rest: string, breaks: set<char>)
    requires IsOneLine(line, breaks) && '\n' in breaks && '\r' in breaks && Ends(sep, rest, breaks)
    ensures SplitLines(line + sep + rest, breaks) == [line] + SplitLines(rest, breaks)
  {
    var s := line + sep + rest;
    if line == [] {
      assert s == sep + rest;
      assert s[|sep|..] == rest;
    } else {
      SplitAtBreak(line[1..], sep, rest, breaks);
      assert s[1..] == line[1..] + sep + rest;
      assert [line[0]] + line[1..] == line;
    }
  }

  /** A text without a break is its only line. */
  lemma {:induction false} SplitNoBreak(line: string, breaks: set<char>)
    requires IsOneLine(line, breaks) && line != []
    ensures SplitLines(line, breaks) == [line]
  {
    if |line| > 1 {
      SplitNoBreak(line[1..], breaks);
      assert [line[1..]][1..] == [];
    } else {
      assert line == [line[0]] && SplitLines(line[1..], breaks) == [];
    }
    assert [line[0]] + line[1..] == line;
  }

  lemma SplitFirst(line: string, rest: string, breaks: set<char>)
    requires IsOneLine(line, breaks) && '\n' in breaks && '\r' in breaks
    ensures SplitLines(line + "\n" + rest, breaks) == [line] + SplitLines(rest, breaks)
  {
    SplitAtBreak(line, "\n", rest, breaks);
  }

  /** The lines of a text file end at LF, CR and CR LF and nowhere else. */
  lemma FileLines(line: string, sep: string, rest: string)
    requires '\n' !in line && '\r' !in line
    requires sep in {"\n", "\r\n"} || (sep == "\r" && (rest == [] || rest[0] != '\n'))
    ensures SplitLines(line + sep + rest, FILE_BREAKS) == [line] + SplitLines(rest, FILE_BREAKS)
    ensures line != [] ==> SplitLines(line, FILE_BREAKS) == [line]
  {
    SplitAtBreak(line, sep, rest, FILE_BREAKS);
    if line != [] {
      SplitNoBreak(line, FILE_BREAKS);
    }
  }

  /** The codes str.splitlines breaks at: LF, VT, FF, CR, FS, GS, RS, NEL, and Unicode's two separators. */
  predicate BreaksAt(code: int) {
    10 <= code <= 13 || 28 <= code <= 30 || code == 0x85 || code == 0x2028 || code == 0x2029
  }

  /** The lines of a string end there, at CR LF, and nowhere else. */
  lemma StringLines(line: string, sep: string, rest: string)
    requires forall i :: 0 <= i < |line| ==> !BreaksAt(line[i] as int)
    requires sep == "\r\n" || (|sep| == 1 && BreaksAt(sep[0] as int) && !(sep == "\r" && rest != [] && rest[0] == '\n'))
    ensures SplitLines(line + sep + rest, LINE_BREAKS) == [line] + SplitLines(rest, LINE_BREAKS)
    ensures line != [] ==> SplitLines(line, LINE_BREAKS) == [line]
  {
    hide SplitLines;
    BreaksAreThese(line + sep);
    assert IsOneLine(line, LINE_BREAKS) by {
      forall i | 0 <= i < |line|
        ensures line[i] !in LINE_BREAKS
      {
        assert (line + sep)[i] == line[i];
      }
    }
    assert (line + sep)[|line|] == sep[0];
    SplitAtBreak(line, sep, rest, LINE_BREAKS);
    if line != [] {
      SplitNoBreak(line, LINE_BREAKS);
    }
  }

  lemma BreaksAreThese(s: string)
    ensures forall i :: 0 <= i < |s| ==> (s[i] in LINE_BREAKS <==> BreaksAt(s[i] as int))
    ensures '\n' in LINE_BREAKS && '\r' in LINE_BREAKS
  {
  }

  /** Lines that hold no break come back as they were joined. */
  lemma {:induction false} SplitJoined(lines: seq<string>, breaks: set<char>)
    requires AreLines(lines, breaks) && '\n' in breaks && '\r' in breaks
    ensures SplitLines(JoinLines(lines), breaks) == lines
  {
    hide SplitLines, IsOneLine;
    if lines == [] {
      NoLines(breaks);
    } else {
      assert IsOneLine(lines[0], breaks);
      SplitFirst(lines[0], JoinLines(lines[1..]), breaks);
      SplitJoined(lines[1..], breaks);
      assert [lines[0]] + lines[1..] == lines;
    }
  }

  lemma NoLines(breaks: set<char>)
    ensures SplitLines([], breaks) == []
  {
  }

  lemma OneLineOf(a: string, b: string, breaks: set<char>)
    requires IsOneLine(a, breaks) && IsOneLine(b, breaks)
    ensures IsOneLine(a + b, breaks)
  {
  }

  lemma LinesOf(a: seq<string>, b: seq<string>, breaks: set<char>)
    requires AreLines(a, breaks) && AreLines(b, breaks)
    ensures AreLines(a + b, breaks)
  {
    hide IsOneLine;
  }
}
