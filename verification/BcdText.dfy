/** REG_SZ and REG_MULTI_SZ data: how bcd_logic.py encodes text and dumpbcd.py decodes it. */
module BcdText {
  import opened Bytes
  import opened Text

  const NUL := 0 as char

  function Sz(text: string): (r: seq<byte>) {
    EncodeUtf16(text) + Le16(0)
  }

  function SzAll(items: seq<string>): seq<byte> {
    if items == [] then [] else Sz(items[0]) + SzAll(items[1..])
  }

  function MultiSz(items: seq<string>): seq<byte> {
    SzAll(items) + Le16(0)
  }

  /** Without the NULs at its end. */
  function StripNuls(s: string): (r: string)
    ensures r <= s
    ensures r == [] || r[|r| - 1] != NUL
    ensures forall i :: |r| <= i < |s| ==> s[i] == NUL
  {
    if s == [] || s[|s| - 1] != NUL then s else StripNuls(s[..|s| - 1])
  }

  function DecodeSz(raw: seq<byte>): Option<string> {
    var s :- DecodeUtf16(raw);
    Some(StripNuls(s))
  }

  /** The pieces between NULs, empty ones included. */
  function SplitNuls(s: string): (r: seq<string>)
    ensures r != []
  {
    if s == [] then [[]]
    else
      var rest := SplitNuls(s[1..]);
      if s[0] == NUL then [[]] + rest else [[s[0]] + rest[0]] + rest[1..]
  }

  /** The items that are not empty. */
  function NonEmpty(xs: seq<string>): (r: seq<string>)
    ensures forall i :: 0 <= i < |r| ==> r[i] != [] && r[i] in xs
  {
    if xs == [] then [] else (if xs[0] == [] then [] else [xs[0]]) + NonEmpty(xs[1..])
  }

  function DecodeMultiSz(raw: seq<byte>): Option<seq<string>> {
    var s :- DecodeUtf16(raw);
    Some(NonEmpty(SplitNuls(s)))
  }

  /** Splitting loses nothing: the pieces hold no NUL, and with one after each they are the text and a NUL. */
  lemma {:induction false} SplitNulsMeans(s: string)
    ensures Terminated(SplitNuls(s)) == s + [NUL]
    ensures forall i :: 0 <= i < |SplitNuls(s)| ==> NUL !in SplitNuls(s)[i]
  {
    hide SplitNuls, Terminated;
    SplitMore(NUL, []);
    if s == [] {
      TerminatedMore([], []);
      var blank: string := [];
      assert SplitNuls(s) == [blank] + [];
      assert blank + [NUL] + [] == s + [NUL];
    } else {
      SplitNulsMeans(s[1..]);
      var rest := SplitNuls(s[1..]);
      SplitMore(s[0], s[1..]);
      assert s == [s[0]] + s[1..] && rest == [rest[0]] + rest[1..];
      TerminatedMore(rest[0], rest[1..]);
      TerminatedMore([s[0]] + rest[0], rest[1..]);
      TerminatedMore([], rest);
      assert s + [NUL] == [s[0]] + (s[1..] + [NUL]);
      if s[0] == NUL {
        assert [] + [NUL] + Terminated(rest) == [NUL] + Terminated(rest);
      } else {
        assert [s[0]] + rest[0] + [NUL] + Terminated(rest[1..]) == [s[0]] + (rest[0] + [NUL] + Terminated(rest[1..]));
      }
    }
  }

  lemma TerminatedMore(item: string, items: seq<string>)
    ensures Terminated([item] + items) == item + [NUL] + Terminated(items) && Terminated([]) == []
  {
    assert ([item] + items)[1..] == items;
  }

  /** Of the pieces exactly the empty ones go. */
  lemma {:induction false} NonEmptyMeans(xs: seq<string>, x: string)
    ensures NonEmpty(xs + [x]) == NonEmpty(xs) + if x == [] then [] else [x]
    ensures NonEmpty([]) == []
  {
    if xs == [] {
      assert xs + [x] == [x] && [x][1..] == [];
    } else {
      NonEmptyMeans(xs[1..], x);
      assert (xs + [x])[1..] == xs[1..] + [x];
    }
  }

  lemma SzIsText(text: string)
    ensures Sz(text) == EncodeUtf16(text + [NUL])
  {
    EncodeUtf16Concat(text, [NUL]);
    assert EncodeUtf16([NUL]) == Utf16Char(NUL) + EncodeUtf16([]);
  }

  /** A string reads back unchanged exactly when it does not itself end in a NUL. */
  lemma SzRoundTrip(text: string)
    ensures DecodeSz(Sz(text)) == Some(StripNuls(text))
    ensures DecodeSz(Sz(text)) == Some(text) <==> (text == [] || text[|text| - 1] != NUL)
  {
    SzIsText(text);
    Utf16RoundTrip(text + [NUL]);
    assert (text + [NUL])[..|text|] == text;
  }

  function Terminated(items: seq<string>): string {
    if items == [] then [] else items[0] + [NUL] + Terminated(items[1..])
  }

  lemma {:induction false} SzAllIsText(items: seq<string>)
    ensures SzAll(items) == EncodeUtf16(Terminated(items))
  {
    if items == [] {
    } else {
      SzIsText(items[0]);
      SzAllIsText(items[1..]);
      EncodeUtf16Concat(items[0] + [NUL], Terminated(items[1..]));
    }
  }

  lemma MultiSzIsText(items: seq<string>)
    ensures MultiSz(items) == EncodeUtf16(Terminated(items) + [NUL])
  {
    hide Terminated, SzAll;
    SzAllIsText(items);
    EncodeUtf16Concat(Terminated(items), [NUL]);
    EncodeOneMore(NUL, []);
  }

  lemma {:induction false} SplitAtNul(a: string, b: string)
    ensures NonEmpty(SplitNuls(a + [NUL] + b)) == NonEmpty(SplitNuls(a)) + NonEmpty(SplitNuls(b))
  {
    var s := a + [NUL] + b;
    SplitJoins(a, b);
    NonEmptyConcat(SplitNuls(a), SplitNuls(b));
  }

  lemma SplitMore(c: char, s: string)
    ensures var rest := SplitNuls(s);
            SplitNuls([c] + s) == if c == NUL then [[]] + rest else [[c] + rest[0]] + rest[1..]
    ensures SplitNuls([]) == [[]]
  {
    assert ([c] + s)[1..] == s;
  }

  lemma {:induction false} SplitJoins(a: string, b: string)
    ensures SplitNuls(a + [NUL] + b) == SplitNuls(a) + SplitNuls(b)
  {
    hide SplitNuls;
    if a == [] {
      assert a + [NUL] + b == [NUL] + b;
      SplitMore(NUL, b);
    } else {
      var rest := a[1..] + [NUL] + b;
      assert a + [NUL] + b == [a[0]] + rest && a == [a[0]] + a[1..];
      SplitJoins(a[1..], b);
      SplitMore(a[0], rest);
      SplitMore(a[0], a[1..]);
    }
  }

  lemma {:induction false} PiecesHaveNoNul(s: string, i: nat)
    requires i < |SplitNuls(s)|
    ensures NUL !in SplitNuls(s)[i]
  {
    if s == [] {
    } else {
      if s[0] == NUL {
        if i > 0 {
          PiecesHaveNoNul(s[1..], i - 1);
        }
      } else {
        PiecesHaveNoNul(s[1..], i);
      }
    }
  }

  lemma NonEmptyOfNone()
    ensures NonEmpty([]) == []
  {
  }

  lemma NonEmptyOneMore(x: string, xs: seq<string>)
    ensures NonEmpty([x] + xs) == (if x == [] then [] else [x]) + NonEmpty(xs)
  {
    assert ([x] + xs)[1..] == xs;
  }

  lemma {:induction false} NonEmptyConcat(xs: seq<string>, ys: seq<string>)
    ensures NonEmpty(xs + ys) == NonEmpty(xs) + NonEmpty(ys)
  {
    hide NonEmpty;
    if xs == [] {
      assert xs + ys == ys;
      NonEmptyOfNone();
    } else {
      NonEmptyConcat(xs[1..], ys);
      NonEmptyOneMore(xs[0], xs[1..]);
      NonEmptyOneMore(xs[0], xs[1..] + ys);
      assert xs + ys == [xs[0]] + (xs[1..] + ys) && xs == [xs[0]] + xs[1..];
    }
  }

  lemma {:induction false} SplitWhole(s: string)
    requires NUL !in s
    ensures SplitNuls(s) == [s]
  {
    if s == [] {
    } else {
      SplitWhole(s[1..]);
      assert s == [s[0]] + s[1..];
    }
  }

  lemma {:induction false} SplitsBack(items: seq<string>)
    requires forall i :: 0 <= i < |items| ==> items[i] != [] && NUL !in items[i]
    ensures NonEmpty(SplitNuls(Terminated(items) + [NUL])) == items
  {
    if items == [] {
      assert Terminated(items) + [NUL] == [NUL] && [NUL][1..] == [];
      var blank: string := [];
      assert SplitNuls([NUL]) == [blank, blank] && [blank, blank][1..] == [blank];
      assert NonEmpty([blank, blank]) == NonEmpty([blank]);
    } else {
      var rest := Terminated(items[1..]) + [NUL];
      assert Terminated(items) + [NUL] == items[0] + [NUL] + rest;
      SplitAtNul(items[0], rest);
      SplitWhole(items[0]);
      SplitsBack(items[1..]);
      assert NonEmpty([items[0]]) == [items[0]];
    }
  }

  /** A list of strings reads back unchanged exactly when none is empty and none holds a NUL. */
  lemma MultiSzRoundTrip(items: seq<string>)
    ensures DecodeMultiSz(MultiSz(items)) == Some(items)
            <==> forall i :: 0 <= i < |items| ==> items[i] != [] && NUL !in items[i]
  {
    SzAllIsText(items);
    SzIsText([]);
    EncodeUtf16Concat(Terminated(items), [NUL]);
    assert Sz([]) == Le16(0);
    assert [] + [NUL] == [NUL];
    Utf16RoundTrip(Terminated(items) + [NUL]);
    if forall i :: 0 <= i < |items| ==> items[i] != [] && NUL !in items[i] {
      SplitsBack(items);
    }
    var split := SplitNuls(Terminated(items) + [NUL]);
    forall i | 0 <= i < |NonEmpty(split)|
      ensures NUL !in NonEmpty(split)[i]
    {
      var j :| 0 <= j < |split| && split[j] == NonEmpty(split)[i];
      PiecesHaveNoNul(Terminated(items) + [NUL], j);
    }
  }
}
