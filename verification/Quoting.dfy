/**
  quote_if_needed and strip_quotes of tools/pg_psql/stringutils.cpp.
 */
module Quoting {
  import opened Basics
  import opened Buffers
  import opened Encoding

  /** The quote character and the escape character; an escape of NUL means none. */
  datatype Marks = Marks(quote: char, escape: char) {
    predicate Is(c: char) { c == quote || c == escape }
    /** Both are ASCII, or there is no escape. */
    predicate Plain() { Ascii(quote) && (Ascii(escape) || escape == '\0') }
  }

  // ---------------------------------------------------------------------
  // The two transformations

  /** Every quote and escape character is doubled. */
  function Doubled(s: string, marks: Marks, mblen: Mblen): (r: string)
    decreases |s|
  {
    if s == "" then ""
    else
      var m := CharLen(mblen, s);
      (if marks.Is(s[0]) then [s[0]] else "") + (s[..m] + Doubled(s[m..], marks, mblen))
  }

  function Quoted(s: string, marks: Marks, mblen: Mblen): (r: string) {
    [marks.quote] + (Doubled(s, marks, mblen) + [marks.quote])
  }

  /** 1 when the first character only marks the one behind it. */
  function Marker(s: string, marks: Marks): (k: nat)
    requires s != ""
    ensures k <= 1 && k < |s|
  {
    if |s| > 1 && ((s[0] == marks.quote && s[1] == marks.quote) || s[0] == marks.escape) then 1 else 0
  }

  /** The text from behind the opening quote on, without its marks. */
  function StrippedBody(s: string, marks: Marks, mblen: Mblen): (r: string)
    ensures |r| <= |s|
    decreases |s|
  {
    if s == "" || (s[0] == marks.quote && |s| == 1) then ""
    else s[Marker(s, marks)..KeptEnd(s, marks, mblen)] + StrippedBody(s[KeptEnd(s, marks, mblen)..], marks, mblen)
  }

  /** Where the character that is kept ends. */
  function KeptEnd(s: string, marks: Marks, mblen: Mblen): (e: nat)
    requires s != ""
    ensures Marker(s, marks) < e <= |s|
  {
    Marker(s, marks) + CharLen(mblen, s[Marker(s, marks)..])
  }

  function Stripped(s: string, marks: Marks, mblen: Mblen): (r: string)
    ensures |r| <= |s|
  {
    StrippedBody(if s != "" && s[0] == marks.quote then s[1..] else s, marks, mblen)
  }

  /** Whether some character of s makes quoting necessary. */
  predicate NeedsQuotes(s: string, entails: set<char>, marks: Marks, mblen: Mblen)
    decreases |s|
  {
    s != "" && (marks.Is(s[0]) || s[0] in entails || NeedsQuotes(s[CharLen(mblen, s)..], entails, marks, mblen))
  }

  /** The bytes at which the characters of s begin. */
  function Starts(s: string, mblen: Mblen): (cs: set<char>)
    decreases |s|
  {
    if s == "" then {} else {s[0]} + Starts(s[CharLen(mblen, s)..], mblen)
  }

  predicate Asks(c: char, entails: set<char>, marks: Marks) { c == marks.quote || c == marks.escape || c in entails }

  /** Quoting is necessary exactly if a quote, an escape or one of the given characters occurs. */
  lemma {:induction false} NeedsQuotesIff(s: string, entails: set<char>, marks: Marks, mblen: Mblen)
    ensures NeedsQuotes(s, entails, marks, mblen) <==> exists c :: c in Starts(s, mblen) && Asks(c, entails, marks)
    decreases |s|
  {
    hide CharLen;
    if s != "" {
      var rest := s[CharLen(mblen, s)..];
      NeedsQuotesIff(rest, entails, marks, mblen);
      assert Starts(s, mblen) == {s[0]} + Starts(rest, mblen);
      if Asks(s[0], entails, marks) {
        assert s[0] in Starts(s, mblen);
      } else if NeedsQuotes(rest, entails, marks, mblen) {
        var c :| c in Starts(rest, mblen) && Asks(c, entails, marks);
        assert c in Starts(s, mblen);
      } else {
        assert forall c :: c in Starts(s, mblen) ==> !Asks(c, entails, marks);
      }
    }
  }

  // ---------------------------------------------------------------------
  // Stripping undoes quoting

  /** One character, with or without a mark in front of it, in front of more text. */
  lemma StripChar(mark: string, char_: string, tail: string, marks: Marks, mblen: Mblen)
    requires char_ != "" && tail != "" && CharLen(mblen, char_ + tail) == |char_|
    requires |mark| == Marker(mark + (char_ + tail), marks)
    ensures StrippedBody(mark + (char_ + tail), marks, mblen) == char_ + StrippedBody(tail, marks, mblen)
  {
    hide CharLen, Marker;
    var text := mark + (char_ + tail);
    Behind(mark, char_ + tail);
    Behind(char_, tail);
    var e := |mark| + |char_|;
    assert KeptEnd(text, marks, mblen) == e;
    assert text[|mark|..][..|char_|] == text[|mark|..e] && text[|mark|..][|char_|..] == text[e..];
  }

  lemma {:induction false} StripDoubled(s: string, marks: Marks, mblen: Mblen)
    requires Extends(mblen) && WellFormed(mblen, s) && marks.Plain() && NoNul(s)
    ensures StrippedBody(Doubled(s, marks, mblen) + [marks.quote], marks, mblen) == s
    decreases |s|
  {
    hide StrippedBody, CharLen, Doubled;
    if s == "" {
      StripNothing(marks, mblen);
    } else {
      var m := CharLen(mblen, s);
      var char_, tail := s[..m], Doubled(s[m..], marks, mblen) + [marks.quote];
      DoubledChar(s, marks, mblen, [marks.quote]);
      StripRest(s, marks, mblen);
      CharThere(mblen, s, tail);
      if marks.Is(s[0]) {
        assert m == 1 by { AsciiChar(mblen, s); }
        StripChar([s[0]], char_, tail, marks, mblen);
      } else {
        Units(char_ + tail);
        StripChar("", char_, tail, marks, mblen);
      }
      assert char_ + s[m..] == s;
    }
  }

  lemma StripNothing(marks: Marks, mblen: Mblen)
    ensures StrippedBody(Doubled("", marks, mblen) + [marks.quote], marks, mblen) == ""
  {
  }

  lemma StripRest(s: string, marks: Marks, mblen: Mblen)
    requires Extends(mblen) && WellFormed(mblen, s) && marks.Plain() && NoNul(s) && s != ""
    ensures StrippedBody(Doubled(s[CharLen(mblen, s)..], marks, mblen) + [marks.quote], marks, mblen) ==
            s[CharLen(mblen, s)..]
    decreases |s|, 0
  {
    StripDoubled(s[CharLen(mblen, s)..], marks, mblen);
  }

  lemma DoubledChar(s: string, marks: Marks, mblen: Mblen, tail: string)
    requires s != ""
    ensures var m := CharLen(mblen, s);
            var more := s[..m] + (Doubled(s[m..], marks, mblen) + tail);
            Doubled(s, marks, mblen) + tail == if marks.Is(s[0]) then [s[0]] + more else more
  {
  }

  lemma {:induction false} StripUnmarked(s: string, entails: set<char>, marks: Marks, mblen: Mblen)
    requires !NeedsQuotes(s, entails, marks, mblen)
    ensures StrippedBody(s, marks, mblen) == s
    decreases |s|
  {
    if s != "" {
      var m := CharLen(mblen, s);
      StripUnmarked(s[m..], entails, marks, mblen);
      assert Marker(s, marks) == 0 && s[0..] == s;
      assert s == s[..m] + s[m..];
    }
  }

  /** Whatever quote_if_needed answers, the quoted text or "not needed", strip_quotes gives the source back. */
  lemma QuoteRoundTrip(s: string, entails: set<char>, marks: Marks, mblen: Mblen)
    requires Extends(mblen) && WellFormed(mblen, s) && marks.Plain() && NoNul(s)
    ensures Stripped(Quoted(s, marks, mblen), marks, mblen) == s
    ensures !NeedsQuotes(s, entails, marks, mblen) ==> Stripped(s, marks, mblen) == s
  {
    StripDoubled(s, marks, mblen);
    Behind([marks.quote], Doubled(s, marks, mblen) + [marks.quote]);
    if !NeedsQuotes(s, entails, marks, mblen) {
      StripUnmarked(s, entails, marks, mblen);
    }
  }

  // ---------------------------------------------------------------------
  // strip_quotes

  lemma StripEnd(s: string, marks: Marks, mblen: Mblen)
    requires s == "" || (s[0] == marks.quote && |s| == 1)
    ensures StrippedBody(s, marks, mblen) == ""
  {
  }

  lemma {:induction false} StrippedNoNul(s: string, marks: Marks, mblen: Mblen)
    requires NoNul(s)
    ensures NoNul(StrippedBody(s, marks, mblen))
    decreases |s|
  {
    if s != "" && !(s[0] == marks.quote && |s| == 1) {
      var k := Marker(s, marks);
      StrippedNoNul(s[k + CharLen(mblen, s[k..])..], marks, mblen);
    }
  }

  /** The length of the character at a[p], from the text there. */
  method PQmblen(a: array<char>, p: nat, mblen: Mblen, ghost t: string) returns (m: nat)
    requires HasText(a, p, t) && t != ""
    ensures m == CharLen(mblen, t)
  {
    var e := p;
    while a[e] != '\0'
      invariant p <= e <= p + |t|
      decreases p + |t| - e
    {
      e := e + 1;
    }
    assert a[p..e] == t;
    m := CharLen(mblen, a[p..e]);
  }

  /** Copies m bytes to a place at or below where they are. */
  method CopyDown(a: array<char>, src0: nat, dst0: nat, m: nat) returns (src: nat, dst: nat)
    requires dst0 <= src0 && src0 + m <= a.Length
    modifies a
    ensures src == src0 + m && dst == dst0 + m
    ensures forall j :: dst0 <= j < dst0 + m ==> a[j] == old(a[j + (src0 - dst0)])
    ensures SameOutside(a, dst0, dst0 + m)
  {
    src, dst := src0, dst0;
    var i := m;
    while i > 0
      invariant 0 <= i <= m && src == src0 + (m - i) && dst == dst0 + (m - i)
      invariant forall j :: dst0 <= j < dst ==> a[j] == old(a[j + (src0 - dst0)])
      invariant SameOutside(a, dst0, dst)
    {
      i := i - 1;
      a[dst] := a[src];
      src, dst := src + 1, dst + 1;
    }
  }

  /** One round of the loop: past a mark if there is one, and one character copied behind what is done. */
  method StripOne(a: array<char>, src0: nat, dst0: nat, marks: Marks, mblen: Mblen,
                  ghost start: nat, ghost done: string, ghost text: string)
    returns (src: nat, dst: nat)
    requires start + |done| == dst0 <= src0 && HasText(a, src0, text) && HasBytes(a, start, done)
    requires text != "" && !(text[0] == marks.quote && |text| == 1)
    modifies a
    ensures src == src0 + KeptEnd(text, marks, mblen) && dst0 <= dst <= src
    ensures dst == dst0 + KeptEnd(text, marks, mblen) - Marker(text, marks)
    ensures HasBytes(a, start, done + text[Marker(text, marks)..KeptEnd(text, marks, mblen)])
    ensures HasText(a, src, text[KeptEnd(text, marks, mblen)..])
    ensures SameOutside(a, dst0, dst)
  {
    hide CharLen, HasBytes;
    src, dst := src0, dst0;
    TextStarts(a, src0, text);
    var c := a[src];
    if (c == marks.quote && a[src + 1] == marks.quote) || (c == marks.escape && a[src + 1] != '\0') {
      src := src + 1;
    }
    ghost var k := Marker(text, marks);
    assert src == src0 + k;
    TextFrom(a, src0, text, k);
    var m := PQmblen(a, src, mblen, text[k..]);
    src, dst := CopyChar(a, src, dst, m, start, done, text[k..]);
    assert text[k..][..m] == text[k..k + m] && text[k..][m..] == text[k + m..];
  }

  method CopyChar(a: array<char>, src0: nat, dst0: nat, m: nat, ghost start: nat, ghost done: string, ghost text: string)
    returns (src: nat, dst: nat)
    requires start + |done| == dst0 <= src0 && HasText(a, src0, text) && HasBytes(a, start, done) && m <= |text|
    modifies a
    ensures src == src0 + m && dst == dst0 + m
    ensures HasBytes(a, start, done + text[..m]) && HasText(a, src, text[m..])
    ensures SameOutside(a, dst0, dst)
  {
    src, dst := CopyDown(a, src0, dst0, m);
  }

  /** The copying loop, up to the closing quote or the end. */
  method StripLoop(a: array<char>, start: nat, src0: nat, marks: Marks, mblen: Mblen, ghost t: string)
    returns (dst: nat)
    requires start <= src0 && HasText(a, src0, t) && marks.quote != '\0'
    modifies a
    ensures dst == start + |StrippedBody(t, marks, mblen)|
    ensures HasBytes(a, start, StrippedBody(t, marks, mblen))
    ensures SameOutside(a, start, src0 + |t|)
  {
    hide StrippedBody, KeptEnd, Marker;
    dst := start;
    var src := src0;
    ghost var done, text := "", t;
    Units(StrippedBody(t, marks, mblen));
    while a[src] != '\0' && !(a[src] == marks.quote && a[src + 1] == '\0')
      invariant start + |done| == dst <= src && src + |text| == src0 + |t|
      invariant HasText(a, src, text) && HasBytes(a, start, done)
      invariant StrippedBody(t, marks, mblen) == done + StrippedBody(text, marks, mblen)
      invariant SameOutside(a, start, src0 + |t|)
      decreases |text|
    {
      StripBodyStep(done, text, marks, mblen);
      src, dst := StripOne(a, src, dst, marks, mblen, start, done, text);
      done := done + text[Marker(text, marks)..KeptEnd(text, marks, mblen)];
      text := text[KeptEnd(text, marks, mblen)..];
    }
    StripEnd(text, marks, mblen);
    Units(done);
  }

  /** strip_quotes: the text at `start` is overwritten in place and becomes no longer. */
  method StripQuotes(a: array<char>, start: nat, marks: Marks, mblen: Mblen, ghost t: string)
    requires HasText(a, start, t) && marks.quote != '\0'
    modifies a
    ensures HasText(a, start, Stripped(t, marks, mblen))
    ensures SameOutside(a, start, start + |t|)
  {
    hide StrippedBody;
    ghost var t0 := if t != "" && t[0] == marks.quote then t[1..] else t;
    StrippedNoNul(t0, marks, mblen);
    var src := start;
    if a[src] != '\0' && a[src] == marks.quote { src := src + 1; }
    var dst := StripLoop(a, start, src, marks, mblen, t0);
    a[dst] := '\0';
  }

  lemma StripBodyStep(done: string, s: string, marks: Marks, mblen: Mblen)
    requires s != "" && !(s[0] == marks.quote && |s| == 1)
    ensures done + StrippedBody(s, marks, mblen) ==
            done + s[Marker(s, marks)..KeptEnd(s, marks, mblen)] + StrippedBody(s[KeptEnd(s, marks, mblen)..], marks, mblen)
  {
  }

  // ---------------------------------------------------------------------
  // quote_if_needed

  lemma {:induction false} DoubledBound(s: string, marks: Marks, mblen: Mblen)
    ensures |Doubled(s, marks, mblen)| <= 2 * |s|
    ensures NoNul(s) ==> NoNul(Doubled(s, marks, mblen))
    decreases |s|
  {
    if s != "" { DoubledBound(s[CharLen(mblen, s)..], marks, mblen); }
  }

  /** One round: a mark in front of a mark, then the character. */
  method QuoteOne(a: array<char>, dst0: nat, s: string, marks: Marks, mblen: Mblen, ghost done: string)
    returns (dst: nat, m: nat)
    requires s != "" && |done| == dst0 && HasBytes(a, 0, done) && dst0 + 2 * CharLen(mblen, s) <= a.Length
    modifies a
    ensures m == CharLen(mblen, s)
    ensures var piece := (if marks.Is(s[0]) then [s[0]] else "") + s[..m];
            dst == dst0 + |piece| && HasBytes(a, 0, done + piece)
  {
    hide CharLen;
    dst := dst0;
    if marks.Is(s[0]) {
      a[dst] := s[0];
      dst := dst + 1;
    }
    ghost var from := dst;
    m := CharLen(mblen, s);
    var i := 0;
    while i < m
      invariant 0 <= i <= m && dst == from + i
      invariant HasBytes(a, 0, done) && (marks.Is(s[0]) ==> a[dst0] == s[0])
      invariant forall j :: from <= j < dst ==> a[j] == s[j - from]
    {
      a[dst] := s[i];
      dst, i := dst + 1, i + 1;
    }
  }

  /** None when the source needs no quotes; the buffer of twice its length and three is always enough. */
  method QuoteIfNeeded(source: string, entails: set<char>, marks: Marks, mblen: Mblen)
    returns (ret: Option<array<char>>)
    requires NoNul(source) && marks.quote != '\0'
    ensures ret.Some? <==> NeedsQuotes(source, entails, marks, mblen)
    ensures ret.Some? ==> HasText(ret.value, 0, Quoted(source, marks, mblen))
  {
    hide Doubled, NeedsQuotes, CharLen;
    DoubledBound(source, marks, mblen);
    assert source[0..] == source;
    var a := new char[2 * |source| + 3];
    a[0] := marks.quote;
    var src, dst, needQuotes := 0, 1, false;
    ghost var done := [marks.quote];
    while src < |source|
      invariant 0 <= src <= |source| && dst == |done| <= 2 * src + 1 && HasBytes(a, 0, done)
      invariant [marks.quote] + Doubled(source, marks, mblen) == done + Doubled(source[src..], marks, mblen)
      invariant NeedsQuotes(source, entails, marks, mblen) ==
                (needQuotes || NeedsQuotes(source[src..], entails, marks, mblen))
      decreases |source| - src
    {
      var s := source[src..];
      QuoteStep(done, s, entails, marks, mblen);
      if marks.Is(s[0]) || s[0] in entails { needQuotes := true; }
      var m;
      dst, m := QuoteOne(a, dst, s, marks, mblen, done);
      done := done + ((if marks.Is(s[0]) then [s[0]] else "") + s[..m]);
      assert source[src..][m..] == source[src + m..];
      src := src + m;
    }
    QuoteEnd(done, entails, marks, mblen);
    Assoc([marks.quote], Doubled(source, marks, mblen), [marks.quote]);
    assert source[src..] == "";
    a[dst] := marks.quote;
    a[dst + 1] := '\0';
    if needQuotes { ret := Some(a); } else { ret := None; }
  }

  lemma QuoteEnd(done: string, entails: set<char>, marks: Marks, mblen: Mblen)
    ensures done + Doubled("", marks, mblen) == done && !NeedsQuotes("", entails, marks, mblen)
  {
  }

  lemma QuoteStep(done: string, s: string, entails: set<char>, marks: Marks, mblen: Mblen)
    requires s != ""
    ensures var m := CharLen(mblen, s);
            && done + Doubled(s, marks, mblen) ==
               done + ((if marks.Is(s[0]) then [s[0]] else "") + s[..m]) + Doubled(s[m..], marks, mblen)
            && NeedsQuotes(s, entails, marks, mblen) ==
               (marks.Is(s[0]) || s[0] in entails || NeedsQuotes(s[m..], entails, marks, mblen))
  {
  }
}
