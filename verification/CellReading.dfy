/**
  What the lines of a formatted cell say: a reader that undoes the escapes of
  pg_wcsformat (tools/pg_psql/mbprint.cpp), and when it gets the text back.
 */
module CellReading {
  import opened Basics
  import opened Encoding
  import opened CellText

  /** Widths and codes belong to characters, whatever follows, and printable ASCII is one column wide. */
  ghost predicate Sane(cs: Charset) {
    && Extends(cs.mblen)
    && (forall t, u :: t != "" && cs.mblen(t) <= |t| ==>
          var t' := t[..cs.mblen(t)] + u; cs.dsplen(t') == cs.dsplen(t) && cs.code(t') == cs.code(t))
    && (forall t :: t != "" && ' ' <= t[0] <= '~' ==> cs.dsplen(t) == 1)
  }

  /** Single bytes with the widths of pg_ascii_dsplen. */
  function SingleBytes(): (cs: Charset) {
    Charset((t: string) => 1,
            (t: string) => (if t == "" || t[0] == '\0' then 0 else if t[0] < ' ' || t[0] as int == 0x7f then -1 else 1),
            (t: string) => 0, false)
  }

  lemma SingleBytesAreSane()
    ensures Sane(SingleBytes())
  {
    var cs := SingleBytes();
    forall t, u | t != "" && cs.mblen(t) <= |t|
      ensures var t' := t[..cs.mblen(t)] + u; cs.dsplen(t') == cs.dsplen(t) && cs.code(t') == cs.code(t)
    {
      assert (t[..1] + u)[0] == t[0];
    }
  }

  // ---------------------------------------------------------------------
  // Text without control characters

  /** Complete characters, each with a width of its own. */
  predicate Printable(cs: Charset, s: string)
    decreases |s|
  {
    s != "" ==>
      && Complete(cs, s) && s[0] !in {'\n', '\r', '\t'} && cs.dsplen(s) >= 0
      && Printable(cs, s[CharLen(cs.mblen, s)..])
  }

  function WidthOf(cs: Charset, s: string): (w: int)
    decreases |s|
  {
    if s == "" then 0 else cs.dsplen(s) + WidthOf(cs, s[CharLen(cs.mblen, s)..])
  }

  lemma {:induction false} PrintableLines(cs: Charset, s: string, begun: Line)
    requires Printable(cs, s)
    ensures WidthOf(cs, s) >= 0 && Lines(cs, s, begun) == [Line(begun.text + s, begun.width + WidthOf(cs, s))]
    decreases |s|
  {
    if s == "" {
      Units(begun.text);
    } else {
      var m := CharLen(cs.mblen, s);
      PrintableLines(cs, s[m..], Grown(cs, s, begun));
      assert s[..m] + s[m..] == s;
      Assoc(begun.text, s[..m], s[m..]);
    }
  }

  /** Such a text is one line, as it is and as wide as its characters together. */
  lemma PrintableCell(cs: Charset, s: string)
    requires Printable(cs, s)
    ensures WidthOf(cs, s) >= 0 && Cell(cs, s) == [Line(s, WidthOf(cs, s))]
  {
    hide Lines, WidthOf, Printable;
    PrintableLines(cs, s, Line("", 0));
    Units(s);
  }

  // ---------------------------------------------------------------------
  // Hexadecimal numbers

  predicate IsHex(c: char) { '0' <= c <= '9' || 'A' <= c <= 'F' }

  predicate AllHex(t: string) { forall i :: 0 <= i < |t| ==> IsHex(t[i]) }

  function HexValue(t: string): (v: nat)
    requires AllHex(t)
  {
    if t == "" then 0
    else
      var n := |t| - 1;
      var c := t[n] as int;
      16 * HexValue(t[..n]) + if t[n] <= '9' then c - '0' as int else c - 'A' as int + 10
  }

  lemma DigitReads(d: nat)
    requires d < 16
    ensures AllHex([DIGITS[d]]) && HexValue([DIGITS[d]]) == d
  {
    var t := [DIGITS[d]];
    assert t[..0] == "" && IsHex(t[0]);
    assert HexValue("") == 0;
  }

  lemma HexSnoc(t: string, d: nat)
    requires AllHex(t) && d < 16
    ensures AllHex(t + [DIGITS[d]]) && HexValue(t + [DIGITS[d]]) == 16 * HexValue(t) + d
  {
    DigitReads(d);
    var u := t + [DIGITS[d]];
    assert u[..|t|] == t;
    assert [DIGITS[d]][..0] == "" && HexValue("") == 0;
  }

  /** What is printed in hexadecimal reads back. */
  lemma {:induction false} HexReads(v: nat, n: nat)
    ensures AllHex(Hex(v, n)) && HexValue(Hex(v, n)) == v
    decreases v, n
  {
    hide HexValue, AllHex;
    if v < 16 && n <= 1 {
      DigitReads(v);
    } else if v < 16 {
      HexReads(0, n - 1);
      HexSnoc(Hex(0, n - 1), v);
    } else {
      var k := if n == 0 then 0 else n - 1;
      HexReads(v / 16, k);
      HexSnoc(Hex(v / 16, k), v % 16);
    }
  }

  lemma {:induction false} HexBound(t: string)
    requires AllHex(t)
    ensures HexValue(t) < Pow16(|t|)
  {
    if t != "" { HexBound(t[..|t| - 1]); }
  }

  // ---------------------------------------------------------------------
  // The reader

  datatype Glyph = Char(text: string) | Control(byte: nat) | Code(code: nat) | Newline

  /** What is behind a backslash makes an escape of it. */
  predicate Form(t: string) {
    t != "" &&
    if t[0] == 'r' then true
    else if t[0] == 'x' then |t| >= 3 && AllHex(t[1..3])
    else t[0] == 'u' && |t| >= 5 && AllHex(t[1..5])
  }

  /** The escape that t makes of a backslash, and the length of t that belongs to it. */
  function Escaped(t: string): (r: (Glyph, nat))
    requires Form(t)
    ensures r.1 <= |t| && !r.0.Newline? && !r.0.Char?
  {
    if t[0] == 'r' then (Control(13), 1)
    else if t[0] == 'x' then (Control(HexValue(t[1..3])), 3)
    else (Code(HexValue(t[1..5])), 5)
  }

  function ReadLine(cs: Charset, t: string): (gs: seq<Glyph>)
    decreases |t|
  {
    if t == "" then []
    else if t[0] == '\\' && Form(t[1..]) then
      var (g, n) := Escaped(t[1..]);
      [g] + ReadLine(cs, t[1 + n..])
    else
      var m := CharLen(cs.mblen, t);
      [Char(t[..m])] + ReadLine(cs, t[m..])
  }

  function ReadCell(cs: Charset, lines: seq<Line>): (gs: seq<Glyph>)
    requires lines != []
  {
    ReadLine(cs, lines[0].text) + if |lines| == 1 then [] else [Newline] + ReadCell(cs, lines[1..])
  }

  // ---------------------------------------------------------------------
  // What there is to read

  function Blanks(k: nat): (gs: seq<Glyph>)
    ensures |gs| == k
  {
    if k == 0 then [] else [Char(" ")] + Blanks(k - 1)
  }

  /** The character in front, on a line that is `width` wide so far: a tab is the blanks up to the next stop. */
  function Said(cs: Charset, s: string, width: nat): (gs: seq<Glyph>)
    requires s != ""
  {
    var m, w := CharLen(cs.mblen, s), cs.dsplen(s);
    if m == 1 && s[0] == '\n' then [Newline]
    else if m == 1 && s[0] == '\r' then [Control(13)]
    else if m == 1 && s[0] == '\t' then Blanks(8 - width % 8)
    else if w >= 0 then [Char(s[..m])]
    else if m == 1 then [Control(s[0] as int % 256)]
    else [Code(cs.code(s))]
  }

  function GlyphWidth(cs: Charset, g: Glyph): (w: nat) {
    match g
    case Char(t) => if cs.dsplen(t) < 0 then 0 else cs.dsplen(t)
    case Control(b) => if b == 13 then 2 else 4
    case Code(_) => 6
    case Newline => 0
  }

  function GlyphsWidth(cs: Charset, gs: seq<Glyph>): (w: nat) {
    if gs == [] then 0 else GlyphWidth(cs, gs[0]) + GlyphsWidth(cs, gs[1..])
  }

  /** The text up to the end of its first line. */
  function SaidLine(cs: Charset, s: string, width: nat): (gs: seq<Glyph>)
    decreases |s|
  {
    if !Complete(cs, s) || (CharLen(cs.mblen, s) == 1 && s[0] == '\n') then []
    else
      var here := Said(cs, s, width);
      here + SaidLine(cs, s[CharLen(cs.mblen, s)..], width + GlyphsWidth(cs, here))
  }

  /** The whole text, up to a NUL or a character that is cut off. */
  function SaidText(cs: Charset, s: string, width: nat): (gs: seq<Glyph>)
    decreases |s|
  {
    if !Complete(cs, s) then []
    else
      var here, rest := Said(cs, s, width), s[CharLen(cs.mblen, s)..];
      here + SaidText(cs, rest, if here == [Newline] then 0 else width + GlyphsWidth(cs, here))
  }

  /**
    No character is lost in its escape, and no backslash of the text looks like
    one: a control character of several bytes has a code of four digits, and what
    follows a backslash does not make an escape of it.
   */
  predicate Legible(cs: Charset, s: string)
    decreases |s|
  {
    Complete(cs, s) ==>
      && (CharLen(cs.mblen, s) > 1 && cs.dsplen(s) < 0 ==> cs.utf8 && cs.code(s) <= 0xFFFF)
      && (s[0] == '\\' ==> !Form(s[1..]))
      && Legible(cs, s[CharLen(cs.mblen, s)..])
  }

  /** The text is made of bytes. */
  predicate OfBytes(s: string) { forall i :: 0 <= i < |s| ==> s[i] as int < 256 }

  // ---------------------------------------------------------------------
  // One character

  /** The escape for the character in front is whole, and more does not turn it into one. */
  predicate Clear(cs: Charset, s: string, more: string)
    requires s != ""
  {
    && (CharLen(cs.mblen, s) > 1 && cs.dsplen(s) < 0 ==> cs.utf8 && cs.code(s) <= 0xFFFF)
    && (s[0] == '\\' ==> !Form(more))
  }

  lemma EscapeRead(cs: Charset, form: string, more: string)
    requires Form(form) && Escaped(form).1 == |form|
    ensures ReadLine(cs, "\\" + form + more) == [Escaped(form).0] + ReadLine(cs, more)
    ensures Form(form + more)
  {
    hide HexValue;
    var t := "\\" + form + more;
    assert t[1..] == form + more && t[1 + |form|..] == more;
    assert (form + more)[0] == form[0];
    assert form[0] == 'x' ==> (form + more)[1..3] == form[1..3];
    assert form[0] == 'u' ==> (form + more)[1..5] == form[1..5];
  }

  lemma PlainRead(cs: Charset, s: string, m: nat, more: string)
    requires Sane(cs) && s != "" && cs.mblen(s) <= |s| && m == CharLen(cs.mblen, s)
    requires s[0] == '\\' ==> !Form(more)
    ensures ReadLine(cs, s[..m] + more) == [Char(s[..m])] + ReadLine(cs, more)
  {
    hide CharLen, Form;
    CharThere(cs.mblen, s, more);
    var t := s[..m] + more;
    Behind(s[..m], more);
    assert t[0] == s[0];
    if s[0] == '\\' {
      AsciiChar(cs.mblen, s);
      assert t[1..] == more;
    }
  }

  lemma {:induction false} BlanksRead(cs: Charset, k: nat, more: string)
    requires Sane(cs)
    ensures ReadLine(cs, Spaces(k) + more) == Blanks(k) + ReadLine(cs, more)
  {
    hide ReadLine, Sane, Spaces;
    if k == 0 {
      NoSpaces(more);
      Units(ReadLine(cs, more));
    } else {
      BlanksRead(cs, k - 1, more);
      BlankRead(cs, Spaces(k - 1) + more);
      MoreSpaces(k);
      Assoc(" ", Spaces(k - 1), more);
      Assoc([Char(" ")], Blanks(k - 1), ReadLine(cs, more));
    }
  }

  lemma NoSpaces(more: string)
    ensures Spaces(0) + more == more
  {
  }

  lemma MoreSpaces(k: nat)
    requires k > 0
    ensures Spaces(k) == " " + Spaces(k - 1)
  {
  }

  lemma BlankRead(cs: Charset, more: string)
    requires Sane(cs)
    ensures ReadLine(cs, " " + more) == [Char(" ")] + ReadLine(cs, more)
  {
    AsciiChar(cs.mblen, " " + more);
    Behind(" ", more);
  }

  lemma ByteForm(b: nat)
    requires b < 256
    ensures var form := "x" + Hex(b, 2);
            Form(form) && Escaped(form) == (Control(b), |form|)
  {
    hide HexValue, AllHex;
    HexLen(b);
    HexReads(b, 2);
    assert ("x" + Hex(b, 2))[1..3] == Hex(b, 2);
  }

  lemma CodeForm(code: nat)
    ensures var form := "u" + Hex(code, 4)[..4];
            Form(form) && Escaped(form).1 == |form| && (Escaped(form).0 == Code(code) <==> code <= 0xFFFF)
  {
    hide HexValue, Hex;
    HexLen(code);
    HexReads(code, 4);
    var digits := Hex(code, 4)[..4];
    assert ("u" + digits)[1..5] == digits;
    HexBound(digits);
    assert Pow16(4) == 0x10000 by { assert Pow16(2) == 256; }
    if code <= 0xFFFF { assert digits == Hex(code, 4); }
  }

  lemma CutEscape(cs: Charset, s: string)
    ensures Escape(cs, s)[..6] == "\\" + if cs.utf8 then "u" + Hex(cs.code(s), 4)[..4] else "u????"
  {
    hide Hex;
    if cs.utf8 {
      var h := Hex(cs.code(s), 4);
      assert ("\\u" + h)[..6] == "\\" + ("u" + h[..4]);
    }
  }

  /** The character in front reads back, if it is clear. */
  lemma ClearReads(cs: Charset, s: string, width: nat, more: string)
    requires Sane(cs) && Complete(cs, s) && !IsNewline(cs, s) && s[0] as int < 256 && Clear(cs, s, more)
    ensures ReadLine(cs, Shown(cs, s, width).text + more) == Said(cs, s, width) + ReadLine(cs, more)
  {
    hide ReadLine, Form, Escaped, Hex, CharLen, Escape;
    var m, w := CharLen(cs.mblen, s), cs.dsplen(s);
    if m == 1 && s[0] == '\r' {
      RForm();
      EscapeRead(cs, "r", more);
      assert "\\r" == "\\" + "r";
    } else if m == 1 && s[0] == '\t' {
      BlanksRead(cs, 8 - width % 8, more);
    } else if w >= 0 {
      PlainRead(cs, s, m, more);
    } else if m == 1 {
      ByteForm(s[0] as int % 256);
      EscapeRead(cs, "x" + Hex(s[0] as int % 256, 2), more);
      assert "\\x" + Hex(s[0] as int % 256, 2) == "\\" + ("x" + Hex(s[0] as int % 256, 2));
    } else {
      CodeForm(cs.code(s));
      CutEscape(cs, s);
      EscapeRead(cs, "u" + Hex(cs.code(s), 4)[..4], more);
    }
  }

  lemma RForm()
    ensures Form("r") && Escaped("r") == (Control(13), 1)
  {
  }

  lemma NoForm(more: string)
    ensures !Form("u????" + more)
  {
    var t := "u????" + more;
    assert t[1..5][0] == '?';
  }

  /** One that is not clear reads as something else. */
  lemma UnclearReads(cs: Charset, s: string, width: nat, more: string)
    requires Sane(cs) && Complete(cs, s) && !Clear(cs, s, more)
    ensures var read, said := ReadLine(cs, Shown(cs, s, width).text + more), Said(cs, s, width);
            read != [] && said != [] && read[0] != said[0]
  {
    hide Hex, CharLen, HexValue, Escape;
    var m := CharLen(cs.mblen, s);
    var t := Shown(cs, s, width).text + more;
    if s[0] == '\\' {
      AsciiChar(cs.mblen, s);
      assert t[1..] == more;
    } else {
      CutEscape(cs, s);
      if cs.utf8 {
        CodeForm(cs.code(s));
        EscapeRead(cs, "u" + Hex(cs.code(s), 4)[..4], more);
      } else {
        assert t[1..] == "u????" + more;
        NoForm(more);
      }
    }
  }

  // ---------------------------------------------------------------------
  // Widths

  /** What a character adds to the width of its line is what it says. */
  lemma ShownWidth(cs: Charset, s: string, width: nat)
    requires Sane(cs) && Complete(cs, s) && !IsNewline(cs, s) && s[0] as int < 256
    ensures Shown(cs, s, width).width == GlyphsWidth(cs, Said(cs, s, width))
  {
    hide Hex, Escape;
    var m := CharLen(cs.mblen, s);
    if m == 1 && s[0] == '\t' {
      BlanksWidth(cs, 8 - width % 8);
    } else {
      var g := Said(cs, s, width);
      assert g[1..] == [] && GlyphsWidth(cs, g) == GlyphWidth(cs, g[0]);
      Units(s[..m]);
    }
  }

  lemma {:induction false} BlanksWidth(cs: Charset, k: nat)
    requires Sane(cs)
    ensures GlyphsWidth(cs, Blanks(k)) == k
  {
    if k > 0 {
      BlanksWidth(cs, k - 1);
      assert Blanks(k)[1..] == Blanks(k - 1);
    }
  }

  // ---------------------------------------------------------------------
  // The first line of a text

  /** How the first line of s is shown, behind `width` columns. */
  function Head(cs: Charset, s: string, width: nat): (l: Line)
    decreases |s|
  {
    if !Complete(cs, s) || IsNewline(cs, s) then Line("", 0)
    else
      var here := Shown(cs, s, width);
      var more := Head(cs, s[CharLen(cs.mblen, s)..], width + here.width);
      Line(here.text + more.text, here.width + more.width)
  }

  /** What follows behind the first newline. */
  function NextLine(cs: Charset, s: string): (r: Option<string>)
    ensures r.Some? ==> |r.value| < |s|
    decreases |s|
  {
    if !Complete(cs, s) then None
    else
      var rest := s[CharLen(cs.mblen, s)..];
      if IsNewline(cs, s) then Some(rest) else NextLine(cs, rest)
  }

  lemma {:induction false} LinesFirst(cs: Charset, s: string, begun: Line)
    ensures var head := Head(cs, s, begun.width);
            Lines(cs, s, begun) ==
            [Line(begun.text + head.text, begun.width + head.width)] +
            match NextLine(cs, s) case None => [] case Some(rest) => Cell(cs, rest)
    decreases |s|
  {
    hide CharLen, Shown;
    if Complete(cs, s) && !IsNewline(cs, s) {
      var rest, here := s[CharLen(cs.mblen, s)..], Shown(cs, s, begun.width);
      LinesFirst(cs, rest, Grown(cs, s, begun));
      Assoc(begun.text, here.text, Head(cs, rest, begun.width + here.width).text);
    } else {
      Units(begun.text);
    }
  }

  /** How the first line goes on behind its first character. */
  lemma HeadStep(cs: Charset, s: string, width: nat)
    ensures !Complete(cs, s) || IsNewline(cs, s) ==> Head(cs, s, width) == Line("", 0) && SaidLine(cs, s, width) == []
    ensures Complete(cs, s) && !IsNewline(cs, s) ==>
              var rest, here, said := s[CharLen(cs.mblen, s)..], Shown(cs, s, width), Said(cs, s, width);
              var more := Head(cs, rest, width + here.width);
              && Head(cs, s, width) == Line(here.text + more.text, here.width + more.width)
              && SaidLine(cs, s, width) == said + SaidLine(cs, rest, width + GlyphsWidth(cs, said))
  {
    hide Shown, Said, GlyphsWidth;
  }

  /** Each line is as wide as what it says. */
  lemma {:induction false} HeadWidth(cs: Charset, s: string, width: nat)
    requires Sane(cs) && OfBytes(s)
    ensures Head(cs, s, width).width == GlyphsWidth(cs, SaidLine(cs, s, width))
    decreases |s|
  {
    hide Said, Shown, Sane, Head, SaidLine, IsNewline, CharLen;
    HeadStep(cs, s, width);
    if Complete(cs, s) && !IsNewline(cs, s) {
      hide GlyphsWidth;
      var here, rest := Said(cs, s, width), s[CharLen(cs.mblen, s)..];
      ShownWidth(cs, s, width);
      HeadWidth(cs, rest, width + GlyphsWidth(cs, here));
      WidthConcat(cs, here, SaidLine(cs, rest, width + GlyphsWidth(cs, here)));
    }
  }

  lemma {:induction false} WidthConcat(cs: Charset, a: seq<Glyph>, b: seq<Glyph>)
    ensures GlyphsWidth(cs, a + b) == GlyphsWidth(cs, a) + GlyphsWidth(cs, b)
  {
    if a == [] {
      Units(b);
    } else {
      WidthConcat(cs, a[1..], b);
      assert (a + b)[1..] == a[1..] + b;
    }
  }

  // ---------------------------------------------------------------------
  // What follows a backslash

  /** The bytes that escapes are made of, apart from the backslash. */
  predicate FormChar(c: char) { c == 'r' || c == 'x' || c == 'u' || IsHex(c) }

  predicate FormFront(t: string, k: nat) { k <= |t| && forall i :: 0 <= i < k ==> FormChar(t[i]) }

  /** The same bytes of escapes stand in front of both. */
  predicate SameFront(s: string, t: string, k: nat) {
    (FormFront(s, k) <==> FormFront(t, k)) && (FormFront(s, k) ==> s[..k] == t[..k])
  }

  lemma FrontCons(c: char, s: string, t: string, k: nat)
    requires FormChar(c) && SameFront(s, t, k)
    ensures SameFront([c] + s, [c] + t, k + 1)
  {
    hide FormChar;
    FrontMore(c, s, k);
    FrontMore(c, t, k);
  }

  lemma FrontMore(c: char, t: string, k: nat)
    requires FormChar(c)
    ensures FormFront([c] + t, k + 1) <==> FormFront(t, k)
    ensures FormFront(t, k) ==> ([c] + t)[..k + 1] == [c] + t[..k]
  {
    hide FormChar;
    var u := [c] + t;
    if FormFront(u, k + 1) {
      forall i | 0 <= i < k ensures FormChar(t[i]) { assert t[i] == u[i + 1]; }
    }
  }

  lemma NoFront(t: string, k: nat)
    requires k > 0 && (t == "" || !FormChar(t[0]))
    ensures !FormFront(t, k)
  {
  }

  /** Where such bytes stand in front of a text, the same ones stand in front of what is shown of it. */
  lemma {:induction false} FrontShown(cs: Charset, s: string, width: nat, k: nat)
    requires Sane(cs)
    ensures SameFront(s, Head(cs, s, width).text, k)
    decreases k
  {
    hide Sane, Head, Shown, SameFront, FormChar, FormFront;
    var t := Head(cs, s, width).text;
    if k == 0 {
      NoneFront(s, t);
    } else {
      FirstShown(cs, s, width);
      if s != "" && FormChar(s[0]) {
        var width' := width + Shown(cs, s, width).width;
        FrontShown(cs, s[1..], width', k - 1);
        FrontCons(s[0], s[1..], Head(cs, s[1..], width').text, k - 1);
        assert s == [s[0]] + s[1..] && s[..1] == [s[0]];
      } else {
        NeitherFront(s, t, k);
      }
    }
  }

  lemma NoneFront(s: string, t: string)
    ensures SameFront(s, t, 0)
  {
  }

  lemma NeitherFront(s: string, t: string, k: nat)
    requires k > 0 && (s == "" || !FormChar(s[0])) && (t == "" || !FormChar(t[0]))
    ensures SameFront(s, t, k)
  {
    NoFront(s, k);
    NoFront(t, k);
  }

  lemma FirstShown(cs: Charset, s: string, width: nat)
    requires Sane(cs)
    ensures var t := Head(cs, s, width).text;
            if s != "" && FormChar(s[0]) then
              var here := Shown(cs, s, width);
              t == s[..1] + Head(cs, s[1..], width + here.width).text
            else t == "" || !FormChar(t[0])
  {
    hide Hex, Escape;
    if s != "" && Ascii(s[0]) { AsciiChar(cs.mblen, s); }
    if s != "" && Complete(cs, s) && !IsNewline(cs, s) && !FormChar(s[0]) {
      ShownStarts(cs, s, width);
    }
  }

  lemma ShownStarts(cs: Charset, s: string, width: nat)
    requires Complete(cs, s) && !FormChar(s[0])
    ensures var t := Shown(cs, s, width).text; t != "" && !FormChar(t[0])
  {
    hide Hex;
    CutEscape(cs, s);
  }

  /** So a backslash looks like an escape exactly if it does in the text itself. */
  lemma FormShown(cs: Charset, s: string, width: nat)
    requires Sane(cs)
    ensures Form(s) <==> Form(Head(cs, s, width).text)
  {
    hide Head, Sane;
    var t := Head(cs, s, width).text;
    FrontShown(cs, s, width, 1);
    FrontShown(cs, s, width, 3);
    FrontShown(cs, s, width, 5);
    FormByFront(s);
    FormByFront(t);
    if FormFront(s, 1) { assert s[..1][0] == s[0] && t[..1][0] == t[0]; }
    if FormFront(s, 3) { assert s[..3][1..3] == s[1..3] && t[..3][1..3] == t[1..3]; }
    if FormFront(s, 5) { assert s[..5][1..5] == s[1..5] && t[..5][1..5] == t[1..5]; }
  }

  lemma FormByFront(t: string)
    ensures Form(t) <==> (
              && FormFront(t, 1)
              && (t[0] == 'r' || (t[0] == 'x' && FormFront(t, 3) && AllHex(t[1..3])) ||
                  (t[0] == 'u' && FormFront(t, 5) && AllHex(t[1..5]))))
  {
    if Form(t) && t[0] == 'x' {
      assert t[1] == t[1..3][0] && t[2] == t[1..3][1];
    } else if Form(t) && t[0] == 'u' {
      assert t[1] == t[1..5][0] && t[2] == t[1..5][1] && t[3] == t[1..5][2] && t[4] == t[1..5][3];
    }
  }

  // ---------------------------------------------------------------------
  // One line

  predicate LegibleLine(cs: Charset, s: string)
    decreases |s|
  {
    Complete(cs, s) && !IsNewline(cs, s) ==>
      Clear(cs, s, s[1..]) && LegibleLine(cs, s[CharLen(cs.mblen, s)..])
  }

  lemma ClearShown(cs: Charset, s: string, width: nat)
    requires Sane(cs) && s != ""
    ensures Clear(cs, s, s[1..]) <==> Clear(cs, s, Head(cs, s[CharLen(cs.mblen, s)..], width).text)
  {
    hide Form, Head;
    if s[0] == '\\' {
      AsciiChar(cs.mblen, s);
      FormShown(cs, s[1..], width);
    }
  }

  lemma Cancel<T>(a: seq<T>, b: seq<T>, c: seq<T>)
    ensures a + b == a + c <==> b == c
  {
    Behind(a, b);
    Behind(a, c);
  }

  lemma FirstDiffers<T>(a: seq<T>, b: seq<T>, more: seq<T>)
    requires a != [] && b != [] && a[0] != b[0]
    ensures a != b + more
  {
    assert (b + more)[0] == b[0];
  }

  lemma {:induction false} LineReads(cs: Charset, s: string, width: nat)
    requires Sane(cs) && OfBytes(s)
    ensures ReadLine(cs, Head(cs, s, width).text) == SaidLine(cs, s, width) <==> LegibleLine(cs, s)
    decreases |s|
  {
    hide Said, Shown, Sane, Head, SaidLine, ReadLine, GlyphsWidth, Clear, CharLen;
    HeadStep(cs, s, width);
    if Complete(cs, s) && !IsNewline(cs, s) {
      var here, said, rest := Shown(cs, s, width), Said(cs, s, width), s[CharLen(cs.mblen, s)..];
      var width' := width + here.width;
      var more := Head(cs, rest, width').text;
      ShownWidth(cs, s, width);
      ClearShown(cs, s, width');
      if Clear(cs, s, more) {
        ClearReads(cs, s, width, more);
        LineReads(cs, rest, width');
        Cancel(said, ReadLine(cs, more), SaidLine(cs, rest, width'));
      } else {
        UnclearReads(cs, s, width, more);
        FirstDiffers(ReadLine(cs, here.text + more), said, SaidLine(cs, rest, width'));
      }
    } else {
      ReadNothing(cs);
    }
  }

  lemma ReadNothing(cs: Charset)
    ensures ReadLine(cs, "") == []
  {
  }

  // ---------------------------------------------------------------------
  // The whole cell

  predicate OnOneLine(gs: seq<Glyph>) { forall i :: 0 <= i < |gs| ==> !gs[i].Newline? }

  lemma {:induction false} ReadOnOneLine(cs: Charset, t: string)
    ensures OnOneLine(ReadLine(cs, t))
    decreases |t|
  {
    hide CharLen, Form, HexValue;
    if t != "" {
      if t[0] == '\\' && Form(t[1..]) {
        ReadOnOneLine(cs, t[1 + Escaped(t[1..]).1..]);
      } else {
        ReadOnOneLine(cs, t[CharLen(cs.mblen, t)..]);
      }
    }
  }

  lemma {:induction false} BlanksOnOneLine(k: nat)
    ensures OnOneLine(Blanks(k))
  {
    if k > 0 { BlanksOnOneLine(k - 1); }
  }

  lemma SaidOne(cs: Charset, s: string, width: nat)
    requires s != ""
    ensures if IsNewline(cs, s) then Said(cs, s, width) == [Newline]
            else OnOneLine(Said(cs, s, width)) && Said(cs, s, width) != [Newline]
  {
    hide CharLen;
    BlanksOnOneLine(8 - width % 8);
    if Said(cs, s, width) != [] { assert !IsNewline(cs, s) ==> !Said(cs, s, width)[0].Newline?; }
  }

  lemma {:induction false} SaidOnOneLine(cs: Charset, s: string, width: nat)
    ensures OnOneLine(SaidLine(cs, s, width))
    decreases |s|
  {
    hide Said, CharLen, GlyphsWidth;
    if Complete(cs, s) && !IsNewline(cs, s) {
      SaidOne(cs, s, width);
      SaidOnOneLine(cs, s[CharLen(cs.mblen, s)..], width + GlyphsWidth(cs, Said(cs, s, width)));
    }
  }

  /** The text is its first line and what follows. */
  lemma {:induction false} SaidSplit(cs: Charset, s: string, width: nat)
    ensures SaidText(cs, s, width) == SaidLine(cs, s, width) +
            match NextLine(cs, s) case None => [] case Some(rest) => [Newline] + SaidText(cs, rest, 0)
    decreases |s|
  {
    hide Said, CharLen, GlyphsWidth;
    if Complete(cs, s) {
      var said, rest := Said(cs, s, width), s[CharLen(cs.mblen, s)..];
      SaidOne(cs, s, width);
      if !IsNewline(cs, s) {
        var width' := width + GlyphsWidth(cs, said);
        SaidSplit(cs, rest, width');
        var more := match NextLine(cs, rest) case None => [] case Some(r) => [Newline] + SaidText(cs, r, 0);
        Assoc(said, SaidLine(cs, rest, width'), more);
      }
    }
  }

  lemma {:induction false} LegibleSplit(cs: Charset, s: string)
    ensures Legible(cs, s) <==> LegibleLine(cs, s) && (NextLine(cs, s).Some? ==> Legible(cs, NextLine(cs, s).value))
    decreases |s|
  {
    hide CharLen, Form;
    if Complete(cs, s) {
      LegibleSplit(cs, s[CharLen(cs.mblen, s)..]);
    }
  }

  lemma CutAtNewline(a: seq<Glyph>, b: seq<Glyph>, a': seq<Glyph>, b': seq<Glyph>)
    requires OnOneLine(a) && OnOneLine(a')
    ensures a + ([Newline] + b) == a' + ([Newline] + b') <==> a == a' && b == b'
  {
    var t, t' := a + ([Newline] + b), a' + ([Newline] + b');
    if t == t' {
      assert t[|a|] == Newline && t'[|a'|] == Newline;
      assert t[..|a|] == a && t'[..|a'|] == a';
      assert t[|a| + 1..] == b && t'[|a'| + 1..] == b';
    }
  }

  lemma ReadTwo(cs: Charset, first: Line, more: seq<Line>)
    requires more != []
    ensures ReadCell(cs, [first] + more) == ReadLine(cs, first.text) + ([Newline] + ReadCell(cs, more))
  {
    assert ([first] + more)[1..] == more;
  }

  /** The lines of a cell say what its text says, if and only if the text is legible. */
  lemma {:induction false} CellReads(cs: Charset, s: string)
    requires Sane(cs) && OfBytes(s)
    ensures ReadCell(cs, Cell(cs, s)) == SaidText(cs, s, 0) <==> Legible(cs, s)
    decreases |s|
  {
    hide Sane, Head, SaidLine, ReadLine, Legible, LegibleLine, NextLine, Complete, Lines, SaidText;
    var head := Head(cs, s, 0);
    LinesFirst(cs, s, Line("", 0));
    Units(head.text);
    LineReads(cs, s, 0);
    SaidSplit(cs, s, 0);
    LegibleSplit(cs, s);
    match NextLine(cs, s)
    case None =>
      Units(ReadLine(cs, head.text));
      Units(SaidLine(cs, s, 0));
    case Some(rest) =>
      RestOfBytes(cs, s);
      CellReads(cs, rest);
      ReadTwo(cs, Line(head.text, head.width), Cell(cs, rest));
      ReadOnOneLine(cs, head.text);
      SaidOnOneLine(cs, s, 0);
      CutAtNewline(ReadLine(cs, head.text), ReadCell(cs, Cell(cs, rest)), SaidLine(cs, s, 0), SaidText(cs, rest, 0));
  }

  lemma {:induction false} RestOfBytes(cs: Charset, s: string)
    requires OfBytes(s) && NextLine(cs, s).Some?
    ensures OfBytes(NextLine(cs, s).value)
    decreases |s|
  {
    hide CharLen;
    if !IsNewline(cs, s) { RestOfBytes(cs, s[CharLen(cs.mblen, s)..]); }
  }

  /** A backslash with an r behind it and a carriage return are shown alike. */
  lemma LookAlike(cs: Charset)
    requires Sane(cs)
    ensures Cell(cs, "\\r") == Cell(cs, "\r") && !Legible(cs, "\\r") && Legible(cs, "\r")
  {
    var escape, cr := "\\r", "\r";
    AsciiChar(cs.mblen, escape);
    AsciiChar(cs.mblen, "r");
    AsciiChar(cs.mblen, cr);
    assert escape[1..] == "r" && "r"[1..] == "" && cr[1..] == "";
    assert Printable(cs, "r") && WidthOf(cs, "r") == 1 by { assert WidthOf(cs, "") == 0; }
    PrintableCell(cs, escape);
    Units(escape);
    var line := Grown(cs, cr, Line("", 0));
    assert line == Line(escape, 2) && Lines(cs, cr, Line("", 0)) == Lines(cs, cr[1..], line);
    assert Form("r");
  }

  /** The first line of a cell is as wide as what it says; the others are first lines of what follows. */
  lemma CellWidths(cs: Charset, s: string)
    requires Sane(cs) && OfBytes(s)
    ensures Cell(cs, s)[0].width == GlyphsWidth(cs, SaidLine(cs, s, 0))
    ensures Cell(cs, s)[1..] == match NextLine(cs, s) case None => [] case Some(rest) => Cell(cs, rest)
  {
    hide Sane, Head, SaidLine, Lines, GlyphsWidth;
    LinesFirst(cs, s, Line("", 0));
    HeadWidth(cs, s, 0);
  }
}
