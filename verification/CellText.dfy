/**
  pg_wcssize and pg_wcsformat of tools/pg_psql/mbprint.cpp: one pass measures a cell,
  the other writes it line by line into a buffer of the measured size.
 */
module CellText {
  import opened Basics
  import opened Buffers
  import opened Encoding

  /** What is asked of the client encoding: character lengths, display widths, code points. */
  datatype Charset = Charset(mblen: Mblen, dsplen: string -> int, code: string -> nat, utf8: bool)

  /** There is another character; a NUL ends the text, and so does a character that is cut off. */
  predicate Complete(cs: Charset, s: string) { s != "" && s[0] != '\0' && cs.mblen(s) <= |s| }

  // ---------------------------------------------------------------------
  // A cell as lines

  datatype Line = Line(text: string, width: nat)

  const DIGITS := "0123456789ABCDEF"

  /** At least n digits, as %02X and %04X print them. */
  function Hex(v: nat, n: nat): (r: string)
    ensures |r| >= n && r != ""
    decreases v, n
  {
    if v < 16 && n <= 1 then [DIGITS[v]]
    else if v < 16 then Hex(0, n - 1) + [DIGITS[v]]
    else Hex(v / 16, if n == 0 then 0 else n - 1) + [DIGITS[v % 16]]
  }

  /** How a character other than a newline is shown on a line that is `width` wide so far. */
  function Shown(cs: Charset, s: string, width: nat): (r: Line)
    requires s != ""
  {
    var m, w := CharLen(cs.mblen, s), cs.dsplen(s);
    if m == 1 then
      if s[0] == '\r' then Line("\\r", 2)
      else if s[0] == '\t' then Line(Spaces(8 - width % 8), 8 - width % 8)
      else if w < 0 then Line("\\x" + Hex(s[0] as int % 256, 2), 4)
      else Line(s[..1], w)
    else if w < 0 then Line(Escape(cs, s)[..6], 6)
    else Line(s[..m], w)
  }

  /** What sprintf writes for a control character of several bytes; the pointer is moved on by six. */
  function Escape(cs: Charset, s: string): (r: string)
    ensures |r| >= 6
  {
    if cs.utf8 then "\\u" + Hex(cs.code(s), 4) else "\\u????"
  }

  predicate IsNewline(cs: Charset, s: string)
    requires s != ""
  {
    CharLen(cs.mblen, s) == 1 && s[0] == '\n'
  }

  /** The lines of the cell s, the first of which has been begun; an incomplete last character is dropped. */
  function Lines(cs: Charset, s: string, begun: Line): (r: seq<Line>)
    ensures r != []
    decreases |s|
  {
    if !Complete(cs, s) then [begun]
    else
      var rest := s[CharLen(cs.mblen, s)..];
      if IsNewline(cs, s) then [begun] + Lines(cs, rest, Line("", 0))
      else Lines(cs, rest, Grown(cs, s, begun))
  }

  function Grown(cs: Charset, s: string, begun: Line): (r: Line)
    requires s != ""
  {
    var more := Shown(cs, s, begun.width);
    Line(begun.text + more.text, begun.width + more.width)
  }

  function Cell(cs: Charset, s: string): (r: seq<Line>)
    ensures r != []
  {
    Lines(cs, s, Line("", 0))
  }

  // ---------------------------------------------------------------------
  // The measures of a list of lines

  function Bytes(lines: seq<Line>): (n: nat) {
    if lines == [] then 0 else Bytes(lines[..|lines| - 1]) + |lines[|lines| - 1].text| + 1
  }

  function Widest(lines: seq<Line>): (w: nat) {
    if lines == [] then 0
    else
      var n := |lines| - 1;
      var w := Widest(lines[..n]);
      if lines[n].width > w then lines[n].width else w
  }

  lemma {:induction false} WidestIs(lines: seq<Line>)
    ensures forall i :: 0 <= i < |lines| ==> lines[i].width <= Widest(lines)
    ensures lines != [] ==> exists i :: 0 <= i < |lines| && lines[i].width == Widest(lines)
  {
    if lines != [] {
      var n := |lines| - 1;
      WidestIs(lines[..n]);
      assert forall i :: 0 <= i < n ==> lines[i] == lines[..n][i];
      if n > 0 && lines[n].width <= Widest(lines[..n]) {
        var i :| 0 <= i < n && lines[..n][i].width == Widest(lines[..n]);
        assert lines[i].width == Widest(lines);
      } else {
        assert lines[n].width == Widest(lines);
      }
    }
  }

  /** The lines as they stand in memory, each with its NUL. */
  function Layout(lines: seq<Line>): (r: string)
    ensures |r| == Bytes(lines)
  {
    if lines == [] then "" else Layout(lines[..|lines| - 1]) + lines[|lines| - 1].text + ['\0']
  }

  lemma LinesSnoc(lines: seq<Line>, l: Line)
    ensures Bytes(lines + [l]) == Bytes(lines) + |l.text| + 1
    ensures Layout(lines + [l]) == Layout(lines) + l.text + ['\0']
    ensures Widest(lines + [l]) == if l.width > Widest(lines) then l.width else Widest(lines)
  {
  }

  lemma {:induction false} BytesConcat(a: seq<Line>, b: seq<Line>)
    ensures Bytes(a + b) == Bytes(a) + Bytes(b)
  {
    if b == [] {
      Units(a);
    } else {
      BytesConcat(a, b[..|b| - 1]);
      assert (a + b)[..|a + b| - 1] == a + b[..|b| - 1];
    }
  }

  // ---------------------------------------------------------------------
  // What is counted

  lemma HexLen(v: nat)
    ensures v < 0x100 ==> |Hex(v, 2)| == 2
    ensures |Hex(v, 4)| == 4 <==> v <= 0xFFFF
  {
    HexSize(v, 2);
    HexSize(v, 4);
  }

  function Pow16(n: nat): (r: nat)
    ensures r > 0
  {
    if n == 0 then 1 else 16 * Pow16(n - 1)
  }

  lemma {:induction false} HexSize(v: nat, n: nat)
    requires n >= 1
    ensures |Hex(v, n)| == n <==> v < Pow16(n)
    decreases v, n
  {
    if v < 16 && n > 1 {
      HexSize(0, n - 1);
    } else if v >= 16 && n > 1 {
      HexSize(v / 16, n - 1);
    }
  }

  /** The number of bytes each kind of character takes up. */
  function Size(cs: Charset, t: string, width: nat): (n: nat)
    requires t != ""
  {
    var m, w := CharLen(cs.mblen, t), cs.dsplen(t);
    if m == 1 then
      (if t[0] == '\r' then 2 else if t[0] == '\t' then 8 - width % 8 else if w < 0 then 4 else 1)
    else if w < 0 then 6 else m
  }

  /** What is left for a character is what is counted for it. */
  lemma ShownSize(cs: Charset, t: string, width: nat)
    requires t != ""
    ensures |Shown(cs, t, width).text| == Size(cs, t, width)
  {
    HexLen(t[0] as int % 256);
  }

  /** The bytes counted for the text s, behind a line that is `width` wide so far. */
  function Counted(cs: Charset, s: string, width: nat): (n: nat)
    decreases |s|
  {
    if !Complete(cs, s) then 1
    else
      var rest := s[CharLen(cs.mblen, s)..];
      if IsNewline(cs, s) then 1 + Counted(cs, rest, 0)
      else Size(cs, s, width) + Counted(cs, rest, width + Shown(cs, s, width).width)
  }

  lemma {:induction false} CountedLines(cs: Charset, s: string, begun: Line)
    ensures Bytes(Lines(cs, s, begun)) == |begun.text| + Counted(cs, s, begun.width)
    decreases |s|
  {
    hide CharLen, Shown, Size, Bytes;
    BytesOne(begun);
    if Complete(cs, s) {
      var rest := s[CharLen(cs.mblen, s)..];
      if IsNewline(cs, s) {
        CountedLines(cs, rest, Line("", 0));
        BytesConcat([begun], Lines(cs, rest, Line("", 0)));
      } else {
        CountedLines(cs, rest, Grown(cs, s, begun));
        ShownSize(cs, s, begun.width);
      }
    }
  }

  lemma BytesOne(l: Line)
    ensures Bytes([l]) == |l.text| + 1
  {
    assert [l][..0] == [];
  }

  /** The counted size is always the size of the lines. */
  lemma CountedIsExact(cs: Charset, s: string)
    ensures Counted(cs, s, 0) == Bytes(Cell(cs, s))
  {
    CountedLines(cs, s, Line("", 0));
  }

  // ---------------------------------------------------------------------
  // What is touched

  function Max(a: nat, b: nat): nat { if a > b then a else b }

  /** A control character of several bytes, written as a number. */
  predicate Numbered(cs: Charset, t: string)
    requires t != ""
  {
    cs.utf8 && CharLen(cs.mblen, t) > 1 && cs.dsplen(t) < 0
  }

  /** How many bytes the writes for a character touch; strcpy and sprintf touch one for their NUL. */
  function Own(cs: Charset, t: string, width: nat): (n: nat)
    requires t != ""
  {
    if IsNewline(cs, t) then 1
    else if CharLen(cs.mblen, t) > 1 then
      if cs.dsplen(t) < 0 then |Escape(cs, t)| + 1 else CharLen(cs.mblen, t)
    else if t[0] == '\r' then 3
    else if t[0] != '\t' && cs.dsplen(t) < 0 then 5
    else Size(cs, t, width)
  }

  /** The same for the text s, behind a line that is `width` wide so far. */
  function Touched(cs: Charset, s: string, width: nat): (n: nat)
    decreases |s|
  {
    if !Complete(cs, s) then 1
    else
      var rest := s[CharLen(cs.mblen, s)..];
      Max(Own(cs, s, width),
          if IsNewline(cs, s) then 1 + Touched(cs, rest, 0)
          else Size(cs, s, width) + Touched(cs, rest, width + Shown(cs, s, width).width))
  }

  /** Where a number has more than four digits, what it touches does not pass what is counted from there on. */
  predicate LongCodesFit(cs: Charset, s: string, width: nat)
    decreases |s|
  {
    Complete(cs, s) ==>
      && (Numbered(cs, s) && cs.code(s) > 0xFFFF ==> 3 + |Hex(cs.code(s), 4)| <= Counted(cs, s, width))
      && (var rest := s[CharLen(cs.mblen, s)..];
          if IsNewline(cs, s) then LongCodesFit(cs, rest, 0)
          else LongCodesFit(cs, rest, width + Shown(cs, s, width).width))
  }

  lemma OwnFits(cs: Charset, s: string, width: nat)
    requires Complete(cs, s)
    ensures Own(cs, s, width) <= Counted(cs, s, width) <==>
            (Numbered(cs, s) && cs.code(s) > 0xFFFF ==> 3 + |Hex(cs.code(s), 4)| <= Counted(cs, s, width))
  {
    hide Hex;
    HexLen(cs.code(s));
    CountedSome(cs, s[CharLen(cs.mblen, s)..]);
  }

  lemma {:induction false} CountedSome(cs: Charset, s: string)
    ensures forall width :: Counted(cs, s, width) >= 1
  {
  }

  lemma {:induction false} TouchedCounted(cs: Charset, s: string, width: nat)
    ensures Touched(cs, s, width) >= Counted(cs, s, width)
    ensures Touched(cs, s, width) == Counted(cs, s, width) <==> LongCodesFit(cs, s, width)
    decreases |s|
  {
    hide CharLen, Shown, Size, Own, Numbered;
    if Complete(cs, s) {
      OwnFits(cs, s, width);
      TouchedCounted(cs, s[CharLen(cs.mblen, s)..], if IsNewline(cs, s) then 0 else width + Shown(cs, s, width).width);
    }
  }

  /** In a buffer of the counted size every write stays inside, if and only if the long codes fit. */
  lemma StaysInside(cs: Charset, s: string)
    ensures Touched(cs, s, 0) <= Counted(cs, s, 0) <==> LongCodesFit(cs, s, 0)
  {
    TouchedCounted(cs, s, 0);
  }

  /** No number has more than four digits. */
  predicate ShortCodes(cs: Charset, s: string)
    decreases |s|
  {
    Complete(cs, s) ==>
      (Numbered(cs, s) ==> cs.code(s) <= 0xFFFF) && ShortCodes(cs, s[CharLen(cs.mblen, s)..])
  }

  lemma {:induction false} ShortCodesFit(cs: Charset, s: string, width: nat)
    requires ShortCodes(cs, s)
    ensures LongCodesFit(cs, s, width)
    decreases |s|
  {
    hide CharLen, Shown, Numbered;
    if Complete(cs, s) {
      ShortCodesFit(cs, s[CharLen(cs.mblen, s)..], if IsNewline(cs, s) then 0 else width + Shown(cs, s, width).width);
    }
  }

  /** A number of six digits alone: seven bytes are counted and left, and nine are touched. */
  lemma LongCodeAlone(cs: Charset, s: string)
    requires cs.utf8 && |s| == 4 && s[0] != '\0' && cs.mblen(s) == 4 && cs.dsplen(s) < 0 && cs.code(s) == 0x110000
    ensures Counted(cs, s, 0) == 7 && Touched(cs, s, 0) == 9 && !LongCodesFit(cs, s, 0)
  {
    SixDigits();
    assert CharLen(cs.mblen, s) == 4 && s[4..] == "";
    assert Counted(cs, s[4..], 6) == 1 && Touched(cs, s[4..], 6) == 1;
    StaysInside(cs, s);
  }

  lemma SixDigits()
    ensures |Hex(0x110000, 4)| == 6
  {
    assert |Hex(0x11, 0)| == 2 by { assert |Hex(0x1, 0)| == 1; }
    assert |Hex(0x110, 1)| == 3;
    assert |Hex(0x1100, 2)| == 4;
    assert |Hex(0x11000, 3)| == 5;
  }

  // ---------------------------------------------------------------------
  // The measuring pass

  /** What both passes know at place i: the lines done, the line begun, and that the rest follows. */
  ghost predicate At(cs: Charset, s: string, i: nat, done: seq<Line>, begun: Line) {
    i <= |s| && Cell(cs, s) == done + Lines(cs, s[i..], begun)
  }

  lemma Step(cs: Charset, s: string, i: nat, done: seq<Line>, begun: Line)
    requires At(cs, s, i, done, begun)
    ensures i == |s| || !Complete(cs, s[i..]) ==> Cell(cs, s) == done + [begun]
    ensures i < |s| && Complete(cs, s[i..]) ==>
              var t := s[i..];
              var j := i + CharLen(cs.mblen, t);
              j <= |s| &&
              if IsNewline(cs, t) then At(cs, s, j, done + [begun], Line("", 0))
              else At(cs, s, j, done, Grown(cs, t, begun))
  {
  }

  lemma Begin(cs: Charset, s: string)
    ensures At(cs, s, 0, [], Line("", 0))
  {
  }

  /** How the count goes on at place i. */
  lemma CountStep(cs: Charset, s: string, i: nat, width: nat)
    requires i <= |s|
    ensures i == |s| || !Complete(cs, s[i..]) ==> Counted(cs, s[i..], width) == 1
    ensures i < |s| && Complete(cs, s[i..]) ==>
              var t := s[i..];
              var j := i + CharLen(cs.mblen, t);
              j <= |s| && Counted(cs, t, width) ==
              if IsNewline(cs, t) then 1 + Counted(cs, s[j..], 0)
              else Size(cs, t, width) + Counted(cs, s[j..], width + Shown(cs, t, width).width)
  {
    hide CharLen, Shown, Size;
    if i < |s| {
      var m := CharLen(cs.mblen, s[i..]);
      assert s[i..][m..] == s[i + m..];
    }
  }

  method PgWcssize(cs: Charset, s: string) returns (width: nat, height: nat, formatSize: nat)
    ensures height == |Cell(cs, s)| && width == Widest(Cell(cs, s)) && formatSize == Counted(cs, s, 0)
  {
    hide Lines, Cell, Shown, Size, CharLen, At, Widest, Complete, Counted;
    NoLines();
    var linewidth := 0;
    width, height, formatSize := 0, 1, 0;
    ghost var done, begun: Line := [], Line("", 0);
    Begin(cs, s);
    assert s[0..] == s;
    var i := 0;
    while i < |s| && Complete(cs, s[i..])
      invariant i <= |s| && At(cs, s, i, done, begun)
      invariant linewidth == begun.width && width == Widest(done)
      invariant height == |done| + 1 && formatSize + Counted(cs, s[i..], linewidth) == Counted(cs, s, 0)
      decreases |s| - i
    {
      var t := s[i..];
      Step(cs, s, i, done, begun);
      CountStep(cs, s, i, linewidth);
      LinesSnoc(done, begun);
      var chlen := CharLen(cs.mblen, t);
      if chlen == 1 && t[0] == '\n' {
        if linewidth > width { width := linewidth; }
        linewidth := 0;
        height := height + 1;
        formatSize := formatSize + 1;
        done, begun := done + [begun], Line("", 0);
      } else {
        linewidth, formatSize := MeasureChar(cs, t, linewidth, formatSize);
        begun := Grown(cs, t, begun);
      }
      i := i + chlen;
    }
    Step(cs, s, i, done, begun);
    CountStep(cs, s, i, linewidth);
    LinesSnoc(done, begun);
    if linewidth > width { width := linewidth; }
    formatSize := formatSize + 1;
  }

  lemma NoLines()
    ensures Widest([]) == 0 && Bytes([]) == 0 && Layout([]) == ""
  {
  }

  /** The branches for a character that is no newline. */
  method MeasureChar(cs: Charset, t: string, linewidth0: nat, formatSize0: nat) returns (linewidth: nat, formatSize: nat)
    requires t != ""
    ensures linewidth == linewidth0 + Shown(cs, t, linewidth0).width
    ensures formatSize == formatSize0 + Size(cs, t, linewidth0)
  {
    linewidth, formatSize := linewidth0, formatSize0;
    var chlen, w := CharLen(cs.mblen, t), cs.dsplen(t);
    if chlen == 1 {
      if t[0] == '\r' {
        linewidth, formatSize := linewidth + 2, formatSize + 2;
      } else if t[0] == '\t' {
        linewidth, formatSize := MeasureTab(linewidth, formatSize);
      } else if w < 0 {
        linewidth, formatSize := linewidth + 4, formatSize + 4;
      } else {
        linewidth, formatSize := linewidth + w, formatSize + 1;
      }
    } else if w < 0 {
      linewidth, formatSize := linewidth + 6, formatSize + 6;
    } else {
      linewidth, formatSize := linewidth + w, formatSize + chlen;
    }
  }

  method MeasureTab(linewidth0: nat, formatSize0: nat) returns (linewidth: nat, formatSize: nat)
    ensures linewidth == linewidth0 + (8 - linewidth0 % 8) && formatSize == formatSize0 + (8 - linewidth0 % 8)
  {
    linewidth, formatSize := linewidth0 + 1, formatSize0 + 1;
    while linewidth % 8 != 0
      invariant linewidth0 < linewidth <= linewidth0 + (8 - linewidth0 % 8)
      invariant formatSize - formatSize0 == linewidth - linewidth0
      decreases linewidth0 + 8 - linewidth
    {
      linewidth, formatSize := linewidth + 1, formatSize + 1;
    }
  }

  // ---------------------------------------------------------------------
  // The writing pass

  /** An entry of the line array; None is the NULL that ends the array. */
  datatype LinePtr = LinePtr(ptr: Option<nat>, width: nat)

  /** Entry k describes line k and says where it starts in the buffer. */
  predicate Describes(entry: LinePtr, lines: seq<Line>, k: nat)
    requires k < |lines|
  {
    entry.ptr == Some(Bytes(lines[..k])) && entry.width == lines[k].width
  }

  /** strcpy and sprintf: the text and a NUL, of which the first `keep` bytes stay; top is where they end. */
  method PutString(buf: array<char>, p: nat, text: string, keep: nat, ghost before: string)
    returns (q: nat, ghost top: nat)
    requires p == |before| && HasBytes(buf, 0, before) && keep <= |text| && p + |text| < buf.Length
    modifies buf
    ensures q == p + keep && top == p + |text| + 1 && HasBytes(buf, 0, before + text[..keep])
  {
    var e := Append(buf, p, text, 0, before);
    buf[e] := '\0';
    top := e + 1;
    q := p + keep;
  }

  method PutTab(buf: array<char>, p: nat, linewidth0: nat, ghost before: string) returns (q: nat, linewidth: nat)
    requires p == |before| && HasBytes(buf, 0, before) && p + (8 - linewidth0 % 8) <= buf.Length
    modifies buf
    ensures linewidth == linewidth0 + (8 - linewidth0 % 8) && q == p + (8 - linewidth0 % 8)
    ensures HasBytes(buf, 0, before + Spaces(8 - linewidth0 % 8))
  {
    buf[p] := ' ';
    q, linewidth := p + 1, linewidth0 + 1;
    while linewidth % 8 != 0
      invariant linewidth0 < linewidth <= linewidth0 + (8 - linewidth0 % 8)
      invariant q - p == linewidth - linewidth0 && HasBytes(buf, 0, before)
      invariant forall i :: p <= i < q ==> buf[i] == ' '
      decreases linewidth0 + 8 - linewidth
    {
      buf[q] := ' ';
      q, linewidth := q + 1, linewidth + 1;
    }
  }

  /** The branches for a character that is no newline. */
  method PutChar(cs: Charset, t: string, buf: array<char>, p: nat, linewidth0: nat, ghost before: string)
    returns (q: nat, linewidth: nat, ghost top: nat)
    requires t != "" && !IsNewline(cs, t) && p == |before| && HasBytes(buf, 0, before)
    requires p + Own(cs, t, linewidth0) <= buf.Length
    modifies buf
    ensures var shown := Shown(cs, t, linewidth0);
            q == p + |shown.text| && linewidth == linewidth0 + shown.width && HasBytes(buf, 0, before + shown.text)
    ensures top == p + Own(cs, t, linewidth0)
  {
    hide HasBytes, Hex;
    linewidth := linewidth0;
    var chlen, w := CharLen(cs.mblen, t), cs.dsplen(t);
    if chlen == 1 {
      if t[0] == '\r' {
        q, top := PutString(buf, p, "\\r", 2, before);
        linewidth := linewidth + 2;
        assert "\\r"[..2] == "\\r";
      } else if t[0] == '\t' {
        q, linewidth := PutTab(buf, p, linewidth, before);
        top := q;
      } else if w < 0 {
        HexLen(t[0] as int % 256);
        var text := "\\x" + Hex(t[0] as int % 256, 2);
        assert text[..4] == text;
        q, top := PutString(buf, p, text, 4, before);
        linewidth := linewidth + 4;
      } else {
        linewidth := linewidth + w;
        q := Append(buf, p, t[..1], 0, before);
        top := q;
      }
    } else if w < 0 {
      if cs.utf8 {
        q, top := PutString(buf, p, "\\u" + Hex(cs.code(t), 4), 6, before);
      } else {
        q, top := PutString(buf, p, "\\u????", 6, before);
      }
      linewidth := linewidth + 6;
    } else {
      q := Append(buf, p, t[..chlen], 0, before);
      top := q;
      linewidth := linewidth + w;
    }
  }

  lemma MoreLines(cs: Charset, s: string, i: nat, done: seq<Line>, begun: Line)
    requires At(cs, s, i, done, begun)
    ensures |done| + 1 <= |Cell(cs, s)|
  {
  }

  /** How the bytes touched go on at place i. */
  lemma TouchStep(cs: Charset, s: string, i: nat, width: nat)
    requires i <= |s|
    ensures i == |s| || !Complete(cs, s[i..]) ==> Touched(cs, s[i..], width) == 1
    ensures i < |s| && Complete(cs, s[i..]) ==>
              var t := s[i..];
              var j := i + CharLen(cs.mblen, t);
              j <= |s| && Touched(cs, t, width) ==
              Max(Own(cs, t, width),
                  if IsNewline(cs, t) then 1 + Touched(cs, s[j..], 0)
                  else Size(cs, t, width) + Touched(cs, s[j..], width + Shown(cs, t, width).width))
  {
    hide CharLen, Shown, Size, Own;
    if i < |s| {
      var m := CharLen(cs.mblen, s[i..]);
      assert s[i..][m..] == s[i + m..];
    }
  }

  /** The entry of the line just finished. */
  lemma Finished(cs: Charset, s: string, i: nat, done: seq<Line>, begun: Line, entry: LinePtr)
    requires At(cs, s, i, done, begun) && done != []
    requires var k := |done| - 1; entry == LinePtr(Some(Bytes(done[..k])), done[k].width)
    ensures |done| <= |Cell(cs, s)| && Describes(entry, Cell(cs, s), |done| - 1)
  {
    hide Bytes;
    var k, tail := |done| - 1, Lines(cs, s[i..], begun);
    assert (done + tail)[..k] == done[..k] && (done + tail)[k] == done[k];
  }

  /** What has been written when the pass stands at place i of s. */
  ghost predicate Written(cs: Charset, s: string, i: nat, done: seq<Line>, begun: Line,
                          lines: array<LinePtr>, buf: array<char>, ptr: nat)
    reads lines, buf
  {
    && At(cs, s, i, done, begun) && |done| < |Cell(cs, s)| && |done| < lines.Length
    && ptr == Bytes(done) + |begun.text| && HasBytes(buf, 0, Layout(done) + begun.text)
    && lines[|done|].ptr == Some(Bytes(done))
    && (forall k :: 0 <= k < |done| ==> Describes(lines[k], Cell(cs, s), k))
  }

  /** A newline: the line is ended in the buffer and in its entry. */
  method EndLine(cs: Charset, s: string, ghost i: nat, ghost done: seq<Line>, ghost begun: Line,
                 lines: array<LinePtr>, line: nat, linewidth: nat, buf: array<char>, ptr0: nat)
    returns (ptr: nat)
    requires Written(cs, s, i, done, begun, lines, buf, ptr0) && line == |done| && linewidth == begun.width
    requires i < |s| && Complete(cs, s[i..]) && IsNewline(cs, s[i..]) && ptr0 < buf.Length
    modifies buf, lines
    ensures |done| + 1 < |Cell(cs, s)| && At(cs, s, i + 1, done + [begun], Line("", 0))
    ensures ptr == ptr0 + 1 == Bytes(done + [begun]) && HasBytes(buf, 0, Layout(done + [begun]) + "")
    ensures forall k :: 0 <= k < |done| + 1 ==> Describes(lines[k], Cell(cs, s), k)
  {
    hide Lines, Cell, CharLen, Layout, At, Bytes, Complete, HasBytes, Describes;
    Step(cs, s, i, done, begun);
    ptr := Append(buf, ptr0, ['\0'], 0, Layout(done) + begun.text);
    lines[line] := lines[line].(width := linewidth);
    LinesSnoc(done, begun);
    Units(Layout(done + [begun]));
    assert (done + [begun])[..|done|] == done;
    Finished(cs, s, i + 1, done + [begun], Line("", 0), lines[line]);
    MoreLines(cs, s, i + 1, done + [begun], Line("", 0));
  }

  /** Any other character is appended to the line. */
  method AddChar(cs: Charset, s: string, i: nat, ghost done: seq<Line>, ghost begun: Line,
                 ghost lines: array<LinePtr>, linewidth0: nat, buf: array<char>, ptr0: nat)
    returns (ptr: nat, linewidth: nat, ghost top: nat)
    requires Written(cs, s, i, done, begun, lines, buf, ptr0) && linewidth0 == begun.width
    requires i < |s| && Complete(cs, s[i..]) && !IsNewline(cs, s[i..])
    requires ptr0 + Own(cs, s[i..], linewidth0) <= buf.Length
    modifies buf
    ensures top == ptr0 + Own(cs, s[i..], linewidth0) && ptr == ptr0 + Size(cs, s[i..], linewidth0)
    ensures var begun' := Grown(cs, s[i..], begun);
            linewidth == begun'.width &&
            Written(cs, s, i + CharLen(cs.mblen, s[i..]), done, begun', lines, buf, ptr)
  {
    hide Lines, Cell, Shown, CharLen, Layout, At, Bytes, Complete, HasBytes, Describes, Own, Size;
    var t := s[i..];
    Step(cs, s, i, done, begun);
    ShownSize(cs, t, begun.width);
    Assoc(Layout(done), begun.text, Shown(cs, t, begun.width).text);
    ptr, linewidth, top := PutChar(cs, t, buf, ptr0, linewidth0, Layout(done) + begun.text);
  }

  /** The end of the text ends the last line. */
  method EndCell(cs: Charset, s: string, ghost i: nat, ghost done: seq<Line>, ghost begun: Line,
                 lines: array<LinePtr>, line: nat, linewidth: nat, buf: array<char>, ptr: nat)
    returns (end: nat)
    requires Written(cs, s, i, done, begun, lines, buf, ptr) && line == |done| && linewidth == begun.width
    requires (i == |s| || !Complete(cs, s[i..])) && ptr < buf.Length
    modifies buf, lines
    ensures |Cell(cs, s)| == line + 1 && end == ptr + 1 == Bytes(Cell(cs, s)) && HasBytes(buf, 0, Layout(Cell(cs, s)))
    ensures forall k :: 0 <= k <= line ==> Describes(lines[k], Cell(cs, s), k)
  {
    hide Lines, Cell, CharLen, Layout, At, Bytes, Complete, HasBytes, Describes;
    Step(cs, s, i, done, begun);
    LinesSnoc(done, begun);
    lines[line] := lines[line].(width := linewidth);
    end := Append(buf, ptr, ['\0'], 0, Layout(done) + begun.text);
    LastFinished(Cell(cs, s), done, begun, lines[line]);
  }

  /**
    With a buffer of the bytes touched, no write leaves it whatever the count,
    and top says that no smaller buffer would do; the lines are left exactly as
    they were counted; and the pass gives up exactly when the count is below the
    height.
   */
  method PgWcsformat(cs: Charset, s: string, lines: array<LinePtr>, count0: nat, buf: array<char>)
    returns (ok: bool, end: nat, ghost top: nat)
    requires buf.Length >= Touched(cs, s, 0)
    requires lines.Length > count0 && lines[0].ptr == Some(0)
    modifies buf, lines
    ensures ok <==> |Cell(cs, s)| <= count0
    ensures ok ==> top == Touched(cs, s, 0)
    ensures ok ==> end == Bytes(Cell(cs, s)) && HasBytes(buf, 0, Layout(Cell(cs, s)))
    ensures ok ==> forall k :: 0 <= k < |Cell(cs, s)| ==> Describes(lines[k], Cell(cs, s), k)
    ensures ok ==> lines[|Cell(cs, s)|].ptr.None?
  {
    hide Lines, Cell, CharLen, Layout, At, Bytes, Complete, HasBytes, Describes, Touched, Own, Size, Shown;
    NoLines();
    EmptyBuffer(buf);
    var linewidth: nat, ptr: nat, line: nat := 0, 0, 0;
    var count: int := count0;
    ghost var done, begun: Line := [], Line("", 0);
    top := 0;
    Begin(cs, s);
    MoreLines(cs, s, 0, done, begun);
    assert s[0..] == s;
    var i := 0;
    while i < |s| && Complete(cs, s[i..])
      invariant i <= |s| && Written(cs, s, i, done, begun, lines, buf, ptr)
      invariant linewidth == begun.width && line == |done|
      invariant count + line == count0 && (line > 0 ==> count > 0)
      invariant Max(top, ptr + Touched(cs, s[i..], linewidth)) == Touched(cs, s, 0)
      decreases |s| - i
    {
      TouchStep(cs, s, i, linewidth);
      var chlen := CharLen(cs.mblen, s[i..]);
      if chlen == 1 && s[i] == '\n' {
        NewlineOwn(cs, s[i..], linewidth);
        ptr := EndLine(cs, s, i, done, begun, lines, line, linewidth, buf, ptr);
        top := Max(top, ptr);
        done, begun := done + [begun], Line("", 0);
        linewidth, line, count := 0, line + 1, count - 1;
        if count <= 0 {
          return false, ptr, top;
        }
        lines[line] := lines[line].(ptr := Some(ptr));
      } else {
        ghost var top';
        ptr, linewidth, top' := AddChar(cs, s, i, done, begun, lines, linewidth, buf, ptr);
        top := Max(top, top');
        begun := Grown(cs, s[i..], begun);
      }
      i := i + chlen;
    }
    TouchStep(cs, s, i, linewidth);
    end := EndCell(cs, s, i, done, begun, lines, line, linewidth, buf, ptr);
    top := Max(top, end);
    if count <= 0 {
      return false, end, top;
    }
    lines[line + 1] := lines[line + 1].(ptr := None);
    ok := true;
  }

  lemma NewlineOwn(cs: Charset, t: string, width: nat)
    requires t != "" && IsNewline(cs, t)
    ensures Own(cs, t, width) == 1
  {
  }

  lemma LastFinished(cell: seq<Line>, done: seq<Line>, last: Line, entry: LinePtr)
    requires cell == done + [last] && entry == LinePtr(Some(Bytes(done)), last.width)
    ensures Describes(entry, cell, |done|)
  {
  }

  lemma EmptyBuffer(buf: array<char>)
    ensures HasBytes(buf, 0, "" + "")
  {
  }
}
