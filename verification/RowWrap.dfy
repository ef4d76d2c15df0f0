/**
  How print_aligned_text of tools/pg_psql/print.cpp lays out one table row: the
  formatted lines of every cell are cut into fragments no wider than the
  column, and the columns advance side by side, one display line at a time.
 */
module RowWrap {
  import opened Basics
  import opened Encoding

  /** Character lengths, and display widths, which formatted text never has below zero. */
  datatype Charset = Charset(mblen: Mblen, dsplen: string -> nat)

  // ---------------------------------------------------------------------
  // How much fits: strlen_max_width

  /**
    How many bytes of t go on a line that is `used` wide so far, and how wide
    the line is then.  On an empty line the first character always goes.
   */
  function Fit(cs: Charset, t: string, target: nat, used: nat): (r: (nat, nat))
    ensures r.0 <= |t| && (t != "" && used == 0 ==> r.0 >= 1)
    decreases |t|
  {
    if t == "" || (target < used + cs.dsplen(t) && used != 0) then (0, used)
    else
      var m := CharLen(cs.mblen, t);
      var (n, w) := Fit(cs, t[m..], target, used + cs.dsplen(t));
      (m + n, w)
  }

  method StrlenMaxWidth(cs: Charset, text: string, start: nat, target: nat) returns (bytes: nat, width: nat)
    requires start <= |text|
    ensures (bytes, width) == Fit(cs, text[start..], target, 0)
  {
    hide CharLen;
    var str, currWidth := start, 0;
    while str < |text|
      invariant start <= str <= |text|
      invariant var rest := Fit(cs, text[str..], target, currWidth);
                Fit(cs, text[start..], target, 0) == (str - start + rest.0, rest.1)
    {
      var charWidth := cs.dsplen(text[str..]);
      if target < currWidth + charWidth && currWidth != 0 {
        break;
      }
      currWidth := currWidth + charWidth;
      var m := CharLen(cs.mblen, text[str..]);
      assert text[str..][m..] == text[str + m..];
      str := str + m;
    }
    bytes, width := str - start, currWidth;
  }

  // ---------------------------------------------------------------------
  // A column as a list of fragments

  /** What stands at the left of a fragment: nothing, or that it goes on in its line, or that a line begins. */
  datatype Mark = NoMark | Wrapped | Newline

  datatype Frag = Frag(text: string, width: nat, mark: Mark)

  function WrapText(cs: Charset, t: string, target: nat, mark: Mark): (r: seq<Frag>)
    ensures r != []
    decreases |t|
  {
    var (n, w) := Fit(cs, t, target, 0);
    [Frag(t[..n], w, mark)] + if n < |t| then WrapText(cs, t[n..], target, Wrapped) else []
  }

  function WrapLines(cs: Charset, lines: seq<string>, target: nat, mark: Mark): (r: seq<Frag>)
    ensures lines != [] ==> r != []
  {
    if lines == [] then []
    else WrapText(cs, lines[0], target, mark) + WrapLines(cs, lines[1..], target, Newline)
  }

  /** All the fragments of a cell, in the order in which they are displayed. */
  function Column(cs: Charset, lines: seq<string>, target: nat): (r: seq<Frag>) {
    WrapLines(cs, lines, target, NoMark)
  }

  // ---------------------------------------------------------------------
  // Nothing is lost, and everything fits that can

  /** The lines that the fragments make up: a wrapped fragment goes on where the one before it stopped. */
  function Regrouped(frags: seq<Frag>): (lines: seq<string>)
    ensures frags != [] ==> lines != []
  {
    if frags == [] then []
    else
      var more := Regrouped(frags[1..]);
      if |frags| > 1 && frags[1].mark == Wrapped then [frags[0].text + more[0]] + more[1..]
      else [frags[0].text] + more
  }

  lemma {:induction false} TextRegroups(cs: Charset, t: string, target: nat, mark: Mark, more: seq<Frag>)
    requires more != [] ==> more[0].mark != Wrapped
    ensures Regrouped(WrapText(cs, t, target, mark) + more) == [t] + Regrouped(more)
    decreases |t|
  {
    hide Fit;
    var (n, w) := Fit(cs, t, target, 0);
    var first := Frag(t[..n], w, mark);
    assert t == t[..n] + t[n..];
    if n < |t| {
      var rest := WrapText(cs, t[n..], target, Wrapped) + more;
      TextRegroups(cs, t[n..], target, Wrapped, more);
      Assoc([first], WrapText(cs, t[n..], target, Wrapped), more);
      Behind([first], rest);
    } else {
      Units([first]);
      Behind([first], more);
      assert t[..n] == t;
    }
  }

  /** The fragments of a column make up exactly its lines. */
  lemma {:induction false} ColumnWhole(cs: Charset, lines: seq<string>, target: nat, mark: Mark)
    ensures Regrouped(WrapLines(cs, lines, target, mark)) == lines
  {
    if lines != [] {
      var more := WrapLines(cs, lines[1..], target, Newline);
      ColumnWhole(cs, lines[1..], target, Newline);
      FirstMark(cs, lines[1..], target, Newline);
      TextRegroups(cs, lines[0], target, mark, more);
      assert [lines[0]] + lines[1..] == lines;
    }
  }

  lemma FirstMark(cs: Charset, lines: seq<string>, target: nat, mark: Mark)
    ensures lines != [] ==> WrapLines(cs, lines, target, mark)[0].mark == mark
  {
  }

  /** The sum of the widths of the characters of t. */
  function WidthOf(cs: Charset, t: string): (w: nat)
    decreases |t|
  {
    if t == "" then 0 else cs.dsplen(t) + WidthOf(cs, t[CharLen(cs.mblen, t)..])
  }

  /** Every character of t but the last has no width. */
  predicate ZeroButLast(cs: Charset, t: string)
    decreases |t|
  {
    t == "" || CharLen(cs.mblen, t) == |t| || (cs.dsplen(t) == 0 && ZeroButLast(cs, t[CharLen(cs.mblen, t)..]))
  }

  /** A character and its width are known from its own bytes. */
  ghost predicate Local(cs: Charset) {
    forall t, u :: t != "" && cs.mblen(t) <= |t| ==> SameChar(cs, t, t[..CharLen(cs.mblen, t)] + u)
  }

  predicate SameChar(cs: Charset, t: string, t': string)
    requires t != ""
  {
    t' != "" && CharLen(cs.mblen, t') == CharLen(cs.mblen, t) && cs.dsplen(t') == cs.dsplen(t)
  }

  /**
    What fits is as wide as it is said to be; it does not exceed the target,
    unless nothing but its last character has any width; and it could not be
    one character longer.
   */
  lemma {:induction false} FitIsRight(cs: Charset, t: string, target: nat, used: nat)
    requires Local(cs) && WellFormed(cs.mblen, t)
    ensures var (n, w) := Fit(cs, t, target, used);
            && WellFormed(cs.mblen, t[n..])
            && w == used + WidthOf(cs, t[..n])
            && (w <= target || n == 0 || (used == 0 && ZeroButLast(cs, t[..n])))
            && (n < |t| ==> target < w + cs.dsplen(t[n..]) && w != 0)
    decreases |t|
  {
    hide CharLen, WidthOf, ZeroButLast, Local;
    NothingFits(cs, t);
    if t != "" && !(target < used + cs.dsplen(t) && used != 0) {
      var m := CharLen(cs.mblen, t);
      var (n, w) := Fit(cs, t[m..], target, used + cs.dsplen(t));
      FitIsRight(cs, t[m..], target, used + cs.dsplen(t));
      FrontOf(cs, t, n);
      assert t[m..][n..] == t[m + n..];
    }
  }

  /** The first character of a front of t is the first character of t. */
  lemma FrontOf(cs: Charset, t: string, n: nat)
    requires Local(cs) && t != "" && cs.mblen(t) <= |t| && n <= |t| - CharLen(cs.mblen, t)
    ensures var m := CharLen(cs.mblen, t);
            var front := t[..m + n];
            && WidthOf(cs, front) == cs.dsplen(t) + WidthOf(cs, t[m..][..n])
            && (ZeroButLast(cs, front) <==> n == 0 || (cs.dsplen(t) == 0 && ZeroButLast(cs, t[m..][..n])))
  {
    hide CharLen;
    var m := CharLen(cs.mblen, t);
    var front := t[..m] + t[m..][..n];
    assert t[..m + n] == front;
    Behind(t[..m], t[m..][..n]);
    assert SameChar(cs, t, front);
  }

  predicate FitsOr(cs: Charset, f: Frag, target: nat) {
    f.width == WidthOf(cs, f.text) && (f.width <= target || ZeroButLast(cs, f.text))
  }

  lemma {:induction false} TextFits(cs: Charset, t: string, target: nat, mark: Mark)
    requires Local(cs) && WellFormed(cs.mblen, t)
    ensures forall i :: 0 <= i < |WrapText(cs, t, target, mark)| ==> FitsOr(cs, WrapText(cs, t, target, mark)[i], target)
    decreases |t|
  {
    hide Fit, WidthOf, ZeroButLast, Local, WellFormed;
    var (n, w) := Fit(cs, t, target, 0);
    FitIsRight(cs, t, target, 0);
    NothingFits(cs, t);
    if n < |t| { TextFits(cs, t[n..], target, Wrapped); }
  }

  lemma NothingFits(cs: Charset, t: string)
    ensures ZeroButLast(cs, t[..0]) && WidthOf(cs, t[..0]) == 0
  {
  }

  /** Every fragment of a column fits the column, or only its last character has any width. */
  lemma {:induction false} ColumnFits(cs: Charset, lines: seq<string>, target: nat, mark: Mark)
    requires Local(cs) && forall i :: 0 <= i < |lines| ==> WellFormed(cs.mblen, lines[i])
    ensures forall i :: 0 <= i < |WrapLines(cs, lines, target, mark)| ==>
              FitsOr(cs, WrapLines(cs, lines, target, mark)[i], target)
  {
    hide WrapText, FitsOr, Local, WellFormed;
    if lines != [] {
      TextFits(cs, lines[0], target, mark);
      ColumnFits(cs, lines[1..], target, Newline);
    }
  }

  // ---------------------------------------------------------------------
  // The row loop

  /** What the display shows in one column on one line, with the marks on both sides and the padding. */
  datatype Shown = Shown(left: Mark, text: Option<string>, padding: nat, right: Mark)

  function MarkAt(frags: seq<Frag>, k: nat): (m: Mark) {
    if k < |frags| then frags[k].mark else NoMark
  }

  /** The display line k of a column: its fragment k, or nothing when there are no more. */
  function ShownAt(frags: seq<Frag>, k: nat, target: nat): (r: Shown) {
    if k < |frags| then
      var w := frags[k].width;
      Shown(MarkAt(frags, k), Some(frags[k].text), if w > target then 0 else target - w, MarkAt(frags, k + 1))
    else Shown(NoMark, None, target, NoMark)
  }

  /** On every display line text and padding fill the column, unless a single character is wider than that. */
  lemma ColumnFilled(cs: Charset, lines: seq<string>, target: nat, k: nat)
    requires Local(cs) && forall i :: 0 <= i < |lines| ==> WellFormed(cs.mblen, lines[i])
    ensures var shown := ShownAt(Column(cs, lines, target), k, target);
            match shown.text
            case None => shown.padding == target
            case Some(t) =>
              if WidthOf(cs, t) <= target then WidthOf(cs, t) + shown.padding == target
              else shown.padding == 0 && ZeroButLast(cs, t)
  {
    hide WrapLines, WidthOf, ZeroButLast, Local, WellFormed;
    ColumnFits(cs, lines, target, NoMark);
  }

  /** The fragments still to come when `off` bytes of line `line` have been shown. */
  function Remaining(cs: Charset, lines: seq<string>, target: nat, line: nat, off: nat): (r: seq<Frag>)
    requires line <= |lines| && (line < |lines| ==> off <= |lines[line]|)
  {
    if line == |lines| then []
    else WrapText(cs, lines[line][off..], target, MarkOf(line, off)) + WrapLines(cs, lines[line + 1..], target, Newline)
  }

  function MarkOf(line: nat, off: nat): Mark {
    if off != 0 then Wrapped else if line != 0 then Newline else NoMark
  }

  /** One fragment is shown, and the place moves on within the line or to the next line. */
  lemma Advance(cs: Charset, lines: seq<string>, target: nat, line: nat, off: nat)
    requires line < |lines| && off <= |lines[line]|
    ensures var t := lines[line][off..];
            var (n, w) := Fit(cs, t, target, 0);
            var before := Remaining(cs, lines, target, line, off);
            && before != [] && before[0] == Frag(t[..n], w, MarkOf(line, off))
            && (n < |t| ==> before[1..] == Remaining(cs, lines, target, line, off + n) && n > 0)
            && (n == |t| ==> before[1..] == Remaining(cs, lines, target, line + 1, 0))
  {
    hide Fit;
    var t := lines[line][off..];
    var (n, w) := Fit(cs, t, target, 0);
    var first, more := Frag(t[..n], w, MarkOf(line, off)), WrapLines(cs, lines[line + 1..], target, Newline);
    if n < |t| {
      var rest := WrapText(cs, t[n..], target, Wrapped);
      assert t[n..] == lines[line][off + n..];
      Assoc([first], rest, more);
      Behind([first], rest + more);
    } else {
      Units([first]);
      Behind([first], more);
      if line + 1 < |lines| {
        assert lines[line + 1..][0] == lines[line + 1] && lines[line + 1][0..] == lines[line + 1];
        assert lines[line + 1..][1..] == lines[line + 2..];
      }
    }
  }

  lemma RemainingMark(cs: Charset, lines: seq<string>, target: nat, line: nat, off: nat)
    requires line < |lines| && off <= |lines[line]|
    ensures var r := Remaining(cs, lines, target, line, off); r != [] && r[0].mark == MarkOf(line, off)
  {
  }

  /** The cells of a row and the widths of their columns. */
  datatype Row = Row(cells: seq<seq<string>>, widths: seq<nat>) {
    /** Formatting gives every cell at least one line. */
    predicate Valid() {
      |widths| == |cells| && forall j :: 0 <= j < |cells| ==> cells[j] != []
    }
    function Frags(cs: Charset, j: nat): (r: seq<Frag>)
      requires Valid() && j < |cells|
    {
      Column(cs, cells[j], widths[j])
    }
  }

  /** Column j stands at display line k. */
  ghost predicate AtLine(cs: Charset, row: Row, j: nat, k: nat, line: nat, off: nat, wrap: Mark)
    requires row.Valid() && j < |row.cells|
  {
    var frags := row.Frags(cs, j);
    && line <= |row.cells[j]| && (line < |row.cells[j]| ==> off <= |row.cells[j][line]|)
    && Remaining(cs, row.cells[j], row.widths[j], line, off) == (if k <= |frags| then frags[k..] else [])
    && wrap == MarkAt(frags, k)
    && (line < |row.cells[j]| ==> wrap == MarkOf(line, off))
  }

  /** One column on one display line. */
  method ShowColumn(cs: Charset, row: Row, j: nat, ghost k: nat, line0: nat, off0: nat, wrap0: Mark)
    returns (shown: Shown, line: nat, off: nat, wrap: Mark, more: bool)
    requires row.Valid() && j < |row.cells| && AtLine(cs, row, j, k, line0, off0, wrap0)
    ensures AtLine(cs, row, j, k + 1, line, off, wrap)
    ensures shown == ShownAt(row.Frags(cs, j), k, row.widths[j])
    ensures more <==> k + 1 < |row.Frags(cs, j)|
  {
    hide Fit, WrapText, WrapLines, Column;
    var lines, target := row.cells[j], row.widths[j];
    line, off, more := line0, off0, false;
    var text: Option<string>, padding := None, target;
    if line < |lines| {
      Advance(cs, lines, target, line, off);
      var bytes, chars := StrlenMaxWidth(cs, lines[line], off, target);
      if chars > target { chars := target; }
      padding := target - chars;
      text := Some(lines[line][off..off + bytes]);
      assert lines[line][off..][..bytes] == lines[line][off..off + bytes];
      off := off + bytes;
      if off < |lines[line]| {
        more := true;
      } else {
        line := line + 1;
        if line < |lines| { more := true; }
        off := 0;
      }
    }
    wrap := NoMark;
    if line < |lines| {
      if off != 0 {
        wrap := Wrapped;
      } else if line != 0 {
        wrap := Newline;
      }
    }
    shown := Shown(wrap0, text, padding, wrap);
    if line < |lines| { RemainingMark(cs, lines, target, line, off); }
    ghost var frags := row.Frags(cs, j);
    if k < |frags| { assert frags[k..][0] == frags[k] && frags[k..][1..] == frags[k + 1..]; }
    if k + 1 < |frags| { assert frags[k + 1..][0] == frags[k + 1]; }
  }

  /** The number of fragments in the longest of the first n columns. */
  function Tallest(cs: Charset, row: Row, n: nat): (h: nat)
    requires row.Valid() && n <= |row.cells|
  {
    if n == 0 then 0
    else
      var h := Tallest(cs, row, n - 1);
      if |row.Frags(cs, n - 1)| > h then |row.Frags(cs, n - 1)| else h
  }

  lemma {:induction false} TallestIs(cs: Charset, row: Row, n: nat)
    requires row.Valid() && n <= |row.cells|
    ensures forall j :: 0 <= j < n ==> |row.Frags(cs, j)| <= Tallest(cs, row, n)
    ensures n > 0 ==> exists j :: 0 <= j < n && |row.Frags(cs, j)| == Tallest(cs, row, n)
  {
    hide Column;
    if n > 0 { TallestIs(cs, row, n - 1); }
  }

  /** The whole display line k. */
  function LineAt(cs: Charset, row: Row, k: nat): (r: seq<Shown>)
    requires row.Valid()
  {
    seq(|row.cells|, j requires 0 <= j < |row.cells| => ShownAt(row.Frags(cs, j), k, row.widths[j]))
  }

  /** The inner loop: one display line, every column moved on by one fragment. */
  method ShowLine(cs: Charset, row: Row, ghost k: nat, lineOf: array<nat>, bytesOf: array<nat>, wrap: array<Mark>)
    returns (shown: seq<Shown>, more: bool)
    requires row.Valid() && lineOf.Length == bytesOf.Length == wrap.Length == |row.cells| && lineOf != bytesOf
    requires forall j :: 0 <= j < |row.cells| ==> AtLine(cs, row, j, k, lineOf[j], bytesOf[j], wrap[j])
    modifies lineOf, bytesOf, wrap
    ensures forall j :: 0 <= j < |row.cells| ==> AtLine(cs, row, j, k + 1, lineOf[j], bytesOf[j], wrap[j])
    ensures shown == LineAt(cs, row, k)
    ensures more <==> exists j :: 0 <= j < |row.cells| && k + 1 < |row.Frags(cs, j)|
  {
    hide AtLine, ShownAt, Column;
    shown, more := [], false;
    for j := 0 to |row.cells|
      invariant forall i :: 0 <= i < j ==> AtLine(cs, row, i, k + 1, lineOf[i], bytesOf[i], wrap[i])
      invariant forall i :: j <= i < |row.cells| ==> AtLine(cs, row, i, k, lineOf[i], bytesOf[i], wrap[i])
      invariant |shown| == j && forall i :: 0 <= i < j ==> shown[i] == ShownAt(row.Frags(cs, i), k, row.widths[i])
      invariant more <==> exists i :: 0 <= i < j && k + 1 < |row.Frags(cs, i)|
    {
      var one, line, off, mark, again := ShowColumn(cs, row, j, k, lineOf[j], bytesOf[j], wrap[j]);
      lineOf[j], bytesOf[j], wrap[j] := line, off, mark;
      shown := shown + [one];
      more := more || again;
    }
  }

  /**
    The do-while loop for one row.  Every column shows all its fragments in
    order, the longest column decides how many display lines there are, and no
    column is left with a mark for the next row.
   */
  method PrintRow(cs: Charset, row: Row, wrap: array<Mark>) returns (display: seq<seq<Shown>>)
    requires row.Valid() && wrap.Length == |row.cells| && forall j :: 0 <= j < wrap.Length ==> wrap[j] == NoMark
    modifies wrap
    ensures |display| == if row.cells == [] then 1 else Tallest(cs, row, |row.cells|)
    ensures forall k :: 0 <= k < |display| ==> display[k] == LineAt(cs, row, k)
    ensures forall j :: 0 <= j < wrap.Length ==> wrap[j] == NoMark
  {
    hide AtLine, LineAt, Tallest, Column;
    var lineOf, bytesOf := new nat[|row.cells|](_ => 0), new nat[|row.cells|](_ => 0);
    forall j | 0 <= j < |row.cells| ensures AtLine(cs, row, j, 0, lineOf[j], bytesOf[j], wrap[j]) {
      AtStart(cs, row, j);
    }
    TallestIs(cs, row, |row.cells|);
    ghost var h := Tallest(cs, row, |row.cells|);
    if row.cells != [] { AtStart(cs, row, 0); }
    display := [];
    var more := true;
    while more
      invariant forall j :: 0 <= j < |row.cells| ==> AtLine(cs, row, j, |display|, lineOf[j], bytesOf[j], wrap[j])
      invariant forall k :: 0 <= k < |display| ==> display[k] == LineAt(cs, row, k)
      invariant |display| == 0 ==> more
      invariant |display| > 0 ==> (more <==> exists j :: 0 <= j < |row.cells| && |display| < |row.Frags(cs, j)|)
      invariant |display| <= if row.cells == [] then 1 else h
      decreases more, h - |display|
    {
      var shown;
      shown, more := ShowLine(cs, row, |display|, lineOf, bytesOf, wrap);
      display := display + [shown];
    }
    forall j | 0 <= j < wrap.Length ensures wrap[j] == NoMark {
      AtEnd(cs, row, j, |display|, lineOf[j], bytesOf[j], wrap[j]);
    }
  }

  lemma AtStart(cs: Charset, row: Row, j: nat)
    requires row.Valid() && j < |row.cells|
    ensures AtLine(cs, row, j, 0, 0, 0, NoMark)
    ensures |row.Frags(cs, j)| > 0
  {
  }

  lemma AtEnd(cs: Charset, row: Row, j: nat, k: nat, line: nat, off: nat, wrap: Mark)
    requires row.Valid() && j < |row.cells| && AtLine(cs, row, j, k, line, off, wrap) && k >= |row.Frags(cs, j)|
    ensures wrap == NoMark
  {
  }
}
