/**
  Printing a query result in segments: the fetch loop of ExecQueryUsingCursor
  (tools/pg_psql/common.cpp) over print_unaligned_text (tools/pg_psql/print.cpp).
 */
module SegmentedPrint {
  import opened Basics

  datatype Separator = Separator(zero: bool, text: string)

  function SepText(sep: Separator): string { if sep.zero then "\0" else sep.text }

  /** The options that a caller of the printer may change from one segment to the next come last. */
  datatype Options = Options(tuplesOnly: bool, defaultFooter: bool, fieldSep: Separator, recordSep: Separator,
                             startTable: bool, stopTable: bool, priorRecords: nat)

  /** No footers at all is the NULL list; every row has a value for every header. */
  datatype Table = Table(title: Option<string>, headers: seq<string>, rows: seq<seq<string>>, footers: seq<string>) {
    predicate Valid() {
      forall i :: 0 <= i < |rows| ==> |rows[i]| == |headers|
    }
  }

  // ---------------------------------------------------------------------
  // What is printed, as a list of records

  function Decimal(n: nat): (r: string) {
    (if n < 10 then "" else Decimal(n / 10)) + ["0123456789"[n % 10]]
  }

  function RowCount(n: nat): string {
    "(" + Decimal(n) + (if n == 1 then " row)" else " rows)")
  }

  predicate IsDigit(c: char) { '0' <= c <= '9' }

  function DecimalValue(t: string): (n: nat)
    requires forall i :: 0 <= i < |t| ==> IsDigit(t[i])
  {
    if t == "" then 0
    else
      assert IsDigit(t[|t| - 1]);
      10 * DecimalValue(t[..|t| - 1]) + (t[|t| - 1] as int - '0' as int)
  }

  lemma {:induction false} DecimalReads(n: nat)
    ensures (forall i :: 0 <= i < |Decimal(n)| ==> IsDigit(Decimal(n)[i])) && DecimalValue(Decimal(n)) == n
  {
    var d := "0123456789"[n % 10];
    assert d as int - '0' as int == n % 10;
    if n < 10 {
      assert Decimal(n) == [d] && [d][..0] == "";
    } else {
      DecimalReads(n / 10);
      assert Decimal(n)[..|Decimal(n)| - 1] == Decimal(n / 10);
    }
  }

  /** The number in a footer that counts rows, and whether it speaks of one row. */
  function ReadCount(footer: string): (r: Option<(nat, bool)>) {
    var k := IndexOf(footer, ' ');
    if k < 2 || footer[0] != '(' || (exists i :: 1 <= i < k && !IsDigit(footer[i])) then None
    else
      var n := DecimalValue(footer[1..k]);
      if footer[k..] == " row)" then Some((n, true)) else if footer[k..] == " rows)" then Some((n, false)) else None
  }

  /** The footer reads back as the number, and is in the plural but for one row. */
  lemma CountReads(n: nat)
    ensures ReadCount(RowCount(n)) == Some((n, n == 1))
  {
    hide Decimal, DecimalValue;
    DecimalReads(n);
    var d, end := Decimal(n), if n == 1 then " row)" else " rows)";
    var t := "(" + d + end;
    var k := 1 + |d|;
    assert t[1..k] == d && t[k..] == end;
    SomeDigits(n);
    assert forall j :: 0 <= j < k ==> t[j] != ' ' by {
      forall j | 1 <= j < k ensures t[j] != ' ' { assert t[j] == d[j - 1]; }
    }
    assert t[k] == ' ' && IndexOf(t, ' ') == k;
    forall i | 1 <= i < k ensures IsDigit(t[i]) { assert t[i] == d[i - 1]; }
  }

  lemma SomeDigits(n: nat)
    ensures Decimal(n) != ""
  {
  }

  function Footers(t: Table, o: Options): (fs: seq<string>) {
    if t.footers == [] && o.defaultFooter then [RowCount(o.priorRecords + |t.rows|)] else t.footers
  }

  /** Fields with a separator between them. */
  function Fields(fields: seq<string>, sep: string): (r: string) {
    if fields == [] then ""
    else Fields(fields[..|fields| - 1], sep) + ((if |fields| > 1 then sep else "") + fields[|fields| - 1])
  }

  /** A record for each row, but none for rows without columns. */
  function RowTexts(columns: nat, rows: seq<seq<string>>, sep: string): (rs: seq<string>) {
    if columns == 0 then [] else seq(|rows|, i requires 0 <= i < |rows| => Fields(rows[i], sep))
  }

  /** Records, each but the first of a fresh printout with the separator in front of it. */
  function Records(rs: seq<string>, going: bool, sep: string): (r: string) {
    if rs == [] then ""
    else Records(rs[..|rs| - 1], going, sep) + ((if going || |rs| > 1 then sep else "") + rs[|rs| - 1])
  }

  function Title(t: Table, o: Options): string {
    if o.startTable && !o.tuplesOnly && t.title.Some? then t.title.value + SepText(o.recordSep) else ""
  }

  function RecordsOf(t: Table, o: Options): (rs: seq<string>) {
    (if o.startTable && !o.tuplesOnly then [Fields(t.headers, SepText(o.fieldSep))] else []) +
    RowTexts(|t.headers|, t.rows, SepText(o.fieldSep)) +
    (if o.stopTable && !o.tuplesOnly then Footers(t, o) else [])
  }

  function End(o: Options): string { if o.recordSep.zero then "\0" else "\n" }

  /** A finished printout that shows anything ends in a newline, or in a NUL between NULs. */
  function Ending(t: Table, o: Options): string {
    if o.stopTable && (!o.startTable || RecordsOf(t, o) != []) then End(o) else ""
  }

  function Printed(t: Table, o: Options): (r: string) {
    Title(t, o) + (Records(RecordsOf(t, o), !o.startTable, SepText(o.recordSep)) + Ending(t, o))
  }

  // ---------------------------------------------------------------------
  // Segments

  lemma {:induction false} RecordsConcat(a: seq<string>, b: seq<string>, going: bool, sep: string)
    ensures Records(a + b, going, sep) == Records(a, going, sep) + Records(b, going || a != [], sep)
  {
    if b == [] {
      Units(a);
      Units(Records(a, going, sep));
    } else {
      var b', last := b[..|b| - 1], b[|b| - 1];
      RecordsConcat(a, b', going, sep);
      assert (a + b)[..|a + b| - 1] == a + b';
      Assoc(Records(a, going, sep), Records(b', going || a != [], sep),
            (if going || |a + b| > 1 then sep else "") + last);
    }
  }

  /** The table and options of a segment of the whole result. */
  function Segment(t: Table, from: nat, to: nat): (r: Table)
    requires from <= to <= |t.rows|
  {
    t.(rows := t.rows[from..to])
  }

  function SegmentOptions(o: Options, from: nat, last: bool): (r: Options) {
    o.(startTable := from == 0, stopTable := last, priorRecords := from)
  }

  /** The printout of a result in one piece. */
  function Whole(t: Table, o: Options): (r: string) {
    Printed(t, o.(startTable := true, stopTable := true, priorRecords := 0))
  }

  function Head(t: Table, o: Options): (rs: seq<string>) {
    if o.tuplesOnly then [] else [Fields(t.headers, SepText(o.fieldSep))]
  }

  /** What has been printed when the first n rows are out and more may follow. */
  function SoFar(t: Table, o: Options, n: nat): (r: string)
    requires n <= |t.rows|
  {
    if n == 0 then ""
    else Title(t, o.(startTable := true)) +
         Records(Head(t, o) + RowTexts(|t.headers|, t.rows[..n], SepText(o.fieldSep)), false, SepText(o.recordSep))
  }

  lemma RowTextsConcat(columns: nat, a: seq<seq<string>>, b: seq<seq<string>>, sep: string)
    ensures RowTexts(columns, a + b, sep) == RowTexts(columns, a, sep) + RowTexts(columns, b, sep)
  {
  }

  /** The first segment, when more are to follow, is the beginning of the printout. */
  lemma FirstSegment(t: Table, o: Options, to: nat)
    requires 0 < to <= |t.rows|
    ensures Printed(Segment(t, 0, to), SegmentOptions(o, 0, false)) == SoFar(t, o, to)
  {
    hide Fields, Records, RowTexts;
    var o', t' := SegmentOptions(o, 0, false), Segment(t, 0, to);
    assert t.rows[0..to] == t.rows[..to];
    Units(Head(t, o) + RowTexts(|t.headers|, t.rows[..to], SepText(o.fieldSep)));
    assert RecordsOf(t', o') == Head(t, o) + RowTexts(|t.headers|, t.rows[..to], SepText(o.fieldSep));
    Units(Records(RecordsOf(t', o'), false, SepText(o.recordSep)));
  }

  /** Rows that follow others, with or without footers behind them. */
  lemma MoreRecords(t: Table, o: Options, from: nat, to: nat, foot: seq<string>)
    requires 0 < from <= to <= |t.rows| && (o.tuplesOnly ==> foot == [])
    ensures var sep, fsep := SepText(o.recordSep), SepText(o.fieldSep);
            SoFar(t, o, from) + Records(RowTexts(|t.headers|, t.rows[from..to], fsep) + foot, true, sep) ==
            Title(t, o.(startTable := true)) +
            Records(Head(t, o) + RowTexts(|t.headers|, t.rows[..to], fsep) + foot, false, sep)
  {
    hide Fields, Records, RowTexts;
    var sep, fsep := SepText(o.recordSep), SepText(o.fieldSep);
    var a, b := RowTexts(|t.headers|, t.rows[..from], fsep), RowTexts(|t.headers|, t.rows[from..to], fsep);
    assert t.rows[..to] == t.rows[..from] + t.rows[from..to];
    RowTextsConcat(|t.headers|, t.rows[..from], t.rows[from..to], fsep);
    RecordsConcat(Head(t, o) + a, b + foot, false, sep);
    RowsThere(t, o, from, to);
    NoRecords(true, sep);
    NoRecords(false, sep);
    Assoc(Head(t, o), a, b);
    Assoc(Head(t, o) + a, b, foot);
    Assoc(Title(t, o.(startTable := true)), Records(Head(t, o) + a, false, sep), Records(b + foot, true, sep));
  }

  /** A segment in the middle continues the printout. */
  lemma MiddleSegment(t: Table, o: Options, from: nat, to: nat)
    requires from < to <= |t.rows|
    ensures SoFar(t, o, from) + Printed(Segment(t, from, to), SegmentOptions(o, from, false)) == SoFar(t, o, to)
  {
    hide Fields, Records, RowTexts;
    if from == 0 {
      FirstSegment(t, o, to);
      Units(SoFar(t, o, to));
    } else {
      var sep, fsep := SepText(o.recordSep), SepText(o.fieldSep);
      var o', t' := SegmentOptions(o, from, false), Segment(t, from, to);
      var b := RowTexts(|t.headers|, t.rows[from..to], fsep);
      MoreRecords(t, o, from, to, []);
      Units(b);
      Units(Head(t, o) + RowTexts(|t.headers|, t.rows[..to], fsep));
      assert RecordsOf(t', o') == b;
      Units(Records(b, true, sep));
    }
  }

  /** Nothing to show in one piece: a result without columns, in tuples-only mode. */
  predicate Blank(t: Table, o: Options) { o.tuplesOnly && t.headers == [] }

  /** The last segment, which may have no rows, completes it; behind others it ends even a blank printout. */
  lemma LastSegment(t: Table, o: Options, from: nat)
    requires from <= |t.rows|
    ensures SoFar(t, o, from) + Printed(Segment(t, from, |t.rows|), SegmentOptions(o, from, true)) ==
            Whole(t, o) + (if from > 0 && Blank(t, o) then End(o) else "")
  {
    hide Fields, Records, RowTexts, RowCount;
    var n := |t.rows|;
    if from == 0 {
      assert t.rows[0..n] == t.rows;
      Units(Whole(t, o));
    } else {
      var sep, fsep := SepText(o.recordSep), SepText(o.fieldSep);
      var o', t' := SegmentOptions(o, from, true), Segment(t, from, n);
      var whole := o.(startTable := true, stopTable := true, priorRecords := 0);
      var b := RowTexts(|t.headers|, t.rows[from..n], fsep);
      var foot := if o.tuplesOnly then [] else Footers(t, whole);
      assert (if o.tuplesOnly then [] else Footers(t', o')) == foot;
      assert t.rows[..n] == t.rows;
      MoreRecords(t, o, from, n, foot);
      Units(b);
      assert RecordsOf(t', o') == b + foot;
      assert RecordsOf(t, whole) == Head(t, o) + RowTexts(|t.headers|, t.rows, fsep) + foot;
      SomeRecords(t, o, foot);
      var end := End(o);
      Units(Records(b + foot, true, sep) + end);
      Assoc(SoFar(t, o, from), Records(b + foot, true, sep), end);
      Assoc(Title(t, whole), Records(RecordsOf(t, whole), false, sep), end);
      Units(Records(RecordsOf(t, whole), false, sep));
      Units(Whole(t, o));
    }
  }

  lemma RowsThere(t: Table, o: Options, from: nat, to: nat)
    requires 0 < from <= to <= |t.rows|
    ensures Head(t, o) + RowTexts(|t.headers|, t.rows[..from], SepText(o.fieldSep)) == [] ==>
            o.tuplesOnly && RowTexts(|t.headers|, t.rows[from..to], SepText(o.fieldSep)) == []
  {
  }

  /** One row without columns, tuples only: nothing in one piece, a line end in two. */
  lemma BlankGainsLineEnd(t: Table, o: Options)
    requires t == Table(None, [], [[]], []) && o.tuplesOnly && !o.recordSep.zero
    ensures Whole(t, o) == ""
    ensures Printed(Segment(t, 0, 1), SegmentOptions(o, 0, false)) + Printed(Segment(t, 1, 1), SegmentOptions(o, 1, true)) == "\n"
  {
  }

  lemma SomeRecords(t: Table, o: Options, foot: seq<string>)
    requires t.rows != [] && (o.tuplesOnly ==> foot == [])
    ensures Head(t, o) + RowTexts(|t.headers|, t.rows, SepText(o.fieldSep)) + foot == [] <==> Blank(t, o)
  {
  }

  // ---------------------------------------------------------------------
  // print_unaligned_text

  /** How the fields of a row, and the rows of a table, grow by one. */
  lemma FieldsSnoc(fields: seq<string>, c: nat, sep: string)
    requires c < |fields|
    ensures Fields(fields[..c + 1], sep) == Fields(fields[..c], sep) + ((if c > 0 then sep else "") + fields[c])
  {
    assert fields[..c + 1][..c] == fields[..c];
  }

  lemma RecordsSnoc(rs: seq<string>, r: string, going: bool, sep: string)
    ensures Records(rs + [r], going, sep) ==
            Records(rs, going, sep) + ((if going || rs != [] then sep else "") + r)
  {
  }

  method PrintHeaders(headers: seq<string>, sep: string, out0: string) returns (out: string)
    ensures out == out0 + Fields(headers, sep)
  {
    out := out0;
    Units(out0);
    for i := 0 to |headers|
      invariant out == out0 + Fields(headers[..i], sep)
    {
      FieldsSnoc(headers, i, sep);
      Assoc(out0, Fields(headers[..i], sep), (if i > 0 then sep else "") + headers[i]);
      if i != 0 { out := out + (sep + headers[i]); } else { out := out + headers[i]; Units(headers[i]); }
    }
    assert headers[..|headers|] == headers;
  }

  /** One cell at column c of a row whose earlier cells stand behind `before`. */
  method PrintCell(row: seq<string>, c: nat, n: nat, sep: string, out0: string, ghost before: string) returns (out: string)
    requires c < n == |row|
    requires out0 == before + (Fields(row[..c], sep) + (if c > 0 then sep else ""))
    ensures out == before + (Fields(row[..c + 1], sep) + (if c + 1 < n then sep else ""))
  {
    hide Fields;
    FieldsSnoc(row, c, sep);
    out := out0 + row[c];
    var f, gap := Fields(row[..c], sep), if c > 0 then sep else "";
    Assoc(f, gap, row[c]);
    Assoc(before, f + gap, row[c]);
    if c + 1 < n {
      out := out + sep;
      Assoc(before, Fields(row[..c + 1], sep), sep);
    } else {
      Units(Fields(row[..c + 1], sep));
    }
  }

  /** The cells of all rows, one after the other; need says whether a separator is due. */
  method PrintCells(t: Table, o: Options, out0: string, need0: bool, ghost base: string, ghost head: seq<string>)
    returns (out: string, need: bool)
    requires t.Valid() && need0 == (!o.startTable || head != [])
    requires out0 == base + Records(head, !o.startTable, SepText(o.recordSep))
    ensures var rs := head + RowTexts(|t.headers|, t.rows, SepText(o.fieldSep));
            out == base + Records(rs, !o.startTable, SepText(o.recordSep)) && need == (!o.startTable || rs != [])
  {
    hide Fields, Records, RowTexts;
    var n := |t.headers|;
    NoColumns(t, head, SepText(o.fieldSep));
    if n == 0 { return out0, need0; }
    var rsep, fsep := SepText(o.recordSep), SepText(o.fieldSep);
    out, need := out0, need0;
    NoRows(n, head, fsep);
    var i := 0;
    ghost var q, c := 0, 0;
    ghost var before := out;
    ghost var rs := head;
    assert t.rows[..0] == [];
    while i < |t.rows| * n
      invariant i == q * n + c && c < n && q <= |t.rows| && (q == |t.rows| ==> c == 0)
      invariant rs == head + RowTexts(|t.headers|, t.rows[..q], fsep)
      invariant c == 0 ==> out == base + Records(rs, !o.startTable, rsep) && need == (!o.startTable || rs != [])
      invariant c > 0 ==> !need
      invariant c > 0 ==> before == base + Records(rs, !o.startTable, rsep) + (if !o.startTable || rs != [] then rsep else "")
      invariant c > 0 ==> out == before + (Fields(t.rows[q][..c], fsep) + fsep)
      decreases |t.rows| * n - i
    {
      InRange(i, q, c, n, |t.rows|);
      DivMod(i, n, q, c);
      if need {
        out := out + rsep;
        need := false;
      } else if c == 0 {
        Units(out);
      }
      if c == 0 {
        before := out;
        NoFields(t.rows[q], fsep, before);
      }
      out := PrintCell(t.rows[i / n], i % n, n, fsep, out, before);
      NextPlace(i, n, q, c);
      if (i + 1) % n != 0 {
        c := c + 1;
      } else {
        need := true;
        RowDone(n, t.rows, q, head, base, !o.startTable, rsep, fsep);
        rs := head + RowTexts(|t.headers|, t.rows[..q + 1], fsep);
        q, c := q + 1, 0;
      }
      i := i + 1;
    }
    AllRows(i, q, c, n, |t.rows|);
    assert t.rows[..|t.rows|] == t.rows;
  }

  lemma NoColumns(t: Table, head: seq<string>, sep: string)
    ensures t.headers == [] ==> head + RowTexts(|t.headers|, t.rows, sep) == head
  {
  }

  lemma NoRows(columns: nat, head: seq<string>, sep: string)
    ensures head + RowTexts(columns, [], sep) == head
  {
  }

  lemma NoFields(row: seq<string>, sep: string, before: string)
    ensures before == before + (Fields(row[..0], sep) + "")
  {
  }

  lemma InRange(i: nat, q: nat, c: nat, n: nat, rows: nat)
    requires i == q * n + c && c < n && i < rows * n && q <= rows && (q == rows ==> c == 0)
    ensures q < rows
  {
  }

  lemma AllRows(i: nat, q: nat, c: nat, n: nat, rows: nat)
    requires i == q * n + c && c < n && i >= rows * n && q <= rows && (q == rows ==> c == 0)
    ensures q == rows
  {
    assert q < rows ==> (q + 1) * n <= rows * n;
  }

  lemma NextPlace(i: nat, n: nat, q: nat, c: nat)
    requires i == q * n + c && c < n
    ensures (i + 1) % n == if c + 1 < n then c + 1 else 0
    ensures c + 1 == n ==> i + 1 == (q + 1) * n
  {
    if c + 1 < n { DivMod(i + 1, n, q, c + 1); } else { DivMod(i + 1, n, q + 1, 0); }
  }

  lemma RowDone(n: nat, rows: seq<seq<string>>, q: nat, head: seq<string>, base: string, going: bool, rsep: string, fsep: string)
    requires q < |rows| && n > 0
    ensures var rs := head + RowTexts(n, rows[..q], fsep);
            base + Records(rs, going, rsep) + (if going || rs != [] then rsep else "") + (Fields(rows[q][..|rows[q]|], fsep) + "") ==
            base + Records(head + RowTexts(n, rows[..q + 1], fsep), going, rsep)
    ensures head + RowTexts(n, rows[..q + 1], fsep) != []
  {
    hide Records, Fields;
    var rs, last := head + RowTexts(n, rows[..q], fsep), Fields(rows[q], fsep);
    assert rows[q][..|rows[q]|] == rows[q];
    assert head + RowTexts(n, rows[..q + 1], fsep) == rs + [last];
    RecordsSnoc(rs, last, going, rsep);
    var gap := if going || rs != [] then rsep else "";
    Units(last);
    Assoc(Records(rs, going, rsep), gap, last);
    Assoc(base, Records(rs, going, rsep), gap);
    Assoc(base + Records(rs, going, rsep), gap, last);
    Assoc(base, Records(rs, going, rsep), gap + last);
  }

  /** Footers behind the other records. */
  method PrintFooters(footers: seq<string>, o: Options, out0: string, need0: bool, ghost base: string, ghost rs: seq<string>)
    returns (out: string, need: bool)
    requires need0 == (!o.startTable || rs != [])
    requires out0 == base + Records(rs, !o.startTable, SepText(o.recordSep))
    ensures out == base + Records(rs + footers, !o.startTable, SepText(o.recordSep))
    ensures need == (!o.startTable || rs + footers != [])
  {
    hide Records;
    out, need := out0, need0;
    Units(rs);
    for i := 0 to |footers|
      invariant out == base + Records(rs + footers[..i], !o.startTable, SepText(o.recordSep))
      invariant need == (!o.startTable || rs + footers[..i] != [])
    {
      var sep := SepText(o.recordSep);
      ghost var sofar := Records(rs + footers[..i], !o.startTable, sep);
      assert rs + footers[..i + 1] == (rs + footers[..i]) + [footers[i]];
      RecordsSnoc(rs + footers[..i], footers[i], !o.startTable, sep);
      if need {
        out := out + sep;
        Assoc(base + sofar, sep, footers[i]);
        Assoc(base, sofar, sep + footers[i]);
      } else {
        Units(footers[i]);
        Assoc(base, sofar, footers[i]);
      }
      out := out + footers[i];
      need := true;
    }
    assert footers[..|footers|] == footers;
  }

  /** The printer writes the title, the records with separators between them, and the end. */
  method PrintUnalignedText(t: Table, o: Options) returns (out: string)
    requires t.Valid()
    ensures out == Printed(t, o)
  {
    hide Fields, Records, RowTexts, Decimal;
    var need := false;
    out := "";
    ghost var base := Title(t, o);
    ghost var head := if o.startTable && !o.tuplesOnly then [Fields(t.headers, SepText(o.fieldSep))] else [];
    NoRecords(!o.startTable, SepText(o.recordSep));
    Units(base);
    if o.startTable {
      if !o.tuplesOnly && t.title.Some? {
        out := t.title.value + SepText(o.recordSep);
      }
      if !o.tuplesOnly {
        OneRecord(Fields(t.headers, SepText(o.fieldSep)), SepText(o.recordSep));
        out := PrintHeaders(t.headers, SepText(o.fieldSep), out);
        need := true;
      }
    } else {
      need := true;
    }
    out, need := PrintCells(t, o, out, need, base, head);
    ghost var rs := head + RowTexts(|t.headers|, t.rows, SepText(o.fieldSep));
    Units(rs);
    if o.stopTable && !o.tuplesOnly {
      out, need := PrintFooters(Footers(t, o), o, out, need, base, rs);
    }
    ghost var text := Records(RecordsOf(t, o), !o.startTable, SepText(o.recordSep));
    Units(text);
    if o.stopTable && need {
      out := out + (if o.recordSep.zero then "\0" else "\n");
      Assoc(base, text, End(o));
    }
  }

  lemma NoRecords(going: bool, sep: string)
    ensures Records([], going, sep) == ""
  {
  }

  lemma OneRecord(r: string, sep: string)
    ensures Records([r], false, sep) == r
  {
  }

  // ---------------------------------------------------------------------
  // The fetch loop

  /** FETCH FORWARD returns the next rows of the cursor, fewer than asked for only at the end. */
  method Fetch(t: Table, from: nat, count: nat) returns (to: nat)
    requires from <= |t.rows|
    ensures from <= to <= |t.rows| && to - from <= count && (to - from < count ==> to == |t.rows|)
  {
    to := if from + count <= |t.rows| then from + count else |t.rows|;
  }

  /**
    Fetching and printing in segments of any size prints what one print of the whole result does;
    but where that would be nothing at all, and there is more than one segment, it ends a line.
   */
  method PrintInSegments(t: Table, o: Options, fetchCount: nat) returns (out: string)
    requires t.Valid() && fetchCount >= 1
    ensures out == Whole(t, o) + (if |t.rows| >= fetchCount && Blank(t, o) then End(o) else "")
    ensures out == Whole(t, o) <==> !(|t.rows| >= fetchCount && Blank(t, o))
  {
    hide SoFar, Whole, Printed, Blank;
    NothingSoFar(t, o);
    out := "";
    var my := o.(startTable := true, stopTable := false, priorRecords := 0);
    var last := false;
    while !last
      invariant my.priorRecords <= |t.rows| && (my.priorRecords == |t.rows| || !last)
      invariant !last ==> my == SegmentOptions(o, my.priorRecords, false)
      invariant !last ==> my.priorRecords == 0 || my.priorRecords >= fetchCount
      invariant if last then out == Whole(t, o) + (if |t.rows| >= fetchCount && Blank(t, o) then End(o) else "")
                else out == SoFar(t, o, my.priorRecords)
      decreases !last, |t.rows| - my.priorRecords
    {
      var from := my.priorRecords;
      var to := Fetch(t, from, fetchCount);
      var ntuples := to - from;
      if ntuples < fetchCount {
        my := my.(stopTable := true);
        LastSegment(t, o, from);
      } else {
        MiddleSegment(t, o, from, to);
      }
      var text := PrintUnalignedText(Segment(t, from, to), my);
      out := out + text;
      my := my.(startTable := false, priorRecords := my.priorRecords + ntuples);
      last := ntuples < fetchCount;
    }
  }

  lemma NothingSoFar(t: Table, o: Options)
    ensures SoFar(t, o, 0) == ""
  {
  }
}
