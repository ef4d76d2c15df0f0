/**
  An unaligned printout read back: the lines and fields into which its
  separators cut it are the title, headers, rows and footers of the table.
 */
module PrintoutReading {
  import opened Basics
  import opened SegmentedPrint

  /** The pieces between separators; `begun` is what there is of the first. */
  function SplitFrom(t: string, sep: string, begun: string): (r: seq<string>)
    requires sep != ""
    ensures r != []
    decreases |t|
  {
    if t == "" then [begun]
    else if sep <= t then [begun] + SplitFrom(t[|sep|..], sep, "")
    else SplitFrom(t[1..], sep, begun + [t[0]])
  }

  function Split(t: string, sep: string): (r: seq<string>)
    requires sep != ""
    ensures r != []
  {
    SplitFrom(t, sep, "")
  }

  /** The text has no character of the separator. */
  predicate Clear(t: string, sep: string) { forall i :: 0 <= i < |t| ==> t[i] !in sep }

  lemma {:induction false} SplitPiece(a: string, sep: string, rest: string, begun: string)
    requires sep != "" && Clear(a, sep)
    ensures SplitFrom(a + (sep + rest), sep, begun) == [begun + a] + Split(rest, sep)
    decreases |a|
  {
    var t := a + (sep + rest);
    if a == "" {
      Units(sep + rest);
      Units(begun);
      Behind(sep, rest);
    } else {
      assert t[0] == a[0] && a[0] != sep[0] && t[1..] == a[1..] + (sep + rest);
      SplitPiece(a[1..], sep, rest, begun + [a[0]]);
      assert begun + [a[0]] + a[1..] == begun + a;
    }
  }

  lemma {:induction false} SplitLast(a: string, sep: string, begun: string)
    requires sep != "" && Clear(a, sep)
    ensures SplitFrom(a, sep, begun) == [begun + a]
    decreases |a|
  {
    if a == "" {
      Units(begun);
    } else {
      assert a[0] != sep[0];
      SplitLast(a[1..], sep, begun + [a[0]]);
      assert begun + [a[0]] + a[1..] == begun + a;
    }
  }

  lemma {:induction false} FieldsFirst(fs: seq<string>, sep: string)
    requires fs != []
    ensures Fields(fs, sep) == fs[0] + (if |fs| == 1 then "" else sep + Fields(fs[1..], sep))
  {
    var n := |fs| - 1;
    if n == 0 {
      assert Fields(fs[..0], sep) == "";
      Units(fs[0]);
    } else {
      FieldsFirst(fs[..n], sep);
      assert fs[1..][..n - 1] == fs[..n][1..] && fs[1..][n - 1] == fs[n];
      var middle := Fields(fs[..n][1..], sep);
      var last := (if n > 1 then sep else "") + fs[n];
      assert Fields(fs[1..], sep) == middle + last;
      if n == 1 {
        assert middle == "" && fs[..1] == [fs[0]];
        Units(fs[0]);
      } else {
        Assoc(sep, middle, last);
        Assoc(fs[0], sep + middle, last);
      }
    }
  }

  /** Fields read back. */
  lemma {:induction false} FieldsRead(fs: seq<string>, sep: string)
    requires sep != "" && fs != [] && forall i :: 0 <= i < |fs| ==> Clear(fs[i], sep)
    ensures Split(Fields(fs, sep), sep) == fs
    decreases |fs|
  {
    hide Fields, Clear, SplitFrom;
    FieldsFirst(fs, sep);
    if |fs| == 1 {
      Units(fs[0]);
      SplitLast(fs[0], sep, "");
      assert fs == [fs[0]];
    } else {
      FieldsRead(fs[1..], sep);
      SplitPiece(fs[0], sep, Fields(fs[1..], sep), "");
      Units(fs[0]);
      assert fs == [fs[0]] + fs[1..];
    }
  }

  lemma {:induction false} RecordsAreFields(rs: seq<string>, sep: string)
    ensures Records(rs, false, sep) == Fields(rs, sep)
  {
    if rs != [] { RecordsAreFields(rs[..|rs| - 1], sep); }
  }

  lemma {:induction false} FieldsClear(fs: seq<string>, fsep: string, rsep: string)
    requires Clear(fsep, rsep) && forall i :: 0 <= i < |fs| ==> Clear(fs[i], rsep)
    ensures Clear(Fields(fs, fsep), rsep)
  {
    if fs != [] { FieldsClear(fs[..|fs| - 1], fsep, rsep); }
  }

  // ---------------------------------------------------------------------
  // The printout

  /** The footers that are shown. */
  function ShownFooters(t: Table, o: Options): (fs: seq<string>) {
    if t.footers == [] && o.defaultFooter then [RowCount(|t.rows|)] else t.footers
  }

  /** Nothing that is printed contains anything of a separator. */
  predicate Readable(t: Table, o: Options) {
    var fsep, rsep := SepText(o.fieldSep), SepText(o.recordSep);
    && fsep != "" && rsep != "" && Clear(fsep, rsep) && t.Valid() && t.headers != []
    && (forall j :: 0 <= j < |t.headers| ==> Clear(t.headers[j], fsep) && Clear(t.headers[j], rsep))
    && (forall i, j :: 0 <= i < |t.rows| && 0 <= j < |t.rows[i]| ==> Clear(t.rows[i][j], fsep) && Clear(t.rows[i][j], rsep))
    && (t.title.Some? ==> Clear(t.title.value, rsep))
    && forall i :: 0 <= i < |ShownFooters(t, o)| ==> Clear(ShownFooters(t, o)[i], rsep)
  }

  /** All that is printed, line by line. */
  function LinesOf(t: Table, o: Options): (ls: seq<string>) {
    (if !o.tuplesOnly && t.title.Some? then [t.title.value] else []) +
    RecordsOf(t, o.(startTable := true, stopTable := true, priorRecords := 0))
  }

  /** How many lines stand above the rows. */
  function Titles(t: Table, o: Options): (n: nat) { if !o.tuplesOnly && t.title.Some? then 1 else 0 }

  function Top(t: Table, o: Options): (n: nat) { Titles(t, o) + if o.tuplesOnly then 0 else 1 }

  lemma LinesAre(t: Table, o: Options)
    requires t.headers != [] && (!o.tuplesOnly || t.rows != [])
    ensures var ls, fsep, top := LinesOf(t, o), SepText(o.fieldSep), Top(t, o);
            && |ls| == top + |t.rows| + (if o.tuplesOnly then 0 else |ShownFooters(t, o)|) && ls != []
            && (Titles(t, o) == 1 ==> ls[0] == t.title.value)
            && (!o.tuplesOnly ==> ls[Titles(t, o)] == Fields(t.headers, fsep))
            && (forall i :: 0 <= i < |t.rows| ==> ls[top + i] == Fields(t.rows[i], fsep))
            && (!o.tuplesOnly ==> ls[top + |t.rows|..] == ShownFooters(t, o))
  {
    hide Fields, RowCount;
  }

  lemma LinesClear(t: Table, o: Options, i: nat)
    requires Readable(t, o) && (!o.tuplesOnly || t.rows != []) && i < |LinesOf(t, o)|
    ensures Clear(LinesOf(t, o)[i], SepText(o.recordSep))
  {
    hide Clear, Fields, LinesOf;
    var ls, fsep, rsep := LinesOf(t, o), SepText(o.fieldSep), SepText(o.recordSep);
    LinesAre(t, o);
    var top := Top(t, o);
    if i < top {
      FieldsClear(t.headers, fsep, rsep);
    } else if i < top + |t.rows| {
      assert ls[top + (i - top)] == Fields(t.rows[i - top], fsep);
      FieldsClear(t.rows[i - top], fsep, rsep);
    } else {
      assert ls[i] == ls[top + |t.rows|..][i - top - |t.rows|];
    }
  }

  /** The printout is its lines with separators between them, and an ending. */
  lemma WholeIsLines(t: Table, o: Options)
    requires LinesOf(t, o) != [] && (!o.tuplesOnly || t.rows != []) && t.headers != []
    ensures Whole(t, o) == Fields(LinesOf(t, o), SepText(o.recordSep)) + End(o)
  {
    hide Fields, Footers;
    var o1 := o.(startTable := true, stopTable := true, priorRecords := 0);
    var rs, sep := RecordsOf(t, o1), SepText(o.recordSep);
    RecordsAreFields(rs, sep);
    assert rs != [];
    if !o.tuplesOnly && t.title.Some? {
      var title := t.title.value;
      FieldsFirst([title] + rs, sep);
      assert ([title] + rs)[1..] == rs;
      Assoc(title, sep, Fields(rs, sep));
      Assoc(title + sep, Fields(rs, sep), End(o));
    } else {
      Units(rs);
      Units(Fields(rs, sep) + End(o));
    }
  }

  /** The lines give the title, the headers, the rows and the footers in order; the default footer counts the rows. */
  predicate Tell(ls: seq<string>, t: Table, o: Options)
    requires SepText(o.fieldSep) != ""
  {
    var fsep, top := SepText(o.fieldSep), Top(t, o);
    && |ls| == top + |t.rows| + (if o.tuplesOnly then 0 else |ShownFooters(t, o)|)
    && (Titles(t, o) == 1 ==> ls[0] == t.title.value)
    && (!o.tuplesOnly ==> Split(ls[Titles(t, o)], fsep) == t.headers)
    && (forall i :: 0 <= i < |t.rows| ==> Split(ls[top + i], fsep) == t.rows[i])
    && (!o.tuplesOnly && t.footers != [] ==> ls[top + |t.rows|..] == t.footers)
    && (!o.tuplesOnly && t.footers == [] && o.defaultFooter ==>
          ReadCount(ls[top + |t.rows|]) == Some((|t.rows|, |t.rows| == 1)))
  }

  lemma LinesTell(t: Table, o: Options)
    requires Readable(t, o) && (!o.tuplesOnly || t.rows != [])
    ensures Tell(LinesOf(t, o), t, o)
  {
    hide Fields, Clear, SplitFrom, RowCount, ReadCount, LinesOf;
    var ls, fsep := LinesOf(t, o), SepText(o.fieldSep);
    LinesAre(t, o);
    FieldsRead(t.headers, fsep);
    forall i | 0 <= i < |t.rows| ensures Split(Fields(t.rows[i], fsep), fsep) == t.rows[i] { FieldsRead(t.rows[i], fsep); }
    CountReads(|t.rows|);
    if !o.tuplesOnly && t.footers == [] && o.defaultFooter {
      assert ls[Top(t, o) + |t.rows|] == ls[Top(t, o) + |t.rows|..][0];
    }
  }

  /** The printout of a table, cut at its separators, tells the table. */
  lemma PrintoutReads(t: Table, o: Options)
    requires Readable(t, o) && (!o.tuplesOnly || t.rows != [])
    ensures var text, end := Whole(t, o), if o.recordSep.zero then "\0" else "\n";
            && |text| >= |end| && text[|text| - |end|..] == end
            && Tell(Split(text[..|text| - |end|], SepText(o.recordSep)), t, o)
  {
    hide Fields, Clear, SplitFrom, LinesOf, Whole, Tell;
    var ls, rsep := LinesOf(t, o), SepText(o.recordSep);
    LinesAre(t, o);
    forall i | 0 <= i < |ls| ensures Clear(ls[i], rsep) { LinesClear(t, o, i); }
    WholeIsLines(t, o);
    FieldsRead(ls, rsep);
    Behind(Fields(ls, rsep), End(o));
    LinesTell(t, o);
  }
}
