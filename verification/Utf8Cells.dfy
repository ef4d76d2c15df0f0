/**
  Cells in UTF-8: the lengths and widths of src/postgres/backend/utils/mb/wchar.cpp,
  and why a cell that has passed the filter of tools/pg_psql/mbprint.cpp has no
  control character with a long code.
 */
module Utf8Cells {
  import opened Basics
  import opened Buffers
  import opened Encoding
  import CellText
  import opened Utf8Filter

  // A byte as a character of a text, and back

  function CharOf(b: bv8): (c: char) { (b as int) as char }

  function ByteOf(c: char): (b: bv8) { if c < 256 as char then (c as int) as bv8 else 0 }

  lemma ByteOfChar(b: bv8)
    ensures ByteOf(CharOf(b)) == b
  {
    var n := b as int;
    assert CharOf(b) as int == n && n as bv8 == b;
  }

  function CharsOf(s: seq<bv8>): (t: string)
    ensures |t| == |s|
  {
    seq(|s|, i requires 0 <= i < |s| => CharOf(s[i]))
  }

  function BytesOf(t: string): (s: seq<bv8>)
    ensures |s| == |t|
  {
    seq(|t|, i requires 0 <= i < |t| => ByteOf(t[i]))
  }

  lemma BytesOfChars(s: seq<bv8>)
    ensures BytesOf(CharsOf(s)) == s
  {
    forall i | 0 <= i < |s| ensures BytesOf(CharsOf(s))[i] == s[i] { ByteOfChar(s[i]); }
  }

  /** pg_utf_mblen: the length that the first byte announces. */
  function Utf8Length(c: bv8): (n: nat)
    ensures n >= 1
  {
    if c & 0x80 == 0 then 1
    else if c & 0xe0 == 0xc0 then 2
    else if c & 0xf0 == 0xe0 then 3
    else if c & 0xf8 == 0xf0 then 4
    else 1
  }

  /** What ucs_wcwidth gives a negative width. */
  predicate Control(v: bv32) { (0 < v < 0x20) || 0x7f <= v < 0xa0 || v > 0x10ffff }

  /** The charset; `spacing` is the width of what is no control character. */
  function Utf8(spacing: bv32 -> nat): (cs: CellText.Charset) {
    CellText.Charset(
      (t: string) => Utf8Length(At(BytesOf(t), 0)),
      (t: string) => (var v := Decode(BytesOf(t)); if Control(v) then -1 else spacing(v) as int),
      (t: string) => Decode(BytesOf(t)) as nat,
      true)
  }

  lemma ShortNumber(v: bv32)
    requires Control(v) && v <= 0x10ffff
    ensures v as nat <= 0xFFFF
  {
    assert v < 0xa0;
  }

  /** The first byte of an encoding announces its length. */
  lemma EncodedAnnounced(v: bv32)
    requires v <= 0x10ffff
    ensures Utf8Length(Encode(v)[0]) == |Encode(v)|
  {
  }

  /** A character in front of more text, as the charset sees it. */
  lemma CharInFront(v: bv32, rest: seq<bv8>, spacing: bv32 -> nat)
    requires Allowed(v)
    ensures var cs, t := Utf8(spacing), CharsOf(Encode(v) + rest);
            && t != "" && CharLen(cs.mblen, t) == |Encode(v)| && t[|Encode(v)|..] == CharsOf(rest)
            && (cs.dsplen(t) < 0 ==> cs.code(t) <= 0xFFFF)
  {
    hide Encode, Decode, CharCheck, Allowed, Utf8Length, Control, CharOf, ByteOf;
    WithinPlanes(v);
    var s := Encode(v) + rest;
    EncodedIsAccepted(v, rest);
    EncodedAnnounced(v);
    EncodedLength(v);
    BytesOfChars(s);
    if Control(v) { ShortNumber(v); }
  }

  lemma WithinPlanes(v: bv32)
    requires Allowed(v)
    ensures 0 < v <= 0x10ffff
  {
  }

  lemma {:induction false} TextHasShortCodes(vs: seq<bv32>, spacing: bv32 -> nat)
    requires AllAllowed(vs)
    ensures CellText.ShortCodes(Utf8(spacing), CharsOf(EncodeAll(vs)))
  {
    hide Encode, Allowed, Utf8, CharLen, CharOf;
    if vs != [] {
      TextHasShortCodes(vs[1..], spacing);
      CharInFront(vs[0], EncodeAll(vs[1..]), spacing);
    }
  }

  /**
    Every cell is filtered before it is measured and formatted, so no cell has a
    long code: the counted size is all that the writes touch.
   */
  lemma FilteredCellsStayInside(s: seq<bv8>, spacing: bv32 -> nat)
    requires Lacks(s, 0)
    ensures var cs, t := Utf8(spacing), CharsOf(Validated(s));
            CellText.ShortCodes(cs, t) && CellText.Touched(cs, t, 0) == CellText.Counted(cs, t, 0)
  {
    hide Validated, Codes, EncodeAll, CellText.ShortCodes, CellText.LongCodesFit;
    ValidatedIsText(s);
    TextHasShortCodes(Codes(s), spacing);
    CellText.ShortCodesFit(Utf8(spacing), CharsOf(Validated(s)), 0);
    CellText.TouchedCounted(Utf8(spacing), CharsOf(Validated(s)), 0);
  }
}
