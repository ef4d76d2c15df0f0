/**
  appendStringLiteral and appendStringLiteralDQ of tools/common/dumputils.cpp,
  against a reader of SQL literals.
 */
module Literals {
  import opened Basics
  import opened Buffers
  import opened Encoding
  import opened Quoting

  // ---------------------------------------------------------------------
  // Quoted literals

  /** What is doubled in a literal: quotes, and backslashes where they are escapes. */
  function LiteralMarks(std: bool): (m: Marks)
    ensures m.Plain()
  {
    Marks('\'', if std then '\0' else '\\')
  }

  /** How many bytes the last character of the text lacks. */
  function Missing(s: string, mblen: Mblen): (k: nat)
    decreases |s|
  {
    if s == "" then 0
    else if mblen(s) > |s| then mblen(s) - |s|
    else Missing(s[CharLen(mblen, s)..], mblen)
  }

  function Literal(s: string, pads: nat, std: bool, mblen: Mblen): (r: string) {
    "'" + (Doubled(s, LiteralMarks(std), mblen) + (Spaces(pads) + "'"))
  }

  /** The server's single-character escapes. */
  function Unescaped(c: char): char {
    match c
    case 'b' => 8 as char
    case 'f' => 12 as char
    case 'n' => '\n'
    case 'r' => '\r'
    case 't' => '\t'
    case _ => c
  }

  function Put(head: string, r: Option<(string, string)>): (r': Option<(string, string)>) {
    match r case None => None case Some((t, rest)) => Some((head + t, rest))
  }

  /** Reads a literal from behind its opening quote: its value and the text behind its closing quote. */
  function ReadLiteral(s: string, std: bool, mblen: Mblen): (r: Option<(string, string)>)
    decreases |s|
  {
    if s == "" then None
    else if s[0] == '\'' then
      if |s| > 1 && s[1] == '\'' then Put("'", ReadLiteral(s[2..], std, mblen)) else Some(("", s[1..]))
    else if s[0] == '\\' && !std then
      if |s| > 1 then Put([Unescaped(s[1])], ReadLiteral(s[2..], std, mblen)) else None
    else
      var m := CharLen(mblen, s);
      Put(s[..m], ReadLiteral(s[m..], std, mblen))
  }

  lemma ReadMark(c: char, tail: string, std: bool, mblen: Mblen)
    requires LiteralMarks(std).Is(c) && c != '\0'
    ensures ReadLiteral([c] + ([c] + tail), std, mblen) == Put([c], ReadLiteral(tail, std, mblen))
  {
    assert ([c] + ([c] + tail))[2..] == tail;
  }

  lemma ReadChar(t: string, tail: string, std: bool, mblen: Mblen)
    requires t != "" && !LiteralMarks(std).Is(t[0]) && CharLen(mblen, t + tail) == |t|
    ensures ReadLiteral(t + tail, std, mblen) == Put(t, ReadLiteral(tail, std, mblen))
  {
  }

  /** A literal of complete characters reads back as its source. */
  lemma {:induction false} ReadDoubled(s: string, rest: string, std: bool, mblen: Mblen)
    requires Extends(mblen) && WellFormed(mblen, s) && NoNul(s) && (rest == "" || rest[0] != '\'')
    ensures ReadLiteral(Doubled(s, LiteralMarks(std), mblen) + ("'" + rest), std, mblen) == Some((s, rest))
    decreases |s|
  {
    hide Doubled, ReadLiteral, CharLen, Extends;
    var marks := LiteralMarks(std);
    if s == "" {
      ReadEnd(rest, std, mblen);
    } else {
      var m := CharLen(mblen, s);
      var tail := Doubled(s[m..], marks, mblen) + ("'" + rest);
      DoubledChar(s, marks, mblen, "'" + rest);
      ReadRest(s, rest, std, mblen);
      if marks.Is(s[0]) {
        AsciiChar(mblen, s);
        assert s[..m] == [s[0]];
        ReadMark(s[0], tail, std, mblen);
      } else {
        CharThere(mblen, s, tail);
        ReadChar(s[..m], tail, std, mblen);
      }
      assert s[..m] + s[m..] == s;
    }
  }

  lemma ReadRest(s: string, rest: string, std: bool, mblen: Mblen)
    requires Extends(mblen) && WellFormed(mblen, s) && NoNul(s) && (rest == "" || rest[0] != '\'') && s != ""
    ensures var t := s[CharLen(mblen, s)..];
            ReadLiteral(Doubled(t, LiteralMarks(std), mblen) + ("'" + rest), std, mblen) == Some((t, rest))
    decreases |s|, 0
  {
    ReadDoubled(s[CharLen(mblen, s)..], rest, std, mblen);
  }

  lemma ReadEnd(rest: string, std: bool, mblen: Mblen)
    requires rest == "" || rest[0] != '\''
    ensures ReadLiteral(Doubled("", LiteralMarks(std), mblen) + ("'" + rest), std, mblen) == Some(("", rest))
  {
    Units("'" + rest);
    Behind("'", rest);
  }

  lemma {:induction false} NothingMissing(s: string, mblen: Mblen)
    ensures Missing(s, mblen) == 0 <==> WellFormed(mblen, s)
    decreases |s|
  {
    if s != "" && mblen(s) <= |s| { NothingMissing(s[CharLen(mblen, s)..], mblen); }
  }

  /** Behind its opening quote, the literal of a well-formed text reads back as that text. */
  lemma LiteralReadsBack(s: string, rest: string, std: bool, mblen: Mblen)
    requires Extends(mblen) && WellFormed(mblen, s) && NoNul(s) && (rest == "" || rest[0] != '\'')
    ensures Missing(s, mblen) == 0
    ensures ReadLiteral((Literal(s, 0, std, mblen) + rest)[1..], std, mblen) == Some((s, rest))
  {
    hide ReadLiteral, Doubled;
    NothingMissing(s, mblen);
    ReadDoubled(s, rest, std, mblen);
    var d := Doubled(s, LiteralMarks(std), mblen);
    assert Spaces(0) + "'" == "'";
    assert (Literal(s, 0, std, mblen) + rest)[1..] == d + ("'" + rest);
  }

  /** Pads an incomplete character, as far as there is room. */
  method Pad(a: array<char>, at: nat, missing: nat, ghost start: nat, ghost done: string) returns (pads: nat)
    requires start + |done| == at && HasBytes(a, start, done) && at < a.Length - 2
    modifies a
    ensures pads == if missing <= a.Length - 2 - at then missing else a.Length - 2 - at
    ensures HasBytes(a, start, done + Spaces(pads)) && SameOutside(a, at, at + pads)
  {
    pads := 0;
    while pads < missing && at + pads < a.Length - 2
      invariant 0 <= pads <= missing && at + pads <= a.Length - 2
      invariant HasBytes(a, start, done) && SameOutside(a, at, at + pads)
      invariant forall j :: at <= j < at + pads ==> a[j] == ' '
    {
      a[at + pads] := ' ';
      pads := pads + 1;
    }
  }

  /** What is written for the first character of a text. */
  function Piece(s: string, marks: Marks, mblen: Mblen): (r: string)
    requires s != ""
  {
    if Ascii(s[0]) then (if marks.Is(s[0]) then [s[0], s[0]] else [s[0]]) else s[..CharLen(mblen, s)]
  }

  lemma PieceFirst(done: string, s: string, marks: Marks, mblen: Mblen)
    requires Extends(mblen) && NoNul(s) && s != "" && marks.Plain()
    ensures var m := CharLen(mblen, s);
            && done + Doubled(s, marks, mblen) == done + Piece(s, marks, mblen) + Doubled(s[m..], marks, mblen)
            && |Piece(s, marks, mblen)| <= (if Ascii(s[0]) then 2 else m)
  {
    hide CharLen, Extends;
    var m := CharLen(mblen, s);
    if Ascii(s[0]) { AsciiChar(mblen, s); }
    assert (if marks.Is(s[0]) then [s[0]] else "") + s[..m] == Piece(s, marks, mblen);
    QuoteStep(done, s, {}, marks, mblen);
  }

  lemma MissingFirst(s: string, mblen: Mblen)
    requires Extends(mblen) && s != ""
    ensures Missing(s, mblen) == if mblen(s) > |s| then mblen(s) - |s| else Missing(s[mblen(s)..], mblen)
    ensures CharLen(mblen, s) == if mblen(s) > |s| then |s| else mblen(s)
    ensures mblen(s) >= 1 && (Ascii(s[0]) ==> mblen(s) == 1)
  {
  }

  lemma AllDone(done: string, marks: Marks, mblen: Mblen)
    ensures done + Doubled("", marks, mblen) == done && Missing("", mblen) == 0 && done + Spaces(0) == done
  {
  }

  /** Everything between the opening and the closing quote. */
  method AppendBody(a: array<char>, start: nat, str: string, std: bool, mblen: Mblen) returns (target: nat, pads: nat)
    requires Extends(mblen) && NoNul(str) && start + 2 * |str| + 3 <= a.Length && a[start] == '\''
    modifies a
    ensures var text := "'" + Doubled(str, LiteralMarks(std), mblen) + Spaces(pads);
            HasBytes(a, start, text) && target == start + |text| <= a.Length - 2
    ensures pads <= Missing(str, mblen) && (pads == 0 <==> Missing(str, mblen) == 0)
    ensures pads < Missing(str, mblen) ==> target == a.Length - 2
    ensures SameOutside(a, start + 1, target)
  {
    hide Doubled, Extends, CharLen, Missing, Spaces, Piece;
    var marks := LiteralMarks(std);
    var source := 0;
    pads, target := 0, start + 1;
    ghost var done := "'";
    assert str[0..] == str;
    while source < |str|
      invariant 0 <= source <= |str| && start + 1 <= start + |done| == target <= start + 1 + 2 * source
      invariant HasBytes(a, start, done) && SameOutside(a, start + 1, target)
      invariant "'" + Doubled(str, marks, mblen) == done + Doubled(str[source..], marks, mblen)
      invariant Missing(str, mblen) == Missing(str[source..], mblen)
    {
      var s := str[source..];
      PieceFirst(done, s, marks, mblen);
      MissingFirst(s, mblen);
      var len := mblen(s);
      target := Append(a, target, Piece(s, marks, mblen), start, done);
      done := done + Piece(s, marks, mblen);
      if len > |s| {
        assert s[|s|..] == "";
        AllDone(done, marks, mblen);
        pads := Pad(a, target, len - |s|, start, done);
        target := target + pads;
        return;
      }
      assert s[len..] == str[source + len..];
      source := source + len;
    }
    assert str[source..] == "";
    AllDone(done, marks, mblen);
  }

  /** With all its pads the text is no longer than twice its length. */
  predicate WithinEnlargement(str: string, std: bool, mblen: Mblen) {
    |Doubled(str, LiteralMarks(std), mblen)| + Missing(str, mblen) <= 2 * |str|
  }

  /** One byte of a four-byte character: with three pads the literal has six bytes, and the enlargement is four. */
  lemma PadsPassEnlargement(str: string, std: bool, mblen: Mblen)
    requires |str| == 1 && mblen(str) == 4 && !LiteralMarks(std).Is(str[0])
    ensures !WithinEnlargement(str, std, mblen) && |Literal(str, Missing(str, mblen), std, mblen)| == 6 > 2 * |str| + 2
  {
    var marks := LiteralMarks(std);
    assert CharLen(mblen, str) == 1 && str[1..] == "";
    assert Doubled(str[1..], marks, mblen) == "" && Doubled(str, marks, mblen) == str;
  }

  /** A text of complete characters is always within it. */
  lemma CompleteIsWithin(str: string, std: bool, mblen: Mblen)
    requires WellFormed(mblen, str)
    ensures WithinEnlargement(str, std, mblen)
  {
    NothingMissing(str, mblen);
    DoubledBound(str, LiteralMarks(std), mblen);
  }

  /**
    Appends the literal at `start` of a buffer that has been enlarged by twice
    the length of the text and two.  It is the whole literal; a last character
    that is incomplete is padded, with at least one space.
   */
  method AppendStringLiteral(a: array<char>, start: nat, str: string, std: bool, mblen: Mblen) returns (end: nat, pads: nat)
    requires Extends(mblen) && NoNul(str) && start + 2 * |str| + 3 <= a.Length
    modifies a
    ensures HasText(a, start, Literal(str, pads, std, mblen)) && end == start + |Literal(str, pads, std, mblen)|
    ensures pads <= Missing(str, mblen) && (pads == 0 <==> Missing(str, mblen) == 0)
    ensures pads < Missing(str, mblen) ==> end == a.Length - 1
    ensures SameOutside(a, start, end + 1)
    // within the enlargement, exactly when the padded text is or the buffer has nothing beyond it
    ensures end <= start + 2 * |str| + 2 <==> WithinEnlargement(str, std, mblen) || a.Length == start + 2 * |str| + 3
  {
    hide Doubled, Missing, Extends;
    var marks := LiteralMarks(std);
    a[start] := '\'';
    end, pads := AppendBody(a, start, str, std, mblen);
    a[end] := '\'';
    end := end + 1;
    a[end] := '\0';
    DoubledBound(str, marks, mblen);
    assert Literal(str, pads, std, mblen) == "'" + Doubled(str, marks, mblen) + Spaces(pads) + "'";
  }

  // ---------------------------------------------------------------------
  // Dollar-quoted literals

  predicate At(needle: string, s: string, i: nat) {
    i + |needle| <= |s| && forall k :: 0 <= k < |needle| ==> s[i + k] == needle[k]
  }

  /** strstr finds the needle. */
  predicate Occurs(needle: string, s: string) { exists i :: 0 <= i <= |s| && At(needle, s, i) }

  const SUFFIXES := "_XXXXXXX"

  /** The first n characters of the suffixes, over and over. */
  function Suffix(n: nat): (r: string) {
    if n == 0 then "" else Suffix(n - 1) + [SUFFIXES[(n - 1) % 8]]
  }

  /** The shortest delimiter, without its trailing dollar, that does not occur in the text. */
  ghost predicate Chosen(delim: string, prefix: string, str: string) {
    && !Occurs(delim, str)
    && exists n: nat :: delim == "$" + (prefix + Suffix(n)) && forall k: nat :: k < n ==> Occurs("$" + (prefix + Suffix(k)), str)
  }

  /** A tag without dollars; where a text quoted with it first shows the closing delimiter, it ends. */
  ghost predicate ReadsAs(text: string, value: string, rest: string) {
    exists tag :: '$' !in tag && ReadsWith(text, value, rest, "$" + (tag + "$"))
  }

  predicate ReadsWith(text: string, value: string, rest: string, delim: string) {
    text == delim + (value + (delim + rest)) && forall i :: 0 <= i < |value| ==> !At(delim, value + (delim + rest), i)
  }

  lemma {:induction false} SuffixPlain(n: nat)
    ensures |Suffix(n)| == n && '$' !in Suffix(n)
  {
    if n > 0 {
      SuffixPlain(n - 1);
      assert SUFFIXES[(n - 1) % 8] != '$';
    }
  }

  /** Met early, the closing delimiter is met within the text: it cannot reach across the end. */
  lemma EarlyIsInside(tag: string, str: string, rest: string, i: nat)
    requires '$' !in tag && i < |str|
    requires var d := "$" + (tag + "$"); At(d, str + (d + rest), i)
    ensures At("$" + tag, str, i)
  {
    var d := "$" + (tag + "$");
    var text, j := str + (d + rest), |str| - i;
    assert forall k :: 1 <= k <= |tag| ==> d[k] == tag[k - 1] && d[k] != '$';
    assert text[i + j] == '$' && (j < |d| ==> text[i + j] == d[j]);
    assert forall k :: 0 <= k < 1 + |tag| ==> ("$" + tag)[k] == d[k];
  }

  /** What is quoted with a chosen delimiter reads as itself, whatever follows. */
  lemma DollarReadsBack(str: string, delim: string, prefix: string, rest: string)
    requires '$' !in prefix && Chosen(delim, prefix, str)
    ensures ReadsAs(delim + "$" + (str + (delim + "$" + rest)), str, rest)
  {
    var n: nat :| delim == "$" + (prefix + Suffix(n));
    SuffixPlain(n);
    var tag := prefix + Suffix(n);
    var d := "$" + (tag + "$");
    assert d == delim + "$";
    forall i | 0 <= i < |str| ensures !At(d, str + (d + rest), i) {
      if At(d, str + (d + rest), i) { EarlyIsInside(tag, str, rest, i); }
    }
    assert ReadsWith(delim + "$" + (str + (delim + "$" + rest)), str, rest, d);
  }

  lemma NextSuffix(prefix: string, n: nat)
    ensures "$" + (prefix + Suffix(n + 1)) == "$" + (prefix + Suffix(n)) + [SUFFIXES[n % 8]]
  {
  }

  lemma OccursFits(needle: string, s: string)
    ensures Occurs(needle, s) ==> |needle| <= |s|
  {
  }

  /** The literal is appended to what the buffer holds. */
  method AppendStringLiteralDQ(buf: string, str: string, prefix: Option<string>) returns (out: string, delim: string)
    ensures Chosen(delim, if prefix.Some? then prefix.value else "", str)
    ensures out == buf + (delim + "$" + (str + (delim + "$")))
  {
    hide Occurs, Suffix;
    var nextchar := 0;
    ghost var dqprefix := if prefix.Some? then prefix.value else "";
    delim := "$";
    if prefix.Some? { delim := delim + prefix.value; }
    ghost var n: nat := 0;
    NoSuffix(dqprefix);
    while Occurs(delim, str)
      invariant delim == "$" + (dqprefix + Suffix(n)) && nextchar == n % 8
      invariant forall k: nat :: k < n ==> Occurs("$" + (dqprefix + Suffix(k)), str)
      decreases |str| - |delim|
    {
      OccursFits(delim, str);
      NextSuffix(dqprefix, n);
      delim := delim + [SUFFIXES[nextchar]];
      nextchar := (nextchar + 1) % 8;
      n := n + 1;
    }
    out := buf + (delim + "$" + (str + (delim + "$")));
  }

  lemma NoSuffix(prefix: string)
    ensures "$" + (prefix + Suffix(0)) == "$" + prefix && "$" + "" == "$"
  {
  }
}
