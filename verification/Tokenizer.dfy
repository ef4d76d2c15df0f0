/**
  strtokx of tools/pg_psql/stringutils.cpp: a tokenizer that keeps its own copy of
  the text between calls and ends each token by writing a NUL into that copy,
  moving the rest of the text up where there is no room for one.
 */
module Tokenizer {
  import opened Basics
  import opened Buffers
  import opened Encoding
  import opened Quoting

  /** The arguments of a call, apart from the whitespace; an absent set is empty. */
  datatype Rules = Rules(delim: set<char>, quote: set<char>, escape: char, eStrings: bool)

  // ---------------------------------------------------------------------
  // A tokenizer on values

  function Skip(s: string, ws: set<char>): (r: string)
    ensures |r| <= |s| && (r != "" ==> r[0] !in ws)
  {
    if s != "" && s[0] in ws then Skip(s[1..], ws) else s
  }

  /** The length of the longest front of s with no character in the set. */
  function Span(s: string, stop: set<char>): (n: nat)
    ensures n <= |s| && (forall i :: 0 <= i < n ==> s[i] !in stop) && (n < |s| ==> s[n] in stop)
  {
    if s == "" || s[0] in stop then 0 else 1 + Span(s[1..], stop)
  }

  /** How much of t, the text behind an opening quote, still belongs to the token. */
  function QuotedLen(t: string, marks: Marks, mblen: Mblen): (n: nat)
    ensures n <= |t|
    decreases |t|
  {
    if t == "" then 0
    else if |t| > 1 && (t[0] == marks.escape || (t[0] == marks.quote && t[1] == marks.quote)) then
      var m := 1 + CharLen(mblen, t[1..]);
      m + QuotedLen(t[m..], marks, mblen)
    else if t[0] == marks.quote then 1
    else
      var m := CharLen(mblen, t);
      m + QuotedLen(t[m..], marks, mblen)
  }

  predicate IsEString(s: string, rules: Rules) {
    rules.eStrings && |s| > 1 && (s[0] == 'E' || s[0] == 'e') && s[1] == '\''
  }

  /** The quote character that opens the token at the front of s, and the escape in force, if it is quoted. */
  function Opening(s: string, rules: Rules): (r: Option<(nat, Marks)>)
    requires s != ""
    ensures r.Some? ==> r.value.0 < |s|
  {
    if IsEString(s, rules) then Some((1, Marks('\'', '\\')))
    else if s[0] in rules.quote then Some((0, Marks(s[0], rules.escape)))
    else None
  }

  function TokenLen(s: string, ws: set<char>, rules: Rules, mblen: Mblen): (n: nat)
    requires s != "" && s[0] !in ws
    ensures 1 <= n <= |s|
  {
    if s[0] in rules.delim then 1
    else match Opening(s, rules)
      case Some((p, marks)) => p + 1 + QuotedLen(s[p + 1..], marks, mblen)
      case None => Span(s, ws + rules.delim + rules.quote)
  }

  /** One call: the token and the text that is left for the next call; None at the end. */
  function NextToken(s: string, ws: set<char>, rules: Rules, mblen: Mblen): (r: Option<(string, string)>) {
    var body := Skip(s, ws);
    if body == "" then None
    else
      var n := TokenLen(body, ws, rules, mblen);
      Some((body[..n], body[n..]))
  }

  // ---------------------------------------------------------------------
  // Nothing is lost between the calls

  /** A token with the whitespace skipped in front of it. */
  datatype Piece = Piece(gap: string, token: string)

  /** A sequence of calls, each with its own rules: the pieces they found and the text they left. */
  function Calls(s: string, ws: set<char>, calls: seq<Rules>, mblen: Mblen): (r: (seq<Piece>, string))
    decreases |calls|
  {
    if calls == [] then ([], s)
    else match NextToken(s, ws, calls[0], mblen)
      case None => ([], s)
      case Some((token, rest)) =>
        var (pieces, left) := Calls(rest, ws, calls[1..], mblen);
        ([Piece(s[..|s| - |Skip(s, ws)|], token)] + pieces, left)
  }

  function Joined(pieces: seq<Piece>): (r: string) {
    if pieces == [] then "" else pieces[0].gap + (pieces[0].token + Joined(pieces[1..]))
  }

  predicate Good(pieces: seq<Piece>, ws: set<char>) {
    forall i :: 0 <= i < |pieces| ==> pieces[i].token != "" && AllIn(pieces[i].gap, ws)
  }

  lemma JoinedCons(p: Piece, pieces: seq<Piece>, left: string)
    ensures Joined([p] + pieces) + left == p.gap + (p.token + (Joined(pieces) + left))
  {
  }

  predicate AllIn(s: string, ws: set<char>) { forall i :: 0 <= i < |s| ==> s[i] in ws }

  lemma {:induction false} SkipSplits(s: string, ws: set<char>)
    ensures var k := |s| - |Skip(s, ws)|; s[k..] == Skip(s, ws) && AllIn(s[..k], ws)
  {
    if s != "" && s[0] in ws {
      SkipSplits(s[1..], ws);
      var k := |s| - |Skip(s, ws)|;
      assert s[k..] == s[1..][k - 1..];
      assert s[..k] == [s[0]] + s[1..][..k - 1];
    }
  }

  /** The tokens, the whitespace skipped and the text left make up the text in order; no token is empty. */
  lemma {:induction false} CallsReassemble(s: string, ws: set<char>, calls: seq<Rules>, mblen: Mblen)
    ensures var (pieces, left) := Calls(s, ws, calls, mblen);
            && Joined(pieces) + left == s
            && Good(pieces, ws)
            && (|pieces| < |calls| ==> AllIn(left, ws))
    decreases |calls|
  {
    hide TokenLen, Skip, Joined, AllIn, Calls, Good;
    CallsFirst(s, ws, calls, mblen);
    var body := Skip(s, ws);
    if calls != [] && body != "" {
      var n := TokenLen(body, ws, calls[0], mblen);
      CallsReassemble(body[n..], ws, calls[1..], mblen);
      var (pieces, left) := Calls(body[n..], ws, calls[1..], mblen);
      PieceFirst(s, ws, n, pieces, left);
    } else {
      NoPieces(s, ws);
    }
  }

  /** A piece in front of others. */
  lemma PieceFirst(s: string, ws: set<char>, n: nat, pieces: seq<Piece>, left: string)
    requires 0 < n <= |Skip(s, ws)| && Joined(pieces) + left == Skip(s, ws)[n..] && Good(pieces, ws)
    ensures var body := Skip(s, ws);
            var all := [Piece(s[..|s| - |body|], body[..n])] + pieces;
            Joined(all) + left == s && Good(all, ws)
  {
    hide Skip, Joined, AllIn;
    var body := Skip(s, ws);
    var gap := s[..|s| - |body|];
    SkipSplits(s, ws);
    JoinedCons(Piece(gap, body[..n]), pieces, left);
    assert body == body[..n] + body[n..];
  }

  lemma NoPieces(s: string, ws: set<char>)
    ensures Joined([]) + s == s && Good([], ws) && (Skip(s, ws) == "" ==> AllIn(s, ws))
  {
    hide Skip;
    SkipSplits(s, ws);
    Units(s);
    assert s[..|s|] == s;
  }

  lemma CallsFirst(s: string, ws: set<char>, calls: seq<Rules>, mblen: Mblen)
    ensures var body := Skip(s, ws);
            Calls(s, ws, calls, mblen) ==
            if calls == [] || body == "" then ([], s)
            else
              var n := TokenLen(body, ws, calls[0], mblen);
              var (pieces, left) := Calls(body[n..], ws, calls[1..], mblen);
              ([Piece(s[..|s| - |body|], body[..n])] + pieces, left)
  {
  }

  // ---------------------------------------------------------------------
  // A quoted text is one token

  /** The closing quote is not taken for a mark of what is behind it. */
  predicate Stands(marks: Marks, tail: string) {
    tail == "" || (marks.escape != marks.quote && tail[0] != marks.quote)
  }

  /** The doubled text, the closing quote and anything behind it. */
  lemma {:induction false} QuotedLenOf(s: string, marks: Marks, mblen: Mblen, tail: string)
    requires Extends(mblen) && WellFormed(mblen, s) && marks.Plain() && NoNul(s)
    ensures var n := QuotedLen(Doubled(s, marks, mblen) + ([marks.quote] + tail), marks, mblen);
            if Stands(marks, tail) then n == |Doubled(s, marks, mblen)| + 1
            else n > |Doubled(s, marks, mblen)| + 1
    decreases |s|
  {
    hide CharLen, Doubled;
    var close := [marks.quote] + tail;
    if s == "" {
      DoubledNothing(marks, mblen);
      Units(close);
      assert tail != "" ==> close[1] == tail[0];
    } else {
      var m := CharLen(mblen, s);
      var char_, more := s[..m], Doubled(s[m..], marks, mblen) + close;
      QuotedLenRest(s, marks, mblen, tail);
      DoubledChar(s, marks, mblen, close);
      DoubledSize(s, marks, mblen);
      CharThere(mblen, s, more);
      if marks.Is(s[0]) { AsciiChar(mblen, s); }
      QuotedLenChar(s[0], char_, more, marks, mblen);
    }
  }

  lemma QuotedLenRest(s: string, marks: Marks, mblen: Mblen, tail: string)
    requires Extends(mblen) && WellFormed(mblen, s) && marks.Plain() && NoNul(s) && s != ""
    ensures var d := Doubled(s[CharLen(mblen, s)..], marks, mblen);
            var n := QuotedLen(d + ([marks.quote] + tail), marks, mblen);
            if Stands(marks, tail) then n == |d| + 1 else n > |d| + 1
    decreases |s|, 0
  {
    QuotedLenOf(s[CharLen(mblen, s)..], marks, mblen, tail);
  }

  lemma DoubledNothing(marks: Marks, mblen: Mblen)
    ensures Doubled("", marks, mblen) == ""
  {
  }

  lemma DoubledSize(s: string, marks: Marks, mblen: Mblen)
    requires s != ""
    ensures var m := CharLen(mblen, s);
            |Doubled(s, marks, mblen)| == (if marks.Is(s[0]) then 1 else 0) + m + |Doubled(s[m..], marks, mblen)|
  {
  }

  lemma QuotedLenMark(c: char, more: string, marks: Marks, mblen: Mblen)
    requires marks.Is(c) && more != "" && CharLen(mblen, [c] + more) == 1
    ensures QuotedLen([c] + ([c] + more), marks, mblen) == 2 + QuotedLen(more, marks, mblen)
  {
    hide CharLen;
    var text := [c] + ([c] + more);
    Behind([c], [c] + more);
    assert text[1] == c && text[2..] == more;
  }

  lemma QuotedLenOther(char_: string, more: string, marks: Marks, mblen: Mblen)
    requires char_ != "" && !marks.Is(char_[0]) && CharLen(mblen, char_ + more) == |char_|
    ensures QuotedLen(char_ + more, marks, mblen) == |char_| + QuotedLen(more, marks, mblen)
  {
    hide CharLen;
    Behind(char_, more);
    assert (char_ + more)[0] == char_[0];
  }

  /** A doubled mark, or any other character, is stepped over whole. */
  lemma QuotedLenChar(c: char, char_: string, more: string, marks: Marks, mblen: Mblen)
    requires char_ != "" && more != "" && char_[0] == c && CharLen(mblen, char_ + more) == |char_|
    requires marks.Is(c) ==> |char_| == 1
    ensures var text := if marks.Is(c) then [c] + (char_ + more) else char_ + more;
            QuotedLen(text, marks, mblen) == |text| - |more| + QuotedLen(more, marks, mblen)
  {
    hide CharLen, QuotedLen;
    if marks.Is(c) {
      assert char_ == [c];
      QuotedLenMark(c, more, marks, mblen);
    } else {
      QuotedLenOther(char_, more, marks, mblen);
    }
  }

  /**
    A quoted text is read as exactly one token, whatever is behind it, if and
    only if it ends the input, or escape and quote differ and no quote follows.
   */
  lemma QuotedIsOneToken(s: string, marks: Marks, mblen: Mblen, tail: string, ws: set<char>, rules: Rules)
    requires Extends(mblen) && WellFormed(mblen, s) && marks.Plain() && NoNul(s)
    requires marks.quote in rules.quote && marks.quote !in rules.delim && marks.quote !in ws
    requires rules.escape == marks.escape && !(rules.eStrings && (marks.quote == 'E' || marks.quote == 'e'))
    ensures var quoted := Quoted(s, marks, mblen);
            NextToken(quoted + tail, ws, rules, mblen) == Some((quoted, tail)) <==>
            Stands(marks, tail)
  {
    hide QuotedLen, CharLen, Doubled;
    var body := Doubled(s, marks, mblen) + [marks.quote];
    var quoted := [marks.quote] + body;
    QuotedLenOf(s, marks, mblen, tail);
    Assoc([marks.quote], body, tail);
    Assoc(Doubled(s, marks, mblen), [marks.quote], tail);
    Behind([marks.quote], body + tail);
    Behind(quoted, tail);
    assert Skip(quoted + tail, ws) == quoted + tail;
  }

  // ---------------------------------------------------------------------
  // What a token is

  /** What stands between quotes: a mark with the character it protects, or any other character. */
  datatype Unit = Pair(mark: char, char_: string) | One(char_: string)

  function UnitText(u: Unit): (r: string) {
    match u case Pair(m, c) => [m] + c case One(c) => c
  }

  function UnitTexts(us: seq<Unit>): (r: string) {
    if us == [] then "" else UnitText(us[0]) + UnitTexts(us[1..])
  }

  /** An escape protects any character and a quote protects a quote; an escape stands alone only at the very end. */
  predicate UnitFits(u: Unit, after: string, marks: Marks, mblen: Mblen) {
    && u.char_ != "" && CharLen(mblen, u.char_ + after) == |u.char_|
    && match u
       case Pair(m, c) => m == marks.escape || (m == marks.quote && c[0] == marks.quote)
       case One(c) => c[0] != marks.quote && (c[0] == marks.escape ==> |c + after| == 1)
  }

  predicate UnitsFit(us: seq<Unit>, after: string, marks: Marks, mblen: Mblen) {
    us == [] || (UnitFits(us[0], UnitTexts(us[1..]) + after, marks, mblen) && UnitsFit(us[1..], after, marks, mblen))
  }

  /** The body of a quoted token: up to the first quote that is neither escaped nor doubled, or to the end of the text. */
  ghost predicate QuotedBody(body: string, rest: string, marks: Marks, mblen: Mblen) {
    exists us ::
      if rest == "" && body == UnitTexts(us) then UnitsFit(us, "", marks, mblen)
      else body == UnitTexts(us) + [marks.quote] && UnitsFit(us, [marks.quote] + rest, marks, mblen) && Stands(marks, rest)
  }

  /** The four kinds of token, in front of the rest of the text. */
  ghost predicate IsToken(tok: string, rest: string, ws: set<char>, rules: Rules, mblen: Mblen) {
    var text := tok + rest;
    tok != "" && tok[0] !in ws &&
    if tok[0] in rules.delim then |tok| == 1
    else if rules.eStrings && tok[0] in {'E', 'e'} && |text| > 1 && text[1] == '\'' then
      |tok| > 1 && QuotedBody(tok[2..], rest, Marks('\'', '\\'), mblen)
    else if tok[0] in rules.quote then QuotedBody(tok[1..], rest, Marks(tok[0], rules.escape), mblen)
    else
      && (forall i :: 0 <= i < |tok| ==> tok[i] !in ws && tok[i] !in rules.delim && tok[i] !in rules.quote)
      && (rest != "" ==> rest[0] in ws || rest[0] in rules.delim || rest[0] in rules.quote)
  }

  /** Whitespace, a token and the rest make up the text. */
  ghost predicate Found(s: string, tok: string, rest: string, ws: set<char>, rules: Rules, mblen: Mblen) {
    IsToken(tok, rest, ws, rules, mblen) && exists gap :: AllIn(gap, ws) && s == gap + (tok + rest)
  }

  lemma UnitFirst(u: Unit, after: string, marks: Marks, mblen: Mblen)
    requires UnitFits(u, after, marks, mblen)
    ensures QuotedLen(UnitText(u) + after, marks, mblen) == |UnitText(u)| + QuotedLen(after, marks, mblen)
  {
    hide CharLen;
    var t := UnitText(u) + after;
    Behind(UnitText(u), after);
    if u.Pair? {
      assert t[1..] == u.char_ + after && t[1] == u.char_[0];
    } else {
      assert t == u.char_ + after && t[0] == u.char_[0];
    }
  }

  lemma {:induction false} UnitsThrough(us: seq<Unit>, after: string, marks: Marks, mblen: Mblen)
    requires UnitsFit(us, after, marks, mblen)
    ensures QuotedLen(UnitTexts(us) + after, marks, mblen) == |UnitTexts(us)| + QuotedLen(after, marks, mblen)
  {
    hide QuotedLen, UnitFits, UnitText;
    if us == [] {
      Units(after);
    } else {
      UnitsThrough(us[1..], after, marks, mblen);
      UnitFirst(us[0], UnitTexts(us[1..]) + after, marks, mblen);
      Assoc(UnitText(us[0]), UnitTexts(us[1..]), after);
    }
  }

  lemma CloseHere(marks: Marks, mblen: Mblen, tail: string)
    requires Stands(marks, tail)
    ensures QuotedLen([marks.quote] + tail, marks, mblen) == 1 && QuotedLen("", marks, mblen) == 0
  {
    var t := [marks.quote] + tail;
    assert t[0] == marks.quote && (tail != "" ==> t[1] == tail[0]);
  }

  /** A quoted body is what the scan steps over. */
  lemma BodyIsScanned(body: string, rest: string, marks: Marks, mblen: Mblen)
    requires QuotedBody(body, rest, marks, mblen)
    ensures QuotedLen(body + rest, marks, mblen) == |body|
  {
    hide QuotedLen, UnitsFit, UnitTexts;
    var us :|
      if rest == "" && body == UnitTexts(us) then UnitsFit(us, "", marks, mblen)
      else body == UnitTexts(us) + [marks.quote] && UnitsFit(us, [marks.quote] + rest, marks, mblen) && Stands(marks, rest);
    CloseHere(marks, mblen, "");
    if rest == "" && body == UnitTexts(us) {
      UnitsThrough(us, "", marks, mblen);
    } else {
      CloseHere(marks, mblen, rest);
      UnitsThrough(us, [marks.quote] + rest, marks, mblen);
      Assoc(UnitTexts(us), [marks.quote], rest);
    }
  }

  /** The unit at the front of a text that does not begin with the closing quote. */
  lemma FirstUnit(t: string, marks: Marks, mblen: Mblen) returns (u: Unit, after: string)
    requires t != "" && !(t[0] == marks.quote && Stands(marks, t[1..]))
    ensures UnitFits(u, after, marks, mblen) && t == UnitText(u) + after && |after| < |t|
  {
    hide CharLen;
    if |t| > 1 && (t[0] == marks.escape || (t[0] == marks.quote && t[1] == marks.quote)) {
      var m := CharLen(mblen, t[1..]);
      u, after := Pair(t[0], t[1..][..m]), t[1..][m..];
      assert t[1..] == u.char_ + after && t == [t[0]] + t[1..];
      Assoc([t[0]], u.char_, after);
    } else {
      var m := CharLen(mblen, t);
      u, after := One(t[..m]), t[m..];
      assert t == u.char_ + after;
    }
  }

  lemma UnitsCons(u: Unit, us: seq<Unit>, after: string, marks: Marks, mblen: Mblen)
    requires UnitsFit(us, after, marks, mblen) && UnitFits(u, UnitTexts(us) + after, marks, mblen)
    ensures UnitsFit([u] + us, after, marks, mblen) && UnitTexts([u] + us) == UnitText(u) + UnitTexts(us)
  {
    assert ([u] + us)[1..] == us;
  }

  /** Every text splits into units, up to the closing quote or the end. */
  lemma {:induction false} UnitsOf(t: string, marks: Marks, mblen: Mblen)
    returns (us: seq<Unit>, closed: bool, tail: string)
    ensures UnitsFit(us, if closed then [marks.quote] + tail else "", marks, mblen) && (closed ==> Stands(marks, tail))
    ensures t == UnitTexts(us) + (if closed then [marks.quote] + tail else "")
    decreases |t|
  {
    hide UnitFits, UnitText;
    if t == "" {
      us, closed, tail := [], false, "";
    } else if t[0] == marks.quote && Stands(marks, t[1..]) {
      us, closed, tail := [], true, t[1..];
      assert t == [t[0]] + t[1..];
      Units(t);
    } else {
      var u, after := FirstUnit(t, marks, mblen);
      us, closed, tail := UnitsOf(after, marks, mblen);
      var end := if closed then [marks.quote] + tail else "";
      UnitsCons(u, us, end, marks, mblen);
      Assoc(UnitText(u), UnitTexts(us), end);
      us := [u] + us;
    }
  }

  /** What the scan steps over is a quoted body. */
  lemma ScannedIsBody(t: string, marks: Marks, mblen: Mblen)
    ensures var n := QuotedLen(t, marks, mblen); QuotedBody(t[..n], t[n..], marks, mblen)
  {
    hide QuotedLen, UnitsFit, UnitTexts;
    var us, closed, tail := UnitsOf(t, marks, mblen);
    CloseHere(marks, mblen, "");
    if closed {
      UnitsThrough(us, [marks.quote] + tail, marks, mblen);
      CloseHere(marks, mblen, tail);
      Assoc(UnitTexts(us), [marks.quote], tail);
      Behind(UnitTexts(us) + [marks.quote], tail);
    } else {
      UnitsThrough(us, "", marks, mblen);
      Units(UnitTexts(us));
      assert t[..|t|] == t && t[|t|..] == "";
    }
  }

  lemma TokenIsCut(body: string, ws: set<char>, rules: Rules, mblen: Mblen)
    requires body != "" && body[0] !in ws
    ensures var n := TokenLen(body, ws, rules, mblen); IsToken(body[..n], body[n..], ws, rules, mblen)
  {
    hide QuotedLen, QuotedBody;
    var n := TokenLen(body, ws, rules, mblen);
    assert body[..n] + body[n..] == body;
    if body[0] !in rules.delim {
      match Opening(body, rules)
      case Some((p, marks)) =>
        ScannedIsBody(body[p + 1..], marks, mblen);
        assert body[p + 1..][..n - p - 1] == body[..n][p + 1..] && body[p + 1..][n - p - 1..] == body[n..];
      case None =>
    }
  }

  lemma {:induction false} SpanEnds(tok: string, rest: string, stop: set<char>)
    requires (forall i :: 0 <= i < |tok| ==> tok[i] !in stop) && (rest != "" ==> rest[0] in stop)
    ensures Span(tok + rest, stop) == |tok|
  {
    if tok == "" {
      Units(rest);
    } else {
      SpanEnds(tok[1..], rest, stop);
      assert (tok + rest)[1..] == tok[1..] + rest;
    }
  }

  lemma CutIsToken(tok: string, rest: string, ws: set<char>, rules: Rules, mblen: Mblen)
    requires IsToken(tok, rest, ws, rules, mblen)
    ensures TokenLen(tok + rest, ws, rules, mblen) == |tok|
  {
    hide QuotedLen, QuotedBody;
    var body := tok + rest;
    if body[0] !in rules.delim {
      match Opening(body, rules)
      case Some((p, marks)) =>
        assert body[p + 1..] == tok[p + 1..] + rest;
        BodyIsScanned(tok[p + 1..], rest, marks, mblen);
      case None => SpanEnds(tok, rest, ws + rules.delim + rules.quote);
    }
  }

  lemma {:induction false} SkipGap(gap: string, t: string, ws: set<char>)
    requires AllIn(gap, ws) && t != "" && t[0] !in ws
    ensures Skip(gap + t, ws) == t
  {
    if gap == "" {
      Units(t);
    } else {
      SkipGap(gap[1..], t, ws);
      assert (gap + t)[1..] == gap[1..] + t;
    }
  }

  /** A call finds exactly the token that stands behind the whitespace; there is none only in whitespace. */
  lemma NextTokenIs(s: string, tok: string, rest: string, ws: set<char>, rules: Rules, mblen: Mblen)
    ensures NextToken(s, ws, rules, mblen) == Some((tok, rest)) <==> Found(s, tok, rest, ws, rules, mblen)
    ensures NextToken(s, ws, rules, mblen).None? <==> AllIn(s, ws)
  {
    hide TokenLen, Skip, AllIn, IsToken;
    SkipSplits(s, ws);
    var body, k := Skip(s, ws), |s| - |Skip(s, ws)|;
    assert s == s[..k] + s[k..];
    if body == "" {
      assert s[..k] == s;
    } else {
      NotAll(s, k, ws);
      TokenIsCut(body, ws, rules, mblen);
      var n := TokenLen(body, ws, rules, mblen);
      assert body == body[..n] + body[n..];
    }
    if Found(s, tok, rest, ws, rules, mblen) {
      var gap :| AllIn(gap, ws) && s == gap + (tok + rest);
      TokenStarts(tok, rest, ws, rules, mblen);
      SkipGap(gap, tok + rest, ws);
      CutIsToken(tok, rest, ws, rules, mblen);
      Behind(tok, rest);
    }
  }

  lemma NotAll(s: string, k: nat, ws: set<char>)
    requires k < |s| && s[k] !in ws
    ensures !AllIn(s, ws)
  {
  }

  lemma TokenStarts(tok: string, rest: string, ws: set<char>, rules: Rules, mblen: Mblen)
    requires IsToken(tok, rest, ws, rules, mblen)
    ensures tok != "" && tok + rest != "" && (tok + rest)[0] !in ws
  {
  }

  // ---------------------------------------------------------------------
  // What stripping leaves of a quoted token

  /** The characters that the units stand for. */
  function Meant(us: seq<Unit>): (r: string) { if us == [] then "" else us[0].char_ + Meant(us[1..]) }

  /** A unit means its character whatever comes behind it, as long as something does. */
  lemma UnitAnywhere(u: Unit, after: string, after': string, marks: Marks, mblen: Mblen)
    requires Extends(mblen) && UnitFits(u, after, marks, mblen) && after != "" && after' != ""
    ensures CharLen(mblen, u.char_ + after') == |u.char_|
  {
    var t := u.char_ + after;
    assert mblen(t) == |u.char_| && t[..mblen(t)] == u.char_;
  }

  lemma UnitStripped(u: Unit, after: string, more: string, marks: Marks, mblen: Mblen)
    requires Extends(mblen) && UnitFits(u, after, marks, mblen) && after != "" && more != ""
    ensures StrippedBody(UnitText(u) + more, marks, mblen) == u.char_ + StrippedBody(more, marks, mblen)
  {
    hide CharLen, StrippedBody;
    UnitAnywhere(u, after, more, marks, mblen);
    assert u.One? ==> |u.char_ + after| > 1;
    var mark := if u.Pair? then [u.mark] else "";
    Assoc(mark, u.char_, more);
    Units(u.char_ + more);
    var t := mark + (u.char_ + more);
    assert t[|mark|] == u.char_[0];
    StripChar(mark, u.char_, more, marks, mblen);
  }

  /** The characters between the quotes are left, each without the mark that protected it. */
  lemma {:induction false} UnitsStripped(us: seq<Unit>, rest: string, marks: Marks, mblen: Mblen)
    requires Extends(mblen) && UnitsFit(us, [marks.quote] + rest, marks, mblen)
    ensures StrippedBody(UnitTexts(us) + [marks.quote], marks, mblen) == Meant(us)
  {
    hide UnitFits, UnitText;
    if us == [] {
      Units([marks.quote]);
    } else {
      hide StrippedBody;
      var more := UnitTexts(us[1..]) + [marks.quote];
      UnitsStripped(us[1..], rest, marks, mblen);
      UnitStripped(us[0], UnitTexts(us[1..]) + ([marks.quote] + rest), more, marks, mblen);
      Assoc(UnitText(us[0]), UnitTexts(us[1..]), [marks.quote]);
    }
  }

  /** With the quotes around it: what a caller gets, with the quotes left in place or removed. */
  lemma HandedOut(us: seq<Unit>, rest: string, q: char, rules: Rules, mblen: Mblen)
    requires Extends(mblen) && q in rules.quote && q !in rules.delim && !(rules.eStrings && q in {'E', 'e'})
    requires UnitsFit(us, [q] + rest, Marks(q, rules.escape), mblen)
    ensures var tok := [q] + (UnitTexts(us) + [q]);
            && Cleaned(tok, MarksOf(tok + rest, rules), true, mblen) == Meant(us)
            && Cleaned(tok, MarksOf(tok + rest, rules), false, mblen) == tok
  {
    hide StrippedBody;
    var tok := [q] + (UnitTexts(us) + [q]);
    Behind([q], UnitTexts(us) + [q]);
    UnitsStripped(us, rest, Marks(q, rules.escape), mblen);
    assert (tok + rest)[0] == q;
  }

  // ---------------------------------------------------------------------
  // Scanning the buffer

  method SkipWhite(a: array<char>, p: nat, ws: set<char>, ghost t: string) returns (q: nat)
    requires HasText(a, p, t) && '\0' !in ws
    ensures HasText(a, q, Skip(t, ws)) && q == p + |t| - |Skip(t, ws)|
  {
    hide Skip;
    q := p;
    assert t[0..] == t;
    while a[q] in ws
      invariant p <= q <= p + |t| && Skip(t[q - p..], ws) == Skip(t, ws)
      decreases p + |t| - q
    {
      SkipAt(t, q - p, ws);
      q := q + 1;
    }
    SkipAt(t, q - p, ws);
    TextFrom(a, p, t, q - p);
  }

  lemma SkipAt(t: string, k: nat, ws: set<char>)
    requires k <= |t|
    ensures k < |t| && t[k] in ws ==> Skip(t[k + 1..], ws) == Skip(t[k..], ws)
    ensures !(k < |t| && t[k] in ws) ==> Skip(t[k..], ws) == t[k..]
  {
  }

  /** strcspn over all the stop sets at once. */
  method SpanTo(a: array<char>, p: nat, stop: set<char>, ghost t: string) returns (q: nat)
    requires HasText(a, p, t)
    ensures q == p + Span(t, stop)
  {
    q := p;
    while a[q] != '\0' && a[q] !in stop
      invariant p <= q <= p + |t|
      invariant forall i :: 0 <= i < q - p ==> t[i] !in stop
      decreases p + |t| - q
    {
      q := q + 1;
    }
    SpanIs(t, stop, q - p);
  }

  lemma SpanIs(t: string, stop: set<char>, n: nat)
    requires n <= |t| && (forall i :: 0 <= i < n ==> t[i] !in stop) && (n < |t| ==> t[n] in stop)
    ensures Span(t, stop) == n
  {
  }

  lemma QuoteStep(t: string, marks: Marks, mblen: Mblen)
    requires t != ""
    ensures QuotedLen(t, marks, mblen) ==
            if |t| > 1 && (t[0] == marks.escape || (t[0] == marks.quote && t[1] == marks.quote)) then
              var m := CharLen(mblen, t[1..]);
              1 + m + QuotedLen(t[1..][m..], marks, mblen)
            else if t[0] == marks.quote then 1
            else
              var m := CharLen(mblen, t);
              m + QuotedLen(t[m..], marks, mblen)
  {
    hide CharLen;
    if |t| > 1 {
      var m := CharLen(mblen, t[1..]);
      assert t[1..][m..] == t[1 + m..];
    }
  }

  /** The loop that looks for the closing quote. */
  method ScanQuoted(a: array<char>, start: nat, p0: nat, marks: Marks, mblen: Mblen, ghost s: string) returns (p: nat)
    requires HasText(a, start, s) && start <= p0 <= start + |s| && marks.quote != '\0'
    ensures p == p0 + QuotedLen(s[p0 - start..], marks, mblen)
  {
    hide CharLen, QuotedLen, HasText;
    p := p0;
    ghost var tail := s[p0 - start..];
    TextFrom(a, start, s, p0 - start);
    TextAt(a, p, tail, 0);
    while a[p] != '\0'
      invariant p0 <= p && p + |tail| == start + |s| && HasText(a, p, tail)
      invariant p < a.Length && (a[p] == '\0' <==> tail == "")
      invariant p0 + QuotedLen(s[p0 - start..], marks, mblen) == p + QuotedLen(tail, marks, mblen)
      decreases |tail|
    {
      TextAt(a, p, tail, 0);
      TextAt(a, p, tail, 1);
      QuoteStep(tail, marks, mblen);
      if a[p] == marks.escape && a[p + 1] != '\0' {
        TextFrom(a, p, tail, 1);
        p, tail := p + 1, tail[1..];
      } else if a[p] == marks.quote && a[p + 1] == marks.quote {
        TextFrom(a, p, tail, 1);
        p, tail := p + 1, tail[1..];
      } else if a[p] == marks.quote {
        p := p + 1;
        return;
      }
      var m := PQmblen(a, p, mblen, tail);
      TextFrom(a, p, tail, m);
      p, tail := p + m, tail[m..];
      TextAt(a, p, tail, 0);
    }
    assert QuotedLen("", marks, mblen) == 0;
  }

  /** Where the token that starts at `start` ends, and its quote and escape if it is quoted. */
  method FindEnd(a: array<char>, start: nat, ws: set<char>, rules: Rules, mblen: Mblen, ghost s: string)
    returns (p: nat, quoted: Option<Marks>)
    requires HasText(a, start, s) && s != "" && s[0] !in ws && '\0' !in rules.quote
    ensures p == start + TokenLen(s, ws, rules, mblen)
    ensures quoted == MarksOf(s, rules) && (quoted.Some? ==> quoted.value.quote != '\0')
  {
    hide QuotedLen, Span;
    if a[start] in rules.delim {
      return start + 1, None;
    }
    p := start;
    var quote, escape := rules.quote, rules.escape;
    if rules.eStrings && (a[p] == 'E' || a[p] == 'e') && a[p + 1] == '\'' {
      quote, escape, p := {'\''}, '\\', p + 1;
    }
    if a[p] in quote {
      var thisquote := a[p];
      quoted := Some(Marks(thisquote, escape));
      p := ScanQuoted(a, start, p + 1, Marks(thisquote, escape), mblen, s);
    } else {
      quoted := None;
      p := SpanTo(a, start, ws + rules.delim + rules.quote, s);
    }
  }

  function MarksOf(s: string, rules: Rules): (r: Option<Marks>) {
    if s == "" || s[0] in rules.delim then None
    else match Opening(s, rules) case None => None case Some((_, marks)) => Some(marks)
  }

  // ---------------------------------------------------------------------
  // The tokenizer with its private buffer

  /** memmove of n bytes up by one place. */
  method MoveUp(a: array<char>, p: nat, n: nat)
    requires p + n + 1 <= a.Length
    modifies a
    ensures forall j :: p + 1 <= j < p + 1 + n ==> a[j] == old(a[j - 1])
    ensures SameOutside(a, p + 1, p + 1 + n)
  {
    var i := n;
    while i > 0
      invariant 0 <= i <= n
      invariant forall j :: p + 1 + i <= j < p + 1 + n ==> a[j] == old(a[j - 1])
      invariant SameOutside(a, p + 1 + i, p + 1 + n)
    {
      i := i - 1;
      a[p + 1 + i] := a[p + i];
    }
  }

  /** What is left for the next call behind a token: a whitespace character is given up for the NUL. */
  function Left(tail: string, ws: set<char>): (r: string) {
    if tail != "" && tail[0] in ws then tail[1..] else tail
  }

  /** Writes the NUL that ends a token at p, and says where to go on. */
  method Terminate(a: array<char>, p: nat, ws: set<char>, ghost tail: string) returns (cursor: nat)
    requires HasText(a, p, tail) && (tail == "" || p + |tail| + 1 < a.Length)
    modifies a
    ensures a[p] == '\0' && HasText(a, cursor, Left(tail, ws))
    ensures cursor == if tail == "" then p else p + 1
    ensures SameOutside(a, p, a.Length)
  {
    if a[p] != '\0' {
      if a[p] !in ws {
        var e := Strlen(a, p, tail);
        MoveUp(a, p, e + 1);
      }
      a[p] := '\0';
      cursor := p + 1;
    } else {
      cursor := p;
    }
  }

  /** The token as the caller gets it. */
  function Cleaned(tok: string, marks: Option<Marks>, delQuotes: bool, mblen: Mblen): (r: string) {
    if delQuotes && marks.Some? then Stripped(tok, marks.value, mblen) else tok
  }

  /** Ends the token that starts at `start` and cleans it if that is wanted; returns where to go on. */
  method TakeToken(a: array<char>, start: nat, ws: set<char>, rules: Rules, delQuotes: bool, mblen: Mblen, ghost body: string)
    returns (cursor: nat)
    requires HasText(a, start, body) && body != "" && body[0] !in ws && start + |body| + 1 < a.Length
    requires '\0' !in rules.quote
    modifies a
    ensures var n := TokenLen(body, ws, rules, mblen);
            && cursor == start + n + (if n < |body| then 1 else 0)
            && HasText(a, cursor, Left(body[n..], ws))
            && HasText(a, start, Cleaned(body[..n], MarksOf(body, rules), delQuotes, mblen))
    ensures SameOutside(a, start, a.Length)
  {
    hide TokenLen, Opening, Stripped;
    var p, quoted := FindEnd(a, start, ws, rules, mblen, body);
    ghost var n := p - start;
    TextFrom(a, start, body, n);
    cursor := Terminate(a, p, ws, body[n..]);
    assert HasText(a, start, body[..n]);
    if quoted.Some? && delQuotes {
      StripQuotes(a, start, quoted.value, mblen, body[..n]);
    }
  }

  class Strtokx {
    var storage: array?<char>
    var cursor: nat
    ghost var text: string      // what remains of the caller's text
    ghost var held: string      // what remains of it in the buffer
    ghost var size: nat         // the length of the caller's text
    ghost var ws: set<char>     // the whitespace of the calls so far

    /**
      The buffer holds the remaining text, give or take whitespace in front,
      and every NUL put in so far is paid for by a character that is gone.
     */
    ghost predicate Valid()
      reads this, storage
    {
      storage != null ==>
        && storage.Length == 2 * size + 1
        && |held| <= size && cursor <= 2 * (size - |held|)
        && HasText(storage, cursor, held)
        && Skip(held, ws) == Skip(text, ws)
    }

    constructor ()
      ensures Valid() && storage == null && text == ""
    {
      storage, cursor, text, held, size, ws := null, 0, "", "", 0, {};
    }

    /** The call on the text t returned what the tokenizer on values returns. */
    ghost predicate Delivered(t: string, whitespace: set<char>, rules: Rules, delQuotes: bool, mblen: Mblen, token: Option<nat>)
      reads this, storage
    {
      match NextToken(t, whitespace, rules, mblen)
      case None => token.None? && storage == null
      case Some((tok, rest)) =>
        && token.Some? && storage != null && text == rest && ws == whitespace
        && token.value + |tok| <= cursor
        && HasText(storage, token.value, Cleaned(tok, MarksOf(Skip(t, whitespace), rules), delQuotes, mblen))
    }

    /** What the call returned is the token found in t, and t ends where it returned none. */
    ghost predicate Told(t: string, rules: Rules, delQuotes: bool, mblen: Mblen, token: Option<nat>)
      reads this, storage
    {
      if token.None? then AllIn(t, ws)
      else storage != null && exists tok ::
        && Found(t, tok, text, ws, rules, mblen)
        && HasText(storage, token.value, Cleaned(tok, MarksOf(tok + text, rules), delQuotes, mblen))
    }

    /** The start of a new text: a buffer of twice its length and one. */
    method Load(s: string, whitespace: set<char>)
      requires NoNul(s)
      modifies this
      ensures Valid() && storage != null && fresh(storage) && cursor == 0
      ensures text == s && ws == whitespace
    {
      var a := new char[2 * |s| + 1];
      for i := 0 to |s|
        invariant forall j :: 0 <= j < i ==> a[j] == s[j]
      {
        a[i] := s[i];
      }
      a[|s|] := '\0';
      storage, cursor := a, 0;
      text, held, size, ws := s, s, |s|, whitespace;
    }

    /** A call on the text in the buffer. */
    method GoOn(whitespace: set<char>, rules: Rules, delQuotes: bool, mblen: Mblen) returns (token: Option<nat>)
      requires Valid() && storage != null && whitespace == ws && '\0' !in whitespace && '\0' !in rules.quote
      modifies this, storage
      ensures Valid() && Delivered(old(text), old(ws), rules, delQuotes, mblen, token) && ws == old(ws)
      ensures token.Some? ==> storage == old(storage) && old(cursor) <= token.value
      ensures token.Some? ==> SameOutside(storage, old(cursor), storage.Length)
    {
      hide Skip, TokenLen, Left, Cleaned, MarksOf, HasText;
      SkipTwice(held, text, ws, rules, mblen);
      ghost var body := Skip(held, ws);
      var start := SkipWhite(storage, cursor, whitespace, held);
      TextAt(storage, start, body, 0);
      if storage[start] == '\0' {
        storage, cursor := null, 0;
        return None;
      }
      ghost var n := TokenLen(body, ws, rules, mblen);
      cursor := TakeToken(storage, start, whitespace, rules, delQuotes, mblen, body);
      LeftSkips(body[n..], ws);
      text, held := body[n..], Left(body[n..], ws);
      token := Some(start);
    }

    /**
      One call.  Without a text it goes on with the last one, for which the
      whitespace must be the same as before.  The token is returned as its
      place in the buffer, where it stands with its NUL.
     */
    method Call(s: Option<string>, whitespace: set<char>, rules: Rules, delQuotes: bool, mblen: Mblen)
      returns (token: Option<nat>)
      requires Valid()
      requires s.Some? ==> NoNul(s.value)
      requires s.None? && storage != null ==> whitespace == ws
      requires '\0' !in whitespace && '\0' !in rules.quote
      modifies this, storage
      ensures Valid()
      ensures Delivered(if s.Some? then s.value else if old(storage) == null then "" else old(text),
                        whitespace, rules, delQuotes, mblen, token)
      ensures token.Some? || s.Some? || old(storage) != null ==>
                Told(if s.Some? then s.value else old(text), rules, delQuotes, mblen, token)
      // tokens handed out earlier stay where they are
      ensures s.None? && token.Some? ==>
        && storage == old(storage) && old(cursor) <= token.value
        && SameOutside(storage, old(cursor), storage.Length)
    {
      if s.Some? {
        Load(s.value, whitespace);
      }
      if storage == null { return None; }
      ghost var t := text;
      token := GoOn(whitespace, rules, delQuotes, mblen);
      DeliveredIsTold(t, rules, delQuotes, mblen, token);
    }

    lemma DeliveredIsTold(t: string, rules: Rules, delQuotes: bool, mblen: Mblen, token: Option<nat>)
      requires Delivered(t, ws, rules, delQuotes, mblen, token)
      ensures Told(t, rules, delQuotes, mblen, token)
    {
      hide NextToken, Found, AllIn, HasText, Cleaned, MarksOf, Skip;
      match NextToken(t, ws, rules, mblen)
      case None => NextTokenIs(t, "", "", ws, rules, mblen);
      case Some((tok, rest)) =>
        NextTokenIs(t, tok, rest, ws, rules, mblen);
        TokenAndRest(t, tok, rest, ws, rules, mblen);
    }

  }

  lemma TokenAndRest(s: string, tok: string, rest: string, ws: set<char>, rules: Rules, mblen: Mblen)
    requires NextToken(s, ws, rules, mblen) == Some((tok, rest))
    ensures Skip(s, ws) == tok + rest
  {
    hide Skip, TokenLen;
    var body := Skip(s, ws);
    var n := TokenLen(body, ws, rules, mblen);
    assert body[..n] + body[n..] == body;
  }

  lemma SkipTwice(a: string, b: string, ws: set<char>, rules: Rules, mblen: Mblen)
    requires Skip(a, ws) == Skip(b, ws)
    ensures NextToken(a, ws, rules, mblen) == NextToken(b, ws, rules, mblen)
  {
  }

  lemma LeftSkips(tail: string, ws: set<char>)
    ensures Skip(Left(tail, ws), ws) == Skip(tail, ws)
    ensures |Left(tail, ws)| <= |tail| && (Left(tail, ws) == "" ==> |tail| <= 1)
  {
  }
}
