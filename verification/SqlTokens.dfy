/**
  The server's scanner (src/postgres/backend/parser/scan.lpp), as far as GRANT and
  REVOKE need it: a text as a sequence of words, quoted identifiers and marks.
 */
module SqlTokens {
  import opened Basics
  import opened Encoding
  import opened Identifiers

  /** A bare word is folded to lower case; it may also be a number. */
  datatype Token = Word(text: string) | Quoted(name: string) | Mark(c: char)

  predicate Blank(c: char) { c in {' ', '\t', '\n', '\r'} || c as int == 12 }

  const MARKS := {'(', ')', '[', ']', ',', '.', ';'}

  function Then(t: Token, more: Option<seq<Token>>): (r: Option<seq<Token>>) {
    match more case None => None case Some(ts) => Some([t] + ts)
  }

  /** None for a text with anything else in it, or with a quote that is not closed. */
  function Lex(s: string): (r: Option<seq<Token>>)
    decreases |s|
  {
    if s == "" then Some([])
    else if Blank(s[0]) then Lex(s[1..])
    else if s[0] == '"' then
      match ScanQuoted(s[1..])
      case None => None
      case Some((name, rest)) => Then(Quoted(name), Lex(rest))
    else if ScanChar(s[0]) then
      var (w, rest) := ScanWord(s);
      Then(Word(w), Lex(rest))
    else if s[0] in MARKS then Then(Mark(s[0]), Lex(s[1..]))
    else None
  }

  // ---------------------------------------------------------------------
  // Texts put together

  /** The end of a and the start of b do not run together. */
  predicate Apart(a: string, b: string) {
    a == "" || b == "" ||
    (var c, d := a[|a| - 1], b[0]; !(ScanChar(c) && ScanChar(d)) && !(c == '"' && d == '"'))
  }

  function Joined(a: Option<seq<Token>>, b: Option<seq<Token>>): (r: Option<seq<Token>>) {
    if a.None? || b.None? then None else Some(a.value + b.value)
  }

  lemma {:induction false} WordThen(a: string, b: string)
    requires a != "" && Apart(a, b)
    ensures var (w, rest) := ScanWord(a); ScanWord(a + b) == (w, rest + b) && (rest != "" ==> Apart(rest, b))
  {
    assert (a + b)[1..] == a[1..] + b && (a + b)[0] == a[0];
    if ScanChar(a[0]) {
      if |a| == 1 {
        Units(b);
      } else {
        WordThen(a[1..], b);
      }
    }
  }

  lemma {:induction false} QuotedThen(a: string, b: string)
    requires ScanQuoted(a).Some? && Apart(a, b)
    ensures var (w, rest) := ScanQuoted(a).value;
            ScanQuoted(a + b) == Some((w, rest + b)) && (rest != "" ==> Apart(rest, b))
  {
    assert (a + b)[0] == a[0];
    assert |a| > 1 ==> (a + b)[1] == a[1];
    if a[0] == '"' && !(|a| > 1 && a[1] == '"') {
      assert (a + b)[1..] == a[1..] + b;
      assert |a| == 1 && b != "" ==> (a + b)[1] == b[0];
    } else {
      var k := if a[0] == '"' then 2 else 1;
      assert (a + b)[k..] == a[k..] + b;
      QuotedThen(a[k..], b);
    }
  }

  /** Texts that do not run together are scanned one after the other. */
  lemma {:induction false} LexConcat(a: string, b: string)
    requires Lex(a).Some? && Apart(a, b)
    ensures Lex(a + b) == Joined(Lex(a), Lex(b))
    decreases |a|
  {
    hide ScanWord, ScanQuoted, ScanChar;
    if a == "" {
      Units(b);
      if Lex(b).Some? { Units(Lex(b).value); }
    } else {
      assert (a + b)[0] == a[0] && (a + b)[1..] == a[1..] + b;
      if Blank(a[0]) {
        LexConcat(a[1..], b);
      } else if a[0] == '"' {
        QuotedThen(a[1..], b);
        var (w, rest) := ScanQuoted(a[1..]).value;
        LexConcat(rest, b);
        ThenJoined(Quoted(w), Lex(rest), Lex(b));
      } else if ScanChar(a[0]) {
        WordThen(a, b);
        var (w, rest) := ScanWord(a);
        LexConcat(rest, b);
        ThenJoined(Word(w), Lex(rest), Lex(b));
      } else {
        LexConcat(a[1..], b);
        ThenJoined(Mark(a[0]), Lex(a[1..]), Lex(b));
      }
    }
  }

  lemma ThenJoined(t: Token, a: Option<seq<Token>>, b: Option<seq<Token>>)
    ensures Then(t, Joined(a, b)) == Joined(Then(t, a), b)
  {
    if a.Some? && b.Some? { Assoc([t], a.value, b.value); }
  }

  /** The same for two texts whose tokens are known. */
  lemma Both(a: string, ts: seq<Token>, b: string, us: seq<Token>)
    requires Lex(a) == Some(ts) && Lex(b) == Some(us) && Apart(a, b)
    ensures Lex(a + b) == Some(ts + us)
  {
    LexConcat(a, b);
  }

  // ---------------------------------------------------------------------
  // Keywords and names

  function Kw(k: string): (t: Token) { Word(Folded(k)) }

  lemma {:induction false} ScanAll(w: string)
    requires forall i :: 0 <= i < |w| ==> ScanChar(w[i])
    ensures ScanWord(w) == (Folded(w), "")
  {
    if w != "" {
      ScanAll(w[1..]);
      assert [Lower(w[0])] + Folded(w[1..]) == Folded(w);
    }
  }

  predicate Letters(w: string) { forall i :: 0 <= i < |w| ==> 'A' <= w[i] <= 'Z' }

  lemma Last(t: Token)
    ensures Then(t, Lex("")) == Some([t])
  {
    Units([t]);
  }

  lemma LexWord(w: string)
    requires w != "" && Letters(w)
    ensures Lex(w) == Some([Kw(w)])
  {
    ScanAll(w);
    Last(Kw(w));
  }

  lemma LexBlank(s: string)
    ensures Lex(" " + s) == Lex(s) && Lex("\n" + s) == Lex(s)
  {
    Behind(" ", s);
    Behind("\n", s);
  }

  lemma LexMark(c: char)
    requires c in MARKS
    ensures Lex([c]) == Some([Mark(c)])
  {
    assert [c][1..] == "";
    Last(Mark(c));
  }

  /** The name that a token is to the server; a reserved word is none. */
  function NameOf(t: Token, reserved: set<string>, mblen: Mblen): (r: Option<string>) {
    match t
    case Word(w) =>
      if w == "" || '0' <= w[0] <= '9' || w[0] == '$' || w in reserved then None else Some(Truncated(w, mblen))
    case Quoted(n) => Known(n, mblen)
    case Mark(_) => None
  }

  function IdentToken(raw: string, rules: Rules): (t: Token) {
    if Bare(raw, rules) then Word(raw) else Quoted(raw)
  }

  /** A formatted identifier is one token, and the name that the server knows. */
  lemma LexIdent(raw: string, rules: Rules, reserved: set<string>, mblen: Mblen)
    requires reserved <= rules.reserved
    ensures Lex(Ident(raw, rules)) == Some([IdentToken(raw, rules)])
    ensures NameOf(IdentToken(raw, rules), reserved, mblen) == Known(raw, mblen)
  {
    Last(IdentToken(raw, rules));
    if Bare(raw, rules) {
      ScanBare(raw, "");
      Units(raw);
    } else {
      ScanDoubled(raw, "");
      Units("\"");
      Behind("\"", DoubleQuotes(raw) + "\"");
    }
  }
}
