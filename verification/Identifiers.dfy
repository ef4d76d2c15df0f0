/**
  SQL identifiers: fmtId and fmtQualifiedId of tools/common/dumputils.cpp, and
  the server's scanner for what they write.
 */
module Identifiers {
  import opened Basics
  import opened Encoding

  /** The global quote_all_identifiers, and the keywords that are not unreserved. */
  datatype Rules = Rules(quoteAll: bool, reserved: set<string>)

  predicate IdentStart(c: char) { 'a' <= c <= 'z' || c == '_' }

  predicate IdentChar(c: char) { IdentStart(c) || '0' <= c <= '9' }

  function DoubleQuotes(s: string): (r: string) {
    if s == "" then "" else (if s[0] == '"' then "\"\"" else [s[0]]) + DoubleQuotes(s[1..])
  }

  predicate Bare(raw: string, rules: Rules) {
    && !rules.quoteAll
    && raw != "" && IdentStart(raw[0])
    && (forall i :: 0 <= i < |raw| ==> IdentChar(raw[i]))
    && raw !in rules.reserved
  }

  function Ident(raw: string, rules: Rules): (r: string) {
    if Bare(raw, rules) then raw else "\"" + (DoubleQuotes(raw) + "\"")
  }

  method FmtId(raw: string, rules: Rules) returns (r: string)
    ensures r == Ident(raw, rules)
  {
    var needQuotes := false;
    if rules.quoteAll {
      needQuotes := true;
    } else if !(|raw| > 0 && IdentStart(raw[0])) {
      needQuotes := true;
    } else {
      for i := 0 to |raw|
        invariant forall j :: 0 <= j < i ==> IdentChar(raw[j])
      {
        if !IdentChar(raw[i]) {
          needQuotes := true;
          break;
        }
      }
    }
    if !needQuotes && raw in rules.reserved {
      needQuotes := true;
    }
    if !needQuotes {
      return raw;
    }
    var inner := QuoteBody(raw);
    r := "\"" + (inner + "\"");
  }

  method QuoteBody(raw: string) returns (r: string)
    ensures r == DoubleQuotes(raw)
  {
    r := "";
    Units(DoubleQuotes(raw));
    for i := 0 to |raw|
      invariant r + DoubleQuotes(raw[i..]) == DoubleQuotes(raw)
    {
      assert raw[i..][1..] == raw[i + 1..];
      Assoc(r, if raw[i] == '"' then "\"\"" else [raw[i]], DoubleQuotes(raw[i + 1..]));
      if raw[i] == '"' {
        r := r + "\"\"";
      } else {
        r := r + [raw[i]];
      }
    }
    Units(r);
  }

  // ---------------------------------------------------------------------
  // The scanner: quoted identifiers verbatim, bare ones folded to lower case

  predicate ScanChar(c: char) {
    IdentChar(c) || 'A' <= c <= 'Z' || c == '$' || c as int >= 128
  }

  function ScanWord(s: string): (r: (string, string))
    ensures |r.0| + |r.1| == |s| && (s != "" && ScanChar(s[0]) ==> r.0 != "")
  {
    if s == "" || !ScanChar(s[0]) then ("", s)
    else var (w, rest) := ScanWord(s[1..]); ([Lower(s[0])] + w, rest)
  }

  function ScanQuoted(s: string): (r: Option<(string, string)>)
    ensures r.Some? ==> |r.value.1| < |s|
  {
    if s == "" then None
    else if s[0] == '"' && !(|s| > 1 && s[1] == '"') then Some(("", s[1..]))
    else
      var k := if s[0] == '"' then 2 else 1;
      match ScanQuoted(s[k..])
      case None => None
      case Some((w, rest)) => Some(([s[0]] + w, rest))
  }

  const NAMEDATALEN := 64

  /** How many bytes the complete characters within the limit take up. */
  function ClipLen(s: string, limit: nat, mblen: Mblen): (n: nat)
    ensures n <= limit && n <= |s|
    decreases |s|
  {
    if s == "" || CharLen(mblen, s) > limit then 0
    else CharLen(mblen, s) + ClipLen(s[CharLen(mblen, s)..], limit - CharLen(mblen, s), mblen)
  }

  /** A name that is too long is cut off behind a character. */
  function Truncated(name: string, mblen: Mblen): (r: string) {
    if |name| < NAMEDATALEN then name else name[..ClipLen(name, NAMEDATALEN - 1, mblen)]
  }

  /** The identifier at the front of the text; None when there is none, a reserved word, or an empty one in quotes. */
  function ScanIdent(s: string, reserved: set<string>, mblen: Mblen): (r: Option<(string, string)>) {
    if s == "" then None
    else if s[0] == '"' then
      match ScanQuoted(s[1..])
      case None => None
      case Some((w, rest)) => if w == "" then None else Some((Truncated(w, mblen), rest))
    else if !ScanChar(s[0]) || '0' <= s[0] <= '9' || s[0] == '$' then None
    else
      var (w, rest) := ScanWord(s);
      if w in reserved then None else Some((Truncated(w, mblen), rest))
  }

  lemma {:induction false} ScanBare(raw: string, tail: string)
    requires forall i :: 0 <= i < |raw| ==> IdentChar(raw[i])
    requires tail == "" || !ScanChar(tail[0])
    ensures ScanWord(raw + tail) == (raw, tail)
  {
    if raw == "" {
      Units(tail);
    } else {
      ScanBare(raw[1..], tail);
      assert (raw + tail)[1..] == raw[1..] + tail;
      assert [raw[0]] + raw[1..] == raw;
      assert Lower(raw[0]) == raw[0];
    }
  }

  lemma {:induction false} ScanDoubled(raw: string, tail: string)
    requires tail == "" || tail[0] != '"'
    ensures ScanQuoted(DoubleQuotes(raw) + ("\"" + tail)) == Some((raw, tail))
  {
    Behind("\"", tail);
    if raw == "" {
      Units("\"" + tail);
    } else {
      ScanDoubled(raw[1..], tail);
      var head := if raw[0] == '"' then "\"\"" else [raw[0]];
      var rest := DoubleQuotes(raw[1..]) + ("\"" + tail);
      Assoc(head, DoubleQuotes(raw[1..]), "\"" + tail);
      Behind(head, rest);
      assert [raw[0]] + raw[1..] == raw;
    }
  }

  /** What the server makes of a name: it refuses the empty one and truncates a long one. */
  function Known(raw: string, mblen: Mblen): (r: Option<string>) {
    if raw == "" then None else Some(Truncated(raw, mblen))
  }

  /** It is the name itself for exactly the names that the server can have. */
  lemma KnownIs(raw: string, mblen: Mblen)
    ensures Known(raw, mblen) == Some(raw) <==> 0 < |raw| < NAMEDATALEN
  {
  }

  /** A formatted identifier is scanned as the raw name is known, and scanning stops right behind it. */
  lemma ScanFormatted(raw: string, rules: Rules, tail: string, mblen: Mblen)
    requires tail == "" || (!ScanChar(tail[0]) && tail[0] != '"')
    ensures ScanIdent(Ident(raw, rules) + tail, rules.reserved, mblen) ==
            match Known(raw, mblen) case None => None case Some(name) => Some((name, tail))
  {
    hide Truncated;
    if Bare(raw, rules) {
      ScanBare(raw, tail);
    } else {
      ScanDoubled(raw, tail);
      Assoc("\"", DoubleQuotes(raw) + "\"", tail);
      Assoc(DoubleQuotes(raw), "\"", tail);
      Behind("\"", DoubleQuotes(raw) + ("\"" + tail));
    }
  }

  predicate PlainChar(c: char) { IdentChar(c) || 'A' <= c <= 'Z' }

  lemma {:induction false} ScanPlain(raw: string)
    requires forall i :: 0 <= i < |raw| ==> PlainChar(raw[i])
    ensures ScanWord(raw) == (Folded(raw), "")
  {
    if raw != "" {
      ScanPlain(raw[1..]);
      assert [Lower(raw[0])] + Folded(raw[1..]) == Folded(raw);
    }
  }

  /** A name of letters, digits and underscores is quoted only if the server would not read it as it is. */
  lemma QuotedIfNeeded(raw: string, rules: Rules, mblen: Mblen)
    requires !rules.quoteAll && 0 < |raw| < NAMEDATALEN && forall i :: 0 <= i < |raw| ==> PlainChar(raw[i])
    ensures Ident(raw, rules) == raw <==> ScanIdent(raw, rules.reserved, mblen) == Some((raw, ""))
  {
    ScanPlain(raw);
    if Folded(raw) == raw {
      forall i | 0 <= i < |raw| ensures IdentChar(raw[i]) { assert Folded(raw)[i] == raw[i]; }
    }
    if Bare(raw, rules) {
      forall i | 0 <= i < |raw| ensures Folded(raw)[i] == raw[i] { assert IdentChar(raw[i]); }
    } else {
      assert Ident(raw, rules)[0] == '"' && raw[0] != '"';
    }
  }

  // ---------------------------------------------------------------------
  // Qualified names

  /** Servers before 7.3 know no schemas; an empty schema stands for none. */
  predicate HasSchema(version: int, schema: Option<string>) {
    version >= 70300 && schema.Some? && schema.value != ""
  }

  method FmtQualifiedId(version: int, schema: Option<string>, id: string, rules: Rules) returns (r: string)
    ensures r == (if HasSchema(version, schema) then Ident(schema.value, rules) + "." else "") + Ident(id, rules)
  {
    r := "";
    if version >= 70300 && schema.Some? && schema.value != "" {
      var s := FmtId(schema.value, rules);
      r := s + ".";
    }
    var s := FmtId(id, rules);
    r := r + s;
  }

  /** A name and, behind a dot, another: as the scanner takes them apart. */
  function ScanQualified(s: string, reserved: set<string>, mblen: Mblen): (r: Option<(string, string, string)>) {
    match ScanIdent(s, reserved, mblen)
    case None => None
    case Some((schema, rest)) =>
      if rest == "" || rest[0] != '.' then None
      else match ScanIdent(rest[1..], reserved, mblen)
        case None => None
        case Some((id, tail)) => Some((schema, id, tail))
  }

  /** Schema and name are told apart again, whatever dots and quotes they contain. */
  lemma ScanQualifiedName(schema: string, id: string, rules: Rules, tail: string, mblen: Mblen)
    requires tail == "" || (!ScanChar(tail[0]) && tail[0] != '"')
    ensures ScanQualified(Ident(schema, rules) + "." + Ident(id, rules) + tail, rules.reserved, mblen) ==
            match (Known(schema, mblen), Known(id, mblen))
            case (Some(s), Some(n)) => Some((s, n, tail))
            case _ => None
  {
    hide ScanIdent, Ident, Known;
    var second := Ident(id, rules) + tail;
    ScanFormatted(schema, rules, "." + second, mblen);
    ScanFormatted(id, rules, tail, mblen);
    Behind(".", second);
    Assoc(Ident(schema, rules) + ".", Ident(id, rules), tail);
    Assoc(Ident(schema, rules), ".", second);
  }
}
