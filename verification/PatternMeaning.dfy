/**
  What a name pattern asks for, in terms of its written parts: quoted names,
  bare words, wildcards and a schema in front of a dot.
 */
module PatternMeaning {
  import opened Basics
  import Identifiers
  import opened NamePattern

  /** A quoted text is meant exactly, a bare one in lower case; a star is any text and a question mark any character. */
  datatype Part = Exactly(s: string) | Folding(s: string) | AnyText | AnyOne

  function PartText(p: Part): (r: string) {
    match p
    case Exactly(s) => "\"" + (Identifiers.DoubleQuotes(s) + "\"")
    case Folding(s) => s
    case AnyText => "*"
    case AnyOne => "?"
  }

  function PartsText(ps: seq<Part>): (r: string) { if ps == [] then "" else PartText(ps[0]) + PartsText(ps[1..]) }

  /** No part is empty, no bare word contains anything special, and quoted texts do not run together. */
  predicate Written(ps: seq<Part>) {
    && (forall i :: 0 <= i < |ps| && (ps[i].Exactly? || ps[i].Folding?) ==> ps[i].s != "")
    && (forall i :: 0 <= i < |ps| && ps[i].Folding? ==> Wordy(ps[i].s))
    && (forall i :: 0 < i < |ps| ==> !(ps[i - 1].Exactly? && ps[i].Exactly?))
  }

  predicate Wordy(s: string) { forall i :: 0 <= i < |s| ==> s[i] !in {'"', '*', '?', '.'} }

  /** The parts stand for the whole of t. */
  ghost predicate StandFor(ps: seq<Part>, t: string) {
    if ps == [] then t == ""
    else match ps[0]
      case Exactly(s) => s <= t && StandFor(ps[1..], t[|s|..])
      case Folding(s) => Folded(s) <= t && StandFor(ps[1..], t[|s|..])
      case AnyText => exists k :: 0 <= k <= |t| && StandFor(ps[1..], t[k..])
      case AnyOne => t != "" && StandFor(ps[1..], t[1..])
  }

  // ---------------------------------------------------------------------
  // Reading the parts

  function Lits(s: string, quoted: bool): (r: seq<Piece>)
    ensures |r| == |s|
  {
    if s == "" then [] else [Lit(if quoted then s[0] else Lower(s[0]), quoted)] + Lits(s[1..], quoted)
  }

  function PartPieces(p: Part): (r: seq<Piece>) {
    match p case Exactly(s) => Lits(s, true) case Folding(s) => Lits(s, false) case AnyText => [Many] case AnyOne => [One]
  }

  function Pieces(ps: seq<Part>): (r: seq<Piece>) { if ps == [] then [] else PartPieces(ps[0]) + Pieces(ps[1..]) }

  lemma ReadOne(c: char, quoted: bool, rest: string)
    requires c != '"'
    ensures Read([c] + rest, quoted) == [ReadChar(c, quoted)] + Read(rest, quoted)
  {
    Behind([c], rest);
  }

  lemma ReadDoubled(rest: string)
    ensures Read("\"\"" + rest, true) == [Lit('"', true)] + Read(rest, true)
  {
    assert ("\"\"" + rest)[2..] == rest;
  }

  lemma {:induction false} ReadExactly(s: string, rest: string)
    requires rest == "" || rest[0] != '"'
    ensures Read(Identifiers.DoubleQuotes(s) + ("\"" + rest), true) == Lits(s, true) + Read(rest, false)
  {
    hide Read;
    if s == "" {
      Units("\"" + rest);
      Units(Read(rest, false));
      ReadClose(rest);
    } else {
      var head := if s[0] == '"' then "\"\"" else [s[0]];
      var more := Identifiers.DoubleQuotes(s[1..]) + ("\"" + rest);
      ReadExactly(s[1..], rest);
      Assoc(head, Identifiers.DoubleQuotes(s[1..]), "\"" + rest);
      if s[0] == '"' { ReadDoubled(more); } else { ReadOne(s[0], true, more); }
      Assoc([Lit(s[0], true)], Lits(s[1..], true), Read(rest, false));
    }
  }

  lemma ReadClose(rest: string)
    requires rest == "" || rest[0] != '"'
    ensures Read("\"" + rest, true) == Read(rest, false)
  {
    Behind("\"", rest);
    assert rest != "" ==> ("\"" + rest)[1] == rest[0];
  }

  lemma ReadOpen(rest: string)
    ensures Read("\"" + rest, false) == Read(rest, true)
  {
    Behind("\"", rest);
  }

  lemma {:induction false} ReadFolding(s: string, rest: string)
    requires Wordy(s)
    ensures Read(s + rest, false) == Lits(s, false) + Read(rest, false)
  {
    hide Read;
    if s == "" {
      Units(rest);
      Units(Read(rest, false));
    } else {
      ReadFolding(s[1..], rest);
      assert s == [s[0]] + s[1..];
      Assoc([s[0]], s[1..], rest);
      ReadOne(s[0], false, s[1..] + rest);
      Assoc([Lit(Lower(s[0]), false)], Lits(s[1..], false), Read(rest, false));
    }
  }

  lemma ReadPart(p: Part, rest: string)
    requires p.Folding? ==> Wordy(p.s)
    requires p.Exactly? ==> rest == "" || rest[0] != '"'
    ensures Read(PartText(p) + rest, false) == PartPieces(p) + Read(rest, false)
  {
    hide Read, Lits;
    match p
    case Exactly(s) =>
      var d := Identifiers.DoubleQuotes(s);
      Assoc("\"", d + "\"", rest);
      Assoc(d, "\"", rest);
      ReadOpen(d + ("\"" + rest));
      ReadExactly(s, rest);
    case Folding(s) => ReadFolding(s, rest);
    case AnyText => ReadOne('*', false, rest);
    case AnyOne => ReadOne('?', false, rest);
  }

  /** What may follow the parts: a dot, or nothing. */
  predicate Ends(rest: string) { rest == "" || rest[0] == '.' }

  lemma {:induction false} ReadParts(ps: seq<Part>, rest: string)
    requires Written(ps) && Ends(rest)
    ensures Read(PartsText(ps) + rest, false) == Pieces(ps) + Read(rest, false)
  {
    hide Read, PartPieces;
    if ps == [] {
      Units(rest);
      Units(Read(rest, false));
    } else {
      var more := PartsText(ps[1..]) + rest;
      assert Written(ps[1..]) by {
        assert forall i :: 0 <= i < |ps[1..]| ==> ps[1..][i] == ps[i + 1];
      }
      ReadParts(ps[1..], rest);
      Assoc(PartText(ps[0]), PartsText(ps[1..]), rest);
      if ps[0].Exactly? { NoQuoteNext(ps, rest); }
      ReadPart(ps[0], more);
      Assoc(PartPieces(ps[0]), Pieces(ps[1..]), Read(rest, false));
    }
  }

  lemma NoQuoteNext(ps: seq<Part>, rest: string)
    requires Written(ps) && Ends(rest) && ps != [] && ps[0].Exactly?
    ensures var more := PartsText(ps[1..]) + rest; more == "" || more[0] != '"'
  {
    if |ps| > 1 {
      var next := ps[1];
      assert next == ps[1..][0] && !next.Exactly?;
      var t := PartText(next);
      assert t != "" && t[0] != '"';
      assert (PartsText(ps[1..]) + rest)[0] == t[0];
    }
  }

  // ---------------------------------------------------------------------
  // Matching

  lemma {:induction false} LitsMatch(s: string, quoted: bool, more: seq<Piece>, t: string)
    ensures Glob(Lits(s, quoted) + more, t) <==>
            (if quoted then s else Folded(s)) <= t && Glob(more, t[|s|..])
  {
    var want := if quoted then s else Folded(s);
    if s == "" {
      Units(more);
      assert t[0..] == t;
    } else {
      var ps := Lits(s, quoted) + more;
      assert ps[0] == Lit(want[0], quoted) && ps[1..] == Lits(s[1..], quoted) + more;
      var want' := if quoted then s[1..] else Folded(s[1..]);
      assert want == [want[0]] + want';
      if t != "" {
        LitsMatch(s[1..], quoted, more, t[1..]);
        if |s| <= |t| { assert t[1..][|s| - 1..] == t[|s|..]; }
        ConsFront(want[0], want', t);
      }
    }
  }

  lemma ConsFront(c: char, want: string, t: string)
    requires t != ""
    ensures [c] + want <= t <==> c == t[0] && want <= t[1..]
  {
    if c == t[0] && want <= t[1..] { assert t == [c] + t[1..]; }
    if [c] + want <= t { assert ([c] + want)[1..] == want; }
  }

  /** The pieces match what the parts stand for. */
  lemma {:induction false} PartsMatch(ps: seq<Part>, t: string)
    ensures Glob(Pieces(ps), t) <==> StandFor(ps, t)
    decreases |ps|
  {
    if ps != [] {
      var more := Pieces(ps[1..]);
      match ps[0]
      case Exactly(s) =>
        LitsMatch(s, true, more, t);
        if s <= t { PartsMatch(ps[1..], t[|s|..]); }
      case Folding(s) =>
        LitsMatch(s, false, more, t);
        if Folded(s) <= t { PartsMatch(ps[1..], t[|s|..]); }
      case AnyText =>
        Behind([Many], more);
        forall k | 0 <= k <= |t| ensures Glob(more, t[k..]) <==> StandFor(ps[1..], t[k..]) { PartsMatch(ps[1..], t[k..]); }
      case AnyOne =>
        Behind([One], more);
        if t != "" { PartsMatch(ps[1..], t[1..]); }
    }
  }

  // ---------------------------------------------------------------------
  // Patterns

  lemma {:induction false} PiecesDotless(ps: seq<Part>)
    ensures Dotless(Pieces(ps))
  {
    if ps != [] {
      PiecesDotless(ps[1..]);
      if ps[0].Exactly? || ps[0].Folding? { LitsDotless(ps[0].s, ps[0].Exactly?); }
    }
  }

  lemma {:induction false} LitsDotless(s: string, quoted: bool)
    ensures Dotless(Lits(s, quoted))
  {
    if s != "" { LitsDotless(s[1..], quoted); }
  }

  lemma {:induction false} NoDots(ps: seq<Piece>)
    requires Dotless(ps)
    ensures NamePart(ps) == ps && SchemaPart(ps) == None
  {
    if ps != [] {
      var n := |ps| - 1;
      NoDots(ps[..n]);
      assert ps == ps[..n] + [ps[n]];
    }
  }

  lemma {:induction false} OneDot(a: seq<Piece>, b: seq<Piece>)
    requires Dotless(a) && Dotless(b)
    ensures var ps := a + ([Dot] + b); NamePart(ps) == b && SchemaPart(ps) == Some(a)
    decreases |b|
  {
    var ps := a + ([Dot] + b);
    var n := |ps| - 1;
    if b == [] {
      NoDots(a);
      assert ps[n] == Dot && ps[..n] == a;
    } else {
      var k := |b| - 1;
      OneDot(a, b[..k]);
      assert ps[n] == b[k] && ps[..n] == a + ([Dot] + b[..k]) && b == b[..k] + [b[k]];
    }
  }

  /** A pattern: perhaps a schema and a dot, and a name. */
  function PatternText(schema: Option<seq<Part>>, name: seq<Part>): (r: string) {
    (match schema case None => "" case Some(ps) => PartsText(ps) + ".") + PartsText(name)
  }

  lemma ReadPattern(schema: Option<seq<Part>>, name: seq<Part>)
    requires Written(name) && (schema.Some? ==> Written(schema.value))
    ensures var ps := Read(PatternText(schema, name), false);
            && NamePart(ps) == Pieces(name)
            && SchemaPart(ps) == match schema case None => None case Some(parts) => Some(Pieces(parts))
  {
    hide Read, NamePart, SchemaPart, Pieces, Written, Dotless;
    var text := PartsText(name);
    ReadParts(name, "");
    ReadNothing();
    Units(text);
    Units(Pieces(name));
    PiecesDotless(name);
    match schema
    case None => NoDots(Pieces(name));
    case Some(parts) =>
      PiecesDotless(parts);
      Assoc(PartsText(parts), ".", text);
      ReadParts(parts, "." + text);
      ReadOne('.', false, text);
      OneDot(Pieces(parts), Pieces(name));
  }

  lemma ReadNothing()
    ensures Read("", false) == []
  {
  }

  lemma {:induction false} SomePieces(ps: seq<Part>)
    requires Written(ps)
    ensures Pieces(ps) == [] <==> ps == []
  {
    if ps != [] { assert |PartPieces(ps[0])| > 0; }
  }

  /** What the parts of a pattern ask for is what the pattern asks for. */
  lemma PatternMeans(schema: Option<seq<Part>>, name: seq<Part>, row: Row, vars: Vars)
    requires Written(name) && (schema.Some? ==> Written(schema.value))
    ensures Wanted(Some(PatternText(schema, name)), row, vars) <==>
            && (name != [] ==> StandFor(name, row.name) || (vars.altName.Some? && StandFor(name, row.altName)))
            && (if schema.Some? && schema.value != [] then vars.schema.Some? ==> StandFor(schema.value, row.schema)
                else vars.visibility.Some? ==> row.visible)
  {
    hide Read, NamePart, SchemaPart, Pieces, Written, PatternText, StandFor, Glob;
    ReadPattern(schema, name);
    SomePieces(name);
    PartsMatch(name, row.name);
    PartsMatch(name, row.altName);
    if schema.Some? {
      SomePieces(schema.value);
      PartsMatch(schema.value, row.schema);
    }
  }
}
