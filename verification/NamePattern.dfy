/**
  processSQLNamePattern of tools/common/dumputils.cpp: from a shell-style name
  pattern to regular expressions in WHERE clauses.  A string here is a sequence
  of characters, one element for each character of the client encoding.
 */
module NamePattern {
  import opened Basics

  // ---------------------------------------------------------------------
  // What a shell-style pattern means

  datatype Piece = Lit(c: char, quoted: bool) | Many | One | Dot

  /** Quoted text stands for itself; outside quotes letters are folded and wildcards count. */
  function Read(s: string, quoted: bool): (ps: seq<Piece>)
    decreases |s|
  {
    if s == "" then []
    else if s[0] == '"' then
      if quoted && |s| > 1 && s[1] == '"' then [Lit('"', true)] + Read(s[2..], true)
      else Read(s[1..], !quoted)
    else [ReadChar(s[0], quoted)] + Read(s[1..], quoted)
  }

  function ReadChar(c: char, quoted: bool): (p: Piece) {
    if quoted then Lit(c, true)
    else if c == '*' then Many
    else if c == '?' then One
    else if c == '.' then Dot
    else Lit(Lower(c), false)
  }

  /** The component behind the last dot. */
  function NamePart(ps: seq<Piece>): (r: seq<Piece>) {
    if ps == [] || ps[|ps| - 1] == Dot then []
    else NamePart(ps[..|ps| - 1]) + [ps[|ps| - 1]]
  }

  /** The component between the last two dots, if there is a dot at all. */
  function SchemaPart(ps: seq<Piece>): (r: Option<seq<Piece>>) {
    if ps == [] then None
    else if ps[|ps| - 1] == Dot then Some(NamePart(ps[..|ps| - 1]))
    else SchemaPart(ps[..|ps| - 1])
  }

  predicate Dotless(ps: seq<Piece>) { forall i :: 0 <= i < |ps| ==> ps[i] != Dot }

  /** Whether the component matches the whole of s. */
  ghost predicate Glob(ps: seq<Piece>, s: string) {
    if ps == [] then s == ""
    else match ps[0]
      case Lit(c, _) => s != "" && s[0] == c && Glob(ps[1..], s[1..])
      case One => s != "" && Glob(ps[1..], s[1..])
      case Many => exists k :: 0 <= k <= |s| && Glob(ps[1..], s[k..])
      case Dot => false
  }

  // ---------------------------------------------------------------------
  // What the server makes of a regular expression: single characters, escaped
  // characters and the dot, each possibly starred, anchored on both sides

  datatype Atom = Exact(c: char) | AnyChar

  datatype Unit = Unit(atom: Atom, starred: bool)

  predicate Special(c: char) {
    c == '|' || c == '*' || c == '+' || c == '?' || c == '(' || c == ')' || c == '[' || c == ']' ||
    c == '{' || c == '}' || c == '.' || c == '^' || c == '$' || c == '\\'
  }

  predicate Quantifier(c: char) { c == '*' || c == '+' || c == '?' || c == '{' }

  /** The atom at the front and the text behind it; None outside the fragment. */
  function ParseAtom(re: string): (r: Option<(Atom, string)>)
    ensures r.Some? ==> |r.value.1| < |re|
  {
    if re == "" then None
    else if re[0] == '\\' then
      (if |re| > 1 && Special(re[1]) then Some((Exact(re[1]), re[2..])) else None)
    else if re[0] == '.' then Some((AnyChar, re[1..]))
    else if Special(re[0]) then None
    else Some((Exact(re[0]), re[1..]))
  }

  function ParseUnits(re: string): (r: Option<seq<Unit>>)
    decreases |re|
  {
    if re == "" then Some([])
    else match ParseAtom(re)
      case None => None
      case Some((atom, rest)) =>
        if rest != "" && rest[0] == '*' then
          if |rest| > 1 && Quantifier(rest[1]) then None
          else Before(Unit(atom, true), ParseUnits(rest[1..]))
        else if rest != "" && Quantifier(rest[0]) then None
        else Before(Unit(atom, false), ParseUnits(rest))
  }

  function Before(u: Unit, more: Option<seq<Unit>>): (r: Option<seq<Unit>>) {
    match more case None => None case Some(us) => Some([u] + us)
  }

  predicate AtomMatches(a: Atom, c: char) { a.AnyChar? || a.c == c }

  ghost predicate UnitsMatch(us: seq<Unit>, s: string) {
    if us == [] then s == ""
    else if us[0].starred then
      exists k :: 0 <= k <= |s| && (forall i :: 0 <= i < k ==> AtomMatches(us[0].atom, s[i])) && UnitsMatch(us[1..], s[k..])
    else s != "" && AtomMatches(us[0].atom, s[0]) && UnitsMatch(us[1..], s[1..])
  }

  /** The expression is anchored, lies in the fragment, and matches s. */
  ghost predicate ReMatches(re: string, s: string) {
    && |re| >= 4 && re[..2] == "^(" && re[|re| - 2..] == ")$"
    && var us := ParseUnits(re[2..|re| - 2]);
       us.Some? && UnitsMatch(us.value, s)
  }

  // ---------------------------------------------------------------------
  // The translation

  function Emit(p: Piece, force: bool): (r: string)
    ensures r != "" || p == Dot
  {
    match p
    case Many => ".*"
    case One => "."
    case Lit(c, quoted) => if c == '$' || ((quoted || force) && Special(c)) then ['\\', c] else [c]
    case Dot => ""
  }

  function EmitAll(ps: seq<Piece>, force: bool): (r: string) {
    if ps == [] then "" else EmitAll(ps[..|ps| - 1], force) + Emit(ps[|ps| - 1], force)
  }

  /** No special character is left to act as part of the expression. */
  predicate Literal(ps: seq<Piece>, force: bool) {
    forall i :: 0 <= i < |ps| && ps[i].Lit? && Special(ps[i].c) ==> ps[i].quoted || force || ps[i].c == '$'
  }

  function UnitOf(p: Piece): (u: Unit)
    requires p != Dot
  {
    match p
    case Many => Unit(AnyChar, true)
    case One => Unit(AnyChar, false)
    case Lit(c, _) => Unit(Exact(c), false)
  }

  function UnitsOf(ps: seq<Piece>): (us: seq<Unit>)
    requires Dotless(ps)
  {
    if ps == [] then [] else [UnitOf(ps[0])] + UnitsOf(ps[1..])
  }

  lemma {:induction false} EmitCons(p: Piece, ps: seq<Piece>, force: bool)
    ensures EmitAll([p] + ps, force) == Emit(p, force) + EmitAll(ps, force)
  {
    if ps == [] {
      assert ([p] + ps)[..0] == [];
      assert [p] + ps == [p];
      Units(Emit(p, force));
    } else {
      var n := |ps| - 1;
      EmitCons(p, ps[..n], force);
      assert ([p] + ps)[..|ps|] == [p] + ps[..n];
      Assoc(Emit(p, force), EmitAll(ps[..n], force), Emit(ps[n], force));
    }
  }

  predicate NoQuantifier(s: string) { s == "" || !Quantifier(s[0]) }

  lemma {:induction false} EmittedStart(ps: seq<Piece>, force: bool)
    requires Dotless(ps) && Literal(ps, force)
    ensures NoQuantifier(EmitAll(ps, force))
  {
    if ps != [] {
      assert ps == [ps[0]] + ps[1..];
      EmitCons(ps[0], ps[1..], force);
    }
  }

  lemma ParseEmitted(p: Piece, rest: string, force: bool)
    requires p != Dot && Literal([p], force) && NoQuantifier(rest)
    ensures ParseUnits(Emit(p, force) + rest) == Before(UnitOf(p), ParseUnits(rest))
  {
    assert [p][0] == p;
    var re := Emit(p, force) + rest;
    Behind(Emit(p, force), rest);
    if p.Many? {
      assert re[1..] == "*" + rest;
      Behind("*", rest);
      assert ParseAtom(re) == Some((AnyChar, re[1..]));
    } else if |Emit(p, force)| == 2 {
      assert ParseAtom(re) == Some((Exact(p.c), rest));
    } else {
      assert ParseAtom(re) == Some((if p.One? then AnyChar else Exact(p.c), rest));
    }
  }

  /** The text written for a component parses back to that component, piece by piece. */
  lemma {:induction false} ParseEmitAll(ps: seq<Piece>, force: bool)
    requires Dotless(ps) && Literal(ps, force)
    ensures ParseUnits(EmitAll(ps, force)) == Some(UnitsOf(ps))
  {
    if ps != [] {
      assert ps == [ps[0]] + ps[1..];
      EmitCons(ps[0], ps[1..], force);
      EmittedStart(ps[1..], force);
      ParseEmitted(ps[0], EmitAll(ps[1..], force), force);
      ParseEmitAll(ps[1..], force);
    }
  }

  lemma {:induction false} UnitsMatchGlob(ps: seq<Piece>, s: string)
    requires Dotless(ps)
    ensures UnitsMatch(UnitsOf(ps), s) <==> Glob(ps, s)
  {
    if ps != [] {
      var us := UnitsOf(ps);
      assert us[1..] == UnitsOf(ps[1..]);
      forall k | 0 <= k <= |s|
        ensures UnitsMatch(us[1..], s[k..]) <==> Glob(ps[1..], s[k..])
      {
        UnitsMatchGlob(ps[1..], s[k..]);
      }
    }
  }

  /** The regular expression of a component matches exactly what the component matches. */
  lemma ExpressionMatches(ps: seq<Piece>, force: bool, s: string)
    requires Dotless(ps) && Literal(ps, force)
    ensures ReMatches("^(" + EmitAll(ps, force) + ")$", s) <==> Glob(ps, s)
  {
    var body := EmitAll(ps, force);
    var re := "^(" + body + ")$";
    assert re[..2] == "^(" && re[|re| - 2..] == ")$" && re[2..|re| - 2] == body;
    ParseEmitAll(ps, force);
    UnitsMatchGlob(ps, s);
  }

  lemma ManyMatchesAll(s: string)
    ensures ReMatches("^(.*)$", s)
  {
    var re := "^(.*)$";
    assert re[2..|re| - 2] == ".*";
    assert ".*" == EmitAll([Many], false) by { assert [Many][..0] == []; }
    ParseEmitAll([Many], false);
    var us := UnitsOf([Many]);
    assert us == [Unit(AnyChar, true)];
    assert s[|s|..] == "" && UnitsMatch(us[1..], s[|s|..]);
  }

  // ---------------------------------------------------------------------
  // The scan over the pattern

  function BufferOf(ps: seq<Piece>, force: bool): (r: string) { "^(" + EmitAll(ps, force) }

  function SchemaBuffer(ps: seq<Piece>, force: bool): (r: string) {
    match SchemaPart(ps) case None => "" case Some(part) => BufferOf(part, force)
  }

  /** How the two buffers grow by one piece. */
  lemma PieceAdded(ps: seq<Piece>, p: Piece, force: bool)
    ensures BufferOf(NamePart(ps + [p]), force) == if p == Dot then "^(" else BufferOf(NamePart(ps), force) + Emit(p, force)
    ensures SchemaBuffer(ps + [p], force) == if p == Dot then BufferOf(NamePart(ps), force) else SchemaBuffer(ps, force)
  {
    assert (ps + [p])[..|ps|] == ps;
    if p == Dot {
      Units("^(");
    } else {
      var part := NamePart(ps);
      assert (part + [p])[..|part|] == part;
      Assoc("^(", EmitAll(part, force), Emit(p, force));
    }
  }

  /** The next step of reading at cp: a quote mark to go over, or a piece and where it ends. */
  lemma ReadAt(done: seq<Piece>, s: string, cp: nat, quoted: bool)
    requires cp < |s|
    ensures s[cp] != '"' ==>
              done + Read(s[cp..], quoted) == done + [ReadChar(s[cp], quoted)] + Read(s[cp + 1..], quoted)
    ensures s[cp] == '"' && quoted && cp + 1 < |s| && s[cp + 1] == '"' ==>
              done + Read(s[cp..], quoted) == done + [Lit('"', true)] + Read(s[cp + 2..], true)
    ensures s[cp] == '"' && !(quoted && cp + 1 < |s| && s[cp + 1] == '"') ==>
              Read(s[cp..], quoted) == Read(s[cp + 1..], !quoted)
  {
  }

  method ScanPattern(pattern: string, force: bool) returns (schemabuf: string, namebuf: string)
    ensures namebuf == BufferOf(NamePart(Read(pattern, false)), force)
    ensures schemabuf == SchemaBuffer(Read(pattern, false), force)
  {
    hide Read, EmitAll, NamePart, SchemaBuffer, BufferOf;
    NothingRead(force);
    schemabuf, namebuf := "", "^(";
    var inquotes, cp := false, 0;
    ghost var done: seq<Piece> := [];
    assert pattern[0..] == pattern;
    Units(Read(pattern, false));
    while cp < |pattern|
      invariant 0 <= cp <= |pattern|
      invariant done + Read(pattern[cp..], inquotes) == Read(pattern, false)
      invariant namebuf == BufferOf(NamePart(done), force) && schemabuf == SchemaBuffer(done, force)
      decreases |pattern| - cp
    {
      var ch := pattern[cp];
      ReadAt(done, pattern, cp, inquotes);
      if ch == '"' {
        if inquotes && cp + 1 < |pattern| && pattern[cp + 1] == '"' {
          PieceAdded(done, Lit('"', true), force);
          done := done + [Lit('"', true)];
          namebuf := namebuf + "\"";
          cp := cp + 1;
        } else {
          inquotes := !inquotes;
        }
        cp := cp + 1;
      } else {
        PieceAdded(done, ReadChar(ch, inquotes), force);
        done := done + [ReadChar(ch, inquotes)];
        if !inquotes && Upper(ch) {
          namebuf := namebuf + [Lower(ch)];
        } else if !inquotes && ch == '*' {
          namebuf := namebuf + ".*";
        } else if !inquotes && ch == '?' {
          namebuf := namebuf + ".";
        } else if !inquotes && ch == '.' {
          schemabuf := namebuf;
          namebuf := "^(";
        } else if ch == '$' {
          namebuf := namebuf + "\\$";
        } else {
          if (inquotes || force) && Special(ch) {
            namebuf := namebuf + "\\" + [ch];
          } else {
            namebuf := namebuf + [ch];
          }
        }
        cp := cp + 1;
      }
    }
    EndOfPattern(pattern, done, inquotes);
  }

  lemma NothingRead(force: bool)
    ensures BufferOf(NamePart([]), force) == "^(" && SchemaBuffer([], force) == ""
  {
  }

  lemma EndOfPattern(s: string, done: seq<Piece>, quoted: bool)
    ensures done + Read(s[|s|..], quoted) == done
  {
  }

  // ---------------------------------------------------------------------
  // The clauses

  datatype Clause = NameMatches(re: string) | SchemaMatches(re: string) | IsVisible

  /** The names of the query variables; an absent one is NULL in the call. */
  datatype Vars = Vars(schema: Option<string>, name: string, altName: Option<string>, visibility: Option<string>)

  /** One row of the catalog query. */
  datatype Row = Row(schema: string, name: string, altName: string, visible: bool)

  ghost predicate Holds(c: Clause, row: Row, vars: Vars) {
    match c
    case NameMatches(re) => ReMatches(re, row.name) || (vars.altName.Some? && ReMatches(re, row.altName))
    case SchemaMatches(re) => ReMatches(re, row.schema)
    case IsVisible => row.visible
  }

  /** What the user asked for. */
  ghost predicate Wanted(pattern: Option<string>, row: Row, vars: Vars) {
    match pattern
    case None => (vars.visibility.Some? ==> row.visible)
    case Some(p) =>
      var ps := Read(p, false);
      var name := NamePart(ps);
      && (name != [] ==> Glob(name, row.name) || (vars.altName.Some? && Glob(name, row.altName)))
      && (match SchemaPart(ps)
          case Some(schema) =>
            if schema != [] then vars.schema.Some? ==> Glob(schema, row.schema)
            else vars.visibility.Some? ==> row.visible
          case None => vars.visibility.Some? ==> row.visible)
  }

  /** The text of a clause; `quote` writes a string literal for the connection. */
  function ClauseText(c: Clause, vars: Vars, quote: string -> string): string {
    match c
    case NameMatches(re) =>
      if vars.altName.Some? then
        "(" + vars.name + " ~ " + quote(re) + "\n        OR " + vars.altName.value + " ~ " + quote(re) + ")\n"
      else vars.name + " ~ " + quote(re) + "\n"
    case SchemaMatches(re) => (if vars.schema.Some? then vars.schema.value else "") + " ~ " + quote(re) + "\n"
    case IsVisible => (if vars.visibility.Some? then vars.visibility.value else "") + "\n"
  }

  /** The first clause opens the WHERE unless the caller has done so already. */
  function ClausesText(cs: seq<Clause>, haveWhere: bool, vars: Vars, quote: string -> string): (r: string) {
    if cs == [] then ""
    else ClausesText(cs[..|cs| - 1], haveWhere, vars, quote) +
         ((if haveWhere || |cs| > 1 then "  AND " else "WHERE ") + ClauseText(cs[|cs| - 1], vars, quote))
  }

  lemma {:induction false} PartsDotless(ps: seq<Piece>)
    ensures Dotless(NamePart(ps))
    ensures SchemaPart(ps).Some? ==> Dotless(SchemaPart(ps).value)
  {
    if ps != [] { PartsDotless(ps[..|ps| - 1]); }
  }

  lemma {:induction false} PartsLiteral(ps: seq<Piece>, force: bool)
    requires Literal(ps, force)
    ensures Literal(NamePart(ps), force)
    ensures SchemaPart(ps).Some? ==> Literal(SchemaPart(ps).value, force)
  {
    if ps != [] {
      PartsLiteral(ps[..|ps| - 1], force);
    }
  }

  lemma {:induction false} EmittedLength(ps: seq<Piece>, force: bool)
    requires Dotless(ps)
    ensures |BufferOf(ps, force)| > 2 <==> ps != []
  {
  }

  const MATCH_ALL := "^(.*)$"

  /** The clause for the name, and the one for the schema or the visibility, where there is one. */
  function NameClauses(ps: seq<Piece>, force: bool): (cs: seq<Clause>) {
    var re := BufferOf(NamePart(ps), force) + ")$";
    if NamePart(ps) != [] && re != MATCH_ALL then [NameMatches(re)] else []
  }

  function SchemaClauses(ps: seq<Piece>, force: bool, vars: Vars): (cs: seq<Clause>) {
    if SchemaPart(ps).Some? && SchemaPart(ps).value != [] then
      var re := BufferOf(SchemaPart(ps).value, force) + ")$";
      if re != MATCH_ALL && vars.schema.Some? then [SchemaMatches(re)] else []
    else if vars.visibility.Some? then [IsVisible] else []
  }

  /** Leaving a clause out, where it is left out, changes nothing. */
  lemma ComponentClause(ps: seq<Piece>, force: bool, s: string)
    requires Dotless(ps) && Literal(ps, force)
    ensures ReMatches(BufferOf(ps, force) + ")$", s) <==> Glob(ps, s)
    ensures BufferOf(ps, force) + ")$" == MATCH_ALL ==> Glob(ps, s)
  {
    ExpressionMatches(ps, force, s);
    ManyMatchesAll(s);
  }

  ghost predicate AllHold(cs: seq<Clause>, row: Row, vars: Vars) {
    forall c :: c in cs ==> Holds(c, row, vars)
  }

  /** The rows that satisfy all the clauses are exactly the rows wanted. */
  lemma ClausesSelect(pattern: string, force: bool, row: Row, vars: Vars)
    requires Literal(Read(pattern, false), force)
    ensures var ps := Read(pattern, false);
            AllHold(NameClauses(ps, force) + SchemaClauses(ps, force, vars), row, vars) <==>
            Wanted(Some(pattern), row, vars)
  {
    hide Read, NamePart, SchemaPart, BufferOf, ReMatches, Glob, Literal;
    var ps := Read(pattern, false);
    PartsDotless(ps);
    PartsLiteral(ps, force);
    ComponentClause(NamePart(ps), force, row.name);
    ComponentClause(NamePart(ps), force, row.altName);
    if SchemaPart(ps).Some? { ComponentClause(SchemaPart(ps).value, force, row.schema); }
    var a, b := NameClauses(ps, force), SchemaClauses(ps, force, vars);
    assert AllHold(a, row, vars) <==> (a == [] || Holds(a[0], row, vars));
    assert AllHold(b, row, vars) <==> (b == [] || Holds(b[0], row, vars));
    assert AllHold(a + b, row, vars) <==> AllHold(a, row, vars) && AllHold(b, row, vars);
  }

  /** The WHEREAND macro and the clause behind it. */
  method AddClause(sql: string, added: bool, haveWhere: bool, c: Clause, vars: Vars, quote: string -> string,
                   ghost buf: string, ghost cs: seq<Clause>)
    returns (sql': string)
    requires sql == buf + ClausesText(cs, haveWhere, vars, quote) && (added <==> cs != [])
    ensures sql' == buf + ClausesText(cs + [c], haveWhere, vars, quote)
  {
    hide ClauseText;
    var text := (if haveWhere || added then "  AND " else "WHERE ") + ClauseText(c, vars, quote);
    sql' := sql + text;
    assert (cs + [c])[..|cs|] == cs;
    Assoc(buf, ClausesText(cs, haveWhere, vars, quote), text);
  }

  /** All the clauses for a pattern, or for none. */
  function ClausesFor(pattern: Option<string>, force: bool, vars: Vars): (cs: seq<Clause>) {
    match pattern
    case None => if vars.visibility.Some? then [IsVisible] else []
    case Some(p) => NameClauses(Read(p, false), force) + SchemaClauses(Read(p, false), force, vars)
  }

  /** The clauses for any pattern without active special characters select exactly the rows wanted. */
  lemma PatternSelects(pattern: Option<string>, force: bool, row: Row, vars: Vars)
    requires pattern.Some? ==> Literal(Read(pattern.value, false), force)
    ensures AllHold(ClausesFor(pattern, force, vars), row, vars) <==> Wanted(pattern, row, vars)
  {
    hide Read, NamePart, SchemaPart, BufferOf, Holds, Literal;
    match pattern
    case None => VisibleOnly(row, vars);
    case Some(p) => ClausesSelect(p, force, row, vars);
  }

  method ProcessSQLNamePattern(pattern: Option<string>, haveWhere: bool, force: bool, vars: Vars,
                               quote: string -> string, buf: string)
    returns (added: bool, sql: string)
    ensures added <==> ClausesFor(pattern, force, vars) != []
    ensures sql == buf + ClausesText(ClausesFor(pattern, force, vars), haveWhere, vars, quote)
  {
    hide Read, NamePart, SchemaPart, BufferOf, EmitAll, ClausesText;
    added, sql := false, buf;
    ghost var clauses: seq<Clause> := [];
    NoClauses(haveWhere, vars, quote);
    Units(buf);
    if pattern.None? {
      if vars.visibility.Some? {
        sql := AddClause(sql, added, haveWhere, IsVisible, vars, quote, buf, clauses);
        added := true;
        Units([IsVisible]);
      }
      return;
    }
    ghost var ps := Read(pattern.value, false);
    PartsDotless(ps);
    EmittedLength(NamePart(ps), force);
    if SchemaPart(ps).Some? { EmittedLength(SchemaPart(ps).value, force); }
    var schemabuf, namebuf := ScanPattern(pattern.value, force);
    if |namebuf| > 2 {
      namebuf := namebuf + ")$";
      if namebuf != MATCH_ALL {
        sql := AddClause(sql, added, haveWhere, NameMatches(namebuf), vars, quote, buf, clauses);
        added, clauses := true, clauses + [NameMatches(namebuf)];
      }
    }
    Units(clauses);
    if |schemabuf| > 2 {
      schemabuf := schemabuf + ")$";
      if schemabuf != MATCH_ALL && vars.schema.Some? {
        sql := AddClause(sql, added, haveWhere, SchemaMatches(schemabuf), vars, quote, buf, clauses);
        added, clauses := true, clauses + [SchemaMatches(schemabuf)];
      }
    } else {
      if vars.visibility.Some? {
        sql := AddClause(sql, added, haveWhere, IsVisible, vars, quote, buf, clauses);
        added, clauses := true, clauses + [IsVisible];
      }
    }
    assert clauses == ClausesFor(pattern, force, vars);
  }

  lemma NoClauses(haveWhere: bool, vars: Vars, quote: string -> string)
    ensures ClausesText([], haveWhere, vars, quote) == ""
  {
  }

  lemma VisibleOnly(row: Row, vars: Vars)
    ensures AllHold(if vars.visibility.Some? then [IsVisible] else [], row, vars) <==> Wanted(None, row, vars)
  {
    assert IsVisible in [IsVisible];
  }

  // ---------------------------------------------------------------------
  // The clauses, read from their text

  /** What is left of the text behind a given front. */
  function After(text: string, front: string): (r: Option<string>)
    ensures r.Some? ==> |r.value| + |front| == |text|
  {
    if front <= text then Some(text[|front|..]) else None
  }

  /** A reader of string literals: the string, and what is left of the text. */
  type Unquote = string -> Option<(string, string)>

  ghost predicate Undoes(unquote: Unquote, quote: string -> string) {
    forall s, tail :: tail != "" && (tail[0] == '\n' || tail[0] == ')') ==> unquote(quote(s) + tail) == Some((s, tail))
  }

  /** A variable, the match operator and the expression; then an end. */
  function ReadMatch(text: string, variable: string, end: string, unquote: Unquote): (r: Option<(string, string)>) {
    var rest :- After(text, variable);
    var rest :- After(rest, " ~ ");
    var (re, rest) :- unquote(rest);
    var rest :- After(rest, end);
    Some((re, rest))
  }

  /** A condition on the name; with an alternative name both are matched with one expression. */
  function ReadName(text: string, vars: Vars, unquote: Unquote): (r: Option<(Clause, string)>) {
    match vars.altName
    case None =>
      var (re, rest) :- ReadMatch(text, vars.name, "\n", unquote);
      Some((NameMatches(re), rest))
    case Some(alt) =>
      var (re, rest) :- ReadMatch(text, "(" + vars.name, "\n        OR ", unquote);
      var (re', rest) :- ReadMatch(rest, alt, ")\n", unquote);
      if re == re' then Some((NameMatches(re), rest)) else None
  }

  function ReadClause(text: string, vars: Vars, unquote: Unquote): (r: Option<(Clause, string)>) {
    var name := ReadName(text, vars, unquote);
    var schema := if vars.schema.Some? then ReadMatch(text, vars.schema.value, "\n", unquote) else None;
    if name.Some? then name
    else if schema.Some? then Some((SchemaMatches(schema.value.0), schema.value.1))
    else
      var rule :- vars.visibility;
      var rest :- After(text, rule + "\n");
      Some((IsVisible, rest))
  }

  /** WHERE and a condition, or AND and a condition, any number of times. */
  function ReadClauses(text: string, haveWhere: bool, vars: Vars, unquote: Unquote): (r: Option<seq<Clause>>)
    decreases |text|
  {
    if text == "" then Some([])
    else
      var rest :- After(text, if haveWhere then "  AND " else "WHERE ");
      var (first, rest) :- ReadClause(rest, vars, unquote);
      if |rest| >= |text| then None
      else
        var more :- ReadClauses(rest, true, vars, unquote);
        Some([first] + more)
  }

  predicate OneWord(t: string) { t != "" && t[0] != '(' && forall i :: 0 <= i < |t| ==> t[i] != ' ' && t[i] != '\n' }

  /** The names of variables are single words, no two the same. */
  predicate ToldApart(vars: Vars) {
    && OneWord(vars.name) && (vars.schema.Some? ==> OneWord(vars.schema.value) && vars.schema.value != vars.name)
    && (vars.visibility.Some? ==> OneWord(vars.visibility.value))
  }

  /** The clause has a variable to be about. */
  predicate Expressible(c: Clause, vars: Vars) {
    (c.SchemaMatches? ==> vars.schema.Some?) && (c.IsVisible? ==> vars.visibility.Some?)
  }

  lemma AfterFront(front: string, rest: string)
    ensures After(front + rest, front) == Some(rest)
  {
    Behind(front, rest);
  }

  lemma MatchRead(variable: string, re: string, end: string, rest: string, quote: string -> string, unquote: Unquote)
    requires Undoes(unquote, quote) && end != "" && (end[0] == '\n' || end[0] == ')')
    ensures ReadMatch(variable + (" ~ " + (quote(re) + (end + rest))), variable, end, unquote) == Some((re, rest))
  {
    hide After;
    AfterFront(variable, " ~ " + (quote(re) + (end + rest)));
    AfterFront(" ~ ", quote(re) + (end + rest));
    assert (end + rest)[0] == end[0];
    AfterFront(end, rest);
  }

  /** Another word, with a blank or the end of the line behind it, is not taken for a match of this one. */
  lemma OtherWord(word: string, other: string, rest: string, end: string, unquote: Unquote)
    requires OneWord(word) && OneWord(other) && rest != "" && (rest[0] == ' ' || rest[0] == '\n')
    requires word != other || rest[0] == '\n'
    ensures ReadMatch(other + rest, word, end, unquote).None?
  {
    var text := other + rest;
    if word <= text {
      NotLonger(word, other, rest);
      var c := text[|word|..][0];
      if |word| == |other| {
        assert word == text[..|word|] == other && c == rest[0];
      } else {
        assert c == other[|word|];
      }
      assert c != ' ' && !(" ~ " <= text[|word|..]);
    }
  }

  lemma NotLonger(word: string, other: string, rest: string)
    requires OneWord(word) && rest != "" && (rest[0] == ' ' || rest[0] == '\n') && word <= other + rest
    ensures |word| <= |other|
  {
    assert (other + rest)[|other|] == rest[0];
  }

  lemma NoParen(word: string, other: string, rest: string, end: string, unquote: Unquote)
    requires OneWord(other)
    ensures ReadMatch(other + rest, "(" + word, end, unquote).None?
  {
    assert (other + rest)[0] == other[0] && ("(" + word)[0] == '(';
  }

  lemma NameText(re: string, vars: Vars, quote: string -> string, rest: string)
    ensures ClauseText(NameMatches(re), vars, quote) + rest ==
            match vars.altName
            case None => vars.name + (" ~ " + (quote(re) + ("\n" + rest)))
            case Some(alt) =>
              var second := alt + (" ~ " + (quote(re) + (")\n" + rest)));
              ("(" + vars.name) + (" ~ " + (quote(re) + ("\n        OR " + second)))
  {
    var q := quote(re);
    match vars.altName
    case None => Regroup(vars.name, " ~ ", q, "\n", rest);
    case Some(alt) =>
      var or := "\n        OR ";
      Regroup(alt, " ~ ", q, ")\n", rest);
      Regroup("(" + vars.name, " ~ ", q, or, alt + " ~ " + q + ")\n" + rest);
      Regroup(("(" + vars.name) + " ~ " + q + or, alt, " ~ ", q, ")\n" + rest);
      Regroup(alt, " ~ ", q, ")\n" + rest, "");
      Units(")\n" + rest);
      Units(alt + " ~ " + q + (")\n" + rest));
      Assoc(alt + " ~ " + q, ")\n", rest);
      Assoc(("(" + vars.name) + " ~ " + q + or + alt + " ~ " + q, ")\n", rest);
  }

  lemma Regroup(a: string, b: string, c: string, d: string, e: string)
    ensures a + b + c + d + e == a + (b + (c + (d + e)))
  {
    Assoc(a + b + c, d, e);
    Assoc(a + b, c, d + e);
    Assoc(a, b, c + (d + e));
  }

  lemma NameRead(re: string, vars: Vars, quote: string -> string, unquote: Unquote, rest: string)
    requires Undoes(unquote, quote)
    ensures ReadName(ClauseText(NameMatches(re), vars, quote) + rest, vars, unquote) == Some((NameMatches(re), rest))
  {
    hide ClauseText, ReadMatch;
    NameText(re, vars, quote, rest);
    match vars.altName
    case None => MatchRead(vars.name, re, "\n", rest, quote, unquote);
    case Some(alt) =>
      var second := alt + (" ~ " + (quote(re) + (")\n" + rest)));
      MatchRead("(" + vars.name, re, "\n        OR ", second, quote, unquote);
      MatchRead(alt, re, ")\n", rest, quote, unquote);
  }

  /** A text that begins with another word is no condition on the name. */
  lemma NotName(word: string, rest: string, vars: Vars, unquote: Unquote)
    requires ToldApart(vars) && OneWord(word) && rest != "" && (rest[0] == ' ' || rest[0] == '\n')
    requires word != vars.name || rest[0] == '\n'
    ensures ReadName(word + rest, vars, unquote).None?
  {
    hide ReadMatch, OneWord;
    match vars.altName
    case None => OtherWord(vars.name, word, rest, "\n", unquote);
    case Some(alt) => NoParen(vars.name, word, rest, "\n        OR ", unquote);
  }

  /** Each clause reads back. */
  lemma ClauseRead(c: Clause, vars: Vars, quote: string -> string, unquote: Unquote, rest: string)
    requires Undoes(unquote, quote) && ToldApart(vars) && Expressible(c, vars)
    ensures ReadClause(ClauseText(c, vars, quote) + rest, vars, unquote) == Some((c, rest))
  {
    hide ReadName, ReadMatch, OneWord, Undoes;
    match c
    case NameMatches(re) => NameRead(re, vars, quote, unquote, rest);
    case SchemaMatches(re) =>
      var s, q := vars.schema.value, quote(re);
      Regroup(s, " ~ ", q, "\n", rest);
      NotName(s, " ~ " + (q + ("\n" + rest)), vars, unquote);
      MatchRead(s, re, "\n", rest, quote, unquote);
    case IsVisible =>
      var v := vars.visibility.value;
      Assoc(v, "\n", rest);
      NotName(v, "\n" + rest, vars, unquote);
      if vars.schema.Some? { OtherWord(vars.schema.value, v, "\n" + rest, "\n", unquote); }
      AfterFront(v + "\n", rest);
  }

  lemma {:induction false} ClausesFrom(cs: seq<Clause>, haveWhere: bool, vars: Vars, quote: string -> string)
    requires cs != []
    ensures ClausesText(cs, haveWhere, vars, quote) ==
            (if haveWhere then "  AND " else "WHERE ") +
            (ClauseText(cs[0], vars, quote) + ClausesText(cs[1..], true, vars, quote))
  {
    hide ClauseText;
    var n := |cs| - 1;
    var front, first := if haveWhere then "  AND " else "WHERE ", ClauseText(cs[0], vars, quote);
    if n == 0 {
      Units(first);
      assert ClausesText(cs[..0], haveWhere, vars, quote) == "" && ClausesText(cs[1..], true, vars, quote) == "";
    } else {
      var last := "  AND " + ClauseText(cs[n], vars, quote);
      ClausesFrom(cs[..n], haveWhere, vars, quote);
      assert cs[..n][1..] == cs[1..][..n - 1] && cs[1..][n - 1] == cs[n];
      var middle := ClausesText(cs[1..][..n - 1], true, vars, quote);
      assert ClausesText(cs[1..], true, vars, quote) == middle + last;
      Assoc(first, middle, last);
      Assoc(front, first + middle, last);
    }
  }

  /** The text of the clauses reads back as the clauses. */
  lemma {:induction false} ClausesRead(cs: seq<Clause>, haveWhere: bool, vars: Vars, quote: string -> string,
                                       unquote: Unquote)
    requires Undoes(unquote, quote) && ToldApart(vars) && forall c :: c in cs ==> Expressible(c, vars)
    ensures ReadClauses(ClausesText(cs, haveWhere, vars, quote), haveWhere, vars, unquote) == Some(cs)
    decreases |cs|
  {
    hide ClauseText, ReadClause, ToldApart, Expressible, Undoes, ClausesText;
    if cs == [] {
      NoClauses(haveWhere, vars, quote);
    } else {
      var front := if haveWhere then "  AND " else "WHERE ";
      var more := ClausesText(cs[1..], true, vars, quote);
      assert cs[0] in cs && cs == [cs[0]] + cs[1..];
      ClausesFrom(cs, haveWhere, vars, quote);
      AfterFront(front, ClauseText(cs[0], vars, quote) + more);
      ClauseRead(cs[0], vars, quote, unquote, more);
      ClausesRead(cs[1..], true, vars, quote, unquote);
    }
  }

  lemma AllExpressible(pattern: Option<string>, force: bool, vars: Vars)
    ensures forall c :: c in ClausesFor(pattern, force, vars) ==> Expressible(c, vars)
  {
    hide Read, NamePart, SchemaPart, BufferOf;
  }

  /** The text that is added to the query selects exactly the rows that the user asked for. */
  lemma TextSelects(pattern: Option<string>, force: bool, haveWhere: bool, row: Row, vars: Vars,
                    quote: string -> string, unquote: Unquote)
    requires pattern.Some? ==> Literal(Read(pattern.value, false), force)
    requires Undoes(unquote, quote) && ToldApart(vars)
    ensures var text := ClausesText(ClausesFor(pattern, force, vars), haveWhere, vars, quote);
            var read := ReadClauses(text, haveWhere, vars, unquote);
            read.Some? && (AllHold(read.value, row, vars) <==> Wanted(pattern, row, vars))
  {
    hide Read, Literal, ClausesFor, ClausesText, ReadClauses, AllHold, Wanted, ToldApart, Undoes;
    AllExpressible(pattern, force, vars);
    ClausesRead(ClausesFor(pattern, force, vars), haveWhere, vars, quote, unquote);
    PatternSelects(pattern, force, row, vars);
  }
}
