/**
  What the server makes of the text of an ACL script: the commands it was
  written for, as far as the server knows the names in it, and so the ACL it was
  written for.
 */
module AclTextReplay {
  import opened Basics
  import opened Encoding
  import opened Identifiers
  import opened SqlTokens
  import Items = AclItems
  import opened AclServer
  import opened AclScript
  import opened AclReading
  import opened AclReplay
  import ArrayText

  // ---------------------------------------------------------------------
  // Keywords

  lemma {:induction false} AcceptKws(ws: seq<string>, rest: seq<Token>)
    ensures Accept(Kws(ws) + rest, ws) == Some(rest)
  {
    if ws == [] {
      Units(rest);
    } else {
      hide Kw;
      AcceptKws(ws[1..], rest);
      FirstAndRest(Kw(ws[0]), Kws(ws[1..]), rest);
    }
  }

  lemma AcceptOne(k: string, rest: seq<Token>)
    ensures Accept([Kw(k)] + rest, [k]) == Some(rest)
  {
    AcceptKws([k], rest);
    OneKw(k);
  }

  lemma KwsDiffer(a: string, b: string)
    requires |a| != |b| || (a != "" && Lower(a[0]) != Lower(b[0]))
    ensures Kw(a) != Kw(b)
  {
    if |a| == |b| { assert Folded(a)[0] != Folded(b)[0]; }
  }

  /** Another keyword, or none, is not accepted. */
  lemma Reject(ts: seq<Token>, words: seq<string>)
    requires words != [] && (ts == [] || ts[0] != Kw(words[0]))
    ensures Accept(ts, words).None?
  {
  }

  // ---------------------------------------------------------------------
  // Privileges

  function Column(sub: Option<string>, g: Grammar): (r: Option<string>) {
    if sub.Some? && TokensIn(sub.value) != [] then NameOf(TokensIn(sub.value)[0], g.reserved, g.mblen) else None
  }

  lemma ColumnRead(sub: Option<string>, w: Wording, g: Grammar, rest: seq<Token>)
    requires Fits(w, sub, g) && (rest == [] || rest[0] != Mark('('))
    ensures ReadColumn(ColumnTokens(sub) + rest, g) == Some((Column(sub, g), rest))
  {
    hide Lex, NameOf, DefaultsPrefix, PlainName;
    match sub
    case None => Units(rest);
    case Some(s) =>
      var t := TokensIn(s)[0];
      var ts := ColumnTokens(sub) + rest;
      assert TokensIn(s) == [t];
      assert ts[0] == Mark('(') && ts[1..] == [t] + ([Mark(')')] + rest);
      Behind([t], [Mark(')')] + rest);
      Behind([Mark(')')], rest);
  }

  /** What may follow a list of privileges. */
  predicate Follows(rest: seq<Token>) { rest == [] || (rest[0] != Mark('(') && rest[0] != Mark(',')) }

  lemma {:induction false} NamesRead(ns: seq<string>, sub: Option<string>, w: Wording, g: Grammar, rest: seq<Token>)
    requires Fits(w, sub, g) && ns != [] && Follows(rest)
    ensures ReadNames(CommaTokens(ns, ColumnTokens(sub)) + rest, g) == Some((Wanted(Some(ns), Column(sub, g)), rest))
  {
    hide Fits, ColumnTokens, Column, ReadColumn;
    var cols := ColumnTokens(sub);
    var ts := CommaTokens(ns, cols) + rest;
    var more := if |ns| == 1 then rest else [Mark(',')] + (CommaTokens(ns[1..], cols) + rest);
    CommaFirst(ns, cols, rest);
    ColumnRead(sub, w, g, more);
    if |ns| > 1 {
      NamesRead(ns[1..], sub, w, g, rest);
      Behind([Mark(',')], CommaTokens(ns[1..], cols) + rest);
      assert [ns[0]] + ns[1..] == ns;
    } else {
      assert [ns[0]] == ns;
    }
  }

  lemma CommaFirst(ns: seq<string>, cols: seq<Token>, rest: seq<Token>)
    requires ns != []
    ensures var ts := CommaTokens(ns, cols) + rest;
            && ts[0] == Word(ns[0])
            && ts[1..] == cols + if |ns| == 1 then rest else [Mark(',')] + (CommaTokens(ns[1..], cols) + rest)
  {
    hide CommaTokens;
    var more := if |ns| == 1 then [] else [Mark(',')] + CommaTokens(ns[1..], cols);
    CommaIs(ns, cols);
    FirstAndRest(Word(ns[0]), cols + more, rest);
    Assoc(cols, more, rest);
    if |ns| == 1 {
      Units(rest);
    } else {
      Assoc([Mark(',')], CommaTokens(ns[1..], cols), rest);
    }
  }

  lemma CommaIs(ns: seq<string>, cols: seq<Token>)
    requires ns != []
    ensures CommaTokens(ns, cols) ==
            [Word(ns[0])] + (cols + if |ns| == 1 then [] else [Mark(',')] + CommaTokens(ns[1..], cols))
  {
  }

  lemma FirstAndRest(t: Token, a: seq<Token>, b: seq<Token>)
    ensures ([t] + a + b)[0] == t && ([t] + a + b)[1..] == a + b
  {
  }

  /** What the reader finds of a list of privileges. */
  function WantedOf(spec: Items.Spec, sub: Option<string>, g: Grammar): (r: Wanted) {
    Wanted(if spec.All? then None else Some(NamesOf(spec.privs)), Column(sub, g))
  }

  /** No privilege is called ALL. */
  predicate LongNames(ns: seq<string>) { forall i :: 0 <= i < |ns| ==> |ns[i]| > 3 }

  lemma {:induction false} NamesAreLong(ps: seq<Items.Priv>)
    ensures LongNames(NamesOf(ps))
  {
    if ps != [] { NamesAreLong(ps[..|ps| - 1]); }
  }

  lemma PrivilegesRead(spec: Items.Spec, sub: Option<string>, w: Wording, g: Grammar, rest: seq<Token>)
    requires Fits(w, sub, g) && (spec.Only? ==> NamesOf(spec.privs) != []) && rest != [] && rest[0] == Kw("ON")
    ensures ReadPrivileges(SpecTokens(spec, sub) + rest, g) == Some((WantedOf(spec, sub, g), rest))
  {
    hide Fits, ColumnTokens, Column, ReadColumn, CommaTokens, NamesOf;
    var ts := SpecTokens(spec, sub) + rest;
    match spec
    case All =>
      var cols := ColumnTokens(sub);
      Assoc([Kw("ALL")], cols, rest);
      AcceptOne("ALL", cols + rest);
      ColumnStarts(sub, rest);
      KwsDiffer("ON", "PRIVILEGES");
      Reject(cols + rest, ["PRIVILEGES"]);
      ColumnRead(sub, w, g, rest);
    case Only(ps) =>
      var ns := NamesOf(ps);
      CommaFirst(ns, ColumnTokens(sub), rest);
      NamesAreLong(ps);
      Reject(ts, ["ALL"]);
      NamesRead(ns, sub, w, g, rest);
  }

  lemma ColumnStarts(sub: Option<string>, rest: seq<Token>)
    requires rest != []
    ensures var ts := ColumnTokens(sub) + rest; ts[0] == Mark('(') || ts[0] == rest[0]
  {
  }

  // ---------------------------------------------------------------------
  // The privileges named are those meant

  /** The names of different privileges of an object are different. */
  predicate NamesApart(app: seq<Items.Priv>) {
    && (forall p :: p in app ==> RightNames(p) != [])
    && (forall p, q, n :: p in app && q in app && n in RightNames(p) && n in RightNames(q) ==> p == q)
  }

  lemma {:induction false} NamesOfIs(ps: seq<Items.Priv>, n: string)
    ensures n in NamesOf(ps) <==> exists p :: p in ps && n in RightNames(p)
  {
    hide RightNames;
    if ps != [] {
      var k := |ps| - 1;
      NamesOfIs(ps[..k], n);
      assert ps == ps[..k] + [ps[k]];
    }
  }

  /** Exactly the privileges listed have all their names in the list of names. */
  lemma NamedIff(app: seq<Items.Priv>, ps: seq<Items.Priv>, p: Items.Priv)
    requires NamesApart(app) && p in app && (forall q :: q in ps ==> q in app)
    ensures AllNamed(p, NamesOf(ps)) <==> p in ps
  {
    hide RightNames;
    var ns := NamesOf(ps);
    if p in ps {
      forall n | n in RightNames(p) ensures n in ns { NamesOfIs(ps, n); }
    } else if AllNamed(p, ns) {
      var n := RightNames(p)[0];
      assert n in RightNames(p) && n in ns;
      NamesOfIs(ps, n);
    }
  }

  /** Picking the named ones out of the privileges of the object gives back a list that was picked by anything. */
  lemma {:induction false} NamedIsChosen(part: seq<Items.Priv>, ns: seq<string>, codes: string, option: bool)
    requires forall p :: p in part ==> (AllNamed(p, ns) <==> Items.HeldAs(codes, p, option))
    ensures Named(part, ns) == Items.Chosen(part, codes, option)
  {
    hide AllNamed, Items.HeldAs;
    if part != [] {
      var n := |part| - 1;
      assert part == part[..n] + [part[n]];
      NamedIsChosen(part[..n], ns, codes, option);
    }
  }

  /** The privileges of a command read back. */
  predicate SpecMeant(spec: Items.Spec, sub: Option<string>, app: seq<Items.Priv>, g: Grammar) {
    SpecFor(WantedOf(spec, sub, g), app) == Some(spec)
  }

  lemma SpecReads(app: seq<Items.Priv>, codes: string, option: bool, sub: Option<string>, g: Grammar)
    requires NamesApart(app)
    ensures SpecMeant(Items.SpecOf(app, codes, option), sub, app, g)
  {
    hide RightNames, NamesOf, AllNamed, Named, Items.HeldAs, Items.Chosen;
    var spec := Items.SpecOf(app, codes, option);
    if spec.Only? {
      var ps := spec.privs;
      var ns := NamesOf(ps);
      Items.ChosenMembers(app, codes, option);
      forall p | p in app ensures AllNamed(p, ns) <==> Items.HeldAs(codes, p, option) { NamedIff(app, ps, p); }
      NamedIsChosen(app, ns, codes, option);
      forall n | n in ns ensures exists p :: p in app && n in RightNames(p) { NamesOfIs(ps, n); }
    }
  }

  /** A name tells the code: no two have both length and first letter in common. */
  function CodeOf(n: string): (c: char)
    requires n != ""
  {
    match (|n|, n[0])
    case (6, 'i') => 'a' case (6, 's') => 'r' case (6, 'd') => 'd' case (8, 't') => 'D' case (6, 'u') => 'w'
    case (10, 'r') => 'x' case (7, 't') => 't' case (7, 'e') => 'X' case (5, 'u') => 'U' case (6, 'c') => 'C'
    case (9, 't') => 'T' case (7, 'c') => 'c'
    case _ => '?'
  }

  lemma NameTellsCode(p: Items.Priv, n: string)
    requires n in RightNames(p)
    ensures n != "" && (CodeOf(n) == p.code || (p == Items.UPDATE_DELETE && CodeOf(n) == 'd'))
  {
  }

  lemma AppApart(kind: Items.Kind, column: bool, version: int)
    ensures NamesApart(Items.Applicable(kind, column, version))
  {
    hide RightNames, Items.Applicable, CodeOf, WellNamed;
    var app := Items.Applicable(kind, column, version);
    AppNamed(kind, column, version);
    forall p | p in app ensures RightNames(p) != [] {
      LexPrivNames(p);
    }
    forall p, q, n | p in app && q in app && n in RightNames(p) && n in RightNames(q) ensures p == q {
      NameTellsCode(p, n);
      NameTellsCode(q, n);
      OldTable(kind, column, version);
      CodesApart(app, p, q);
    }
  }

  lemma LexPrivNames(p: Items.Priv)
    requires WellNamed(p) || p == Items.UPDATE_DELETE
    ensures RightNames(p) != []
  {
  }

  lemma CodesApart(app: seq<Items.Priv>, p: Items.Priv, q: Items.Priv)
    requires p in app && q in app && forall i, j :: 0 <= i < j < |app| ==> app[i].code != app[j].code
    ensures p.code == q.code ==> p == q
  {
    var i :| 0 <= i < |app| && app[i] == p;
    var j :| 0 <= j < |app| && app[j] == q;
  }

  /** Where UPDATE stands for DELETE as well, there is no DELETE. */
  lemma OldTable(kind: Items.Kind, column: bool, version: int)
    ensures var app := Items.Applicable(kind, column, version);
            Items.UPDATE_DELETE in app ==> forall p :: p in app ==> p.code != 'd'
  {
  }

  /** CONNECT alone, as it is put back for old databases. */
  lemma ConnectReads(cx: Context, g: Grammar)
    requires NeedsConnect(cx)
    ensures SpecMeant(Items.Only([Items.CONNECT]), cx.sub, cx.App(), g)
  {
    hide SpecMeant, Items.SpecOf;
    AppApart(cx.kind, cx.sub.Some?, cx.version);
    SpecReads(cx.App(), "c", false, cx.sub, g);
    ConnectChosen();
  }

  lemma ConnectChosen()
    ensures Items.SpecOf([Items.CREATE, Items.CONNECT, Items.TEMPORARY], "c", false) == Items.Only([Items.CONNECT])
  {
    hide Items.HeldAs;
    ConnectHeld();
    var app := [Items.CREATE, Items.CONNECT, Items.TEMPORARY];
    assert app[..2] == [Items.CREATE, Items.CONNECT] && app[..2][..1] == [Items.CREATE] && [Items.CREATE][..0] == [];
    assert Items.Chosen([Items.CREATE], "c", false) == [];
    assert Items.Chosen(app[..2], "c", false) == [Items.CONNECT];
    assert Items.CREATE in app;
  }

  lemma ConnectHeld()
    ensures Items.HeldAs("c", Items.CONNECT, false)
    ensures !Items.HeldAs("c", Items.CREATE, false) && !Items.HeldAs("c", Items.TEMPORARY, false)
  {
    assert IndexOf("c", 'c') == 0;
    assert IndexOf("c", 'C') == 1 && IndexOf("c", 'T') == 1 by { assert "c"[1..] == ""; }
  }

  // ---------------------------------------------------------------------
  // Objects

  predicate Plural(kind: Items.Kind) { kind.Tables? || kind.Functions? || kind.Sequences? || kind.Types? }

  /** The first keywords of different kinds differ, but for those that begin with FOREIGN. */
  lemma KindsDiffer(j: Items.Kind, k: Items.Kind)
    requires Plural(j) == Plural(k) && j != k && !j.ForeignTable? && !k.ForeignTable?
    requires !(j.ForeignDataWrapper? && k.ForeignServer?) && !(j.ForeignServer? && k.ForeignDataWrapper?)
    ensures var a, b := KindWords(j), KindWords(k);
            a != [] && b != [] && a[0] != "" && b[0] != "" && (|a[0]| != |b[0]| || Lower(a[0][0]) != Lower(b[0][0]))
  {
  }

  lemma KindsAgree()
    ensures Items.ForeignTable !in OBJECT_KINDS && Items.ForeignTable !in DEFAULT_KINDS
    ensures (forall k :: k in OBJECT_KINDS ==> !Plural(k)) && (forall k :: k in DEFAULT_KINDS ==> Plural(k))
  {
  }

  lemma {:induction false} KindRead(k: Items.Kind, kinds: seq<Items.Kind>, rest: seq<Token>)
    requires k in kinds && Items.ForeignTable !in kinds && forall j :: j in kinds ==> Plural(j) == Plural(k)
    ensures ReadKind(Kws(KindWords(k)) + rest, kinds) == Some((k, rest))
  {
    hide KindWords, Kw;
    var j, ts := kinds[0], Kws(KindWords(k)) + rest;
    if j == k {
      AcceptKws(KindWords(k), rest);
    } else {
      OtherKind(j, k, rest);
      KindRead(k, kinds[1..], rest);
    }
  }

  lemma OtherKind(j: Items.Kind, k: Items.Kind, rest: seq<Token>)
    requires Plural(j) == Plural(k) && j != k && !j.ForeignTable? && !k.ForeignTable?
    ensures Accept(Kws(KindWords(k)) + rest, KindWords(j)).None?
  {
    if j.ForeignDataWrapper? && k.ForeignServer? {
      NoWrapper(rest);
    } else if j.ForeignServer? && k.ForeignDataWrapper? {
      NoServer(rest);
    } else {
      hide Kw, KindWords, Plural;
      KindsDiffer(j, k);
      KwsDiffer(KindWords(j)[0], KindWords(k)[0]);
      FirstDiffers(KindWords(k), KindWords(j), rest);
    }
  }

  lemma FirstDiffers(a: seq<string>, b: seq<string>, rest: seq<Token>)
    requires a != [] && b != [] && Kw(a[0]) != Kw(b[0])
    ensures Accept(Kws(a) + rest, b).None?
  {
    hide Kw;
    FirstAndRest(Kw(a[0]), Kws(a[1..]), rest);
    Reject(Kws(a) + rest, b);
  }

  lemma NoWrapper(rest: seq<Token>)
    ensures Accept(Kws(["FOREIGN", "SERVER"]) + rest, ["FOREIGN", "DATA", "WRAPPER"]).None?
  {
    hide Kw, Kws;
    SecondDiffers("FOREIGN", "SERVER", ["DATA", "WRAPPER"], rest);
    assert ["FOREIGN"] + ["DATA", "WRAPPER"] == ["FOREIGN", "DATA", "WRAPPER"];
  }

  lemma NoServer(rest: seq<Token>)
    ensures Accept(Kws(["FOREIGN", "DATA", "WRAPPER"]) + rest, ["FOREIGN", "SERVER"]).None?
  {
    hide Kw;
    var all := ["FOREIGN", "DATA", "WRAPPER"];
    assert all[1..] == ["DATA", "WRAPPER"];
    FirstAndRest(Kw("FOREIGN"), Kws(all[1..]), rest);
    KwsDiffer("DATA", "SERVER");
    FirstDiffers(all[1..], ["SERVER"], rest);
    assert ["FOREIGN", "SERVER"][1..] == ["SERVER"];
  }

  lemma SecondDiffers(a: string, b: string, other: seq<string>, rest: seq<Token>)
    requires other != [] && |b| != |other[0]|
    ensures Accept(Kws([a, b]) + rest, [a] + other).None?
  {
    hide Kw;
    var ts := Kws([a, b]) + rest;
    TwoKws(a, b);
    KwsDiffer(b, other[0]);
    assert ts[0] == Kw(a) && ts[1..][0] == Kw(b);
    assert ([a] + other)[1..] == other;
    Reject(ts[1..], other);
  }

  lemma NotForeignTable(j: Items.Kind, rest: seq<Token>)
    requires j in OBJECT_KINDS
    ensures Accept(Kws(["FOREIGN", "TABLE"]) + rest, KindWords(j)).None?
  {
    hide Kw;
    TwoKws("FOREIGN", "TABLE");
    if j.ForeignDataWrapper? {
      SecondDiffers("FOREIGN", "TABLE", ["DATA", "WRAPPER"], rest);
      assert ["FOREIGN"] + ["DATA", "WRAPPER"] == KindWords(j);
    } else if j.ForeignServer? {
      SecondDiffers("FOREIGN", "TABLE", ["SERVER"], rest);
      assert ["FOREIGN"] + ["SERVER"] == KindWords(j);
    } else {
      KwsDiffer(KindWords(j)[0], "FOREIGN");
    }
  }

  lemma {:induction false} NoneRead(ts: seq<Token>, kinds: seq<Items.Kind>)
    requires forall j :: j in kinds ==> Accept(ts, KindWords(j)).None?
    ensures ReadKind(ts, kinds).None?
  {
    hide KindWords;
    if kinds != [] { NoneRead(ts, kinds[1..]); }
  }

  /** GRANT does not know foreign tables, although the script would name them so. */
  lemma ForeignTableUnread(rest: seq<Token>)
    ensures ReadKind(Kws(KindWords(Items.ForeignTable)) + rest, OBJECT_KINDS).None?
  {
    hide Kw, ReadKind;
    forall j | j in OBJECT_KINDS ensures Accept(Kws(["FOREIGN", "TABLE"]) + rest, KindWords(j)).None? {
      NotForeignTable(j, rest);
    }
    NoneRead(Kws(["FOREIGN", "TABLE"]) + rest, OBJECT_KINDS);
  }

  lemma {:induction false} ObjectRead(name: seq<Token>, stop: string, rest: seq<Token>)
    requires PlainName(name) && (stop == "TO" || stop == "FROM")
    ensures ReadObject(name + ([Kw(stop)] + rest), stop) == Some((name, rest))
  {
    hide Kw;
    var ts := name + ([Kw(stop)] + rest);
    StopIsWord(stop);
    if name == [] {
      Units([Kw(stop)] + rest);
      Behind([Kw(stop)], rest);
    } else {
      ObjectRead(name[1..], stop, rest);
      assert ts[0] == name[0] && ts[1..] == name[1..] + ([Kw(stop)] + rest);
      assert [name[0]] + name[1..] == name;
    }
  }

  lemma StopIsWord(stop: string)
    ensures Kw(stop) != Mark(';')
  {
  }

  // ---------------------------------------------------------------------
  // Roles

  /** A role as the server hears of it: it may refuse the name or cut it off, and PUBLIC is no role. */
  function HeardRole(name: string, group: bool, g: Grammar): (r: Option<Who>) {
    var n :- Known(name, g.mblen);
    RoleNamed(n, group)
  }

  function HeardWho(who: Who, g: Grammar): (r: Option<Who>) {
    match who case Public => Some(Public) case Role(n) => HeardRole(n, false, g) case Group(n) => HeardRole(n, true, g)
  }

  lemma WhoRead(who: Who, w: Wording, sub: Option<string>, g: Grammar, rest: seq<Token>)
    requires Fits(w, sub, g)
    ensures ReadWho(WhoTokens(who, w) + rest, g) ==
            match HeardWho(who, g) case None => None case Some(heard) => Some((heard, rest))
  {
    hide Lex, NameOf, Truncated, DefaultsPrefix, PlainName, Ident, IdentToken;
    var ts := WhoTokens(who, w) + rest;
    match who
    case Public =>
      PublicIs(g);
      KwsDiffer("PUBLIC", "GROUP");
      Reject(ts, ["GROUP"]);
      Behind([Kw("PUBLIC")], rest);
    case Role(n) =>
      LexIdent(n, w.rules, g.reserved, g.mblen);
      NotGroup(n, w, g);
      Reject(ts, ["GROUP"]);
      Behind([IdentToken(n, w.rules)], rest);
    case Group(n) =>
      LexIdent(n, w.rules, g.reserved, g.mblen);
      var t := IdentToken(n, w.rules);
      assert WhoTokens(who, w) == [Kw("GROUP")] + [t];
      Assoc([Kw("GROUP")], [t], rest);
      AcceptOne("GROUP", [t] + rest);
      Behind([Kw("GROUP")], [t] + rest);
      Behind([t], rest);
  }

  lemma PublicIs(g: Grammar)
    requires Folded("PUBLIC") !in g.reserved
    ensures NameOf(Kw("PUBLIC"), g.reserved, g.mblen) == Some("public")
  {
    assert Folded("PUBLIC") == "public";
  }

  /** A bare name is not the keyword GROUP, because that is reserved. */
  lemma NotGroup(n: string, w: Wording, g: Grammar)
    requires g.reserved <= w.rules.reserved && Folded("GROUP") in g.reserved
    ensures IdentToken(n, w.rules) != Kw("GROUP")
  {
  }

  // ---------------------------------------------------------------------
  // Commands

  function ScopeOf(w: Wording, sub: Option<string>, g: Grammar): (r: Scope) {
    Scope(w.kind, TokensIn(w.name), Column(sub, g), DefaultsOf(w))
  }

  function DefaultsOf(w: Wording): (r: Option<seq<Token>>) {
    if w.prefix == "" || |TokensIn(w.prefix)| < 3 then None else Some(TokensIn(w.prefix)[3..])
  }

  lemma OnMore(direction: string, end: seq<Token>, rest: seq<Token>, w: Wording)
    ensures OnTokens(direction, end, w) + rest == OnTokens(direction, end + rest, w)
  {
    hide Kw, Kws, KindWords, TokensIn;
    var kind, name, to := Kws(KindWords(w.kind)), TokensIn(w.name), [Kw(direction)];
    Assoc(to, end, rest);
    Assoc(name, to + end, rest);
    Assoc(kind, name + (to + end), rest);
    Assoc([Kw("ON")], kind + (name + (to + end)), rest);
  }

  lemma PrefixLong(w: Wording, sub: Option<string>, g: Grammar)
    requires Fits(w, sub, g) && w.prefix != ""
    ensures var ts := TokensIn(w.prefix);
            && |ts| >= 3 && ts == Kws(DEFAULT_WORDS) + ts[3..] && SkipOptions(ts[3..], g) == Some([])
            && DefaultsOf(w) == Some(ts[3..])
  {
    hide Lex, PlainName, Kws, SkipOptions;
  }

  lemma ScopeRead(direction: string, end: seq<Token>, w: Wording, sub: Option<string>, g: Grammar)
    requires Fits(w, sub, g) && (direction == "TO" || direction == "FROM")
    ensures ReadScope(OnTokens(direction, end, w), Column(sub, g), DefaultsOf(w), direction) ==
            Some((ScopeOf(w, sub, g), end))
  {
    hide Lex, Kw, Kws, KindWords, DefaultsPrefix, PlainName, Column, ReadKind, ReadObject;
    var kinds := if DefaultsOf(w).Some? then DEFAULT_KINDS else OBJECT_KINDS;
    var name := TokensIn(w.name) + ([Kw(direction)] + end);
    AcceptOne("ON", Kws(KindWords(w.kind)) + name);
    if w.prefix != "" { PrefixLong(w, sub, g); }
    KindsAgree();
    hide Plural;
    KindRead(w.kind, kinds, name);
    ObjectRead(TokensIn(w.name), direction, end);
  }

  function HeardCommand(c: Command, g: Grammar): (r: Option<Command>) {
    match c
    case RevokeAll(who) =>
      var heard :- HeardWho(who, g);
      Some(RevokeAll(heard))
    case Grant(spec, who, option) =>
      var heard :- HeardWho(who, g);
      Some(Grant(spec, heard, option))
    case SetAuthorization(role) =>
      var heard :- Known(role, g.mblen);
      Some(SetAuthorization(heard))
    case ResetAuthorization => Some(ResetAuthorization)
  }

  function StatementOf(c: Command, sub: Option<string>, w: Wording, g: Grammar): (r: Statement) {
    if c.RevokeAll? || c.Grant? then On(ScopeOf(w, sub, g), c) else Alone(c)
  }

  /** What a statement reads as. */
  function Outcome(c: Command, sub: Option<string>, w: Wording, g: Grammar, rest: seq<Token>)
    : (r: Option<(Statement, seq<Token>)>)
  {
    var heard :- HeardCommand(c, g);
    Some((StatementOf(heard, sub, w, g), rest))
  }

  lemma EndRead(option: bool, rest: seq<Token>)
    ensures var options := Accept(EndTokens(option) + rest, ["WITH", "GRANT", "OPTION"]);
            && options.Some? == option
            && AcceptMark(if option then options.value else EndTokens(option) + rest, ';') == Some(rest)
  {
    hide Kw, Kws;
    Behind([Mark(';')], rest);
    if option {
      var ws := ["WITH", "GRANT", "OPTION"];
      Assoc(Kws(ws), [Mark(';')], rest);
      AcceptKws(ws, [Mark(';')] + rest);
    } else {
      Units([Mark(';')]);
      StopIsWord("WITH");
      Reject([Mark(';')] + rest, ["WITH", "GRANT", "OPTION"]);
    }
  }

  lemma GrantRead(c: Command, sub: Option<string>, w: Wording, app: seq<Items.Priv>, g: Grammar, rest: seq<Token>)
    requires Fits(w, sub, g) && c.Grant? && SpecMeant(c.spec, sub, app, g) && (c.spec.Only? ==> NamesOf(c.spec.privs) != [])
    ensures ReadGrant(SpecTokens(c.spec, sub) + OnTokens("TO", WhoTokens(c.to, w) + (EndTokens(c.option) + rest), w),
                      DefaultsOf(w), app, g) == Outcome(c, sub, w, g, rest)
  {
    hide Fits, SpecTokens, OnTokens, WhoTokens, EndTokens, HeardWho, ReadPrivileges, ReadScope, ReadWho, SpecFor, Kw;
    hide NamesOf, DefaultsOf, Column;
    var end := WhoTokens(c.to, w) + (EndTokens(c.option) + rest);
    var on := OnTokens("TO", end, w);
    OnFirst("TO", end, w);
    PrivilegesRead(c.spec, sub, w, g, on);
    ScopeRead("TO", end, w, sub, g);
    WhoRead(c.to, w, sub, g, EndTokens(c.option) + rest);
    EndRead(c.option, rest);
  }

  lemma OnFirst(direction: string, end: seq<Token>, w: Wording)
    ensures var on := OnTokens(direction, end, w); on != [] && on[0] == Kw("ON")
  {
  }

  lemma RevokeRead(who: Who, sub: Option<string>, w: Wording, g: Grammar, rest: seq<Token>)
    requires Fits(w, sub, g)
    ensures ReadRevoke(SpecTokens(Items.All, sub) + OnTokens("FROM", WhoTokens(who, w) + ([Mark(';')] + rest), w),
                       DefaultsOf(w), g) == Outcome(RevokeAll(who), sub, w, g, rest)
  {
    hide Fits, SpecTokens, OnTokens, WhoTokens, HeardWho, ReadPrivileges, ReadScope, ReadWho, Kw, DefaultsOf, Column;
    var end := WhoTokens(who, w) + ([Mark(';')] + rest);
    var on := OnTokens("FROM", end, w);
    OnFirst("FROM", end, w);
    PrivilegesRead(Items.All, sub, w, g, on);
    ScopeRead("FROM", end, w, sub, g);
    WhoRead(who, w, sub, g, [Mark(';')] + rest);
    Behind([Mark(';')], rest);
  }

  /** A GRANT or REVOKE, with or without the options of default privileges in front. */
  lemma ActionRead(c: Command, sub: Option<string>, w: Wording, app: seq<Items.Priv>, g: Grammar, rest: seq<Token>)
    requires Fits(w, sub, g) && (c.RevokeAll? || c.Grant?)
    requires c.Grant? ==> SpecMeant(c.spec, sub, app, g) && (c.spec.Only? ==> NamesOf(c.spec.privs) != [])
    ensures ReadAction(ActionTokens(c, sub, w) + rest, DefaultsOf(w), app, g) == Outcome(c, sub, w, g, rest)
  {
    hide Fits, OnTokens, WhoTokens, EndTokens, ReadGrant, ReadRevoke, Kw, DefaultsOf, SpecFor, Outcome, NamesOf;
    if c.Grant? {
      hide SpecTokens;
      var spec, end := SpecTokens(c.spec, sub), WhoTokens(c.to, w) + EndTokens(c.option);
      GrantRead(c, sub, w, app, g, rest);
      OnMore("TO", end, rest, w);
      Assoc(WhoTokens(c.to, w), EndTokens(c.option), rest);
      Assoc(spec, OnTokens("TO", end, w), rest);
      Assoc([Kw("GRANT")], spec + OnTokens("TO", end, w), rest);
      AcceptOne("GRANT", spec + OnTokens("TO", end + rest, w));
    } else {
      var cols, end := ColumnTokens(sub), WhoTokens(c.from, w) + [Mark(';')];
      RevokeRead(c.from, sub, w, g, rest);
      OnMore("FROM", end, rest, w);
      Assoc(WhoTokens(c.from, w), [Mark(';')], rest);
      var on := OnTokens("FROM", end, w);
      Assoc([Kw("ALL")], cols, on);
      Assoc([Kw("ALL")] + cols, on, rest);
      Assoc([Kw("REVOKE")], [Kw("ALL")] + cols + on, rest);
      AcceptOne("REVOKE", [Kw("ALL")] + cols + (on + rest));
      KwsDiffer("REVOKE", "GRANT");
      Reject(ActionTokens(c, sub, w) + rest, ["GRANT"]);
    }
  }

  lemma {:induction false} AcceptMore(a: seq<Token>, words: seq<string>, b: seq<Token>)
    requires Accept(a, words).Some?
    ensures Accept(a + b, words) == Some(Accept(a, words).value + b)
  {
    hide Kw;
    if words != [] {
      AcceptMore(a[1..], words[1..], b);
      assert (a + b)[0] == a[0] && (a + b)[1..] == a[1..] + b;
    }
  }

  /** The options end where the command begins. */
  lemma {:induction false} OptionsEnd(a: seq<Token>, b: seq<Token>, g: Grammar)
    requires SkipOptions(a, g) == Some([]) && b != [] && (b[0] == Kw("GRANT") || b[0] == Kw("REVOKE"))
    ensures SkipOptions(a + b, g) == Some(b)
    decreases |a|
  {
    hide Kw, NameOf, Accept;
    if a == [] {
      Units(b);
      CommandWords();
      Reject(b, ["FOR", "ROLE"]);
      Reject(b, ["IN", "SCHEMA"]);
    } else {
      if Accept(a, ["FOR", "ROLE"]).Some? { AcceptMore(a, ["FOR", "ROLE"], b); }
      if Accept(a, ["IN", "SCHEMA"]).Some? { AcceptMore(a, ["IN", "SCHEMA"], b); }
      assert (a + b)[2..] == a[2..] + b;
      var rest := ReadName(a[2..], g).value.1;
      assert (a[2..] + b)[1..] == a[2..][1..] + b;
      OptionsEnd(rest, b, g);
    }
  }

  lemma CommandWords()
    ensures Kw("GRANT") != Kw("FOR") && Kw("GRANT") != Kw("IN") && Kw("REVOKE") != Kw("FOR") && Kw("REVOKE") != Kw("IN")
    ensures Kw("GRANT") != Kw("SET") && Kw("GRANT") != Kw("RESET") && Kw("GRANT") != Kw("ALTER")
    ensures Kw("REVOKE") != Kw("SET") && Kw("REVOKE") != Kw("RESET") && Kw("REVOKE") != Kw("ALTER")
    ensures Kw("ALTER") != Kw("SET") && Kw("ALTER") != Kw("RESET") && Kw("RESET") != Kw("SET")
  {
    hide Kw;
    KwsDiffer("GRANT", "FOR");
    KwsDiffer("GRANT", "IN");
    KwsDiffer("REVOKE", "FOR");
    KwsDiffer("REVOKE", "IN");
    KwsDiffer("GRANT", "SET");
    KwsDiffer("GRANT", "RESET");
    KwsDiffer("GRANT", "ALTER");
    KwsDiffer("REVOKE", "SET");
    KwsDiffer("REVOKE", "RESET");
    KwsDiffer("REVOKE", "ALTER");
    KwsDiffer("ALTER", "SET");
    KwsDiffer("ALTER", "RESET");
    KwsDiffer("RESET", "SET");
  }

  lemma ActionFirst(c: Command, sub: Option<string>, w: Wording, rest: seq<Token>)
    requires c.RevokeAll? || c.Grant?
    ensures var ts := ActionTokens(c, sub, w) + rest;
            ts != [] && (ts[0] == Kw("GRANT") || ts[0] == Kw("REVOKE"))
  {
    hide OnTokens, WhoTokens, EndTokens, SpecTokens, ColumnTokens, Kw;
  }

  /** What the commands say about privileges can be read back. */
  predicate Meant(c: Command, sub: Option<string>, app: seq<Items.Priv>, g: Grammar) {
    c.Grant? ==> SpecMeant(c.spec, sub, app, g) && (c.spec.Only? ==> NamesOf(c.spec.privs) != [])
  }

  lemma OnStatementRead(c: Command, sub: Option<string>, w: Wording, app: seq<Items.Priv>, g: Grammar, rest: seq<Token>)
    requires Fits(w, sub, g) && Meant(c, sub, app, g) && (c.RevokeAll? || c.Grant?)
    ensures ReadStatement(CommandTokens(c, sub, w) + rest, app, g) == Outcome(c, sub, w, g, rest)
  {
    hide Fits, ActionTokens, ReadAction, ReadSet, ReadReset, Kw, Outcome, DefaultsOf, SkipOptions, SpecMeant, NamesOf;
    var pre, act := TokensIn(w.prefix), ActionTokens(c, sub, w) + rest;
    var ts := CommandTokens(c, sub, w) + rest;
    Assoc(pre, ActionTokens(c, sub, w), rest);
    ActionRead(c, sub, w, app, g, rest);
    ActionFirst(c, sub, w, rest);
    CommandWords();
    if w.prefix == "" {
      NoPrefix(w);
      Units(act);
      Reject(ts, SET_WORDS);
      Reject(ts, RESET_WORDS);
      Reject(ts, DEFAULT_WORDS);
    } else {
      PrefixLong(w, sub, g);
      var options := pre[3..];
      Assoc(Kws(DEFAULT_WORDS), options, act);
      DefaultFirst(options + act);
      Reject(ts, SET_WORDS);
      Reject(ts, RESET_WORDS);
      AcceptKws(DEFAULT_WORDS, options + act);
      OptionsEnd(options, act, g);
      Behind(options, act);
    }
  }

  lemma NoPrefix(w: Wording)
    requires w.prefix == ""
    ensures TokensIn(w.prefix) == [] && DefaultsOf(w) == None
  {
  }

  lemma DefaultFirst(rest: seq<Token>)
    ensures var ts := Kws(DEFAULT_WORDS) + rest; ts != [] && ts[0] == Kw("ALTER")
  {
  }

  lemma SetRead(role: string, sub: Option<string>, w: Wording, app: seq<Items.Priv>, g: Grammar, rest: seq<Token>)
    requires Fits(w, sub, g)
    ensures ReadStatement(CommandTokens(SetAuthorization(role), sub, w) + rest, app, g) ==
            Outcome(SetAuthorization(role), sub, w, g, rest)
  {
    hide Lex, PlainName, DefaultsPrefix, Kw, Kws, IdentToken, Known, NameOf, ReadReset, ReadDefaults, ReadAction;
    var t := IdentToken(role, w.rules);
    LexIdent(role, w.rules, g.reserved, g.mblen);
    Assoc(Kws(SET_WORDS), [t] + [Mark(';')], rest);
    Assoc([t], [Mark(';')], rest);
    AcceptKws(SET_WORDS, [t] + ([Mark(';')] + rest));
    Behind([t], [Mark(';')] + rest);
    Behind([Mark(';')], rest);
  }

  lemma ResetRead(sub: Option<string>, w: Wording, app: seq<Items.Priv>, g: Grammar, rest: seq<Token>)
    ensures ReadStatement(CommandTokens(ResetAuthorization, sub, w) + rest, app, g) ==
            Outcome(ResetAuthorization, sub, w, g, rest)
  {
    hide Kw, Kws, ReadSet, ReadDefaults, ReadAction;
    Assoc(Kws(RESET_WORDS), [Mark(';')], rest);
    AcceptKws(RESET_WORDS, [Mark(';')] + rest);
    Behind([Mark(';')], rest);
    CommandWords();
    ResetFirst([Mark(';')] + rest);
    Reject(Kws(RESET_WORDS) + ([Mark(';')] + rest), SET_WORDS);
  }

  lemma ResetFirst(rest: seq<Token>)
    ensures var ts := Kws(RESET_WORDS) + rest; ts != [] && ts[0] == Kw("RESET")
  {
  }

  /** The server reads a command as it was meant, up to the names it knows otherwise. */
  lemma CommandRead(c: Command, sub: Option<string>, w: Wording, app: seq<Items.Priv>, g: Grammar, rest: seq<Token>)
    requires Fits(w, sub, g) && Meant(c, sub, app, g)
    ensures ReadStatement(CommandTokens(c, sub, w) + rest, app, g) == Outcome(c, sub, w, g, rest)
  {
    hide Fits, ReadStatement, Outcome, CommandTokens;
    match c
    case RevokeAll(_) => OnStatementRead(c, sub, w, app, g, rest);
    case Grant(_, _, _) => OnStatementRead(c, sub, w, app, g, rest);
    case SetAuthorization(role) => SetRead(role, sub, w, app, g, rest);
    case ResetAuthorization => ResetRead(sub, w, app, g, rest);
  }

  // ---------------------------------------------------------------------
  // Scripts

  function ScriptTokens(cs: seq<Command>, sub: Option<string>, w: Wording): (ts: seq<Token>) {
    if cs == [] then [] else CommandTokens(cs[0], sub, w) + ScriptTokens(cs[1..], sub, w)
  }

  /** A command as it can be written and read. */
  predicate Sound(c: Command, sub: Option<string>, app: seq<Items.Priv>, g: Grammar) {
    CommandWritable(c, sub) && Meant(c, sub, app, g)
  }

  lemma EndsLine(c: Command, sub: Option<string>, w: Wording, more: string)
    ensures Apart(Text(c, sub, w), more)
  {
    hide WhoText, Items.SpecText, Items.SubText, KindText, Ident;
    var t := Text(c, sub, w);
    assert t != "" && t[|t| - 1] == '\n';
  }

  lemma {:induction false} LexScript(cs: seq<Command>, sub: Option<string>, w: Wording, app: seq<Items.Priv>, g: Grammar)
    requires Fits(w, sub, g) && forall c :: c in cs ==> Sound(c, sub, app, g)
    ensures Lex(Texts(cs, sub, w)) == Some(ScriptTokens(cs, sub, w))
  {
    hide Lex, Fits, Apart, Text, Texts, CommandTokens, CommandWritable, Meant;
    if cs == [] {
      LexNothing();
      TextsOne(ResetAuthorization, sub, w);
    } else {
      var c, more := cs[0], cs[1..];
      assert cs == [c] + more && c in cs;
      TextsConcat([c], more, sub, w);
      TextsOne(c, sub, w);
      LexCommand(c, sub, w, g);
      LexScript(more, sub, w, app, g);
      EndsLine(c, sub, w, Texts(more, sub, w));
      Both(Text(c, sub, w), CommandTokens(c, sub, w), Texts(more, sub, w), ScriptTokens(more, sub, w));
    }
  }

  /** What the server hears of a script. */
  function HeardAll(cs: seq<Command>, sub: Option<string>, w: Wording, g: Grammar): (r: Option<seq<Statement>>) {
    if cs == [] then Some([])
    else
      var first :- HeardCommand(cs[0], g);
      var more :- HeardAll(cs[1..], sub, w, g);
      Some([StatementOf(first, sub, w, g)] + more)
  }

  lemma SomeTokens(c: Command, sub: Option<string>, w: Wording)
    ensures CommandTokens(c, sub, w) != []
  {
    hide Kw, OnTokens, WhoTokens, SpecTokens, EndTokens;
  }

  lemma {:induction false} ScriptHeard(cs: seq<Command>, sub: Option<string>, w: Wording, app: seq<Items.Priv>, g: Grammar)
    requires Fits(w, sub, g) && forall c :: c in cs ==> Sound(c, sub, app, g)
    ensures ReadAll(ScriptTokens(cs, sub, w), app, g) == HeardAll(cs, sub, w, g)
  {
    hide Fits, CommandTokens, CommandWritable, Meant, ReadStatement, HeardCommand, StatementOf;
    if cs != [] {
      var c, more := cs[0], ScriptTokens(cs[1..], sub, w);
      assert c in cs;
      SomeTokens(c, sub, w);
      CommandRead(c, sub, w, app, g, more);
      ScriptHeard(cs[1..], sub, w, app, g);
    }
  }

  /** The server reads the text of a script as the script, up to the names it knows otherwise. */
  lemma ScriptRead(cs: seq<Command>, sub: Option<string>, w: Wording, app: seq<Items.Priv>, g: Grammar)
    requires Fits(w, sub, g) && forall c :: c in cs ==> Sound(c, sub, app, g)
    ensures ReadScript(Texts(cs, sub, w), app, g) == HeardAll(cs, sub, w, g)
  {
    hide Lex, Fits, Texts, Sound, ReadAll, HeardAll, ScriptTokens;
    LexScript(cs, sub, w, app, g);
    ScriptHeard(cs, sub, w, app, g);
  }

  // ---------------------------------------------------------------------
  // The names the server knows

  /** A name that a role can have. */
  predicate Nameable(name: string) { 0 < |name| < NAMEDATALEN && name != "public" && name != "none" }

  predicate Spoken(c: Command) {
    match c
    case RevokeAll(who) => who.Public? || Nameable(who.name)
    case Grant(_, who, _) => who.Public? || Nameable(who.name)
    case SetAuthorization(role) => 0 < |role| < NAMEDATALEN
    case ResetAuthorization => true
  }

  /** A command is heard as it is, if and only if the names in it are names that a role can have. */
  lemma HeardIff(c: Command, g: Grammar)
    ensures HeardCommand(c, g) == Some(c) <==> Spoken(c)
  {
    hide Known;
    match c
    case RevokeAll(who) => if !who.Public? { KnownIs(who.name, g.mblen); }
    case Grant(_, who, _) => if !who.Public? { KnownIs(who.name, g.mblen); }
    case SetAuthorization(role) => KnownIs(role, g.mblen);
    case ResetAuthorization =>
  }

  function StatementsOf(cs: seq<Command>, sub: Option<string>, w: Wording, g: Grammar): (r: seq<Statement>) {
    if cs == [] then [] else [StatementOf(cs[0], sub, w, g)] + StatementsOf(cs[1..], sub, w, g)
  }

  lemma {:induction false} AllHeardIff(cs: seq<Command>, sub: Option<string>, w: Wording, g: Grammar)
    ensures HeardAll(cs, sub, w, g) == Some(StatementsOf(cs, sub, w, g)) <==> forall c :: c in cs ==> Spoken(c)
  {
    hide HeardCommand, Spoken, ScopeOf;
    if cs != [] {
      AllHeardIff(cs[1..], sub, w, g);
      HeardIff(cs[0], g);
      assert cs == [cs[0]] + cs[1..];
      var a, b := StatementsOf(cs, sub, w, g), HeardAll(cs, sub, w, g);
      assert a[1..] == StatementsOf(cs[1..], sub, w, g);
      if b.Some? { assert b.value[1..] == HeardAll(cs[1..], sub, w, g).value; }
    }
  }

  /** The text of a script reads back, if and only if the server knows the names in it. */
  lemma ScriptReadsBack(cs: seq<Command>, sub: Option<string>, w: Wording, app: seq<Items.Priv>, g: Grammar)
    requires Fits(w, sub, g) && forall c :: c in cs ==> Sound(c, sub, app, g)
    ensures ReadScript(Texts(cs, sub, w), app, g) == Some(StatementsOf(cs, sub, w, g)) <==>
            forall c :: c in cs ==> Spoken(c)
  {
    hide Fits, Sound, HeardAll, StatementsOf, Spoken, Texts, ReadScript;
    ScriptRead(cs, sub, w, app, g);
    AllHeardIff(cs, sub, w, g);
  }

  // ---------------------------------------------------------------------
  // The commands of an ACL script

  /** The role that a command for the grantee names. */
  function TargetName(grantee: string): string { if GroupName(grantee) then grantee[6..] else grantee }

  /** The roles of the items are roles that there can be. */
  predicate KnownRoles(items: seq<Items.Item>, cx: Context) {
    && (cx.owner.Some? ==> Nameable(cx.owner.value))
    && forall i :: 0 <= i < |items| ==> KnownItem(items[i])
  }

  predicate KnownItem(it: Items.Item) {
    (it.grantee == "" || Nameable(TargetName(it.grantee))) && |it.grantor| < NAMEDATALEN
  }

  /** Columns came after the servers whose UPDATE covered DELETE. */
  predicate Recent(cx: Context) { cx.sub.Some? ==> cx.version >= 70200 }

  /** A command that is written, read and heard as it is. */
  predicate Good(c: Command, cx: Context, g: Grammar) { Sound(c, cx.sub, cx.App(), g) && Spoken(c) }

  predicate AllGood(cs: seq<Command>, cx: Context, g: Grammar) { forall c :: c in cs ==> Good(c, cx, g) }

  lemma GoodConcat(a: seq<Command>, b: seq<Command>, cx: Context, g: Grammar)
    requires AllGood(a, cx, g) && AllGood(b, cx, g)
    ensures AllGood(a + b, cx, g)
  {
    hide Good;
  }

  lemma SpecGood(codes: string, option: bool, cx: Context, g: Grammar)
    requires Recent(cx)
    ensures var spec := Items.SpecOf(cx.App(), codes, option);
            spec != Items.Only([]) ==>
              && SpecWritable(spec, cx.sub) && SpecMeant(spec, cx.sub, cx.App(), g)
              && (spec.Only? ==> NamesOf(spec.privs) != [])
  {
    hide Items.Applicable, SpecMeant, WellNamed, NamesApart, Items.HeldAs, RightNames;
    var app := cx.App();
    AppNamed(cx.kind, cx.sub.Some?, cx.version);
    AppApart(cx.kind, cx.sub.Some?, cx.version);
    SpecReads(app, codes, option, cx.sub, g);
    var spec := Items.SpecOf(app, codes, option);
    if spec.Only? && spec.privs != [] {
      Items.ChosenMembers(app, codes, option);
      forall i | 0 <= i < |spec.privs| ensures Writable(spec.privs[i], cx.sub) { assert spec.privs[i] in spec.privs; }
      SomeNames(spec.privs, cx.sub);
    }
  }

  lemma SomeNames(ps: seq<Items.Priv>, sub: Option<string>)
    requires ps != [] && forall i :: 0 <= i < |ps| ==> Writable(ps[i], sub)
    ensures NamesOf(ps) != []
  {
    hide RightNames, WellNamed;
    LexPrivNames(ps[|ps| - 1]);
  }

  lemma GrantGood(codes: string, option: bool, who: Who, cx: Context, g: Grammar)
    requires Recent(cx) && Items.SpecOf(cx.App(), codes, option) != Items.Only([]) && (who.Public? || Nameable(who.name))
    ensures Good(Grant(Items.SpecOf(cx.App(), codes, option), who, option), cx, g)
  {
    hide Items.SpecOf, SpecWritable, SpecMeant, Nameable, NamesOf;
    SpecGood(codes, option, cx, g);
  }

  lemma GrantsGood(it: Items.Item, who: Who, cx: Context, g: Grammar)
    requires Recent(cx) && (who.Public? || Nameable(who.name))
    ensures AllGood(Grants(it, cx.App(), who), cx, g)
  {
    hide Items.SpecOf, Good, Nameable;
    if Items.SpecOf(cx.App(), it.codes, false) != Items.Only([]) { GrantGood(it.codes, false, who, cx, g); }
    if Items.SpecOf(cx.App(), it.codes, true) != Items.Only([]) { GrantGood(it.codes, true, who, cx, g); }
  }

  lemma RevokeGood(who: Who, cx: Context, g: Grammar)
    requires who.Public? || Nameable(who.name)
    ensures AllGood([RevokeAll(who)], cx, g)
  {
  }

  lemma SessionGood(role: string, cx: Context, g: Grammar)
    requires 0 < |role| < NAMEDATALEN
    ensures AllGood([SetAuthorization(role)], cx, g) && AllGood([ResetAuthorization], cx, g)
  {
  }

  lemma OwnGood(it: Items.Item, cx: Context, g: Grammar)
    requires Recent(cx) && (cx.owner.Some? ==> Nameable(cx.owner.value))
    ensures AllGood(OwnCommands(it, cx), cx, g)
  {
    hide Effective, AtDefault, AllGood, Grants, Nameable;
    NothingGood(cx, g);
    if OwnCommands(it, cx) != [] {
      RevokeGood(Role(it.grantee), cx, g);
      GrantsGood(it, Role(it.grantee), cx, g);
      GoodConcat([RevokeAll(Role(it.grantee))], Grants(it, cx.App(), Role(it.grantee)), cx, g);
    }
  }

  lemma NothingGood(cx: Context, g: Grammar)
    ensures AllGood([], cx, g)
  {
  }

  lemma OtherGood(it: Items.Item, cx: Context, g: Grammar)
    requires Recent(cx) && KnownItem(it)
    ensures AllGood(OtherCommands(it, cx), cx, g)
  {
    hide Effective, Own, AllGood, Grants, Nameable;
    NothingGood(cx, g);
    var who := Target(it.grantee);
    GrantsGood(it, who, cx, g);
    if ActsAsGrantor(it, cx) {
      SessionGood(it.grantor, cx, g);
      var set_, grants := [SetAuthorization(it.grantor)], Grants(it, cx.App(), who);
      GoodConcat(set_, grants, cx, g);
      GoodConcat(set_ + grants, [ResetAuthorization], cx, g);
    }
  }

  lemma {:induction false} ItemsGood(items: seq<Items.Item>, cx: Context, g: Grammar)
    requires Recent(cx) && KnownRoles(items, cx)
    ensures AllGood(OwnScript(items, cx), cx, g) && AllGood(OtherScript(items, cx), cx, g)
  {
    hide AllGood, Nameable, KnownItem, OwnCommands, OtherCommands;
    NothingGood(cx, g);
    if items != [] {
      var n := |items| - 1;
      ItemsGood(items[..n], cx, g);
      OwnGood(items[n], cx, g);
      OtherGood(items[n], cx, g);
      GoodConcat(OwnScript(items[..n], cx), OwnCommands(items[n], cx), cx, g);
      GoodConcat(OtherScript(items[..n], cx), OtherCommands(items[n], cx), cx, g);
    }
  }

  lemma OpeningGood(cx: Context, g: Grammar)
    requires cx.Columns()
    ensures AllGood(Opening(cx), cx, g)
  {
    hide Good, Items.Applicable;
    var revoke, grant := [RevokeAll(Public)], Grant(Items.Only([Items.CONNECT]), Public, false);
    RevokeGood(Public, cx, g);
    if NeedsConnect(cx) {
      ConnectReads(cx, g);
      ConnectGood(cx, g);
      GoodConcat(revoke, [grant], cx, g);
    }
  }

  lemma ConnectGood(cx: Context, g: Grammar)
    requires SpecMeant(Items.Only([Items.CONNECT]), cx.sub, cx.App(), g)
    ensures Good(Grant(Items.Only([Items.CONNECT]), Public, false), cx, g)
  {
    hide WellNamed, SpecMeant, RightNames;
    DatabaseNames();
    SomeNames([Items.CONNECT], cx.sub);
  }

  lemma ScriptGood(items: seq<Items.Item>, cx: Context, g: Grammar)
    requires cx.Columns() && Recent(cx) && KnownRoles(items, cx)
    ensures AllGood(Script(items, cx), cx, g)
  {
    hide AllGood, Opening, OwnScript, OtherScript, OwnerFound, Nameable;
    OpeningGood(cx, g);
    ItemsGood(items, cx, g);
    NothingGood(cx, g);
    if cx.owner.Some? { RevokeGood(Role(cx.owner.value), cx, g); }
    GoodConcat(Opening(cx), OwnScript(items, cx), cx, g);
    GoodConcat(Opening(cx) + OwnScript(items, cx), Closing(items, cx), cx, g);
    GoodConcat(FirstScript(items, cx), OtherScript(items, cx), cx, g);
  }

  // ---------------------------------------------------------------------
  // The text rebuilds the ACL

  function CommandsOf(sts: seq<Statement>): (cs: seq<Command>) {
    if sts == [] then [] else [sts[0].command] + CommandsOf(sts[1..])
  }

  lemma {:induction false} CommandsBack(cs: seq<Command>, sub: Option<string>, w: Wording, g: Grammar)
    ensures CommandsOf(StatementsOf(cs, sub, w, g)) == cs
    ensures forall st :: st in StatementsOf(cs, sub, w, g) && st.On? ==> st.scope == ScopeOf(w, sub, g)
  {
    hide ScopeOf;
    if cs != [] {
      CommandsBack(cs[1..], sub, w, g);
      assert StatementsOf(cs, sub, w, g)[1..] == StatementsOf(cs[1..], sub, w, g);
      assert cs == [cs[0]] + cs[1..];
    }
  }

  /** The text that is written for the items is read as their commands, all on the one object. */
  lemma TextIsScript(items: seq<Items.Item>, cx: Context, w: Wording, g: Grammar)
    requires cx.Columns() && Recent(cx) && KnownRoles(items, cx) && Fits(w, cx.sub, g)
    ensures var read := ReadScript(Texts(Script(items, cx), cx.sub, w), cx.App(), g);
            && read.Some? && CommandsOf(read.value) == Script(items, cx)
            && (forall st :: st in read.value && st.On? ==> st.scope == ScopeOf(w, cx.sub, g))
  {
    hide Script, Texts, ReadScript, Fits, Sound, Spoken, KnownRoles, StatementsOf, CommandsOf, Items.Applicable, ScopeOf;
    var cs := Script(items, cx);
    ScriptGood(items, cx, g);
    assert AllGood(cs, cx, g);
    ScriptReadsBack(cs, cx.sub, w, cx.App(), g);
    CommandsBack(cs, cx.sub, w, g);
  }

  /**
    The text of the script, read by the server and run on a new object, leaves
    exactly the privileges listed under the condition of ScriptReplaysAcl.
   */
  lemma TextReplaysAcl(items: seq<Items.Item>, cx: Context, w: Wording, g: Grammar, acl0: Acl, table: set<Key>)
    requires cx.Valid() && cx.owner.Some? && Pristine(acl0, cx.owner.value, cx.App())
    requires DistinctPairs(items) && Complete(items)
    requires Recent(cx) && KnownRoles(items, cx) && Fits(w, cx.sub, g)
    ensures var read := ReadScript(Texts(Script(items, cx), cx.sub, w), cx.App(), g);
            && read.Some? && (forall st :: st in read.value && st.On? ==> st.scope == ScopeOf(w, cx.sub, g))
            && var r := Run(Session(acl0, None), cx.owner.value, cx.App(), CommandsOf(read.value), table);
            && r.user.None?
            && (r.acl == Goal(items, cx) <==>
                  && NoGroupNames(items, cx)
                  && DefaultHolds(items, cx, acl0)
                  && InGrantOrder(Start(items, cx), items, cx, table))
  {
    hide Script, Texts, ReadScript, Fits, CommandsOf, Run, Goal, NoGroupNames, DefaultHolds, InGrantOrder, Start;
    hide Pristine, KnownRoles, DistinctPairs, Complete, ScopeOf;
    TextIsScript(items, cx, w, g);
    ScriptReplaysAcl(items, cx, acl0, table);
  }

  /** The items that the server's entries are printed as. */
  function EntryItems(entries: seq<Entry>): (items: seq<Items.Item>) {
    seq(|entries|, i requires 0 <= i < |entries| => EntryItem(entries[i]))
  }

  function EntryTexts(entries: seq<Entry>): (texts: seq<string>) {
    seq(|entries|, i requires 0 <= i < |entries| => Items.PrintItem(EntryItem(entries[i])))
  }

  /** One entry for each grantor and grantee, and roles that there can be. */
  predicate Entries(entries: seq<Entry>) {
    && (forall i, j :: 0 <= i < j < |entries| ==>
          !(entries[i].grantee == entries[j].grantee && entries[i].grantor == entries[j].grantor))
    && forall i :: 0 <= i < |entries| ==>
         entries[i].grantor != "" && |entries[i].grantor| < NAMEDATALEN &&
         (entries[i].grantee == "" || Nameable(TargetName(entries[i].grantee)))
  }

  lemma EntryItemsFit(entries: seq<Entry>, cx: Context)
    requires Entries(entries) && (cx.owner.Some? ==> Nameable(cx.owner.value))
    ensures var items := EntryItems(entries); DistinctPairs(items) && Complete(items) && KnownRoles(items, cx)
  {
    hide EntryItem, Nameable, TargetName;
    forall i | 0 <= i < |entries|
      ensures EntryItem(entries[i]).grantor == entries[i].grantor && EntryItem(entries[i]).grantee == entries[i].grantee
    {
      EntryNames(entries[i]);
    }
  }

  /**
    From the server's entries and back: printed as an array in any mix of bare
    and quoted items, they make buildACLCommands write a text that the server
    reads, and that rebuilds them under the condition of ScriptReplaysAcl.
   */
  lemma DumpRestoresAcl(entries: seq<Entry>, bare: seq<bool>, cx: Context, w: Wording, g: Grammar, acl0: Acl,
                        table: set<Key>)
    requires cx.Valid() && cx.owner.Some? && Nameable(cx.owner.value) && Pristine(acl0, cx.owner.value, cx.App())
    requires Entries(entries) && Recent(cx) && Fits(w, cx.sub, g)
    requires |bare| == |entries| && forall i :: 0 <= i < |entries| && bare[i] ==> ArrayText.Plain(EntryTexts(entries)[i])
    ensures var acls := ArrayText.PrintArray(EntryTexts(entries), bare);
            && ArrayText.ParseArray(acls).Some?
            && var texts := ArrayText.ParseArray(acls).value;
            var items := ItemsOf(texts, cx.owner);
            var read := ReadScript(Texts(Script(items, cx), cx.sub, w), cx.App(), g);
            && |items| == |texts| && items == EntryItems(entries)
            && read.Some? && (forall st :: st in read.value && st.On? ==> st.scope == ScopeOf(w, cx.sub, g))
            && var r := Run(Session(acl0, None), cx.owner.value, cx.App(), CommandsOf(read.value), table);
            && r.user.None?
            && (r.acl == Goal(items, cx) <==>
                  && NoGroupNames(items, cx)
                  && DefaultHolds(items, cx, acl0)
                  && InGrantOrder(Start(items, cx), items, cx, table))
  {
    hide Script, Texts, ReadScript, Fits, CommandsOf, Run, Goal, NoGroupNames, DefaultHolds, InGrantOrder, Start;
    hide Pristine, KnownRoles, DistinctPairs, Complete, ScopeOf, ItemsOf, ArrayText.PrintArray, ArrayText.ParseArray;
    hide Items.PrintItem, EntryItem, Nameable, TargetName;
    var texts := EntryTexts(entries);
    ArrayText.ParsePrintedArray(texts, bare);
    PrintedItems(entries, texts, cx);
    EntryItemsFit(entries, cx);
    TextReplaysAcl(EntryItems(entries), cx, w, g, acl0, table);
  }

  // ---------------------------------------------------------------------
  // Which texts fit

  /** The words that stand around names are reserved, and the tool quotes what the server reserves. */
  predicate Agree(rules: Rules, g: Grammar) {
    && g.reserved <= rules.reserved && Folded("PUBLIC") !in g.reserved
    && Folded("GROUP") in g.reserved && Folded("TO") in g.reserved && Folded("FROM") in g.reserved
  }

  lemma IdentIsPlain(raw: string, rules: Rules, g: Grammar)
    requires Agree(rules, g)
    ensures PlainName([IdentToken(raw, rules)])
  {
  }

  /** A formatted name, with a formatted column if there is one, is a fitting object of any kind. */
  lemma NameFits(kind: Items.Kind, raw: string, column: Option<string>, rules: Rules, g: Grammar)
    requires Agree(rules, g) && kind in OBJECT_KINDS && (column.Some? ==> Known(column.value, g.mblen).Some?)
    ensures var sub := if column.None? then None else Some(Ident(column.value, rules));
            Fits(Wording("", kind, Ident(raw, rules), rules), sub, g)
  {
    hide Lex, Ident, IdentToken, NameOf, Known, DefaultsPrefix, PlainName;
    LexIdent(raw, rules, g.reserved, g.mblen);
    IdentIsPlain(raw, rules, g);
    if column.Some? { LexIdent(column.value, rules, g.reserved, g.mblen); }
  }

  /** So is a name with its schema. */
  lemma QualifiedFits(kind: Items.Kind, schema: string, raw: string, rules: Rules, g: Grammar)
    requires Agree(rules, g) && kind in OBJECT_KINDS
    ensures Fits(Wording("", kind, Ident(schema, rules) + ("." + Ident(raw, rules)), rules), None, g)
  {
    hide Lex, Ident, IdentToken, Apart, NameOf, Known, DefaultsPrefix;
    var s, n := IdentToken(schema, rules), IdentToken(raw, rules);
    LexIdent(schema, rules, g.reserved, g.mblen);
    LexIdent(raw, rules, g.reserved, g.mblen);
    LexMark('.');
    MarkFirst(Ident(schema, rules), '.', Ident(raw, rules));
    Both(".", [Mark('.')], Ident(raw, rules), [n]);
    Both(Ident(schema, rules), [s], "." + Ident(raw, rules), [Mark('.')] + [n]);
    IdentIsPlain(schema, rules, g);
    IdentIsPlain(raw, rules, g);
    assert PlainName([s]) && PlainName([n]);
    assert [s] + ([Mark('.')] + [n]) == [s, Mark('.'), n] && [s][0] == s && [n][0] == n;
  }

  /** What buildDefaultACLCommands puts in front of every command. */
  function DefaultPrefix(owner: string, rules: Rules): (r: string) {
    "ALTER DEFAULT PRIVILEGES " + ("FOR ROLE " + (Ident(owner, rules) + " "))
  }

  lemma PrefixSentences()
    ensures Sentence(DEFAULT_WORDS) + " " == "ALTER DEFAULT PRIVILEGES "
    ensures Sentence(["FOR", "ROLE"]) + " " == "FOR ROLE "
  {
    hide Sentence;
    Sentences("FOR", "ROLE", "");
    Sentences("ALTER", "DEFAULT", "PRIVILEGES");
    assert "DEFAULT" + (" " + "PRIVILEGES") == "DEFAULT PRIVILEGES";
  }

  lemma PrefixWords()
    ensures AreWords(DEFAULT_WORDS) && AreWords(["FOR", "ROLE"])
  {
    hide AreWords;
    WordsAre("ALTER", "DEFAULT", "PRIVILEGES");
    WordsAre("FOR", "ROLE", "ROLE");
  }

  lemma LexDefaults(owner: string, rules: Rules, g: Grammar)
    requires g.reserved <= rules.reserved
    ensures Lex(DefaultPrefix(owner, rules)) ==
            Some(Kws(DEFAULT_WORDS) + (Kws(["FOR", "ROLE"]) + [IdentToken(owner, rules)]))
  {
    hide Lex, Ident, IdentToken, Apart, Kws, Kw, Sentence, AreWords;
    var id, t := Ident(owner, rules), IdentToken(owner, rules);
    LexIdent(owner, rules, g.reserved, g.mblen);
    LexNothing();
    LexBlank("");
    assert " " + "" == " ";
    BlankFirst(id, "");
    Both(id, [t], " ", []);
    Units([t]);
    PrefixSentences();
    PrefixWords();
    LexBlanks(["FOR", "ROLE"]);
    BlankLast(Sentence(["FOR", "ROLE"]), id + " ");
    Both("FOR ROLE ", Kws(["FOR", "ROLE"]), id + " ", [t]);
    LexBlanks(DEFAULT_WORDS);
    BlankLast(Sentence(DEFAULT_WORDS), "FOR ROLE " + (id + " "));
    Both("ALTER DEFAULT PRIVILEGES ", Kws(DEFAULT_WORDS), "FOR ROLE " + (id + " "), Kws(["FOR", "ROLE"]) + [t]);
  }

  lemma PrefixEnds(owner: string, rules: Rules)
    ensures var p := DefaultPrefix(owner, rules); p != "" && p[|p| - 1] == ' '
  {
  }

  /** Default privileges fit as well. */
  lemma DefaultsFit(kind: Items.Kind, owner: string, rules: Rules, g: Grammar)
    requires Agree(rules, g) && kind in DEFAULT_KINDS && Known(owner, g.mblen).Some?
    ensures Fits(Wording(DefaultPrefix(owner, rules), kind, "", rules), None, g)
  {
    hide Lex, DefaultPrefix, IdentToken, NameOf, Known, Kws, Kw, SkipOptions;
    var t := IdentToken(owner, rules);
    LexIdent(owner, rules, g.reserved, g.mblen);
    LexNothing();
    LexDefaults(owner, rules, g);
    PrefixEnds(owner, rules);
    OptionRead(t, g);
    Behind(Kws(DEFAULT_WORDS), Kws(["FOR", "ROLE"]) + [t]);
  }

  lemma OptionRead(t: Token, g: Grammar)
    requires NameOf(t, g.reserved, g.mblen).Some?
    ensures SkipOptions(Kws(["FOR", "ROLE"]) + [t], g) == Some([])
  {
    hide Kw, NameOf;
    var ts := Kws(["FOR", "ROLE"]) + [t];
    AcceptKws(["FOR", "ROLE"], [t]);
    Behind(Kws(["FOR", "ROLE"]), [t]);
    assert ts[2..] == [t] && [t][1..] == [];
    assert SkipOptions([], g) == Some([]);
  }
}
