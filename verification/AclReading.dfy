/**
  The server's reading of an ACL script: the productions of
  src/postgres/backend/parser/gram.ypp for GRANT, REVOKE, ALTER DEFAULT
  PRIVILEGES, SET and RESET SESSION AUTHORIZATION, and what they make of the text
  that buildACLCommands writes.
 */
module AclReading {
  import opened Basics
  import opened Encoding
  import opened Identifiers
  import opened SqlTokens
  import Items = AclItems
  import opened AclServer
  import opened AclScript

  /** The server's reserved words and its encoding. */
  datatype Grammar = Grammar(reserved: set<string>, mblen: Mblen)

  // ---------------------------------------------------------------------
  // The reader

  /** The object of a command; for default privileges, the options that say whose and where. */
  datatype Scope = Scope(kind: Items.Kind, name: seq<Token>, column: Option<string>, defaults: Option<seq<Token>>)

  datatype Statement = On(scope: Scope, command: Command) | Alone(command: Command)

  /** What is left behind the keywords. */
  function Accept(ts: seq<Token>, words: seq<string>): (r: Option<seq<Token>>)
    ensures r.Some? ==> |r.value| + |words| == |ts|
  {
    if words == [] then Some(ts)
    else if ts != [] && ts[0] == Kw(words[0]) then Accept(ts[1..], words[1..])
    else None
  }

  function AcceptMark(ts: seq<Token>, c: char): (r: Option<seq<Token>>)
    ensures r.Some? ==> |r.value| < |ts|
  {
    if ts != [] && ts[0] == Mark(c) then Some(ts[1..]) else None
  }

  function ReadName(ts: seq<Token>, g: Grammar): (r: Option<(string, seq<Token>)>)
    ensures r.Some? ==> |r.value.1| < |ts|
  {
    if ts == [] then None
    else
      var n :- NameOf(ts[0], g.reserved, g.mblen);
      Some((n, ts[1..]))
  }

  /** A column in parentheses, if there is one. */
  function ReadColumn(ts: seq<Token>, g: Grammar): (r: Option<(Option<string>, seq<Token>)>)
    ensures r.Some? ==> |r.value.1| <= |ts|
  {
    if AcceptMark(ts, '(').None? then Some((None, ts))
    else
      var (c, rest) :- ReadName(ts[1..], g);
      var rest :- AcceptMark(rest, ')');
      Some((Some(c), rest))
  }

  /** ALL, or privileges by name. */
  datatype Wanted = Wanted(names: Option<seq<string>>, column: Option<string>)

  function ReadNames(ts: seq<Token>, g: Grammar): (r: Option<(Wanted, seq<Token>)>)
    ensures r.Some? ==> r.value.0.names.Some? && |r.value.1| < |ts|
    decreases |ts|
  {
    if ts == [] || !ts[0].Word? then None
    else
      var (column, rest) :- ReadColumn(ts[1..], g);
      if AcceptMark(rest, ',').None? then Some((Wanted(Some([ts[0].text]), column), rest))
      else
        var (more, rest) :- ReadNames(rest[1..], g);
        if more.column != column then None
        else Some((Wanted(Some([ts[0].text] + more.names.value), column), rest))
  }

  function ReadPrivileges(ts: seq<Token>, g: Grammar): (r: Option<(Wanted, seq<Token>)>) {
    match Accept(ts, ["ALL"])
    case None => ReadNames(ts, g)
    case Some(rest) =>
      var rest := match Accept(rest, ["PRIVILEGES"]) case None => rest case Some(more) => more;
      var (column, rest) :- ReadColumn(rest, g);
      Some((Wanted(None, column), rest))
  }

  /** The names by which the server knows a privilege; UPDATE covered DELETE before 7.2. */
  function RightNames(p: Items.Priv): (ns: seq<string>) {
    match p.code
    case 'a' => ["insert"] case 'r' => ["select"] case 'd' => ["delete"] case 'D' => ["truncate"]
    case 'w' => if p == Items.UPDATE_DELETE then ["update", "delete"] else ["update"]
    case 'x' => ["references"] case 't' => ["trigger"] case 'X' => ["execute"] case 'U' => ["usage"]
    case 'C' => ["create"] case 'T' => ["temporary"] case 'c' => ["connect"]
    case _ => []
  }

  predicate AllNamed(p: Items.Priv, ns: seq<string>) { forall n :: n in RightNames(p) ==> n in ns }

  /** The privileges of the object that are named. */
  function Named(app: seq<Items.Priv>, ns: seq<string>): (ps: seq<Items.Priv>) {
    if app == [] then []
    else
      var n := |app| - 1;
      Named(app[..n], ns) + (if AllNamed(app[n], ns) then [app[n]] else [])
  }

  /** A name that is no privilege of such an object is refused. */
  function SpecFor(wanted: Wanted, app: seq<Items.Priv>): (r: Option<Items.Spec>) {
    match wanted.names
    case None => Some(Items.All)
    case Some(ns) =>
      if forall n :: n in ns ==> exists p :: p in app && n in RightNames(p) then Some(Items.Only(Named(app, ns)))
      else None
  }

  function KindWords(kind: Items.Kind): (ws: seq<string>) {
    match kind
    case Table => ["TABLE"] case Sequence => ["SEQUENCE"] case Function => ["FUNCTION"] case Language => ["LANGUAGE"]
    case Schema => ["SCHEMA"] case Database => ["DATABASE"] case Tablespace => ["TABLESPACE"] case Type => ["TYPE"]
    case ForeignDataWrapper => ["FOREIGN", "DATA", "WRAPPER"] case ForeignServer => ["FOREIGN", "SERVER"]
    case LargeObject => ["LARGE", "OBJECT"]
    case Tables => ["TABLES"] case Sequences => ["SEQUENCES"] case Functions => ["FUNCTIONS"] case Types => ["TYPES"]
    case ForeignTable => ["FOREIGN", "TABLE"]
  }

  /** The kinds that GRANT knows; a foreign table is none of them. */
  const OBJECT_KINDS := [
    Items.Table, Items.Sequence, Items.ForeignDataWrapper, Items.ForeignServer, Items.Function, Items.Database,
    Items.Language, Items.LargeObject, Items.Schema, Items.Tablespace, Items.Type
  ]

  const DEFAULT_KINDS := [Items.Tables, Items.Functions, Items.Sequences, Items.Types]

  function ReadKind(ts: seq<Token>, kinds: seq<Items.Kind>): (r: Option<(Items.Kind, seq<Token>)>) {
    if kinds == [] then None
    else match Accept(ts, KindWords(kinds[0]))
      case Some(rest) => Some((kinds[0], rest))
      case None => ReadKind(ts, kinds[1..])
  }

  /** The tokens of the object's name, up to the keyword behind it. */
  function ReadObject(ts: seq<Token>, stop: string): (r: Option<(seq<Token>, seq<Token>)>) {
    if ts == [] || ts[0] == Mark(';') then None
    else if ts[0] == Kw(stop) then Some(([], ts[1..]))
    else
      var (more, rest) :- ReadObject(ts[1..], stop);
      Some(([ts[0]] + more, rest))
  }

  function RoleNamed(name: string, group: bool): (r: Option<Who>) {
    if name == "public" then Some(Public)
    else if name == "none" then None
    else Some(if group then Group(name) else Role(name))
  }

  function ReadWho(ts: seq<Token>, g: Grammar): (r: Option<(Who, seq<Token>)>) {
    var group := Accept(ts, ["GROUP"]).Some?;
    var (name, rest) :- ReadName(if group then ts[1..] else ts, g);
    var who :- RoleNamed(name, group);
    Some((who, rest))
  }

  function ReadGrant(ts: seq<Token>, defaults: Option<seq<Token>>, app: seq<Items.Priv>, g: Grammar)
    : (r: Option<(Statement, seq<Token>)>)
  {
    var (wanted, rest) :- ReadPrivileges(ts, g);
    var spec :- SpecFor(wanted, app);
    var (scope, rest) :- ReadScope(rest, wanted.column, defaults, "TO");
    var (who, rest) :- ReadWho(rest, g);
    var options := Accept(rest, ["WITH", "GRANT", "OPTION"]);
    var rest :- AcceptMark(if options.Some? then options.value else rest, ';');
    Some((On(scope, Grant(spec, who, options.Some?)), rest))
  }

  /** Of revocations the script has only those of ALL. */
  function ReadRevoke(ts: seq<Token>, defaults: Option<seq<Token>>, g: Grammar): (r: Option<(Statement, seq<Token>)>) {
    var (wanted, rest) :- ReadPrivileges(ts, g);
    if wanted.names.Some? then None
    else
      var (scope, rest) :- ReadScope(rest, wanted.column, defaults, "FROM");
      var (who, rest) :- ReadWho(rest, g);
      var rest :- AcceptMark(rest, ';');
      Some((On(scope, RevokeAll(who)), rest))
  }

  /** Default privileges are not those of any one object. */
  function ReadScope(ts: seq<Token>, column: Option<string>, defaults: Option<seq<Token>>, stop: string)
    : (r: Option<(Scope, seq<Token>)>)
  {
    var rest :- Accept(ts, ["ON"]);
    var (kind, rest) :- ReadKind(rest, if defaults.Some? then DEFAULT_KINDS else OBJECT_KINDS);
    var (name, rest) :- ReadObject(rest, stop);
    if defaults.Some? != (name == []) then None else Some((Scope(kind, name, column, defaults), rest))
  }

  /** What is left behind any number of FOR ROLE and IN SCHEMA. */
  function SkipOptions(ts: seq<Token>, g: Grammar): (r: Option<seq<Token>>)
    ensures r.Some? ==> |r.value| <= |ts|
    decreases |ts|
  {
    match (Accept(ts, ["FOR", "ROLE"]), Accept(ts, ["IN", "SCHEMA"]))
    case (None, None) => Some(ts)
    case _ =>
      var (name, rest) :- ReadName(ts[2..], g);
      SkipOptions(rest, g)
  }

  function ReadAction(ts: seq<Token>, defaults: Option<seq<Token>>, app: seq<Items.Priv>, g: Grammar)
    : (r: Option<(Statement, seq<Token>)>)
  {
    match Accept(ts, ["GRANT"])
    case Some(rest) => ReadGrant(rest, defaults, app, g)
    case None =>
      var rest :- Accept(ts, ["REVOKE"]);
      ReadRevoke(rest, defaults, g)
  }

  function ReadDefaults(ts: seq<Token>, app: seq<Items.Priv>, g: Grammar): (r: Option<(Statement, seq<Token>)>) {
    var rest :- SkipOptions(ts, g);
    ReadAction(rest, Some(ts[..|ts| - |rest|]), app, g)
  }

  function ReadSet(ts: seq<Token>, g: Grammar): (r: Option<(Statement, seq<Token>)>) {
    var (role, rest) :- ReadName(ts, g);
    var rest :- AcceptMark(rest, ';');
    Some((Alone(SetAuthorization(role)), rest))
  }

  function ReadReset(ts: seq<Token>): (r: Option<(Statement, seq<Token>)>) {
    var rest :- AcceptMark(ts, ';');
    Some((Alone(ResetAuthorization), rest))
  }

  const SET_WORDS := ["SET", "SESSION", "AUTHORIZATION"]
  const RESET_WORDS := ["RESET", "SESSION", "AUTHORIZATION"]
  const DEFAULT_WORDS := ["ALTER", "DEFAULT", "PRIVILEGES"]

  function ReadStatement(ts: seq<Token>, app: seq<Items.Priv>, g: Grammar): (r: Option<(Statement, seq<Token>)>) {
    var set_, reset, alter := Accept(ts, SET_WORDS), Accept(ts, RESET_WORDS), Accept(ts, DEFAULT_WORDS);
    if set_.Some? then ReadSet(set_.value, g)
    else if reset.Some? then ReadReset(reset.value)
    else if alter.Some? then ReadDefaults(alter.value, app, g)
    else ReadAction(ts, None, app, g)
  }

  function ReadAll(ts: seq<Token>, app: seq<Items.Priv>, g: Grammar): (r: Option<seq<Statement>>)
    decreases |ts|
  {
    if ts == [] then Some([])
    else
      var (first, rest) :- ReadStatement(ts, app, g);
      if |rest| >= |ts| then None
      else
        var more :- ReadAll(rest, app, g);
        Some([first] + more)
  }

  /** The statements of a script. */
  function ReadScript(text: string, app: seq<Items.Priv>, g: Grammar): (r: Option<seq<Statement>>) {
    var ts :- Lex(text);
    ReadAll(ts, app, g)
  }

  // ---------------------------------------------------------------------
  // The tokens of the script

  function Kws(ws: seq<string>): (ts: seq<Token>)
    ensures |ts| == |ws|
  {
    if ws == [] then [] else [Kw(ws[0])] + Kws(ws[1..])
  }

  function ColumnTokens(sub: Option<string>): (ts: seq<Token>) {
    match sub case None => [] case Some(s) => [Mark('(')] + (TokensIn(s) + [Mark(')')])
  }

  function TokensIn(s: string): (ts: seq<Token>) { if Lex(s).Some? then Lex(s).value else [] }

  /** Names with a comma between them, each with the column behind it. */
  function CommaTokens(ns: seq<string>, column: seq<Token>): (ts: seq<Token>) {
    if ns == [] then []
    else [Word(ns[0])] + (column + (if |ns| == 1 then [] else [Mark(',')] + CommaTokens(ns[1..], column)))
  }

  function NamesOf(ps: seq<Items.Priv>): (ns: seq<string>) {
    if ps == [] then [] else NamesOf(ps[..|ps| - 1]) + RightNames(ps[|ps| - 1])
  }

  function SpecTokens(spec: Items.Spec, sub: Option<string>): (ts: seq<Token>) {
    match spec
    case All => [Kw("ALL")] + ColumnTokens(sub)
    case Only(ps) => CommaTokens(NamesOf(ps), ColumnTokens(sub))
  }

  function WhoTokens(who: Who, w: Wording): (ts: seq<Token>) {
    match who
    case Public => [Kw("PUBLIC")]
    case Role(n) => [IdentToken(n, w.rules)]
    case Group(n) => [Kw("GROUP"), IdentToken(n, w.rules)]
  }

  function OnTokens(direction: string, end: seq<Token>, w: Wording): (ts: seq<Token>) {
    [Kw("ON")] + (Kws(KindWords(w.kind)) + (TokensIn(w.name) + ([Kw(direction)] + end)))
  }

  function EndTokens(option: bool): (ts: seq<Token>) {
    (if option then Kws(["WITH", "GRANT", "OPTION"]) else []) + [Mark(';')]
  }

  function ActionTokens(c: Command, sub: Option<string>, w: Wording): (ts: seq<Token>)
    requires c.RevokeAll? || c.Grant?
  {
    match c
    case RevokeAll(who) =>
      [Kw("REVOKE")] + ([Kw("ALL")] + (ColumnTokens(sub) + OnTokens("FROM", WhoTokens(who, w) + [Mark(';')], w)))
    case Grant(spec, who, option) =>
      [Kw("GRANT")] + (SpecTokens(spec, sub) + OnTokens("TO", WhoTokens(who, w) + EndTokens(option), w))
  }

  function CommandTokens(c: Command, sub: Option<string>, w: Wording): (ts: seq<Token>) {
    match c
    case RevokeAll(_) => TokensIn(w.prefix) + ActionTokens(c, sub, w)
    case Grant(_, _, _) => TokensIn(w.prefix) + ActionTokens(c, sub, w)
    case SetAuthorization(role) => Kws(SET_WORDS) + ([IdentToken(role, w.rules)] + [Mark(';')])
    case ResetAuthorization => Kws(RESET_WORDS) + [Mark(';')]
  }

  // ---------------------------------------------------------------------
  // Scanning the words of the script

  /** Words with a blank between them. */
  function Sentence(ws: seq<string>): (r: string) {
    if ws == [] then "" else if |ws| == 1 then ws[0] else ws[0] + (" " + Sentence(ws[1..]))
  }

  predicate AreWords(ws: seq<string>) { forall i :: 0 <= i < |ws| ==> ws[i] != "" && Letters(ws[i]) }

  lemma {:induction false} LexSentence(ws: seq<string>)
    requires AreWords(ws)
    ensures Lex(Sentence(ws)) == Some(Kws(ws))
  {
    hide Lex, Letters;
    if ws == [] {
      LexNothing();
    } else {
      LexWord(ws[0]);
      if |ws| == 1 {
        assert Kws(ws) == [Kw(ws[0])];
      } else {
        LexSentence(ws[1..]);
        LexBlank(Sentence(ws[1..]));
        BlankFirst(ws[0], Sentence(ws[1..]));
        Both(ws[0], [Kw(ws[0])], " " + Sentence(ws[1..]), Kws(ws[1..]));
      }
    }
  }

  lemma LexNothing()
    ensures Lex("") == Some([])
  {
  }

  /** A blank in front, or at the end, keeps texts apart. */
  lemma BlankFirst(a: string, b: string)
    ensures Apart(a, " " + b)
  {
  }

  lemma BlankLast(a: string, b: string)
    ensures Apart(a + " ", b)
  {
  }

  /** Keywords with blanks around them. */
  lemma LexBlanks(ws: seq<string>)
    requires AreWords(ws)
    ensures Lex(Sentence(ws) + " ") == Some(Kws(ws)) && Lex(" " + (Sentence(ws) + " ")) == Some(Kws(ws))
  {
    hide Lex, Letters;
    LexSentence(ws);
    LexNothing();
    LexBlank("");
    assert " " + "" == " ";
    BlankFirst(Sentence(ws), "");
    Both(Sentence(ws), Kws(ws), " ", []);
    Units(Kws(ws));
    LexBlank(Sentence(ws) + " ");
  }

  lemma Sentences(a: string, b: string, c: string)
    ensures Sentence([a]) == a && Sentence([a, b]) == a + (" " + b) && Sentence([a, b, c]) == a + (" " + (b + (" " + c)))
  {
    assert [a, b][1..] == [b] && [b, c][1..] == [c] && [a, b, c][1..] == [b, c];
    assert Sentence([b, c]) == b + (" " + c);
  }

  lemma WordsAre(a: string, b: string, c: string)
    requires a != "" && Letters(a) && b != "" && Letters(b) && c != "" && Letters(c)
    ensures AreWords([a]) && AreWords([a, b]) && AreWords([a, b, c])
  {
    hide Letters;
  }

  predicate OneWord(kind: Items.Kind) {
    !kind.ForeignDataWrapper? && !kind.ForeignServer? && !kind.ForeignTable? && !kind.LargeObject?
  }

  lemma OneWordIs(kind: Items.Kind)
    requires OneWord(kind)
    ensures KindWords(kind) == [KindText(kind)]
  {
  }

  lemma OneWordLetters(kind: Items.Kind)
    requires OneWord(kind)
    ensures KindText(kind) != "" && Letters(KindText(kind))
  {
  }

  lemma MoreWordsAre(kind: Items.Kind)
    requires !OneWord(kind)
    ensures AreWords(KindWords(kind))
  {
    hide AreWords;
    match kind
    case ForeignDataWrapper => WordsAre("FOREIGN", "DATA", "WRAPPER");
    case ForeignServer => WordsAre("FOREIGN", "SERVER", "SERVER");
    case ForeignTable => WordsAre("FOREIGN", "TABLE", "TABLE");
    case LargeObject => WordsAre("LARGE", "OBJECT", "OBJECT");
  }

  lemma WrapperText()
    ensures KindText(Items.ForeignDataWrapper) == Sentence(["FOREIGN", "DATA", "WRAPPER"])
  {
    hide Sentence;
    Sentences("FOREIGN", "DATA", "WRAPPER");
    assert "DATA" + (" " + "WRAPPER") == "DATA WRAPPER";
  }

  lemma TwoWordsText(a: string, b: string, text: string)
    requires text == a + (" " + b)
    ensures text == Sentence([a, b])
  {
    hide Sentence;
    Sentences(a, b, "");
  }

  lemma MoreWordsText(kind: Items.Kind)
    requires !OneWord(kind)
    ensures KindText(kind) == Sentence(KindWords(kind))
  {
    hide Sentence;
    match kind
    case ForeignDataWrapper => WrapperText();
    case ForeignServer => TwoWordsText("FOREIGN", "SERVER", "FOREIGN SERVER");
    case ForeignTable => TwoWordsText("FOREIGN", "TABLE", "FOREIGN TABLE");
    case LargeObject => TwoWordsText("LARGE", "OBJECT", "LARGE OBJECT");
  }

  lemma KindIsSentence(kind: Items.Kind)
    ensures KindText(kind) == Sentence(KindWords(kind)) && AreWords(KindWords(kind))
  {
    hide KindText, KindWords, Letters, Sentence, OneWord;
    if OneWord(kind) {
      OneWordIs(kind);
      OneWordLetters(kind);
      Sentences(KindText(kind), "", "");
    } else {
      MoreWordsAre(kind);
      MoreWordsText(kind);
    }
  }

  // ---------------------------------------------------------------------
  // Scanning the privileges

  /** The keyword is the name by which the server knows the privilege. */
  predicate WellNamed(p: Items.Priv) { RightNames(p) == [Folded(p.keyword)] && Letters(p.keyword) }

  lemma TableNames()
    ensures WellNamed(Items.SELECT) && WellNamed(Items.INSERT) && WellNamed(Items.UPDATE) && WellNamed(Items.DELETE)
  {
    assert Folded("SELECT") == "select" && Folded("INSERT") == "insert";
    assert Folded("UPDATE") == "update" && Folded("DELETE") == "delete";
  }

  lemma MoreTableNames()
    ensures WellNamed(Items.REFERENCES) && WellNamed(Items.TRIGGER) && WellNamed(Items.TRUNCATE)
  {
    assert Folded("REFERENCES") == "references" && Folded("TRIGGER") == "trigger" && Folded("TRUNCATE") == "truncate";
  }

  lemma OtherNames()
    ensures WellNamed(Items.USAGE) && WellNamed(Items.EXECUTE) && WellNamed(Items.CREATE)
  {
    assert Folded("USAGE") == "usage" && Folded("EXECUTE") == "execute" && Folded("CREATE") == "create";
  }

  lemma DatabaseNames()
    ensures WellNamed(Items.CONNECT) && WellNamed(Items.TEMPORARY)
  {
    assert Folded("CONNECT") == "connect" && Folded("TEMPORARY") == "temporary";
  }

  /** Every privilege that an item is searched for; UPDATE,DELETE is two names. */
  lemma AppNamed(kind: Items.Kind, column: bool, version: int)
    ensures forall p :: p in Items.Applicable(kind, column, version) ==>
              WellNamed(p) || (p == Items.UPDATE_DELETE && version < 70200)
  {
    hide WellNamed;
    TableNames();
    MoreTableNames();
    OtherNames();
    DatabaseNames();
    TableNamed(column, version);
  }

  lemma TableNamed(column: bool, version: int)
    ensures forall p :: p in Items.TablePrivs(column, version) ==>
              WellNamed(p) || (p == Items.UPDATE_DELETE && version < 70200)
  {
    hide WellNamed;
    TableNames();
    MoreTableNames();
  }

  lemma {:induction false} CommaConcat(a: seq<string>, b: seq<string>, column: seq<Token>)
    requires a != [] && b != []
    ensures CommaTokens(a + b, column) == CommaTokens(a, column) + ([Mark(',')] + CommaTokens(b, column))
  {
    var more := [Mark(',')] + CommaTokens(b, column);
    assert (a + b)[0] == a[0] && (a + b)[1..] == a[1..] + b;
    if |a| == 1 {
      Units(b);
      Units(column);
      Assoc([Word(a[0])], column, more);
    } else {
      CommaConcat(a[1..], b, column);
      var rest := CommaTokens(a[1..], column);
      Assoc([Mark(',')], rest, more);
      Assoc(column, [Mark(',')] + rest, more);
      Assoc([Word(a[0])], column + ([Mark(',')] + rest), more);
    }
  }

  lemma MarkFirst(a: string, c: char, b: string)
    requires c in MARKS
    ensures Apart(a, [c] + b) && Apart(a + [c], b) && Apart([c], b)
  {
  }

  lemma LexSub(sub: Option<string>)
    requires sub.Some? ==> Lex(sub.value).Some?
    ensures Lex(Items.SubText(sub)) == Some(ColumnTokens(sub))
    ensures Items.SubText(sub) == "" || Items.SubText(sub)[0] == '('
  {
    hide Lex, Apart;
    match sub
    case None => LexNothing();
    case Some(s) =>
      LexMark('(');
      LexMark(')');
      MarkFirst(s, ')', "");
      MarkFirst("", '(', s + ")");
      assert [')'] + "" == ")";
      Both(s, Lex(s).value, ")", [Mark(')')]);
      Both("(", [Mark('(')], s + ")", Lex(s).value + [Mark(')')]);
      Assoc("(", s, ")");
  }

  /** A keyword with its column. */
  lemma LexKeyword(p: Items.Priv, sub: Option<string>)
    requires WellNamed(p) && (sub.Some? ==> Lex(sub.value).Some?)
    ensures Lex(p.keyword + Items.SubText(sub)) == Some(CommaTokens(RightNames(p), ColumnTokens(sub)))
  {
    hide Lex, Apart, RightNames;
    var col := Items.SubText(sub);
    LexWord(p.keyword);
    LexSub(sub);
    ApartNothing(p.keyword);
    if col != "" {
      MarkFirst(p.keyword, '(', col[1..]);
      assert col == ['('] + col[1..];
    }
    Both(p.keyword, [Kw(p.keyword)], col, ColumnTokens(sub));
    Units(ColumnTokens(sub));
    var one := RightNames(p);
    assert CommaTokens(one, ColumnTokens(sub)) == [Word(one[0])] + (ColumnTokens(sub) + []);
  }

  lemma LexUpdateDelete()
    ensures Lex("UPDATE,DELETE") == Some(CommaTokens(["update", "delete"], []))
  {
    hide Lex, Apart;
    TableNames();
    LexWord("UPDATE");
    LexWord("DELETE");
    LexMark(',');
    MarkFirst("", ',', "DELETE");
    MarkFirst("UPDATE", ',', "DELETE");
    Both(",", [Mark(',')], "DELETE", [Kw("DELETE")]);
    Both("UPDATE", [Kw("UPDATE")], "," + "DELETE", [Mark(',')] + [Kw("DELETE")]);
    assert "UPDATE" + ("," + "DELETE") == "UPDATE,DELETE";
    CommaTwo("update", "delete");
  }

  lemma CommaTwo(a: string, b: string)
    ensures CommaTokens([a, b], []) == [Word(a)] + ([Mark(',')] + [Word(b)])
  {
    assert [a, b][1..] == [b];
    assert CommaTokens([b], []) == [Word(b)];
    Units([Mark(',')] + [Word(b)]);
  }

  /** What the script may write for a privilege. */
  predicate Writable(p: Items.Priv, sub: Option<string>) { WellNamed(p) || (p == Items.UPDATE_DELETE && sub.None?) }

  lemma LexPriv(p: Items.Priv, sub: Option<string>)
    requires Writable(p, sub) && (sub.Some? ==> Lex(sub.value).Some?)
    ensures Lex(p.keyword + Items.SubText(sub)) == Some(CommaTokens(RightNames(p), ColumnTokens(sub)))
    ensures RightNames(p) != []
  {
    hide Lex, CommaTokens, WellNamed;
    if WellNamed(p) {
      LexKeyword(p, sub);
      SomeName(p);
    } else {
      LexUpdateDelete();
      Units("UPDATE,DELETE");
    }
  }

  lemma SomeName(p: Items.Priv)
    requires WellNamed(p)
    ensures RightNames(p) != []
  {
  }

  lemma {:induction false} LexList(ps: seq<Items.Priv>, sub: Option<string>)
    requires ps != [] && (forall i :: 0 <= i < |ps| ==> Writable(ps[i], sub)) && (sub.Some? ==> Lex(sub.value).Some?)
    ensures NamesOf(ps) != [] && Lex(Items.ListText(ps, sub)) == Some(CommaTokens(NamesOf(ps), ColumnTokens(sub)))
  {
    hide Lex, CommaTokens, RightNames, Writable, Apart, Items.SubText;
    var n := |ps| - 1;
    var p, text, cols := ps[n], ps[n].keyword + Items.SubText(sub), ColumnTokens(sub);
    LexPriv(p, sub);
    if n == 0 {
      Units(p.keyword);
      Units(RightNames(p));
      assert Items.ListText(ps[..0], sub) == "" && NamesOf(ps[..0]) == [];
      assert "" + "" + p.keyword == p.keyword;
    } else {
      var buf := Items.ListText(ps[..n], sub);
      LexList(ps[..n], sub);
      LexMark(',');
      MarkFirst(buf, ',', text);
      MarkFirst("", ',', text);
      Both(",", [Mark(',')], text, CommaTokens(RightNames(p), cols));
      Both(buf, CommaTokens(NamesOf(ps[..n]), cols), "," + text, [Mark(',')] + CommaTokens(RightNames(p), cols));
      CommaConcat(NamesOf(ps[..n]), RightNames(p), cols);
      AddedIs(buf, p.keyword, sub);
    }
  }

  lemma AddedIs(buf: string, keyword: string, sub: Option<string>)
    requires buf != ""
    ensures Items.AddedText(buf, keyword, sub) == buf + ("," + (keyword + Items.SubText(sub)))
  {
    hide Items.SubText;
    Assoc(buf + ",", keyword, Items.SubText(sub));
    Assoc(buf, ",", keyword + Items.SubText(sub));
  }

  // ---------------------------------------------------------------------
  // Scanning a command

  /** Nothing in the object's name ends it early. */
  predicate PlainName(ts: seq<Token>) {
    forall i :: 0 <= i < |ts| ==> ts[i] != Mark(';') && ts[i] != Kw("TO") && ts[i] != Kw("FROM")
  }

  /** ALTER DEFAULT PRIVILEGES with its options. */
  predicate DefaultsPrefix(ts: seq<Token>, g: Grammar) {
    Kws(DEFAULT_WORDS) <= ts && SkipOptions(ts[3..], g) == Some([])
  }

  /** The prefix, the object and the column are texts that the server reads as such. */
  predicate Fits(w: Wording, sub: Option<string>, g: Grammar) {
    && g.reserved <= w.rules.reserved && Folded("GROUP") in g.reserved && Folded("PUBLIC") !in g.reserved
    && Lex(w.name).Some? && PlainName(Lex(w.name).value)
    && (sub.Some? ==> Lex(sub.value).Some? && |Lex(sub.value).value| == 1 &&
                      NameOf(Lex(sub.value).value[0], g.reserved, g.mblen).Some?)
    && if w.prefix == "" then w.kind in OBJECT_KINDS && Lex(w.name).value != []
       else
         && w.kind in DEFAULT_KINDS && Lex(w.name).value == []
         && w.prefix[|w.prefix| - 1] == ' ' && Lex(w.prefix).Some? && DefaultsPrefix(Lex(w.prefix).value, g)
  }

  predicate SpecWritable(spec: Items.Spec, sub: Option<string>) {
    spec.Only? ==> spec.privs != [] && forall i :: 0 <= i < |spec.privs| ==> Writable(spec.privs[i], sub)
  }

  lemma LexSpec(spec: Items.Spec, sub: Option<string>)
    requires SpecWritable(spec, sub) && (sub.Some? ==> Lex(sub.value).Some?)
    ensures Lex(Items.SpecText(spec, sub)) == Some(SpecTokens(spec, sub))
  {
    hide Lex, CommaTokens, Writable, Apart, Items.ListText;
    match spec
    case All =>
      var col := Items.SubText(sub);
      LexWord("ALL");
      LexSub(sub);
      if col != "" {
        MarkFirst("ALL", '(', col[1..]);
        assert col == ['('] + col[1..];
      }
      ApartNothing("ALL");
      Both("ALL", [Kw("ALL")], col, ColumnTokens(sub));
    case Only(ps) => LexList(ps, sub);
  }

  lemma ApartNothing(a: string)
    ensures Apart(a, "") && Apart("", a)
  {
  }

  lemma LexWho(who: Who, w: Wording, g: Grammar)
    requires g.reserved <= w.rules.reserved
    ensures Lex(WhoText(who, w)) == Some(WhoTokens(who, w))
  {
    hide Lex, Apart, Ident, IdentToken;
    match who
    case Public => LexWord("PUBLIC");
    case Role(n) => LexIdent(n, w.rules, g.reserved, g.mblen);
    case Group(n) =>
      LexIdent(n, w.rules, g.reserved, g.mblen);
      WordsAre("GROUP", "GROUP", "GROUP");
      LexBlanks(["GROUP"]);
      Sentences("GROUP", "", "");
      BlankLast("GROUP", Ident(n, w.rules));
      assert "GROUP" + " " == "GROUP ";
      assert Kws(["GROUP"]) == [Kw("GROUP")];
      Both("GROUP ", [Kw("GROUP")], Ident(n, w.rules), [IdentToken(n, w.rules)]);
      assert [Kw("GROUP")] + [IdentToken(n, w.rules)] == WhoTokens(who, w);
  }

  /** The end of a command, behind the role. */
  lemma LexEnd(option: bool)
    ensures Lex(if option then " WITH GRANT OPTION;\n" else ";\n") == Some(EndTokens(option))
  {
    hide Lex, Apart;
    LexNothing();
    LexBlank("");
    LexMark(';');
    MarkFirst("", ';', "\n");
    assert "\n" + "" == "\n";
    Both(";", [Mark(';')], "\n", []);
    assert ";" + "\n" == ";\n";
    Units([Mark(';')]);
    if option {
      var ws := ["WITH", "GRANT", "OPTION"];
      WordsAre("WITH", "GRANT", "OPTION");
      LexSentence(ws);
      OptionText();
      MarkFirst(Sentence(ws), ';', "\n");
      Both(Sentence(ws), Kws(ws), ";\n", [Mark(';')]);
      LexBlank(Sentence(ws) + ";\n");
    }
  }

  lemma OptionText()
    ensures " " + (Sentence(["WITH", "GRANT", "OPTION"]) + ";\n") == " WITH GRANT OPTION;\n"
  {
    hide Sentence;
    Sentences("WITH", "GRANT", "OPTION");
    assert "GRANT" + (" " + "OPTION") == "GRANT OPTION";
    assert "WITH" + (" " + "GRANT OPTION") == "WITH GRANT OPTION";
    assert "WITH GRANT OPTION" + ";\n" == "WITH GRANT OPTION;\n";
  }

  /** The object and what comes behind it. */
  lemma LexOn(direction: string, end: string, ts: seq<Token>, w: Wording)
    requires direction != "" && Letters(direction) && Lex(w.name).Some? && Lex(end) == Some(ts)
    ensures Lex(OnText(" " + (direction + " "), end, w)) == Some(OnTokens(direction, ts, w))
  {
    hide Lex, Apart, KindText, KindWords, Kws, Sentence, Letters, Kw;
    var to := " " + (direction + " ");
    WordsAre(direction, direction, direction);
    OnIsWord();
    LexBlanks([direction]);
    LexBlanks(["ON"]);
    Sentences(direction, "", "");
    Sentences("ON", "", "");
    OneKw(direction);
    OneKw("ON");
    BlankLast(" " + direction, end);
    Assoc(" ", direction, " ");
    Both(to, [Kw(direction)], end, ts);
    BlankFirst(w.name, direction + " " + end);
    Assoc(" ", direction + " ", end);
    Both(w.name, Lex(w.name).value, to + end, [Kw(direction)] + ts);
    var object_ := w.name + (to + end);
    LexBlank(object_);
    KindIsSentence(w.kind);
    LexSentence(KindWords(w.kind));
    BlankFirst(KindText(w.kind), object_);
    Both(KindText(w.kind), Kws(KindWords(w.kind)), " " + object_, Lex(object_).value);
    BlankLast(" ON", KindText(w.kind) + (" " + object_));
    assert " ON" + " " == " ON " && " " + ("ON" + " ") == " ON ";
    Both(" ON ", [Kw("ON")], KindText(w.kind) + (" " + object_), Kws(KindWords(w.kind)) + Lex(object_).value);
  }

  lemma OnIsWord()
    ensures AreWords(["ON"])
  {
  }

  lemma OneKw(k: string)
    ensures Kws([k]) == [Kw(k)]
  {
  }

  predicate CommandWritable(c: Command, sub: Option<string>) { c.Grant? ==> SpecWritable(c.spec, sub) }

  lemma LexPrefix(w: Wording, sub: Option<string>, g: Grammar, rest: string, ts: seq<Token>)
    requires Fits(w, sub, g) && Lex(rest) == Some(ts)
    ensures Lex(w.prefix + rest) == Some(TokensIn(w.prefix) + ts)
  {
    hide Lex, Apart, DefaultsPrefix, PlainName;
    LexNothing();
    ApartNothing(rest);
    if w.prefix != "" {
      var n := |w.prefix| - 1;
      BlankLast(w.prefix[..n], rest);
      assert w.prefix[..n] + " " == w.prefix;
    }
    Both(w.prefix, TokensIn(w.prefix), rest, ts);
  }

  lemma LexRevoke(who: Who, sub: Option<string>, w: Wording, g: Grammar)
    requires Fits(w, sub, g)
    ensures Lex(RevokeText(WhoText(who, w), sub, w)) == Some(CommandTokens(RevokeAll(who), sub, w))
  {
    hide Lex, Apart, DefaultsPrefix, PlainName, OnText, OnTokens, WhoText, WhoTokens, Kw;
    var end, col := WhoText(who, w) + ";\n", Items.SubText(sub);
    LexWho(who, w, g);
    LexEnd(false);
    MarkFirst(WhoText(who, w), ';', "\n");
    NoOption();
    Both(WhoText(who, w), WhoTokens(who, w), ";\n", [Mark(';')]);
    FromText();
    LexOn("FROM", end, WhoTokens(who, w) + [Mark(';')], w);
    var on := OnText(" FROM ", end, w);
    var onTokens := OnTokens("FROM", WhoTokens(who, w) + [Mark(';')], w);
    OnStarts(" FROM ", end, w);
    LexSub(sub);
    BlankFirst(col, on[1..]);
    Both(col, ColumnTokens(sub), on, onTokens);
    RevokeAllWords();
    StartsApart("REVOKE ALL", col, on);
    Both("REVOKE ALL", [Kw("REVOKE")] + [Kw("ALL")], col + on, ColumnTokens(sub) + onTokens);
    Assoc([Kw("REVOKE")], [Kw("ALL")], ColumnTokens(sub) + onTokens);
    LexPrefix(w, sub, g, "REVOKE ALL" + (col + on), ActionTokens(RevokeAll(who), sub, w));
  }

  lemma NoOption()
    ensures EndTokens(false) == [Mark(';')]
  {
  }

  lemma FromText()
    ensures " " + ("FROM" + " ") == " FROM " && " " + ("TO" + " ") == " TO "
  {
  }

  lemma OnStarts(direction: string, end: string, w: Wording)
    ensures var on := OnText(direction, end, w); on != "" && on == " " + on[1..]
  {
  }

  /** Behind a word comes a parenthesis or a blank. */
  lemma StartsApart(a: string, col: string, on: string)
    requires (col == "" || col[0] == '(') && on != "" && on == " " + on[1..]
    ensures Apart(a, col + on)
  {
    var c := (col + on)[0];
    assert c == '(' || c == ' ';
  }

  lemma RevokeAllWords()
    ensures Lex("REVOKE ALL") == Some([Kw("REVOKE")] + [Kw("ALL")])
  {
    hide Lex;
    WordsAre("REVOKE", "ALL", "ALL");
    LexSentence(["REVOKE", "ALL"]);
    Sentences("REVOKE", "ALL", "");
    assert "REVOKE" + (" " + "ALL") == "REVOKE ALL";
    TwoKws("REVOKE", "ALL");
  }

  lemma TwoKws(a: string, b: string)
    ensures Kws([a, b]) == [Kw(a)] + [Kw(b)]
  {
    assert [a, b][1..] == [b];
    OneKw(b);
  }

  lemma LexGrant(spec: Items.Spec, who: Who, option: bool, sub: Option<string>, w: Wording, g: Grammar)
    requires Fits(w, sub, g) && SpecWritable(spec, sub)
    ensures Lex(GrantText(Items.SpecText(spec, sub), WhoText(who, w), option, w)) ==
            Some(CommandTokens(Grant(spec, who, option), sub, w))
  {
    hide Lex, Apart, DefaultsPrefix, PlainName, OnText, OnTokens, WhoText, WhoTokens, Kw, EndTokens, SpecWritable;
    hide Items.SpecText, SpecTokens;
    var last := if option then " WITH GRANT OPTION;\n" else ";\n";
    var end, privs := WhoText(who, w) + last, Items.SpecText(spec, sub);
    LexWho(who, w, g);
    LexEnd(option);
    EndStarts(WhoText(who, w), option);
    Both(WhoText(who, w), WhoTokens(who, w), last, EndTokens(option));
    FromText();
    LexOn("TO", end, WhoTokens(who, w) + EndTokens(option), w);
    var on := OnText(" TO ", end, w);
    var onTokens := OnTokens("TO", WhoTokens(who, w) + EndTokens(option), w);
    OnStarts(" TO ", end, w);
    LexSpec(spec, sub);
    BlankFirst(privs, on[1..]);
    Both(privs, SpecTokens(spec, sub), on, onTokens);
    GrantWord();
    BlankLast("GRANT", privs + on);
    Both("GRANT" + " ", [Kw("GRANT")], privs + on, SpecTokens(spec, sub) + onTokens);
    LexPrefix(w, sub, g, "GRANT " + (privs + on), ActionTokens(Grant(spec, who, option), sub, w));
  }

  lemma EndStarts(a: string, option: bool)
    ensures Apart(a, if option then " WITH GRANT OPTION;\n" else ";\n")
  {
  }

  lemma GrantWord()
    ensures Lex("GRANT" + " ") == Some([Kw("GRANT")]) && "GRANT" + " " == "GRANT "
  {
    hide Lex;
    WordsAre("GRANT", "GRANT", "GRANT");
    LexBlanks(["GRANT"]);
    Sentences("GRANT", "", "");
    OneKw("GRANT");
  }

  lemma LexSet(role: string, w: Wording, g: Grammar)
    requires g.reserved <= w.rules.reserved
    ensures Lex(SetText(role, w)) == Some(CommandTokens(SetAuthorization(role), None, w))
  {
    hide Lex, Apart, Ident, IdentToken, Kws;
    var id, t := Ident(role, w.rules), IdentToken(role, w.rules);
    LexIdent(role, w.rules, g.reserved, g.mblen);
    SetSentence();
    AuthorizationWords();
    LexBlanks(SET_WORDS);
    BlankLast(Sentence(SET_WORDS), id);
    Both("SET SESSION AUTHORIZATION ", Kws(SET_WORDS), id, [t]);
    LexEnd(false);
    NoOption();
    EndStarts("SET SESSION AUTHORIZATION " + id, false);
    Both("SET SESSION AUTHORIZATION " + id, Kws(SET_WORDS) + [t], ";\n", [Mark(';')]);
    Assoc(Kws(SET_WORDS), [t], [Mark(';')]);
  }

  lemma AuthorizationWords()
    ensures AreWords(SET_WORDS) && AreWords(RESET_WORDS)
  {
    hide AreWords;
    WordsAre("SET", "SESSION", "AUTHORIZATION");
    WordsAre("RESET", "SESSION", "AUTHORIZATION");
  }

  lemma AuthorizationText(first: string)
    ensures Sentence([first, "SESSION", "AUTHORIZATION"]) == first + " SESSION AUTHORIZATION"
  {
    hide Sentence;
    var auth := "SESSION" + (" " + "AUTHORIZATION");
    Sentences(first, "SESSION", "AUTHORIZATION");
    assert auth == "SESSION AUTHORIZATION";
    assert " " + auth == " SESSION AUTHORIZATION";
  }

  lemma SetSentence()
    ensures Sentence(SET_WORDS) + " " == "SET SESSION AUTHORIZATION "
  {
    hide Sentence;
    AuthorizationText("SET");
    assert "SET" + " SESSION AUTHORIZATION" == "SET SESSION AUTHORIZATION";
  }

  lemma ResetSentence()
    ensures Sentence(RESET_WORDS) + ";\n" == RESET_TEXT
  {
    hide Sentence;
    AuthorizationText("RESET");
    assert "RESET" + " SESSION AUTHORIZATION" == "RESET SESSION AUTHORIZATION";
  }

  lemma LexReset(w: Wording)
    ensures Lex(RESET_TEXT) == Some(CommandTokens(ResetAuthorization, None, w))
  {
    hide Lex, Apart, Kws;
    ResetSentence();
    AuthorizationWords();
    LexSentence(RESET_WORDS);
    LexEnd(false);
    NoOption();
    EndStarts(Sentence(RESET_WORDS), false);
    Both(Sentence(RESET_WORDS), Kws(RESET_WORDS), ";\n", [Mark(';')]);
  }

  /** Every command is scanned as its tokens. */
  lemma LexCommand(c: Command, sub: Option<string>, w: Wording, g: Grammar)
    requires Fits(w, sub, g) && CommandWritable(c, sub)
    ensures Lex(Text(c, sub, w)) == Some(CommandTokens(c, sub, w))
  {
    hide Lex, RevokeText, GrantText, SetText, WhoText;
    match c
    case RevokeAll(who) => LexRevoke(who, sub, w, g);
    case Grant(spec, who, option) => LexGrant(spec, who, option, sub, w, g);
    case SetAuthorization(role) => LexSet(role, w, g);
    case ResetAuthorization => LexReset(w);
  }
}
