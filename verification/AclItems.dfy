/**
  ACL items as text: role names and their quoting, the item syntax
  `grantee=codes/grantor`, and the privilege codes (tools/common/dumputils.cpp,
  parseAclItem, copyAclUserName and AddAcl).
 */
module AclItems {
  import opened Basics
  import opened Identifiers

  // ---------------------------------------------------------------------
  // Role names

  function Cons(c: char, parsed: (string, string)): (r: (string, string)) {
    ([c] + parsed.0, parsed.1)
  }

  /** The name at the front of s, dequoted, and the text where reading stopped. */
  function CopyName(s: string): (r: (string, string))
    decreases |s|
  {
    if s == "" || s[0] == '=' then ("", s)
    else if s[0] != '"' then Cons(s[0], CopyName(s[1..]))
    else CopyQuotedName(s[1..])
  }

  /** The same from inside quotes; an unclosed quote ends the name at the end of the text. */
  function CopyQuotedName(s: string): (r: (string, string))
    decreases |s|
  {
    if s == "" then ("", "")
    else if s[0] != '"' then Cons(s[0], CopyQuotedName(s[1..]))
    else if |s| > 1 && s[1] == '"' then Cons('"', CopyQuotedName(s[2..]))
    else CopyName(s[1..])
  }

  predicate WordChar(c: char) {
    'a' <= c <= 'z' || 'A' <= c <= 'Z' || '0' <= c <= '9' || c == '_'
  }

  predicate Safe(name: string) {
    forall i :: 0 <= i < |name| ==> WordChar(name[i])
  }

  /** How the server writes a role name into an item. */
  function PutId(name: string): (r: string) {
    if Safe(name) then name else "\"" + (DoubleQuotes(name) + "\"")
  }

  predicate EndsName(tail: string) { tail == "" || tail[0] == '=' }

  lemma {:induction false} CopySafe(name: string, tail: string)
    requires Safe(name) && EndsName(tail)
    ensures CopyName(name + tail) == (name, tail)
  {
    if name == "" {
      assert name + tail == tail;
    } else {
      CopySafe(name[1..], tail);
      assert (name + tail)[1..] == name[1..] + tail;
      assert (name + tail)[0] == name[0];
      assert [name[0]] + name[1..] == name;
    }
  }

  lemma CopyQuotedEnd(tail: string)
    requires EndsName(tail)
    ensures CopyQuotedName("\"" + tail) == ("", tail)
  {
    Behind("\"", tail);
  }

  /** One character inside quotes, doubled if it is a quote. */
  lemma CopyQuotedChar(c: char, rest: string)
    ensures CopyQuotedName((if c == '"' then "\"\"" else [c]) + rest) == Cons(c, CopyQuotedName(rest))
  {
    if c == '"' {
      assert ("\"\"" + rest)[2..] == rest;
    } else {
      Behind([c], rest);
    }
  }

  lemma {:induction false} CopyDoubled(name: string, tail: string)
    requires EndsName(tail)
    ensures CopyQuotedName(DoubleQuotes(name) + ("\"" + tail)) == (name, tail)
  {
    hide CopyName, CopyQuotedName;
    if name == "" {
      Units("\"" + tail);
      CopyQuotedEnd(tail);
    } else {
      var head := if name[0] == '"' then "\"\"" else [name[0]];
      var rest := DoubleQuotes(name[1..]) + ("\"" + tail);
      CopyDoubled(name[1..], tail);
      CopyQuotedChar(name[0], rest);
      Assoc(head, DoubleQuotes(name[1..]), "\"" + tail);
      assert [name[0]] + name[1..] == name;
    }
  }

  /** Reading a name back gives the name, whatever characters it is made of. */
  lemma CopyPutId(name: string, tail: string)
    requires EndsName(tail)
    ensures CopyName(PutId(name) + tail) == (name, tail)
  {
    if Safe(name) {
      CopySafe(name, tail);
    } else {
      CopyDoubled(name, tail);
      var inner := DoubleQuotes(name) + ("\"" + tail);
      Assoc("\"", DoubleQuotes(name) + "\"", tail);
      Assoc(DoubleQuotes(name), "\"", tail);
      Behind("\"", inner);
    }
  }

  function Before(done: string, parsed: (string, string)): (r: (string, string)) {
    (done + parsed.0, parsed.1)
  }

  lemma BeforeCons(done: string, c: char, parsed: (string, string))
    ensures Before("", parsed) == parsed
    ensures Before(done, Cons(c, parsed)) == Before(done + [c], parsed)
  {
    assert "" + parsed.0 == parsed.0;
    assert done + ([c] + parsed.0) == done + [c] + parsed.0;
  }

  /** How the rest of a name is read, at each kind of character. */
  lemma NameAt(done: string, s: string, p: nat)
    requires p <= |s|
    ensures p == |s| || s[p] == '=' ==> Before(done, CopyName(s[p..])) == (done, s[p..])
    ensures p < |s| && s[p] == '"' ==> CopyName(s[p..]) == CopyQuotedName(s[p + 1..])
    ensures p < |s| && s[p] != '=' && s[p] != '"' ==>
              Before(done, CopyName(s[p..])) == Before(done + [s[p]], CopyName(s[p + 1..]))
  {
    Units(done);
    if p < |s| {
      assert s[p..][1..] == s[p + 1..];
      BeforeCons(done, s[p], CopyName(s[p + 1..]));
    }
  }

  /** The quote at p closes the name: it is not the first of a pair. */
  predicate Closes(s: string, p: nat) {
    p < |s| && s[p] == '"' && !(p + 1 < |s| && s[p + 1] == '"')
  }

  lemma QuotedNameAt(done: string, s: string, p: nat)
    requires p <= |s|
    ensures p == |s| ==> Before(done, CopyQuotedName(s[p..])) == (done, s[p..])
    ensures Closes(s, p) ==> CopyQuotedName(s[p..]) == CopyName(s[p + 1..])
    ensures p < |s| && !Closes(s, p) ==>
              var q := if s[p] == '"' then p + 1 else p;
              q < |s| && Before(done, CopyQuotedName(s[p..])) == Before(done + [s[q]], CopyQuotedName(s[q + 1..]))
  {
    Units(done);
    if p < |s| && !Closes(s, p) {
      var q := if s[p] == '"' then p + 1 else p;
      assert s[p..][q + 1 - p..] == s[q + 1..];
      BeforeCons(done, s[q], CopyQuotedName(s[q + 1..]));
    } else if p < |s| {
      assert s[p..][1..] == s[p + 1..];
    }
  }

  method CopyAclUserName(input: string, start: nat) returns (output: string, p: nat)
    requires start <= |input|
    ensures start <= p <= |input|
    ensures CopyName(input[start..]) == (output, input[p..])
  {
    hide CopyName, CopyQuotedName, Before;
    output, p := "", start;
    BeforeCons("", 'x', CopyName(input[start..]));
    while p < |input| && input[p] != '='
      invariant start <= p <= |input|
      invariant CopyName(input[start..]) == Before(output, CopyName(input[p..]))
    {
      NameAt(output, input, p);
      if input[p] != '"' {
        output := output + [input[p]];
        p := p + 1;
      } else {
        p := p + 1;
        while !(p < |input| && input[p] == '"' && !(p + 1 < |input| && input[p + 1] == '"'))
          invariant start <= p <= |input|
          invariant CopyName(input[start..]) == Before(output, CopyQuotedName(input[p..]))
          decreases |input| - p
        {
          QuotedNameAt(output, input, p);
          if p == |input| { return; }
          if input[p] == '"' { p := p + 1; }
          output := output + [input[p]];
          p := p + 1;
        }
        QuotedNameAt(output, input, p);
        p := p + 1;
      }
    }
    NameAt(output, input, p);
  }

  // ---------------------------------------------------------------------
  // Items

  datatype Item = Item(grantee: string, grantor: string, codes: string)

  function ParseItem(text: string): (r: Option<Item>) {
    var (grantee, rest) := CopyName(text);
    if rest == "" || rest[0] != '=' then None else ParseBody(grantee, rest[1..])
  }

  /** The part after the equals sign: codes, and the grantor behind a slash if there is one. */
  function ParseBody(grantee: string, body: string): (r: Option<Item>) {
    var slash := IndexOf(body, '/');
    if slash == |body| then Some(Item(grantee, "", body))
    else
      var (grantor, rest) := CopyName(body[slash + 1..]);
      if rest != "" then None else Some(Item(grantee, grantor, body[..slash]))
  }

  predicate NoneIs(s: string, c: char) {
    forall i :: 0 <= i < |s| ==> s[i] != c
  }

  /** How the server prints an item. */
  function PrintItem(item: Item): (r: string) {
    PutId(item.grantee) + ("=" + (item.codes + ("/" + PutId(item.grantor))))
  }

  lemma BodyPrinted(item: Item)
    requires NoneIs(item.codes, '/')
    ensures ParseBody(item.grantee, item.codes + ("/" + PutId(item.grantor))) == Some(item)
  {
    hide PutId, CopyName;
    var tail := "/" + PutId(item.grantor);
    var body := item.codes + tail;
    assert forall j :: 0 <= j < |item.codes| ==> body[j] == item.codes[j];
    assert body[|item.codes|] == '/';
    assert IndexOf(body, '/') == |item.codes|;
    Behind(item.codes, tail);
    assert body[|item.codes| + 1..] == PutId(item.grantor);
    CopyPutId(item.grantor, "");
    Units(PutId(item.grantor));
  }

  lemma ParsePrintedItem(item: Item)
    requires NoneIs(item.codes, '/')
    ensures ParseItem(PrintItem(item)) == Some(item)
  {
    hide PutId, CopyName, ParseBody;
    var body := item.codes + ("/" + PutId(item.grantor));
    BodyPrinted(item);
    CopyPutId(item.grantee, "=" + body);
    Behind("=", body);
  }

  // ---------------------------------------------------------------------
  // Privileges

  /** A privilege is known by the code letter of the item text and the keyword of GRANT. */
  datatype CodedKeyword = Priv(code: char, keyword: string)

  type Priv = p: CodedKeyword | |p.keyword| > 3 && p.code != '*' witness Priv('r', "SELECT")

  const SELECT: Priv := Priv('r', "SELECT")
  const INSERT: Priv := Priv('a', "INSERT")
  const REFERENCES: Priv := Priv('x', "REFERENCES")
  const DELETE: Priv := Priv('d', "DELETE")
  const TRIGGER: Priv := Priv('t', "TRIGGER")
  const TRUNCATE: Priv := Priv('D', "TRUNCATE")
  const UPDATE: Priv := Priv('w', "UPDATE")
  const UPDATE_DELETE: Priv := Priv('w', "UPDATE,DELETE")
  const USAGE: Priv := Priv('U', "USAGE")
  const EXECUTE: Priv := Priv('X', "EXECUTE")
  const CREATE: Priv := Priv('C', "CREATE")
  const CONNECT: Priv := Priv('c', "CONNECT")
  const TEMPORARY: Priv := Priv('T', "TEMPORARY")

  datatype Kind =
    | Table | Tables | Sequence | Sequences | Function | Functions | Language | Schema | Database
    | Tablespace | Type | Types | ForeignDataWrapper | ForeignServer | ForeignTable | LargeObject

  /** The privileges looked for in an item, in the order in which they are written out. */
  function Applicable(kind: Kind, column: bool, version: int): (ps: seq<Priv>)
    ensures ps != []
    ensures forall i, j :: 0 <= i < j < |ps| ==> ps[i].code != ps[j].code
  {
    match kind
    case Sequence => [SELECT, USAGE, UPDATE]
    case Sequences => [SELECT, USAGE, UPDATE]
    case Table => TablePrivs(column, version)
    case Tables => TablePrivs(column, version)
    case Function => [EXECUTE]
    case Functions => [EXECUTE]
    case Schema => [CREATE, USAGE]
    case Database => [CREATE, CONNECT, TEMPORARY]
    case Tablespace => [CREATE]
    case ForeignTable => [SELECT]
    case LargeObject => [SELECT, UPDATE]
    case Language => [USAGE]
    case Type => [USAGE]
    case Types => [USAGE]
    case ForeignDataWrapper => [USAGE]
    case ForeignServer => [USAGE]
  }

  function TablePrivs(column: bool, version: int): (ps: seq<Priv>)
    ensures ps != []
    ensures forall i, j :: 0 <= i < j < |ps| ==> ps[i].code != ps[j].code
  {
    if version < 70200 then [SELECT, INSERT, UPDATE_DELETE]
    else if column then [SELECT, INSERT, REFERENCES, UPDATE]
    else if version < 80400 then [SELECT, INSERT, REFERENCES, DELETE, TRIGGER, UPDATE]
    else [SELECT, INSERT, REFERENCES, DELETE, TRIGGER, TRUNCATE, UPDATE]
  }

  predicate Held(codes: string, p: Priv) { IndexOf(codes, p.code) < |codes| }

  /** A held privilege carries its grant option when its code is followed by a star. */
  predicate HasOption(codes: string, p: Priv) {
    var i := IndexOf(codes, p.code);
    i + 1 < |codes| && codes[i + 1] == '*'
  }

  predicate HeldAs(codes: string, p: Priv, option: bool) {
    Held(codes, p) && HasOption(codes, p) == option
  }

  function Chosen(app: seq<Priv>, codes: string, option: bool): (ps: seq<Priv>)
  {
    if app == [] then []
    else
      var n := |app| - 1;
      Chosen(app[..n], codes, option) + (if HeldAs(codes, app[n], option) then [app[n]] else [])
  }

  lemma {:induction false} ChosenMembers(app: seq<Priv>, codes: string, option: bool)
    ensures forall p :: p in Chosen(app, codes, option) <==> p in app && HeldAs(codes, p, option)
  {
    if app != [] {
      var n := |app| - 1;
      ChosenMembers(app[..n], codes, option);
      assert app == app[..n] + [app[n]];
    }
  }

  /** What a GRANT names: everything applicable, or a list of keywords. */
  datatype Spec = All | Only(privs: seq<Priv>)

  predicate AllAre(app: seq<Priv>, codes: string, option: bool) {
    forall p :: p in app ==> HeldAs(codes, p, option)
  }

  function SpecOf(app: seq<Priv>, codes: string, option: bool): (s: Spec) {
    if AllAre(app, codes, option) then All else Only(Chosen(app, codes, option))
  }

  function Expand(spec: Spec, app: seq<Priv>): (ps: set<Priv>) {
    match spec case All => (set p | p in app) case Only(list) => (set p | p in list)
  }

  /** Writing ALL for a full set, or the keywords otherwise, names the held privileges exactly. */
  lemma SpecMeaning(app: seq<Priv>, codes: string, option: bool)
    ensures forall p :: p in Expand(SpecOf(app, codes, option), app) <==> p in app && HeldAs(codes, p, option)
    ensures SpecOf(app, codes, option) == Only([]) <==>
            app != [] && forall p :: p in app ==> !HeldAs(codes, p, option)
  {
    var spec := SpecOf(app, codes, option);
    ChosenMembers(app, codes, option);
    if spec.Only? && spec.privs != [] {
      assert spec.privs[0] in spec.privs;
    }
    if spec.Only? {
      assert app != [];
    }
    if app != [] {
      assert app[0] in app;
    }
  }

  // ---------------------------------------------------------------------
  // The text of a privilege list

  function SubText(sub: Option<string>): string {
    match sub case None => "" case Some(s) => "(" + s + ")"
  }

  function ListText(ps: seq<Priv>, sub: Option<string>): (r: string)
    ensures ps != [] ==> |r| > 3
    ensures ps == [] <==> r == ""
  {
    if ps == [] then ""
    else AddedText(ListText(ps[..|ps| - 1], sub), ps[|ps| - 1].keyword, sub)
  }

  function AddedText(buf: string, keyword: string, sub: Option<string>): (r: string)
    ensures |r| >= |keyword|
  {
    buf + (if buf != "" then "," else "") + keyword + SubText(sub)
  }

  function SpecText(spec: Spec, sub: Option<string>): (r: string)
    ensures r == "" <==> spec == Only([])
    ensures r == "ALL" <==> spec.All? && sub.None?
  {
    match spec case All => "ALL" + SubText(sub) case Only(ps) => ListText(ps, sub)
  }

  method AddAcl(buf: string, keyword: string, sub: Option<string>) returns (r: string)
    ensures r == AddedText(buf, keyword, sub)
  {
    r := buf;
    if |r| > 0 { r := r + ","; }
    r := r + keyword;
    if sub.Some? { r := r + "(" + sub.value + ")"; } else { assert r + "" == r; }
  }

  method ParseAclItem(text: string, kind: Kind, sub: Option<string>, version: int)
    returns (ok: bool, grantee: string, grantor: string, privs: string, privswgo: string)
    ensures ok <==> ParseItem(text).Some?
    ensures ok ==>
      var item := ParseItem(text).value;
      var app := Applicable(kind, sub.Some?, version);
      && grantee == item.grantee && grantor == item.grantor
      && privs == SpecText(SpecOf(app, item.codes, false), sub)
      && privswgo == SpecText(SpecOf(app, item.codes, true), sub)
  {
    hide CopyName, CopyQuotedName, Applicable, SpecOf, SpecText;
    grantor, privs, privswgo := "", "", "";
    var eqpos;
    grantee, eqpos := CopyAclUserName(text, 0);
    assert text[0..] == text;
    if eqpos == |text| || text[eqpos] != '=' {
      return false, grantee, grantor, privs, privswgo;
    }
    assert text[eqpos..][1..] == text[eqpos + 1..];
    var body := text[eqpos + 1..];
    var slash := IndexOf(body, '/');
    var codes := body[..slash];
    if slash < |body| {
      var p;
      grantor, p := CopyAclUserName(body, slash + 1);
      if p != |body| {
        return false, grantee, grantor, privs, privswgo;
      }
    } else {
      assert codes == body;
    }
    var app := Applicable(kind, sub.Some?, version);
    privs, privswgo := ConvertPrivs(app, codes, sub);
    ok := true;
  }

  /** One CONVERT_PRIV step; w and wo say whether the two all-flags survive it. */
  method ConvertPriv(p: Priv, codes: string, sub: Option<string>, privs0: string, privswgo0: string)
    returns (privs: string, privswgo: string, w: bool, wo: bool)
    ensures w == HeldAs(codes, p, true) && wo == HeldAs(codes, p, false)
    ensures privs == if wo then AddedText(privs0, p.keyword, sub) else privs0
    ensures privswgo == if w then AddedText(privswgo0, p.keyword, sub) else privswgo0
  {
    privs, privswgo, w, wo := privs0, privswgo0, true, true;
    var pos := IndexOf(codes, p.code);
    if pos < |codes| {
      if pos + 1 < |codes| && codes[pos + 1] == '*' {
        privswgo := AddAcl(privswgo, p.keyword, sub);
        wo := false;
      } else {
        privs := AddAcl(privs, p.keyword, sub);
        w := false;
      }
    } else {
      w, wo := false, false;
    }
  }

  /** The run of CONVERT_PRIV steps and the final choice of ALL. */
  method ConvertPrivs(app: seq<Priv>, codes: string, sub: Option<string>) returns (privs: string, privswgo: string)
    requires app != []
    ensures privs == SpecText(SpecOf(app, codes, false), sub)
    ensures privswgo == SpecText(SpecOf(app, codes, true), sub)
  {
    hide Chosen, ListText, AddedText, HeldAs, SpecOf, SpecText, AllAre;
    var allWithGo, allWithoutGo := true, true;
    privs, privswgo := "", "";
    NothingChosen(codes, sub);
    for i := 0 to |app|
      invariant privs == ListText(Chosen(app[..i], codes, false), sub)
      invariant privswgo == ListText(Chosen(app[..i], codes, true), sub)
      invariant allWithGo == AllAre(app[..i], codes, true)
      invariant allWithoutGo == AllAre(app[..i], codes, false)
    {
      var p := app[i];
      ChosenSnoc(app, i, codes, false, sub);
      ChosenSnoc(app, i, codes, true, sub);
      var w, wo;
      privs, privswgo, w, wo := ConvertPriv(p, codes, sub, privs, privswgo);
      allWithGo, allWithoutGo := allWithGo && w, allWithoutGo && wo;
    }
    assert app[..|app|] == app;
    privs, privswgo := ChooseAll(app, codes, sub, privs, privswgo, allWithGo, allWithoutGo);
  }

  method ChooseAll(ghost app: seq<Priv>, ghost codes: string, sub: Option<string>,
                   privs0: string, privswgo0: string, allWithGo: bool, allWithoutGo: bool)
    returns (privs: string, privswgo: string)
    requires app != []
    requires allWithGo == AllAre(app, codes, true) && allWithoutGo == AllAre(app, codes, false)
    requires privs0 == ListText(Chosen(app, codes, false), sub)
    requires privswgo0 == ListText(Chosen(app, codes, true), sub)
    ensures privs == SpecText(SpecOf(app, codes, false), sub)
    ensures privswgo == SpecText(SpecOf(app, codes, true), sub)
  {
    FinalChoice(app, codes, sub);
    privs, privswgo := privs0, privswgo0;
    if allWithGo {
      privs, privswgo := "", "ALL" + SubText(sub);
    } else if allWithoutGo {
      privs, privswgo := "ALL" + SubText(sub), "";
    }
  }

  lemma NothingChosen(codes: string, sub: Option<string>)
    ensures forall option :: ListText(Chosen([], codes, option), sub) == "" && AllAre([], codes, option)
  {
  }

  lemma FinalChoice(app: seq<Priv>, codes: string, sub: Option<string>)
    requires app != []
    ensures !(AllAre(app, codes, true) && AllAre(app, codes, false))
    ensures forall option :: AllAre(app, codes, option) ==> SpecOf(app, codes, !option) == Only([])
    ensures forall option :: !AllAre(app, codes, option) ==>
              SpecText(SpecOf(app, codes, option), sub) == ListText(Chosen(app, codes, option), sub)
  {
    assert app[0] in app;
    SpecMeaning(app, codes, true);
    SpecMeaning(app, codes, false);
  }

  lemma ChosenSnoc(app: seq<Priv>, i: nat, codes: string, option: bool, sub: Option<string>)
    requires i < |app|
    ensures ListText(Chosen(app[..i + 1], codes, option), sub) ==
            if HeldAs(codes, app[i], option)
            then AddedText(ListText(Chosen(app[..i], codes, option), sub), app[i].keyword, sub)
            else ListText(Chosen(app[..i], codes, option), sub)
    ensures AllAre(app[..i + 1], codes, option) <==> AllAre(app[..i], codes, option) && HeldAs(codes, app[i], option)
  {
    assert app[..i + 1] == app[..i] + [app[i]];
    assert app[..i + 1][..i] == app[..i];
    var ps := Chosen(app[..i], codes, option);
    assert (ps + [app[i]])[..|ps|] == ps;
    assert ps + [] == ps;
  }

  // ---------------------------------------------------------------------
  // The codes as the server prints them

  const RIGHTS := "arwdDxtXUCTc"

  /** The codes of the rights that the server has for each kind of object: ACL_ALL_RIGHTS_ and the bits behind it. */
  function ServerRights(kind: Kind, column: bool): (codes: set<char>) {
    var insert, select, update, delete, truncate, references, trigger := 'a', 'r', 'w', 'd', 'D', 'x', 't';
    var execute, usage, create, temporary, connect := 'X', 'U', 'C', 'T', 'c';
    var relation := {insert, select, update, delete, truncate, references, trigger};
    match kind
    case Table => if column then {insert, select, update, references} else relation
    case Tables => if column then {insert, select, update, references} else relation
    case ForeignTable => relation
    case Sequence => {usage, select, update} case Sequences => {usage, select, update}
    case Database => {create, temporary, connect}
    case ForeignDataWrapper => {usage} case ForeignServer => {usage}
    case Function => {execute} case Functions => {execute}
    case Language => {usage} case LargeObject => {select, update} case Schema => {usage, create}
    case Tablespace => {create} case Type => {usage} case Types => {usage}
  }

  predicate HasCode(ps: seq<Priv>, c: char) { exists i :: 0 <= i < |ps| && ps[i].code == c }

  lemma TableRights(column: bool, version: int, c: char)
    requires version >= 70200
    ensures HasCode(TablePrivs(column, version), c) <==>
            c in ServerRights(Table, column) && (version < 80400 ==> c != 'D')
  {
    var ps := TablePrivs(column, version);
    assert ps[0].code == 'r' && ps[1].code == 'a' && ps[2].code == 'x' && ps[|ps| - 1].code == 'w';
    if !column {
      assert ps[3].code == 'd' && ps[4].code == 't';
      if version >= 80400 { assert ps[5].code == 'D'; }
    }
  }

  /** Every right that the server has for an object is looked for, and no other; before 8.4 there was no TRUNCATE. */
  lemma ApplicableIsAll(kind: Kind, column: bool, version: int, c: char)
    requires version >= 70200 && !kind.ForeignTable?
    ensures HasCode(Applicable(kind, column, version), c) <==>
            c in ServerRights(kind, column) && (version < 80400 ==> c != 'D')
  {
    if kind.Table? || kind.Tables? {
      TableRights(column, version, c);
    } else {
      OtherRights(kind, column, version, c);
    }
  }

  lemma OtherRights(kind: Kind, column: bool, version: int, c: char)
    requires !kind.ForeignTable? && !kind.Table? && !kind.Tables?
    ensures HasCode(Applicable(kind, column, version), c) <==> c in ServerRights(kind, column)
    ensures 'D' !in ServerRights(kind, column)
  {
    var ps := Applicable(kind, column, version);
    assert c == ps[0].code ==> HasCode(ps, c);
    assert |ps| > 1 && c == ps[1].code ==> HasCode(ps, c);
    assert |ps| > 2 && c == ps[2].code ==> HasCode(ps, c);
  }

  lemma CodesKnown(kind: Kind, column: bool, version: int)
    ensures forall p :: p in Applicable(kind, column, version) ==> p.code in RIGHTS
  {
  }

  /** Each right held, in the server's order, starred when it carries its grant option. */
  function PrintCodes(order: string, rights: map<char, bool>): (r: string) {
    if order == "" then ""
    else if order[0] !in rights then PrintCodes(order[1..], rights)
    else [order[0]] + (if rights[order[0]] then "*" else "") + PrintCodes(order[1..], rights)
  }

  lemma {:induction false} NotPrinted(order: string, rights: map<char, bool>, c: char)
    requires NoneIs(order, c) && c != '*'
    ensures NoneIs(PrintCodes(order, rights), c)
  {
    if order != "" { NotPrinted(order[1..], rights, c); }
  }

  lemma {:induction false} NoLeadingStar(order: string, rights: map<char, bool>)
    requires NoneIs(order, '*')
    ensures var s := PrintCodes(order, rights); s != "" ==> s[0] != '*'
  {
    if order != "" { NoLeadingStar(order[1..], rights); }
  }

  lemma OtherCode(c0: char, rest: string, p: Priv)
    requires c0 != p.code
    ensures Held([c0] + rest, p) == Held(rest, p)
    ensures Held(rest, p) ==> HasOption([c0] + rest, p) == HasOption(rest, p)
  {
  }

  /** What the printed codes say about a privilege is what the rights say. */
  lemma {:induction false} CodesPrinted(order: string, rights: map<char, bool>, p: Priv)
    requires forall i, j :: 0 <= i < j < |order| ==> order[i] != order[j]
    requires NoneIs(order, '*') && p.code in order
    ensures Held(PrintCodes(order, rights), p) <==> p.code in rights
    ensures p.code in rights ==> HasOption(PrintCodes(order, rights), p) == rights[p.code]
  {
    var c0, rest := order[0], PrintCodes(order[1..], rights);
    if p.code == c0 {
      NotPrinted(order[1..], rights, c0);
      NoLeadingStar(order[1..], rights);
      if c0 in rights {
        FirstCode(rights[c0], rest, p);
      }
    } else {
      CodesPrinted(order[1..], rights, p);
      OtherCode('*', rest, p);
      if c0 in rights {
        Assoc([c0], if rights[c0] then "*" else "", rest);
        Units(rest);
        OtherCode(c0, (if rights[c0] then "*" else "") + rest, p);
      }
    }
  }

  lemma FirstCode(option: bool, rest: string, p: Priv)
    requires rest != "" ==> rest[0] != '*'
    ensures HeldAs([p.code] + (if option then "*" else "") + rest, p, option)
  {
  }
}
