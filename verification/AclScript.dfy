/**
  buildACLCommands of tools/common/dumputils.cpp: from the text of an ACL to the
  script that rebuilds it.  The script is described as a list of commands, and
  the method produces the text of exactly those commands.
 */
module AclScript {
  import opened Basics
  import opened Identifiers
  import opened ArrayText
  import Items = AclItems
  import opened AclServer

  /** What the caller says about the object. */
  datatype Context = Context(kind: Items.Kind, sub: Option<string>, owner: Option<string>, version: int) {
    function App(): (ps: seq<Items.Priv>)
      ensures ps != []
    {
      Items.Applicable(kind, sub.Some?, version)
    }
    /** An owner given as the empty string is taken for none. */
    function Normal(): (r: Context) { if owner == Some("") then this.(owner := None) else this }
    predicate Valid() { Normal() == this && Columns() }
    /** Only tables have columns. */
    predicate Columns() { sub.Some? ==> kind.Table? }
  }

  predicate SupportsGrantOptions(version: int) { version >= 70400 }

  // ---------------------------------------------------------------------
  // The commands

  predicate Effective(it: Items.Item, app: seq<Items.Priv>) {
    Items.SpecOf(app, it.codes, false) != Items.Only([]) || Items.SpecOf(app, it.codes, true) != Items.Only([])
  }

  /** An item by which the owner holds privileges of its own. */
  predicate Own(it: Items.Item, cx: Context) {
    cx.owner == Some(it.grantee) && cx.owner == Some(it.grantor)
  }

  /** The owner's item says just what the owner holds by default. */
  predicate AtDefault(it: Items.Item, cx: Context) {
    cx.sub.None? && Items.SpecOf(cx.App(), it.codes, SupportsGrantOptions(cx.version)).All?
  }

  predicate GroupName(name: string) { "group " <= name }

  function Target(grantee: string): (w: Who) {
    if grantee == "" then Public
    else if GroupName(grantee) then Group(grantee[6..])
    else Role(grantee)
  }

  function Grants(it: Items.Item, app: seq<Items.Priv>, who: Who): (cs: seq<Command>) {
    var plain, full := Items.SpecOf(app, it.codes, false), Items.SpecOf(app, it.codes, true);
    (if plain != Items.Only([]) then [Grant(plain, who, false)] else []) +
    (if full != Items.Only([]) then [Grant(full, who, true)] else [])
  }

  function OwnCommands(it: Items.Item, cx: Context): (cs: seq<Command>) {
    if !Effective(it, cx.App()) || !Own(it, cx) || AtDefault(it, cx) then []
    else [RevokeAll(Role(it.grantee))] + Grants(it, cx.App(), Role(it.grantee))
  }

  predicate ActsAsGrantor(it: Items.Item, cx: Context) {
    it.grantor != "" && cx.owner != Some(it.grantor)
  }

  function OtherCommands(it: Items.Item, cx: Context): (cs: seq<Command>) {
    if !Effective(it, cx.App()) || Own(it, cx) then []
    else if ActsAsGrantor(it, cx) then
      [SetAuthorization(it.grantor)] + Grants(it, cx.App(), Target(it.grantee)) + [ResetAuthorization]
    else Grants(it, cx.App(), Target(it.grantee))
  }

  function OwnScript(items: seq<Items.Item>, cx: Context): (cs: seq<Command>) {
    if items == [] then []
    else OwnScript(items[..|items| - 1], cx) + OwnCommands(items[|items| - 1], cx)
  }

  function OtherScript(items: seq<Items.Item>, cx: Context): (cs: seq<Command>) {
    if items == [] then []
    else OtherScript(items[..|items| - 1], cx) + OtherCommands(items[|items| - 1], cx)
  }

  predicate OwnerFound(items: seq<Items.Item>, cx: Context) {
    exists i :: 0 <= i < |items| && Effective(items[i], cx.App()) && Own(items[i], cx)
  }

  /** CONNECT on databases did not exist before 8.2. */
  predicate NeedsConnect(cx: Context) { cx.version < 80200 && cx.kind.Database? }

  function Opening(cx: Context): (cs: seq<Command>) {
    [RevokeAll(Public)] +
    (if NeedsConnect(cx) then [Grant(Items.Only([Items.CONNECT]), Public, false)] else [])
  }

  /** An owner without an item must have given up everything. */
  function Closing(items: seq<Items.Item>, cx: Context): (cs: seq<Command>) {
    if cx.owner.Some? && !OwnerFound(items, cx) then [RevokeAll(Role(cx.owner.value))] else []
  }

  function FirstScript(items: seq<Items.Item>, cx: Context): (cs: seq<Command>) {
    Opening(cx) + OwnScript(items, cx) + Closing(items, cx)
  }

  function Script(items: seq<Items.Item>, cx: Context): (cs: seq<Command>) {
    FirstScript(items, cx) + OtherScript(items, cx)
  }

  // ---------------------------------------------------------------------
  // Their text

  /** The fixed text of every command: what is put in front of it, and the object. */
  datatype Wording = Wording(prefix: string, kind: Items.Kind, name: string, rules: Rules)

  function KindText(kind: Items.Kind): string {
    match kind
    case Table => "TABLE" case Tables => "TABLES" case Sequence => "SEQUENCE" case Sequences => "SEQUENCES"
    case Function => "FUNCTION" case Functions => "FUNCTIONS" case Language => "LANGUAGE"
    case Schema => "SCHEMA" case Database => "DATABASE" case Tablespace => "TABLESPACE"
    case Type => "TYPE" case Types => "TYPES" case ForeignDataWrapper => "FOREIGN DATA WRAPPER"
    case ForeignServer => "FOREIGN SERVER" case ForeignTable => "FOREIGN TABLE"
    case LargeObject => "LARGE OBJECT"
  }

  function WhoText(who: Who, w: Wording): string {
    match who
    case Public => "PUBLIC"
    case Role(n) => Ident(n, w.rules)
    case Group(n) => "GROUP " + Ident(n, w.rules)
  }

  /** The object and what comes behind it. */
  function OnText(direction: string, end: string, w: Wording): string {
    " ON " + (KindText(w.kind) + (" " + (w.name + (direction + end))))
  }

  function RevokeText(who: string, sub: Option<string>, w: Wording): string {
    w.prefix + ("REVOKE ALL" + (Items.SubText(sub) + OnText(" FROM ", who + ";\n", w)))
  }

  function GrantText(privs: string, who: string, option: bool, w: Wording): string {
    w.prefix + ("GRANT " + (privs + OnText(" TO ", who + (if option then " WITH GRANT OPTION;\n" else ";\n"), w)))
  }

  function SetText(role: string, w: Wording): string {
    "SET SESSION AUTHORIZATION " + Ident(role, w.rules) + ";\n"
  }

  const RESET_TEXT := "RESET SESSION AUTHORIZATION;\n"

  function Text(c: Command, sub: Option<string>, w: Wording): string {
    match c
    case RevokeAll(who) => RevokeText(WhoText(who, w), sub, w)
    case Grant(spec, who, option) => GrantText(Items.SpecText(spec, sub), WhoText(who, w), option, w)
    case SetAuthorization(role) => SetText(role, w)
    case ResetAuthorization => RESET_TEXT
  }

  function Texts(cs: seq<Command>, sub: Option<string>, w: Wording): (r: string) {
    if cs == [] then "" else Texts(cs[..|cs| - 1], sub, w) + Text(cs[|cs| - 1], sub, w)
  }

  lemma {:induction false} TextsConcat(a: seq<Command>, b: seq<Command>, sub: Option<string>, w: Wording)
    ensures Texts(a + b, sub, w) == Texts(a, sub, w) + Texts(b, sub, w)
  {
    hide Text;
    if b == [] {
      Units(a);
      Units(Texts(a, sub, w));
    } else {
      var b' := b[..|b| - 1];
      TextsConcat(a, b', sub, w);
      assert (a + b)[..|a + b| - 1] == a + b';
      Assoc(Texts(a, sub, w), Texts(b', sub, w), Text(b[|b| - 1], sub, w));
    }
  }

  lemma TextsOne(c: Command, sub: Option<string>, w: Wording)
    ensures Texts([], sub, w) == "" && Texts([c], sub, w) == Text(c, sub, w)
  {
  }

  lemma TextsSnoc(cs: seq<Command>, c: Command, sub: Option<string>, w: Wording)
    ensures Texts(cs + [c], sub, w) == Texts(cs, sub, w) + Text(c, sub, w)
  {
  }

  // ---------------------------------------------------------------------
  // The items of an ACL text

  /** A missing grantor stands for the owner. */
  function Completed(it: Items.Item, owner: Option<string>): (r: Items.Item) {
    if it.grantor == "" && owner.Some? then it.(grantor := owner.value) else it
  }

  /** The items up to the first one that cannot be parsed. */
  function ItemsOf(texts: seq<string>, owner: Option<string>): (items: seq<Items.Item>)
    ensures |items| <= |texts|
  {
    if texts == [] || Items.ParseItem(texts[0]).None? then []
    else [Completed(Items.ParseItem(texts[0]).value, owner)] + ItemsOf(texts[1..], owner)
  }

  lemma {:induction false} ItemsOfAt(texts: seq<string>, owner: Option<string>, n: nat)
    requires n <= |texts| && forall i :: 0 <= i < n ==> Items.ParseItem(texts[i]).Some?
    ensures n <= |ItemsOf(texts, owner)|
    ensures forall i :: 0 <= i < n ==>
              ItemsOf(texts, owner)[i] == Completed(Items.ParseItem(texts[i]).value, owner)
    ensures n < |texts| && Items.ParseItem(texts[n]).None? ==> |ItemsOf(texts, owner)| == n
  {
    hide Items.ParseItem, Completed;
    if n > 0 {
      ItemsOfAt(texts[1..], owner, n - 1);
      assert forall i :: 0 < i < n ==> texts[i] == texts[1..][i - 1];
    }
  }

  /** An item as servers before 7.4 print it: without a grantor. */
  function OldItem(grantee: string, codes: string): (r: string) { Items.PutId(grantee) + ("=" + codes) }

  lemma OldItemParsed(grantee: string, codes: string)
    requires Items.NoneIs(codes, '/')
    ensures Items.ParseItem(OldItem(grantee, codes)) == Some(Items.Item(grantee, "", codes))
  {
    hide Items.PutId, Items.CopyName;
    Items.CopyPutId(grantee, "=" + codes);
    Behind("=", codes);
  }

  /** Without a grantor an item means what it means with the owner as its grantor. */
  lemma OldItemIsOwners(grantee: string, codes: string, owner: string)
    requires Items.NoneIs(codes, '/')
    ensures ItemsOf([OldItem(grantee, codes)], Some(owner)) ==
            ItemsOf([Items.PrintItem(Items.Item(grantee, owner, codes))], Some(owner)) ==
            [Items.Item(grantee, owner, codes)]
  {
    hide Items.ParseItem, Items.PrintItem, OldItem;
    OldItemParsed(grantee, codes);
    Items.ParsePrintedItem(Items.Item(grantee, owner, codes));
  }

  // ---------------------------------------------------------------------
  // The program

  method AddGrants(buf: string, privs: string, privswgo: string, whoText: string, w: Wording,
                   ghost it: Items.Item, ghost cx: Context, ghost who: Who)
    returns (r: string)
    requires whoText == WhoText(who, w)
    requires privs == Items.SpecText(Items.SpecOf(cx.App(), it.codes, false), cx.sub)
    requires privswgo == Items.SpecText(Items.SpecOf(cx.App(), it.codes, true), cx.sub)
    ensures r == buf + Texts(Grants(it, cx.App(), who), cx.sub, w)
  {
    hide Texts, WhoText, GrantText, Items.SpecOf, Items.SpecText, Items.Applicable;
    r := buf;
    ghost var plain := Items.SpecOf(cx.App(), it.codes, false);
    ghost var full := Items.SpecOf(cx.App(), it.codes, true);
    ghost var one := if plain != Items.Only([]) then [Grant(plain, who, false)] else [];
    Units(buf);
    TextsOne(Grant(plain, who, false), cx.sub, w);
    if |privs| > 0 {
      r := r + GrantText(privs, whoText, false, w);
    }
    assert r == buf + Texts(one, cx.sub, w);
    if |privswgo| > 0 {
      TextsSnoc(one, Grant(full, who, true), cx.sub, w);
      Assoc(buf, Texts(one, cx.sub, w), Text(Grant(full, who, true), cx.sub, w));
      r := r + GrantText(privswgo, whoText, true, w);
    }
    Units(one);
  }

  method AddOwn(buf: string, grantee: string, privs: string, privswgo: string, w: Wording, cx: Context,
                ghost it: Items.Item)
    returns (r: string)
    requires Own(it, cx) && Effective(it, cx.App()) && it.grantee == grantee
    requires privs == Items.SpecText(Items.SpecOf(cx.App(), it.codes, false), cx.sub)
    requires privswgo == Items.SpecText(Items.SpecOf(cx.App(), it.codes, true), cx.sub)
    ensures r == buf + Texts(OwnCommands(it, cx), cx.sub, w)
  {
    r := buf;
    if (if SupportsGrantOptions(cx.version) then privswgo != "ALL" else privs != "ALL") {
      ghost var revoke := RevokeAll(Role(grantee));
      ghost var grants := Grants(it, cx.App(), Role(grantee));
      var who := FmtId(grantee, w.rules);
      r := r + RevokeText(who, cx.sub, w);
      r := AddGrants(r, privs, privswgo, who, w, it, cx, Role(grantee));
      TextsConcat([revoke], grants, cx.sub, w);
      TextsOne(revoke, cx.sub, w);
      Assoc(buf, Text(revoke, cx.sub, w), Texts(grants, cx.sub, w));
    } else {
      Units(buf);
    }
  }

  method AddOther(buf: string, grantee: string, grantor: string, privs: string, privswgo: string, w: Wording,
                  cx: Context, ghost it: Items.Item)
    returns (r: string)
    requires !Own(it, cx) && Effective(it, cx.App()) && it.grantee == grantee && it.grantor == grantor
    requires privs == Items.SpecText(Items.SpecOf(cx.App(), it.codes, false), cx.sub)
    requires privswgo == Items.SpecText(Items.SpecOf(cx.App(), it.codes, true), cx.sub)
    ensures r == buf + Texts(OtherCommands(it, cx), cx.sub, w)
  {
    ghost var grants := Grants(it, cx.App(), Target(grantee));
    var acts := |grantor| > 0 && cx.owner != Some(grantor);
    r := buf;
    if acts {
      var role := FmtId(grantor, w.rules);
      r := r + ("SET SESSION AUTHORIZATION " + role + ";\n");
    }
    var whoText;
    if |grantee| == 0 {
      whoText := "PUBLIC";
    } else if "group " <= grantee {
      var name := FmtId(grantee[6..], w.rules);
      whoText := "GROUP " + name;
    } else {
      whoText := FmtId(grantee, w.rules);
    }
    r := AddGrants(r, privs, privswgo, whoText, w, it, cx, Target(grantee));
    if acts {
      r := r + RESET_TEXT;
      AuthText(buf, grantor, grants, cx.sub, w);
    }
  }

  /** One round of the scan over the items. */
  method AddItem(first: string, second: string, found: bool, grantee: string, grantor: string,
                 privs: string, privswgo: string, w: Wording, cx: Context, ghost it: Items.Item)
    returns (first': string, second': string, found': bool)
    requires it.grantee == grantee && it.grantor == grantor
    requires privs == Items.SpecText(Items.SpecOf(cx.App(), it.codes, false), cx.sub)
    requires privswgo == Items.SpecText(Items.SpecOf(cx.App(), it.codes, true), cx.sub)
    ensures first' == first + Texts(OwnCommands(it, cx), cx.sub, w)
    ensures second' == second + Texts(OtherCommands(it, cx), cx.sub, w)
    ensures found' == (found || (Effective(it, cx.App()) && Own(it, cx)))
  {
    first', second', found' := first, second, found;
    Units(first);
    Units(second);
    if |privs| > 0 || |privswgo| > 0 {
      if cx.owner.Some? && grantee == cx.owner.value && grantor == cx.owner.value {
        found' := true;
        first' := AddOwn(first, grantee, privs, privswgo, w, cx, it);
      } else {
        second' := AddOther(second, grantee, grantor, privs, privswgo, w, cx, it);
      }
    }
  }

  lemma AuthText(buf: string, role: string, grants: seq<Command>, sub: Option<string>, w: Wording)
    ensures buf + SetText(role, w) + Texts(grants, sub, w) + RESET_TEXT ==
            buf + Texts([SetAuthorization(role)] + grants + [ResetAuthorization], sub, w)
  {
    var set_ := SetAuthorization(role);
    TextsOne(set_, sub, w);
    TextsConcat([set_], grants, sub, w);
    TextsSnoc([set_] + grants, ResetAuthorization, sub, w);
    Assoc(buf, SetText(role, w), Texts(grants, sub, w));
    Assoc(buf, SetText(role, w) + Texts(grants, sub, w), RESET_TEXT);
  }

  lemma OpeningText(cx: Context, w: Wording)
    requires cx.Valid()
    ensures Texts(Opening(cx), cx.sub, w) ==
            RevokeText("PUBLIC", cx.sub, w) +
            (if NeedsConnect(cx) then GrantText("CONNECT", "PUBLIC", false, w) else "")
  {
    var revoke, grant := RevokeAll(Public), Grant(Items.Only([Items.CONNECT]), Public, false);
    TextsOne(revoke, cx.sub, w);
    TextsSnoc([revoke], grant, cx.sub, w);
    Units([revoke]);
    Units(Text(revoke, cx.sub, w));
    if NeedsConnect(cx) {
      assert [Items.CONNECT][..0] == [];
      assert Items.ListText([Items.CONNECT], None) == "CONNECT";
    }
  }

  lemma ScriptSnoc(items: seq<Items.Item>, it: Items.Item, cx: Context, w: Wording)
    ensures Texts(OwnScript(items + [it], cx), cx.sub, w) ==
            Texts(OwnScript(items, cx), cx.sub, w) + Texts(OwnCommands(it, cx), cx.sub, w)
    ensures Texts(OtherScript(items + [it], cx), cx.sub, w) ==
            Texts(OtherScript(items, cx), cx.sub, w) + Texts(OtherCommands(it, cx), cx.sub, w)
    ensures OwnerFound(items + [it], cx) == (OwnerFound(items, cx) || (Effective(it, cx.App()) && Own(it, cx)))
  {
    hide Texts, OwnCommands, OtherCommands, Effective;
    assert (items + [it])[..|items|] == items;
    TextsConcat(OwnScript(items, cx), OwnCommands(it, cx), cx.sub, w);
    TextsConcat(OtherScript(items, cx), OtherCommands(it, cx), cx.sub, w);
    if OwnerFound(items, cx) {
      var i :| 0 <= i < |items| && Effective(items[i], cx.App()) && Own(items[i], cx);
      assert (items + [it])[i] == items[i];
    }
    if Effective(it, cx.App()) && Own(it, cx) {
      assert (items + [it])[|items|] == it;
    }
  }

  lemma ScriptText(items: seq<Items.Item>, cx: Context, w: Wording)
    ensures Texts(Script(items, cx), cx.sub, w) ==
            Texts(Opening(cx), cx.sub, w) + Texts(OwnScript(items, cx), cx.sub, w) +
            Texts(Closing(items, cx), cx.sub, w) + Texts(OtherScript(items, cx), cx.sub, w)
  {
    TextsConcat(Opening(cx), OwnScript(items, cx), cx.sub, w);
    TextsConcat(Opening(cx) + OwnScript(items, cx), Closing(items, cx), cx.sub, w);
    TextsConcat(FirstScript(items, cx), OtherScript(items, cx), cx.sub, w);
  }

  lemma NothingScanned(cx: Context, w: Wording)
    ensures Texts(OwnScript([], cx), cx.sub, w) == "" && Texts(OtherScript([], cx), cx.sub, w) == ""
    ensures !OwnerFound([], cx)
  {
  }

  /** The loop over the items; it stops at the first one that cannot be parsed. */
  method ScanItems(texts: seq<string>, w: Wording, cx: Context, opening: string)
    returns (ok: bool, firstsql: string, secondsql: string, found: bool)
    ensures var items := ItemsOf(texts, cx.owner);
      && ok == (|items| == |texts|)
      && firstsql == opening + Texts(OwnScript(items, cx), cx.sub, w)
      && secondsql == Texts(OtherScript(items, cx), cx.sub, w)
      && found == OwnerFound(items, cx)
  {
    NothingScanned(cx, w);
    hide Texts, OwnScript, OtherScript, OwnCommands, OtherCommands, Effective, ItemsOf, OwnerFound;
    hide Items.SpecOf, Items.SpecText, Items.ParseItem, Items.Applicable;
    ok, firstsql, secondsql, found := true, opening, "", false;
    Units(opening);
    ghost var items: seq<Items.Item> := [];
    for i := 0 to |texts|
      invariant |items| == i && ok
      invariant forall j :: 0 <= j < i ==>
                  Items.ParseItem(texts[j]).Some? && items[j] == Completed(Items.ParseItem(texts[j]).value, cx.owner)
      invariant firstsql == opening + Texts(OwnScript(items, cx), cx.sub, w)
      invariant secondsql == Texts(OtherScript(items, cx), cx.sub, w)
      invariant found == OwnerFound(items, cx)
    {
      var good, grantee, grantor, privs, privswgo := Items.ParseAclItem(texts[i], cx.kind, cx.sub, cx.version);
      if !good {
        ok := false;
        break;
      }
      if |grantor| == 0 && cx.owner.Some? { grantor := cx.owner.value; }
      ghost var item := Completed(Items.ParseItem(texts[i]).value, cx.owner);
      firstsql, secondsql, found := AddItem(firstsql, secondsql, found, grantee, grantor, privs, privswgo, w, cx, item);
      ScriptSnoc(items, item, cx, w);
      Assoc(opening, Texts(OwnScript(items, cx), cx.sub, w), Texts(OwnCommands(item, cx), cx.sub, w));
      items := items + [item];
    }
    ItemsOfAt(texts, cx.owner, |items|);
    assert items == ItemsOf(texts, cx.owner);
  }

  /**
    The whole of buildACLCommands.  An empty text means default permissions; a
    text that is no array adds nothing; an item that cannot be parsed ends the
    scan, and what was found before it is still written out.
   */
  method BuildACLCommands(w: Wording, given: Context, acls: string, sql0: string) returns (ok: bool, sql: string)
    requires given.Columns() && w.kind == given.kind
    ensures acls == "" ==> ok && sql == sql0
    ensures acls != "" && ParseArray(acls).None? ==> !ok && sql == sql0
    ensures acls != "" && ParseArray(acls).Some? ==>
              var texts, cx := ParseArray(acls).value, given.Normal();
              var items := ItemsOf(texts, cx.owner);
              ok == (|items| == |texts|) && sql == sql0 + Texts(Script(items, cx), cx.sub, w)
  {
    hide Texts, Script, Opening, OwnScript, OtherScript, ItemsOf, OwnerFound, RevokeText, GrantText, ParseArray;
    if |acls| == 0 { return true, sql0; }
    var cx := given;
    if cx.owner.Some? && |cx.owner.value| == 0 { cx := cx.(owner := None); }
    var parsed, texts, slots, strings, filled, used := ParsePGArray(acls);
    if !parsed { return false, sql0; }
    var firstsql := RevokeText("PUBLIC", cx.sub, w);
    if cx.version < 80200 && cx.kind.Database? {
      firstsql := firstsql + GrantText("CONNECT", "PUBLIC", false, w);
    } else {
      Units(firstsql);
    }
    OpeningText(cx, w);
    var secondsql, found;
    ok, firstsql, secondsql, found := ScanItems(texts, w, cx, firstsql);
    if !found && cx.owner.Some? {
      var owner := FmtId(cx.owner.value, w.rules);
      firstsql := firstsql + RevokeText(owner, cx.sub, w);
      TextsOne(RevokeAll(Role(cx.owner.value)), cx.sub, w);
    } else {
      TextsOne(ResetAuthorization, cx.sub, w);
      Units(firstsql);
    }
    ScriptText(ItemsOf(texts, cx.owner), cx, w);
    sql := sql0 + (firstsql + secondsql);
  }
}
