/**
  The permissions a new object really has, as the server's acldefault gives
  them (src/postgres/backend/utils/adt/acl.cpp), and what an ACL script makes of
  them: a condition on the ACL alone, and lists that do not meet it.
 */
module AclDefaults {
  import opened Basics
  import Items = AclItems
  import opened AclServer
  import opened AclScript
  import opened AclReplay

  /** What everyone may do with a new object. */
  predicate WorldDefault(kind: Items.Kind, p: Items.Priv) {
    match kind
    case Database => p == Items.TEMPORARY || p == Items.CONNECT
    case Function => p == Items.EXECUTE
    case Functions => p == Items.EXECUTE
    case Language => p == Items.USAGE
    case Type => p == Items.USAGE
    case Types => p == Items.USAGE
    case _ => false
  }

  /** The owner holds everything, without explicit grant options; a column has no permissions of its own. */
  function DefaultAcl(cx: Context): (acl: Acl)
    requires cx.owner.Some?
  {
    var owner := cx.owner.value;
    if cx.sub.Some? then map[]
    else
      (map p | p in cx.App() && WorldDefault(cx.kind, p) :: Key(owner, "", p) := false) +
      (map p | p in cx.App() :: Key(owner, owner, p) := false)
  }

  lemma DefaultIsPristine(cx: Context)
    requires cx.Valid() && cx.owner.Some?
    ensures Pristine(DefaultAcl(cx), cx.owner.value, cx.App())
  {
  }

  lemma OwnerDefault(cx: Context)
    requires cx.Valid() && cx.owner.Some? && cx.sub.None?
    ensures OwnerPart(DefaultAcl(cx), cx.owner.value) ==
            map p | p in cx.App() :: Key(cx.owner.value, cx.owner.value, p) := false
  {
  }

  /** An owner item that is skipped is what a new object has only before grant options were known. */
  lemma SkippedIsDefault(it: Items.Item, cx: Context)
    requires cx.Valid() && cx.owner.Some? && Own(it, cx) && AtDefault(it, cx)
    ensures OwnerPart(DefaultAcl(cx), cx.owner.value) == ItemAcl(it, cx.App()) <==> !SupportsGrantOptions(cx.version)
  {
    hide Items.Held, Items.HasOption, Items.Applicable;
    OwnerDefault(cx);
    var owner, app := cx.owner.value, cx.App();
    assert app[0] in app;
    assert forall p :: p in app ==> Items.HeldAs(it.codes, p, SupportsGrantOptions(cx.version));
    var k := Key(owner, owner, app[0]);
    assert k in ItemAcl(it, app) && ItemAcl(it, app)[k] == SupportsGrantOptions(cx.version);
    assert k in OwnerPart(DefaultAcl(cx), owner) && !OwnerPart(DefaultAcl(cx), owner)[k];
  }

  /** No owner item is skipped, or there are no grant options. */
  predicate NoneSkipped(items: seq<Items.Item>, cx: Context) {
    SupportsGrantOptions(cx.version) ==> forall i :: 0 <= i < |items| && Own(items[i], cx) ==> !AtDefault(items[i], cx)
  }

  lemma DefaultHoldsIff(items: seq<Items.Item>, cx: Context)
    requires cx.Valid() && cx.owner.Some?
    ensures DefaultHolds(items, cx, DefaultAcl(cx)) <==> NoneSkipped(items, cx)
  {
    hide DefaultAcl, OwnerPart, ItemAcl, AtDefault;
    forall i | 0 <= i < |items| && Own(items[i], cx) && AtDefault(items[i], cx)
      ensures OwnerPart(DefaultAcl(cx), cx.owner.value) == ItemAcl(items[i], cx.App()) <==> !SupportsGrantOptions(cx.version)
    {
      SkippedIsDefault(items[i], cx);
    }
  }

  /**
    On an object with the permissions the server gives it, the script rebuilds
    the ACL exactly under a condition that can be read off the ACL.
   */
  lemma ReplaysFromDefault(items: seq<Items.Item>, cx: Context, table: set<Key>)
    requires cx.Valid() && cx.owner.Some? && DistinctPairs(items) && Complete(items)
    ensures Run(Session(DefaultAcl(cx), None), cx.owner.value, cx.App(), Script(items, cx), table).acl == Goal(items, cx) <==>
            NoGroupNames(items, cx) && NoneSkipped(items, cx) && InGrantOrder(Start(items, cx), items, cx, table)
  {
    hide Run, Script, Goal, DefaultAcl, DefaultHolds, NoneSkipped, NoGroupNames, InGrantOrder, Start, Pristine;
    DefaultIsPristine(cx);
    DefaultHoldsIff(items, cx);
    ScriptReplaysAcl(items, cx, DefaultAcl(cx), table);
  }

  // ---------------------------------------------------------------------
  // A grantor whose options come later in the list

  lemma {:induction false} GrantableThen(start: Acl, items: seq<Items.Item>, cx: Context, i: nat, table: set<Key>)
    requires cx.owner.Some? && i < |items| && InGrantOrder(start, items, cx, table) && Plain(items[i], cx)
    ensures Grantable(start + Listed(items[..i], cx, false), items[i], cx.owner.value, cx.App(), table)
  {
    hide Grantable, Plain, Listed;
    var n := |items| - 1;
    if i < n {
      GrantableThen(start, items[..n], cx, i, table);
      assert items[..n][..i] == items[..i];
    }
  }

  /** An item by a grantor that no earlier item names as grantee, and that has no option on the table, is out of order. */
  lemma OutOfOrder(items: seq<Items.Item>, cx: Context, i: nat, table: set<Key>)
    requires cx.Valid() && cx.owner.Some? && i < |items| && Plain(items[i], cx)
    requires items[i].grantor != cx.owner.value && items[i].grantor != ""
    requires forall j :: 0 <= j < i ==> items[j].grantee != items[i].grantor
    requires forall k :: k in table ==> k.grantee != items[i].grantor
    ensures !InGrantOrder(Start(items, cx), items, cx, table)
  {
    hide Effective, Listed, InGrantOrder, ItemAcl, NotCircular;
    var owner, role := cx.owner.value, items[i].grantor;
    var acl := Start(items, cx) + Listed(items[..i], cx, false);
    forall k | k in acl ensures k.grantee != role {
      if k in Listed(items[..i], cx, false) {
        ListedKeys(items[..i], cx, false, k);
      } else if k in Listed(items, cx, true) {
        ListedKeys(items, cx, true, k);
      }
    }
    EffectiveMeans(items[i], cx.App());
    var p :| p in cx.App() && Items.Held(items[i].codes, p);
    assert !MayGrant(Options(acl) + table, owner, role, p);
    if InGrantOrder(Start(items, cx), items, cx, table) { GrantableThen(Start(items, cx), items, cx, i, table); }
  }

  // ---------------------------------------------------------------------
  // Lists that are not rebuilt

  /** A function, owned by C. */
  const OF_C := Context(Items.Function, None, Some("C"), 90400)

  ghost predicate Rebuilt(items: seq<Items.Item>, cx: Context, table: set<Key>)
    requires cx.owner.Some?
  {
    Run(Session(DefaultAcl(cx), None), cx.owner.value, cx.App(), Script(items, cx), table).acl == Goal(items, cx)
  }

  lemma Executes(it: Items.Item)
    requires it.codes == "X" || it.codes == "X*"
    ensures Effective(it, OF_C.App()) && Items.HeldAs(it.codes, Items.EXECUTE, it.codes == "X*")
  {
    assert IndexIsZero(it.codes);
    assert Items.Held(it.codes, Items.EXECUTE);
    assert OF_C.App() == [Items.EXECUTE];
    EffectiveMeans(it, OF_C.App());
  }

  predicate IndexIsZero(s: string) { s != "" && IndexOf(s, s[0]) == 0 }

  /** A role named like a group. */
  lemma GroupIsNotRebuilt()
    ensures !Rebuilt([Items.Item("group x", "C", "X")], OF_C, {})
  {
    hide Run, Script, Goal, DefaultAcl;
    var items := [Items.Item("group x", "C", "X")];
    Executes(items[0]);
    assert "group x"[..6] == "group ";
    assert Plain(items[0], OF_C) && GroupName(items[0].grantee);
    ReplaysFromDefault(items, OF_C, {});
  }

  /** An owner that has granted itself every option. */
  lemma OptionsAreNotRebuilt()
    ensures !Rebuilt([Items.Item("C", "C", "X*")], OF_C, {})
  {
    hide Run, Script, Goal, DefaultAcl;
    var items := [Items.Item("C", "C", "X*")];
    Executes(items[0]);
    assert OF_C.App() == [Items.EXECUTE];
    assert Own(items[0], OF_C) && AtDefault(items[0], OF_C);
    ReplaysFromDefault(items, OF_C, {});
  }

  /**
    A has granted B on the strength of an option from C, has then been given
    one by D, and has lost the one from C: its remaining option is listed last.
   */
  lemma LateOptionIsNotRebuilt()
    ensures !Rebuilt([Items.Item("D", "C", "X*"), Items.Item("B", "A", "X"), Items.Item("A", "D", "X*")], OF_C, {})
  {
    hide Run, Script, Goal, DefaultAcl;
    var items := [Items.Item("D", "C", "X*"), Items.Item("B", "A", "X"), Items.Item("A", "D", "X*")];
    Executes(items[1]);
    OutOfOrder(items, OF_C, 1, {});
    ReplaysFromDefault(items, OF_C, {});
  }

  // ---------------------------------------------------------------------
  // Columns

  /** An item without stars whose grantor is not the owner. */
  predicate Passed(it: Items.Item, cx: Context)
    requires cx.owner.Some?
  {
    && it.grantor != "" && it.grantor != cx.owner.value && Effective(it, cx.App())
    && forall p :: p in cx.App() && Items.Held(it.codes, p) ==> !Items.HasOption(it.codes, p)
  }

  lemma NoConnect(cx: Context)
    requires cx.Valid() && cx.owner.Some? && cx.sub.Some?
    ensures ConnectAcl(cx) == map[]
  {
    assert cx.Columns() && cx.kind.Table? && !NeedsConnect(cx);
  }

  lemma OneListed(it: Items.Item, cx: Context)
    requires cx.owner.Some? && !Own(it, cx)
    ensures Listed([it], cx, true) == map[] && Listed([], cx, true) == map[]
  {
    assert [it][..0] == [];
    var none: Acl := map[];
    assert none + none == none;
  }

  lemma StartsEmpty(it: Items.Item, cx: Context)
    requires cx.Valid() && cx.owner.Some? && cx.sub.Some? && Passed(it, cx)
    ensures Start([it], cx) == map[] && Listed([it][..0], cx, false) == map[] && Options(map[]) == {}
  {
    assert !Own(it, cx) && [it][..0] == [];
    hide Effective, ItemAcl, Own, Passed, NeedsConnect, ConnectAcl;
    NoConnect(cx);
    OneListed(it, cx);
    var none: Acl := map[];
    assert none + none == none;
  }

  lemma OneInOrder(it: Items.Item, cx: Context, table: set<Key>)
    requires cx.Valid() && cx.owner.Some? && cx.sub.Some? && Passed(it, cx)
    ensures InGrantOrder(Start([it], cx), [it], cx, table) <==>
            forall p :: p in cx.App() && Items.Held(it.codes, p) ==> MayGrant(table, cx.owner.value, it.grantor, p)
  {
    hide MayGrant, Effective, Listed, Start, Items.Held, Items.HasOption;
    StartsEmpty(it, cx);
    var none: Acl := map[];
    assert none + none == none && {} + table == table;
    assert InGrantOrder(none, [it][..0], cx, table);
    assert Grantable(none, it, cx.owner.value, cx.App(), table) <==>
           forall p :: p in cx.App() && Items.Held(it.codes, p) ==> MayGrant(table, cx.owner.value, it.grantor, p);
  }

  /** A grant on a column, by a role without options there, is rebuilt exactly if the role has options on the table. */
  lemma ColumnRestsOnTable(it: Items.Item, cx: Context, table: set<Key>)
    requires cx.Valid() && cx.owner.Some? && cx.sub.Some? && Passed(it, cx) && !GroupName(it.grantee)
    ensures Rebuilt([it], cx, table) <==>
            forall p :: p in cx.App() && Items.Held(it.codes, p) ==> MayGrant(table, cx.owner.value, it.grantor, p)
  {
    hide Run, Script, Goal, DefaultAcl, MayGrant, InGrantOrder, Start, Effective, Items.Held, Items.HasOption, GroupName;
    OneInOrder(it, cx, table);
    ReplaysFromDefault([it], cx, table);
  }
}
