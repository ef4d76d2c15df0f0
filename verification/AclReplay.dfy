/**
  What an ACL script does when it is run: starting from the permissions a new
  object has, it ends with exactly the privileges the ACL lists, under a
  condition on the list that is both sufficient and necessary.
 */
module AclReplay {
  import opened Basics
  import ArrayText
  import Items = AclItems
  import opened AclServer
  import opened AclScript

  // ---------------------------------------------------------------------
  // What the items mean

  function ItemAcl(it: Items.Item, app: seq<Items.Priv>): (acl: Acl) {
    map p | p in app && Items.Held(it.codes, p) ::
      Key(it.grantor, it.grantee, p) := Items.HasOption(it.codes, p)
  }

  /** The privileges listed by the owner's own items, or by all the others. */
  function Listed(items: seq<Items.Item>, cx: Context, own: bool): (acl: Acl) {
    if items == [] then map[]
    else
      var it := items[|items| - 1];
      Listed(items[..|items| - 1], cx, own) + (if Own(it, cx) == own then ItemAcl(it, cx.App()) else map[])
  }

  /** CONNECT for PUBLIC, put back for a server that did not have that privilege yet. */
  function ConnectAcl(cx: Context): (acl: Acl)
    requires cx.owner.Some?
  {
    if NeedsConnect(cx) then map[Key(cx.owner.value, "", Items.CONNECT) := false] else map[]
  }

  function Start(items: seq<Items.Item>, cx: Context): (acl: Acl)
    requires cx.owner.Some?
  {
    ConnectAcl(cx) + Listed(items, cx, true)
  }

  function Goal(items: seq<Items.Item>, cx: Context): (acl: Acl)
    requires cx.owner.Some?
  {
    Start(items, cx) + Listed(items, cx, false)
  }

  // ---------------------------------------------------------------------
  // The condition

  predicate SamePair(a: Items.Item, b: Items.Item) { a.grantee == b.grantee && a.grantor == b.grantor }

  /** The server keeps one item for each grantee and grantor. */
  predicate DistinctPairs(items: seq<Items.Item>) {
    forall i, j :: 0 <= i < j < |items| ==> !SamePair(items[i], items[j])
  }

  /** The permissions of a new object: only the owner has granted, to itself and to PUBLIC. */
  predicate Pristine(acl: Acl, owner: string, app: seq<Items.Priv>) {
    forall k :: k in acl ==> k.grantor == owner && (k.grantee == owner || k.grantee == "") && k.priv in app
  }

  function OwnerPart(acl: Acl, owner: string): (r: Acl) {
    map k | k in acl && k.grantee == owner :: acl[k]
  }

  /** An item that is left out because it is the default must really be the default. */
  predicate DefaultHolds(items: seq<Items.Item>, cx: Context, acl0: Acl)
    requires cx.owner.Some?
  {
    forall i :: 0 <= i < |items| && Own(items[i], cx) && AtDefault(items[i], cx) ==>
      OwnerPart(acl0, cx.owner.value) == ItemAcl(items[i], cx.App())
  }

  predicate Plain(it: Items.Item, cx: Context) { !Own(it, cx) && Effective(it, cx.App()) }

  predicate NoGroupNames(items: seq<Items.Item>, cx: Context) {
    forall i :: 0 <= i < |items| && Plain(items[i], cx) ==> !GroupName(items[i].grantee)
  }

  /** The grantor of the item is in a position to grant everything the item lists. */
  ghost predicate Grantable(acl: Acl, it: Items.Item, owner: string, app: seq<Items.Priv>, table: set<Key>) {
    forall p :: p in app && Items.Held(it.codes, p) ==>
      && MayGrant(Options(acl) + table, owner, it.grantor, p)
      && (Items.HasOption(it.codes, p) ==>
            it.grantee != "" && NotCircular(Options(acl), owner, it.grantor, it.grantee, p))
  }

  /** Every item is grantable on the strength of the items listed before it. */
  ghost predicate InGrantOrder(start: Acl, items: seq<Items.Item>, cx: Context, table: set<Key>)
    requires cx.owner.Some?
  {
    items == [] ||
    var before, it := items[..|items| - 1], items[|items| - 1];
    InGrantOrder(start, before, cx, table) &&
    (Plain(it, cx) ==> Grantable(start + Listed(before, cx, false), it, cx.owner.value, cx.App(), table))
  }

  // ---------------------------------------------------------------------
  // One item: two grants by one grantor to one grantee

  predicate OfPair(k: Key, it: Items.Item) { k.grantor == it.grantor && k.grantee == it.grantee }

  /** The two maps agree except, perhaps, on what the item's pair holds. */
  ghost predicate SameElsewhere(a: Acl, b: Acl, it: Items.Item) {
    forall k :: !OfPair(k, it) ==> (k in a <==> k in b) && (k in a ==> a[k] == b[k])
  }

  /** Some entry of `part` is missing from `acl`, or has the wrong option bit. */
  ghost predicate Misses(acl: Acl, part: Acl) {
    exists k :: k in part && (k !in acl || acl[k] != part[k])
  }

  /** What the pair already holds is at most plain grants by the owner. */
  ghost predicate Unclaimed(acl: Acl, it: Items.Item, owner: string) {
    forall k :: k in acl && OfPair(k, it) ==> !acl[k] && k.grantor == owner
  }

  lemma EffectiveMeans(it: Items.Item, app: seq<Items.Priv>)
    requires app != []
    ensures Effective(it, app) <==> exists p :: p in app && Items.Held(it.codes, p)
  {
    Items.SpecMeaning(app, it.codes, false);
    Items.SpecMeaning(app, it.codes, true);
    if exists p :: p in app && Items.Held(it.codes, p) {
      var p :| p in app && Items.Held(it.codes, p);
      assert Items.HeldAs(it.codes, p, Items.HasOption(it.codes, p));
    }
  }

  /** Whether the item's privilege p, held with just this option bit, can be granted. */
  ghost predicate Grants1(acl: Acl, owner: string, app: seq<Items.Priv>, it: Items.Item, option: bool, p: Items.Priv,
                          table: set<Key>) {
    p in app && Items.HeldAs(it.codes, p, option) && MayGrant(Options(acl) + table, owner, it.grantor, p)
  }

  ghost predicate Refuses(acl: Acl, owner: string, app: seq<Items.Priv>, it: Items.Item, option: bool,
                          table: set<Key>) {
    option && (it.grantee == "" ||
      exists p :: Grants1(acl, owner, app, it, option, p, table)
        && !NotCircular(Options(acl), owner, it.grantor, it.grantee, p))
  }

  /** A GRANT of what the item holds with just this option bit takes a to b. */
  ghost predicate GrantStep(a: Acl, b: Acl, owner: string, app: seq<Items.Priv>, it: Items.Item, option: bool,
                            table: set<Key>) {
    && SameElsewhere(b, a, it)
    && (Refuses(a, owner, app, it, option, table) ==> b == a)
    && (!Refuses(a, owner, app, it, option, table) ==>
          forall k {:trigger k in b} :: OfPair(k, it) ==>
            var granted := Grants1(a, owner, app, it, option, k.priv, table);
            && (k in b <==> k in a || granted)
            && (k in b ==> b[k] == ((k in a && a[k]) || (granted && option))))
  }

  lemma GrantedStep(a: Acl, owner: string, app: seq<Items.Priv>, it: Items.Item, option: bool, ps: set<Items.Priv>,
                    table: set<Key>)
    requires forall p :: p in ps <==> Grants1(a, owner, app, it, option, p, table)
    ensures var b := if Refuses(a, owner, app, it, option, table) then a else Granted(a, it.grantor, it.grantee, ps, option);
            GrantStep(a, b, owner, app, it, option, table)
  {
    hide Grants1, Refuses;
  }

  lemma GrantEffect(s: Session, owner: string, app: seq<Items.Priv>, it: Items.Item, who: Who, option: bool,
                    table: set<Key>)
    requires Actor(s, owner) == it.grantor && RoleOf(who) == it.grantee
    requires who.Public? <==> it.grantee == ""
    ensures var r := Exec(s, owner, app, Grant(Items.SpecOf(app, it.codes, option), who, option), table);
            r.user == s.user && GrantStep(s.acl, r.acl, owner, app, it, option, table)
  {
    hide Items.HeldAs, Items.SpecOf, Items.Expand, Items.Held, MayGrant, NotCircular, Options;
    Items.SpecMeaning(app, it.codes, option);
    var spec := Items.SpecOf(app, it.codes, option);
    var ps := set p | p in Items.Expand(spec, app) && MayGrant(Options(s.acl) + table, owner, it.grantor, p);
    assert forall p :: p in ps <==> Grants1(s.acl, owner, app, it, option, p, table);
    assert Refused(Options(s.acl), owner, it.grantor, who, ps, option) == Refuses(s.acl, owner, app, it, option, table);
    GrantedStep(s.acl, owner, app, it, option, ps, table);
  }

  lemma PlainKeepsOptions(a: Acl, b: Acl, owner: string, app: seq<Items.Priv>, it: Items.Item, table: set<Key>)
    requires GrantStep(a, b, owner, app, it, false, table)
    ensures Options(b) == Options(a)
  {
  }

  lemma AllGranted(a: Acl, b: Acl, c: Acl, owner: string, app: seq<Items.Priv>, it: Items.Item, table: set<Key>)
    requires GrantStep(a, b, owner, app, it, false, table) && GrantStep(b, c, owner, app, it, true, table)
    requires Options(b) == Options(a) && Unclaimed(a, it, owner) && Grantable(a, it, owner, app, table)
    ensures c == a + ItemAcl(it, app)
  {
    hide Items.Held, Items.HasOption, MayGrant, NotCircular, Options;
    var goal := a + ItemAcl(it, app);
    assert it.grantee == "" ==> forall p :: p in app ==> !Items.HeldAs(it.codes, p, true);
    forall k
      ensures (k in c <==> k in goal) && (k in c ==> c[k] == goal[k])
    {
      if OfPair(k, it) {
        assert k == Key(it.grantor, it.grantee, k.priv);
        assert k in b <==> k in a || Grants1(a, owner, app, it, false, k.priv, table);
      }
    }
  }

  lemma SomeMissing(a: Acl, b: Acl, c: Acl, owner: string, app: seq<Items.Priv>, it: Items.Item, table: set<Key>)
    requires GrantStep(a, b, owner, app, it, false, table) && GrantStep(b, c, owner, app, it, true, table)
    requires Options(b) == Options(a) && Unclaimed(a, it, owner) && !Grantable(a, it, owner, app, table)
    ensures Misses(c, ItemAcl(it, app))
  {
    hide Items.Held, Items.HasOption, NotCircular, Options;
    var p :| p in app && Items.Held(it.codes, p) &&
      !(&& MayGrant(Options(a) + table, owner, it.grantor, p)
        && (Items.HasOption(it.codes, p) ==>
            it.grantee != "" && NotCircular(Options(a), owner, it.grantor, it.grantee, p)));
    var k := Key(it.grantor, it.grantee, p);
    assert k in ItemAcl(it, app);
    if !MayGrant(Options(a) + table, owner, it.grantor, p) {
      assert k !in a;
      assert k !in b;
      assert k !in c;
    } else {
      assert Grants1(b, owner, app, it, true, p, table);
      assert Refuses(b, owner, app, it, true, table);
      assert k in b ==> !b[k];
    }
  }

  lemma EmptyGrant(s: Session, owner: string, app: seq<Items.Priv>, who: Who, option: bool, table: set<Key>)
    ensures Exec(s, owner, app, Grant(Items.Only([]), who, option), table) == s
  {
  }

  lemma RunGrants(s: Session, owner: string, app: seq<Items.Priv>, it: Items.Item, who: Who, table: set<Key>)
    ensures Run(s, owner, app, Grants(it, app, who), table) ==
            Exec(Exec(s, owner, app, Grant(Items.SpecOf(app, it.codes, false), who, false), table),
                 owner, app, Grant(Items.SpecOf(app, it.codes, true), who, true), table)
  {
    hide Exec, Run, Items.SpecOf;
    var plain := Grant(Items.SpecOf(app, it.codes, false), who, false);
    var full := Grant(Items.SpecOf(app, it.codes, true), who, true);
    EmptyGrant(s, owner, app, who, false, table);
    EmptyGrant(Exec(s, owner, app, plain, table), owner, app, who, true, table);
    var one := if plain.spec != Items.Only([]) then [plain] else [];
    var two := if full.spec != Items.Only([]) then [full] else [];
    RunConcat(s, owner, app, one, two, table);
    RunOne(s, owner, app, plain, table);
    RunOne(Exec(s, owner, app, plain, table), owner, app, full, table);
  }

  lemma RunOne(s: Session, owner: string, app: seq<Items.Priv>, c: Command, table: set<Key>)
    ensures Run(s, owner, app, [c], table) == Exec(s, owner, app, c, table)
    ensures Run(s, owner, app, [], table) == s
  {
  }

  /** What the grants for one item do: everything or not quite everything the item lists. */
  ghost predicate ItemEffect(a: Acl, b: Acl, owner: string, it: Items.Item, app: seq<Items.Priv>, table: set<Key>) {
    && SameElsewhere(b, a, it)
    && (Unclaimed(a, it, owner) && Grantable(a, it, owner, app, table) ==> b == a + ItemAcl(it, app))
    && (Unclaimed(a, it, owner) && !Grantable(a, it, owner, app, table) ==> Misses(b, ItemAcl(it, app)))
  }

  lemma GrantsEffect(s: Session, owner: string, app: seq<Items.Priv>, it: Items.Item, who: Who, table: set<Key>)
    requires Actor(s, owner) == it.grantor && RoleOf(who) == it.grantee
    requires who.Public? <==> it.grantee == ""
    ensures var r := Run(s, owner, app, Grants(it, app, who), table);
            r.user == s.user && ItemEffect(s.acl, r.acl, owner, it, app, table)
  {
    hide Exec, Run, Grants, ItemAcl, Grantable, Misses, Options, Unclaimed;
    var s1 := Exec(s, owner, app, Grant(Items.SpecOf(app, it.codes, false), who, false), table);
    var r := Exec(s1, owner, app, Grant(Items.SpecOf(app, it.codes, true), who, true), table);
    RunGrants(s, owner, app, it, who, table);
    GrantEffect(s, owner, app, it, who, false, table);
    GrantEffect(s1, owner, app, it, who, true, table);
    PlainKeepsOptions(s.acl, s1.acl, owner, app, it, table);
    if Unclaimed(s.acl, it, owner) {
      if Grantable(s.acl, it, owner, app, table) {
        AllGranted(s.acl, s1.acl, r.acl, owner, app, it, table);
      } else {
        SomeMissing(s.acl, s1.acl, r.acl, owner, app, it, table);
      }
    }
  }

  // ---------------------------------------------------------------------
  // The second half of the script

  /** Every item names its grantor, as it does once a missing one is taken to be the owner. */
  predicate Complete(items: seq<Items.Item>) {
    forall i :: 0 <= i < |items| ==> items[i].grantor != ""
  }

  /** Running as the grantor for the length of an item, and as before afterwards. */
  lemma RunOther(s: Session, cx: Context, it: Items.Item, table: set<Key>)
    requires cx.owner.Some? && it.grantor != "" && s.user.None?
    ensures var acting := s.(user := if ActsAsGrantor(it, cx) then Some(it.grantor) else None);
            Actor(acting, cx.owner.value) == it.grantor &&
            (Plain(it, cx) ==>
              Run(s, cx.owner.value, cx.App(), OtherCommands(it, cx), table) ==
              (if ActsAsGrantor(it, cx)
               then Run(acting, cx.owner.value, cx.App(), Grants(it, cx.App(), Target(it.grantee)), table).(user := None)
               else Run(acting, cx.owner.value, cx.App(), Grants(it, cx.App(), Target(it.grantee)), table)))
  {
    hide Run, Grants, Effective;
    if Plain(it, cx) && ActsAsGrantor(it, cx) {
      var owner, app, grants := cx.owner.value, cx.App(), Grants(it, cx.App(), Target(it.grantee));
      var set_ := SetAuthorization(it.grantor);
      RunConcat(s, owner, app, [set_] + grants, [ResetAuthorization], table);
      RunConcat(s, owner, app, [set_], grants, table);
      RunOne(s, owner, app, set_, table);
      RunOne(Run(s, owner, app, [set_] + grants, table), owner, app, ResetAuthorization, table);
    }
  }

  lemma OtherEffect(s: Session, cx: Context, it: Items.Item, table: set<Key>)
    requires cx.owner.Some? && it.grantor != "" && s.user.None?
    requires Plain(it, cx) && !GroupName(it.grantee)
    ensures var r := Run(s, cx.owner.value, cx.App(), OtherCommands(it, cx), table);
            r.user.None? && ItemEffect(s.acl, r.acl, cx.owner.value, it, cx.App(), table)
  {
    hide Run, Grants, Effective, ItemEffect, OtherCommands;
    var acting := s.(user := if ActsAsGrantor(it, cx) then Some(it.grantor) else None);
    RunOther(s, cx, it, table);
    GrantsEffect(acting, cx.owner.value, cx.App(), it, Target(it.grantee), table);
  }

  lemma IdleItem(it: Items.Item, cx: Context)
    requires !Effective(it, cx.App())
    ensures ItemAcl(it, cx.App()) == map[]
  {
    EffectiveMeans(it, cx.App());
  }

  lemma {:induction false} ListedKeys(items: seq<Items.Item>, cx: Context, own: bool, k: Key)
    requires k in Listed(items, cx, own)
    ensures exists i :: 0 <= i < |items| && Own(items[i], cx) == own && OfPair(k, items[i])
  {
    var n := |items| - 1;
    if k in Listed(items[..n], cx, own) {
      ListedKeys(items[..n], cx, own, k);
      var i :| 0 <= i < n && Own(items[..n][i], cx) == own && OfPair(k, items[..n][i]);
      assert items[i] == items[..n][i];
    } else {
      assert OfPair(k, items[n]);
    }
  }

  /** The state the second half starts from: the owner's own grants, and plain ones to PUBLIC. */
  ghost predicate StartsPlain(start: Acl, owner: string) {
    forall k :: k in start ==> k.grantor == owner && (k.grantee == owner || (k.grantee == "" && !start[k]))
  }

  ghost predicate SameOwn(a: Acl, b: Acl, owner: string) {
    forall k: Key :: k.grantor == owner && k.grantee == owner ==> (k in a <==> k in b) && (k in a ==> a[k] == b[k])
  }

  /** Where the second half ends up after these items. */
  ghost predicate SecondHalfDone(start: Acl, items: seq<Items.Item>, cx: Context, r: Session, table: set<Key>)
    requires cx.owner.Some?
  {
    && r.user.None?
    && SameOwn(r.acl, start, cx.owner.value)
    && (InGrantOrder(start, items, cx, table) ==> r.acl == start + Listed(items, cx, false))
    && (!InGrantOrder(start, items, cx, table) ==> Misses(r.acl, Listed(items, cx, false)))
  }

  lemma {:induction false} SecondHalf(start: Acl, items: seq<Items.Item>, cx: Context, table: set<Key>)
    requires cx.owner.Some? && StartsPlain(start, cx.owner.value)
    requires DistinctPairs(items) && Complete(items) && NoGroupNames(items, cx)
    ensures SecondHalfDone(start, items, cx,
              Run(Session(start, None), cx.owner.value, cx.App(), OtherScript(items, cx), table), table)
  {
    if items == [] {
      assert start + map[] == start;
    } else {
      hide Run, SecondHalfDone, OtherCommands, StartsPlain;
      var n := |items| - 1;
      var before, it := items[..n], items[n];
      SecondHalf(start, before, cx, table);
      var s0 := Session(start, None);
      RunConcat(s0, cx.owner.value, cx.App(), OtherScript(before, cx), OtherCommands(it, cx), table);
      var s1 := Run(s0, cx.owner.value, cx.App(), OtherScript(before, cx), table);
      LastItem(start, items, cx, s1, table);
    }
  }

  lemma LastItem(start: Acl, items: seq<Items.Item>, cx: Context, s1: Session, table: set<Key>)
    requires cx.owner.Some? && StartsPlain(start, cx.owner.value) && items != []
    requires DistinctPairs(items) && Complete(items) && NoGroupNames(items, cx)
    requires SecondHalfDone(start, items[..|items| - 1], cx, s1, table)
    ensures SecondHalfDone(start, items, cx,
                           Run(s1, cx.owner.value, cx.App(), OtherCommands(items[|items| - 1], cx), table), table)
  {
    hide Run, OtherCommands, SecondHalfDone, StartsPlain;
    var n := |items| - 1;
    if Plain(items[n], cx) {
      DoneIsClosed(start, items[..n], cx, s1, table);
      OtherEffect(s1, cx, items[n], table);
      PlainItem(start, items, cx, s1, Run(s1, cx.owner.value, cx.App(), OtherCommands(items[n], cx), table), table);
    } else {
      RunNothing(s1, cx, items[n], table);
      IdleLast(start, items, cx, s1, table);
    }
  }

  lemma DoneIsClosed(start: Acl, items: seq<Items.Item>, cx: Context, r: Session, table: set<Key>)
    requires cx.owner.Some?
    ensures SecondHalfDone(start, items, cx, r, table) ==> r.user.None?
  {
  }

  lemma PlainItem(start: Acl, items: seq<Items.Item>, cx: Context, s1: Session, r: Session, table: set<Key>)
    requires cx.owner.Some? && StartsPlain(start, cx.owner.value) && items != []
    requires DistinctPairs(items) && Plain(items[|items| - 1], cx)
    requires SecondHalfDone(start, items[..|items| - 1], cx, s1, table)
    requires r.user.None? && ItemEffect(s1.acl, r.acl, cx.owner.value, items[|items| - 1], cx.App(), table)
    ensures SecondHalfDone(start, items, cx, r, table)
  {
    var n, owner, app := |items| - 1, cx.owner.value, cx.App();
    var before, it := items[..n], items[n];
    var part, own := Listed(before, cx, false), ItemAcl(it, app);
    assert Listed(items, cx, false) == part + own;
    hide Grantable, StartsPlain, ItemAcl, Effective, Unclaimed, Listed, Misses;
    ItemApart(start, items, cx);
    OwnUntouched(s1.acl, r.acl, start, cx, it);
    if InGrantOrder(start, before, cx, table) {
      LastGranted(start, part, own, r.acl);
    } else {
      MissesElsewhere(s1.acl, r.acl, part, own, it);
    }
  }

  lemma OwnUntouched(a: Acl, b: Acl, start: Acl, cx: Context, it: Items.Item)
    requires cx.owner.Some? && !Own(it, cx) && SameElsewhere(b, a, it) && SameOwn(a, start, cx.owner.value)
    ensures SameOwn(b, start, cx.owner.value)
  {
  }

  lemma LastGranted(start: Acl, part: Acl, own: Acl, r: Acl)
    ensures start + part + own == start + (part + own)
    ensures Misses(r, own) ==> Misses(r, part + own)
  {
  }

  lemma IdleLast(start: Acl, items: seq<Items.Item>, cx: Context, s1: Session, table: set<Key>)
    requires cx.owner.Some? && items != [] && !Plain(items[|items| - 1], cx)
    requires SecondHalfDone(start, items[..|items| - 1], cx, s1, table)
    ensures SecondHalfDone(start, items, cx, s1, table)
  {
    hide ItemAcl, Effective, Misses, SameOwn, Grantable;
    var before, it := items[..|items| - 1], items[|items| - 1];
    if !Own(it, cx) { IdleItem(it, cx); }
    assert Listed(before, cx, false) + map[] == Listed(before, cx, false);
  }

  lemma RunNothing(s: Session, cx: Context, it: Items.Item, table: set<Key>)
    requires cx.owner.Some? && !Plain(it, cx)
    ensures Run(s, cx.owner.value, cx.App(), OtherCommands(it, cx), table) == s
  {
  }

  /** No earlier item, and nothing at the start, claims what the last item's pair lists. */
  lemma ItemApart(start: Acl, items: seq<Items.Item>, cx: Context)
    requires cx.owner.Some? && StartsPlain(start, cx.owner.value) && items != [] && DistinctPairs(items)
    requires !Own(items[|items| - 1], cx)
    ensures var before, it := items[..|items| - 1], items[|items| - 1];
            && Unclaimed(start + Listed(before, cx, false), it, cx.owner.value)
            && (forall k :: k in Listed(before, cx, false) ==> !OfPair(k, it))
            && (forall k :: k in ItemAcl(it, cx.App()) ==> OfPair(k, it))
  {
    var n := |items| - 1;
    var before, it := items[..n], items[n];
    forall k | k in Listed(before, cx, false)
      ensures !OfPair(k, it)
    {
      ListedKeys(before, cx, false, k);
      var i :| 0 <= i < |before| && Own(before[i], cx) == false && OfPair(k, before[i]);
      assert items[i] == before[i] && !SamePair(items[i], items[n]);
    }
  }

  lemma MissesElsewhere(a: Acl, b: Acl, part: Acl, more: Acl, it: Items.Item)
    requires Misses(a, part) && SameElsewhere(b, a, it)
    requires forall k :: k in part ==> !OfPair(k, it)
    requires forall k :: k in more ==> OfPair(k, it)
    ensures Misses(b, part + more)
  {
  }

  // ---------------------------------------------------------------------
  // The first half of the script

  predicate OwnItem(it: Items.Item, cx: Context) { Own(it, cx) && Effective(it, cx.App()) }

  lemma {:induction false} NoOwnItem(items: seq<Items.Item>, cx: Context)
    requires forall i :: 0 <= i < |items| ==> !OwnItem(items[i], cx)
    ensures OwnScript(items, cx) == [] && Listed(items, cx, true) == map[]
  {
    if items != [] {
      var it := items[|items| - 1];
      NoOwnItem(items[..|items| - 1], cx);
      if Own(it, cx) { IdleItem(it, cx); }
    }
  }

  lemma MapUnits(a: Acl)
    ensures a + map[] == a && map[] + a == a
  {
  }

  lemma OwnSnoc(items: seq<Items.Item>, cx: Context)
    requires items != []
    ensures var n := |items| - 1;
            && OwnScript(items, cx) == OwnScript(items[..n], cx) + OwnCommands(items[n], cx)
            && Listed(items, cx, true) ==
               Listed(items[..n], cx, true) + (if Own(items[n], cx) then ItemAcl(items[n], cx.App()) else map[])
  {
    hide OwnCommands, ItemAcl, Effective;
  }

  lemma {:induction false} OneOwnItem(items: seq<Items.Item>, cx: Context, i: nat)
    requires i < |items| && OwnItem(items[i], cx) && DistinctPairs(items)
    ensures OwnScript(items, cx) == OwnCommands(items[i], cx)
    ensures Listed(items, cx, true) == ItemAcl(items[i], cx.App())
  {
    hide OwnCommands, ItemAcl, Effective, OwnScript, Listed;
    var n := |items| - 1;
    OwnSnoc(items, cx);
    if i < n {
      assert !SamePair(items[i], items[n]);
      OneOwnItem(items[..n], cx, i);
      Units(OwnScript(items[..n], cx));
      NotOwnNothing(items[n], cx);
      MapUnits(Listed(items[..n], cx, true));
    } else {
      forall j | 0 <= j < n
        ensures !OwnItem(items[..n][j], cx)
      {
        assert !SamePair(items[j], items[n]);
      }
      NoOwnItem(items[..n], cx);
      MapUnits(ItemAcl(items[n], cx.App()));
      Units(OwnCommands(items[n], cx));
    }
  }

  lemma NotOwnNothing(it: Items.Item, cx: Context)
    ensures !Own(it, cx) ==> OwnCommands(it, cx) == []
  {
  }

  lemma ConnectEffect(cx: Context, own: Acl, table: set<Key>)
    requires cx.Valid() && cx.owner.Some? && NeedsConnect(cx)
    requires forall k :: k in own ==> k.grantee == cx.owner.value
    ensures Exec(Session(own, None), cx.owner.value, cx.App(), Grant(Items.Only([Items.CONNECT]), Public, false), table) ==
            Session(ConnectAcl(cx) + own, None)
  {
  }

  lemma OpeningEffect(cx: Context, acl0: Acl, table: set<Key>)
    requires cx.Valid() && cx.owner.Some? && Pristine(acl0, cx.owner.value, cx.App())
    ensures Run(Session(acl0, None), cx.owner.value, cx.App(), Opening(cx), table) ==
            Session(ConnectAcl(cx) + OwnerPart(acl0, cx.owner.value), None)
  {
    hide Run, NotCircular;
    var owner, app, s0 := cx.owner.value, cx.App(), Session(acl0, None);
    var revoke, grant := RevokeAll(Public), Grant(Items.Only([Items.CONNECT]), Public, false);
    RunOne(s0, owner, app, revoke, table);
    var s1 := Exec(s0, owner, app, revoke, table);
    assert s1.acl == OwnerPart(acl0, owner);
    if NeedsConnect(cx) {
      RunConcat(s0, owner, app, [revoke], [grant], table);
      RunOne(s1, owner, app, grant, table);
      ConnectEffect(cx, OwnerPart(acl0, owner), table);
    } else {
      Units([revoke]);
      assert map[] + OwnerPart(acl0, owner) == OwnerPart(acl0, owner);
    }
  }

  lemma RevokeOwner(cx: Context, acl0: Acl, table: set<Key>)
    requires cx.Valid() && cx.owner.Some? && Pristine(acl0, cx.owner.value, cx.App())
    ensures var owner := cx.owner.value;
            Exec(Session(ConnectAcl(cx) + OwnerPart(acl0, owner), None), owner, cx.App(), RevokeAll(Role(owner)), table) ==
            Session(ConnectAcl(cx), None)
  {
  }

  lemma OwnItemEffect(cx: Context, acl0: Acl, it: Items.Item, table: set<Key>)
    requires cx.Valid() && cx.owner.Some? && Pristine(acl0, cx.owner.value, cx.App())
    requires OwnItem(it, cx) && !AtDefault(it, cx)
    ensures Run(Session(ConnectAcl(cx) + OwnerPart(acl0, cx.owner.value), None),
                cx.owner.value, cx.App(), OwnCommands(it, cx), table) ==
            Session(ConnectAcl(cx) + ItemAcl(it, cx.App()), None)
  {
    hide Run, Exec, Effective, ItemAcl;
    var owner, app := cx.owner.value, cx.App();
    var s := Session(ConnectAcl(cx) + OwnerPart(acl0, owner), None);
    RunConcat(s, owner, app, [RevokeAll(Role(owner))], Grants(it, app, Role(owner)), table);
    RunOne(s, owner, app, RevokeAll(Role(owner)), table);
    RevokeOwner(cx, acl0, table);
    GrantsEffect(Session(ConnectAcl(cx), None), owner, app, it, Role(owner), table);
  }

  lemma RunFirst(items: seq<Items.Item>, cx: Context, acl0: Acl, table: set<Key>)
    requires cx.Valid() && cx.owner.Some? && Pristine(acl0, cx.owner.value, cx.App())
    ensures var owner, app := cx.owner.value, cx.App();
            Run(Session(acl0, None), owner, app, FirstScript(items, cx), table) ==
            Run(Run(Session(ConnectAcl(cx) + OwnerPart(acl0, owner), None), owner, app, OwnScript(items, cx), table),
                owner, app, Closing(items, cx), table)
  {
    hide Run, Opening, OwnScript, Closing, Pristine;
    var owner, app, s0 := cx.owner.value, cx.App(), Session(acl0, None);
    RunConcat(s0, owner, app, Opening(cx) + OwnScript(items, cx), Closing(items, cx), table);
    RunConcat(s0, owner, app, Opening(cx), OwnScript(items, cx), table);
    OpeningEffect(cx, acl0, table);
  }

  /** The privileges the first half leaves, as a value. */
  function AfterFirst(items: seq<Items.Item>, cx: Context, acl0: Acl): (acl: Acl)
    requires cx.owner.Some?
  {
    if exists i :: 0 <= i < |items| && OwnItem(items[i], cx) && AtDefault(items[i], cx)
    then ConnectAcl(cx) + OwnerPart(acl0, cx.owner.value)
    else Start(items, cx)
  }

  lemma FirstHalf(items: seq<Items.Item>, cx: Context, acl0: Acl, table: set<Key>)
    requires cx.Valid() && cx.owner.Some? && Pristine(acl0, cx.owner.value, cx.App()) && DistinctPairs(items)
    ensures Run(Session(acl0, None), cx.owner.value, cx.App(), FirstScript(items, cx), table) ==
            Session(AfterFirst(items, cx, acl0), None)
  {
    hide Run, OwnCommands, Pristine, FirstScript, Effective, AtDefault, Exec, ItemAcl, Listed, OwnScript, DistinctPairs;
    var owner, app := cx.owner.value, cx.App();
    var s1 := Session(ConnectAcl(cx) + OwnerPart(acl0, owner), None);
    RunFirst(items, cx, acl0, table);
    if i :| 0 <= i < |items| && OwnItem(items[i], cx) {
      OneOwnItem(items, cx, i);
      assert OwnerFound(items, cx);
      RunOne(Run(s1, owner, app, OwnScript(items, cx), table), owner, app, ResetAuthorization, table);
      if AtDefault(items[i], cx) {
        SkippedItem(items[i], cx);
        RunOne(s1, owner, app, ResetAuthorization, table);
      } else {
        OwnItemEffect(cx, acl0, items[i], table);
        OnlyOwn(items, cx, i);
      }
    } else {
      NoOwnItem(items, cx);
      RunOne(s1, owner, app, RevokeAll(Role(owner)), table);
      RevokeOwner(cx, acl0, table);
      assert ConnectAcl(cx) + map[] == ConnectAcl(cx);
    }
  }

  lemma SkippedItem(it: Items.Item, cx: Context)
    requires AtDefault(it, cx)
    ensures OwnCommands(it, cx) == []
  {
  }

  lemma OnlyOwn(items: seq<Items.Item>, cx: Context, i: nat)
    requires i < |items| && OwnItem(items[i], cx) && DistinctPairs(items)
    ensures forall j :: 0 <= j < |items| && OwnItem(items[j], cx) ==> j == i
  {
  }

  lemma DefaultsAreOwn(items: seq<Items.Item>, cx: Context, i: nat)
    requires i < |items| && Own(items[i], cx) && AtDefault(items[i], cx)
    ensures OwnItem(items[i], cx)
  {
  }

  lemma AfterFirstPlain(items: seq<Items.Item>, cx: Context, acl0: Acl)
    requires cx.Valid() && cx.owner.Some? && Pristine(acl0, cx.owner.value, cx.App())
    ensures StartsPlain(AfterFirst(items, cx, acl0), cx.owner.value)
  {
    hide Effective, AtDefault, Listed;
    forall k | k in Listed(items, cx, true)
      ensures k.grantor == cx.owner.value && k.grantee == cx.owner.value
    {
      ListedKeys(items, cx, true, k);
    }
  }

  /** The first half is exact precisely when a skipped item was the default. */
  lemma FirstHalfExact(items: seq<Items.Item>, cx: Context, acl0: Acl)
    requires cx.Valid() && cx.owner.Some? && Pristine(acl0, cx.owner.value, cx.App()) && DistinctPairs(items)
    ensures StartsPlain(AfterFirst(items, cx, acl0), cx.owner.value)
    ensures DefaultHolds(items, cx, acl0) ==> AfterFirst(items, cx, acl0) == Start(items, cx)
    ensures !DefaultHolds(items, cx, acl0) ==> !SameOwn(AfterFirst(items, cx, acl0), Start(items, cx), cx.owner.value)
  {
    AfterFirstPlain(items, cx, acl0);
    if i :| 0 <= i < |items| && OwnItem(items[i], cx) && AtDefault(items[i], cx) {
      SkippedExact(items, cx, acl0, i);
    } else {
      hide AtDefault, Effective, StartsPlain, SameOwn, Listed;
      forall j | 0 <= j < |items| && Own(items[j], cx)
        ensures !AtDefault(items[j], cx)
      {
        if AtDefault(items[j], cx) { DefaultsAreOwn(items, cx, j); assert false; }
      }
    }
  }

  lemma SkippedExact(items: seq<Items.Item>, cx: Context, acl0: Acl, i: nat)
    requires cx.Valid() && cx.owner.Some? && Pristine(acl0, cx.owner.value, cx.App()) && DistinctPairs(items)
    requires i < |items| && OwnItem(items[i], cx) && AtDefault(items[i], cx)
    ensures DefaultHolds(items, cx, acl0) ==> AfterFirst(items, cx, acl0) == Start(items, cx)
    ensures !DefaultHolds(items, cx, acl0) ==> !SameOwn(AfterFirst(items, cx, acl0), Start(items, cx), cx.owner.value)
  {
    hide Effective, AtDefault, DistinctPairs, SameOwn, Listed;
    var owner, own := cx.owner.value, ItemAcl(items[i], cx.App());
    OneOwnItem(items, cx, i);
    OnlyOwn(items, cx, i);
    OwnDiffers(ConnectAcl(cx), OwnerPart(acl0, owner), own, owner);
    if !DefaultHolds(items, cx, acl0) {
      var j :| 0 <= j < |items| && Own(items[j], cx) && AtDefault(items[j], cx) &&
        OwnerPart(acl0, owner) != ItemAcl(items[j], cx.App());
      DefaultsAreOwn(items, cx, j);
    }
  }

  lemma OwnDiffers(connect: Acl, a: Acl, b: Acl, owner: string)
    requires forall k :: k in a || k in b ==> k.grantor == owner && k.grantee == owner
    requires forall k :: k in connect ==> k.grantee != owner
    ensures SameOwn(connect + a, connect + b, owner) ==> a == b
  {
  }

  // ---------------------------------------------------------------------
  // Names that begin with "group "

  lemma GrantKeys(s: Session, owner: string, app: seq<Items.Priv>, spec: Items.Spec, who: Who, option: bool,
                  table: set<Key>)
    ensures var r := Exec(s, owner, app, Grant(spec, who, option), table);
            r.user == s.user && forall k :: k in r.acl ==> k in s.acl || k.grantee == RoleOf(who)
  {
  }

  /** Only the roles the commands name can have gained anything. */
  ghost predicate FromItems(start: Acl, acl: Acl, items: seq<Items.Item>, cx: Context) {
    forall k :: k in acl && k !in start ==>
      exists i :: 0 <= i < |items| && Plain(items[i], cx) && k.grantee == RoleOf(Target(items[i].grantee))
  }

  lemma OtherKeys(s: Session, cx: Context, it: Items.Item, table: set<Key>)
    requires cx.owner.Some? && it.grantor != "" && s.user.None?
    ensures var r := Run(s, cx.owner.value, cx.App(), OtherCommands(it, cx), table);
            r.user.None? &&
            forall k :: k in r.acl ==> k in s.acl || (Plain(it, cx) && k.grantee == RoleOf(Target(it.grantee)))
  {
    hide Run, OtherCommands, Grants, Effective, Exec;
    var owner, app, who := cx.owner.value, cx.App(), Target(it.grantee);
    if Plain(it, cx) {
      RunOther(s, cx, it, table);
      var acting := s.(user := if ActsAsGrantor(it, cx) then Some(it.grantor) else None);
      RunGrants(acting, owner, app, it, who, table);
      GrantKeys(acting, owner, app, Items.SpecOf(app, it.codes, false), who, false, table);
      GrantKeys(Exec(acting, owner, app, Grant(Items.SpecOf(app, it.codes, false), who, false), table),
                owner, app, Items.SpecOf(app, it.codes, true), who, true, table);
    } else {
      RunNothing(s, cx, it, table);
    }
  }

  lemma KeysSnoc(start: Acl, before: Acl, after: Acl, items: seq<Items.Item>, cx: Context)
    requires items != [] && FromItems(start, before, items[..|items| - 1], cx)
    requires forall k :: k in after ==>
               k in before || (Plain(items[|items| - 1], cx) && k.grantee == RoleOf(Target(items[|items| - 1].grantee)))
    ensures FromItems(start, after, items, cx)
  {
    hide Plain, Target, RoleOf;
    var n := |items| - 1;
    forall k | k in after && k !in start
      ensures exists i :: 0 <= i < |items| && Plain(items[i], cx) && k.grantee == RoleOf(Target(items[i].grantee))
    {
      if k in before {
        var i :| 0 <= i < n && Plain(items[..n][i], cx) && k.grantee == RoleOf(Target(items[..n][i].grantee));
        assert items[i] == items[..n][i];
      } else {
        assert Plain(items[n], cx);
      }
    }
  }

  lemma {:induction false} NewKeys(start: Acl, items: seq<Items.Item>, cx: Context, table: set<Key>)
    requires cx.owner.Some? && Complete(items)
    ensures var r := Run(Session(start, None), cx.owner.value, cx.App(), OtherScript(items, cx), table);
            r.user.None? && FromItems(start, r.acl, items, cx)
  {
    hide Run, OtherCommands, Effective, Target, RoleOf;
    var owner, app, s0 := cx.owner.value, cx.App(), Session(start, None);
    if items == [] {
      RunOne(s0, owner, app, ResetAuthorization, table);
    } else {
      var n := |items| - 1;
      NewKeys(start, items[..n], cx, table);
      RunConcat(s0, owner, app, OtherScript(items[..n], cx), OtherCommands(items[n], cx), table);
      var s1 := Run(s0, owner, app, OtherScript(items[..n], cx), table);
      OtherKeys(s1, cx, items[n], table);
      KeysSnoc(start, s1.acl, Run(s1, owner, app, OtherCommands(items[n], cx), table).acl, items, cx);
    }
  }

  predicate GroupItem(it: Items.Item, cx: Context) { Plain(it, cx) && GroupName(it.grantee) }

  /** The longest of the names that begin with "group ". */
  lemma {:induction false} LongestGroup(items: seq<Items.Item>, cx: Context) returns (m: nat)
    requires exists i :: 0 <= i < |items| && GroupItem(items[i], cx)
    ensures m < |items| && GroupItem(items[m], cx)
    ensures forall i :: 0 <= i < |items| && GroupItem(items[i], cx) ==> |items[i].grantee| <= |items[m].grantee|
  {
    hide GroupItem;
    var n := |items| - 1;
    var before := items[..n];
    if j :| 0 <= j < n && GroupItem(before[j], cx) {
      m := LongestGroup(before, cx);
      assert forall i :: 0 <= i < n ==> items[i] == before[i];
      if GroupItem(items[n], cx) && |items[n].grantee| > |before[m].grantee| { m := n; }
    } else {
      assert forall i :: 0 <= i < n ==> items[i] == before[i];
      m := n;
    }
  }

  /** A role whose name begins with "group " is taken for a group of the rest of that name, and never gets its grant. */
  lemma GroupMisses(start: Acl, items: seq<Items.Item>, cx: Context, table: set<Key>)
    requires cx.owner.Some? && Complete(items) && StartsPlain(start, cx.owner.value)
    requires !NoGroupNames(items, cx)
    ensures Misses(Run(Session(start, None), cx.owner.value, cx.App(), OtherScript(items, cx), table).acl,
                   Listed(items, cx, false))
  {
    hide Run, Effective, OtherScript;
    var i0 :| 0 <= i0 < |items| && Plain(items[i0], cx) && GroupName(items[i0].grantee);
    assert GroupItem(items[i0], cx);
    var m := LongestGroup(items, cx);
    var it := items[m];
    EffectiveMeans(it, cx.App());
    var p :| p in cx.App() && Items.Held(it.codes, p);
    var k := Key(it.grantor, it.grantee, p);
    ListedHas(items, cx, m, k);
    NewKeys(start, items, cx, table);
    var r := Run(Session(start, None), cx.owner.value, cx.App(), OtherScript(items, cx), table);
    assert k !in start;
    assert k !in r.acl;
  }

  lemma {:induction false} ListedHas(items: seq<Items.Item>, cx: Context, i: nat, k: Key)
    requires i < |items| && k in ItemAcl(items[i], cx.App())
    ensures k in Listed(items, cx, Own(items[i], cx))
  {
    var n := |items| - 1;
    if i < n { ListedHas(items[..n], cx, i, k); }
  }

  // ---------------------------------------------------------------------
  // The whole script

  lemma WrongBit(acl: Acl, whole: Acl, part: Acl)
    requires Misses(acl, part)
    requires forall k :: k in part ==> k in whole && whole[k] == part[k]
    ensures acl != whole
  {
  }

  /**
    Run on a new object, the script ends with exactly the privileges listed if
    and only if no grantee is named like a group, an owner's item that was left
    out was the default, and every grantor was granted its options by items
    that come earlier in the list.  Either way the session is itself again.
   */
  lemma ScriptReplaysAcl(items: seq<Items.Item>, cx: Context, acl0: Acl, table: set<Key>)
    requires cx.Valid() && cx.owner.Some? && Pristine(acl0, cx.owner.value, cx.App())
    requires DistinctPairs(items) && Complete(items)
    ensures var r := Run(Session(acl0, None), cx.owner.value, cx.App(), Script(items, cx), table);
            && r.user.None?
            && (r.acl == Goal(items, cx) <==>
                  && NoGroupNames(items, cx)
                  && DefaultHolds(items, cx, acl0)
                  && InGrantOrder(Start(items, cx), items, cx, table))
  {
    hide Run, FirstScript, OtherScript, AfterFirst, Effective, StartsPlain, NoGroupNames, DefaultHolds, InGrantOrder, Listed;
    var owner, app := cx.owner.value, cx.App();
    RunConcat(Session(acl0, None), owner, app, FirstScript(items, cx), OtherScript(items, cx), table);
    FirstHalf(items, cx, acl0, table);
    FirstHalfExact(items, cx, acl0);
    var start := AfterFirst(items, cx, acl0);
    NewKeys(start, items, cx, table);
    var r := Run(Session(start, None), owner, app, OtherScript(items, cx), table);
    if !NoGroupNames(items, cx) {
      GroupMisses(start, items, cx, table);
      WrongBit(r.acl, Goal(items, cx), Listed(items, cx, false));
    } else {
      SecondHalf(start, items, cx, table);
      if !DefaultHolds(items, cx, acl0) {
        OwnElsewhere(items, cx);
      } else if !InGrantOrder(start, items, cx, table) {
        WrongBit(r.acl, Goal(items, cx), Listed(items, cx, false));
      }
    }
  }

  lemma OwnElsewhere(items: seq<Items.Item>, cx: Context)
    requires cx.owner.Some?
    ensures SameOwn(Goal(items, cx), Start(items, cx), cx.owner.value)
  {
    forall k | k in Listed(items, cx, false)
      ensures !(k.grantor == cx.owner.value && k.grantee == cx.owner.value)
    {
      ListedKeys(items, cx, false, k);
    }
  }

  // ---------------------------------------------------------------------
  // From the server's own entries, through their printed text, and back

  /** One ACL entry of the server: each right held, by its code, with its option bit. */
  datatype Entry = Entry(grantee: string, grantor: string, rights: map<char, bool>)

  function EntryItem(e: Entry): (it: Items.Item) {
    Items.Item(e.grantee, e.grantor, Items.PrintCodes(Items.RIGHTS, e.rights))
  }

  function EntryAcl(e: Entry, app: seq<Items.Priv>): (acl: Acl) {
    map p | p in app && p.code in e.rights :: Key(e.grantor, e.grantee, p) := e.rights[p.code]
  }

  lemma RightsPlain()
    ensures Items.NoneIs(Items.RIGHTS, '*') && Items.NoneIs(Items.RIGHTS, '/')
  {
  }

  /** The codes printed for an entry say what it holds. */
  lemma EntryCodes(e: Entry, p: Items.Priv)
    requires p.code in Items.RIGHTS
    ensures var codes := EntryItem(e).codes;
            (Items.Held(codes, p) <==> p.code in e.rights) &&
            (p.code in e.rights ==> Items.HasOption(codes, p) == e.rights[p.code])
  {
    hide Items.PrintCodes, Items.Held, Items.HasOption, Items.NoneIs;
    RightsPlain();
    Items.CodesPrinted(Items.RIGHTS, e.rights, p);
  }

  lemma EntryMeaning(e: Entry, cx: Context)
    ensures ItemAcl(EntryItem(e), cx.App()) == EntryAcl(e, cx.App())
    ensures Items.NoneIs(EntryItem(e).codes, '/')
  {
    hide Items.PrintCodes, Items.Held, Items.HasOption, Items.NoneIs, Items.Applicable;
    RightsPlain();
    Items.NotPrinted(Items.RIGHTS, e.rights, '/');
    Items.CodesKnown(cx.kind, cx.sub.Some?, cx.version);
    forall p | p in cx.App()
      ensures Items.Held(EntryItem(e).codes, p) <==> p.code in e.rights
      ensures p.code in e.rights ==> Items.HasOption(EntryItem(e).codes, p) == e.rights[p.code]
    {
      EntryCodes(e, p);
    }
  }

  lemma {:induction false} PrintedItems(entries: seq<Entry>, texts: seq<string>, cx: Context)
    requires |texts| == |entries|
    requires forall i :: 0 <= i < |entries| ==> entries[i].grantor != "" && texts[i] == Items.PrintItem(EntryItem(entries[i]))
    ensures ItemsOf(texts, cx.owner) == seq(|entries|, i requires 0 <= i < |entries| => EntryItem(entries[i]))
  {
    hide Items.PrintItem, Items.ParseItem, EntryItem;
    if entries != [] {
      EntryMeaning(entries[0], cx);
      Items.ParsePrintedItem(EntryItem(entries[0]));
      PrintedItems(entries[1..], texts[1..], cx);
      assert EntryItem(entries[0]).grantor == entries[0].grantor by { EntryNames(entries[0]); }
    }
  }

  lemma EntryNames(e: Entry)
    ensures EntryItem(e).grantor == e.grantor && EntryItem(e).grantee == e.grantee
  {
  }

  /**
    The ACL of an object, printed by the server in any of the ways it may print
    it, is parsed without loss, and the script rebuilds it under the condition
    of ScriptReplaysAcl.
   */
  lemma PrintedAclReplays(entries: seq<Entry>, bare: seq<bool>, cx: Context, acl0: Acl, table: set<Key>)
    requires cx.Valid() && cx.owner.Some? && Pristine(acl0, cx.owner.value, cx.App())
    requires |bare| == |entries|
    requires forall i, j :: 0 <= i < j < |entries| ==>
               !(entries[i].grantee == entries[j].grantee && entries[i].grantor == entries[j].grantor)
    requires forall i :: 0 <= i < |entries| ==> entries[i].grantor != ""
    requires forall i :: 0 <= i < |entries| && bare[i] ==> ArrayText.Plain(Items.PrintItem(EntryItem(entries[i])))
    ensures var texts := seq(|entries|, i requires 0 <= i < |entries| => Items.PrintItem(EntryItem(entries[i])));
            var acls := ArrayText.PrintArray(texts, bare);
            && ArrayText.ParseArray(acls) == Some(texts)
            && var items := ItemsOf(texts, cx.owner);
            && |items| == |entries|
            && (forall i :: 0 <= i < |items| ==> ItemAcl(items[i], cx.App()) == EntryAcl(entries[i], cx.App()))
            && var r := Run(Session(acl0, None), cx.owner.value, cx.App(), Script(items, cx), table);
            && r.user.None?
            && (r.acl == Goal(items, cx) <==>
                  && NoGroupNames(items, cx)
                  && DefaultHolds(items, cx, acl0)
                  && InGrantOrder(Start(items, cx), items, cx, table))
  {
    hide Items.PrintItem, Items.ParseItem, ArrayText.PrintArray, ArrayText.ParseArray, ItemsOf, ItemAcl, EntryAcl;
    hide Run, Script, Goal, NoGroupNames, DefaultHolds, InGrantOrder, Start, Pristine;
    var texts := seq(|entries|, i requires 0 <= i < |entries| => Items.PrintItem(EntryItem(entries[i])));
    ArrayText.ParsePrintedArray(texts, bare);
    PrintedItems(entries, texts, cx);
    var items := ItemsOf(texts, cx.owner);
    forall i | 0 <= i < |items|
      ensures ItemAcl(items[i], cx.App()) == EntryAcl(entries[i], cx.App())
    {
      EntryMeaning(entries[i], cx);
    }
    ScriptReplaysAcl(items, cx, acl0, table);
  }
}
