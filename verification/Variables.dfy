/**
  The variable space of tools/pg_psql/variables.cpp: a linked list of named
  values with assign hooks.
 */
module Variables {
  import opened Basics

  /** A hook function is known by its identity; its calls are recorded. */
  type Hook = nat

  datatype Entry = Entry(name: string, value: Option<string>, hook: Option<Hook>)

  datatype Space = Space(entries: seq<Entry>, calls: seq<(Hook, Option<string>)>)

  predicate NameChar(c: char) {
    c as int >= 128 || 'A' <= c <= 'Z' || 'a' <= c <= 'z' || c == '_' || '0' <= c <= '9'
  }

  predicate ValidName(name: string) { name != "" && forall i :: 0 <= i < |name| ==> NameChar(name[i]) }

  // ---------------------------------------------------------------------
  // Names that can be referred to

  /** The character class of variable references in a query (tools/pg_psql/psqlscan.l). */
  predicate ReferenceChar(c: char) {
    var b := c as int;
    0x41 <= b <= 0x5a || 0x61 <= b <= 0x7a || b >= 0x80 || b == 0x5f || 0x30 <= b <= 0x39
  }

  /** What is taken for the name behind a colon. */
  function Reference(text: string): (name: string) {
    if text == "" || !ReferenceChar(text[0]) then "" else [text[0]] + Reference(text[1..])
  }

  lemma {:induction false} ReferenceIs(name: string, tail: string)
    requires tail == "" || !ReferenceChar(tail[0])
    ensures Reference(name + tail) == name <==> forall i :: 0 <= i < |name| ==> ReferenceChar(name[i])
  {
    hide ReferenceChar;
    if name == "" {
      Units(tail);
    } else {
      ReferenceIs(name[1..], tail);
      assert (name + tail)[0] == name[0] && (name + tail)[1..] == name[1..] + tail;
      assert name == [name[0]] + name[1..];
      var more := Reference(name[1..] + tail);
      assert ([name[0]] + more)[1..] == more && ([name[0]] + name[1..])[1..] == name[1..];
      assert forall i :: 0 <= i < |name[1..]| ==> name[1..][i] == name[i + 1];
    }
  }

  lemma SameChars(c: char)
    ensures NameChar(c) <==> ReferenceChar(c)
  {
  }

  /** The names that can be set are exactly those that a query can refer to. */
  lemma ValidIsReferable(name: string, tail: string)
    requires tail == "" || !ReferenceChar(tail[0])
    ensures ValidName(name) <==> name != "" && Reference(name + tail) == name
  {
    hide NameChar, ReferenceChar;
    forall i | 0 <= i < |name| ensures NameChar(name[i]) <==> ReferenceChar(name[i]) { SameChars(name[i]); }
    ReferenceIs(name, tail);
  }

  // ---------------------------------------------------------------------
  // The operations, on lists of entries

  /** Where the name is, or the end of the list. */
  function Index(es: seq<Entry>, name: string): (i: nat)
    ensures i <= |es| && forall j :: 0 <= j < i ==> es[j].name != name
    ensures i < |es| ==> es[i].name == name
  {
    if es == [] || es[0].name == name then 0 else 1 + Index(es[1..], name)
  }

  function Lookup(es: seq<Entry>, name: string): (v: Option<string>) {
    var i := Index(es, name);
    if i < |es| then es[i].value else None
  }

  function HookOf(es: seq<Entry>, name: string): (h: Option<Hook>) {
    var i := Index(es, name);
    if i < |es| then es[i].hook else None
  }

  /** Sets the variable, or unsets it when there is no value. */
  function Assign(s: Space, name: string, value: Option<string>): (r: Space) {
    var es, i := s.entries, Index(s.entries, name);
    if i == |es| then
      if value.None? then s else s.(entries := es + [Entry(name, value, None)])
    else if es[i].hook.Some? then
      Space(es[i := es[i].(value := value)], s.calls + [(es[i].hook.value, value)])
    else if value.Some? then s.(entries := es[i := es[i].(value := value)])
    else s.(entries := es[..i] + es[i + 1..])
  }

  /** Gives the variable a hook, which is called at once. */
  function Attach(s: Space, name: string, hook: Hook): (r: Space) {
    var es, i := s.entries, Index(s.entries, name);
    if i == |es| then Space(es + [Entry(name, None, Some(hook))], s.calls + [(hook, None)])
    else Space(es[i := es[i].(hook := Some(hook))], s.calls + [(hook, es[i].value)])
  }

  // ---------------------------------------------------------------------
  // The list is a map

  /** Names are unique, and an entry without a value has a hook to remember. */
  predicate Proper(es: seq<Entry>) {
    && (forall i, j :: 0 <= i < j < |es| ==> es[i].name != es[j].name)
    && (forall i :: 0 <= i < |es| && es[i].value.None? ==> es[i].hook.Some?)
  }

  lemma IndexIs(es: seq<Entry>, name: string, i: nat)
    requires i <= |es| && (forall j :: 0 <= j < i ==> es[j].name != name) && (i < |es| ==> es[i].name == name)
    ensures Index(es, name) == i
  {
  }

  /** What a name stands for in a list. */
  datatype Meaning = Meaning(value: Option<string>, hook: Option<Hook>)

  function Means(es: seq<Entry>, name: string): (m: Meaning) { Meaning(Lookup(es, name), HookOf(es, name)) }

  lemma Appended(es: seq<Entry>, e: Entry, n: string)
    requires Proper(es) && Index(es, e.name) == |es| && (e.value.None? ==> e.hook.Some?)
    ensures Proper(es + [e])
    ensures Means(es + [e], n) == if n == e.name then Meaning(e.value, e.hook) else Means(es, n)
  {
    hide Index;
    var k := Index(es, n);
    IndexIs(es + [e], n, if k < |es| || n == e.name then k else |es| + 1);
  }

  lemma Updated(es: seq<Entry>, i: nat, e: Entry, n: string)
    requires Proper(es) && i < |es| && es[i].name == e.name && (e.value.None? ==> e.hook.Some?)
    ensures Proper(es[i := e])
    ensures Means(es[i := e], n) == if n == e.name then Meaning(e.value, e.hook) else Means(es, n)
  {
    hide Index;
    IndexIs(es, e.name, i);
    IndexIs(es[i := e], n, Index(es, n));
  }

  lemma Removed(es: seq<Entry>, i: nat, n: string)
    requires Proper(es) && i < |es|
    ensures Proper(es[..i] + es[i + 1..])
    ensures Means(es[..i] + es[i + 1..], n) == if n == es[i].name then Meaning(None, None) else Means(es, n)
  {
    hide Index;
    var k, r := Index(es, n), es[..i] + es[i + 1..];
    assert forall j :: 0 <= j < |r| ==> r[j] == if j < i then es[j] else es[j + 1];
    if n == es[i].name {
      IndexIs(r, n, |r|);
    } else {
      IndexIs(r, n, if k < i then k else k - 1);
    }
  }

  /** Assigning changes the value of one variable, and no hook. */
  lemma AssignIs(s: Space, name: string, value: Option<string>, n: string)
    requires Proper(s.entries)
    ensures var r := Assign(s, name, value);
            Proper(r.entries) &&
            Means(r.entries, n) ==
            Meaning(if n == name then value else Lookup(s.entries, n), HookOf(s.entries, n))
  {
    hide Index, Proper;
    var es, i := s.entries, Index(s.entries, name);
    if i == |es| {
      if value.Some? { Appended(es, Entry(name, value, None), n); }
    } else if es[i].hook.Some? || value.Some? {
      Updated(es, i, es[i].(value := value), n);
    } else {
      Removed(es, i, n);
    }
  }

  /** Attaching changes the hook of one variable, and no value. */
  lemma AttachIs(s: Space, name: string, hook: Hook, n: string)
    requires Proper(s.entries)
    ensures var r := Attach(s, name, hook);
            Proper(r.entries) &&
            Means(r.entries, n) ==
            Meaning(Lookup(s.entries, n), if n == name then Some(hook) else HookOf(s.entries, n))
  {
    hide Index, Proper;
    var es, i := s.entries, Index(s.entries, name);
    if i == |es| {
      Appended(es, Entry(name, None, Some(hook)), n);
    } else {
      Updated(es, i, es[i].(hook := Some(hook)), n);
    }
  }

  // ---------------------------------------------------------------------
  // Hooks

  /** The argument of the last call of a hook. */
  function Last(calls: seq<(Hook, Option<string>)>, hook: Hook): (r: Option<Option<string>>) {
    if calls == [] then None
    else if calls[|calls| - 1].0 == hook then Some(calls[|calls| - 1].1)
    else Last(calls[..|calls| - 1], hook)
  }

  lemma LastCall(calls: seq<(Hook, Option<string>)>, hook: Hook, value: Option<string>, h: Hook)
    ensures Last(calls + [(hook, value)], h) == if h == hook then Some(value) else Last(calls, h)
  {
  }

  /** The hook of the variable, if any, was last called with the value that the variable has. */
  predicate InStep(s: Space, n: string) {
    var h := HookOf(s.entries, n);
    h.Some? ==> Last(s.calls, h.value) == Some(Lookup(s.entries, n))
  }

  /** After an assignment a variable is in step if it was, unless its hook has just heard another value. */
  lemma AssignInStep(s: Space, name: string, value: Option<string>, n: string)
    requires Proper(s.entries)
    ensures var r, h := Assign(s, name, value), HookOf(s.entries, n);
            InStep(r, n) <==>
            if h.Some? && h == HookOf(s.entries, name) then n == name || Lookup(s.entries, n) == value
            else InStep(s, n)
  {
    hide Index, Proper;
    AssignIs(s, name, value, n);
    AssignCalls(s, name, value);
    var h, h' := HookOf(s.entries, name), HookOf(s.entries, n);
    if h.Some? && h'.Some? { LastCall(s.calls, h.value, value, h'.value); }
  }

  lemma AssignCalls(s: Space, name: string, value: Option<string>)
    ensures var h := HookOf(s.entries, name);
            Assign(s, name, value).calls == if h.Some? then s.calls + [(h.value, value)] else s.calls
  {
  }

  lemma AttachCalls(s: Space, name: string, hook: Hook)
    ensures Attach(s, name, hook).calls == s.calls + [(hook, Lookup(s.entries, name))]
  {
  }

  /** The same when a hook is attached: the variable it is attached to is in step. */
  lemma AttachInStep(s: Space, name: string, hook: Hook, n: string)
    requires Proper(s.entries)
    ensures InStep(Attach(s, name, hook), n) <==>
            if n == name then true
            else if HookOf(s.entries, n) == Some(hook) then Lookup(s.entries, n) == Lookup(s.entries, name)
            else InStep(s, n)
  {
    hide Index, Proper;
    AttachIs(s, name, hook, n);
    AttachCalls(s, name, hook);
    var h := if n == name then Some(hook) else HookOf(s.entries, n);
    if h.Some? { LastCall(s.calls, hook, Lookup(s.entries, name), h.value); }
  }

  // ---------------------------------------------------------------------
  // Runs

  datatype Op = Set(name: string, value: Option<string>) | Hooking(name: string, hook: Hook) | Delete(name: string)

  function Step(s: Space, op: Op): (r: Space) {
    match op
    case Set(name, value) => if ValidName(name) then Assign(s, name, value) else s
    case Hooking(name, hook) => if ValidName(name) then Attach(s, name, hook) else s
    case Delete(name) => Assign(s, name, None)
  }

  function Run(ops: seq<Op>): (s: Space) {
    if ops == [] then Space([], []) else Step(Run(ops[..|ops| - 1]), ops[|ops| - 1])
  }

  /** What the calls say a variable is: what it was last set to. */
  function LastSet(ops: seq<Op>, n: string): (v: Option<string>) {
    if ops == [] then None
    else
      match ops[|ops| - 1]
      case Set(name, value) => if name == n && ValidName(n) then value else LastSet(ops[..|ops| - 1], n)
      case Delete(name) => if name == n then None else LastSet(ops[..|ops| - 1], n)
      case Hooking(_, _) => LastSet(ops[..|ops| - 1], n)
  }

  /** The hook it was last given. */
  function LastHook(ops: seq<Op>, n: string): (h: Option<Hook>) {
    if ops == [] then None
    else
      match ops[|ops| - 1]
      case Hooking(name, hook) => if name == n && ValidName(n) then Some(hook) else LastHook(ops[..|ops| - 1], n)
      case Set(_, _) => LastHook(ops[..|ops| - 1], n)
      case Delete(_) => LastHook(ops[..|ops| - 1], n)
  }

  /** The calls have given variables with the same hook the same value. */
  ghost predicate SharersAgree(ops: seq<Op>) {
    forall n, m :: LastHook(ops, n).Some? && LastHook(ops, n) == LastHook(ops, m) ==> LastSet(ops, n) == LastSet(ops, m)
  }

  /** No variable is given a hook that another one has. */
  predicate OwnHooks(ops: seq<Op>) {
    ops != [] ==>
      && OwnHooks(ops[..|ops| - 1])
      && var op, s := ops[|ops| - 1], Run(ops[..|ops| - 1]);
         op.Hooking? && ValidName(op.name) ==>
           forall i :: 0 <= i < |s.entries| && s.entries[i].hook == Some(op.hook) ==> s.entries[i].name == op.name
  }

  /** After any calls the space is a map of what was last set, and an entry without a value has a hook. */
  lemma {:induction false} RunIsMap(ops: seq<Op>, n: string)
    ensures Proper(Run(ops).entries)
    ensures Lookup(Run(ops).entries, n) == LastSet(ops, n) && HookOf(Run(ops).entries, n) == LastHook(ops, n)
  {
    hide Proper, Assign, Attach, ValidName;
    if ops == [] {
      EmptyIsMap(n);
    } else {
      var s := Run(ops[..|ops| - 1]);
      RunIsMap(ops[..|ops| - 1], n);
      match ops[|ops| - 1]
      case Set(name, value) => AssignIs(s, name, value, n);
      case Hooking(name, hook) => AttachIs(s, name, hook, n);
      case Delete(name) => AssignIs(s, name, None, n);
    }
  }

  lemma EmptyIsMap(n: string)
    ensures Proper([]) && Lookup([], n) == None && HookOf([], n) == None
  {
  }

  ghost predicate AllInStep(s: Space) { forall n :: InStep(s, n) }

  /** Variables that share a hook have the same value. */
  ghost predicate Agreeing(s: Space) { forall n, m :: AgreeOn(s, n, m) }

  predicate AgreeOn(s: Space, n: string, m: string) {
    var h := HookOf(s.entries, n);
    h.Some? && h == HookOf(s.entries, m) ==> Lookup(s.entries, n) == Lookup(s.entries, m)
  }

  /** A hook has one last argument, so the variables it serves agree. */
  lemma InStepAgrees(s: Space)
    requires AllInStep(s)
    ensures Agreeing(s)
  {
    hide Last;
    forall n, m ensures AgreeOn(s, n, m) {
      assert InStep(s, n) && InStep(s, m);
    }
  }

  /** One call keeps all variables in step if they agree after it. */
  lemma StepKeepsInStep(s: Space, op: Op)
    requires Proper(s.entries) && AllInStep(s) && Agreeing(Step(s, op))
    ensures AllInStep(Step(s, op))
  {
    hide Proper, Assign, Attach, ValidName, Index, Last;
    forall n ensures InStep(Step(s, op), n) {
      assert InStep(s, n) && AgreeOn(Step(s, op), n, op.name);
      match op
      case Set(name, value) =>
        AssignInStep(s, name, value, n);
        AssignIs(s, name, value, n);
        AssignIs(s, name, value, name);
      case Hooking(name, hook) =>
        AttachInStep(s, name, hook, n);
        AttachIs(s, name, hook, n);
        AttachIs(s, name, hook, name);
      case Delete(name) =>
        AssignInStep(s, name, None, n);
        AssignIs(s, name, None, n);
        AssignIs(s, name, None, name);
    }
  }

  lemma AgreeingBySharers(ops: seq<Op>)
    ensures Agreeing(Run(ops)) <==> SharersAgree(ops)
  {
    hide Run, LastSet, LastHook, Proper, Index;
    forall n, m ensures AgreeOn(Run(ops), n, m) <==>
        (LastHook(ops, n).Some? && LastHook(ops, n) == LastHook(ops, m) ==> LastSet(ops, n) == LastSet(ops, m)) {
      RunIsMap(ops, n);
      RunIsMap(ops, m);
    }
  }

  /**
    Over any run, hooks and variables are in step after every call if and only
    if every call leaves variables that were given the same hook with the same value.
   */
  lemma InStepIffSharersAgree(ops: seq<Op>)
    ensures (forall k :: 0 <= k <= |ops| ==> AllInStep(Run(ops[..k]))) <==>
            (forall k :: 0 <= k <= |ops| ==> SharersAgree(ops[..k]))
  {
    hide AllInStep, Agreeing, SharersAgree, Step;
    forall k | 0 <= k <= |ops| ensures Agreeing(Run(ops[..k])) <==> SharersAgree(ops[..k]) {
      AgreeingBySharers(ops[..k]);
    }
    if forall k :: 0 <= k <= |ops| ==> AllInStep(Run(ops[..k])) {
      forall k | 0 <= k <= |ops| ensures SharersAgree(ops[..k]) { InStepAgrees(Run(ops[..k])); }
    }
    if forall k :: 0 <= k <= |ops| ==> SharersAgree(ops[..k]) {
      forall k | 0 <= k <= |ops| ensures AllInStep(Run(ops[..k])) { InStepUpTo(ops, k); }
    }
  }

  lemma {:induction false} InStepUpTo(ops: seq<Op>, k: nat)
    requires k <= |ops| && forall j :: 0 <= j <= |ops| ==> Agreeing(Run(ops[..j]))
    ensures AllInStep(Run(ops[..k]))
  {
    hide Agreeing, Step, Proper;
    if k == 0 {
      forall n ensures InStep(Run([]), n) { EmptyIsMap(n); }
    } else {
      InStepUpTo(ops, k - 1);
      RunIsMap(ops[..k - 1], "");
      assert ops[..k][..k - 1] == ops[..k - 1];
      StepKeepsInStep(Run(ops[..k - 1]), ops[k - 1]);
    }
  }

  /** With hooks of their own no two variables share one, and so all are always in step. */
  lemma {:induction false} OwnHooksApart(ops: seq<Op>, n: string, m: string)
    requires OwnHooks(ops)
    ensures n != m && HookOf(Run(ops).entries, n).Some? ==> HookOf(Run(ops).entries, n) != HookOf(Run(ops).entries, m)
  {
    hide Proper, Assign, Attach, ValidName, Index;
    if ops == [] {
      EmptyIsMap(n);
    } else {
      var s := Run(ops[..|ops| - 1]);
      RunIsMap(ops[..|ops| - 1], n);
      OwnHooksApart(ops[..|ops| - 1], n, m);
      match ops[|ops| - 1]
      case Set(name, value) =>
        AssignIs(s, name, value, n);
        AssignIs(s, name, value, m);
      case Hooking(name, hook) =>
        AttachIs(s, name, hook, n);
        AttachIs(s, name, hook, m);
      case Delete(name) =>
        AssignIs(s, name, None, n);
        AssignIs(s, name, None, m);
    }
  }

  lemma {:induction false} OwnHooksBefore(ops: seq<Op>, k: nat)
    requires OwnHooks(ops) && k <= |ops|
    ensures OwnHooks(ops[..k])
  {
    if k < |ops| {
      OwnHooksBefore(ops[..|ops| - 1], k);
      assert ops[..|ops| - 1][..k] == ops[..k];
    } else {
      assert ops[..k] == ops;
    }
  }

  lemma HooksNeverDrift(ops: seq<Op>)
    requires OwnHooks(ops)
    ensures forall k :: 0 <= k <= |ops| ==> AllInStep(Run(ops[..k]))
  {
    hide AllInStep, OwnHooks, SharersAgree, Step;
    forall k | 0 <= k <= |ops| ensures SharersAgree(ops[..k]) {
      OwnHooksBefore(ops, k);
      forall n, m ensures AgreeOn(Run(ops[..k]), n, m) { OwnHooksApart(ops[..k], n, m); }
      AgreeingBySharers(ops[..k]);
    }
    InStepIffSharersAgree(ops);
  }

  lemma RunSnoc(ops: seq<Op>, op: Op)
    ensures Run(ops + [op]) == Step(Run(ops), op)
  {
    assert (ops + [op])[..|ops|] == ops;
  }

  /** One hook for two variables of different values: the first is out of step. */
  lemma SharedHookDrifts(a: string, b: string, hook: Hook, v: Option<string>, w: Option<string>)
    requires ValidName(a) && ValidName(b) && a != b && v != w
    ensures !InStep(Run([Hooking(a, hook), Hooking(b, hook), Set(a, v), Set(b, w)]), a)
  {
    hide Proper, Assign, Attach, ValidName, Index, Last, Run;
    var o1, o2, o3, o4 := Hooking(a, hook), Hooking(b, hook), Set(a, v), Set(b, w);
    RunSnoc([], o1);
    RunSnoc([o1], o2);
    RunSnoc([o1, o2], o3);
    RunSnoc([o1, o2, o3], o4);
    RunIsMap([], a);
    RunIsMap([o1], a);
    RunIsMap([o1, o2], a);
    RunIsMap([o1, o2, o3], a);
    assert [] + [o1] == [o1] && [o1] + [o2] == [o1, o2] && [o1, o2] + [o3] == [o1, o2, o3];
    assert [o1, o2, o3] + [o4] == [o1, o2, o3, o4];
    AttachIs(Run([]), a, hook, a);
    AttachIs(Run([o1]), b, hook, a);
    AttachIs(Run([o1]), b, hook, b);
    AssignIs(Run([o1, o2]), a, v, a);
    AssignIs(Run([o1, o2]), a, v, b);
    AssignInStep(Run([o1, o2, o3]), b, w, a);
  }

  // ---------------------------------------------------------------------
  // The linked list

  class Node {
    var name: string
    var value: Option<string>
    var hook: Option<Hook>
    var next: Node?

    constructor (name: string, value: Option<string>, hook: Option<Hook>)
      ensures this.name == name && this.value == value && this.hook == hook && next == null
    {
      this.name, this.value, this.hook, next := name, value, hook, null;
    }
  }

  ghost function EntryOf(n: Node): Entry
    reads n
  {
    Entry(n.name, n.value, n.hook)
  }

  ghost function EntriesOf(ns: seq<Node>): (es: seq<Entry>)
    reads ns
    ensures |es| == |ns| && forall i :: 0 <= i < |es| ==> es[i] == EntryOf(ns[i])
  {
    seq(|ns|, i requires 0 <= i < |ns| reads ns => EntryOf(ns[i]))
  }

  class VariableSpace {
    /** The list header, which is no entry. */
    const header: Node
    /** The calls of hooks so far. */
    var calls: seq<(Hook, Option<string>)>
    ghost var nodes: seq<Node>

    ghost function NodeAt(i: nat): Node?
      reads this`nodes
    {
      if i < |nodes| then nodes[i] else null
    }

    /** The node before the one at i. */
    ghost function Before(i: nat): Node
      requires i <= |nodes|
      reads this`nodes
    {
      if i == 0 then header else nodes[i - 1]
    }

    /** The nodes are those reached from the header, in order, once each. */
    ghost predicate Valid()
      reads this`nodes, header, nodes
    {
      && header !in nodes
      && (forall i :: 0 <= i <= |nodes| ==> Before(i).next == NodeAt(i))
      && (forall i, j :: 0 <= i < j < |nodes| ==> nodes[i] != nodes[j])
    }

    ghost function Entries(): (es: seq<Entry>)
      reads this`nodes, nodes
    {
      EntriesOf(nodes)
    }

    ghost function Contents(): (s: Space)
      reads this, nodes
    {
      Space(Entries(), calls)
    }

    constructor ()
      ensures Valid() && Contents() == Run([]) && fresh(header) && nodes == [] && calls == []
    {
      header := new Node("", None, None);
      calls, nodes := [], [];
    }

    method GetVariable(name: string) returns (value: Option<string>)
      requires Valid()
      ensures value == Lookup(Contents().entries, name)
    {
      hide Index;
      ghost var k := 0;
      assert Before(0).next == NodeAt(0);
      var current := header.next;
      while current != null
        invariant k <= |nodes| && current == NodeAt(k)
        invariant forall j :: 0 <= j < k ==> nodes[j].name != name
        decreases |nodes| - k
      {
        if current.name == name {
          IndexIs(Entries(), name, k);
          return current.value;
        }
        assert Before(k + 1).next == NodeAt(k + 1);
        current := current.next;
        k := k + 1;
      }
      IndexIs(Entries(), name, k);
      return None;
    }

    /** The node with the name, if any, and the one before it, or the last. */
    method Find(name: string) returns (previous: Node, current: Node?, ghost k: nat)
      requires Valid()
      ensures k == Index(Entries(), name) && k <= |nodes| == |Entries()| && previous == Before(k) && current == NodeAt(k)
      ensures current != null ==> Entries()[k] == EntryOf(current)
    {
      hide Index;
      k := 0;
      assert Before(0).next == NodeAt(0);
      previous, current := header, header.next;
      while current != null && current.name != name
        invariant k <= |nodes| && previous == Before(k) && current == NodeAt(k)
        invariant forall j :: 0 <= j < k ==> nodes[j].name != name
        decreases |nodes| - k
      {
        assert Before(k + 1).next == NodeAt(k + 1);
        previous, current := current, current.next;
        k := k + 1;
      }
      IndexIs(Entries(), name, k);
    }

    method Append(previous: Node, name: string, value: Option<string>, hook: Option<Hook>)
      requires Valid() && previous == Before(|nodes|)
      modifies this`nodes, previous`next
      ensures Valid() && Entries() == old(Entries()) + [Entry(name, value, hook)]
      ensures forall x :: x in nodes ==> x in old(nodes) || fresh(x)
    {
      var current := new Node(name, value, hook);
      previous.next := current;
      nodes := nodes + [current];
      assert forall i :: 0 <= i < |old(nodes)| ==> nodes[i] == old(nodes)[i];
      assert forall i :: 0 <= i < |old(nodes)| ==> old(Before(i).next) == Before(i).next;
    }

    /** Changes the node of one entry. */
    method Update(current: Node, value: Option<string>, hook: Option<Hook>, ghost k: nat)
      requires Valid() && k < |nodes| && current == nodes[k]
      modifies current`value, current`hook
      ensures Valid() && current.value == value && current.hook == hook
      ensures Entries() == old(Entries())[k := Entry(current.name, value, hook)]
    {
      current.value, current.hook := value, hook;
    }

    /** Takes a node out of the list. */
    method Unlink(previous: Node, current: Node, ghost k: nat)
      requires Valid() && k < |nodes| && previous == Before(k) && current == nodes[k]
      modifies this`nodes, previous`next
      ensures Valid() && |nodes| == |old(nodes)| - 1
      ensures forall i :: 0 <= i < |nodes| ==> nodes[i] == old(nodes)[if i < k then i else i + 1]
    {
      assert Before(k + 1).next == NodeAt(k + 1);
      previous.next := current.next;
      nodes := nodes[..k] + nodes[k + 1..];
      forall i | 0 <= i <= |nodes| ensures Before(i).next == NodeAt(i) {
        var j := if i <= k then i else i + 1;
        assert Before(i) == old(Before(j)) && old(Before(j).next) == old(NodeAt(j));
      }
    }

    /** And its entry with it. */
    method Remove(previous: Node, current: Node, ghost k: nat)
      requires Valid() && k < |nodes| && previous == Before(k) && current == nodes[k]
      modifies this`nodes, previous`next
      ensures Valid() && Entries() == old(Entries())[..k] + old(Entries())[k + 1..]
      ensures forall x :: x in nodes ==> x in old(nodes)
    {
      hide Valid;
      Unlink(previous, current, k);
      assert forall i :: 0 <= i < |nodes| ==> EntryOf(nodes[i]) == old(EntryOf(nodes[if i < k then i else i + 1]));
    }

    /** The call of a hook function. */
    method CallHook(hook: Hook, value: Option<string>)
      requires Valid()
      modifies this`calls
      ensures Valid() && Contents() == Space(old(Entries()), old(calls) + [(hook, value)])
    {
      calls := calls + [(hook, value)];
    }

    method DeleteVariable(name: string) returns (ok: bool)
      requires Valid()
      modifies this, header, nodes
      ensures ok && Valid() && Contents() == Step(old(Contents()), Delete(name))
      ensures forall x :: x in nodes ==> x in old(nodes)
    {
      hide Index, Valid, Entries;
      var previous, current, k := Find(name);
      if current != null {
        if current.hook.Some? {
          Update(current, None, current.hook, k);
          CallHook(current.hook.value, None);
        } else {
          Remove(previous, current, k);
        }
      }
      return true;
    }

    method SetVariable(name: string, value: Option<string>) returns (ok: bool)
      requires Valid()
      modifies this, header, nodes
      ensures ok == ValidName(name)
      ensures Valid() && Contents() == Step(old(Contents()), Set(name, value))
      ensures forall x :: x in nodes ==> x in old(nodes) || fresh(x)
    {
      hide Index, Valid, Entries;
      if !ValidName(name) { return false; }
      if value.None? {
        ok := DeleteVariable(name);
        return;
      }
      var previous, current, k := Find(name);
      if current != null {
        Update(current, value, current.hook, k);
        if current.hook.Some? { CallHook(current.hook.value, current.value); }
        return true;
      }
      Append(previous, name, value, None);
      return true;
    }

    /** Sets a hook function, and calls it on the current value, if any. */
    method SetVariableAssignHook(name: string, hook: Hook) returns (ok: bool)
      requires Valid()
      modifies this, header, nodes
      ensures ok == ValidName(name)
      ensures Valid() && Contents() == Step(old(Contents()), Hooking(name, hook))
      ensures forall x :: x in nodes ==> x in old(nodes) || fresh(x)
    {
      hide Index, Valid, Entries;
      if !ValidName(name) { return false; }
      var previous, current, k := Find(name);
      if current != null {
        Update(current, current.value, Some(hook), k);
        CallHook(hook, current.value);
        return true;
      }
      Append(previous, name, None, Some(hook));
      CallHook(hook, None);
      return true;
    }

    /** Any calls on a new space. */
    method Perform(ops: seq<Op>)
      requires Valid() && nodes == [] && calls == []
      modifies this, header
      ensures Valid() && Contents() == Run(ops)
    {
      hide Step, Valid;
      for i := 0 to |ops|
        invariant Valid() && Contents() == Run(ops[..i])
        invariant forall k :: 0 <= k < |nodes| ==> fresh(nodes[k])
      {
        assert ops[..i + 1][..i] == ops[..i];
        ghost var before := nodes;
        assert forall x :: x in before ==> fresh(x);
        match ops[i] {
          case Set(name, value) => var ok := SetVariable(name, value);
          case Hooking(name, hook) => var ok := SetVariableAssignHook(name, hook);
          case Delete(name) => var ok := DeleteVariable(name);
        }
        assert forall k :: 0 <= k < |nodes| ==> nodes[k] in nodes && (nodes[k] in before || fresh(nodes[k]));
      }
      assert ops[..|ops|] == ops;
    }
  }
}
