/**
  The text form of a one-dimensional array, as the server prints it and as
  the dump tools take it apart (tools/common/dumputils.cpp, parsePGArray).
 */
module ArrayText {

  import opened Basics

  predicate EndsItem(c: char) { c == '}' || c == ',' }

  predicate NeedsEscape(c: char) { c == '"' || c == '\\' }

  predicate Special(c: char) { c == '{' || EndsItem(c) || NeedsEscape(c) }

  // ---------------------------------------------------------------------
  // What the parser accepts, as a grammar over the remaining text.  A parse
  // of some text gives the data found and the text that is left.

  type Parsed = Option<(string, string)>

  function Prefix(done: string, more: Parsed): (r: Parsed) {
    match more case None => None case Some((data, rest)) => Some((done + data, rest))
  }

  /** The rest of a quoted run, up to its closing quote. */
  function Quoted(s: string): (r: Parsed)
    ensures r.Some? ==> |r.value.1| < |s|
  {
    if s == "" then None
    else if s[0] == '"' then Some(("", s[1..]))
    else if s[0] == '\\' then (if |s| < 2 then None else Prefix([s[1]], Quoted(s[2..])))
    else Prefix([s[0]], Quoted(s[1..]))
  }

  /** One item, up to the comma or brace that ends it. */
  function Item(s: string): (r: Parsed)
    ensures r.Some? ==> 0 < |r.value.1| <= |s| && EndsItem(r.value.1[0])
    ensures r.Some? && |r.value.1| == |s| ==> r.value.1 == s
    decreases |s|
  {
    if s == "" then None
    else if EndsItem(s[0]) then Some(("", s))
    else if s[0] != '"' then Prefix([s[0]], Item(s[1..]))
    else match Quoted(s[1..])
      case None => None
      case Some((data, rest)) => Prefix(data, Item(rest))
  }

  function Extend(done: seq<string>, more: Option<seq<string>>): (r: Option<seq<string>>) {
    match more case None => None case Some(m) => Some(done + m)
  }

  /** The items after the opening brace; the closing brace must end the text. */
  function Items(s: string): (r: Option<seq<string>>)
    decreases |s|
  {
    if s == "" then None
    else if s[0] == '}' then (if |s| == 1 then Some([]) else None)
    else match Item(s)
      case None => None
      case Some((data, rest)) =>
        Extend([data], Items(if rest[0] == ',' then rest[1..] else rest))
  }

  function ParseArray(s: string): (r: Option<seq<string>>) {
    if |s| < 2 || s[0] != '{' || s[|s| - 1] != '}' then None else Items(s[1..])
  }

  // ---------------------------------------------------------------------
  // The printer, and the round trip

  function Escape(s: string): (r: string) {
    if s == "" then ""
    else (if NeedsEscape(s[0]) then ['\\', s[0]] else [s[0]]) + Escape(s[1..])
  }

  /** The printer may leave an item bare only when no character of it is special. */
  predicate Plain(s: string) {
    s != "" && forall i :: 0 <= i < |s| ==> !Special(s[i])
  }

  /** `bare[i]` says that item i is printed without quotes. */
  function PrintItem(item: string, bare: bool): (r: string)
    requires bare ==> Plain(item)
  {
    if bare then item else "\"" + Escape(item) + "\""
  }

  /** The items with their commas, and the closing brace. */
  function PrintItems(items: seq<string>, bare: seq<bool>): (r: string)
    requires |bare| == |items|
    requires forall i :: 0 <= i < |items| && bare[i] ==> Plain(items[i])
  {
    if items == [] then "}"
    else PrintItem(items[0], bare[0]) +
         if |items| == 1 then "}" else "," + PrintItems(items[1..], bare[1..])
  }

  function PrintArray(items: seq<string>, bare: seq<bool>): (r: string)
    requires |bare| == |items|
    requires forall i :: 0 <= i < |items| && bare[i] ==> Plain(items[i])
  {
    "{" + PrintItems(items, bare)
  }

  lemma {:induction false} QuotedEscape(s: string, tail: string)
    ensures Quoted(Escape(s) + "\"" + tail) == Some((s, tail))
  {
    var text := Escape(s) + "\"" + tail;
    if s == "" {
      assert text == "\"" + tail;
    } else {
      QuotedEscape(s[1..], tail);
      var rest := Escape(s[1..]) + "\"" + tail;
      if NeedsEscape(s[0]) {
        assert text == ['\\', s[0]] + rest;
        assert text[2..] == rest;
      } else {
        assert text == [s[0]] + rest;
        assert text[1..] == rest;
      }
      assert s == [s[0]] + s[1..];
    }
  }

  lemma {:induction false} BareItem(s: string, tail: string)
    requires forall i :: 0 <= i < |s| ==> !Special(s[i])
    requires tail != "" && EndsItem(tail[0])
    ensures Item(s + tail) == Some((s, tail))
  {
    if s == "" {
      assert s + tail == tail;
    } else {
      BareItem(s[1..], tail);
      assert (s + tail)[1..] == s[1..] + tail;
      assert s == [s[0]] + s[1..];
      assert (s + tail)[0] == s[0];
    }
  }

  lemma ItemPrinted(item: string, bare: bool, tail: string)
    requires bare ==> Plain(item)
    requires tail != "" && EndsItem(tail[0])
    ensures Item(PrintItem(item, bare) + tail) == Some((item, tail))
    ensures PrintItem(item, bare) != "" && PrintItem(item, bare)[0] != '}'
  {
    if bare {
      BareItem(item, tail);
    } else {
      var text := PrintItem(item, bare) + tail;
      QuotedEscape(item, tail);
      assert text[1..] == Escape(item) + "\"" + tail;
      assert item + "" == item;
    }
  }

  lemma ItemsCons(text: string, item: string, tail: string)
    requires text != "" && text[0] != '}' && Item(text) == Some((item, tail))
    ensures Items(text) == Extend([item], Items(if tail[0] == ',' then tail[1..] else tail))
  {
  }

  lemma NoMoreItems()
    ensures Items("}") == Some([])
  {
  }

  lemma {:induction false} ItemsPrinted(items: seq<string>, bare: seq<bool>)
    requires |bare| == |items|
    requires forall i :: 0 <= i < |items| && bare[i] ==> Plain(items[i])
    ensures Items(PrintItems(items, bare)) == Some(items)
    ensures PrintItems(items, bare)[|PrintItems(items, bare)| - 1] == '}'
  {
    hide Item, Items, PrintItem, Plain;
    NoMoreItems();
    if items != [] {
      var rest := if |items| == 1 then "" else PrintItems(items[1..], bare[1..]);
      var tail := if |items| == 1 then "}" else "," + rest;
      ItemPrinted(items[0], bare[0], tail);
      ItemsCons(PrintItem(items[0], bare[0]) + tail, items[0], tail);
      if |items| > 1 {
        ItemsPrinted(items[1..], bare[1..]);
        Behind(",", rest);
      }
      assert items == [items[0]] + items[1..];
    }
  }

  /** Parsing undoes printing, whichever items were printed bare. */
  lemma ParsePrintedArray(items: seq<string>, bare: seq<bool>)
    requires |bare| == |items|
    requires forall i :: 0 <= i < |items| && bare[i] ==> Plain(items[i])
    ensures ParseArray(PrintArray(items, bare)) == Some(items)
  {
    ItemsPrinted(items, bare);
    Behind("{", PrintItems(items, bare));
  }

  // ---------------------------------------------------------------------
  // parsePGArray itself: one block of inputlen item slots and inputlen bytes

  /** The item strings laid out one after the other, each with its NUL. */
  function Layout(items: seq<string>): (r: string) {
    if items == [] then "" else Layout(items[..|items| - 1]) + items[|items| - 1] + ['\0']
  }

  /** Slot i holds the place where item i starts in the byte area. */
  predicate SlotsFit(slots: seq<nat>, items: seq<string>) {
    |slots| == |items| &&
    forall i :: 0 <= i < |items| ==> slots[i] == |Layout(items[..i])|
  }

  lemma LaidOut(slots: seq<nat>, items: seq<string>, item: string)
    requires SlotsFit(slots, items)
    ensures Layout(items + [item]) == Layout(items) + item + ['\0']
    ensures SlotsFit(slots + [|Layout(items)|], items + [item])
  {
    var items' := items + [item];
    assert forall i :: 0 <= i <= |items| ==> items'[..i] == items[..i];
    assert items[..|items|] == items;
  }

  /** The rest of a quoted run followed by the rest of the item. */
  function QuotedThenItem(s: string): Parsed {
    match Quoted(s) case None => None case Some((data, rest)) => Prefix(data, Item(rest))
  }

  lemma PrefixTwice(a: string, b: string, more: Parsed)
    ensures Prefix("", more) == more
    ensures Prefix(a, Prefix(b, more)) == Prefix(a + b, more)
  {
    if more.Some? {
      var d := more.value.0;
      assert "" + d == d && a + (b + d) == a + b + d;
    }
  }

  lemma ExtendTwice(a: seq<string>, b: seq<string>, more: Option<seq<string>>)
    ensures Extend([], more) == more
    ensures Extend(a, Extend(b, more)) == Extend(a + b, more)
  {
    if more.Some? {
      var d := more.value;
      assert [] + d == d && a + (b + d) == a + b + d;
    }
  }

  lemma QuotedChar(done: string, s: string, a: nat, b: nat)
    requires a <= b < |s| && s[a] != '"'
    requires b == if s[a] == '\\' then a + 1 else a
    ensures Prefix(done, QuotedThenItem(s[a..])) == Prefix(done + [s[b]], QuotedThenItem(s[b + 1..]))
  {
    assert s[a..][b + 1 - a..] == s[b + 1..];
    var more := Quoted(s[b + 1..]);
    if more.Some? {
      PrefixTwice([s[b]], more.value.0, Item(more.value.1));
    }
    PrefixTwice(done, [s[b]], QuotedThenItem(s[b + 1..]));
  }

  /** How the rest of an item is read, at each kind of character. */
  lemma ItemAt(done: string, s: string, a: nat)
    requires a <= |s|
    ensures a == |s| ==> Item(s[a..]) == None
    ensures a < |s| && EndsItem(s[a]) ==> Prefix(done, Item(s[a..])) == Some((done, s[a..]))
    ensures a < |s| && s[a] == '"' ==> Item(s[a..]) == QuotedThenItem(s[a + 1..])
    ensures a < |s| && !EndsItem(s[a]) && s[a] != '"' ==>
              Prefix(done, Item(s[a..])) == Prefix(done + [s[a]], Item(s[a + 1..]))
  {
    if a < |s| {
      assert s[a..][1..] == s[a + 1..];
      PrefixTwice(done, [s[a]], Item(s[a + 1..]));
      Units(done);
    }
  }

  lemma QuotedAt(done: string, s: string, a: nat)
    requires a <= |s|
    ensures a == |s| ==> QuotedThenItem(s[a..]) == None
    ensures a < |s| && s[a] == '"' ==> Prefix(done, QuotedThenItem(s[a..])) == Prefix(done, Item(s[a + 1..]))
    ensures a + 1 == |s| && s[a] == '\\' ==> QuotedThenItem(s[a..]) == None
  {
    if a < |s| {
      assert s[a..][1..] == s[a + 1..];
      PrefixTwice(done, "", Item(s[a + 1..]));
    }
  }

  /** How the rest of the array is read once an item has been taken from it. */
  lemma ItemsAt(done: seq<string>, item: string, s: string, a: nat, b: nat)
    requires a <= b < |s| && s[a] != '}' && Item(s[a..]) == Some((item, s[b..]))
    ensures Extend(done, Items(s[a..])) ==
            Extend(done + [item], Items(if s[b] == ',' then s[b + 1..] else s[b..]))
  {
    var rest := if s[b] == ',' then s[b + 1..] else s[b..];
    assert s[b..][1..] == s[b + 1..];
    ExtendTwice(done, [item], Items(rest));
  }

  /** How reading the array ends. */
  lemma ItemsEnd(done: seq<string>, s: string, a: nat)
    requires a <= |s|
    ensures a == |s| ==> Extend(done, Items(s[a..])) == None
    ensures a < |s| && s[a] != '}' && Item(s[a..]) == None ==> Extend(done, Items(s[a..])) == None
    ensures a < |s| && s[a] == '}' ==>
              Extend(done, Items(s[a..])) == if a + 1 == |s| then Some(done) else None
  {
    Units(done);
  }

  lemma NoItems()
    ensures Layout([]) == "" && SlotsFit([], [])
  {
  }

  lemma PrefixNone(done: string)
    ensures Prefix(done, None) == None
  {
  }

  /**
    Both areas are allocated with |atext| cells, so every write below is
    checked against that bound, on malformed input too; and on every input but
    the empty one the slots filled and the bytes used are strictly fewer.
   */
  method ParsePGArray(atext: string)
    returns (ok: bool, items: seq<string>, slots: array<nat>, strings: array<char>, filled: nat, used: nat)
    ensures ok <==> ParseArray(atext).Some?
    ensures ok ==> items == ParseArray(atext).value && filled == |items|
    ensures slots.Length == strings.Length == |atext|
    ensures |items| <= filled && (atext != "" ==> filled < |atext| && used < |atext|)
    ensures ok ==> strings[..used] == Layout(items) && SlotsFit(slots[..|items|], items)
  {
    hide Item, Items, Layout, SlotsFit, Extend;
    var n := |atext|;
    slots, strings, filled, used, items := new nat[n], new char[n], 0, 0, [];
    NoItems();
    if n < 2 || atext[0] != '{' || atext[n - 1] != '}' {
      return false, items, slots, strings, filled, used;
    }
    var a := 1;
    ExtendTwice([], [], Items(atext[1..]));
    while atext[a] != '}'
      invariant 1 <= a < n && used <= a && |items| == filled < a
      invariant atext[a] != '}' ==> used < a
      invariant strings[..used] == Layout(items) && SlotsFit(slots[..filled], items)
      invariant ParseArray(atext) == Extend(items, Items(atext[a..]))
      decreases n - a
    {
      ItemsEnd(items, atext, a);
      var item;
      ok, item, a, used := TakeItem(atext, a, slots, filled, strings, used, items);
      filled := filled + 1;
      if !ok { return; }
      items := items + [item];
    }
    ItemsEnd(items, atext, a);
    ok := a + 1 == n;
  }

  /** One round of the outer loop: the slot, the bytes with their NUL, and the comma behind the item. */
  method TakeItem(atext: string, start: nat, slots: array<nat>, filled: nat, strings: array<char>, used0: nat,
                  ghost items: seq<string>)
    returns (ok: bool, item: string, a: nat, used: nat)
    requires used0 < start < |atext| == slots.Length == strings.Length && |items| == filled < start
    requires atext[start] != '}' && atext[|atext| - 1] == '}'
    requires strings[..used0] == Layout(items) && SlotsFit(slots[..filled], items)
    modifies slots, strings
    ensures ok <==> Item(atext[start..]).Some?
    ensures used < |atext| && (ok ==> start < a < |atext| && used <= a && (atext[a] != '}' ==> used < a))
    ensures ok ==> strings[..used] == Layout(items + [item]) && SlotsFit(slots[..filled + 1], items + [item])
    ensures ok ==> Extend(items, Items(atext[start..])) == Extend(items + [item], Items(atext[a..]))
  {
    hide Item, Items, Layout, SlotsFit, Extend;
    slots[filled] := used0;
    ghost var slots0 := slots[..filled];
    ok, item, a, used := CopyItem(atext, start, strings, used0);
    if !ok { return; }
    LaidOut(slots0, items, item);
    assert slots[..filled + 1] == slots0 + [used0];
    strings[used] := '\0';
    used := used + 1;
    ItemsAt(items, item, atext, start, a);
    if atext[a] == ',' { a := a + 1; }
  }

  /** The inner loop: copies one item behind what `strings` already holds. */
  method CopyItem(atext: string, start: nat, strings: array<char>, used0: nat)
    returns (ok: bool, item: string, a: nat, used: nat)
    requires start < |atext| == strings.Length && used0 < start
    modifies strings
    ensures ok <==> Item(atext[start..]).Some?
    ensures start <= a <= |atext| && used0 <= used < a
    ensures ok ==> a < |atext|
    ensures ok && a == start ==> EndsItem(atext[start])
    ensures ok ==> Item(atext[start..]) == Some((item, atext[a..]))
    ensures ok ==> strings[..used] == old(strings[..used0]) + item
  {
    hide Item, Quoted, QuotedThenItem, Prefix;
    a, used, item := start, used0, "";
    PrefixTwice("", "", Item(atext[start..]));
    while a < |atext| && atext[a] != '}' && atext[a] != ','
      invariant start <= a <= |atext| && used0 <= used < a
      invariant Item(atext[start..]) == Prefix(item, Item(atext[a..]))
      invariant strings[..used] == old(strings[..used0]) + item
      decreases |atext| - a
    {
      ItemAt(item, atext, a);
      PrefixNone(item);
      if atext[a] != '"' {
        strings[used] := atext[a];
        item := item + [atext[a]];
        a, used := a + 1, used + 1;
      } else {
        var data;
        ok, data, a, used := CopyQuoted(atext, a + 1, strings, used);
        if !ok { return; }
        PrefixTwice(item, data, Item(atext[a..]));
        item := item + data;
      }
    }
    ItemAt(item, atext, a);
    PrefixNone(item);
    ok := a < |atext|;
  }

  /** Inside quotes: copies up to and over the closing quote. */
  method CopyQuoted(atext: string, start: nat, strings: array<char>, used0: nat)
    returns (ok: bool, data: string, a: nat, used: nat)
    requires used0 < start <= |atext| == strings.Length
    modifies strings
    ensures start <= a <= |atext| && used0 <= used < a
    ensures if ok then start < a && QuotedThenItem(atext[start..]) == Prefix(data, Item(atext[a..]))
            else QuotedThenItem(atext[start..]).None?
    ensures strings[..used] == old(strings[..used0]) + data
  {
    hide Item, Quoted, QuotedThenItem, Prefix;
    a, used, data := start, used0, "";
    PrefixTwice("", "", QuotedThenItem(atext[a..]));
    while a < |atext| && atext[a] != '"'
      invariant start <= a <= |atext| && used0 <= used < a
      invariant QuotedThenItem(atext[start..]) == Prefix(data, QuotedThenItem(atext[a..]))
      invariant strings[..used] == old(strings[..used0]) + data
      decreases |atext| - a
    {
      QuotedAt(data, atext, a);
      PrefixNone(data);
      ghost var a0 := a;
      if atext[a] == '\\' {
        if a + 1 == |atext| { return false, data, a, used; }
        a := a + 1;
      }
      QuotedChar(data, atext, a0, a);
      strings[used] := atext[a];
      data := data + [atext[a]];
      a, used := a + 1, used + 1;
    }
    QuotedAt(data, atext, a);
    PrefixNone(data);
    ok := a < |atext|;
    if ok { a := a + 1; }
  }
}
