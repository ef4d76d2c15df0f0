/**
  Exactly which texts parsePGArray (tools/common/dumputils.cpp) takes for arrays,
  as a grammar, and what it makes of each.
 */
module ArrayGrammar {
  import opened Basics
  import opened ArrayText

  /** Inside quotes a backslash protects any character. */
  datatype Inner = Plainly(c: char) | Escaped(c: char)

  /** An item is made of bare characters and quoted runs, in any order. */
  datatype Bit = Raw(c: char) | Run(inner: seq<Inner>)

  /** An item, and whether a comma follows it. */
  datatype Slot = Slot(bits: seq<Bit>, comma: bool)

  function InnerText(i: Inner): string { if i.Escaped? then ['\\', i.c] else [i.c] }

  predicate InnerFits(i: Inner) { i.Plainly? ==> i.c != '"' && i.c != '\\' }

  function RunText(inner: seq<Inner>): (r: string) {
    if inner == [] then "\"" else InnerText(inner[0]) + RunText(inner[1..])
  }

  function RunData(inner: seq<Inner>): (r: string) { if inner == [] then "" else [inner[0].c] + RunData(inner[1..]) }

  predicate RunFits(inner: seq<Inner>) { forall i :: 0 <= i < |inner| ==> InnerFits(inner[i]) }

  function BitText(b: Bit): (r: string) { match b case Raw(c) => [c] case Run(inner) => "\"" + RunText(inner) }

  function BitData(b: Bit): (r: string) { match b case Raw(c) => [c] case Run(inner) => RunData(inner) }

  predicate BitFits(b: Bit) { match b case Raw(c) => c != '"' && !EndsItem(c) case Run(inner) => RunFits(inner) }

  function BitsText(bs: seq<Bit>): (r: string) { if bs == [] then "" else BitText(bs[0]) + BitsText(bs[1..]) }

  function BitsData(bs: seq<Bit>): (r: string) { if bs == [] then "" else BitData(bs[0]) + BitsData(bs[1..]) }

  predicate BitsFit(bs: seq<Bit>) { forall i :: 0 <= i < |bs| ==> BitFits(bs[i]) }

  /** The items with their commas, and the brace that ends the text. */
  function SlotsText(ss: seq<Slot>): (r: string) {
    if ss == [] then "}" else BitsText(ss[0].bits) + ((if ss[0].comma then "," else "") + SlotsText(ss[1..]))
  }

  function SlotsData(ss: seq<Slot>): (r: seq<string>) {
    if ss == [] then [] else [BitsData(ss[0].bits)] + SlotsData(ss[1..])
  }

  /** A comma follows every item but the last, where it may; an item may be empty only in front of a comma. */
  predicate SlotsFit(ss: seq<Slot>) {
    && (forall i :: 0 <= i < |ss| ==> BitsFit(ss[i].bits) && (ss[i].comma || (ss[i].bits != [] && i == |ss| - 1)))
  }

  // ---------------------------------------------------------------------
  // What the grammar has is parsed

  lemma {:induction false} RunParsed(inner: seq<Inner>, tail: string)
    requires RunFits(inner)
    ensures Quoted(RunText(inner) + tail) == Some((RunData(inner), tail))
  {
    if inner == [] {
      Behind("\"", tail);
    } else {
      var head, more := InnerText(inner[0]), RunText(inner[1..]) + tail;
      RunParsed(inner[1..], tail);
      Assoc(head, RunText(inner[1..]), tail);
      Behind(head, more);
      assert InnerFits(inner[0]) && (head + more)[0] == head[0];
      if inner[0].Escaped? { assert (head + more)[1] == inner[0].c; }
    }
  }

  lemma {:induction false} BitsParsed(bs: seq<Bit>, tail: string)
    requires BitsFit(bs) && tail != "" && EndsItem(tail[0])
    ensures ArrayText.Item(BitsText(bs) + tail) == Some((BitsData(bs), tail))
  {
    if bs == [] {
      Units(tail);
    } else {
      hide BitFits, RunText, RunData;
      var more := BitsText(bs[1..]) + tail;
      BitsParsed(bs[1..], tail);
      Assoc(BitText(bs[0]), BitsText(bs[1..]), tail);
      BitParsed(bs[0], more);
    }
  }

  lemma BitParsed(b: Bit, more: string)
    requires BitFits(b)
    ensures ArrayText.Item(BitText(b) + more) == Prefix(BitData(b), ArrayText.Item(more))
  {
    hide RunText, RunData, Quoted, RunFits;
    match b
    case Raw(c) => Behind([c], more);
    case Run(inner) =>
      Assoc("\"", RunText(inner), more);
      Behind("\"", RunText(inner) + more);
      RunParsed(inner, more);
  }

  /** An item that is there does not begin with the closing brace. */
  lemma BitsStart(bs: seq<Bit>, tail: string)
    requires BitsFit(bs) && bs != []
    ensures var t := BitsText(bs) + tail; t != "" && t[0] != '}'
  {
    var t := BitText(bs[0]);
    assert BitFits(bs[0]) && t != "" && t[0] != '}';
  }

  lemma {:induction false} SlotsParsed(ss: seq<Slot>)
    requires SlotsFit(ss)
    ensures Items(SlotsText(ss)) == Some(SlotsData(ss))
  {
    hide ArrayText.Item, Items, BitsText, BitsFit;
    if ss == [] {
      NoMoreItems();
    } else {
      var s, more := ss[0], SlotsText(ss[1..]);
      var tail := (if s.comma then "," else "") + more;
      if |ss| > 1 { assert s.comma; }
      assert SlotsFit(ss[1..]);
      SlotsParsed(ss[1..]);
      Behind(",", more);
      Units(more);
      assert tail != "" && EndsItem(tail[0]);
      BitsParsed(s.bits, tail);
      var text := BitsText(s.bits) + tail;
      if s.bits != [] { BitsStart(s.bits, tail); } else { EmptyFirst(s.bits, tail); }
      ItemsCons(text, BitsData(s.bits), tail);
    }
  }

  lemma EmptyFirst(bs: seq<Bit>, tail: string)
    requires bs == []
    ensures BitsText(bs) + tail == tail
  {
    Units(tail);
  }

  // ---------------------------------------------------------------------
  // What is parsed is in the grammar

  lemma {:induction false} RunFound(s: string) returns (inner: seq<Inner>)
    requires Quoted(s).Some?
    ensures RunFits(inner) && s == RunText(inner) + Quoted(s).value.1 && RunData(inner) == Quoted(s).value.0
    decreases |s|
  {
    if s[0] == '"' {
      inner := [];
      assert s == "\"" + s[1..];
    } else {
      var k := if s[0] == '\\' then 2 else 1;
      var more := RunFound(s[k..]);
      var first := if k == 2 then Escaped(s[1]) else Plainly(s[0]);
      inner := [first] + more;
      assert inner[1..] == more && s == InnerText(first) + s[k..];
      Assoc(InnerText(first), RunText(more), Quoted(s).value.1);
    }
  }

  lemma {:induction false} BitsFound(s: string) returns (bs: seq<Bit>)
    requires ArrayText.Item(s).Some?
    ensures BitsFit(bs) && s == BitsText(bs) + ArrayText.Item(s).value.1 && BitsData(bs) == ArrayText.Item(s).value.0
    ensures bs == [] ==> ArrayText.Item(s).value.1 == s
    decreases |s|
  {
    if EndsItem(s[0]) {
      bs := [];
      Units(s);
    } else {
      var first, rest := BitFound(s);
      var more := BitsFound(rest);
      bs := [first] + more;
      assert bs[1..] == more;
      Assoc(BitText(first), BitsText(more), ArrayText.Item(s).value.1);
    }
  }

  lemma BitFound(s: string) returns (b: Bit, rest: string)
    requires ArrayText.Item(s).Some? && !EndsItem(s[0])
    ensures BitFits(b) && s == BitText(b) + rest && |rest| < |s| && ArrayText.Item(rest).Some?
    ensures ArrayText.Item(s) == Prefix(BitData(b), ArrayText.Item(rest))
  {
    hide Quoted, RunFits, RunText, RunData;
    if s[0] != '"' {
      b, rest := Raw(s[0]), s[1..];
      assert s == [s[0]] + s[1..];
    } else {
      var inner := RunFound(s[1..]);
      b, rest := Run(inner), Quoted(s[1..]).value.1;
      assert s == "\"" + s[1..];
      Assoc("\"", RunText(inner), rest);
    }
  }

  lemma {:induction false} SlotsFound(s: string) returns (ss: seq<Slot>)
    requires Items(s).Some?
    ensures SlotsFit(ss) && s == SlotsText(ss) && SlotsData(ss) == Items(s).value
    decreases |s|
  {
    hide BitsFit, BitsText, BitsData, ArrayText.Item, SlotsFit, SlotsText, SlotsData;
    ItemsAt(s);
    if s[0] == '}' {
      NoSlots();
      ss := [];
      assert s == "}";
    } else {
      var bits := BitsFound(s);
      var rest := ArrayText.Item(s).value.1;
      var comma := rest[0] == ',';
      var next := if comma then rest[1..] else rest;
      if comma { assert rest == "," + next; } else { Units(next); }
      var more := SlotsFound(next);
      if !comma { LastSlot(more, next); }
      SlotsCons(Slot(bits, comma), more);
      ss := [Slot(bits, comma)] + more;
    }
  }

  lemma NoSlots()
    ensures SlotsFit([]) && SlotsText([]) == "}" && SlotsData([]) == []
  {
  }

  lemma SlotsCons(s: Slot, more: seq<Slot>)
    requires SlotsFit(more) && BitsFit(s.bits) && (s.comma || (s.bits != [] && more == []))
    ensures var ss := [s] + more;
            && SlotsFit(ss) && SlotsData(ss) == [BitsData(s.bits)] + SlotsData(more)
            && SlotsText(ss) == BitsText(s.bits) + ((if s.comma then "," else "") + SlotsText(more))
  {
    hide BitsFit, BitsText, BitsData;
    assert ([s] + more)[1..] == more;
  }

  /** How the items go on behind the first. */
  lemma ItemsAt(s: string)
    requires Items(s).Some?
    ensures s != "" && (s[0] == '}' ==> s == "}" && Items(s).value == [])
    ensures s[0] != '}' ==>
              && ArrayText.Item(s).Some?
              && var rest := ArrayText.Item(s).value.1;
              && rest != "" && EndsItem(rest[0])
              && var next := if rest[0] == ',' then rest[1..] else rest;
              && Items(next).Some? && |next| < |s| && Items(s).value == [ArrayText.Item(s).value.0] + Items(next).value
  {
    hide ArrayText.Item;
  }

  lemma LastSlot(ss: seq<Slot>, s: string)
    requires SlotsFit(ss) && s == SlotsText(ss) && s != "" && s[0] == '}'
    ensures ss == []
  {
    if ss != [] {
      var tail := (if ss[0].comma then "," else "") + SlotsText(ss[1..]);
      EmptyFirst([], tail);
      if ss[0].bits != [] { BitsStart(ss[0].bits, tail); }
      assert false;
    }
  }

  /** The texts of the grammar in braces are exactly the arrays, and their items are the items. */
  lemma ArrayIff(text: string, items: seq<string>)
    ensures ParseArray(text) == Some(items) <==>
            exists ss :: SlotsFit(ss) && text == "{" + SlotsText(ss) && items == SlotsData(ss)
  {
    hide SlotsFit, SlotsText, SlotsData, Items;
    if ParseArray(text) == Some(items) {
      var ss := SlotsFound(text[1..]);
      assert text == "{" + text[1..];
    }
    if ss :| SlotsFit(ss) && text == "{" + SlotsText(ss) && items == SlotsData(ss) {
      SlotsParsed(ss);
      Behind("{", SlotsText(ss));
      BraceLast(ss);
    }
  }

  lemma {:induction false} BraceLast(ss: seq<Slot>)
    ensures var t := SlotsText(ss); t != "" && t[|t| - 1] == '}'
  {
    if ss != [] { BraceLast(ss[1..]); }
  }
}
