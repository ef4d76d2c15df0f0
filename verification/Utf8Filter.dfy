/**
  utf8_to_unicode, utf_charcheck and mb_utf_validate of
  tools/pg_psql/mbprint.cpp, against the encoding of section 3 of RFC 3629.
 */
module Utf8Filter {
  import opened Basics
  import opened Buffers

  /** A byte of a C text; the text ends in NUL. */
  function At(s: seq<bv8>, i: nat): bv8 { if i < |s| then s[i] else 0 }

  predicate Continues(c: bv8) { c & 0xc0 == 0x80 }

  // ---------------------------------------------------------------------
  // Decoding and checking

  function Two(c0: bv8, c1: bv8): bv32 { ((c0 & 0x1f) as bv32 << 6) | (c1 & 0x3f) as bv32 }

  function Three(c0: bv8, c1: bv8, c2: bv8): bv32 {
    ((c0 & 0x0f) as bv32 << 12) | ((c1 & 0x3f) as bv32 << 6) | (c2 & 0x3f) as bv32
  }

  function Four(c0: bv8, c1: bv8, c2: bv8, c3: bv8): bv32 {
    ((c0 & 0x07) as bv32 << 18) | ((c1 & 0x3f) as bv32 << 12) | ((c2 & 0x3f) as bv32 << 6) | (c3 & 0x3f) as bv32
  }

  /** utf8_to_unicode. */
  function Decode(s: seq<bv8>): (v: bv32) {
    var c := At(s, 0);
    if c & 0x80 == 0 then c as bv32
    else if c & 0xe0 == 0xc0 then Two(c, At(s, 1))
    else if c & 0xf0 == 0xe0 then Three(c, At(s, 1), At(s, 2))
    else if c & 0xf8 == 0xf0 then Four(c, At(s, 1), At(s, 2), At(s, 3))
    else 0xffffffff
  }

  predicate CheckTwo(c0: bv8, c1: bv8) { Continues(c1) && c0 & 0x1f > 0x01 }

  predicate CheckThree(c0: bv8, c1: bv8, c2: bv8) {
    && Continues(c1) && (c0 & 0x0f != 0 || c1 & 0x20 == 0x20) && Continues(c2)
    && var z := c0 & 0x0f;
       var yx := ((c1 & 0x3f) as bv32 << 6) | (c0 & 0x3f) as bv32;
       var lx := yx & 0x7f;
       !((z == 0x0f && (yx & 0xffe == 0xffe || (yx & 0xf80 == 0xd80 && 0x30 <= lx <= 0x4f))) ||
         (z == 0x0d && yx & 0xb00 == 0x800))
  }

  predicate CheckFour(c0: bv8, c1: bv8, c2: bv8, c3: bv8) {
    var u := ((c0 & 0x07) << 2) | ((c1 & 0x30) >> 4);
    && Continues(c1) && 0 < u <= 0x10 && Continues(c2) && Continues(c3)
    && !(c1 & 0x0f == 0x0f && c2 & 0x3f == 0x3f && c3 & 0x3e == 0x3e)
  }

  /** utf_charcheck: the length of the character, or -1. */
  function CharCheck(s: seq<bv8>): (n: int) {
    var c := At(s, 0);
    if c & 0x80 == 0 then 1
    else if c & 0xe0 == 0xc0 then (if CheckTwo(c, At(s, 1)) then 2 else -1)
    else if c & 0xf0 == 0xe0 then (if CheckThree(c, At(s, 1), At(s, 2)) then 3 else -1)
    else if c & 0xf8 == 0xf0 then (if CheckFour(c, At(s, 1), At(s, 2), At(s, 3)) then 4 else -1)
    else -1
  }

  // ---------------------------------------------------------------------
  // The encoding

  // The bytes of a code point's encoding
  function Lead2(v: bv32): bv8 { 0xc0 | ((v >> 6) & 0x1f) as bv8 }
  function Lead3(v: bv32): bv8 { 0xe0 | ((v >> 12) & 0x0f) as bv8 }
  function Lead4(v: bv32): bv8 { 0xf0 | ((v >> 18) & 0x07) as bv8 }
  function Tail0(v: bv32): bv8 { 0x80 | (v & 0x3f) as bv8 }
  function Tail1(v: bv32): bv8 { 0x80 | ((v >> 6) & 0x3f) as bv8 }
  function Tail2(v: bv32): bv8 { 0x80 | ((v >> 12) & 0x3f) as bv8 }

  /** The shortest encoding. */
  function Encode(v: bv32): (s: seq<bv8>)
    requires v <= 0x10ffff
  {
    if v < 0x80 then [(v & 0x7f) as bv8]
    else if v < 0x800 then [Lead2(v), Tail0(v)]
    else if v < 0x10000 then [Lead3(v), Tail1(v), Tail0(v)]
    else [Lead4(v), Tail2(v), Tail1(v), Tail0(v)]
  }

  /**
    What the check lets through: all code points but one quarter of the surrogates
    and, beyond the basic plane, the last two code points of each plane.
   */
  predicate Allowed(v: bv32) {
    && 0 < v <= 0x10ffff
    && !(0xd800 <= v <= 0xdfff && v & 0x300 == 0)
    && !(v >= 0x10000 && v & 0xfffe == 0xfffe)
  }

  lemma TwoForth(v: bv32)
    requires 0x80 <= v < 0x800
    ensures var c0, c1 := Lead2(v), Tail0(v);
            c0 & 0x80 != 0 && c0 & 0xe0 == 0xc0 && Two(c0, c1) == v && CheckTwo(c0, c1)
  {
  }

  lemma ThreeForth(v: bv32)
    requires 0x800 <= v < 0x10000
    ensures var c0, c1, c2 := Lead3(v), Tail1(v), Tail0(v);
            && c0 & 0x80 != 0 && c0 & 0xe0 != 0xc0 && c0 & 0xf0 == 0xe0 && Three(c0, c1, c2) == v
            && (CheckThree(c0, c1, c2) <==> Allowed(v))
  {
    hide Three, CheckThree, Allowed;
    ThreeBits(v, 0xe0 | ((v >> 12) & 0x0f) as bv8, 0x80 | ((v >> 6) & 0x3f) as bv8, 0x80 | (v & 0x3f) as bv8);
  }

  /** The bytes of a three-byte encoding. */
  predicate ThreeOf(v: bv32, c0: bv8, c1: bv8, c2: bv8) {
    c0 == 0xe0 | ((v >> 12) & 0x0f) as bv8 && c1 == 0x80 | ((v >> 6) & 0x3f) as bv8 && c2 == 0x80 | (v & 0x3f) as bv8
  }

  lemma ThreeBits(v: bv32, c0: bv8, c1: bv8, c2: bv8)
    requires 0x800 <= v < 0x10000 && ThreeOf(v, c0, c1, c2)
    ensures c0 & 0x80 != 0 && c0 & 0xe0 != 0xc0 && c0 & 0xf0 == 0xe0 && Three(c0, c1, c2) == v
    ensures CheckThree(c0, c1, c2) <==> Allowed(v)
  {
    hide Three, Continues, Allowed, ThreeOf, CheckThree;
    ThreeMarks(v, c0, c1, c2);
    ThreeValue(v, c0, c1, c2);
    ThreeChecked(c0, c1, c2);
    ThreeSurrogate(v, c0, c1, c2);
    ThreeAllowed(v);
  }

  lemma ThreeMarks(v: bv32, c0: bv8, c1: bv8, c2: bv8)
    requires 0x800 <= v && v < 0x10000 && ThreeOf(v, c0, c1, c2)
    ensures c0 & 0x80 != 0 && c0 & 0xe0 != 0xc0 && c0 & 0xf0 == 0xe0
    ensures Continues(c1) && Continues(c2) && (c0 & 0x0f != 0 || c1 & 0x20 == 0x20)
  {
  }

  lemma ThreeValue(v: bv32, c0: bv8, c1: bv8, c2: bv8)
    requires v < 0x10000 && ThreeOf(v, c0, c1, c2)
    ensures Three(c0, c1, c2) == v
  {
  }

  /** Of the three tests on the bytes only one can ever fail, and it looks at two bytes. */
  lemma ThreeChecked(c0: bv8, c1: bv8, c2: bv8)
    requires c0 & 0xf0 == 0xe0 && Continues(c1) && Continues(c2) && (c0 & 0x0f != 0 || c1 & 0x20 == 0x20)
    ensures CheckThree(c0, c1, c2) <==> !(c0 == 0xed && c1 & 0x2c == 0x20)
  {
  }

  lemma ThreeSurrogate(v: bv32, c0: bv8, c1: bv8, c2: bv8)
    requires v < 0x10000 && ThreeOf(v, c0, c1, c2)
    ensures c0 == 0xed && c1 & 0x2c == 0x20 <==> 0xd800 <= v <= 0xdfff && v & 0x300 == 0
  {
  }

  lemma ThreeAllowed(v: bv32)
    requires 0x800 <= v < 0x10000
    ensures Allowed(v) <==> !(0xd800 <= v <= 0xdfff && v & 0x300 == 0)
  {
  }

  lemma FourForth(v: bv32)
    requires 0x10000 <= v <= 0x10ffff
    ensures var c0, c1, c2, c3 := Lead4(v), Tail2(v), Tail1(v), Tail0(v);
            && c0 & 0x80 != 0 && c0 & 0xe0 != 0xc0 && c0 & 0xf0 != 0xe0 && c0 & 0xf8 == 0xf0
            && Four(c0, c1, c2, c3) == v && (CheckFour(c0, c1, c2, c3) <==> Allowed(v))
  {
    hide Four, CheckFour, Allowed;
    FourBits(v, 0xf0 | ((v >> 18) & 0x07) as bv8, 0x80 | ((v >> 12) & 0x3f) as bv8,
             0x80 | ((v >> 6) & 0x3f) as bv8, 0x80 | (v & 0x3f) as bv8);
  }

  /** The bytes of a four-byte encoding. */
  predicate FourOf(v: bv32, c0: bv8, c1: bv8, c2: bv8, c3: bv8) {
    && c0 == 0xf0 | ((v >> 18) & 0x07) as bv8 && c1 == 0x80 | ((v >> 12) & 0x3f) as bv8
    && c2 == 0x80 | ((v >> 6) & 0x3f) as bv8 && c3 == 0x80 | (v & 0x3f) as bv8
  }

  lemma FourBits(v: bv32, c0: bv8, c1: bv8, c2: bv8, c3: bv8)
    requires 0x10000 <= v <= 0x10ffff && FourOf(v, c0, c1, c2, c3)
    ensures c0 & 0x80 != 0 && c0 & 0xe0 != 0xc0 && c0 & 0xf0 != 0xe0 && c0 & 0xf8 == 0xf0
    ensures Four(c0, c1, c2, c3) == v && (CheckFour(c0, c1, c2, c3) <==> Allowed(v))
  {
    hide Four, Continues, Allowed, FourOf;
    FourMarks(v, c0, c1, c2, c3);
    FourLast(v, c0, c1, c2, c3);
    FourUpper(v, c0, c1, c2, c3);
    FourAllowed(v);
  }

  lemma FourMarks(v: bv32, c0: bv8, c1: bv8, c2: bv8, c3: bv8)
    requires FourOf(v, c0, c1, c2, c3)
    ensures c0 & 0x80 != 0 && c0 & 0xe0 != 0xc0 && c0 & 0xf0 != 0xe0 && c0 & 0xf8 == 0xf0
    ensures Continues(c1) && Continues(c2) && Continues(c3)
  {
  }

  lemma FourLast(v: bv32, c0: bv8, c1: bv8, c2: bv8, c3: bv8)
    requires FourOf(v, c0, c1, c2, c3)
    ensures c1 & 0x0f == 0x0f && c2 & 0x3f == 0x3f && c3 & 0x3e == 0x3e <==> v & 0xfffe == 0xfffe
  {
  }

  lemma FourUpper(v: bv32, c0: bv8, c1: bv8, c2: bv8, c3: bv8)
    requires 0x10000 <= v <= 0x10ffff && FourOf(v, c0, c1, c2, c3)
    ensures Four(c0, c1, c2, c3) == v
    ensures var u := ((c0 & 0x07) << 2) | ((c1 & 0x30) >> 4); 0 < u <= 0x10
  {
  }

  lemma FourAllowed(v: bv32)
    requires 0x10000 <= v <= 0x10ffff
    ensures Allowed(v) <==> v & 0xfffe != 0xfffe
  {
  }

  lemma TwoBack(c0: bv8, c1: bv8)
    requires c0 & 0xe0 == 0xc0 && CheckTwo(c0, c1)
    ensures var v := Two(c0, c1); 0x80 <= v < 0x800 && Lead2(v) == c0 && Tail0(v) == c1 && Allowed(v)
  {
  }

  lemma ThreeBack(c0: bv8, c1: bv8, c2: bv8)
    requires c0 & 0xf0 == 0xe0 && CheckThree(c0, c1, c2)
    ensures var v := Three(c0, c1, c2);
            && 0x800 <= v < 0x10000 && Lead3(v) == c0
            && Tail1(v) == c1 && Tail0(v) == c2 && Allowed(v)
  {
  }

  lemma FourBytes(c0: bv8, c1: bv8, c2: bv8, c3: bv8)
    requires c0 & 0xf8 == 0xf0 && Continues(c1) && Continues(c2) && Continues(c3)
    ensures var v := Four(c0, c1, c2, c3);
            && Lead4(v) == c0
            && Tail2(v) == c1 && Tail1(v) == c2 && Tail0(v) == c3
  {
  }

  lemma FourRange(c0: bv8, c1: bv8, c2: bv8, c3: bv8)
    requires var u := ((c0 & 0x07) << 2) | ((c1 & 0x30) >> 4); 0 < u <= 0x10
    ensures 0x10000 <= Four(c0, c1, c2, c3) <= 0x10ffff
  {
  }

  lemma FourBack(c0: bv8, c1: bv8, c2: bv8, c3: bv8)
    requires c0 & 0xf8 == 0xf0 && CheckFour(c0, c1, c2, c3)
    ensures var v := Four(c0, c1, c2, c3);
            && 0x10000 <= v <= 0x10ffff && Lead4(v) == c0
            && Tail2(v) == c1 && Tail1(v) == c2 && Tail0(v) == c3 && Allowed(v)
  {
    hide Four, Lead4, Tail0, Tail1, Tail2, Allowed, Continues;
    FourBytes(c0, c1, c2, c3);
    FourRange(c0, c1, c2, c3);
    FourForth(Four(c0, c1, c2, c3));
  }

  // ---------------------------------------------------------------------
  // The check accepts exactly the shortest encodings of what is allowed

  /** The first bytes of s encode v. */
  predicate Begins(s: seq<bv8>, v: bv32, n: int) { Allowed(v) && Encode(v) <= s && n == |Encode(v)| }

  lemma OneAccepted(s: seq<bv8>)
    requires s != [] && s[0] != 0 && s[0] & 0x80 == 0
    ensures Begins(s, s[0] as bv32, 1)
  {
    OneBack(s[0]);
  }

  lemma TwoAccepted(s: seq<bv8>, c0: bv8, c1: bv8)
    requires [c0, c1] <= s && c0 & 0xe0 == 0xc0 && CheckTwo(c0, c1)
    ensures Begins(s, Two(c0, c1), 2)
  {
    hide Two, CheckTwo, Lead2, Tail0, Allowed;
    TwoBack(c0, c1);
    assert Encode(Two(c0, c1)) == [c0, c1];
  }

  lemma ThreeAccepted(s: seq<bv8>, c0: bv8, c1: bv8, c2: bv8)
    requires [c0, c1, c2] <= s && c0 & 0xf0 == 0xe0 && CheckThree(c0, c1, c2)
    ensures Begins(s, Three(c0, c1, c2), 3)
  {
    hide Three, CheckThree, Lead3, Tail0, Tail1, Allowed;
    ThreeBack(c0, c1, c2);
    assert Encode(Three(c0, c1, c2)) == [c0, c1, c2];
  }

  lemma FourAccepted(s: seq<bv8>, c0: bv8, c1: bv8, c2: bv8, c3: bv8)
    requires [c0, c1, c2, c3] <= s && c0 & 0xf8 == 0xf0 && CheckFour(c0, c1, c2, c3)
    ensures Begins(s, Four(c0, c1, c2, c3), 4)
  {
    hide Four, CheckFour, Lead4, Tail0, Tail1, Tail2, Allowed;
    FourBack(c0, c1, c2, c3);
    assert Encode(Four(c0, c1, c2, c3)) == [c0, c1, c2, c3];
  }

  /** A character that is accepted is the encoding of what it decodes to. */
  lemma AcceptedIsEncoded(s: seq<bv8>)
    requires Lacks(s, 0) && s != [] && CharCheck(s) > 0
    ensures Begins(s, Decode(s), CharCheck(s))
  {
    hide Two, Three, Four, CheckTwo, CheckThree, CheckFour, Begins;
    var c, c1, c2, c3 := s[0], At(s, 1), At(s, 2), At(s, 3);
    Present(c, c1, c2, c3);
    if c & 0x80 == 0 {
      OneAccepted(s);
    } else if c & 0xe0 == 0xc0 {
      TwoAccepted(s, c, c1);
    } else if c & 0xf0 == 0xe0 {
      ThreeAccepted(s, c, c1, c2);
    } else {
      FourAccepted(s, c, c1, c2, c3);
    }
  }

  lemma OneBack(c: bv8)
    requires c != 0 && c & 0x80 == 0
    ensures var v := c as bv32; 0 < v < 0x80 && (v & 0x7f) as bv8 == c && Allowed(v)
  {
  }

  lemma Present(c0: bv8, c1: bv8, c2: bv8, c3: bv8)
    ensures CheckTwo(c0, c1) ==> c1 != 0
    ensures CheckThree(c0, c1, c2) ==> c1 != 0 && c2 != 0
    ensures CheckFour(c0, c1, c2, c3) ==> c1 != 0 && c2 != 0 && c3 != 0
  {
  }

  /** The encoding of a code point is accepted, whole, exactly if the code point is allowed. */
  lemma EncodedIsAccepted(v: bv32, rest: seq<bv8>)
    requires 0 < v <= 0x10ffff
    ensures var s := Encode(v) + rest;
            Decode(s) == v && CharCheck(s) == (if Allowed(v) then |Encode(v)| else -1) && Lacks(Encode(v), 0)
  {
    hide Two, Three, Four, CheckTwo, CheckThree, CheckFour, Lead2, Lead3, Lead4, Tail0, Tail1, Tail2, Allowed;
    var s := Encode(v) + rest;
    assert forall i :: 0 <= i < |Encode(v)| ==> At(s, i) == Encode(v)[i];
    TailSet(v);
    if v < 0x80 {
      OneForth(v);
    } else if v < 0x800 {
      TwoForth(v);
      TwoAllowed(v);
    } else if v < 0x10000 {
      ThreeForth(v);
    } else {
      FourForth(v);
    }
  }

  /** Characters that the check is said to reject: one of the surrogates is, others and these are not. */
  lemma SomeGetThrough()
    ensures CharCheck(Encode(0xd800)) == -1 && CharCheck(Encode(0xd900)) == 3
    ensures CharCheck(Encode(0xfffe)) == 3 && CharCheck(Encode(0xfdd0)) == 3
  {
    hide CharCheck, Decode;
    forall v | v == 0xd800 || v == 0xd900 || v == 0xfffe || v == 0xfdd0
      ensures CharCheck(Encode(v)) == if Allowed(v) then |Encode(v)| else -1
    {
      EncodedIsAccepted(v, []);
      Units(Encode(v));
    }
  }

  lemma OneForth(v: bv32)
    requires 0 < v < 0x80
    ensures var c := (v & 0x7f) as bv8; c & 0x80 == 0 && c as bv32 == v && c != 0 && Allowed(v)
  {
  }

  lemma TwoAllowed(v: bv32)
    requires 0x80 <= v < 0x800
    ensures Allowed(v)
  {
  }

  lemma TailSet(v: bv32)
    ensures Tail0(v) != 0 && Tail1(v) != 0 && Tail2(v) != 0
  {
  }

  // ---------------------------------------------------------------------
  // Filtering

  function Validated(s: seq<bv8>): (r: seq<bv8>) {
    if s == [] then []
    else if 0 < CharCheck(s) <= |s| then s[..CharCheck(s)] + Validated(s[CharCheck(s)..])
    else Validated(s[1..])
  }

  /** The code points of the characters that are kept. */
  function Codes(s: seq<bv8>): (vs: seq<bv32>) {
    if s == [] then []
    else if 0 < CharCheck(s) <= |s| then [Decode(s)] + Codes(s[CharCheck(s)..])
    else Codes(s[1..])
  }

  predicate AllAllowed(vs: seq<bv32>) { forall i :: 0 <= i < |vs| ==> Allowed(vs[i]) }

  function EncodeAll(vs: seq<bv32>): (s: seq<bv8>)
    requires AllAllowed(vs)
  {
    if vs == [] then [] else Encode(vs[0]) + EncodeAll(vs[1..])
  }

  /** What is left is a text of allowed code points, in their shortest encoding. */
  lemma {:induction false} ValidatedIsText(s: seq<bv8>)
    requires Lacks(s, 0)
    ensures AllAllowed(Codes(s)) && Validated(s) == EncodeAll(Codes(s))
  {
    hide CharCheck, Decode, Allowed, Encode;
    if s != [] {
      if 0 < CharCheck(s) <= |s| {
        AcceptedIsEncoded(s);
        ValidatedIsText(s[CharCheck(s)..]);
      } else {
        ValidatedIsText(s[1..]);
      }
    }
  }

  /** And every such text is left as it is. */
  lemma {:induction false} TextIsKept(vs: seq<bv32>)
    requires AllAllowed(vs)
    ensures var s := EncodeAll(vs); Lacks(s, 0) && Codes(s) == vs && Validated(s) == s
  {
    hide CharCheck, Decode, Encode;
    if vs != [] {
      var c, rest := Encode(vs[0]), EncodeAll(vs[1..]);
      TextIsKept(vs[1..]);
      EncodedIsAccepted(vs[0], rest);
      EncodedLength(vs[0]);
      assert (c + rest)[..|c|] == c && (c + rest)[|c|..] == rest;
    }
  }

  lemma EncodedLength(v: bv32)
    requires v <= 0x10ffff
    ensures 1 <= |Encode(v)| <= 4
  {
  }

  lemma FilterIsIdempotent(s: seq<bv8>)
    requires Lacks(s, 0)
    ensures Lacks(Validated(s), 0) && Validated(Validated(s)) == Validated(s) && Codes(Validated(s)) == Codes(s)
  {
    ValidatedIsText(s);
    TextIsKept(Codes(s));
  }

  predicate Subsequence(a: seq<bv8>, b: seq<bv8>) {
    a == [] || (b != [] && ((a[0] == b[0] && Subsequence(a[1..], b[1..])) || Subsequence(a, b[1..])))
  }

  lemma {:induction false} SubsequenceBehind(p: seq<bv8>, a: seq<bv8>, b: seq<bv8>)
    requires Subsequence(a, b)
    ensures Subsequence(p + a, p + b)
  {
    if p == [] {
      assert p + a == a && p + b == b;
    } else {
      SubsequenceBehind(p[1..], a, b);
      assert (p + a)[1..] == p[1..] + a && (p + b)[1..] == p[1..] + b;
    }
  }

  /** Nothing is moved or made up: what is left is some of the bytes, in order. */
  lemma {:induction false} ValidatedIsSubsequence(s: seq<bv8>)
    ensures Subsequence(Validated(s), s)
  {
    hide CharCheck;
    if s != [] {
      var n := CharCheck(s);
      if 0 < n <= |s| {
        ValidatedIsSubsequence(s[n..]);
        SubsequenceBehind(s[..n], Validated(s[n..]), s[n..]);
        assert s == s[..n] + s[n..];
      } else {
        ValidatedIsSubsequence(s[1..]);
      }
    }
  }

  // ---------------------------------------------------------------------
  // The code

  lemma ContinuesSet(c: bv8)
    ensures Continues(c) ==> c != 0
  {
  }

  /** The byte at c + i, where every byte before it is there. */
  lemma ByteAt(a: array<bv8>, c: nat, s: seq<bv8>, i: nat)
    requires HasEnded(a, c, s, 0) && i <= |s|
    ensures c + i < a.Length && a[c + i] == At(s, i) && (At(s, i) != 0 ==> i < |s|)
  {
  }

  lemma CheckNeeds(c0: bv8, c1: bv8, c2: bv8, c3: bv8)
    ensures CheckTwo(c0, c1) ==> Continues(c1)
    ensures CheckThree(c0, c1, c2) ==> Continues(c1) && Continues(c2)
    ensures CheckFour(c0, c1, c2, c3) ==> Continues(c1) && Continues(c2) && Continues(c3)
  {
  }

  /** Reads a byte only behind bytes that are not NUL. */
  method UtfCharCheck(a: array<bv8>, c: nat, ghost s: seq<bv8>) returns (n: int)
    requires HasEnded(a, c, s, 0) && s != []
    ensures n == CharCheck(s) && n <= |s|
  {
    hide HasEnded, At, Continues, CheckTwo, CheckThree, CheckFour;
    ByteAt(a, c, s, 0);
    ByteAt(a, c, s, 1);
    CheckNeeds(At(s, 0), At(s, 1), At(s, 2), At(s, 3));
    ContinuesSet(At(s, 1));
    ContinuesSet(At(s, 2));
    ContinuesSet(At(s, 3));
    var c0 := a[c];
    n := -1;
    if c0 & 0x80 == 0 {
      n := 1;
    } else if c0 & 0xe0 == 0xc0 {
      if CheckTwo(c0, a[c + 1]) { n := 2; }
    } else if c0 & 0xf0 == 0xe0 {
      if Continues(a[c + 1]) {
        ByteAt(a, c, s, 2);
        if CheckThree(c0, a[c + 1], a[c + 2]) { n := 3; }
      }
    } else if c0 & 0xf8 == 0xf0 {
      if Continues(a[c + 1]) {
        ByteAt(a, c, s, 2);
        if Continues(a[c + 2]) {
          ByteAt(a, c, s, 3);
          if CheckFour(c0, a[c + 1], a[c + 2], a[c + 3]) { n := 4; }
        }
      }
    }
  }

  /** Behind the text in the buffer, a state is as another one was. */
  twostate predicate SameBehind(a: array<bv8>, n: nat)
    reads a
  {
    forall i :: n <= i < a.Length ==> a[i] == old(a[i])
  }

  /** Moves a character down behind what is kept, unless it is there. */
  method Keep(a: array<bv8>, p: nat, pwcs: nat, len: nat, ghost done: seq<bv8>, ghost s: seq<bv8>)
    requires |done| == p <= pwcs && HasBytes(a, 0, done) && HasEnded(a, pwcs, s, 0) && len <= |s|
    modifies a
    ensures HasBytes(a, 0, done + s[..len]) && HasEnded(a, pwcs + len, s[len..], 0)
    ensures SameBehind(a, pwcs + len)
  {
    if p != pwcs {
      for i := 0 to len
        invariant forall j :: 0 <= j < p ==> a[j] == old(a[j])
        invariant forall j :: p <= j < p + i ==> a[j] == s[j - p]
        invariant forall j :: pwcs + i <= j < a.Length ==> a[j] == old(a[j])
      {
        a[p + i] := a[pwcs + i];
      }
    }
  }

  method Terminate(a: array<bv8>, p: nat, pwcs: nat, ghost done: seq<bv8>)
    requires |done| == p <= pwcs && HasBytes(a, 0, done) && HasEnded(a, pwcs, [], 0) && Lacks(done, 0)
    modifies a
    ensures HasEnded(a, 0, done, 0) && SameBehind(a, pwcs)
  {
    if p != pwcs { a[p] := 0; }
  }

  lemma DropFirst(a: array<bv8>, p: nat, s: seq<bv8>)
    requires HasEnded(a, p, s, 0) && s != []
    ensures HasEnded(a, p + 1, s[1..], 0)
  {
  }

  /** The text is filtered in place, and nothing behind it is touched. */
  method MbUtfValidate(a: array<bv8>, ghost text: seq<bv8>)
    requires HasEnded(a, 0, text, 0)
    modifies a
    ensures HasEnded(a, 0, Validated(text), 0) && SameBehind(a, |text|)
  {
    hide CharCheck, Validated, HasEnded, HasBytes;
    var p, pwcs := 0, 0;
    ghost var done, s := [], text;
    Start(a, text);
    ByteAt(a, pwcs, s, 0);
    while a[pwcs] != 0
      invariant |done| == p <= pwcs == |text| - |s| && HasBytes(a, 0, done) && HasEnded(a, pwcs, s, 0)
      invariant done + Validated(s) == Validated(text)
      invariant pwcs < a.Length && a[pwcs] == At(s, 0)
      invariant SameBehind(a, |text|)
      decreases |s|
    {
      ByteAt(a, pwcs, s, 0);
      var len := UtfCharCheck(a, pwcs, s);
      ValidateStep(done, s);
      if len > 0 {
        Keep(a, p, pwcs, len, done, s);
        done, s := done + s[..len], s[len..];
        p, pwcs := p + len, pwcs + len;
      } else {
        DropFirst(a, pwcs, s);
        s := s[1..];
        pwcs := pwcs + 1;
      }
      ByteAt(a, pwcs, s, 0);
    }
    AtEnd(a, pwcs, s);
    ValidatedNothing(done);
    FilterIsIdempotent(text);
    Terminate(a, p, pwcs, done);
  }

  lemma Start(a: array<bv8>, text: seq<bv8>)
    requires HasEnded(a, 0, text, 0)
    ensures HasBytes(a, 0, []) && [] + Validated(text) == Validated(text) && Lacks(text, 0)
  {
  }

  lemma AtEnd(a: array<bv8>, p: nat, s: seq<bv8>)
    requires HasEnded(a, p, s, 0) && At(s, 0) == 0
    ensures s == []
  {
  }

  lemma ValidateStep(done: seq<bv8>, s: seq<bv8>)
    requires s != [] && CharCheck(s) <= |s|
    ensures done + Validated(s) ==
            if CharCheck(s) > 0 then done + s[..CharCheck(s)] + Validated(s[CharCheck(s)..]) else done + Validated(s[1..])
  {
    hide CharCheck;
    var n := CharCheck(s);
    if n > 0 { Assoc(done, s[..n], Validated(s[n..])); }
  }

  lemma ValidatedNothing(done: seq<bv8>)
    ensures done + Validated([]) == done
  {
  }
}
