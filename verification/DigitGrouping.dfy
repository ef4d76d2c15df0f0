/**
  integer_digits, additional_numeric_locale_len, strlen_with_numeric_locale and
  format_numeric_locale of tools/pg_psql/print.cpp.
 */
module DigitGrouping {
  import opened Basics
  import opened Buffers

  /** The locale's numeric conventions. */
  datatype Locale = Locale(point: string, sep: string, group: nat) {
    predicate Valid() { point != "" && sep != "" && group >= 1 && NoNul(point) && NoNul(sep) }
  }

  // ---------------------------------------------------------------------
  // The parts of a number's text

  function Sign(s: string): (r: string) { if s != "" && s[0] == '-' then "-" else "" }

  /** The text behind the sign. */
  function Unsigned(s: string): (r: string) { if s != "" && s[0] == '-' then s[1..] else s }

  /** The integer part. */
  function Whole(u: string): (r: string) { u[..IndexOf(u, '.')] }

  /** The point and what is behind it, if there is a point. */
  function Fraction(u: string, point: string): (r: string) {
    var i := IndexOf(u, '.');
    if i < |u| then point + u[i + 1..] else ""
  }

  /** Groups counted leftwards from the point, with separators between them. */
  function Grouped(d: string, loc: Locale): (r: string)
    requires loc.Valid()
  {
    if |d| <= loc.group then d
    else Grouped(d[..|d| - loc.group], loc) + (loc.sep + d[|d| - loc.group..])
  }

  function Formatted(s: string, loc: Locale): (r: string)
    requires loc.Valid()
  {
    Sign(s) + (Grouped(Whole(Unsigned(s)), loc) + Fraction(Unsigned(s), loc.point))
  }

  // ---------------------------------------------------------------------
  // The length

  function IntegerDigits(s: string): (n: nat) { IndexOf(Unsigned(s), '.') }

  /** How many separators a number of n digits gets. */
  function Separators(n: nat, group: nat): (k: nat)
    requires group >= 1
  {
    if n == 0 then 0 else n / group - (if n % group == 0 then 1 else 0)
  }

  /** One group more. */
  lemma GroupMore(n: nat, g: nat)
    requires n >= g >= 1
    ensures n / g == (n - g) / g + 1 && n % g == (n - g) % g
  {
    var q, r := (n - g) / g, (n - g) % g;
    assert n == (q + 1) * g + r;
    DivMod(n, g, q + 1, r);
  }

  lemma SeparatorsMore(n: nat, g: nat)
    requires g >= 1
    ensures Separators(n, g) == if n <= g then 0 else Separators(n - g, g) + 1
  {
    if n < g {
      DivMod(n, g, 0, n);
    } else {
      GroupMore(n, g);
    }
  }

  lemma {:induction false} GroupedLength(d: string, loc: Locale)
    requires loc.Valid()
    ensures |Grouped(d, loc)| == |d| + Separators(|d|, loc.group) * |loc.sep|
  {
    hide Separators;
    var n, g, w := |d|, loc.group, |loc.sep|;
    SeparatorsMore(n, g);
    if n > g {
      GroupedLength(d[..n - g], loc);
      assert (Separators(n - g, g) + 1) * w == Separators(n - g, g) * w + w;
    }
  }

  function AdditionalNumericLocaleLen(s: string, loc: Locale): (n: int)
    requires loc.Valid()
  {
    Separators(IntegerDigits(s), loc.group) * |loc.sep| + if IndexOf(s, '.') < |s| then |loc.point| - 1 else 0
  }

  function StrlenWithNumericLocale(s: string, loc: Locale): (n: int)
    requires loc.Valid()
  {
    |s| + AdditionalNumericLocaleLen(s, loc)
  }

  lemma PointBehindSign(s: string)
    ensures IndexOf(s, '.') == |Sign(s)| + IndexOf(Unsigned(s), '.')
  {
  }

  /** The length computed beforehand is that of the formatted text. */
  lemma LengthIsExact(s: string, loc: Locale)
    requires loc.Valid()
    ensures |Formatted(s, loc)| == StrlenWithNumericLocale(s, loc)
  {
    hide IndexOf, Grouped, Separators;
    PointBehindSign(s);
    GroupedLength(Whole(Unsigned(s)), loc);
  }

  // ---------------------------------------------------------------------
  // Where the separators stand

  /** The groups of the integer part, from the left. */
  function Groups(d: string, g: nat): (r: seq<string>)
    requires g >= 1
  {
    if |d| <= g then [d] else Groups(d[..|d| - g], g) + [d[|d| - g..]]
  }

  /** Texts with a separator between them. */
  function Joined(ts: seq<string>, sep: string): (r: string) {
    if ts == [] then ""
    else if |ts| == 1 then ts[0]
    else Joined(ts[..|ts| - 1], sep) + (sep + ts[|ts| - 1])
  }

  predicate AllDigits(t: string) { forall i :: 0 <= i < |t| ==> IsDigit(t[i]) }

  predicate IsDigit(c: char) { '0' <= c <= '9' }

  /** All groups but the first are full. */
  predicate FullGroups(gs: seq<string>, g: nat) {
    gs != [] && |gs[0]| <= g && forall i :: 0 < i < |gs| ==> |gs[i]| == g
  }

  lemma FullSnoc(gs: seq<string>, t: string, g: nat)
    requires FullGroups(gs, g) && |t| == g
    ensures FullGroups(gs + [t], g) && (gs + [t])[0] == gs[0]
  {
  }

  /** Separators stand between the groups, none in front; all but the first group are full. */
  lemma {:induction false} GroupedIsJoined(d: string, loc: Locale)
    requires loc.Valid()
    ensures var gs := Groups(d, loc.group);
            && Grouped(d, loc) == Joined(gs, loc.sep) && Joined(gs, "") == d
            && FullGroups(gs, loc.group) && (d != "" ==> gs[0] != "")
  {
    hide Joined, FullGroups;
    OneFull(d, loc);
    var k := |d| - loc.group;
    if k > 0 {
      var gs := Groups(d[..k], loc.group);
      GroupedIsJoined(d[..k], loc);
      JoinedSnoc(gs, d[k..], loc.sep);
      JoinedSnoc(gs, d[k..], "");
      FullSnoc(gs, d[k..], loc.group);
      Units(d[k..]);
      assert d == d[..k] + d[k..];
    }
  }

  lemma OneFull(d: string, loc: Locale)
    ensures Joined([d], loc.sep) == d && Joined([d], "") == d && (|d| <= loc.group ==> FullGroups([d], loc.group))
    ensures forall gs :: FullGroups(gs, loc.group) ==> gs != []
  {
  }

  lemma JoinedSnoc(ts: seq<string>, t: string, sep: string)
    requires ts != []
    ensures Joined(ts + [t], sep) == Joined(ts, sep) + (sep + t)
  {
    assert (ts + [t])[..|ts|] == ts;
  }

  predicate AllGroups(gs: seq<string>) { forall i :: 0 <= i < |gs| ==> AllDigits(gs[i]) }

  lemma AllGroupsSnoc(gs: seq<string>, t: string)
    ensures AllGroups(gs + [t]) <==> AllGroups(gs) && AllDigits(t)
  {
    assert (gs + [t])[|gs|] == t && forall i :: 0 <= i < |gs| ==> (gs + [t])[i] == gs[i];
  }

  /** The groups are groups of digits exactly when the integer part has nothing but digits. */
  lemma {:induction false} DigitGroups(d: string, g: nat)
    requires g >= 1
    ensures AllGroups(Groups(d, g)) <==> AllDigits(d)
  {
    hide AllDigits, AllGroups;
    var k := |d| - g;
    if k > 0 {
      DigitGroups(d[..k], g);
      AllGroupsSnoc(Groups(d[..k], g), d[k..]);
      DigitsOfBoth(d, k);
    } else {
      AllGroupsSnoc([], d);
      NoGroups();
      assert [] + [d] == [d];
    }
  }

  lemma NoGroups()
    ensures AllGroups([])
  {
  }

  lemma DigitsOfBoth(d: string, k: nat)
    requires k <= |d|
    ensures AllDigits(d) <==> AllDigits(d[..k]) && AllDigits(d[k..])
  {
    if AllDigits(d[..k]) && AllDigits(d[k..]) {
      assert forall i :: 0 <= i < |d| ==> d[i] == if i < k then d[..k][i] else d[k..][i - k];
    }
  }

  lemma GroupedTwo(a: string, b: string, loc: Locale)
    requires loc.Valid() && a != "" && |a| <= loc.group == |b|
    ensures Grouped(a + b, loc) == a + (loc.sep + b)
  {
    Behind(a, b);
  }

  /** An exponent is part of the integer part, and is cut up with it. */
  lemma ExponentIsGrouped()
    ensures Formatted("1e+20", Locale(".", ",", 3)) == "1e,+20" && !AllDigits(Whole(Unsigned("1e+20")))
  {
    hide IndexOf, Grouped;
    var s := "1e+20";
    IndexIs(s, '.', 5);
    GroupedTwo("1e", "+20", Locale(".", ",", 3));
    assert s[..5] == s == "1e" + "+20";
    assert s[1] == 'e';
  }

  // ---------------------------------------------------------------------
  // Reading the formatted text back

  /** The text without the separators of its groups, found by their places alone. */
  function Ungrouped(t: string, loc: Locale): (r: string)
    requires loc.Valid()
  {
    var k := |t| - loc.group - |loc.sep|;
    if k <= 0 then t else Ungrouped(t[..k], loc) + t[|t| - loc.group..]
  }

  lemma UngroupedSnoc(a: string, b: string, loc: Locale)
    requires loc.Valid() && a != "" && |b| == loc.group
    ensures Ungrouped(a + (loc.sep + b), loc) == Ungrouped(a, loc) + b
  {
    hide Ungrouped;
    var t := a + (loc.sep + b);
    Behind(a, loc.sep + b);
    Assoc(a, loc.sep, b);
    Behind(a + loc.sep, b);
    UngroupedTurn(t, |a|, loc);
  }

  lemma UngroupedTurn(t: string, k: nat, loc: Locale)
    requires loc.Valid() && 0 < k == |t| - loc.group - |loc.sep|
    ensures Ungrouped(t, loc) == Ungrouped(t[..k], loc) + t[|t| - loc.group..]
  {
  }

  /** The grouped text of any integer part whatsoever reads back, and no two are grouped alike. */
  lemma {:induction false} GroupedReadsBack(d: string, loc: Locale)
    requires loc.Valid()
    ensures Ungrouped(Grouped(d, loc), loc) == d
  {
    hide Ungrouped;
    var k := |d| - loc.group;
    if k > 0 {
      GroupedReadsBack(d[..k], loc);
      GroupedSome(d[..k], loc);
      UngroupedSnoc(Grouped(d[..k], loc), d[k..], loc);
      assert d[..k] + d[k..] == d;
    } else {
      UngroupedFew(d, loc);
    }
  }

  lemma UngroupedFew(d: string, loc: Locale)
    requires loc.Valid() && |d| <= loc.group
    ensures Ungrouped(d, loc) == d
  {
  }

  lemma GroupedSome(d: string, loc: Locale)
    requires loc.Valid() && d != ""
    ensures Grouped(d, loc) != ""
  {
  }

  lemma GroupedIsInjective(d: string, e: string, loc: Locale)
    requires loc.Valid() && Grouped(d, loc) == Grouped(e, loc)
    ensures d == e
  {
    GroupedReadsBack(d, loc);
    GroupedReadsBack(e, loc);
  }

  /** The texts have no character in common. */
  predicate Apart(t: string, u: string) { forall i, j :: 0 <= i < |t| && 0 <= j < |u| ==> t[i] != u[j] }

  /** The integer part has nothing of the point or the separator in it. */
  predicate Readable(s: string, loc: Locale) {
    Apart(Whole(Unsigned(s)), loc.point) && Apart(Whole(Unsigned(s)), loc.sep)
  }

  /** Separators go, the point becomes a dot and all behind it stays; so does every other character. */
  function Restored(t: string, loc: Locale): (r: string)
    requires loc.Valid()
  {
    if t == "" then ""
    else if loc.point <= t then "." + t[|loc.point|..]
    else if loc.sep <= t then Restored(t[|loc.sep|..], loc)
    else [t[0]] + Restored(t[1..], loc)
  }

  lemma NotFront(c: char, t: string, u: string)
    requires u != "" && c != u[0]
    ensures !(u <= [c] + t)
  {
    assert ([c] + t)[0] == c;
  }

  lemma {:induction false} RestoreDigits(d: string, t: string, loc: Locale)
    requires loc.Valid() && Apart(d, loc.point) && Apart(d, loc.sep)
    ensures Restored(d + t, loc) == d + Restored(t, loc)
  {
    if d == "" {
      Units(t);
      Units(Restored(t, loc));
    } else {
      RestoreDigits(d[1..], t, loc);
      assert d + t == [d[0]] + (d[1..] + t);
      NotFront(d[0], d[1..] + t, loc.point);
      NotFront(d[0], d[1..] + t, loc.sep);
      Behind([d[0]], d[1..] + t);
      Assoc([d[0]], d[1..], Restored(t, loc));
      assert [d[0]] + d[1..] == d;
    }
  }

  lemma PointWithinSep(d: string, t: string, loc: Locale)
    requires d != "" && Apart(d, loc.point) && loc.point <= loc.sep + (d + t)
    ensures loc.point <= loc.sep
  {
    var text := loc.sep + (d + t);
    assert forall k :: 0 <= k < |loc.point| ==> loc.point[k] == text[k] && loc.point[k] != d[0];
    assert text[|loc.sep|] == d[0];
    assert forall k :: 0 <= k < |loc.point| ==> loc.point[k] == loc.sep[k];
  }

  lemma RestoreSep(d: string, t: string, loc: Locale)
    requires loc.Valid() && !(loc.point <= loc.sep) && d != "" && Apart(d, loc.point)
    ensures Restored(loc.sep + (d + t), loc) == Restored(d + t, loc)
  {
    var text := loc.sep + (d + t);
    Behind(loc.sep, d + t);
    if loc.point <= text { PointWithinSep(d, t, loc); }
  }

  lemma {:induction false} RestoreGrouped(d: string, t: string, loc: Locale)
    requires loc.Valid() && !(loc.point <= loc.sep) && Apart(d, loc.point) && Apart(d, loc.sep)
    ensures Restored(Grouped(d, loc) + t, loc) == d + Restored(t, loc)
  {
    hide Restored;
    if |d| <= loc.group {
      RestoreDigits(d, t, loc);
    } else {
      var k := |d| - loc.group;
      var a, b := d[..k], d[k..];
      RestoreGrouped(a, loc.sep + (b + t), loc);
      RestoreSep(b, t, loc);
      RestoreDigits(b, t, loc);
      Assoc(loc.sep, b, t);
      Assoc(Grouped(a, loc), loc.sep + b, t);
      Assoc(a, b, Restored(t, loc));
      assert a + b == d;
    }
  }

  /**
    Without separators and with a dot again, the formatted text is the text it
    was made from: a number, with or without an exponent, or any other value
    whose integer part has nothing of the point or the separator in it.
   */
  lemma FormattedReadsBack(s: string, loc: Locale)
    requires loc.Valid() && Readable(s, loc) && !(loc.point <= loc.sep)
    ensures Formatted(s, loc)[..|Sign(s)|] == Sign(s) && Restored(Formatted(s, loc)[|Sign(s)|..], loc) == Unsigned(s)
  {
    hide Restored, IndexOf;
    var u := Unsigned(s);
    var d, f := Whole(u), Fraction(u, loc.point);
    Behind(Sign(s), Grouped(d, loc) + f);
    RestoreGrouped(d, f, loc);
    RestoreFraction(u, loc);
  }

  lemma RestoreFraction(u: string, loc: Locale)
    requires loc.Valid()
    ensures Whole(u) + Restored(Fraction(u, loc.point), loc) == u
  {
    var i := IndexOf(u, '.');
    if i < |u| {
      Behind(loc.point, u[i + 1..]);
      assert u == u[..i] + ("." + u[i + 1..]);
    }
  }

  lemma SplitAlike(a: string, b: string, c: string, d: string)
    requires a + b == c + d && |a| == |c|
    ensures a == c && b == d
  {
    Behind(a, b);
    Behind(c, d);
  }

  lemma WholeAgain(s: string, loc: Locale)
    requires loc.Valid()
    ensures var u := Unsigned(s);
            s == Sign(s) + u &&
            u == Whole(u) + (if Fraction(u, loc.point) == "" then "" else "." + Fraction(u, loc.point)[|loc.point|..])
  {
    var u := Unsigned(s);
    var i := IndexOf(u, '.');
    if i < |u| { Behind(loc.point, u[i + 1..]); }
  }

  /** Texts of any kind, money amounts too, with as much behind the point are never formatted alike. */
  lemma FormattedIsInjective(s: string, t: string, loc: Locale)
    requires loc.Valid() && Formatted(s, loc) == Formatted(t, loc) && |Sign(s)| == |Sign(t)|
    requires |Fraction(Unsigned(s), loc.point)| == |Fraction(Unsigned(t), loc.point)|
    ensures s == t
  {
    hide IndexOf, Grouped, Fraction, Whole;
    var u, v := Unsigned(s), Unsigned(t);
    SplitAlike(Sign(s), Grouped(Whole(u), loc) + Fraction(u, loc.point),
               Sign(t), Grouped(Whole(v), loc) + Fraction(v, loc.point));
    SplitAlike(Grouped(Whole(u), loc), Fraction(u, loc.point), Grouped(Whole(v), loc), Fraction(v, loc.point));
    GroupedIsInjective(Whole(u), Whole(v), loc);
    WholeAgain(s, loc);
    WholeAgain(t, loc);
  }

  lemma DigitsFormatted(d: string, loc: Locale)
    requires loc.Valid() && d != "" && AllDigits(d)
    ensures Unsigned(d) == d && Whole(d) == d && Formatted(d, loc) == Grouped(d, loc)
  {
    hide Grouped;
    IndexIs(d, '.', |d|);
    assert d[..|d|] == d;
    Units(Grouped(d, loc));
  }

  lemma PointFormatted(d: string, more: string, loc: Locale)
    requires loc.Valid() && d != "" && AllDigits(d)
    ensures var u := d + ("." + more);
            Unsigned(u) == u && Whole(u) == d && Formatted(u, loc) == Grouped(d, loc) + (loc.point + more)
  {
    hide Grouped;
    var u := d + ("." + more);
    IndexIs(u, '.', |d|);
    Behind(d, "." + more);
    assert u[|d| + 1..] == more && u[0] == d[0];
    Units(Grouped(d, loc) + (loc.point + more));
  }

  lemma IndexIs(s: string, c: char, i: nat)
    requires i <= |s| && (i < |s| ==> s[i] == c) && forall j :: 0 <= j < i ==> s[j] != c
    ensures IndexOf(s, c) == i
  {
  }

  /** The characters 0 and 1 are neither in the point nor in the separator. */
  predicate NoZeroOne(loc: Locale) { Apart("01", loc.point) && Apart("01", loc.sep) }

  /** A separator that starts with the point makes two numbers look the same. */
  lemma PointInSepIsAmbiguous(loc: Locale) returns (a: string, b: string)
    requires loc.Valid() && loc.point <= loc.sep
    ensures a != b && AllDigits(Whole(Unsigned(a))) && AllDigits(Whole(Unsigned(b)))
    ensures Formatted(a, loc) == Formatted(b, loc)
    ensures NoZeroOne(loc) ==> Readable(a, loc) && Readable(b, loc)
  {
    hide Formatted, Grouped;
    var zeros := seq(loc.group, _ => '0');
    var tail := loc.sep[|loc.point|..];
    a, b := "1" + zeros, "1" + ("." + (tail + zeros));
    DigitsFormatted(a, loc);
    PointFormatted("1", tail + zeros, loc);
    assert a[1] != b[1];
    OneGroup(zeros, loc);
    Assoc(loc.point, tail, zeros);
    assert loc.point + tail == loc.sep;
    if NoZeroOne(loc) {
      ZerosApart(zeros, loc.point);
      ZerosApart(zeros, loc.sep);
    }
  }

  lemma OneGroup(zeros: string, loc: Locale)
    requires loc.Valid() && |zeros| == loc.group
    ensures Grouped("1", loc) == "1" && Grouped("1" + zeros, loc) == "1" + (loc.sep + zeros)
  {
    Behind("1", zeros);
    assert Grouped(("1" + zeros)[..1], loc) == "1";
  }

  lemma ZerosApart(zeros: string, u: string)
    requires Apart("01", u) && forall i :: 0 <= i < |zeros| ==> zeros[i] == '0'
    ensures Apart("1" + zeros, u) && Apart("1", u)
  {
    assert forall j :: 0 <= j < |u| ==> "01"[0] != u[j] && "01"[1] != u[j];
  }

  // ---------------------------------------------------------------------
  // The code

  predicate SepAt(i: nat, n: nat, g: nat)
    requires g >= 1 && i <= n
  {
    i != 0 && (n - i) % g == 0
  }

  lemma NoSepNear(i: nat, n: nat, g: nat)
    requires i < n && (n - i < g || i == 0) && g >= 1
    ensures !SepAt(i, n, g)
  {
  }

  lemma SepThere(n: nat, g: nat)
    requires n > g >= 1
    ensures SepAt(n - g, n, g)
  {
  }

  lemma SepShift(i: nat, n: nat, g: nat)
    requires g >= 1 && i + g <= n
    ensures SepAt(i, n, g) == SepAt(i, n - g, g)
  {
    GroupMore(n - i, g);
  }

  /** The first i of n digits, as they are written from left to right. */
  function Written(d: string, i: nat, n: nat, loc: Locale): (r: string)
    requires loc.Valid() && i <= |d| && i <= n
  {
    if i == 0 then ""
    else Written(d, i - 1, n, loc) + ((if SepAt(i - 1, n, loc.group) then loc.sep else "") + [d[i - 1]])
  }

  lemma {:induction false} WrittenNear(d: string, i: nat, n: nat, loc: Locale)
    requires loc.Valid() && i <= |d| && i <= n <= loc.group
    ensures Written(d, i, n, loc) == d[..i]
  {
    hide SepAt;
    if i > 0 {
      WrittenNear(d, i - 1, n, loc);
      NoSepNear(i - 1, n, loc.group);
    }
  }

  /** A whole group fewer to come makes no difference. */
  lemma {:induction false} WrittenShift(d: string, i: nat, n: nat, loc: Locale)
    requires loc.Valid() && i <= |d| && i + loc.group <= n
    ensures Written(d, i, n, loc) == Written(d, i, n - loc.group, loc)
  {
    hide SepAt;
    if i > 0 {
      WrittenShift(d, i - 1, n, loc);
      SepShift(i - 1, n, loc.group);
    }
  }

  lemma {:induction false} WrittenPrefix(d: string, i: nat, m: nat, n: nat, loc: Locale)
    requires loc.Valid() && i <= m <= |d| && i <= n
    ensures Written(d[..m], i, n, loc) == Written(d, i, n, loc)
  {
    if i > 0 { WrittenPrefix(d, i - 1, m, n, loc); }
  }

  /** The digits of the last group, behind a separator. */
  lemma {:induction false} WrittenLast(d: string, i: nat, n: nat, loc: Locale)
    requires loc.Valid() && n == |d| && loc.group < n && n - loc.group < i <= n
    ensures Written(d, i, n, loc) == Written(d, n - loc.group, n, loc) + (loc.sep + d[n - loc.group..i])
  {
    hide SepAt;
    var g, k := loc.group, n - loc.group;
    if i == k + 1 {
      SepThere(n, g);
      assert d[k..i] == [d[k]];
    } else {
      WrittenLast(d, i - 1, n, loc);
      NoSepNear(i - 1, n, g);
      assert d[k..i] == d[k..i - 1] + [d[i - 1]];
      Assoc(loc.sep, d[k..i - 1], [d[i - 1]]);
      Assoc(Written(d, k, n, loc), loc.sep + d[k..i - 1], [d[i - 1]]);
      Units([d[i - 1]]);
    }
  }

  /** Written from left to right, the groups are those counted from the right. */
  lemma {:induction false} WrittenIsGrouped(d: string, loc: Locale)
    requires loc.Valid()
    ensures Written(d, |d|, |d|, loc) == Grouped(d, loc)
  {
    hide Written;
    var n, g := |d|, loc.group;
    if n <= g {
      WrittenNear(d, n, n, loc);
    } else {
      WrittenLast(d, n, n, loc);
      WrittenShift(d, n - g, n, loc);
      WrittenPrefix(d, n - g, n - g, n - g, loc);
      WrittenIsGrouped(d[..n - g], loc);
    }
    assert d[..n] == d && d[n..n] == "";
  }

  lemma Flip(x: int, y: int, q: int, g: nat)
    requires g >= 1 && x + y == q * g && x % g == 0
    ensures y % g == 0
  {
    assert x == (x / g) * g;
    assert y == (q - x / g) * g;
    DivMod(y, g, q - x / g, 0);
  }

  /** Counting from the leading digits finds the same places as counting from the right. */
  lemma LeadingDigits(i: nat, n: nat, g: nat)
    requires g >= 1 && i <= n
    ensures var leading := if n % g != 0 then n % g else g;
            (i - leading) % g == 0 <==> (n - i) % g == 0
  {
    var leading, q := if n % g != 0 then n % g else g, if n % g != 0 then n / g else n / g - 1;
    assert n == q * g + leading;
    if (i - leading) % g == 0 { Flip(i - leading, n - i, q, g); }
    if (n - i) % g == 0 { Flip(n - i, i - leading, q, g); }
  }

  method IntegerDigitsOf(s: string) returns (n: nat)
    ensures n == IntegerDigits(s)
  {
    var from := if s != "" && s[0] == '-' then 1 else 0;
    n := 0;
    while from + n < |s| && s[from + n] != '.'
      invariant from + n <= |s| && forall j :: 0 <= j < n ==> Unsigned(s)[j] != '.'
    {
      n := n + 1;
    }
    IndexIs(Unsigned(s), '.', n);
  }

  /** The digits of the integer part, with separators. */
  method PutDigits(a: array<char>, from: nat, d: string, loc: Locale, ghost done: string) returns (j: nat)
    requires loc.Valid() && |done| == from && HasBytes(a, 0, done) && from + |Grouped(d, loc)| <= a.Length
    modifies a
    ensures HasBytes(a, 0, done + Grouped(d, loc)) && j == from + |Grouped(d, loc)|
  {
    hide Written, Grouped, HasBytes;
    var n, g := |d|, loc.group;
    var leading := if n % g != 0 then n % g else g;
    j := from;
    var i := 0;
    NothingWritten(d, loc, done);
    WrittenIsGrouped(d, loc);
    while i < n
      invariant i <= n && j == from + |Written(d, i, n, loc)| && HasBytes(a, 0, done + Written(d, i, n, loc))
    {
      WrittenMore(d, i, loc);
      LeadingDigits(i, n, g);
      ghost var w := Written(d, i, n, loc);
      var piece := [d[i]];
      if i != 0 && (i - leading) % g == 0 { piece := loc.sep + piece; }
      Assoc(done, w, piece);
      j := Append(a, j, piece, 0, done + w);
      i := i + 1;
    }
  }

  lemma NothingWritten(d: string, loc: Locale, done: string)
    requires loc.Valid()
    ensures Written(d, 0, |d|, loc) == "" && done + "" == done
  {
  }

  /** One digit more, and no longer than the whole. */
  lemma WrittenMore(d: string, i: nat, loc: Locale)
    requires loc.Valid() && i < |d|
    ensures Written(d, i + 1, |d|, loc) ==
            Written(d, i, |d|, loc) + (if i != 0 && (|d| - i) % loc.group == 0 then loc.sep + [d[i]] else [d[i]])
    ensures |Written(d, i + 1, |d|, loc)| <= |Grouped(d, loc)|
  {
    Units([d[i]]);
    WrittenIsGrouped(d, loc);
    WrittenGrows(d, i + 1, |d|, loc);
  }

  lemma {:induction false} WrittenGrows(d: string, i: nat, m: nat, loc: Locale)
    requires loc.Valid() && i <= m <= |d|
    ensures |Written(d, i, |d|, loc)| <= |Written(d, m, |d|, loc)|
    decreases m
  {
    if i < m { WrittenGrows(d, i, m - 1, loc); }
  }

  lemma FormattedParts(s: string, loc: Locale, n: nat)
    requires loc.Valid() && n == IntegerDigits(s)
    ensures var u := Unsigned(s);
            Formatted(s, loc) ==
            Sign(s) + Grouped(u[..n], loc) + (if n < |u| then loc.point + u[n + 1..] else "")
  {
  }

  method PutSign(a: array<char>, s: string) returns (j: nat, u: string)
    requires a.Length > |Sign(s)|
    modifies a
    ensures HasBytes(a, 0, Sign(s)) && j == |Sign(s)| && u == Unsigned(s)
  {
    j, u := 0, s;
    if s != "" && s[0] == '-' {
      a[0] := '-';
      j, u := 1, s[1..];
    }
  }

  method PutNul(a: array<char>, j: nat, ghost done: string)
    requires HasBytes(a, 0, done) && NoNul(done) && j == |done| < a.Length
    modifies a
    ensures HasText(a, 0, done)
  {
    a[j] := '\0';
  }

  /** The new string is exactly as long as was allocated for it, and is the formatted text. */
  method FormatNumericLocale(s: string, loc: Locale) returns (a: array<char>)
    requires loc.Valid() && NoNul(s)
    ensures HasText(a, 0, Formatted(s, loc)) && a.Length == |Formatted(s, loc)| + 1
  {
    hide Grouped, IndexOf, Formatted, StrlenWithNumericLocale, HasBytes, HasText;
    LengthIsExact(s, loc);
    FormattedNoNul(s, loc);
    var n := IntegerDigitsOf(s);
    FormattedParts(s, loc, n);
    a := new char[StrlenWithNumericLocale(s, loc) + 1];
    var j, u := PutSign(a, s);
    j := PutDigits(a, j, u[..n], loc, Sign(s));
    j := Append(a, j, if n < |u| then loc.point + u[n + 1..] else "", 0, Sign(s) + Grouped(u[..n], loc));
    PutNul(a, j, Formatted(s, loc));
  }

  lemma {:induction false} GroupedNoNul(d: string, loc: Locale)
    requires loc.Valid() && NoNul(d)
    ensures NoNul(Grouped(d, loc))
  {
    if |d| > loc.group { GroupedNoNul(d[..|d| - loc.group], loc); }
  }

  lemma FormattedNoNul(s: string, loc: Locale)
    requires loc.Valid() && NoNul(s)
    ensures NoNul(Formatted(s, loc))
  {
    hide Grouped, IndexOf;
    GroupedNoNul(Whole(Unsigned(s)), loc);
  }
}
