/** Small shared definitions: optional values and the C text primitives. */
module Basics {

  datatype Option<+T> = None | Some(value: T) {
    predicate IsFailure() { None? }
    function PropagateFailure<U>(): (r: Option<U>)
      requires None?
    {
      None
    }
    function Extract(): (r: T)
      requires Some?
    {
      value
    }
  }

  /** strchr as an index: the first place of c in s, or |s| when it is absent. */
  function IndexOf(s: string, c: char): (i: nat)
    ensures i <= |s|
    ensures i < |s| ==> s[i] == c
    ensures forall j :: 0 <= j < i ==> s[j] != c
  {
    if s == "" then 0
    else if s[0] == c then 0
    else 1 + IndexOf(s[1..], c)
  }

  // ASCII letters
  predicate Upper(c: char) { 'A' <= c <= 'Z' }
  function Lower(c: char): char { if Upper(c) then c + ('a' - 'A') else c }

  function Folded(w: string): (r: string)
    ensures |r| == |w|
  {
    seq(|w|, i requires 0 <= i < |w| => Lower(w[i]))
  }

  function Spaces(n: nat): (r: string)
    ensures |r| == n
  {
    seq(n, _ => ' ')
  }

  // Facts about sequences that keep larger proofs small

  lemma Assoc<T>(a: seq<T>, b: seq<T>, c: seq<T>)
    ensures a + b + c == a + (b + c)
  {
  }

  lemma Behind<T>(a: seq<T>, b: seq<T>)
    ensures (a + b)[..|a|] == a && (a + b)[|a|..] == b
  {
  }

  lemma Units<T>(a: seq<T>)
    ensures [] + a == a && a + [] == a
  {
  }

  /** Quotient and remainder are unique. */
  lemma DivMod(a: int, n: nat, q: int, r: nat)
    requires a == q * n + r && r < n
    ensures a / n == q && a % n == r
  {
    var d := q - a / n;
    assert d * n == a % n - r;
    assert d >= 1 ==> d * n >= n;
    assert d <= -1 ==> d * n <= 0 - n;
  }
}
