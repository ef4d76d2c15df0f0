/** C text in a character buffer. */
module Buffers {

  predicate Lacks<T(==)>(s: seq<T>, x: T) { forall i :: 0 <= i < |s| ==> s[i] != x }

  /** The elements from a[p] on are those of t. */
  predicate HasBytes<T(==)>(a: array<T>, p: nat, t: seq<T>)
    reads a
  {
    p + |t| <= a.Length && forall i :: p <= i < p + |t| ==> a[i] == t[i - p]
  }

  /** The text t stands at a[p], with the nul behind it and nowhere in it. */
  predicate HasEnded<T(==)>(a: array<T>, p: nat, t: seq<T>, nul: T)
    reads a
  {
    Lacks(t, nul) && HasBytes(a, p, t) && p + |t| < a.Length && a[p + |t|] == nul
  }

  predicate NoNul(s: string) { Lacks(s, '\0') }

  /** The NUL-terminated text t stands at a[p]. */
  predicate HasText(a: array<char>, p: nat, t: string)
    reads a
  {
    HasEnded(a, p, t, '\0')
  }

  /** Two states of a buffer agree outside [lo, hi). */
  twostate predicate SameOutside(a: array<char>, lo: nat, hi: nat)
    reads a
  {
    forall i :: 0 <= i < a.Length && !(lo <= i < hi) ==> a[i] == old(a[i])
  }

  /** What the first two bytes of a text in a buffer are. */
  lemma TextStarts(a: array<char>, p: nat, t: string)
    requires HasText(a, p, t) && t != ""
    ensures a[p] == t[0] && p + 1 < a.Length
    ensures if |t| > 1 then a[p + 1] == t[1] && t[1] != '\0' else a[p + 1] == '\0'
  {
  }

  lemma TextAt(a: array<char>, p: nat, t: string, k: nat)
    requires HasText(a, p, t) && k <= |t|
    ensures p + k < a.Length && a[p + k] == (if k < |t| then t[k] else '\0') && (a[p + k] == '\0' <==> k == |t|)
  {
  }

  lemma TextFrom(a: array<char>, p: nat, t: string, k: nat)
    requires HasText(a, p, t) && k <= |t|
    ensures HasText(a, p + k, t[k..])
  {
  }

  /** Writes a piece of text behind what is done. */
  method Append(a: array<char>, at: nat, piece: string, ghost start: nat, ghost done: string) returns (end: nat)
    requires start + |done| == at && HasBytes(a, start, done) && at + |piece| <= a.Length
    modifies a
    ensures end == at + |piece| && HasBytes(a, start, done + piece) && SameOutside(a, at, end)
  {
    end := at;
    for i := 0 to |piece|
      invariant end == at + i && HasBytes(a, start, done) && SameOutside(a, at, end)
      invariant forall j :: at <= j < end ==> a[j] == piece[j - at]
    {
      a[end] := piece[i];
      end := end + 1;
    }
  }

  method Strlen(a: array<char>, p: nat, ghost t: string) returns (n: nat)
    requires HasText(a, p, t)
    ensures n == |t|
  {
    n := 0;
    while a[p + n] != '\0'
      invariant 0 <= n <= |t|
      decreases |t| - n
    {
      n := n + 1;
    }
  }
}
