/**
  What the text tools assume of a client encoding.  PQmblen is a function of the
  text at a position: the length in bytes of the character that starts there.
  A character cut off by the end of the text is taken to end there.
 */
module Encoding {

  type Mblen = string -> nat

  function CharLen(mblen: Mblen, s: string): (n: nat)
    requires s != ""
    ensures 1 <= n <= |s|
  {
    if mblen(s) < 1 then 1 else if mblen(s) <= |s| then mblen(s) else |s|
  }

  predicate Ascii(c: char) { 0 < c as int < 128 }

  /**
    An encoding that extends ASCII: an ASCII byte where a character starts is
    that character, and a character is recognised by its own bytes alone.
   */
  ghost predicate Extends(mblen: Mblen) {
    && (forall t :: t != "" ==> mblen(t) >= 1)
    && (forall t :: t != "" && Ascii(t[0]) ==> mblen(t) == 1)
    && (forall t, u :: t != "" && mblen(t) <= |t| ==> mblen(t[..mblen(t)] + u) == mblen(t))
  }

  /** The text is a sequence of complete characters. */
  ghost predicate WellFormed(mblen: Mblen, s: string)
    decreases |s|
  {
    s == "" || (mblen(s) <= |s| && WellFormed(mblen, s[CharLen(mblen, s)..]))
  }

  /** A complete character stays what it is whatever follows it. */
  lemma CharThere(mblen: Mblen, s: string, u: string)
    requires Extends(mblen) && s != "" && mblen(s) <= |s|
    ensures var m := CharLen(mblen, s); CharLen(mblen, s[..m] + u) == m
  {
  }

  lemma AsciiChar(mblen: Mblen, s: string)
    requires Extends(mblen) && s != "" && Ascii(s[0])
    ensures CharLen(mblen, s) == 1
  {
  }

  /** How far a loop gets that steps by PQmblen until it stands at or behind the end of the text. */
  function Stepped(mblen: Mblen, s: string): (n: nat)
    decreases |s|
  {
    if s == "" then 0
    else if mblen(s) > |s| then mblen(s)
    else CharLen(mblen, s) + Stepped(mblen, s[CharLen(mblen, s)..])
  }

  /** It stops at the end exactly when all characters are complete, and otherwise steps past it. */
  lemma {:induction false} StepsStayInside(mblen: Mblen, s: string)
    ensures Stepped(mblen, s) >= |s|
    ensures Stepped(mblen, s) == |s| <==> WellFormed(mblen, s)
    decreases |s|
  {
    hide CharLen;
    if s != "" && mblen(s) <= |s| { StepsStayInside(mblen, s[CharLen(mblen, s)..]); }
  }
}
