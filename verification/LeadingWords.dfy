/**
  skip_white_space, command_no_begin and is_select_command of
  tools/pg_psql/common.cpp: which commands must not be preceded by BEGIN, and
  which may be run through a cursor, whatever comments stand in front of and
  between their words.
 */
module LeadingWords {
  import opened Basics
  import opened Encoding

  // The C locale's character classes
  predicate IsSpace(c: char) { c == ' ' || '\t' <= c <= '\r' }
  predicate IsAlpha(c: char) { 'a' <= c <= 'z' || 'A' <= c <= 'Z' }

  /** The text starts with the two bytes a and b. */
  predicate Starts(q: string, a: char, b: char) { |q| >= 2 && q[0] == a && q[1] == b }

  // ---------------------------------------------------------------------
  // Skipping

  /** What is left behind the end of the line. */
  function LineEnd(q: string, mblen: Mblen): (r: string)
    ensures |r| <= |q|
    decreases |q|
  {
    if q == "" then ""
    else if q[0] == '\n' then q[1..]
    else LineEnd(q[CharLen(mblen, q)..], mblen)
  }

  /** What is left behind white space and comments, from inside `depth` open comments. */
  function Skip(q: string, depth: nat, mblen: Mblen): (r: string)
    ensures |r| <= |q|
    decreases |q|
  {
    if q == "" then ""
    else if IsSpace(q[0]) then Skip(q[CharLen(mblen, q)..], depth, mblen)
    else if Starts(q, '/', '*') then Skip(q[2..], depth + 1, mblen)
    else if depth > 0 && Starts(q, '*', '/') then Skip(q[2..], depth - 1, mblen)
    else if depth == 0 && Starts(q, '-', '-') then Skip(LineEnd(q[2..], mblen), 0, mblen)
    else if depth > 0 then Skip(q[CharLen(mblen, q)..], depth, mblen)
    else q
  }

  // ---------------------------------------------------------------------
  // Separators, as a grammar

  /** A piece of a bracketed comment: one character, or another comment. */
  datatype Piece = Char(text: string) | Nested(body: seq<Piece>)

  datatype Separator = Space(c: char) | Line(text: string) | Block(body: seq<Piece>)

  function BodyText(body: seq<Piece>): (r: string) {
    if body == [] then ""
    else (match body[0] case Char(t) => t case Nested(b) => "/*" + (BodyText(b) + "*/")) + BodyText(body[1..])
  }

  function SeparatorText(s: Separator): (r: string) {
    match s
    case Space(c) => [c]
    case Line(t) => "--" + (t + "\n")
    case Block(b) => "/*" + (BodyText(b) + "*/")
  }

  function SeparatorsText(ss: seq<Separator>): (r: string) {
    if ss == [] then "" else SeparatorText(ss[0]) + SeparatorsText(ss[1..])
  }

  /** One complete character. */
  predicate OneChar(t: string, mblen: Mblen) { t != "" && mblen(t) == |t| }

  predicate Bracket(q: string) { Starts(q, '/', '*') || Starts(q, '*', '/') }

  /** The characters of the comment are complete and none of them makes a bracket with what follows. */
  predicate ProperBody(body: seq<Piece>, mblen: Mblen) {
    body == [] ||
    (&& (match body[0]
         case Char(t) => OneChar(t, mblen) && !Bracket(t + (BodyText(body[1..]) + "*/"))
         case Nested(b) => ProperBody(b, mblen))
     && ProperBody(body[1..], mblen))
  }

  /** Complete characters, none of them a newline. */
  predicate LineText(t: string, mblen: Mblen)
    decreases |t|
  {
    t == "" || (mblen(t) <= |t| && t[0] != '\n' && LineText(t[CharLen(mblen, t)..], mblen))
  }

  predicate Proper(s: Separator, mblen: Mblen) {
    match s
    case Space(c) => IsSpace(c)
    case Line(t) => LineText(t, mblen)
    case Block(b) => ProperBody(b, mblen)
  }

  predicate AllProper(ss: seq<Separator>, mblen: Mblen) {
    forall i :: 0 <= i < |ss| ==> Proper(ss[i], mblen)
  }

  // One step of skipping

  lemma CharIs(t: string, rest: string, mblen: Mblen)
    requires Extends(mblen) && OneChar(t, mblen)
    ensures CharLen(mblen, t + rest) == |t|
  {
    CharThere(mblen, t, rest);
    assert t[..|t|] == t;
  }

  lemma SkipSpace(c: char, rest: string, depth: nat, mblen: Mblen)
    requires Extends(mblen) && IsSpace(c)
    ensures Skip([c] + rest, depth, mblen) == Skip(rest, depth, mblen)
  {
  }

  lemma SkipOpen(rest: string, depth: nat, mblen: Mblen)
    ensures Skip("/*" + rest, depth, mblen) == Skip(rest, depth + 1, mblen)
  {
  }

  lemma SkipClose(rest: string, depth: nat, mblen: Mblen)
    ensures Skip("*/" + rest, depth + 1, mblen) == Skip(rest, depth, mblen)
  {
  }

  lemma SkipChar(t: string, rest: string, depth: nat, mblen: Mblen)
    requires Extends(mblen) && OneChar(t, mblen) && !Bracket(t + rest)
    ensures Skip(t + rest, depth + 1, mblen) == Skip(rest, depth + 1, mblen)
  {
    CharIs(t, rest, mblen);
    Behind(t, rest);
  }

  lemma {:induction false} LineEnds(t: string, rest: string, mblen: Mblen)
    requires Extends(mblen) && LineText(t, mblen)
    ensures LineEnd(t + ("\n" + rest), mblen) == rest
    decreases |t|
  {
    if t == "" {
      Units("\n" + rest);
      Behind("\n", rest);
    } else {
      var m := CharLen(mblen, t);
      CharThere(mblen, t, t[m..] + ("\n" + rest));
      assert t + ("\n" + rest) == t[..m] + (t[m..] + ("\n" + rest));
      LineEnds(t[m..], rest, mblen);
    }
  }

  lemma SkipLine(t: string, rest: string, mblen: Mblen)
    requires Extends(mblen) && LineText(t, mblen)
    ensures Skip("--" + (t + ("\n" + rest)), 0, mblen) == Skip(rest, 0, mblen)
  {
    LineEnds(t, rest, mblen);
    Behind("--", t + ("\n" + rest));
  }

  // ---------------------------------------------------------------------
  // Separators are skipped

  /** A comment's text and its closing bracket are skipped, at any depth. */
  lemma {:induction false} SkipBody(body: seq<Piece>, rest: string, depth: nat, mblen: Mblen)
    requires Extends(mblen) && ProperBody(body, mblen)
    ensures Skip(BodyText(body) + ("*/" + rest), depth + 1, mblen) == Skip(rest, depth, mblen)
    decreases body
  {
    hide Skip, Extends;
    if body == [] {
      Units("*/" + rest);
      SkipClose(rest, depth, mblen);
    } else {
      var tail := BodyText(body[1..]) + ("*/" + rest);
      SkipBody(body[1..], rest, depth, mblen);
      match body[0]
      case Char(t) =>
        Assoc(t, BodyText(body[1..]), "*/" + rest);
        SameStart(t, BodyText(body[1..]) + "*/", rest);
        Assoc(BodyText(body[1..]), "*/", rest);
        SkipChar(t, tail, depth, mblen);
      case Nested(b) =>
        SkipBody(b, tail, depth + 1, mblen);
        SkipOpen(BodyText(b) + ("*/" + tail), depth + 1, mblen);
        Rejoin("/*", BodyText(b), "*/", BodyText(body[1..]), "*/" + rest);
    }
  }

  lemma SameStart(t: string, more: string, rest: string)
    requires t != "" && more != ""
    ensures Bracket(t + more) == Bracket(t + (more + rest))
  {
  }

  lemma Rejoin(a: string, b: string, c: string, d: string, e: string)
    ensures a + (b + c) + d + e == a + (b + (c + (d + e)))
  {
  }

  lemma SkipSeparator(s: Separator, rest: string, mblen: Mblen)
    requires Extends(mblen) && Proper(s, mblen)
    ensures Skip(SeparatorText(s) + rest, 0, mblen) == Skip(rest, 0, mblen)
  {
    hide Skip, Extends, BodyText, ProperBody, LineText;
    match s
    case Space(c) =>
      SkipSpace(c, rest, 0, mblen);
    case Line(t) =>
      SkipLine(t, rest, mblen);
      Rejoin("", "--", t, "\n", rest);
      assert "--" + (t + "\n") + rest == "--" + (t + ("\n" + rest));
    case Block(b) =>
      SkipBody(b, rest, 0, mblen);
      SkipOpen(BodyText(b) + ("*/" + rest), 0, mblen);
      assert "/*" + (BodyText(b) + "*/") + rest == "/*" + (BodyText(b) + ("*/" + rest));
  }

  /** Any white space and comments in front of a text are skipped. */
  lemma {:induction false} SkipSeparators(ss: seq<Separator>, rest: string, mblen: Mblen)
    requires Extends(mblen) && AllProper(ss, mblen)
    ensures Skip(SeparatorsText(ss) + rest, 0, mblen) == Skip(rest, 0, mblen)
  {
    hide Skip, Extends, SeparatorText, Proper;
    if ss == [] {
      Units(rest);
    } else {
      SkipSeparators(ss[1..], rest, mblen);
      SkipSeparator(ss[0], SeparatorsText(ss[1..]) + rest, mblen);
      Assoc(SeparatorText(ss[0]), SeparatorsText(ss[1..]), rest);
    }
  }

  // ---------------------------------------------------------------------
  // Nothing else is skipped

  /** The text is at its end or at something that is no separator. */
  predicate AtToken(q: string) {
    q == "" || !(IsSpace(q[0]) || Starts(q, '/', '*') || Starts(q, '-', '-'))
  }

  lemma TokenStays(q: string, mblen: Mblen)
    requires AtToken(q)
    ensures Skip(q, 0, mblen) == q
  {
  }

  lemma {:induction false} SkipReachesToken(q: string, depth: nat, mblen: Mblen)
    ensures AtToken(Skip(q, depth, mblen))
    ensures Skip(Skip(q, depth, mblen), 0, mblen) == Skip(q, depth, mblen)
    decreases |q|
  {
    if q != "" {
      if IsSpace(q[0]) {
        SkipReachesToken(q[CharLen(mblen, q)..], depth, mblen);
      } else if Starts(q, '/', '*') {
        SkipReachesToken(q[2..], depth + 1, mblen);
      } else if depth > 0 && Starts(q, '*', '/') {
        SkipReachesToken(q[2..], depth - 1, mblen);
      } else if depth == 0 && Starts(q, '-', '-') {
        SkipReachesToken(LineEnd(q[2..], mblen), 0, mblen);
      } else if depth > 0 {
        SkipReachesToken(q[CharLen(mblen, q)..], depth, mblen);
      }
    }
  }

  lemma CharAt(q: string, mblen: Mblen) returns (t: string)
    requires Extends(mblen) && q != ""
    ensures t == q[..CharLen(mblen, q)] && q == t + q[|t|..] && 0 < |t| <= |q|
    ensures OneChar(t, mblen) || t == q
  {
    t := q[..CharLen(mblen, q)];
    Units(t);
    assert mblen(q) <= |q| ==> mblen(q[..mblen(q)] + "") == mblen(q);
  }

  lemma NestedFirst(b: seq<Piece>, more: seq<Piece>, rest: string, mblen: Mblen)
    requires ProperBody(b, mblen) && ProperBody(more, mblen)
    ensures ProperBody([Nested(b)] + more, mblen)
    ensures BodyText([Nested(b)] + more) + ("*/" + rest) ==
            "/*" + (BodyText(b) + ("*/" + (BodyText(more) + ("*/" + rest))))
  {
  }

  lemma CharFirst(t: string, more: seq<Piece>, rest: string, mblen: Mblen)
    requires OneChar(t, mblen) && ProperBody(more, mblen) && !Bracket(t + (BodyText(more) + ("*/" + rest)))
    ensures ProperBody([Char(t)] + more, mblen)
    ensures BodyText([Char(t)] + more) + ("*/" + rest) == t + (BodyText(more) + ("*/" + rest))
  {
  }

  /** The text inside a comment, read up to its closing bracket if there is one. */
  lemma {:induction false} ReadBody(q: string, depth: nat, mblen: Mblen)
    returns (closed: bool, body: seq<Piece>, rest: string)
    requires Extends(mblen)
    ensures closed ==> q == BodyText(body) + ("*/" + rest) && ProperBody(body, mblen)
    ensures !closed ==> Skip(q, depth + 1, mblen) == ""
    decreases |q|
  {
    hide Skip, Extends, BodyText, ProperBody, CharLen;
    closed, body, rest := false, [], "";
    if Starts(q, '*', '/') {
      assert q == "*/" + q[2..];
      Units(q);
      NoBody(mblen);
      closed, rest := true, q[2..];
    } else if Starts(q, '/', '*') {
      assert q == "/*" + q[2..];
      SkipOpen(q[2..], depth + 1, mblen);
      var inner, b, q' := ReadBody(q[2..], depth + 1, mblen);
      if inner {
        SkipBody(b, q', depth + 1, mblen);
        closed, body, rest := ReadBody(q', depth, mblen);
        if closed {
          NestedFirst(b, body, rest, mblen);
          body := [Nested(b)] + body;
        }
      }
    } else if q != "" {
      var t := CharAt(q, mblen);
      SkipInside(q, t, depth, mblen);
      closed, body, rest := ReadBody(q[|t|..], depth, mblen);
      if closed {
        CharFirst(t, body, rest, mblen);
        body := [Char(t)] + body;
      }
    } else {
      SkipNothing(depth + 1, mblen);
    }
  }

  lemma NoBody(mblen: Mblen)
    ensures BodyText([]) == "" && ProperBody([], mblen)
  {
  }

  lemma SkipNothing(depth: nat, mblen: Mblen)
    ensures Skip("", depth, mblen) == ""
  {
  }

  lemma SkipInside(q: string, t: string, depth: nat, mblen: Mblen)
    requires q != "" && !Bracket(q) && t == q[..CharLen(mblen, q)]
    ensures Skip(q, depth + 1, mblen) == Skip(q[|t|..], depth + 1, mblen)
  {
  }

  /** A line comment, read up to its newline if there is one. */
  lemma {:induction false} ReadLine(q: string, mblen: Mblen) returns (closed: bool, text: string)
    requires Extends(mblen)
    ensures closed ==> q == text + ("\n" + LineEnd(q, mblen)) && LineText(text, mblen)
    ensures !closed ==> LineEnd(q, mblen) == ""
    decreases |q|
  {
    closed, text := false, "";
    if q != "" {
      if q[0] == '\n' {
        closed := true;
      } else {
        var t := CharAt(q, mblen);
        closed, text := ReadLine(q[|t|..], mblen);
        if closed {
          CharIs(t, text, mblen);
          Assoc(t, text, "\n" + LineEnd(q, mblen));
          Behind(t, text);
          text := t + text;
        }
      }
    }
  }

  /** A comment that is never closed. */
  predicate Open(q: string) { Starts(q, '/', '*') || Starts(q, '-', '-') }

  /** Every text is separators, then what is left of it by skipping, or a comment that is never closed. */
  lemma {:induction false} SkippedIsSeparators(q: string, mblen: Mblen) returns (ss: seq<Separator>, tail: string)
    requires Extends(mblen)
    ensures AllProper(ss, mblen) && q == SeparatorsText(ss) + tail
    ensures tail == Skip(q, 0, mblen) || (Open(tail) && Skip(q, 0, mblen) == "")
    decreases |q|
  {
    hide Skip, Extends, Proper, SeparatorText, AtToken;
    ss, tail := [], q;
    Units(q);
    if AtToken(q) {
      TokenStays(q, mblen);
    } else {
      var closed, s, rest := ReadSeparator(q, mblen);
      if closed {
        ss, tail := SkippedIsSeparators(rest, mblen);
        SkipSeparator(s, rest, mblen);
        Behind([s], ss);
        Assoc(SeparatorText(s), SeparatorsText(ss), tail);
        ss := [s] + ss;
      }
    }
  }

  lemma SkipDashes(q: string, mblen: Mblen)
    requires Starts(q, '-', '-')
    ensures LineEnd(q[2..], mblen) == "" ==> Skip(q, 0, mblen) == ""
  {
  }

  lemma ReadSeparator(q: string, mblen: Mblen) returns (closed: bool, s: Separator, rest: string)
    requires Extends(mblen) && !AtToken(q)
    ensures closed ==> Proper(s, mblen) && q == SeparatorText(s) + rest && |rest| < |q|
    ensures !closed ==> Open(q) && Skip(q, 0, mblen) == ""
  {
    hide Skip, Extends, BodyText, ProperBody, LineText, LineEnd;
    closed, s, rest := true, Space(q[0]), q[1..];
    if Starts(q, '/', '*') {
      assert q == "/*" + q[2..];
      var body;
      closed, body, rest := ReadBody(q[2..], 0, mblen);
      s := Block(body);
      SkipOpen(q[2..], 0, mblen);
      Rejoin("/*", BodyText(body), "*/", rest, "");
      Units(rest);
      Units("/*" + (BodyText(body) + "*/") + rest);
    } else if Starts(q, '-', '-') {
      assert q == "--" + q[2..];
      var text;
      closed, text := ReadLine(q[2..], mblen);
      rest := LineEnd(q[2..], mblen);
      s := Line(text);
      SkipDashes(q, mblen);
      Rejoin("--", text, "\n", rest, "");
      Units(rest);
      Units("--" + (text + "\n") + rest);
    }
  }

  // ---------------------------------------------------------------------
  // The leading words of a command

  /** How many letters the text starts with. */
  function Letters(q: string): (n: nat)
    ensures n <= |q| && forall i :: 0 <= i < n ==> IsAlpha(q[i])
    ensures n < |q| ==> !IsAlpha(q[n])
  {
    if q == "" || !IsAlpha(q[0]) then 0 else 1 + Letters(q[1..])
  }

  /** The words a text starts with, separators aside, in lower case. */
  function Words(q: string, mblen: Mblen): (ws: seq<string>)
    decreases |q|
  {
    var s := Skip(q, 0, mblen);
    var n := Letters(s);
    if n == 0 then [] else [Folded(s[..n])] + Words(s[n..], mblen)
  }

  /** A word and the separators in front of it. */
  datatype Lead = Lead(before: seq<Separator>, word: string)

  function LeadsText(leads: seq<Lead>, tail: string): (r: string) {
    if leads == [] then tail
    else SeparatorsText(leads[0].before) + (leads[0].word + LeadsText(leads[1..], tail))
  }

  /** Proper words and separators, the words kept apart. */
  predicate KeptApart(leads: seq<Lead>, mblen: Mblen) {
    && (forall i :: 0 <= i < |leads| ==> AllProper(leads[i].before, mblen) && IsWord(leads[i].word))
    && (forall i :: 0 < i < |leads| ==> leads[i].before != [])
  }

  predicate IsWord(w: string) { w != "" && forall i :: 0 <= i < |w| ==> IsAlpha(w[i]) }

  function WordsOf(leads: seq<Lead>): (ws: seq<string>) {
    if leads == [] then [] else [Folded(leads[0].word)] + WordsOf(leads[1..])
  }

  lemma {:induction false} LettersOf(w: string, rest: string)
    requires (forall i :: 0 <= i < |w| ==> IsAlpha(w[i])) && (rest == "" || !IsAlpha(rest[0]))
    ensures Letters(w + rest) == |w|
  {
    if w == "" {
      Units(rest);
    } else {
      assert (w + rest)[1..] == w[1..] + rest;
      LettersOf(w[1..], rest);
    }
  }

  lemma FirstWord(w: string, rest: string, mblen: Mblen)
    requires IsWord(w) && (rest == "" || !IsAlpha(rest[0]))
    ensures Words(w + rest, mblen) == [Folded(w)] + Words(rest, mblen)
  {
    hide Skip, Folded;
    assert (w + rest)[0] == w[0];
    TokenStays(w + rest, mblen);
    LettersOf(w, rest);
    Behind(w, rest);
  }

  lemma WordsBehind(ss: seq<Separator>, rest: string, mblen: Mblen)
    requires Extends(mblen) && AllProper(ss, mblen)
    ensures Words(SeparatorsText(ss) + rest, mblen) == Words(rest, mblen)
  {
    hide Skip, Folded, Extends, SeparatorsText;
    SkipSeparators(ss, rest, mblen);
  }

  lemma SeparatorsStart(ss: seq<Separator>, rest: string, mblen: Mblen)
    requires AllProper(ss, mblen) && ss != []
    ensures var q := SeparatorsText(ss) + rest; q != "" && !IsAlpha(q[0])
  {
  }

  /** Only the words decide: the separators around them are read over, whatever they are. */
  lemma {:induction false} WordsRead(leads: seq<Lead>, tail: string, mblen: Mblen)
    requires Extends(mblen) && KeptApart(leads, mblen) && Words(tail, mblen) == []
    ensures Words(LeadsText(leads, tail), mblen) == WordsOf(leads)
  {
    hide Words, Extends, SeparatorsText, Proper;
    if leads != [] {
      var rest := LeadsText(leads[1..], tail);
      WordsRead(leads[1..], tail, mblen);
      WordsBehind(leads[0].before, leads[0].word + rest, mblen);
      if |leads| > 1 {
        SeparatorsStart(leads[1].before, leads[1].word + LeadsText(leads[1..][1..], tail), mblen);
      } else {
        NoWords(tail, mblen);
      }
      FirstWord(leads[0].word, rest, mblen);
    }
  }

  lemma NoWords(q: string, mblen: Mblen)
    requires Words(q, mblen) == []
    ensures q == "" || !IsAlpha(q[0])
  {
  }

  // ---------------------------------------------------------------------
  // The two classifications, as statements about words

  /** Transaction control, and the commands that the server refuses inside a transaction block. */
  predicate NoBegin(ws: seq<string>) { ws != [] && (Controls(ws[0]) || Bars(ws[0], ws[1..])) }

  predicate Controls(w: string) {
    || w == "abort" || w == "begin" || w == "start" || w == "commit" || w == "end" || w == "rollback" || w == "vacuum"
  }

  /** The words that decide together with those behind them. */
  predicate Bars(w: string, more: seq<string>) {
    || (w == "prepare" && Next(more) == "transaction")
    || (w == "cluster" && more == [])
    || (w == "create" && CreateBars(more))
    || (w == "alter" && Next(more) == "system")
    || ((w == "drop" || w == "reindex") && DropBars(more))
    || (w == "discard" && Next(more) == "all")
  }

  predicate CreateBars(ws: seq<string>) {
    || Next(ws) == "database" || Next(ws) == "tablespace" || ["index", "concurrently"] <= ws
    || ["unique", "index", "concurrently"] <= ws
  }

  predicate DropBars(ws: seq<string>) {
    || Next(ws) == "database" || Next(ws) == "system" || Next(ws) == "tablespace" || ["index", "concurrently"] <= ws
  }

  function Next(ws: seq<string>): string { if ws == [] then "" else ws[0] }

  /**
    The server's side: the statements that its grammar takes for transaction
    control, savepoints apart, and those that call PreventTransactionChain.
   */
  datatype Solo =
    | Abort | Begin | StartTransaction | Commit | End | Rollback | PrepareTransaction | CommitPrepared | RollbackPrepared
    | Vacuum | ClusterAll(verbose: bool) | CreateDatabase | DropDatabase | CreateTablespace | DropTablespace
    | CreateIndexConcurrently(unique: bool) | DropIndexConcurrently | ReindexDatabase | ReindexSystem | ReindexSchema
    | AlterSystem | AlterTypeAdd | AlterDatabaseTablespace | DiscardAll
  {
    /** The words that each begins with. */
    function Words(): (ws: seq<string>) {
      match this
      case Abort => ["abort"] case Begin => ["begin"] case StartTransaction => ["start", "transaction"]
      case Commit => ["commit"] case End => ["end"] case Rollback => ["rollback"]
      case PrepareTransaction => ["prepare", "transaction"]
      case CommitPrepared => ["commit", "prepared"] case RollbackPrepared => ["rollback", "prepared"]
      case Vacuum => ["vacuum"]
      case ClusterAll(verbose) => if verbose then ["cluster", "verbose"] else ["cluster"]
      case CreateDatabase => ["create", "database"] case DropDatabase => ["drop", "database"]
      case CreateTablespace => ["create", "tablespace"] case DropTablespace => ["drop", "tablespace"]
      case CreateIndexConcurrently(unique) =>
        if unique then ["create", "unique", "index", "concurrently"] else ["create", "index", "concurrently"]
      case DropIndexConcurrently => ["drop", "index", "concurrently"]
      case ReindexDatabase => ["reindex", "database"] case ReindexSystem => ["reindex", "system"]
      case ReindexSchema => ["reindex", "schema"]
      case AlterSystem => ["alter", "system"] case AlterTypeAdd => ["alter", "type"]
      case AlterDatabaseTablespace => ["alter", "database"] case DiscardAll => ["discard", "all"]
    }
    /** CLUSTER with a table is allowed in a transaction. */
    predicate Begins(ws: seq<string>) { if ClusterAll? then ws == Words() else Words() <= ws }
    predicate Overlooked() { this == ClusterAll(true) || ReindexSchema? || AlterTypeAdd? || AlterDatabaseTablespace? }
  }

  /** psql knows each of them but the four that are overlooked. */
  lemma SolosAreKnown(c: Solo, ws: seq<string>)
    requires c.Begins(ws)
    ensures NoBegin(ws) <==> !c.Overlooked()
  {
    var k := c.Words();
    assert ws[0] == k[0] && (|k| > 1 ==> ws[1..][0] == k[1]);
    if |k| > 2 { assert k[1..] <= ws[1..]; }
  }

  /** What psql takes for another one is no valid command, or not refused in a transaction. */
  predicate Extra(ws: seq<string>) {
    ws != [] &&
    (ws[0] == "start" || ["drop", "system"] <= ws || ["reindex", "tablespace"] <= ws ||
     ["reindex", "index", "concurrently"] <= ws)
  }

  function CreateKnown(more: seq<string>): (c: Solo) {
    if Next(more) == "database" then CreateDatabase else if Next(more) == "tablespace" then CreateTablespace
    else CreateIndexConcurrently(Next(more) == "unique")
  }

  function DropKnown(more: seq<string>): (c: Solo) {
    if Next(more) == "database" then DropDatabase else if Next(more) == "tablespace" then DropTablespace
    else DropIndexConcurrently
  }

  function ReindexKnown(more: seq<string>): (c: Solo) {
    if Next(more) == "database" then ReindexDatabase else ReindexSystem
  }

  lemma CreateIsKnown(more: seq<string>)
    requires CreateBars(more)
    ensures CreateKnown(more).Begins(["create"] + more)
  {
    assert CreateKnown(more).Words() == ["create"] + CreateKnown(more).Words()[1..];
  }

  lemma DropIsKnown(w: string, more: seq<string>)
    requires DropBars(more) && (w == "drop" || w == "reindex")
    ensures (if w == "drop" then DropKnown(more) else ReindexKnown(more)).Begins([w] + more) || Extra([w] + more)
  {
    var c := if w == "drop" then DropKnown(more) else ReindexKnown(more);
    assert c.Words() == [w] + c.Words()[1..];
    if ["index", "concurrently"] <= more {
      assert [w] + ["index", "concurrently"] == [w, "index", "concurrently"] <= [w] + more;
    } else {
      assert [w] + [more[0]] == [w, more[0]] <= [w] + more;
    }
  }

  lemma PairIsKnown(w: string, more: seq<string>, second: string)
    requires Next(more) == second != ""
    ensures [w, second] <= [w] + more
  {
    assert [w, second] == [w] + [second];
  }

  lemma OnlySolosAreKnown(ws: seq<string>) returns (c: Solo)
    requires NoBegin(ws)
    ensures (c.Begins(ws) && !c.Overlooked()) || Extra(ws)
  {
    hide CreateBars, DropBars, CreateKnown, DropKnown, ReindexKnown;
    var w, more := ws[0], ws[1..];
    assert ws == [w] + more;
    match w
    case "create" =>
      c := CreateKnown(more);
      CreateIsKnown(more);
      KnownAre(more);
    case "drop" =>
      c := DropKnown(more);
      DropIsKnown(w, more);
      KnownAre(more);
    case "reindex" =>
      c := ReindexKnown(more);
      DropIsKnown(w, more);
      KnownAre(more);
    case "prepare" =>
      c := PrepareTransaction;
      PairIsKnown(w, more, "transaction");
    case "alter" =>
      c := AlterSystem;
      PairIsKnown(w, more, "system");
    case "discard" =>
      c := DiscardAll;
      PairIsKnown(w, more, "all");
    case "cluster" => c := ClusterAll(false);
    case _ =>
      c := if w == "abort" then Abort else if w == "begin" then Begin else if w == "commit" then Commit
           else if w == "end" then End else if w == "rollback" then Rollback else Vacuum;
  }

  lemma KnownAre(more: seq<string>)
    ensures !CreateKnown(more).Overlooked() && !DropKnown(more).Overlooked() && !ReindexKnown(more).Overlooked()
  {
  }

  /** What a command is behind separators and opening parentheses. */
  function Inner(q: string, mblen: Mblen): (r: string)
    decreases |q|
  {
    var s := Skip(q, 0, mblen);
    if s != "" && s[0] == '(' then Inner(s[1..], mblen) else s
  }

  predicate Selects(ws: seq<string>) { Next(ws) == "select" || Next(ws) == "values" }

  /** The server's queries by their first word; each of them could be run through a cursor. */
  datatype Query = SelectQuery | ValuesQuery | TableQuery | WithQuery {
    function Word(): string {
      match this
      case SelectQuery => "select" case ValuesQuery => "values" case TableQuery => "table" case WithQuery => "with"
    }
  }

  /** psql knows the first two, and takes nothing else for a query. */
  lemma QueriesKnown(ws: seq<string>)
    ensures forall q: Query :: ws != [] && ws[0] == q.Word() ==> (Selects(ws) <==> q.SelectQuery? || q.ValuesQuery?)
    ensures Selects(ws) ==> exists q: Query :: ws != [] && ws[0] == q.Word()
  {
    if Selects(ws) {
      var q := if Next(ws) == "select" then SelectQuery else ValuesQuery;
      assert ws[0] == q.Word();
    }
  }

  /** A separator, or an opening parenthesis. */
  datatype Wrapping = Paren | Sep(s: Separator)

  function WrappingText(wraps: seq<Wrapping>): (r: string) {
    if wraps == [] then ""
    else (match wraps[0] case Paren => "(" case Sep(s) => SeparatorText(s)) + WrappingText(wraps[1..])
  }

  /** Nor do parentheses and separators in front of a query decide whether it selects. */
  lemma {:induction false} InnerOf(wraps: seq<Wrapping>, q: string, mblen: Mblen)
    requires Extends(mblen) && forall i :: 0 <= i < |wraps| && wraps[i].Sep? ==> Proper(wraps[i].s, mblen)
    ensures Inner(WrappingText(wraps) + q, mblen) == Inner(q, mblen)
  {
    hide Skip, Extends, Proper, SeparatorText;
    if wraps == [] {
      Units(q);
    } else {
      var rest := WrappingText(wraps[1..]) + q;
      InnerOf(wraps[1..], q, mblen);
      match wraps[0]
      case Paren =>
        Assoc("(", WrappingText(wraps[1..]), q);
        TokenStays("(" + rest, mblen);
        Behind("(", rest);
      case Sep(s) =>
        Assoc(SeparatorText(s), WrappingText(wraps[1..]), q);
        SkipSeparator(s, rest, mblen);
    }
  }

  // ---------------------------------------------------------------------
  // The code

  lemma LineTurn(query: string, at: nat, mblen: Mblen)
    requires at < |query|
    ensures LineEnd(query[at..], mblen) ==
            if query[at] == '\n' then query[at + 1..] else LineEnd(query[at + CharLen(mblen, query[at..])..], mblen)
  {
    From(query, at, 1);
    From(query, at, CharLen(mblen, query[at..]));
  }

  method SkipLineComment(query: string, from: nat, mblen: Mblen) returns (at: nat)
    requires from <= |query|
    ensures from <= at <= |query| && query[at..] == LineEnd(query[from..], mblen)
  {
    hide LineEnd, CharLen;
    at := from;
    while at < |query|
      invariant from <= at <= |query| && LineEnd(query[at..], mblen) == LineEnd(query[from..], mblen)
    {
      LineTurn(query, at, mblen);
      if query[at] == '\n' {
        return at + 1;
      }
      at := at + CharLen(mblen, query[at..]);
    }
    NoLine(mblen);
  }

  lemma NoLine(mblen: Mblen)
    ensures LineEnd("", mblen) == ""
  {
  }

  /** One turn of the loop, on the text at the cursor. */
  lemma SkipTurn(query: string, at: nat, depth: nat, mblen: Mblen)
    requires at < |query|
    ensures var q := query[at..];
            Skip(q, depth, mblen) ==
            if IsSpace(query[at]) then Skip(query[at + CharLen(mblen, q)..], depth, mblen)
            else if TwoAt(query, at, '/', '*') then Skip(query[at + 2..], depth + 1, mblen)
            else if depth > 0 && TwoAt(query, at, '*', '/') then Skip(query[at + 2..], depth - 1, mblen)
            else if depth == 0 && TwoAt(query, at, '-', '-') then Skip(LineEnd(query[at + 2..], mblen), 0, mblen)
            else if depth > 0 then Skip(query[at + CharLen(mblen, q)..], depth, mblen)
            else q
  {
  }

  predicate TwoAt(query: string, at: nat, a: char, b: char) {
    at + 1 < |query| && query[at] == a && query[at + 1] == b
  }

  method SkipWhiteSpace(query: string, from: nat, mblen: Mblen) returns (at: nat)
    requires from <= |query|
    ensures from <= at <= |query| && query[at..] == Skip(query[from..], 0, mblen)
    ensures AtToken(query[at..])
  {
    hide Skip, IsSpace, CharLen, LineEnd, AtToken;
    var nest := 0;
    at := from;
    SkipReachesToken(query[from..], 0, mblen);
    while at < |query|
      invariant from <= at <= |query| && Skip(query[at..], nest, mblen) == Skip(query[from..], 0, mblen)
      decreases |query| - at
    {
      SkipTurn(query, at, nest, mblen);
      if IsSpace(query[at]) {
        at := at + CharLen(mblen, query[at..]);
      } else if TwoAt(query, at, '/', '*') {
        nest := nest + 1;
        at := at + 2;
      } else if nest > 0 && TwoAt(query, at, '*', '/') {
        nest := nest - 1;
        at := at + 2;
      } else if nest == 0 && TwoAt(query, at, '-', '-') {
        at := SkipLineComment(query, at + 2, mblen);
      } else if nest > 0 {
        at := at + CharLen(mblen, query[at..]);
      } else {
        return;
      }
    }
    SkipNothing(nest, mblen);
  }

  lemma From(q: string, at: nat, m: nat)
    requires at + m <= |q|
    ensures q[at..][m..] == q[at + m..]
  {
  }

  method WordLength(query: string, at: nat, mblen: Mblen) returns (len: nat)
    requires Extends(mblen) && at <= |query|
    ensures at + len <= |query| && len == Letters(query[at..])
  {
    hide Extends;
    len := 0;
    while at + len < |query| && IsAlpha(query[at + len])
      invariant at + len <= |query| && Letters(query[at..]) == len + Letters(query[at + len..])
    {
      AsciiChar(mblen, query[at + len..]);
      From(query, at + len, 1);
      len := len + CharLen(mblen, query[at + len..]);
    }
  }

  /** The cursor stands on the first of the words ws, which is len bytes long (0: there are none). */
  ghost predicate On(query: string, at: nat, len: nat, ws: seq<string>, mblen: Mblen) {
    at + len <= |query| && ws == Words(query[at..], mblen) &&
    if len == 0 then ws == []
    else ws != [] && ws[0] == Folded(query[at..at + len]) && ws[1..] == Words(query[at + len..], mblen)
  }

  method NextWord(query: string, from: nat, mblen: Mblen) returns (at: nat, len: nat)
    requires Extends(mblen) && from <= |query|
    ensures On(query, at, len, Words(query[from..], mblen), mblen)
  {
    hide Skip, Extends, Folded;
    at := SkipWhiteSpace(query, from, mblen);
    len := WordLength(query, at, mblen);
    TokenStays(query[at..], mblen);
    From(query, at, len);
    assert query[at..][..len] == query[at..at + len];
  }

  /** The comparison with a keyword. */
  predicate Is(query: string, at: nat, len: nat, keyword: string)
    requires at + len <= |query|
  {
    len == |keyword| && Folded(query[at..at + len]) == keyword
  }

  /** Whether the word under the cursor is the keyword. */
  lemma IsMeans(query: string, at: nat, len: nat, ws: seq<string>, mblen: Mblen)
    requires On(query, at, len, ws, mblen)
    ensures forall keyword :: keyword != "" ==> (Is(query, at, len, keyword) <==> Next(ws) == keyword)
  {
  }

  /** INDEX CONCURRENTLY, from the word under the cursor on. */
  method IndexConcurrently(query: string, at: nat, len: nat, ghost ws: seq<string>, mblen: Mblen) returns (r: bool)
    requires Extends(mblen) && On(query, at, len, ws, mblen)
    ensures r <==> ["index", "concurrently"] <= ws
  {
    hide Extends, Folded, Words, Is;
    IsMeans(query, at, len, ws, mblen);
    r := false;
    if Is(query, at, len, "index") {
      var at', len' := NextWord(query, at + len, mblen);
      IsMeans(query, at', len', ws[1..], mblen);
      r := Is(query, at', len', "concurrently");
    }
  }

  /** The words behind CREATE. */
  method AfterCreate(query: string, at: nat, len: nat, ghost ws: seq<string>, mblen: Mblen) returns (r: bool)
    requires Extends(mblen) && On(query, at, len, ws, mblen)
    ensures r <==> CreateBars(ws)
  {
    hide Extends, Folded, Words, Is;
    IsMeans(query, at, len, ws, mblen);
    if Is(query, at, len, "database") { return true; }
    if Is(query, at, len, "tablespace") { return true; }
    if Is(query, at, len, "unique") {
      var at', len' := NextWord(query, at + len, mblen);
      r := IndexConcurrently(query, at', len', ws[1..], mblen);
    } else {
      r := IndexConcurrently(query, at, len, ws, mblen);
    }
  }

  /** The words behind DROP and REINDEX. */
  method AfterDrop(query: string, at: nat, len: nat, ghost ws: seq<string>, mblen: Mblen) returns (r: bool)
    requires Extends(mblen) && On(query, at, len, ws, mblen)
    ensures r <==> DropBars(ws)
  {
    hide Extends, Folded, Words, Is;
    IsMeans(query, at, len, ws, mblen);
    if Is(query, at, len, "database") { return true; }
    if Is(query, at, len, "system") { return true; }
    if Is(query, at, len, "tablespace") { return true; }
    r := IndexConcurrently(query, at, len, ws, mblen);
  }

  /** The commands of more than one word; the cursor is on the first. */
  method BarredPair(query: string, at: nat, len: nat, ghost ws: seq<string>, mblen: Mblen) returns (r: bool)
    requires Extends(mblen) && On(query, at, len, ws, mblen) && len > 0
    ensures r <==> Bars(ws[0], ws[1..])
  {
    hide Extends, Folded, Words, Is, CreateBars, DropBars;
    IsMeans(query, at, len, ws, mblen);
    var at', len' := NextWord(query, at + len, mblen);
    IsMeans(query, at', len', ws[1..], mblen);
    if Is(query, at, len, "prepare") { return Is(query, at', len', "transaction"); }
    if Is(query, at, len, "cluster") { return len' == 0; }
    if Is(query, at, len, "create") {
      r := AfterCreate(query, at', len', ws[1..], mblen);
      return;
    }
    if Is(query, at, len, "alter") { return Is(query, at', len', "system"); }
    if Is(query, at, len, "drop") || Is(query, at, len, "reindex") {
      r := AfterDrop(query, at', len', ws[1..], mblen);
      return;
    }
    if Is(query, at, len, "discard") { return Is(query, at', len', "all"); }
    return false;
  }

  method CommandNoBegin(query: string, mblen: Mblen) returns (r: bool)
    requires Extends(mblen)
    ensures r <==> NoBegin(Words(query, mblen))
  {
    hide Extends, Folded, Words, Is, Bars;
    ghost var ws := Words(query, mblen);
    assert query[0..] == query;
    var at, len := NextWord(query, 0, mblen);
    IsMeans(query, at, len, ws, mblen);
    if Is(query, at, len, "abort") { return true; }
    if Is(query, at, len, "begin") { return true; }
    if Is(query, at, len, "start") { return true; }
    if Is(query, at, len, "commit") { return true; }
    if Is(query, at, len, "end") { return true; }
    if Is(query, at, len, "rollback") { return true; }
    if Is(query, at, len, "vacuum") { return true; }
    if len == 0 { return false; }
    r := BarredPair(query, at, len, ws, mblen);
  }

  method IsSelectCommand(query: string, mblen: Mblen) returns (r: bool)
    requires Extends(mblen)
    ensures r <==> Selects(Words(Inner(query, mblen), mblen))
  {
    hide Skip, Extends, Folded, Words, AtToken;
    assert query[0..] == query;
    var at := SkipWhiteSpace(query, 0, mblen);
    TokenStays(query[at..], mblen);
    while at < |query| && query[at] == '('
      invariant at <= |query| && query[at..] == Skip(query[at..], 0, mblen)
      invariant Inner(query[at..], mblen) == Inner(query, mblen)
    {
      From(query, at, 1);
      at := SkipWhiteSpace(query, at + 1, mblen);
      TokenStays(query[at..], mblen);
    }
    var at', len := NextWord(query, at, mblen);
    IsMeans(query, at', len, Words(query[at..], mblen), mblen);
    r := Is(query, at', len, "select") || Is(query, at', len, "values");
  }
}
