/**
  The transaction side of a psql session: SendQuery and the transaction steps
  of ExecQueryUsingCursor (tools/pg_psql/common.cpp) against a server with
  transaction blocks and savepoints (src/postgres/backend/access/transam/xact.cpp).
  D is the type of database contents.
 */
module Savepoints {
  import opened Basics
  import opened Encoding
  import LeadingWords

  // ---------------------------------------------------------------------
  // The server

  datatype Mark<D> = Mark(name: string, db: D)

  /** base is what the transaction started from; db is what it has made of it. */
  datatype Server<D> =
    | Idle(db: D)
    | InTrans(base: D, stack: seq<Mark<D>>, db: D)
    | Failed(base: D, stack: seq<Mark<D>>)

  datatype Stmt<!D> =
    | Work(run: D -> Option<D>, accepted: D -> bool)   // None: the statement fails
    | Begin
    | Commit(accepted: D -> bool)        // false: a deferred check fails at the end of the transaction
    | Rollback
    | Savepoint(name: string)
    | Release(name: string)
    | RollbackTo(name: string)

  /** The command tag of a reply, as far as psql looks at it. */
  datatype Reply = SavepointDone | ReleaseDone | RollbackDone | OtherDone | Error

  /** The newest mark of that name and what lies below it. */
  function Find<D>(stack: seq<Mark<D>>, name: string): (r: Option<(seq<Mark<D>>, Mark<D>)>) {
    if stack == [] then None
    else
      var n := |stack| - 1;
      if stack[n].name == name then Some((stack[..n], stack[n])) else Find(stack[..n], name)
  }

  /** One statement; a server before 8.0 does not know the savepoint commands. */
  function Exec<D>(s: Server<D>, c: Stmt<D>, version: int): (r: (Server<D>, Reply)) {
    match s
    case Idle(db) =>
      (match c
       case Work(run, accepted) =>   // a transaction of its own
         (match run(db)
          case Some(d) => if accepted(d) then (Idle(d), OtherDone) else (s, Error)
          case None => (s, Error))
       case Begin => (InTrans(db, [], db), OtherDone)
       case Commit(_) => (s, OtherDone)
       case Rollback => (s, RollbackDone)
       case Savepoint(_) => (s, Error)
       case Release(_) => (s, Error)
       case RollbackTo(_) => (s, Error))
    case InTrans(base, stack, db) =>
      (match c
       case Work(run, _) =>
         (match run(db) case Some(d) => (InTrans(base, stack, d), OtherDone) case None => (Failed(base, stack), Error))
       case Begin => (s, OtherDone)
       case Commit(accepted) => if accepted(db) then (Idle(db), OtherDone) else (Idle(base), Error)
       case Rollback => (Idle(base), RollbackDone)
       case Savepoint(name) =>
         if version < 80000 then (Failed(base, stack), Error)
         else (InTrans(base, stack + [Mark(name, db)], db), SavepointDone)
       case Release(name) =>
         (match Find(stack, name)
          case Some((below, _)) => (InTrans(base, below, db), ReleaseDone)
          case None => (Failed(base, stack), Error))
       case RollbackTo(name) =>
         (match Find(stack, name)
          case Some((below, m)) => (InTrans(base, below + [m], m.db), RollbackDone)
          case None => (Failed(base, stack), Error)))
    case Failed(base, stack) =>
      (match c
       case Commit(_) => (Idle(base), RollbackDone)
       case Rollback => (Idle(base), RollbackDone)
       case RollbackTo(name) =>
         (match Find(stack, name)
          case Some((below, m)) => (InTrans(base, below + [m], m.db), RollbackDone)
          case None => (s, Error))
       case Work(_, _) => (s, Error)
       case Begin => (s, Error)
       case Savepoint(_) => (s, Error)
       case Release(_) => (s, Error))
  }

  // ---------------------------------------------------------------------
  // The session the user is meant to see

  datatype RollbackMode = Off | Interactive | On

  /** A query, the statement that the server makes of it, and the settings in force. */
  datatype Call<!D> = Call(query: string, stmt: Stmt<D>, autocommit: bool, mode: RollbackMode, interactive: bool,
                           fetchCount: int, mblen: Mblen) {
    predicate Protects() { mode != Off && (interactive || mode == On) }
    /** The words of the query say that it must not be preceded by BEGIN. */
    predicate NoBegin() { LeadingWords.NoBegin(LeadingWords.Words(query, mblen)) }
    predicate IsSelect() { LeadingWords.Selects(LeadingWords.Words(LeadingWords.Inner(query, mblen), mblen)) }
    /** A SELECT is a piece of work; only such a statement is run through a cursor. */
    ghost predicate Valid() { Extends(mblen) && (IsSelect() ==> stmt.Work?) && !UsesTemp(stmt) }
  }

  const TEMP := "pg_psql_temporary_savepoint"

  predicate UsesTemp<D>(c: Stmt<D>) {
    match c
    case Savepoint(name) => name == TEMP
    case Release(name) => name == TEMP
    case RollbackTo(name) => name == TEMP
    case Work(_, _) => false
    case Begin => false
    case Commit(_) => false
    case Rollback => false
  }

  /** Without autocommit a transaction opens by itself. */
  function Opened<D>(s: Server<D>, call: Call<D>): (r: Server<D>) {
    if s.Idle? && !call.autocommit && !call.NoBegin() then InTrans(s.db, [], s.db) else s
  }

  /**
    The ideal step: there are no hidden savepoints, and a statement that would
    leave a protected transaction in the failed state does nothing at all.
   */
  function IdealStep<D>(s: Server<D>, call: Call<D>, version: int): (r: (Server<D>, bool)) {
    var s1 := Opened(s, call);
    var (s2, reply) := Exec(s1, call.stmt, version);
    if s1.InTrans? && call.Protects() && s2.Failed? then (s1, false) else (s2, reply != Error)
  }

  /** The user's view of the real server: the hidden savepoints taken out. */
  function UserMarks<D>(stack: seq<Mark<D>>): (r: seq<Mark<D>>) {
    if stack == [] then []
    else
      var n := |stack| - 1;
      UserMarks(stack[..n]) + (if stack[n].name == TEMP then [] else [stack[n]])
  }

  function UserView<D>(s: Server<D>): (r: Server<D>) {
    match s
    case Idle(_) => s
    case InTrans(base, stack, db) => InTrans(base, UserMarks(stack), db)
    case Failed(base, stack) => Failed(base, UserMarks(stack))
  }

  // ---------------------------------------------------------------------
  // Statements see only the user's savepoints

  lemma UserMarksSnoc<D>(stack: seq<Mark<D>>, m: Mark<D>)
    ensures UserMarks(stack + [m]) == UserMarks(stack) + (if m.name == TEMP then [] else [m])
  {
  }

  lemma {:induction false} FindUserMark<D>(stack: seq<Mark<D>>, name: string)
    requires name != TEMP
    ensures Find(UserMarks(stack), name) ==
            match Find(stack, name)
            case None => None
            case Some((below, m)) => Some((UserMarks(below), m))
  {
    if stack != [] {
      var n := |stack| - 1;
      FindUserMark(stack[..n], name);
      if stack[n].name == TEMP {
        Units(UserMarks(stack[..n]));
      } else {
        assert (UserMarks(stack[..n]) + [stack[n]])[..|UserMarks(stack[..n])|] == UserMarks(stack[..n]);
      }
    }
  }

  /** Every statement of the user's does to the user's view what it does to the server. */
  lemma ExecInView<D>(s: Server<D>, c: Stmt<D>, version: int)
    requires !UsesTemp(c)
    ensures var (s2, reply) := Exec(s, c, version);
            Exec(UserView(s), c, version) == (UserView(s2), reply)
  {
    if !s.Idle? {
      match c
      case Savepoint(name) =>
        if s.InTrans? { UserMarksSnoc(s.stack, Mark(name, s.db)); }
      case Release(name) => FindUserMark(s.stack, name);
      case RollbackTo(name) =>
        FindUserMark(s.stack, name);
        match Find(s.stack, name) {
          case None =>
          case Some((below, m)) => FoundName(s.stack, name); UserMarksSnoc(below, m);
        }
      case Work(_, _) =>
      case Begin =>
      case Commit(_) =>
      case Rollback =>
    }
  }

  lemma {:induction false} FoundName<D>(stack: seq<Mark<D>>, name: string)
    ensures var r := Find(stack, name); r.Some? ==> r.value.1.name == name
  {
    if stack != [] { FoundName(stack[..|stack| - 1], name); }
  }

  lemma FindTop<D>(stack: seq<Mark<D>>, m: Mark<D>)
    ensures Find(stack + [m], m.name) == Some((stack, m))
  {
  }

  /**
    With a hidden savepoint on top, the user's statement is seen as without it;
    and where psql goes on to use that savepoint, it is still on top.
   */
  lemma UnderSavepoint<D>(s: Server<D>, c: Stmt<D>, version: int)
    requires s.InTrans? && !UsesTemp(c)
    ensures var marked := InTrans(s.base, s.stack + [Mark(TEMP, s.db)], s.db);
            var (s2, reply) := Exec(marked, c, version);
            && UserView(marked) == UserView(s)
            && Exec(UserView(s), c, version) == (UserView(s2), reply)
            && (s2.Failed? || (s2.InTrans? && reply == OtherDone) ==>
                  s2.base == s.base && s2.stack == marked.stack && Find(s2.stack, TEMP) == Some((s.stack, Mark(TEMP, s.db))))
  {
    var marked := InTrans(s.base, s.stack + [Mark(TEMP, s.db)], s.db);
    UserMarksSnoc(s.stack, Mark(TEMP, s.db));
    FindTop(s.stack, Mark(TEMP, s.db));
    ExecInView(marked, c, version);
  }

  // ---------------------------------------------------------------------
  // Whole runs of the ideal session

  function IdealRun<D>(s: Server<D>, calls: seq<Call<D>>, version: int): (r: (Server<D>, seq<bool>)) {
    if calls == [] then (s, [])
    else
      var n := |calls| - 1;
      var (s1, oks) := IdealRun(s, calls[..n], version);
      var (s2, ok) := IdealStep(s1, calls[n], version);
      (s2, oks + [ok])
  }

  lemma RunNothing<D>(s: Server<D>, version: int)
    ensures IdealRun(s, [], version) == (s, [])
  {
  }

  lemma RunOneMore<D>(s: Server<D>, calls: seq<Call<D>>, call: Call<D>, version: int)
    ensures var (s1, oks) := IdealRun(s, calls, version);
            var (s2, ok) := IdealStep(s1, call, version);
            IdealRun(s, calls + [call], version) == (s2, oks + [ok])
  {
    hide IdealStep;
    assert (calls + [call])[..|calls|] == calls;
  }

  lemma ViewFails<D>(s: Server<D>)
    ensures UserView(s).Failed? == s.Failed?
  {
  }

  /** In a session that is always protected nothing ever fails a transaction. */
  lemma {:induction false} NeverFailed<D>(s: Server<D>, calls: seq<Call<D>>, version: int)
    requires !s.Failed? && forall i :: 0 <= i < |calls| ==> calls[i].Protects()
    ensures !IdealRun(s, calls, version).0.Failed?
  {
    if calls != [] {
      var n := |calls| - 1;
      NeverFailed(s, calls[..n], version);
      StepKeepsAlive(IdealRun(s, calls[..n], version).0, calls[n], version);
    }
  }

  lemma StepKeepsAlive<D>(s: Server<D>, call: Call<D>, version: int)
    requires !s.Failed? && call.Protects()
    ensures !IdealStep(s, call, version).0.Failed?
  {
  }

  // ---------------------------------------------------------------------
  // What the settings promise

  /** With autocommit, or for a command that must not be preceded by BEGIN, an idle server gets just the statement. */
  ghost predicate Untouched<D>(s: Server<D>, call: Call<D>, s2: Server<D>, ok: bool, version: int) {
    s.Idle? && (call.autocommit || call.NoBegin()) ==>
      s2 == Exec(s, call.stmt, version).0 && ok == (Exec(s, call.stmt, version).1 != Error)
  }

  /** Otherwise work on an idle server becomes part of a transaction, and the user can still take it back. */
  ghost predicate Uncommitted<D>(s: Server<D>, call: Call<D>, s2: Server<D>, ok: bool, version: int) {
    s.Idle? && !call.autocommit && !call.NoBegin() && call.stmt.Work? ==>
      && !s2.Idle? && s2.base == s.db
      && Exec(s2, Rollback, version) == (Idle(s.db), RollbackDone)
      && (version >= 80000 ==>
            match call.stmt.run(s.db)
            case Some(d) => ok && UserView(s2) == InTrans(s.db, [], d)
            case None =>
              && !ok
              && UserView(s2) == match call.mode
                                 case Off => Failed(s.db, [])
                                 case Interactive =>
                                   if call.interactive then InTrans(s.db, [], s.db) else Failed(s.db, [])
                                 case On => InTrans(s.db, [], s.db))
  }

  /** In a transaction a failing statement is undone, or fails the transaction, as ON_ERROR_ROLLBACK says. */
  ghost predicate Guarded<D>(s: Server<D>, call: Call<D>, s2: Server<D>, ok: bool, version: int) {
    s.InTrans? && version >= 80000 ==>
      var (plain, reply) := Exec(UserView(s), call.stmt, version);
      && ok == (reply != Error)
      && UserView(s2) ==
         if !plain.Failed? then plain
         else match call.mode
              case Off => plain
              case Interactive => if call.interactive then UserView(s) else plain
              case On => UserView(s)
  }

  /**
    Before 8.0 the first query that wants protection runs without it, after a
    complaint; every later one is refused, and takes the transaction down.
   */
  ghost predicate BeforeSavepoints<D>(s: Server<D>, call: Call<D>, s2: Server<D>, ok: bool, warned: bool, version: int) {
    var s1 := Opened(s, call);
    if s1.InTrans? && call.Protects() && warned then s2 == Failed(s1.base, s1.stack) && !ok
    else s2 == Exec(s1, call.stmt, version).0 && ok == (Exec(s1, call.stmt, version).1 != Error)
  }

  lemma OldPromises<D>(s: Server<D>, call: Call<D>, s2: Server<D>, ok: bool, warned: bool, version: int)
    requires version < 80000 && BeforeSavepoints(s, call, s2, ok, warned, version)
    ensures Uncommitted(s, call, s2, ok, version) && Guarded(s, call, s2, ok, version)
  {
  }

  lemma Promises<D>(s: Server<D>, call: Call<D>, s2: Server<D>, ok: bool, version: int)
    requires version >= 80000 && (UserView(s2), ok) == IdealStep(UserView(s), call, version)
    ensures Uncommitted(s, call, s2, ok, version) && Guarded(s, call, s2, ok, version)
  {
    if s.InTrans? { Replies(UserView(s), call.stmt, version); }
  }

  /** Pieces of work, each in a transaction of its own. */
  function Committed<D>(db: D, calls: seq<Call<D>>): (r: D)
    requires forall i :: 0 <= i < |calls| ==> calls[i].stmt.Work?
  {
    if calls == [] then db
    else
      var n := |calls| - 1;
      var db1, work := Committed(db, calls[..n]), calls[n].stmt;
      match work.run(db1)
      case Some(d) => if work.accepted(d) then d else db1
      case None => db1
  }

  /** With autocommit every piece of work that succeeds is committed at once. */
  lemma {:induction false} AutocommitRun<D>(db: D, calls: seq<Call<D>>, version: int)
    requires forall i :: 0 <= i < |calls| ==> calls[i].stmt.Work? && calls[i].autocommit
    ensures IdealRun(Idle(db), calls, version).0 == Idle(Committed(db, calls))
  {
    if calls != [] { AutocommitRun(db, calls[..|calls| - 1], version); }
  }

  /** Without it nothing at all is committed by work alone: a ROLLBACK brings back what there was. */
  lemma {:induction false} NothingCommitted<D>(db: D, calls: seq<Call<D>>, version: int)
    requires forall i :: 0 <= i < |calls| ==> calls[i].stmt.Work? && !calls[i].autocommit && !calls[i].NoBegin()
    ensures var s := IdealRun(Idle(db), calls, version).0;
            && Exec(s, Rollback, version).0 == Idle(db)
            && (calls != [] ==> !s.Idle?) && (s.Idle? ==> s.db == db) && (!s.Idle? ==> s.base == db)
  {
    if calls != [] {
      var n := |calls| - 1;
      NothingCommitted(db, calls[..n], version);
      WorkStays(IdealRun(Idle(db), calls[..n], version).0, calls[n], db, version);
    }
  }

  lemma WorkStays<D>(s: Server<D>, call: Call<D>, db: D, version: int)
    requires call.stmt.Work? && !call.autocommit && !call.NoBegin()
    requires (s.Idle? ==> s.db == db) && (!s.Idle? ==> s.base == db)
    ensures var s2 := IdealStep(s, call, version).0;
            !s2.Idle? && s2.base == db && Exec(s2, Rollback, version).0 == Idle(db)
  {
  }

  // ---------------------------------------------------------------------
  // Hidden savepoints left behind

  function Hidden<D>(stack: seq<Mark<D>>): (n: nat) {
    if stack == [] then 0
    else Hidden(stack[..|stack| - 1]) + (if stack[|stack| - 1].name == TEMP then 1 else 0)
  }

  function HiddenIn<D>(s: Server<D>): (n: nat) { if s.Idle? then 0 else Hidden(s.stack) }

  lemma HiddenSnoc<D>(stack: seq<Mark<D>>, m: Mark<D>)
    ensures Hidden(stack + [m]) == Hidden(stack) + (if m.name == TEMP then 1 else 0)
  {
  }

  lemma {:induction false} FindHidden<D>(stack: seq<Mark<D>>, name: string)
    requires name != TEMP
    ensures match Find(stack, name)
            case None => true
            case Some((below, m)) => Hidden(below + [m]) == Hidden(below) <= Hidden(stack)
  {
    if stack != [] {
      var n := |stack| - 1;
      FindHidden(stack[..n], name);
      if stack[n].name == name { HiddenSnoc(stack[..n], stack[n]); }
    }
  }

  lemma ExecHidden<D>(s: Server<D>, c: Stmt<D>, version: int)
    requires !UsesTemp(c)
    ensures HiddenIn(Exec(s, c, version).0) <= HiddenIn(s)
  {
    if !s.Idle? {
      match c
      case Savepoint(name) =>
        if s.InTrans? { HiddenSnoc(s.stack, Mark(name, s.db)); }
      case Release(name) => FindHidden(s.stack, name);
      case RollbackTo(name) => FindHidden(s.stack, name);
      case Work(_, _) =>
      case Begin =>
      case Commit(_) =>
      case Rollback =>
    }
  }

  /** A user's RELEASE or ROLLBACK TO takes the hidden savepoint on top with it. */
  lemma TopGoes<D>(s: Server<D>, c: Stmt<D>, version: int)
    requires s.InTrans? && (c.Release? || c.RollbackTo?) && !UsesTemp(c)
    ensures var s2 := Exec(InTrans(s.base, s.stack + [Mark(TEMP, s.db)], s.db), c, version).0;
            s2.InTrans? ==> Hidden(s2.stack) <= Hidden(s.stack)
  {
    assert (s.stack + [Mark(TEMP, s.db)])[..|s.stack|] == s.stack;
    FindHidden(s.stack, c.name);
  }

  lemma OpenedInView<D>(s: Server<D>, call: Call<D>)
    ensures UserView(Opened(s, call)) == Opened(UserView(s), call)
    ensures HiddenIn(Opened(s, call)) == HiddenIn(s)
  {
  }

  /** The statements that psql adds around the user's. */
  lemma Bracketing<D>(s: Server<D>, call: Call<D>, version: int)
    ensures s.Idle? && !call.autocommit && !call.NoBegin() ==> Exec(s, Begin, version) == (Opened(s, call), OtherDone)
    ensures var s1 := Opened(s, call);
            s1.InTrans? ==>
              Exec(s1, Savepoint(TEMP), version) ==
              if version < 80000 then (Failed(s1.base, s1.stack), Error)
              else (InTrans(s1.base, s1.stack + [Mark(TEMP, s1.db)], s1.db), SavepointDone)
  {
  }

  lemma Replies<D>(s: Server<D>, c: Stmt<D>, version: int)
    requires s.InTrans?
    ensures var (s2, reply) := Exec(s, c, version);
            (s2.Failed? ==> reply == Error) && (s2.InTrans? ==> reply != Error) &&
            (c.Work? ==> reply == OtherDone || reply == Error)
  {
  }

  lemma OtherReplies<D>(s: Server<D>, c: Stmt<D>, version: int)
    requires s.InTrans? && !c.Release? && !c.RollbackTo? && !c.Savepoint?
    ensures var (s2, reply) := Exec(s, c, version); s2.InTrans? ==> reply == OtherDone
  {
  }

  lemma UseTop<D>(base: D, stack: seq<Mark<D>>, m: Mark<D>, db: D, version: int)
    ensures Exec(Failed(base, stack + [m]), RollbackTo(m.name), version) ==
            (InTrans(base, stack + [m], m.db), RollbackDone)
    ensures Exec(InTrans(base, stack + [m], db), Release(m.name), version) ==
            (InTrans(base, stack, db), ReleaseDone)
  {
  }

  /** What becomes of the hidden savepoint after the user's statement. */
  lemma SavepointEnds<D>(s: Server<D>, c: Stmt<D>, version: int)
    requires s.InTrans? && !UsesTemp(c)
    ensures var marked := InTrans(s.base, s.stack + [Mark(TEMP, s.db)], s.db);
            var (s2, reply) := Exec(marked, c, version);
            && Exec(UserView(s), c, version) == (UserView(s2), reply)
            && UserView(marked) == UserView(s) && HiddenIn(marked) == Hidden(s.stack) + 1
            && (s2.Failed? ==> reply == Error && Exec(s2, RollbackTo(TEMP), version) == (marked, RollbackDone))
            && (s2.InTrans? && reply == OtherDone ==>
                  var s3 := InTrans(s.base, s.stack, s2.db);
                  Exec(s2, Release(TEMP), version) == (s3, ReleaseDone) && UserView(s3) == UserView(s2))
            && (s2.InTrans? && reply != OtherDone ==>
                  reply != Error && HiddenIn(s2) <= Hidden(s.stack) + (if c.Savepoint? then 1 else 0))
  {
    hide Exec, Find, UserMarks, Hidden;
    var marked := InTrans(s.base, s.stack + [Mark(TEMP, s.db)], s.db);
    UnderSavepoint(s, c, version);
    HiddenSnoc(s.stack, Mark(TEMP, s.db));
    UserMarksSnoc(s.stack, Mark(TEMP, s.db));
    ExecHidden(marked, c, version);
    Replies(marked, c, version);
    if c.Release? || c.RollbackTo? { TopGoes(s, c, version); } else if !c.Savepoint? { OtherReplies(marked, c, version); }
    var s2 := Exec(marked, c, version).0;
    UseTop(s.base, s.stack, Mark(TEMP, s.db), if s2.InTrans? then s2.db else s.db, version);
  }

  // ---------------------------------------------------------------------
  // psql

  class Session<D> {
    var server: Server<D>
    var warned: bool      // the complaint about a server before 8.0 has been made
    const version: int    // of the server

    constructor (server: Server<D>, version: int)
      ensures this.server == server && this.version == version && !warned
    {
      this.server, this.version, this.warned := server, version, false;
    }

    /** Sends one statement to the server and waits for the reply. */
    method PQexec(c: Stmt<D>) returns (reply: Reply)
      modifies this`server
      ensures (server, reply) == Exec(old(server), c, version)
    {
      var r := Exec(server, c, version);
      server, reply := r.0, r.1;
    }

    /**
      A SELECT through a cursor.  The declaration and the fetches stand for one
      piece of work; what is left is the bracketing: a transaction of its own
      when there is none, and the CLOSE that is tried in any case.
     */
    method ExecQueryUsingCursor(run: D -> Option<D>, accepted: D -> bool) returns (ok: bool)
      modifies this`server
      ensures var (s2, reply) := Exec(old(server), Work(run, accepted), version);
              server == s2 && ok == (reply != Error)
    {
      var startedTxn := false;
      if server.Idle? {
        var begun := PQexec(Begin);
        startedTxn := true;
      }
      var reply := PQexec(Work(run, accepted));
      ok := reply != Error;
      var closed := PQexec(Work(d => Some(d), _ => true));
      if ok { ok := closed != Error; }
      if startedTxn {
        var ended := PQexec(if ok then Commit(accepted) else Rollback);
        ok := ok && ended != Error;
      }
    }

    /** What a query does to the session, by the settings in force. */
    method SendQuery(call: Call<D>) returns (ok: bool)
      requires call.Valid()
      modifies this`server, this`warned
      ensures Untouched(old(server), call, server, ok, version)
      ensures Uncommitted(old(server), call, server, ok, version)
      ensures Guarded(old(server), call, server, ok, version)
      ensures version >= 80000 ==> (UserView(server), ok) == IdealStep(UserView(old(server)), call, version)
      ensures version >= 80000 ==> warned == old(warned)
      ensures version >= 80000 ==>
                HiddenIn(server) <= HiddenIn(old(server)) + (if ok && !call.stmt.Savepoint? then 0 else 1)
      ensures version < 80000 ==> BeforeSavepoints(old(server), call, server, ok, old(warned), version)
      ensures version < 80000 ==> warned == (old(warned) || (Opened(old(server), call).InTrans? && call.Protects()))
    {
      hide UserView, IdealStep, HiddenIn;
      ok := Transact(call);
      if version >= 80000 {
        Promises(old(server), call, server, ok, version);
      } else {
        OldPromises(old(server), call, server, ok, old(warned), version);
      }
    }

    /** From the transaction status on to the end of the temporary savepoint. */
    method Transact(call: Call<D>) returns (ok: bool)
      requires call.Valid()
      modifies this`server, this`warned
      ensures version >= 80000 ==>
                (UserView(server), ok) == IdealStep(UserView(old(server)), call, version)
      ensures version >= 80000 ==> warned == old(warned)
      ensures version >= 80000 ==>
                HiddenIn(server) <= HiddenIn(old(server)) + (if ok && !call.stmt.Savepoint? then 0 else 1)
      ensures Untouched(old(server), call, server, ok, version)
      ensures version < 80000 ==> BeforeSavepoints(old(server), call, server, ok, old(warned), version)
      ensures version < 80000 ==> warned == (old(warned) || (Opened(old(server), call).InTrans? && call.Protects()))
    {
      hide Exec, UserMarks, Hidden, Find, LeadingWords.NoBegin, LeadingWords.Words;
      Bracketing(old(server), call, version);
      ok := false;
      var noBegin := LeadingWords.CommandNoBegin(call.query, call.mblen);
      if server.Idle? && !call.autocommit && !noBegin {
        var begun := PQexec(Begin);
      }
      ghost var s1 := server;
      OpenedInView(old(server), call);
      ExecInView(s1, call.stmt, version);
      ExecHidden(s1, call.stmt, version);
      if s1.InTrans? { Replies(UserView(s1), call.stmt, version); }
      var madeSavepoint := false;
      if server.InTrans? && call.mode != Off && (call.interactive || call.mode == On) {
        if !warned && version < 80000 {
          warned := true;
        } else {
          var made := PQexec(Savepoint(TEMP));
          if made == Error { return; }
          madeSavepoint := true;
        }
      }
      var results;
      results, ok := RunQuery(call);
      if madeSavepoint {
        ok := EndSavepoint(results, ok, s1, call.stmt);
      }
    }

    /** Runs the statement itself; through a cursor there is no result to look at afterwards. */
    method RunQuery(call: Call<D>) returns (results: Option<Reply>, ok: bool)
      requires call.Valid()
      modifies this`server
      ensures var (s2, reply) := Exec(old(server), call.stmt, version);
              server == s2 && ok == (reply != Error) &&
              (results == Some(reply) || (results == None && call.stmt.Work?))
    {
      var isSelect := LeadingWords.IsSelectCommand(call.query, call.mblen);
      if call.fetchCount <= 0 || !isSelect {
        var reply := PQexec(call.stmt);
        return Some(reply), reply != Error;
      } else {
        ok := ExecQueryUsingCursor(call.stmt.run, call.stmt.accepted);
        results := None;
      }
    }

    /** Releases the hidden savepoint, or rolls back to it, after the statement c. */
    method EndSavepoint(results: Option<Reply>, ok0: bool, ghost s1: Server<D>, ghost c: Stmt<D>) returns (ok: bool)
      requires version >= 80000 && s1.InTrans? && !UsesTemp(c)
      requires var (s2, reply) := Exec(InTrans(s1.base, s1.stack + [Mark(TEMP, s1.db)], s1.db), c, version);
               server == s2 && ok0 == (reply != Error) && (results == Some(reply) || (results == None && c.Work?))
      modifies this`server
      ensures var (i2, reply) := Exec(UserView(s1), c, version);
              UserView(server) == (if i2.Failed? then UserView(s1) else i2) && ok == (reply != Error)
      ensures HiddenIn(server) <= Hidden(s1.stack) + (if ok && !c.Savepoint? then 0 else 1)
    {
      hide Exec, Hidden, UserMarks;
      SavepointEnds(s1, c, version);
      Replies(InTrans(s1.base, s1.stack + [Mark(TEMP, s1.db)], s1.db), c, version);
      ok := ok0;
      match server {
        case Failed(_, _) =>
          var undone := PQexec(RollbackTo(TEMP));
          if undone == Error { return false; }
        case Idle(_) =>
        case InTrans(_, _, _) =>
          if results.Some? && (results.value == SavepointDone || results.value == ReleaseDone ||
                               results.value == RollbackDone) {
          } else {
            var released := PQexec(Release(TEMP));
            if released == Error { return false; }
          }
      }
    }

    /** Any number of queries, each with the settings then in force. */
    method SendAll(calls: seq<Call<D>>) returns (oks: seq<bool>)
      requires version >= 80000
      requires forall i :: 0 <= i < |calls| ==> calls[i].Valid()
      modifies this`server, this`warned
      ensures (UserView(server), oks) == IdealRun(UserView(old(server)), calls, version)
      ensures !old(server).Failed? && (forall i :: 0 <= i < |calls| ==> calls[i].Protects()) ==> !server.Failed?
    {
      hide UserView, HiddenIn, Untouched, Uncommitted, Guarded, IdealStep, IdealRun;
      oks := [];
      RunNothing(UserView(old(server)), version);
      for i := 0 to |calls|
        invariant (UserView(server), oks) == IdealRun(UserView(old(server)), calls[..i], version)
      {
        var ok := SendQuery(calls[i]);
        assert calls[..i + 1] == calls[..i] + [calls[i]];
        RunOneMore(UserView(old(server)), calls[..i], calls[i], version);
        oks := oks + [ok];
      }
      assert calls[..|calls|] == calls;
      if !old(server).Failed? && (forall i :: 0 <= i < |calls| ==> calls[i].Protects()) {
        ViewFails(old(server));
        ViewFails(server);
        NeverFailed(UserView(old(server)), calls, version);
      }
    }
  }
}
