/** `Pool::transaction` and its guard (backend/src/db.rs) over a remote session, whatever the
    server answers. */
module HranaTransaction {
  import opened Bytes
  import opened Utf8
  import opened Trim
  import opened JsonValue
  import opened JsonParser
  import opened JsonPrinter
  import opened HranaSession

  type Outcome = Result<Option<Json>, Failure>

  /** What the closure does next: it ends, with an error or a panic when not `ok`, or issues a
      statement. */
  datatype Move = Return(ok: bool) | Issue(sql: Text, args: seq<Value>)

  /** The closure as a function of the outcomes of its statements so far. */
  type Closure = seq<Outcome> -> Move

  predicate AreUtf8(args: seq<Value>) {
    forall i :: 0 <= i < |args| && args[i].TextValue? ==> IsUtf8(args[i].s)
  }

  /** Its statements are Rust strings, and it ends after `limit` of them at the latest. */
  ghost predicate IsClosure(f: Closure, limit: nat) {
    forall past :: f(past).Issue? ==> |past| < limit && IsUtf8(f(past).sql) && AreUtf8(f(past).args)
  }

  /** A statement, the baton it was sent with, and whether it succeeded. */
  datatype Exchange = Exchange(sql: Text, baton: Option<Text>, ok: bool)

  /** What was sent and how it ended, what was returned, and the baton that is left. */
  datatype Trace = Trace(log: seq<Exchange>, ok: bool, baton: Option<Text>)

  function OutcomeOf(sql: Text, baton: Option<Text>, raw: Option<Text>): (Option<Text>, Outcome) {
    Executed(StatementKind(sql), ClosesKind(StatementKind(sql), baton), Response(raw))
  }

  /** The closure's statements, each answered by the next response. */
  ghost function Traced(
    f: Closure, limit: nat, past: seq<Outcome>, baton: Option<Text>, answers: nat -> Option<Text>): Trace
    requires IsClosure(f, limit)
    decreases limit - |past|
  {
    match f(past)
    case Return(ok) => Trace([], ok, baton)
    case Issue(sql, _) =>
      var o := OutcomeOf(sql, baton, answers(|past| + 1));
      var rest := Traced(f, limit, past + [o.1], o.0, answers);
      Trace([Exchange(sql, baton, o.1.Ok?)] + rest.log, rest.ok, rest.baton)
  }

  function Prepended(log: seq<Exchange>, t: Trace): Trace {
    t.(log := log + t.log)
  }

  lemma TracedOnce(
    f: Closure, limit: nat, log: seq<Exchange>, past: seq<Outcome>, baton: Option<Text>, answers: nat -> Option<Text>)
    requires IsClosure(f, limit) && f(past).Issue?
    ensures var o := OutcomeOf(f(past).sql, baton, answers(|past| + 1));
      Prepended(log, Traced(f, limit, past, baton, answers))
        == Prepended(log + [Exchange(f(past).sql, baton, o.1.Ok?)], Traced(f, limit, past + [o.1], o.0, answers))
  {
    hide OutcomeOf, IsClosure;
    var o := OutcomeOf(f(past).sql, baton, answers(|past| + 1));
    var rest := Traced(f, limit, past + [o.1], o.0, answers).log;
    var e := Exchange(f(past).sql, baton, o.1.Ok?);
    assert log + ([e] + rest) == (log + [e]) + rest;
  }

  lemma TracedEnd(
    f: Closure, limit: nat, log: seq<Exchange>, past: seq<Outcome>, baton: Option<Text>, answers: nat -> Option<Text>)
    requires IsClosure(f, limit) && f(past).Return?
    ensures Prepended(log, Traced(f, limit, past, baton, answers)) == Trace(log, f(past).ok, baton)
  {
    assert log + [] == log;
  }

  /** `f(db)` */
  method RunClosure(session: Session, f: Closure, ghost limit: nat, answers: nat -> Option<Text>)
    returns (log: seq<Exchange>, ok: bool)
    requires session.Valid() && IsClosure(f, limit)
    modifies session
    ensures session.Valid()
    ensures Trace(log, ok, session.baton) == Traced(f, limit, [], old(session.baton), answers)
  {
    hide Executed, StatementKind, Response, PipelineBody, Proper, Integral, Stringified, IsUtf8, Traced;
    var past: seq<Outcome> := [];
    var move := f(past);
    log := [];
    assert forall t: Trace :: [] + t.log == t.log;
    while move.Issue?
      invariant session.Valid() && move == f(past)
      invariant Traced(f, limit, [], old(session.baton), answers)
        == Prepended(log, Traced(f, limit, past, session.baton, answers))
      decreases limit - |past|
    {
      var baton := session.baton;
      TracedOnce(f, limit, log, past, baton, answers);
      var body, r := session.Execute(move.sql, move.args, answers(|past| + 1));
      past := past + [r];
      log := log + [Exchange(move.sql, baton, r.Ok?)];
      move := f(past);
    }
    ok := move.ok;
    TracedEnd(f, limit, log, past, session.baton, answers);
  }

  const BEGIN: Text := "BEGIN IMMEDIATE"
  const COMMIT: Text := "COMMIT"
  const ROLLBACK: Text := "ROLLBACK"

  lemma Statements()
    ensures StatementKind(BEGIN) == Begin && StatementKind(COMMIT) == End && StatementKind(ROLLBACK) == End
    ensures IsUtf8(BEGIN) && IsUtf8(COMMIT) && IsUtf8(ROLLBACK)
  {
    hide StatementKind, IsUtf8, TrimStart, UpperAll;
    PoolStatements(BEGIN);
    PoolStatements(COMMIT);
    PoolStatements(ROLLBACK);
    Untouched(BEGIN);
    Untouched(COMMIT);
    Untouched(ROLLBACK);
  }

  lemma Untouched(s: Text)
    requires s != [] && forall i :: 0 <= i < |s| ==> 'A' <= s[i] <= 'Z' || (i > 0 && s[i] == ' ')
    ensures TrimStart(s) == s == UpperAll(s) && IsUtf8(s)
  {
    hide IsUtf8;
    AsciiIsUtf8(s);
  }

  predicate Began(response: Option<Json>) {
    Executed(Begin, false, response).1.Ok?
  }

  /** One more statement, and how the transaction ends with it. */
  function Then(log: seq<Exchange>, sql: Text, baton: Option<Text>, answers: nat -> Option<Text>): Trace {
    var o := OutcomeOf(sql, baton, answers(|log|));
    Trace(log + [Exchange(sql, baton, o.1.Ok?)], o.1.Ok?, o.0)
  }

  function RolledBack(t: Trace, answers: nat -> Option<Text>): Trace {
    Then(t.log, ROLLBACK, t.baton, answers).(ok := false)
  }

  /** The closure within its transaction, and the end it calls for. */
  function Ended(begun: Exchange, inner: Trace, answers: nat -> Option<Text>): Trace {
    var t := inner.(log := [begun] + inner.log);
    if !t.ok then RolledBack(t, answers)
    else
      var done := Then(t.log, COMMIT, t.baton, answers);
      if done.ok then done else RolledBack(done, answers)
  }

  ghost function TransactionTrace(
    f: Closure, limit: nat, baton: Option<Text>, answers: nat -> Option<Text>): Trace
    requires IsClosure(f, limit)
  {
    var o := OutcomeOf(BEGIN, baton, answers(0));
    var begun := Exchange(BEGIN, baton, o.1.Ok?);
    if o.1.Err? then Trace([begun], false, o.0) else Ended(begun, Traced(f, limit, [], o.0, answers), answers)
  }

  /** `Pool::transaction`, with `TxGuard`, on one session. */
  method Transaction(session: Session, f: Closure, ghost limit: nat, answers: nat -> Option<Text>)
    returns (log: seq<Exchange>, ok: bool)
    requires session.Valid() && IsClosure(f, limit)
    modifies session
    ensures session.Valid()
    ensures Trace(log, ok, session.baton) == TransactionTrace(f, limit, old(session.baton), answers)
    ensures session.baton.Some? <==> KeepsBaton(Response(answers(0)))
  {
    hide StatementKind, Response, PipelineBody, Proper, Integral, Stringified, IsUtf8, Traced, BEGIN, COMMIT, ROLLBACK;
    Statements();
    var baton := session.baton;
    var body, r := session.Execute(BEGIN, [], answers(0));
    log := [Exchange(BEGIN, baton, r.Ok?)];
    if r.Err? {
      return log, false;
    }
    var inner, done := RunClosure(session, f, limit, answers);
    log := log + inner;
    ok := false;
    if done {
      baton := session.baton;
      body, r := session.Execute(COMMIT, [], answers(|log|));
      log := log + [Exchange(COMMIT, baton, r.Ok?)];
      ok := r.Ok?;
    }
    if !ok {
      baton := session.baton;
      body, r := session.Execute(ROLLBACK, [], answers(|log|));
      log := log + [Exchange(ROLLBACK, baton, r.Ok?)];
    }
  }

  /** What is sent, in order, and what is returned: BEGIN; if it succeeds, the closure's statements;
      COMMIT if the closure returned Ok; ROLLBACK unless that succeeded. */
  lemma TransactionShape(f: Closure, limit: nat, baton: Option<Text>, answers: nat -> Option<Text>)
    requires IsClosure(f, limit)
    ensures var t := TransactionTrace(f, limit, baton, answers);
      var begun := Began(Response(answers(0)));
      && t.log != [] && t.log[0] == Exchange(BEGIN, baton, begun)
      && (!begun ==> !t.ok && |t.log| == 1)
      && (begun ==> IsEnded(t, Traced(f, limit, [], NextBaton(Begin, false, Response(answers(0)), false), answers)))
  {
    hide StatementKind, Response, Traced, Ended, IsEnded, BEGIN, COMMIT, ROLLBACK;
    Statements();
    var o := OutcomeOf(BEGIN, baton, answers(0));
    assert o == Executed(Begin, false, Response(answers(0)));
    if Began(Response(answers(0))) {
      assert o.0 == NextBaton(Begin, false, Response(answers(0)), false);
      var inner := Traced(f, limit, [], o.0, answers);
      EndedShape(Exchange(BEGIN, baton, true), inner, answers);
    }
  }

  lemma EndedShape(begun: Exchange, inner: Trace, answers: nat -> Option<Text>)
    ensures IsEnded(Ended(begun, inner, answers), inner)
    ensures Ended(begun, inner, answers).log != [] && Ended(begun, inner, answers).log[0] == begun
  {
    hide OutcomeOf, BEGIN, COMMIT, ROLLBACK;
  }

  predicate IsEnded(t: Trace, inner: Trace) {
    var n := |inner.log| + 1;
    && |t.log| > n && t.log[1..n] == inner.log
    && (t.ok <==> inner.ok && t.log[n].ok && t.log[n].sql == COMMIT)
    && (if inner.ok then t.log[n].sql == COMMIT && |t.log| == n + (if t.ok then 1 else 2) else |t.log| == n + 1)
    && (!t.ok ==> t.log[|t.log| - 1].sql == ROLLBACK)
  }
}
