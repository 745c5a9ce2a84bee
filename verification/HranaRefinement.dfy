/** The transaction of `HranaTransaction`, answered by the intended server, does what a session of
    `HranaProtocol` does, so that the theorems about the protocol are about the code. */
module HranaRefinement {
  import opened Bytes
  import opened JsonValue
  import opened HranaSession
  import opened HranaTransaction
  import P = HranaProtocol
  import I = HranaInvariant

  /** Which statement of the protocol a statement is. `name` tells the closure's statements apart. */
  predicate Names(sql: P.Sql, text: Text, name: Text -> nat) {
    match sql
    case Begin => text == BEGIN
    case Commit => text == COMMIT
    case Rollback => text == ROLLBACK
    case Write(w) => StatementKind(text) == Stmt && w == name(text)
  }

  /** The request is the one that carries the statement. */
  predicate Carries(q: P.Request, e: Exchange, name: Text -> nat) {
    Names(q.sql, e.sql, name) && q.baton == e.baton && q.close == ClosesKind(StatementKind(e.sql), e.baton)
  }

  predicate Carry(qs: seq<P.Request>, log: seq<Exchange>, name: Text -> nat) {
    |qs| == |log| && forall i :: 0 <= i < |qs| ==> Carries(qs[i], log[i], name)
  }

  /** A closure of the backend: it issues no statement of its own that begins or ends a
      transaction, and returns the first error. */
  ghost predicate IsPlainClosure(f: Closure) {
    && (forall past :: f(past).Issue? ==> StatementKind(f(past).sql) == Stmt)
    && (forall past: seq<Outcome>, i :: 0 <= i < |past| && past[i].Err? ==> f(past) == Return(false))
  }

  /** The server is the intended one: what comes back renders the replies of the protocol. */
  ghost predicate AreRendered(answers: nat -> Option<Text>, replies: nat -> Option<P.Reply>) {
    forall k: nat :: Renders(Response(answers(k)), replies(k))
  }

  // ==== what a session does by itself ====

  predicate IsSend(a: P.Action, c: nat) {
    (a.Start? || a.Issue? || a.Finish? || a.Undo?) && a.c == c
  }

  /** Session `c` may act in `s`. */
  ghost predicate CanAct(s: P.World, c: nat, a: P.Action) {
    c in s.clients && P.Tracked(s) && P.Enabled(s, a)
  }

  /** The world after session `c` sent a statement and got `reply`, as in `Hear` and `GiveUp`. */
  ghost function Exchanged(s: P.World, c: nat, a: P.Action, reply: Option<P.Reply>): P.World
    requires CanAct(s, c, a) && IsSend(a, c)
  {
    P.Resumes(P.Next(s, a), c, reply)
  }

  ghost function SentBy(s: P.World, c: nat, a: P.Action): P.Request
    requires CanAct(s, c, a) && IsSend(a, c)
  {
    P.Next(s, a).requests[s.nextMsg]
  }

  /** Session `c` goes from `s` to `z` by the actions `acts`, sends `qs`, and hears the replies from
      number `k` on. */
  ghost predicate IsPlay(
    s: P.World, c: nat, acts: seq<P.Action>, replies: nat -> Option<P.Reply>, k: nat,
    z: P.World, qs: seq<P.Request>)
    decreases |acts|
  {
    if acts == [] then z == s && qs == []
    else if !CanAct(s, c, acts[0]) then false
    else if acts[0] == P.Abandon(c) then IsPlay(P.Next(s, acts[0]), c, acts[1..], replies, k, z, qs)
    else
      && IsSend(acts[0], c) && qs != [] && qs[0] == SentBy(s, c, acts[0])
      && IsPlay(Exchanged(s, c, acts[0], replies(k)), c, acts[1..], replies, k + 1, z, qs[1..])
  }

  lemma {:induction false} PlayThen(
    s: P.World, c: nat, acts: seq<P.Action>, replies: nat -> Option<P.Reply>, k: nat, y: P.World, qs: seq<P.Request>,
    more: seq<P.Action>, z: P.World, others: seq<P.Request>)
    requires IsPlay(s, c, acts, replies, k, y, qs) && IsPlay(y, c, more, replies, k + |qs|, z, others)
    ensures IsPlay(s, c, acts + more, replies, k, z, qs + others)
    decreases |acts|
  {
    hide P.Enabled, P.Tracked, Exchanged, SentBy, P.Next;
    if acts == [] {
      assert acts + more == more && qs + others == others;
    } else {
      assert (acts + more)[1..] == acts[1..] + more;
      if acts[0] == P.Abandon(c) {
        PlayThen(P.Next(s, acts[0]), c, acts[1..], replies, k, y, qs, more, z, others);
      } else {
        assert (qs + others)[1..] == qs[1..] + others;
        PlayThen(Exchanged(s, c, acts[0], replies(k)), c, acts[1..], replies, k + 1, y, qs[1..], more, z, others);
      }
    }
  }

  /** A play of one action. */
  lemma PlayOne(s: P.World, c: nat, a: P.Action, replies: nat -> Option<P.Reply>, k: nat)
    requires CanAct(s, c, a) && IsSend(a, c)
    ensures IsPlay(s, c, [a], replies, k, Exchanged(s, c, a, replies(k)), [SentBy(s, c, a)])
  {
    hide CanAct, Exchanged, SentBy;
    assert [a][1..] == [] && [SentBy(s, c, a)][1..] == [];
  }

  // ==== one exchange ====

  /** Where session `c` is. */
  predicate At(s: P.World, c: nat, baton: Option<Text>, phase: P.Phase, a: P.Attempt) {
    && c in s.clients && s.clients[c].phase == phase && s.clients[c].baton == baton
    && s.clients[c].tx in s.attempts && s.attempts[s.clients[c].tx] == a
  }

  predicate SendsAs(q: P.Request, sql: P.Sql, baton: Option<Text>) {
    q.sql == sql && q.baton == baton && q.close == P.Closes(sql, baton)
  }

  lemma StartPlays(s: P.World, c: nat, reply: Option<P.Reply>)
    requires c in s.clients && P.Tracked(s) && s.clients[c].phase.Idle?
    ensures CanAct(s, c, P.Start(c)) && P.Tracked(Exchanged(s, c, P.Start(c), reply))
    ensures SendsAs(SentBy(s, c, P.Start(c)), P.Begin, s.clients[c].baton)
    ensures At(Exchanged(s, c, P.Start(c), reply), c, P.NextBaton(P.Begin, false, reply),
               if P.Succeeds(P.Begin, false, reply) then P.Body else P.Idle,
               P.Attempt([], None, false,
                         if P.Succeeds(P.Begin, false, reply) then P.Running else P.Returned(false)))
  {
    hide P.NextBaton, P.Succeeds;
  }

  lemma IssuePlays(s: P.World, c: nat, w: nat, a: P.Attempt, reply: Option<P.Reply>)
    requires P.Tracked(s) && c in s.clients && At(s, c, s.clients[c].baton, P.Body, a)
    ensures CanAct(s, c, P.Issue(c, w)) && P.Tracked(Exchanged(s, c, P.Issue(c, w), reply))
    ensures SendsAs(SentBy(s, c, P.Issue(c, w)), P.Write(w), s.clients[c].baton)
    ensures var close := P.Closes(P.Write(w), s.clients[c].baton);
      At(Exchanged(s, c, P.Issue(c, w), reply), c, P.NextBaton(P.Write(w), close, reply),
         if P.Succeeds(P.Write(w), close, reply) then P.Body else P.Failed, a.(issued := a.issued + [w]))
  {
    hide P.NextBaton, P.Succeeds;
  }

  lemma FinishPlays(s: P.World, c: nat, a: P.Attempt, reply: Option<P.Reply>)
    requires P.Tracked(s) && c in s.clients && At(s, c, s.clients[c].baton, P.Body, a)
    ensures CanAct(s, c, P.Finish(c)) && P.Tracked(Exchanged(s, c, P.Finish(c), reply))
    ensures SendsAs(SentBy(s, c, P.Finish(c)), P.Commit, s.clients[c].baton)
    ensures var ok := P.Succeeds(P.Commit, true, reply);
      At(Exchanged(s, c, P.Finish(c), reply), c, None, if ok then P.Idle else P.Failed,
         P.Attempt(a.issued, Some(s.nextMsg), reply.Some?, if ok then P.Returned(true) else P.Running))
  {
    hide P.Succeeds;
  }

  lemma UndoPlays(s: P.World, c: nat, a: P.Attempt, reply: Option<P.Reply>)
    requires P.Tracked(s) && c in s.clients && At(s, c, s.clients[c].baton, P.Failed, a)
    ensures CanAct(s, c, P.Undo(c)) && P.Tracked(Exchanged(s, c, P.Undo(c), reply))
    ensures SendsAs(SentBy(s, c, P.Undo(c)), P.Rollback, s.clients[c].baton)
    ensures At(Exchanged(s, c, P.Undo(c), reply), c, None, P.Idle, a.(status := P.Returned(false)))
  {
    hide P.Succeeds;
  }

  lemma AbandonPlays(s: P.World, c: nat, a: P.Attempt)
    requires P.Tracked(s) && c in s.clients && At(s, c, s.clients[c].baton, P.Body, a)
    ensures CanAct(s, c, P.Abandon(c)) && P.Tracked(P.Next(s, P.Abandon(c)))
    ensures At(P.Next(s, P.Abandon(c)), c, s.clients[c].baton, P.Failed, a)
  {
  }

  /** One statement does in the code what it does in the protocol. */
  lemma Follows(
    sql: P.Sql, text: Text, baton: Option<Text>, raw: Option<Text>, r: Option<P.Reply>, name: Text -> nat, q: P.Request)
    requires Names(sql, text, name) && Renders(Response(raw), r) && SendsAs(q, sql, baton)
    ensures var o := OutcomeOf(text, baton, raw);
      && o.0 == P.NextBaton(sql, P.Closes(sql, baton), r) && (o.1.Ok? <==> P.Succeeds(sql, P.Closes(sql, baton), r))
      && Carries(q, Exchange(text, baton, o.1.Ok?), name)
  {
    hide StatementKind, Response, Executed, Renders, BEGIN, COMMIT, ROLLBACK;
    Statements();
    ExecuteFollowsProtocol(sql, P.Closes(sql, baton), Response(raw), r);
    ClosesFollowsProtocol(sql, baton);
  }

  // ==== the closure ====

  /** The closure has not failed so far, and session `c` is in its body. */
  ghost predicate InBody(s: P.World, c: nat, a: P.Attempt) {
    c in s.clients && P.Tracked(s) && At(s, c, s.clients[c].baton, P.Body, a)
  }

  /** The payloads of the statements. */
  function Payloads(log: seq<Exchange>, name: Text -> nat): seq<nat> {
    if log == [] then [] else [name(log[0].sql)] + Payloads(log[1..], name)
  }

  /** Where the closure leaves session `c`. */
  ghost predicate IsLeft(z: P.World, c: nat, a: P.Attempt, t: Trace, name: Text -> nat) {
    && c in z.clients && P.Tracked(z)
    && At(z, c, t.baton, if t.ok then P.Body else P.Failed, a.(issued := a.issued + Payloads(t.log, name)))
  }

  ghost predicate AreOk(past: seq<Outcome>) {
    forall i :: 0 <= i < |past| ==> past[i].Ok?
  }

  /** By `acts` session `c` does what the closure does from here on. */
  ghost predicate IsPlayed(
    s: P.World, c: nat, a: P.Attempt, t: Trace, k: nat, replies: nat -> Option<P.Reply>, name: Text -> nat,
    acts: seq<P.Action>, z: P.World, qs: seq<P.Request>) {
    IsPlay(s, c, acts, replies, k, z, qs) && Carry(qs, t.log, name) && IsLeft(z, c, a, t, name)
  }

  lemma {:induction false} ClosurePlays(
    s: P.World, c: nat, a: P.Attempt, f: Closure, limit: nat, past: seq<Outcome>,
    answers: nat -> Option<Text>, replies: nat -> Option<P.Reply>, name: Text -> nat)
    returns (acts: seq<P.Action>, z: P.World, qs: seq<P.Request>)
    requires InBody(s, c, a) && IsClosure(f, limit) && IsPlainClosure(f) && AreOk(past)
    requires AreRendered(answers, replies)
    ensures IsPlayed(
      s, c, a, Traced(f, limit, past, s.clients[c].baton, answers), |past| + 1, replies, name, acts, z, qs)
    decreases limit - |past|
  {
    hide P.Tracked, At, CanAct, Exchanged, SentBy, Carries, StatementKind, Response, Renders, OutcomeOf, IsPlayed;
    match f(past)
    case Return(ok) =>
      var t := Traced(f, limit, past, s.clients[c].baton, answers);
      acts, z, qs := ReturnPlays(s, c, a, t, |past| + 1, replies, name);
    case Issue(sql, args) =>
      var k, baton := |past| + 1, s.clients[c].baton;
      var o := OutcomeOf(sql, baton, answers(k));
      StatementPlays(s, c, a, sql, answers(k), replies(k), name);
      var y, q := Exchanged(s, c, P.Issue(c, name(sql)), replies(k)), SentBy(s, c, P.Issue(c, name(sql)));
      var b := a.(issued := a.issued + [name(sql)]);
      var t := Traced(f, limit, past + [o.1], o.0, answers);
      if o.1.Ok? {
        SlotIs(y, c, o.0, b);
        acts, z, qs := ClosurePlays(y, c, b, f, limit, past + [o.1], answers, replies, name);
      } else {
        assert (past + [o.1])[|past|].Err?;
        acts, z, qs := [], y, [];
        NothingPlays(y, c, b, o.0, k + 1, replies, name);
      }
      StatementFirst(s, c, a, sql, o, t, k, replies, name, acts, z, qs);
      acts, qs := [P.Issue(c, name(sql))] + acts, [q] + qs;
  }

  lemma SlotIs(y: P.World, c: nat, baton: Option<Text>, a: P.Attempt)
    requires c in y.clients && P.Tracked(y) && At(y, c, baton, P.Body, a)
    ensures InBody(y, c, a) && y.clients[c].baton == baton
  {
  }

  /** The closure ends. */
  lemma ReturnPlays(
    s: P.World, c: nat, a: P.Attempt, t: Trace, k: nat, replies: nat -> Option<P.Reply>, name: Text -> nat)
    returns (acts: seq<P.Action>, z: P.World, qs: seq<P.Request>)
    requires InBody(s, c, a) && t.log == [] && t.baton == s.clients[c].baton
    ensures IsPlayed(s, c, a, t, k, replies, name, acts, z, qs)
  {
    hide P.Tracked, P.Enabled, P.Next, Exchanged, SentBy;
    assert a.issued + [] == a.issued && a.(issued := a.issued) == a;
    if t.ok {
      acts, z, qs := [], s, [];
    } else {
      AbandonPlays(s, c, a);
      acts, z, qs := [P.Abandon(c)], P.Next(s, P.Abandon(c)), [];
      assert acts[1..] == [] && IsPlay(z, c, [], replies, k, z, []);
    }
  }

  /** A failed statement ends the closure. */
  lemma NothingPlays(
    y: P.World, c: nat, b: P.Attempt, baton: Option<Text>, k: nat, replies: nat -> Option<P.Reply>, name: Text -> nat)
    requires c in y.clients && P.Tracked(y) && At(y, c, baton, P.Failed, b)
    ensures IsPlayed(y, c, b, Trace([], false, baton), k, replies, name, [], y, [])
  {
    assert b.issued + [] == b.issued && b.(issued := b.issued) == b;
  }

  /** A statement of the closure. */
  lemma StatementPlays(
    s: P.World, c: nat, a: P.Attempt, sql: Text, raw: Option<Text>, reply: Option<P.Reply>, name: Text -> nat)
    requires InBody(s, c, a) && StatementKind(sql) == Stmt && Renders(Response(raw), reply)
    ensures CanAct(s, c, P.Issue(c, name(sql)))
    ensures var y := Exchanged(s, c, P.Issue(c, name(sql)), reply);
      var o := OutcomeOf(sql, s.clients[c].baton, raw);
      && c in y.clients && P.Tracked(y)
      && At(y, c, o.0, if o.1.Ok? then P.Body else P.Failed, a.(issued := a.issued + [name(sql)]))
      && Carries(SentBy(s, c, P.Issue(c, name(sql))), Exchange(sql, s.clients[c].baton, o.1.Ok?), name)
  {
    hide P.Tracked, CanAct, Exchanged, SentBy, Carries, StatementKind, Response, Renders, OutcomeOf, SendsAs;
    var w := name(sql);
    IssuePlays(s, c, w, a, reply);
    Follows(P.Write(w), sql, s.clients[c].baton, raw, reply, name, SentBy(s, c, P.Issue(c, w)));
  }

  /** A play of the rest of the closure, after a statement. */
  lemma StatementFirst(
    s: P.World, c: nat, a: P.Attempt, sql: Text, o: (Option<Text>, Outcome), t: Trace, k: nat,
    replies: nat -> Option<P.Reply>, name: Text -> nat, acts: seq<P.Action>, z: P.World, qs: seq<P.Request>)
    requires c in s.clients && CanAct(s, c, P.Issue(c, name(sql)))
    requires Carries(SentBy(s, c, P.Issue(c, name(sql))), Exchange(sql, s.clients[c].baton, o.1.Ok?), name)
    requires IsPlayed(Exchanged(s, c, P.Issue(c, name(sql)), replies(k)), c, a.(issued := a.issued + [name(sql)]),
                      t, k + 1, replies, name, acts, z, qs)
    ensures IsPlayed(s, c, a, Trace([Exchange(sql, s.clients[c].baton, o.1.Ok?)] + t.log, t.ok, t.baton), k, replies,
                     name, [P.Issue(c, name(sql))] + acts, z, [SentBy(s, c, P.Issue(c, name(sql)))] + qs)
  {
    hide P.Tracked, CanAct, Exchanged, SentBy, Carries;
    var e := Exchange(sql, s.clients[c].baton, o.1.Ok?);
    assert ([P.Issue(c, name(sql))] + acts)[1..] == acts;
    assert ([SentBy(s, c, P.Issue(c, name(sql)))] + qs)[1..] == qs;
    assert ([e] + t.log)[1..] == t.log;
    assert a.issued + [name(sql)] + Payloads(t.log, name) == a.issued + ([name(sql)] + Payloads(t.log, name));
  }

  // ==== the whole call ====

  /** The call of session `c` is over, with this result. */
  ghost predicate IsReturned(z: P.World, c: nat, t: Trace, issued: seq<nat>) {
    && c in z.clients && z.clients[c].phase.Idle? && z.clients[c].baton == t.baton && z.clients[c].tx in z.attempts
    && z.attempts[z.clients[c].tx].status == P.Returned(t.ok) && z.attempts[z.clients[c].tx].issued == issued
  }

  /** By `acts` session `c` makes the call end as `t` does, after what `before` holds. */
  ghost predicate IsEnding(
    y: P.World, c: nat, before: seq<Exchange>, t: Trace, issued: seq<nat>, replies: nat -> Option<P.Reply>,
    name: Text -> nat, acts: seq<P.Action>, z: P.World, qs: seq<P.Request>) {
    && before <= t.log && IsPlay(y, c, acts, replies, |before|, z, qs) && Carry(qs, t.log[|before|..], name)
    && IsReturned(z, c, t, issued)
  }

  /** The guard's ROLLBACK. */
  lemma UndoEnds(
    y: P.World, c: nat, a: P.Attempt, t: Trace, answers: nat -> Option<Text>, replies: nat -> Option<P.Reply>,
    name: Text -> nat) returns (z: P.World, q: P.Request)
    requires c in y.clients && P.Tracked(y) && At(y, c, t.baton, P.Failed, a) && AreRendered(answers, replies)
    ensures IsEnding(y, c, t.log, RolledBack(t, answers), a.issued, replies, name, [P.Undo(c)], z, [q])
  {
    hide P.Tracked, CanAct, Exchanged, SentBy, Carries, StatementKind, Response, Renders, OutcomeOf, SendsAs, IsPlay;
    hide BEGIN, COMMIT, ROLLBACK;
    var k := |t.log|;
    UndoPlays(y, c, a, replies(k));
    z, q := Exchanged(y, c, P.Undo(c), replies(k)), SentBy(y, c, P.Undo(c));
    PlayOne(y, c, P.Undo(c), replies, k);
    Follows(P.Rollback, ROLLBACK, t.baton, answers(k), replies(k), name, q);
    assert RolledBack(t, answers).log[k..]
      == [Exchange(ROLLBACK, t.baton, OutcomeOf(ROLLBACK, t.baton, answers(k)).1.Ok?)];
  }

  /** COMMIT. */
  lemma FinishEnds(
    y: P.World, c: nat, a: P.Attempt, t: Trace, answers: nat -> Option<Text>, replies: nat -> Option<P.Reply>,
    name: Text -> nat) returns (z: P.World, q: P.Request, b: P.Attempt)
    requires InBody(y, c, a) && t.baton == y.clients[c].baton && AreRendered(answers, replies)
    ensures var done := Then(t.log, COMMIT, t.baton, answers);
      && IsPlay(y, c, [P.Finish(c)], replies, |t.log|, z, [q]) && Carry([q], done.log[|t.log|..], name)
      && c in z.clients && P.Tracked(z) && b.issued == a.issued
      && At(z, c, done.baton, if done.ok then P.Idle else P.Failed, b)
      && (done.ok ==> b.status == P.Returned(true))
  {
    hide P.Tracked, CanAct, Exchanged, SentBy, Carries, StatementKind, Response, Renders, OutcomeOf, SendsAs, IsPlay;
    hide BEGIN, COMMIT, ROLLBACK;
    var k := |t.log|;
    FinishPlays(y, c, a, replies(k));
    z, q := Exchanged(y, c, P.Finish(c), replies(k)), SentBy(y, c, P.Finish(c));
    b := z.attempts[z.clients[c].tx];
    PlayOne(y, c, P.Finish(c), replies, k);
    Follows(P.Commit, COMMIT, t.baton, answers(k), replies(k), name, q);
    assert Then(t.log, COMMIT, t.baton, answers).log[k..]
      == [Exchange(COMMIT, t.baton, OutcomeOf(COMMIT, t.baton, answers(k)).1.Ok?)];
  }

  lemma CarryBoth(
    qs: seq<P.Request>, log: seq<Exchange>, others: seq<P.Request>, more: seq<Exchange>, name: Text -> nat)
    requires Carry(qs, log, name) && Carry(others, more, name)
    ensures Carry(qs + others, log + more, name)
  {
    hide Carries;
  }

  /** After the closure. */
  lemma EndPlays(
    y: P.World, c: nat, a: P.Attempt, t: Trace, answers: nat -> Option<Text>, replies: nat -> Option<P.Reply>,
    name: Text -> nat) returns (acts: seq<P.Action>, z: P.World, qs: seq<P.Request>)
    requires c in y.clients && P.Tracked(y) && At(y, c, t.baton, if t.ok then P.Body else P.Failed, a)
    requires AreRendered(answers, replies)
    ensures var done := Then(t.log, COMMIT, t.baton, answers);
      IsEnding(y, c, t.log,
               if !t.ok then RolledBack(t, answers) else if done.ok then done else RolledBack(done, answers),
               a.issued, replies, name, acts, z, qs)
  {
    hide P.Tracked, Carries, OutcomeOf, AreRendered, IsPlay, BEGIN, COMMIT, ROLLBACK;
    if !t.ok {
      var q: P.Request;
      z, q := UndoEnds(y, c, a, t, answers, replies, name);
      acts, qs := [P.Undo(c)], [q];
    } else {
      var done := Then(t.log, COMMIT, t.baton, answers);
      var x, q, b := FinishEnds(y, c, a, t, answers, replies, name);
      if done.ok {
        acts, z, qs := [P.Finish(c)], x, [q];
      } else {
        var last: P.Request;
        z, last := UndoEnds(x, c, b, done, answers, replies, name);
        var r := RolledBack(done, answers);
        PlayThen(y, c, [P.Finish(c)], replies, |t.log|, x, [q], [P.Undo(c)], z, [last]);
        acts, qs := [P.Finish(c)] + [P.Undo(c)], [q] + [last];
        CarryBoth([q], done.log[|t.log|..], [last], r.log[|done.log|..], name);
        assert r.log[|t.log|..] == done.log[|t.log|..] + r.log[|done.log|..];
      }
    }
  }

  /** From every state in which session `c` is idle: whatever the closure does and whatever the
      intended server answers, the session's own actions in the protocol send what `transaction`
      sends, in order and with the same batons, and the call returns the same result with the same
      slot, having issued the closure's statements. */
  lemma TransactionFollowsProtocol(
    s: P.World, c: nat, f: Closure, limit: nat, answers: nat -> Option<Text>, replies: nat -> Option<P.Reply>,
    name: Text -> nat) returns (acts: seq<P.Action>, z: P.World, qs: seq<P.Request>)
    requires c in s.clients && s.clients[c].phase.Idle? && P.Tracked(s)
    requires IsClosure(f, limit) && IsPlainClosure(f) && AreRendered(answers, replies)
    ensures var t := TransactionTrace(f, limit, s.clients[c].baton, answers);
      && IsPlay(s, c, acts, replies, 0, z, qs) && Carry(qs, t.log, name)
      && exists issued :: IsReturned(z, c, t, issued) && AreIssued(issued, f, limit, s.clients[c].baton, answers, name)
  {
    hide P.Tracked, CanAct, Exchanged, SentBy, Carries, StatementKind, Response, Renders, OutcomeOf, SendsAs, IsPlay;
    hide BEGIN, COMMIT, ROLLBACK, IsClosure, IsPlainClosure, Traced;
    var baton := s.clients[c].baton;
    StartPlays(s, c, replies(0));
    var y, q := Exchanged(s, c, P.Start(c), replies(0)), SentBy(s, c, P.Start(c));
    PlayOne(s, c, P.Start(c), replies, 0);
    Follows(P.Begin, BEGIN, baton, answers(0), replies(0), name, q);
    var o := OutcomeOf(BEGIN, baton, answers(0));
    var begun := Exchange(BEGIN, baton, o.1.Ok?);
    if o.1.Err? {
      acts, z, qs := [P.Start(c)], y, [q];
      assert IsReturned(z, c, Trace([begun], false, o.0), []);
    } else {
      var a := P.Attempt([], None, false, P.Running);
      var inner := Traced(f, limit, [], o.0, answers);
      acts, z, qs := CallPlays(y, c, a, begun, f, limit, answers, replies, name);
      PlayThen(s, c, [P.Start(c)], replies, 0, y, [q], acts, z, qs);
      var t := Ended(begun, inner, answers);
      CarryBoth([q], [begun], qs, t.log[1..], name);
      EndedShape(begun, inner, answers);
      assert [begun] + t.log[1..] == t.log;
      acts, qs := [P.Start(c)] + acts, [q] + qs;
      assert IsReturned(z, c, t, Payloads(inner.log, name));
    }
  }

  /** What the closure issued: nothing when BEGIN failed. */
  ghost predicate AreIssued(
    issued: seq<nat>, f: Closure, limit: nat, baton: Option<Text>, answers: nat -> Option<Text>, name: Text -> nat)
    requires IsClosure(f, limit)
  {
    var o := OutcomeOf(BEGIN, baton, answers(0));
    issued == if o.1.Err? then [] else Payloads(Traced(f, limit, [], o.0, answers).log, name)
  }

  /** From the body on. */
  lemma CallPlays(
    y: P.World, c: nat, a: P.Attempt, begun: Exchange, f: Closure, limit: nat,
    answers: nat -> Option<Text>, replies: nat -> Option<P.Reply>, name: Text -> nat)
    returns (acts: seq<P.Action>, z: P.World, qs: seq<P.Request>)
    requires InBody(y, c, a) && a.issued == [] && IsClosure(f, limit) && IsPlainClosure(f)
    requires AreRendered(answers, replies)
    ensures var inner := Traced(f, limit, [], y.clients[c].baton, answers);
      IsEnding(y, c, [begun], Ended(begun, inner, answers), Payloads(inner.log, name), replies, name, acts, z, qs)
  {
    hide P.Tracked, At, Carries, OutcomeOf, AreRendered, IsPlay, IsClosure, IsPlainClosure, Traced, IsReturned;
    hide BEGIN, COMMIT, ROLLBACK;
    var inner := Traced(f, limit, [], y.clients[c].baton, answers);
    var x: P.World;
    acts, x, qs := ClosurePlays(y, c, a, f, limit, [], answers, replies, name);
    var b := a.(issued := a.issued + Payloads(inner.log, name));
    assert [] + Payloads(inner.log, name) == Payloads(inner.log, name);
    var t := inner.(log := [begun] + inner.log);
    var more, others;
    more, z, others := EndPlays(x, c, b, t, answers, replies, name);
    PlayThen(y, c, acts, replies, 1, x, qs, more, z, others);
    var end := Ended(begun, inner, answers);
    CarryBoth(qs, inner.log, others, end.log[|t.log|..], name);
    assert end.log == t.log + end.log[|t.log|..];
    assert end.log[1..] == inner.log + end.log[|t.log|..];
    acts, qs := acts + more, qs + others;
  }

  // ==== other sessions ====

  predicate IsOwn(a: P.Action, c: nat) {
    match a
    case Start(d) => d == c
    case Lone(d, _) => d == c
    case Issue(d, _) => d == c
    case Finish(d) => d == c
    case Abandon(d) => d == c
    case Undo(d) => d == c
    case Hear(d) => d == c
    case GiveUp(d) => d == c
    case _ => false
  }

  /** What others, the server and the network do in between changes nothing about a session and its
      attempt, so a play is the same in every interleaving. */
  lemma OthersLeaveSession(s: P.World, a: P.Action, c: nat)
    requires I.Inv(s) && P.Tracked(s) && P.Enabled(s, a) && c in s.clients && !IsOwn(a, c)
    ensures var z := P.Next(s, a);
      && c in z.clients && z.clients[c] == s.clients[c]
      && (!s.clients[c].phase.Idle? ==>
            s.clients[c].tx in z.attempts && z.attempts[s.clients[c].tx] == s.attempts[s.clients[c].tx])
  {
    hide I.Tokens, I.Slots, I.Newest, I.Requests, I.Clients, I.Durable, I.Attempts, P.Handled, P.Answer;
    hide P.SqlOf, P.Moved, P.Noted, P.NextBaton, P.Succeeds, P.Closes;
  }
}
