/** The remote transaction protocol of backend/src/hrana.rs and `Pool::transaction` in
    backend/src/db.rs: many sessions, one server, and a network that may delay or lose every
    request and every reply.

    A session owns a single-use token, the baton, from BEGIN to COMMIT or ROLLBACK. The server
    runs a request on the stream whose newest baton it carries, refuses a stale baton, and
    answers with a new one unless the request closes the stream.
 */
module HranaProtocol {
  import opened Bytes

  type Baton = Text

  /** A statement's effect; only its identity matters here. */
  type Payload = nat

  datatype Sql = Begin | Commit | Rollback | Write(w: Payload)

  /** `tx` names the attempt that sent the request. It is history: no server or client reads it. */
  datatype Request = Request(baton: Option<Baton>, sql: Sql, close: bool, tx: nat)

  datatype Reply = Refused | Answered(baton: Option<Baton>, failed: bool)

  // ==== client rules ====

  /** `Session::execute`: a statement outside a transaction closes its own stream. */
  function Closes(sql: Sql, baton: Option<Baton>): bool {
    match sql
    case Begin => false
    case Commit => true
    case Rollback => true
    case Write(_) => baton.None?
  }

  /** `next_baton`; None stands for a request that got no usable response. */
  function NextBaton(sql: Sql, close: bool, reply: Option<Reply>): Option<Baton> {
    if close || sql.Commit? || sql.Rollback? then None
    else if reply.None? || reply.value.Refused? then None
    else if sql.Begin? && reply.value.failed then None
    else reply.value.baton
  }

  /** Whether `execute` returns Ok: a BEGIN also needs a baton. */
  predicate Succeeds(sql: Sql, close: bool, reply: Option<Reply>) {
    && reply.Some? && reply.value.Answered? && !reply.value.failed
    && (sql.Begin? ==> NextBaton(sql, close, reply).Some?)
  }

  // ==== server ====

  datatype Stream = Stream(id: nat, open: bool, tx: nat, pending: seq<Payload>)

  /** One commit that became durable: a transaction's writes, or one statement's outside any. */
  datatype Record = Record(tx: nat, stream: nat, writes: seq<Payload>)

  /** `live` maps the newest baton of each stream to the stream; `streamOf` remembers every
      baton ever issued. */
  datatype Server = Server(live: map<Baton, Stream>, streamOf: map<Baton, nat>, nextStream: nat, log: seq<Record>)

  /** What the server is free to decide: whether a statement fails, whether a failure rolls the
      transaction back by itself, and the new baton. */
  datatype Choice = Choice(fails: bool, aborts: bool, baton: Baton)

  datatype Ran = Ran(stream: Stream, failed: bool, commits: seq<Record>)

  /** One statement on one stream. */
  function Run(st: Stream, sql: Sql, tx: nat, ch: Choice): Ran {
    var aborted := if ch.aborts then st.(open := false, pending := []) else st;
    match sql
    case Begin =>
      if st.open || ch.fails then Ran(st, true, []) else Ran(st.(open := true, tx := tx, pending := []), false, [])
    case Commit =>
      if !st.open then Ran(st, true, [])
      else if ch.fails then Ran(aborted, true, [])
      else Ran(st.(open := false, pending := []), false, [Record(st.tx, st.id, st.pending)])
    case Rollback =>
      if !st.open || ch.fails then Ran(st, true, []) else Ran(st.(open := false, pending := []), false, [])
    case Write(w) =>
      if ch.fails then Ran(aborted, true, [])
      else if st.open then Ran(st.(pending := st.pending + [w]), false, [])
      else Ran(st, false, [Record(tx, st.id, [w])])
  }

  /** Whether a statement ends the transaction of its stream: by success, or by an abort. */
  predicate Ends(st: Stream, sql: Sql, tx: nat, ch: Choice) {
    if Run(st, sql, tx, ch).failed then ch.fails && ch.aborts && (sql.Write? || (sql.Commit? && st.open))
    else sql.Commit? || sql.Rollback?
  }

  /** After that there is nothing left to end, another transaction may begin, and a write is durable by
      itself. */
  lemma EndedStream(st: Stream, sql: Sql, tx: nat, ch: Choice, later: Choice, w: Payload)
    requires Ends(st, sql, tx, ch)
    ensures var s := Run(st, sql, tx, ch).stream;
      && s.id == st.id && Run(s, Commit, tx, later).failed && Run(s, Rollback, tx, later).failed
      && (!later.fails ==> !Run(s, Begin, tx, later).failed)
      && (!later.fails ==> Run(s, Write(w), tx, later) == Ran(s, false, [Record(tx, st.id, [w])]))
  {
  }

  /** The stream a request runs on: the one its baton names, or a new one. */
  function Target(sv: Server, q: Request): Stream
    requires q.baton.Some? ==> q.baton.value in sv.live
  {
    if q.baton.Some? then sv.live[q.baton.value] else Stream(sv.nextStream, false, q.tx, [])
  }

  predicate Accepts(sv: Server, q: Request) {
    q.baton.Some? ==> q.baton.value in sv.live
  }

  function Used(q: Request): set<Baton> {
    if q.baton.Some? then {q.baton.value} else {}
  }

  /** The server after a request it accepts. */
  function Handled(sv: Server, q: Request, ch: Choice): Server
    requires Accepts(sv, q)
  {
    var ran := Run(Target(sv, q), q.sql, q.tx, ch);
    var rest := sv.live - Used(q);
    Server(
      if q.close then rest else rest[ch.baton := ran.stream],
      if q.close then sv.streamOf else sv.streamOf[ch.baton := ran.stream.id],
      if q.baton.Some? then sv.nextStream else sv.nextStream + 1,
      sv.log + ran.commits)
  }

  function Answer(sv: Server, q: Request, ch: Choice): Reply
    requires Accepts(sv, q)
  {
    Answered(if q.close then None else Some(ch.baton), Run(Target(sv, q), q.sql, q.tx, ch).failed)
  }

  // ==== sessions ====

  /** Where a session is in `Pool::transaction` (or in a single statement outside one). A phase
      with a message number waits for the reply to that message. */
  datatype Phase =
    | Idle
    | Alone(msg: nat)
    | Beginning(msg: nat)
    | Body
    | Writing(msg: nat)
    | Committing(msg: nat)
    | Failed
    | Undoing(msg: nat)

  datatype Client = Client(baton: Option<Baton>, phase: Phase, tx: nat)

  datatype Status = Running | Returned(ok: bool)

  /** History of one call: the writes its closure issued, the message that could commit it,
      whether the reply to that message reached the session, and what the call returned. */
  datatype Attempt = Attempt(issued: seq<Payload>, commit: Option<nat>, heard: bool, status: Status)

  datatype World = World(
    server: Server,
    requests: map<nat, Request>,
    replies: map<nat, Reply>,
    clients: map<nat, Client>,
    attempts: map<nat, Attempt>,
    nextMsg: nat,
    nextTx: nat,
    sent: set<Baton>)

  predicate Waiting(p: Phase) {
    p.Alone? || p.Beginning? || p.Writing? || p.Committing? || p.Undoing?
  }

  /** The statement a waiting session sent. */
  function SqlOf(p: Phase, issued: seq<Payload>): Sql
    requires Waiting(p)
  {
    match p
    case Beginning(_) => Begin
    case Committing(_) => Commit
    case Undoing(_) => Rollback
    case _ => Write(if issued == [] then 0 else issued[|issued| - 1])
  }

  datatype Action =
    | Start(c: nat)                    // transaction: BEGIN
    | Lone(c: nat, w: Payload)         // one statement outside a transaction
    | Issue(c: nat, w: Payload)        // the closure runs a statement
    | Finish(c: nat)                   // the closure returned Ok: COMMIT
    | Abandon(c: nat)                  // the closure returned Err or panicked
    | Undo(c: nat)                     // the guard's ROLLBACK
    | Serve(m: nat, ch: Choice)        // the server runs a request
    | LoseRequest(m: nat)
    | LoseReply(m: nat)
    | Hear(c: nat)                     // the reply arrives
    | GiveUp(c: nat)                   // transport failure: no reply
    | Expire(b: Baton)                 // the server drops a stream

  predicate Enabled(s: World, a: Action) {
    match a
    case Start(c) => c in s.clients && s.clients[c].phase.Idle?
    case Lone(c, _) => c in s.clients && s.clients[c].phase.Idle?
    case Issue(c, _) => c in s.clients && s.clients[c].phase.Body?
    case Finish(c) => c in s.clients && s.clients[c].phase.Body?
    case Abandon(c) => c in s.clients && s.clients[c].phase.Body?
    case Undo(c) => c in s.clients && s.clients[c].phase.Failed?
    case Serve(m, ch) => m in s.requests && ch.baton !in s.server.streamOf
    case LoseRequest(m) => m in s.requests
    case LoseReply(m) => m in s.replies
    case Hear(c) => c in s.clients && Waiting(s.clients[c].phase) && s.clients[c].phase.msg in s.replies
    case GiveUp(c) => c in s.clients && Waiting(s.clients[c].phase)
    case Expire(b) => b in s.server.live
  }

  /** Session `c` sends `sql` with the baton in its slot and waits in phase `p`; its call is
      attempt `t`, whose history becomes `a`. */
  function Sends(s: World, c: nat, t: nat, a: Attempt, sql: Sql, p: Phase): World
    requires c in s.clients
  {
    var k := s.clients[c];
    s.(requests := s.requests[s.nextMsg := Request(k.baton, sql, Closes(sql, k.baton), t)],
       clients := s.clients[c := Client(k.baton, p, t)],
       attempts := s.attempts[t := a],
       nextMsg := s.nextMsg + 1,
       nextTx := if t == s.nextTx then s.nextTx + 1 else s.nextTx,
       sent := s.sent + if k.baton.Some? then {k.baton.value} else {})
  }

  /** The phase and the attempt after a reply, or after none. */
  function Moved(p: Phase, ok: bool): Phase
    requires Waiting(p)
  {
    match p
    case Beginning(_) => if ok then Body else Idle
    case Writing(_) => if ok then Body else Failed
    case Committing(_) => if ok then Idle else Failed
    case _ => Idle
  }

  function Noted(a: Attempt, p: Phase, ok: bool, heard: bool): Attempt
    requires Waiting(p)
  {
    match p
    case Beginning(_) => if ok then a else a.(status := Returned(false))
    case Writing(_) => a
    case Committing(_) => a.(heard := heard, status := if ok then Returned(true) else Running)
    case Undoing(_) => a.(status := Returned(false))
    case Alone(_) => a.(heard := heard, status := Returned(ok))
  }

  /** `execute` comes back, with a reply or without. */
  function Resumes(s: World, c: nat, reply: Option<Reply>): World
    requires c in s.clients && Waiting(s.clients[c].phase) && s.clients[c].tx in s.attempts
  {
    var k := s.clients[c];
    var a := s.attempts[k.tx];
    var sql := SqlOf(k.phase, a.issued);
    var close := Closes(sql, k.baton);
    var ok := Succeeds(sql, close, reply);
    s.(clients := s.clients[c := Client(NextBaton(sql, close, reply), Moved(k.phase, ok), k.tx)],
       attempts := s.attempts[k.tx := Noted(a, k.phase, ok, reply.Some?)])
  }

  /** The server takes request `m`: it runs it, or refuses its stale baton. */
  function Served(s: World, m: nat, ch: Choice): World
    requires m in s.requests
  {
    var q := s.requests[m];
    if Accepts(s.server, q) then
      s.(server := Handled(s.server, q, ch), requests := s.requests - {m},
         replies := s.replies[m := Answer(s.server, q, ch)])
    else
      s.(requests := s.requests - {m}, replies := s.replies[m := Refused])
  }

  /** The attempt session `c` is in. */
  function Current(s: World, c: nat): Attempt
    requires c in s.clients && s.clients[c].tx in s.attempts
  {
    s.attempts[s.clients[c].tx]
  }

  /** Every session that is in a call has an attempt. */
  ghost predicate Tracked(s: World) {
    forall c :: c in s.clients && !s.clients[c].phase.Idle? ==> s.clients[c].tx in s.attempts
  }

  function Next(s: World, a: Action): World
    requires Enabled(s, a) && Tracked(s)
  {
    match a
    case Start(c) => Sends(s, c, s.nextTx, Attempt([], None, false, Running), Begin, Beginning(s.nextMsg))
    case Lone(c, w) => Sends(s, c, s.nextTx, Attempt([w], Some(s.nextMsg), false, Running), Write(w), Alone(s.nextMsg))
    case Issue(c, w) =>
      var a := Current(s, c);
      Sends(s, c, s.clients[c].tx, a.(issued := a.issued + [w]), Write(w), Writing(s.nextMsg))
    case Finish(c) =>
      Sends(s, c, s.clients[c].tx, Current(s, c).(commit := Some(s.nextMsg)), Commit, Committing(s.nextMsg))
    case Abandon(c) => s.(clients := s.clients[c := s.clients[c].(phase := Failed)])
    case Undo(c) => Sends(s, c, s.clients[c].tx, Current(s, c), Rollback, Undoing(s.nextMsg))
    case Serve(m, ch) => Served(s, m, ch)
    case LoseRequest(m) => s.(requests := s.requests - {m})
    case LoseReply(m) => s.(replies := s.replies - {m})
    case Hear(c) =>
      var m := s.clients[c].phase.msg;
      Resumes(s.(replies := s.replies - {m}), c, Some(s.replies[m]))
    case GiveUp(c) => Resumes(s, c, None)
    case Expire(b) => s.(server := s.server.(live := s.server.live - {b}))
  }
}
