/** What every step of the remote transaction protocol keeps. */
module HranaInvariant {
  import opened Bytes
  import opened HranaProtocol

  // ==== the invariant ====

  predicate Active(k: Client) {
    !k.phase.Idle?
  }

  /** A session between requests owns the baton in its slot. */
  predicate Holds(k: Client, b: Baton) {
    (k.phase.Body? || k.phase.Failed?) && k.baton == Some(b)
  }

  ghost predicate Ids(s: World) {
    && (forall m :: m in s.requests ==> m < s.nextMsg && m !in s.replies && s.requests[m].tx in s.attempts)
    && (forall m :: m in s.replies ==> m < s.nextMsg)
    && (forall t: nat :: t in s.attempts <==> t < s.nextTx)
    && (forall t :: t in s.attempts && s.attempts[t].commit.Some? ==> s.attempts[t].commit.value < s.nextMsg)
    && (forall c :: c in s.clients && Active(s.clients[c]) ==>
          s.clients[c].tx in s.attempts && s.attempts[s.clients[c].tx].status.Running?)
    && (forall c :: c in s.clients && Waiting(s.clients[c].phase) ==> s.clients[c].phase.msg < s.nextMsg)
  }

  ghost predicate Distinct(s: World) {
    && (forall c, d :: c in s.clients && d in s.clients && c != d && Active(s.clients[c]) && Active(s.clients[d]) ==>
          s.clients[c].tx != s.clients[d].tx)
    && (forall c, d | c in s.clients && d in s.clients && c != d
          && Waiting(s.clients[c].phase) && Waiting(s.clients[d].phase) ::
          s.clients[c].phase.msg != s.clients[d].phase.msg)
  }

  /** Each baton is in one place: unsent in one reply or with one session, or sent in one request. */
  ghost predicate Tokens(s: World) {
    && s.sent <= s.server.streamOf.Keys
    && (forall m :: m in s.requests && s.requests[m].baton.Some? ==> s.requests[m].baton.value in s.sent)
    && (forall m, n | m in s.requests && n in s.requests
          && s.requests[m].baton.Some? && s.requests[m].baton == s.requests[n].baton :: m == n)
    && (forall m :: m in s.replies ==> InReply(s, m))
    && (forall m, n | m in s.replies && n in s.replies && s.replies[m].Answered? && s.replies[n].Answered?
          && s.replies[m].baton.Some? && s.replies[m].baton == s.replies[n].baton :: m == n)
  }

  predicate InReply(s: World, m: nat)
    requires m in s.replies
  {
    s.replies[m].Answered? && s.replies[m].baton.Some? ==>
      s.replies[m].baton.value in s.server.streamOf && s.replies[m].baton.value !in s.sent
  }

  ghost predicate Slots(s: World) {
    && (forall c :: c in s.clients ==> SlotOk(s, s.clients[c]))
    && (forall c, m, b :: c in s.clients && m in s.replies && Holds(s.clients[c], b) && s.replies[m].Answered? ==>
          s.replies[m].baton != Some(b))
    && (forall c, d, b | c in s.clients && d in s.clients
          && Holds(s.clients[c], b) && Holds(s.clients[d], b) :: c == d)
  }

  predicate SlotOk(s: World, k: Client) {
    && (k.phase.Idle? || k.phase.Beginning? || k.phase.Alone? ==> k.baton.None?)
    && ((k.phase.Body? || k.phase.Failed?) && k.baton.Some? ==>
          k.baton.value in s.server.streamOf && k.baton.value !in s.sent)
    && (Waiting(k.phase) && k.baton.Some? ==> k.baton.value in s.sent)
    && (k.phase.Body? || k.phase.Writing? || k.phase.Committing? ==> k.baton.Some?)
  }

  /** An unsent baton is the newest on its stream, as long as the stream lives. */
  ghost predicate Newest(s: World) {
    StreamIds(s.server) && OneLive(s.server) && UnsentNewest(s.server, s.sent)
  }

  ghost predicate StreamIds(sv: Server) {
    && (forall b :: b in sv.live ==> b in sv.streamOf && sv.live[b].id == sv.streamOf[b])
    && (forall b :: b in sv.streamOf ==> sv.streamOf[b] < sv.nextStream)
  }

  ghost predicate OneLive(sv: Server) {
    forall b, n :: b in sv.live && n in sv.live && sv.live[b].id == sv.live[n].id ==> b == n
  }

  ghost predicate UnsentNewest(sv: Server, sent: set<Baton>) {
    forall b, n | b in sv.streamOf && b !in sent && n in sv.live && sv.live[n].id == sv.streamOf[b] :: n == b
  }

  predicate Committed(log: seq<Record>, t: nat) {
    exists i :: 0 <= i < |log| && log[i].tx == t
  }

  /** The stream of baton `b`, if it lives, holds exactly `writes` of the open transaction `t`. */
  predicate StreamHolds(s: World, b: Baton, t: nat, writes: seq<Payload>) {
    b in s.server.live ==>
      s.server.live[b].open && s.server.live[b].tx == t && s.server.live[b].pending == writes
  }

  predicate RequestOk(s: World, q: Request, m: nat)
    requires q.tx in s.attempts
  {
    var a := s.attempts[q.tx];
    match q.sql
    case Begin => q.baton.None? && !q.close
    case Rollback => q.close
    case Commit =>
      && q.close && a.commit == Some(m) && !Committed(s.server.log, q.tx)
      && (q.baton.Some? && q.baton.value in s.server.live && s.server.live[q.baton.value].open ==>
            s.server.live[q.baton.value].tx == q.tx && s.server.live[q.baton.value].pending == a.issued)
    case Write(w) =>
      if q.baton.None? then q.close && a.commit == Some(m) && a.issued == [w] && !Committed(s.server.log, q.tx)
      else !q.close && (q.baton.value in s.server.live ==>
        s.server.live[q.baton.value].open && s.server.live[q.baton.value].tx == q.tx)
  }

  ghost predicate Requests(s: World)
    requires Ids(s)
  {
    forall m :: m in s.requests ==> RequestOk(s, s.requests[m], m)
  }

  /** What a session may conclude from the reply it waits for. */
  predicate ReplyOk(s: World, k: Client, r: Reply)
    requires Waiting(k.phase) && k.tx in s.attempts
  {
    var a := s.attempts[k.tx];
    match k.phase
    case Beginning(_) =>
      r.Answered? ==> r.baton.Some? && (!r.failed ==> StreamHolds(s, r.baton.value, k.tx, []))
    case Writing(_) =>
      r.Answered? ==> r.baton.Some? && (!r.failed ==> StreamHolds(s, r.baton.value, k.tx, a.issued))
    case Undoing(_) => true
    case _ =>
      if r.Answered? && !r.failed then Committed(s.server.log, k.tx) else !Committed(s.server.log, k.tx)
  }

  predicate ClientOk(s: World, k: Client)
    requires k.tx in s.attempts
  {
    var a := s.attempts[k.tx];
    match k.phase
    case Idle => true
    case Alone(m) => a.commit == Some(m) && !a.heard && |a.issued| == 1
    case Beginning(_) => a.commit.None? && a.issued == []
    case Body => a.commit.None? && k.baton.Some? && StreamHolds(s, k.baton.value, k.tx, a.issued)
    case Writing(_) => a.commit.None? && a.issued != []
    case Committing(m) => a.commit == Some(m) && !a.heard
    case _ => true
  }

  /** The request a session waits for is still the one it sent. */
  predicate AwaitedOk(s: World, k: Client)
    requires Waiting(k.phase) && k.tx in s.attempts
  {
    var a := s.attempts[k.tx];
    var m := k.phase.msg;
    && (m in s.requests ==>
          && s.requests[m] ==
             Request(k.baton, SqlOf(k.phase, a.issued), Closes(SqlOf(k.phase, a.issued), k.baton), k.tx)
          && (k.phase.Writing? ==>
                (a.issued != [] && k.baton.Some? && StreamHolds(s, k.baton.value, k.tx, a.issued[..|a.issued| - 1]))))
    && (m in s.replies ==> ReplyOk(s, k, s.replies[m]))
  }

  ghost predicate Clients(s: World)
    requires Ids(s)
  {
    forall c :: c in s.clients && Active(s.clients[c]) ==>
      ClientOk(s, s.clients[c]) && (Waiting(s.clients[c].phase) ==> AwaitedOk(s, s.clients[c]))
  }

  /** Each durable record is one attempt's writes, all of them, and there is one per attempt. */
  ghost predicate Durable(s: World) {
    && (forall i :: 0 <= i < |s.server.log| ==> RecordOk(s, s.server.log[i]))
    && (forall i, j :: 0 <= i < j < |s.server.log| ==> s.server.log[i].tx != s.server.log[j].tx)
  }

  predicate RecordOk(s: World, r: Record) {
    && r.tx in s.attempts && s.attempts[r.tx].commit.Some?
    && s.attempts[r.tx].commit.value !in s.requests
    && r.writes == s.attempts[r.tx].issued
  }

  /** A session that heard the answer to its COMMIT knows whether it committed. */
  predicate AttemptOk(s: World, t: nat)
    requires t in s.attempts
  {
    var a := s.attempts[t];
    && (a.heard ==>
          (&& a.commit.Some? && a.commit.value !in s.requests && a.commit.value !in s.replies
           && (a.status == Returned(true) <==> Committed(s.server.log, t))))
    && (a.status == Returned(true) ==> a.heard)
  }

  ghost predicate Attempts(s: World) {
    forall t :: t in s.attempts ==> AttemptOk(s, t)
  }

  ghost predicate Inv(s: World) {
    && Ids(s) && Distinct(s) && Tokens(s) && Slots(s) && Newest(s)
    && Requests(s) && Clients(s) && Durable(s) && Attempts(s)
  }

  ghost predicate Init(s: World) {
    && s.server.live == map[] && s.server.streamOf == map[] && s.server.log == []
    && s.requests == map[] && s.replies == map[] && s.attempts == map[] && s.sent == {} && s.nextTx == 0
    && forall c :: c in s.clients ==> s.clients[c].phase.Idle? && s.clients[c].baton.None?
  }

  lemma InitInv(s: World)
    requires Init(s)
    ensures Inv(s)
  {
  }

  // ==== losing messages and streams ====

  /** `z` is `s` with fewer messages under way and fewer live streams. */
  ghost predicate Shrunk(s: World, z: World) {
    && z == s.(requests := z.requests, replies := z.replies, server := s.server.(live := z.server.live))
    && (forall m :: m in z.requests ==> m in s.requests && z.requests[m] == s.requests[m])
    && (forall m :: m in z.replies ==> m in s.replies && z.replies[m] == s.replies[m])
    && (forall b :: b in z.server.live ==> b in s.server.live && z.server.live[b] == s.server.live[b])
  }

  lemma ShrunkIds(s: World, z: World)
    requires Shrunk(s, z) && Ids(s) && Distinct(s) && Newest(s)
    ensures Ids(z) && Distinct(z) && Newest(z)
  {
  }

  lemma ShrunkTokens(s: World, z: World)
    requires Shrunk(s, z) && Tokens(s) && Slots(s)
    ensures Tokens(z) && Slots(z)
  {
  }

  lemma ShrunkRequests(s: World, z: World)
    requires Shrunk(s, z) && Ids(s) && Ids(z) && Requests(s) && Clients(s)
    ensures Requests(z) && Clients(z)
  {
  }

  lemma ShrunkHistory(s: World, z: World)
    requires Shrunk(s, z) && Durable(s) && Attempts(s)
    ensures Durable(z) && Attempts(z)
  {
  }

  lemma ShrunkInv(s: World, z: World)
    requires Shrunk(s, z) && Inv(s)
    ensures Inv(z)
  {
    ShrunkIds(s, z);
    ShrunkTokens(s, z);
    ShrunkRequests(s, z);
    ShrunkHistory(s, z);
  }

  // ==== sending ====

  /** A session may send as attempt `t` with history `a`: a new attempt when it is idle, and its
      own one otherwise, to which it may only add a write or its COMMIT. */
  predicate Sendable(s: World, c: nat, t: nat, a: Attempt) {
    c in s.clients && a.status.Running? &&
    var k := s.clients[c];
    match k.phase
    case Idle => t == s.nextTx && !a.heard && (a.commit.None? || a.commit == Some(s.nextMsg))
    case Body =>
      t == k.tx && t in s.attempts && !a.heard && s.attempts[t].commit.None? && !s.attempts[t].heard
      && (a.commit.None? || a.commit == Some(s.nextMsg))
    case Failed => t == k.tx && t in s.attempts && a == s.attempts[t]
    case _ => false
  }

  lemma SendsIds(s: World, c: nat, t: nat, a: Attempt, sql: Sql, p: Phase)
    requires Ids(s) && Sendable(s, c, t, a) && Waiting(p) && p.msg == s.nextMsg
    ensures Ids(Sends(s, c, t, a, sql, p))
  {
  }

  lemma SendsDistinct(s: World, c: nat, t: nat, a: Attempt, sql: Sql, p: Phase)
    requires Ids(s) && Distinct(s) && Sendable(s, c, t, a) && Waiting(p) && p.msg == s.nextMsg
    ensures Distinct(Sends(s, c, t, a, sql, p))
  {
  }

  lemma SendsTokens(s: World, c: nat, t: nat, a: Attempt, sql: Sql, p: Phase)
    requires Tokens(s) && Slots(s) && Sendable(s, c, t, a) && Waiting(p)
    ensures Tokens(Sends(s, c, t, a, sql, p))
  {
    assert SlotOk(s, s.clients[c]);
  }

  lemma SendsSlots(s: World, c: nat, t: nat, a: Attempt, sql: Sql, p: Phase)
    requires Tokens(s) && Slots(s) && Sendable(s, c, t, a) && Waiting(p)
    requires p.Beginning? || p.Alone? ==> s.clients[c].phase.Idle?
    requires p.Writing? || p.Committing? ==> s.clients[c].phase.Body?
    ensures Slots(Sends(s, c, t, a, sql, p))
  {
    var z := Sends(s, c, t, a, sql, p);
    var k := s.clients[c];
    assert SlotOk(s, k);
    forall d | d in z.clients ensures SlotOk(z, z.clients[d]) {
      assert SlotOk(s, s.clients[d]);
      if d != c && k.baton.Some? {
        assert Holds(s.clients[d], k.baton.value) ==> !Holds(k, k.baton.value);
      }
    }
  }

  lemma SendsNewest(s: World, c: nat, t: nat, a: Attempt, sql: Sql, p: Phase)
    requires Newest(s) && Sendable(s, c, t, a)
    ensures Newest(Sends(s, c, t, a, sql, p))
  {
  }

  lemma SendsRequests(s: World, c: nat, t: nat, a: Attempt, sql: Sql, p: Phase)
    requires Ids(s) && Requests(s) && Sendable(s, c, t, a) && Ids(Sends(s, c, t, a, sql, p))
    requires var z := Sends(s, c, t, a, sql, p); RequestOk(z, z.requests[s.nextMsg], s.nextMsg)
    ensures Requests(Sends(s, c, t, a, sql, p))
  {
  }

  lemma SendsClients(s: World, c: nat, t: nat, a: Attempt, sql: Sql, p: Phase)
    requires Ids(s) && Distinct(s) && Clients(s) && Sendable(s, c, t, a) && Waiting(p) && p.msg == s.nextMsg
    requires Ids(Sends(s, c, t, a, sql, p))
    requires var z := Sends(s, c, t, a, sql, p); ClientOk(z, z.clients[c]) && AwaitedOk(z, z.clients[c])
    ensures Clients(Sends(s, c, t, a, sql, p))
  {
    hide Closes, StreamHolds, ReplyOk, SqlOf;
    var z := Sends(s, c, t, a, sql, p);
    forall d | d in z.clients && Active(z.clients[d])
      ensures ClientOk(z, z.clients[d]) && (Waiting(z.clients[d].phase) ==> AwaitedOk(z, z.clients[d]))
    {
      if d != c {
        SendsOther(s, c, t, a, sql, p, d);
      }
    }
  }

  /** A session that is not the sender. */
  lemma SendsOther(s: World, c: nat, t: nat, a: Attempt, sql: Sql, p: Phase, d: nat)
    requires Ids(s) && Distinct(s) && Clients(s) && Sendable(s, c, t, a)
    requires d in s.clients && d != c && Active(s.clients[d])
    requires var z := Sends(s, c, t, a, sql, p); s.clients[d].tx in z.attempts
    ensures var z := Sends(s, c, t, a, sql, p); var k := s.clients[d];
      ClientOk(z, k) && (Waiting(k.phase) ==> AwaitedOk(z, k))
  {
    hide Closes, SqlOf;
    var z := Sends(s, c, t, a, sql, p);
    assert s.clients[d].tx != t;
    assert z.attempts[s.clients[d].tx] == s.attempts[s.clients[d].tx] && z.server == s.server && z.replies == s.replies;
  }

  lemma SendsHistory(s: World, c: nat, t: nat, a: Attempt, sql: Sql, p: Phase)
    requires Ids(s) && Durable(s) && Attempts(s) && Sendable(s, c, t, a)
    ensures var z := Sends(s, c, t, a, sql, p); Durable(z) && Attempts(z)
  {
  }

  lemma SendsInv(s: World, c: nat, t: nat, a: Attempt, sql: Sql, p: Phase)
    requires Inv(s) && Sendable(s, c, t, a) && Waiting(p) && p.msg == s.nextMsg
    requires p.Beginning? || p.Alone? ==> s.clients[c].phase.Idle?
    requires p.Writing? || p.Committing? ==> s.clients[c].phase.Body?
    requires var z := Sends(s, c, t, a, sql, p);
      RequestOk(z, z.requests[s.nextMsg], s.nextMsg) && ClientOk(z, z.clients[c]) && AwaitedOk(z, z.clients[c])
    ensures Inv(Sends(s, c, t, a, sql, p))
  {
    hide Sends, RequestOk, ClientOk, AwaitedOk, Ids, Distinct, Tokens, Slots, Newest, Requests, Clients, Durable;
    hide Attempts;
    SendsIds(s, c, t, a, sql, p);
    SendsDistinct(s, c, t, a, sql, p);
    SendsTokens(s, c, t, a, sql, p);
    SendsSlots(s, c, t, a, sql, p);
    SendsNewest(s, c, t, a, sql, p);
    SendsRequests(s, c, t, a, sql, p);
    SendsClients(s, c, t, a, sql, p);
    SendsHistory(s, c, t, a, sql, p);
  }

  /** Start, single statement, closure statement, COMMIT, ROLLBACK. */
  lemma SendStepInv(s: World, a: Action)
    requires Inv(s) && Enabled(s, a) && (a.Start? || a.Lone? || a.Issue? || a.Finish? || a.Undo?)
    ensures Tracked(s) && Inv(Next(s, a))
  {
    hide Distinct, Tokens, Newest, Requests, Durable, Attempts, Served, Resumes;
    var c, m := a.c, s.nextMsg;
    assert SlotOk(s, s.clients[c]);
    assert Tracked(s);
    match a
    case Start(_) => SendsInv(s, c, s.nextTx, Attempt([], None, false, Running), Begin, Beginning(m));
    case Lone(_, w) =>
      FreshUncommitted(s);
      SendsInv(s, c, s.nextTx, Attempt([w], Some(m), false, Running), Write(w), Alone(m));
    case Issue(_, w) => IssueInv(s, c, w);
    case Finish(_) => FinishInv(s, c);
    case Undo(_) => SendsInv(s, c, s.clients[c].tx, Current(s, c), Rollback, Undoing(m));
  }

  lemma FreshUncommitted(s: World)
    requires Ids(s) && Durable(s)
    ensures !Committed(s.server.log, s.nextTx)
  {
  }

  lemma IssueInv(s: World, c: nat, w: Payload)
    requires Inv(s) && Enabled(s, Issue(c, w))
    ensures Tracked(s) && Inv(Next(s, Issue(c, w)))
  {
    hide Distinct, Tokens, Newest, Requests, Durable;
    var a := s.attempts[s.clients[c].tx];
    assert SlotOk(s, s.clients[c]) && AttemptOk(s, s.clients[c].tx);
    var b := a.(issued := a.issued + [w]);
    assert b.issued[..|b.issued| - 1] == a.issued;
    SendsInv(s, c, s.clients[c].tx, b, Write(w), Writing(s.nextMsg));
  }

  lemma FinishInv(s: World, c: nat)
    requires Inv(s) && Enabled(s, Finish(c))
    ensures Tracked(s) && Inv(Next(s, Finish(c)))
  {
    hide Distinct, Tokens, Newest, Requests;
    var t := s.clients[c].tx;
    assert SlotOk(s, s.clients[c]) && AttemptOk(s, t);
    assert !Committed(s.server.log, t);
    SendsInv(s, c, t, s.attempts[t].(commit := Some(s.nextMsg)), Commit, Committing(s.nextMsg));
  }

  // ==== the server runs a request ====

  predicate Serving(s: World, m: nat, ch: Choice) {
    m in s.requests && ch.baton !in s.server.streamOf
  }

  /** Only the one message that may commit an attempt makes it durable, with all its writes. */
  lemma ServeCommits(s: World, m: nat, ch: Choice)
    requires Ids(s) && Requests(s) && Serving(s, m, ch)
    ensures var q, z := s.requests[m], Served(s, m, ch);
      || z.server.log == s.server.log
      || (exists r: Record :: z.server.log == s.server.log + [r] && r.tx == q.tx && r.writes == s.attempts[q.tx].issued
            && s.attempts[q.tx].commit == Some(m) && !Committed(s.server.log, q.tx))
  {
    var q := s.requests[m];
    assert RequestOk(s, q, m);
    if Accepts(s.server, q) {
      var st := Target(s.server, q);
      var ran := Run(st, q.sql, q.tx, ch);
      if ran.commits != [] {
        assert Served(s, m, ch).server.log == s.server.log + [ran.commits[0]];
      } else {
        assert Served(s, m, ch).server.log == s.server.log;
      }
    }
  }

  /** `log` grew by at most one record, of the attempt that message `m` may commit. */
  predicate Grew(s: World, m: nat, log: seq<Record>)
    requires m in s.requests && s.requests[m].tx in s.attempts
  {
    var t := s.requests[m].tx;
    || log == s.server.log
    || (&& |log| == |s.server.log| + 1 && log[..|s.server.log|] == s.server.log
        && log[|s.server.log|].tx == t && log[|s.server.log|].writes == s.attempts[t].issued
        && s.attempts[t].commit == Some(m) && !Committed(s.server.log, t))
  }

  lemma ServeGrows(s: World, m: nat, ch: Choice)
    requires Ids(s) && Requests(s) && Serving(s, m, ch)
    ensures Grew(s, m, Served(s, m, ch).server.log)
  {
    ServeCommits(s, m, ch);
  }

  /** Other attempts do not notice. */
  lemma GrewOther(s: World, m: nat, log: seq<Record>, t: nat)
    requires m in s.requests && s.requests[m].tx in s.attempts && Grew(s, m, log)
    ensures Committed(s.server.log, t) ==> Committed(log, t)
    ensures t != s.requests[m].tx || log == s.server.log ==> (Committed(log, t) <==> Committed(s.server.log, t))
    ensures log != s.server.log ==> Committed(log, s.requests[m].tx)
  {
    var n := |s.server.log|;
    if log != s.server.log {
      assert forall i :: 0 <= i < n ==> log[..n][i] == log[i];
      assert log[n].tx == s.requests[m].tx;
    }
  }

  lemma ServeIds(s: World, m: nat, ch: Choice)
    requires Ids(s) && Distinct(s) && Serving(s, m, ch)
    ensures var z := Served(s, m, ch); Ids(z) && Distinct(z)
  {
  }

  lemma ServeTokens(s: World, m: nat, ch: Choice)
    requires Ids(s) && Tokens(s) && Serving(s, m, ch)
    ensures Tokens(Served(s, m, ch))
  {
    hide Served;
    var z := Served(s, m, ch);
    ServeFrame(s, m, ch);
    ServeReplyBaton(s, m, ch);
    assert forall n :: n in s.replies ==> InReply(s, n);
    assert forall n :: n in z.replies && n != m ==> InReply(z, n);
  }

  /** A baton in the answer is the new one. */
  lemma ServeReplyBaton(s: World, m: nat, ch: Choice)
    requires Serving(s, m, ch)
    ensures var z := Served(s, m, ch);
      && m in z.replies && s.server.streamOf.Keys <= z.server.streamOf.Keys
      && (z.replies[m].Answered? && z.replies[m].baton.Some? ==>
            z.replies[m].baton == Some(ch.baton) && ch.baton in z.server.streamOf)
  {
    hide Run;
  }

  lemma ServeSlots(s: World, m: nat, ch: Choice)
    requires Tokens(s) && Slots(s) && Serving(s, m, ch)
    ensures Slots(Served(s, m, ch))
  {
    hide Run;
    var z := Served(s, m, ch);
    forall d | d in z.clients ensures SlotOk(z, z.clients[d]) && !Holds(z.clients[d], ch.baton) {
      assert SlotOk(s, s.clients[d]);
    }
  }

  lemma RunKeepsId(st: Stream, sql: Sql, tx: nat, ch: Choice)
    ensures Run(st, sql, tx, ch).stream.id == st.id
  {
  }

  /** Handling moves one stream from its used baton to the new one, or starts or ends one. */
  lemma HandledStreams(sv: Server, q: Request, ch: Choice)
    requires StreamIds(sv) && OneLive(sv) && Accepts(sv, q) && ch.baton !in sv.streamOf
    ensures StreamIds(Handled(sv, q, ch)) && OneLive(Handled(sv, q, ch))
  {
    hide Run;
    RunKeepsId(Target(sv, q), q.sql, q.tx, ch);
  }

  lemma HandledUnsent(sv: Server, q: Request, ch: Choice, sent: set<Baton>)
    requires StreamIds(sv) && OneLive(sv) && UnsentNewest(sv, sent)
    requires Accepts(sv, q) && ch.baton !in sv.streamOf && sent <= sv.streamOf.Keys && Used(q) <= sent
    ensures UnsentNewest(Handled(sv, q, ch), sent)
  {
    hide Run;
    RunKeepsId(Target(sv, q), q.sql, q.tx, ch);
  }

  lemma ServeNewest(s: World, m: nat, ch: Choice)
    requires Tokens(s) && Newest(s) && Serving(s, m, ch)
    ensures Newest(Served(s, m, ch))
  {
    hide Handled, StreamIds, OneLive, UnsentNewest;
    var q := s.requests[m];
    if Accepts(s.server, q) {
      HandledStreams(s.server, q, ch);
      HandledUnsent(s.server, q, ch, s.sent);
    }
  }

  /** A live stream that no request under way names, besides `m`, is untouched. */
  lemma ServeElsewhere(s: World, m: nat, ch: Choice, b: Baton)
    requires Serving(s, m, ch) && s.requests[m].baton != Some(b) && b in s.server.streamOf
    ensures var z := Served(s, m, ch);
      (b in z.server.live <==> b in s.server.live) && (b in s.server.live ==> z.server.live[b] == s.server.live[b])
  {
    hide Run;
  }

  lemma ServeRequests(s: World, m: nat, ch: Choice)
    requires Ids(s) && Tokens(s) && Requests(s) && Serving(s, m, ch) && Ids(Served(s, m, ch))
    ensures Requests(Served(s, m, ch))
  {
    hide Served, Grew, Committed;
    var z := Served(s, m, ch);
    ServeFrame(s, m, ch);
    ServeGrows(s, m, ch);
    forall n | n in z.requests ensures RequestOk(z, z.requests[n], n) {
      var q := s.requests[n];
      assert RequestOk(s, q, n);
      if q.baton.Some? {
        ServeElsewhere(s, m, ch, q.baton.value);
      }
      GrewOther(s, m, z.server.log, q.tx);
      if q.tx == s.requests[m].tx {
        if z.server.log != s.server.log {
          GrewBy(s, m, z.server.log);
        }
      }
    }
  }

  lemma GrewBy(s: World, m: nat, log: seq<Record>)
    requires m in s.requests && s.requests[m].tx in s.attempts && Grew(s, m, log) && log != s.server.log
    ensures s.attempts[s.requests[m].tx].commit == Some(m)
  {
  }

  /** What serving leaves alone. */
  lemma ServeFrame(s: World, m: nat, ch: Choice)
    requires Serving(s, m, ch)
    ensures var z := Served(s, m, ch);
      && z.clients == s.clients && z.attempts == s.attempts && z.sent == s.sent
      && z.requests == s.requests - {m} && m in z.replies && z.replies == s.replies[m := z.replies[m]]
  {
  }

  lemma ServeClients(s: World, m: nat, ch: Choice)
    requires Ids(s) && Tokens(s) && Slots(s) && Requests(s) && Clients(s) && Serving(s, m, ch) && Ids(Served(s, m, ch))
    ensures Clients(Served(s, m, ch))
  {
    hide Served, Grew, Committed, RequestOk, StreamHolds;
    var z := Served(s, m, ch);
    ServeFrame(s, m, ch);
    forall c | c in z.clients && Active(z.clients[c])
      ensures ClientOk(z, z.clients[c]) && (Waiting(z.clients[c].phase) ==> AwaitedOk(z, z.clients[c]))
    {
      assert SlotOk(s, s.clients[c]);
      if Waiting(z.clients[c].phase) {
        if z.clients[c].phase.msg == m {
          ServeAwaited(s, m, ch, c);
        } else {
          ServeOther(s, m, ch, c);
        }
      } else if z.clients[c].phase.Body? {
        ServeElsewhere(s, m, ch, z.clients[c].baton.value);
        HoldsOn(s, z, z.clients[c].baton.value);
      }
    }
  }

  lemma HoldsOn(s: World, z: World, b: Baton)
    requires (b in z.server.live <==> b in s.server.live)
    requires (b in s.server.live ==> z.server.live[b] == s.server.live[b])
    ensures forall t, writes :: StreamHolds(s, b, t, writes) <==> StreamHolds(z, b, t, writes)
  {
  }

  /** A session that waits for another message. */
  lemma ServeOther(s: World, m: nat, ch: Choice, c: nat)
    requires Ids(s) && Tokens(s) && Slots(s) && Requests(s) && Clients(s) && Serving(s, m, ch)
    requires c in s.clients && Waiting(s.clients[c].phase) && s.clients[c].phase.msg != m
    ensures Served(s, m, ch).clients == s.clients && s.clients[c].tx in Served(s, m, ch).attempts
    ensures ClientOk(Served(s, m, ch), s.clients[c]) && AwaitedOk(Served(s, m, ch), s.clients[c])
  {
    hide Served, Grew, Committed, RequestOk, StreamHolds;
    var z, k := Served(s, m, ch), s.clients[c];
    ServeFrame(s, m, ch);
    ServeGrows(s, m, ch);
    GrewOther(s, m, z.server.log, k.tx);
    if z.server.log != s.server.log {
      GrewBy(s, m, z.server.log);
    }
    var n := k.phase.msg;
    if n in s.requests && k.phase.Writing? {
      ServeElsewhere(s, m, ch, k.baton.value);
      HoldsOn(s, z, k.baton.value);
    }
    if n in s.replies {
      assert InReply(s, n);
      if s.replies[n].Answered? && s.replies[n].baton.Some? {
        ServeElsewhere(s, m, ch, s.replies[n].baton.value);
        HoldsOn(s, z, s.replies[n].baton.value);
      }
    }
  }

  /** The answer to a COMMIT, or to a statement outside a transaction, tells what became durable. */
  lemma ServeTells(s: World, m: nat, ch: Choice)
    requires Ids(s) && Requests(s) && Serving(s, m, ch)
    ensures var q, z := s.requests[m], Served(s, m, ch);
      q.sql.Commit? || (q.sql.Write? && q.baton.None?) ==>
        (z.replies[m].Answered? && !z.replies[m].failed <==> z.server.log != s.server.log)
  {
    var q, z := s.requests[m], Served(s, m, ch);
    assert RequestOk(s, q, m);
    if Accepts(s.server, q) {
      assert |z.server.log| == |s.server.log| + |Run(Target(s.server, q), q.sql, q.tx, ch).commits|;
    }
  }

  /** The session that waits for this very message. */
  lemma ServeAwaited(s: World, m: nat, ch: Choice, c: nat)
    requires Ids(s) && Slots(s) && Requests(s) && Clients(s) && Serving(s, m, ch)
    requires c in s.clients && Waiting(s.clients[c].phase) && s.clients[c].phase.msg == m
    ensures Served(s, m, ch).clients == s.clients && s.clients[c].tx in Served(s, m, ch).attempts
    ensures ClientOk(Served(s, m, ch), s.clients[c]) && AwaitedOk(Served(s, m, ch), s.clients[c])
  {
    hide Grew, Committed;
    var z, k, q := Served(s, m, ch), s.clients[c], s.requests[m];
    assert RequestOk(s, q, m) && SlotOk(s, k);
    ServeGrows(s, m, ch);
    ServeTells(s, m, ch);
    GrewOther(s, m, z.server.log, k.tx);
    var a := s.attempts[k.tx];
    if k.phase.Writing? {
      assert a.issued[..|a.issued| - 1] + [a.issued[|a.issued| - 1]] == a.issued;
    }
  }

  lemma ServeHistory(s: World, m: nat, ch: Choice)
    requires Ids(s) && Requests(s) && Durable(s) && Attempts(s) && Serving(s, m, ch)
    ensures var z := Served(s, m, ch); Durable(z) && Attempts(z)
  {
    hide Served, Grew, Committed, RequestOk;
    var z := Served(s, m, ch);
    ServeFrame(s, m, ch);
    ServeGrows(s, m, ch);
    ServeDurable(s, z, m);
    forall t | t in z.attempts ensures AttemptOk(z, t) {
      assert AttemptOk(s, t);
      GrewOther(s, m, z.server.log, t);
      if z.server.log != s.server.log {
        GrewBy(s, m, z.server.log);
      }
    }
  }

  lemma ServeDurable(s: World, z: World, m: nat)
    requires m in s.requests && s.requests[m].tx in s.attempts && Durable(s) && Grew(s, m, z.server.log)
    requires z.attempts == s.attempts && z.requests == s.requests - {m}
    ensures Durable(z)
  {
    var n := |s.server.log|;
    if z.server.log != s.server.log {
      assert forall i :: 0 <= i < n ==> z.server.log[..n][i] == z.server.log[i];
      forall i | 0 <= i < n ensures z.server.log[i].tx != z.server.log[n].tx && RecordOk(z, z.server.log[i]) {
        assert s.server.log[i] == z.server.log[i] && RecordOk(s, s.server.log[i]);
      }
    } else {
      forall i | 0 <= i < n ensures RecordOk(z, z.server.log[i]) {
        assert RecordOk(s, s.server.log[i]);
      }
    }
  }

  lemma ServeInv(s: World, m: nat, ch: Choice)
    requires Inv(s) && Serving(s, m, ch)
    ensures Inv(Served(s, m, ch))
  {
    hide Served, Ids, Distinct, Tokens, Slots, Newest, Requests, Clients, Durable, Attempts;
    ServeIds(s, m, ch);
    ServeTokens(s, m, ch);
    ServeSlots(s, m, ch);
    ServeNewest(s, m, ch);
    ServeRequests(s, m, ch);
    ServeClients(s, m, ch);
    ServeHistory(s, m, ch);
  }

  // ==== `execute` comes back ====

  /** What is known when session `c` resumes with `reply`: the message it waited for is answered,
      and its new baton, if any, is nowhere else. */
  ghost predicate Resumable(s: World, c: nat, reply: Option<Reply>) {
    && c in s.clients && Waiting(s.clients[c].phase) && s.clients[c].tx in s.attempts
    && var k := s.clients[c];
       reply.Some? ==>
         && k.phase.msg !in s.requests && k.phase.msg !in s.replies
         && ReplyOk(s, k, reply.value)
         && (reply.value.Answered? && reply.value.baton.Some? ==>
              var b := reply.value.baton.value;
              && b in s.server.streamOf && b !in s.sent
              && (forall n :: n in s.replies && s.replies[n].Answered? ==> s.replies[n].baton != Some(b))
              && (forall d :: d in s.clients ==> !Holds(s.clients[d], b)))
  }

  lemma ResumesIds(s: World, c: nat, reply: Option<Reply>)
    requires Ids(s) && Distinct(s) && Resumable(s, c, reply)
    ensures Ids(Resumes(s, c, reply))
  {
    hide Succeeds, NextBaton, Closes, ReplyOk, Holds;
  }

  lemma ResumesDistinct(s: World, c: nat, reply: Option<Reply>)
    requires Distinct(s) && Resumable(s, c, reply)
    ensures Distinct(Resumes(s, c, reply))
  {
  }

  lemma ResumesTokens(s: World, c: nat, reply: Option<Reply>)
    requires Tokens(s) && Newest(s) && Resumable(s, c, reply)
    ensures var z := Resumes(s, c, reply); Tokens(z) && Newest(z)
  {
    hide StreamIds, OneLive, UnsentNewest, Tokens;
    var z := Resumes(s, c, reply);
    assert z.server == s.server && z.requests == s.requests && z.replies == s.replies && z.sent == s.sent;
    SameMessages(s, z);
  }

  lemma ResumesSlots(s: World, c: nat, reply: Option<Reply>)
    requires Slots(s) && Resumable(s, c, reply) && ClientOk(s, s.clients[c])
    ensures Slots(Resumes(s, c, reply))
  {
    var z := Resumes(s, c, reply);
    forall d | d in z.clients ensures SlotOk(z, z.clients[d]) {
      assert SlotOk(s, s.clients[d]);
    }
  }

  lemma ResumesRequests(s: World, c: nat, reply: Option<Reply>)
    requires Ids(s) && Requests(s) && Resumable(s, c, reply) && Ids(Resumes(s, c, reply))
    ensures Requests(Resumes(s, c, reply))
  {
    var z := Resumes(s, c, reply);
    forall m | m in z.requests ensures RequestOk(z, z.requests[m], m) {
      assert RequestOk(s, s.requests[m], m);
    }
  }

  /** A session whose messages and attempt stay as they are. */
  lemma ClientStays(s: World, z: World, k: Client)
    requires z.server == s.server && z.requests == s.requests && z.replies == s.replies
    requires k.tx in s.attempts && k.tx in z.attempts && z.attempts[k.tx] == s.attempts[k.tx]
    requires ClientOk(s, k) && (Waiting(k.phase) ==> AwaitedOk(s, k))
    ensures ClientOk(z, k) && (Waiting(k.phase) ==> AwaitedOk(z, k))
  {
    hide SqlOf, Closes;
  }

  lemma ResumesClients(s: World, c: nat, reply: Option<Reply>)
    requires Ids(s) && Distinct(s) && Slots(s) && Clients(s) && Resumable(s, c, reply) && Ids(Resumes(s, c, reply))
    ensures Clients(Resumes(s, c, reply))
  {
    hide AwaitedOk;
    var z := Resumes(s, c, reply);
    assert SlotOk(s, s.clients[c]);
    forall d | d in z.clients && Active(z.clients[d])
      ensures ClientOk(z, z.clients[d]) && (Waiting(z.clients[d].phase) ==> AwaitedOk(z, z.clients[d]))
    {
      if d != c {
        ClientStays(s, z, z.clients[d]);
      }
    }
  }

  lemma ResumesHistory(s: World, c: nat, reply: Option<Reply>)
    requires Ids(s) && Durable(s) && Attempts(s) && Resumable(s, c, reply) && ClientOk(s, s.clients[c])
    ensures var z := Resumes(s, c, reply); Durable(z) && Attempts(z)
  {
    var z := Resumes(s, c, reply);
    forall t | t in z.attempts ensures AttemptOk(z, t) {
      assert AttemptOk(s, t);
    }
  }

  lemma ResumesInv(s: World, c: nat, reply: Option<Reply>)
    requires Inv(s) && Resumable(s, c, reply)
    ensures Inv(Resumes(s, c, reply))
  {
    hide Distinct, Tokens, Slots, Newest, Requests, Durable, Attempts, Resumes, ReplyOk, AwaitedOk;
    assert ClientOk(s, s.clients[c]);
    ResumesIds(s, c, reply);
    ResumesDistinct(s, c, reply);
    ResumesTokens(s, c, reply);
    ResumesSlots(s, c, reply);
    ResumesRequests(s, c, reply);
    ResumesClients(s, c, reply);
    ResumesHistory(s, c, reply);
  }

  /** The reply that a session hears is taken from the wire, and its baton is then nowhere else. */
  lemma HearResumable(s: World, c: nat)
    requires Ids(s) && Tokens(s) && Slots(s) && Distinct(s) && Clients(s) && Enabled(s, Hear(c))
    ensures var m := s.clients[c].phase.msg; Resumable(s.(replies := s.replies - {m}), c, Some(s.replies[m]))
  {
    hide StreamIds, OneLive, UnsentNewest, ReplyOk;
    var k := s.clients[c];
    var m := k.phase.msg;
    var z := s.(replies := s.replies - {m});
    assert ClientOk(s, k) && AwaitedOk(s, k) && InReply(s, m);
    HearReplyOk(s, z, k, s.replies[m]);
  }

  lemma HearReplyOk(s: World, z: World, k: Client, r: Reply)
    requires Waiting(k.phase) && k.tx in s.attempts
    requires z.attempts == s.attempts && z.server == s.server && ReplyOk(s, k, r)
    ensures ReplyOk(z, k, r)
  {
  }

  lemma HearInv(s: World, c: nat)
    requires Inv(s) && Enabled(s, Hear(c))
    ensures Tracked(s) && Inv(Next(s, Hear(c)))
  {
    hide Distinct, Tokens, Slots, Newest, Requests, Clients, Durable, Attempts, Resumable, Resumes;
    var m := s.clients[c].phase.msg;
    var z := s.(replies := s.replies - {m});
    HearResumable(s, c);
    ShrunkInv(s, z);
    ResumesInv(z, c, Some(s.replies[m]));
  }

  lemma AbandonInv(s: World, c: nat)
    requires Inv(s) && Enabled(s, Abandon(c))
    ensures Tracked(s) && Inv(Next(s, Abandon(c)))
  {
    hide Distinct, Tokens, Newest, Requests, Clients, Durable, Attempts;
    var z := s.(clients := s.clients[c := s.clients[c].(phase := Failed)]);
    assert SlotOk(s, s.clients[c]);
    AbandonSlots(s, c, z);
    AbandonTokens(s, c, z);
    AbandonRest(s, c, z);
  }

  lemma AbandonSlots(s: World, c: nat, z: World)
    requires Slots(s) && Enabled(s, Abandon(c)) && z == s.(clients := s.clients[c := s.clients[c].(phase := Failed)])
    ensures Slots(z)
  {
    forall d | d in z.clients ensures SlotOk(z, z.clients[d]) {
      assert SlotOk(s, s.clients[d]);
    }
    forall d, b | d in z.clients && Holds(z.clients[d], b) ensures Holds(s.clients[d], b) {
    }
  }

  lemma AbandonTokens(s: World, c: nat, z: World)
    requires Ids(s) && Distinct(s) && Tokens(s) && Newest(s)
    requires Enabled(s, Abandon(c)) && z == s.(clients := s.clients[c := s.clients[c].(phase := Failed)])
    ensures Ids(z) && Distinct(z) && Tokens(z) && Newest(z)
  {
    hide StreamIds, OneLive, UnsentNewest, Tokens, Ids, Distinct;
    assert z.requests == s.requests && z.replies == s.replies && z.server == s.server && z.sent == s.sent;
    AbandonIds(s, c, z);
    AbandonDistinct(s, c, z);
    SameMessages(s, z);
  }

  lemma AbandonIds(s: World, c: nat, z: World)
    requires Ids(s) && Enabled(s, Abandon(c)) && z == s.(clients := s.clients[c := s.clients[c].(phase := Failed)])
    ensures Ids(z)
  {
  }

  lemma AbandonDistinct(s: World, c: nat, z: World)
    requires Distinct(s) && Enabled(s, Abandon(c)) && z == s.(clients := s.clients[c := s.clients[c].(phase := Failed)])
    ensures Distinct(z)
  {
  }

  /** Tokens are about messages and the server only. */
  lemma SameMessages(s: World, z: World)
    requires Tokens(s) && z.requests == s.requests && z.replies == s.replies && z.server == s.server && z.sent == s.sent
    ensures Tokens(z)
  {
    forall m | m in z.replies ensures InReply(z, m) {
      assert InReply(s, m);
    }
  }

  lemma AbandonClients(s: World, c: nat, z: World)
    requires Ids(s) && Ids(z) && Clients(s)
    requires Enabled(s, Abandon(c)) && z == s.(clients := s.clients[c := s.clients[c].(phase := Failed)])
    ensures Clients(z)
  {
    hide ReplyOk, StreamHolds, SqlOf, Closes;
    forall d | d in z.clients && Active(z.clients[d])
      ensures ClientOk(z, z.clients[d]) && (Waiting(z.clients[d].phase) ==> AwaitedOk(z, z.clients[d]))
    {
      if d != c {
        ClientStays(s, z, z.clients[d]);
      }
    }
  }

  lemma AbandonRest(s: World, c: nat, z: World)
    requires Ids(s) && Ids(z) && Requests(s) && Clients(s) && Durable(s) && Attempts(s)
    requires Enabled(s, Abandon(c)) && z == s.(clients := s.clients[c := s.clients[c].(phase := Failed)])
    ensures Requests(z) && Clients(z) && Durable(z) && Attempts(z)
  {
    hide Clients;
    AbandonClients(s, c, z);
    forall t | t in z.attempts ensures AttemptOk(z, t) {
      assert AttemptOk(s, t);
    }
    forall m | m in z.requests ensures RequestOk(z, z.requests[m], m) {
      assert RequestOk(s, s.requests[m], m);
    }
  }

  // ==== every step ====

  lemma StepInv(s: World, a: Action)
    requires Inv(s) && Enabled(s, a)
    ensures Tracked(s) && Inv(Next(s, a))
  {
    hide Distinct, Tokens, Slots, Newest, Requests, Clients, Durable, Attempts, Served, Sends, Resumes;
    match a
    case Serve(m, ch) => ServeInv(s, m, ch);
    case LoseRequest(m) => ShrunkInv(s, Next(s, a));
    case LoseReply(m) => ShrunkInv(s, Next(s, a));
    case Expire(b) => ShrunkInv(s, Next(s, a));
    case Hear(c) => HearInv(s, c);
    case GiveUp(c) => ResumesInv(s, c, None);
    case Abandon(c) => AbandonInv(s, c);
    case _ => SendStepInv(s, a);
  }
}
