/** What the protocol promises over whole runs: transactions are all or nothing, and batons are
    used once, newest first. */
module HranaTheorems {
  import opened Bytes
  import opened HranaProtocol
  import opened HranaInvariant

  /** A run: any interleaving of sessions, server and network from an empty server. */
  ghost predicate IsRun(states: seq<World>, actions: seq<Action>) {
    && |states| == |actions| + 1 && Init(states[0])
    && forall i :: 0 <= i < |actions| ==> Moves(states[i], actions[i], states[i + 1])
  }

  ghost predicate Moves(s: World, a: Action, z: World) {
    Enabled(s, a) && Tracked(s) && z == Next(s, a)
  }

  lemma {:induction false} RunInv(states: seq<World>, actions: seq<Action>, i: nat)
    requires IsRun(states, actions) && i < |states|
    ensures Inv(states[i])
  {
    hide Inv, Init, Next, Enabled, Tracked;
    if i == 0 {
      InitInv(states[0]);
    } else {
      RunInv(states, actions, i - 1);
      assert Moves(states[i - 1], actions[i - 1], states[i]);
      StepInv(states[i - 1], actions[i - 1]);
    }
  }

  /** The durable records of attempt `t` in `s` are at most one, and hold every write the closure
      of `t` issued. */
  ghost predicate WholeOrNone(s: World, t: nat)
    requires t in s.attempts
  {
    && (forall i :: 0 <= i < |s.server.log| && s.server.log[i].tx == t ==>
          s.server.log[i].writes == s.attempts[t].issued)
    && (forall i, j :: 0 <= i < j < |s.server.log| && s.server.log[i].tx == t ==> s.server.log[j].tx != t)
  }

  /** What a call's return value says about the database. */
  ghost predicate Honest(s: World, t: nat)
    requires t in s.attempts
  {
    var a := s.attempts[t];
    && (a.status == Returned(true) ==> Committed(s.server.log, t))
    && (a.status == Returned(false) && Committed(s.server.log, t) ==>
          a.commit.Some? && a.commit.value !in s.requests && !a.heard)
  }

  lemma InvHonest(s: World, t: nat)
    requires Inv(s) && t in s.attempts
    ensures WholeOrNone(s, t) && Honest(s, t)
  {
    hide Ids, Distinct, Tokens, Slots, Newest, Requests, Clients;
    assert AttemptOk(s, t);
    forall i | 0 <= i < |s.server.log| && s.server.log[i].tx == t
      ensures s.server.log[i].writes == s.attempts[t].issued && s.attempts[t].commit.Some?
        && s.attempts[t].commit.value !in s.requests
    {
      assert RecordOk(s, s.server.log[i]);
    }
  }

  /** A call that has returned is never touched again, and the log only grows. */
  lemma StepSettles(s: World, a: Action, t: nat)
    requires Inv(s) && Enabled(s, a) && t in s.attempts && s.attempts[t].status.Returned?
    ensures Tracked(s) && t in Next(s, a).attempts && Next(s, a).attempts[t] == s.attempts[t]
    ensures s.server.log <= Next(s, a).server.log
  {
    hide Distinct, Tokens, Slots, Newest, Requests, Clients, Durable, Attempts, Run;
  }

  lemma {:induction false} RunSettles(states: seq<World>, actions: seq<Action>, i: nat, j: nat, t: nat)
    requires IsRun(states, actions) && i <= j < |states|
    requires t in states[i].attempts && states[i].attempts[t].status.Returned?
    ensures t in states[j].attempts && states[j].attempts[t] == states[i].attempts[t]
    ensures states[i].server.log <= states[j].server.log
    decreases j
  {
    hide Inv, Init, Next, Enabled, Tracked;
    if i < j {
      RunSettles(states, actions, i, j - 1, t);
      RunInv(states, actions, j - 1);
      assert Moves(states[j - 1], actions[j - 1], states[j]);
      StepSettles(states[j - 1], actions[j - 1], t);
    }
  }

  /** All or nothing, from the moment a call returns and for ever after, whatever is lost or
      delayed. Ok: its writes are durable, in one record of one stream. Err: they are not, now or
      later, unless its COMMIT was sent and the answer never came back; then they are all durable
      or none is. */
  lemma AllOrNothing(states: seq<World>, actions: seq<Action>, i: nat, j: nat, t: nat)
    requires IsRun(states, actions) && i <= j < |states|
    requires t in states[i].attempts && states[i].attempts[t].status.Returned?
    ensures t in states[j].attempts && WholeOrNone(states[j], t)
    ensures states[i].attempts[t].status.ok ==> Committed(states[j].server.log, t)
    ensures !states[i].attempts[t].status.ok && (states[i].attempts[t].commit.None? || states[i].attempts[t].heard) ==>
      !Committed(states[j].server.log, t)
  {
    hide Inv, Init, IsRun;
    RunSettles(states, actions, i, j, t);
    RunInv(states, actions, j);
    InvHonest(states[j], t);
  }

  // ==== batons ====

  /** The baton session `c` is about to send was never sent before, and is the newest of its
      stream if the stream still lives. */
  lemma SentOnce(s: World, a: Action)
    requires Inv(s) && Enabled(s, a) && (a.Issue? || a.Finish? || a.Undo?)
    requires s.clients[a.c].baton.Some?
    ensures var b, z := s.clients[a.c].baton.value, Next(s, a);
      && z.requests[s.nextMsg].baton == Some(b) && b !in s.sent && b in z.sent
      && forall n :: n in s.server.live && s.server.streamOf[n] == s.server.streamOf[b] ==> n == b
  {
    hide Distinct, Tokens, Requests, Clients, Durable, Attempts;
    assert SlotOk(s, s.clients[a.c]);
  }

  /** A baton that was sent is never sent again. */
  lemma StepSentOnce(s: World, a: Action, m: nat)
    requires Inv(s) && Enabled(s, a)
    ensures Tracked(s) && s.sent <= Next(s, a).sent
    ensures m in Next(s, a).requests && m !in s.requests && Next(s, a).requests[m].baton.Some? ==>
      Next(s, a).requests[m].baton.value !in s.sent
  {
    hide Distinct, Tokens, Newest, Requests, Clients, Durable, Attempts, Run;
    if a.Start? || a.Lone? || a.Issue? || a.Finish? || a.Undo? {
      assert SlotOk(s, s.clients[a.c]);
    }
  }

  /** After a statement fails inside a transaction, the ROLLBACK carries the baton that came with
      the failure. */
  lemma RollbackIsFresh(s: World, c: nat)
    requires Inv(s) && Enabled(s, Hear(c)) && s.clients[c].phase.Writing?
    requires s.replies[s.clients[c].phase.msg].Answered? && s.replies[s.clients[c].phase.msg].failed
    ensures Tracked(s) && var z := Next(s, Hear(c)); Enabled(z, Undo(c)) && Tracked(z)
    ensures var b := s.replies[s.clients[c].phase.msg].baton;
      var z := Next(s, Hear(c));
      b.Some? && b.value !in z.sent &&
      Next(z, Undo(c)).requests[z.nextMsg] == Request(b, Rollback, true, s.clients[c].tx)
  {
    hide Distinct, Tokens, Newest, Requests, Durable, Attempts;
    var z := Next(s, Hear(c));
    assert SlotOk(s, s.clients[c]) && ClientOk(s, s.clients[c]) && AwaitedOk(s, s.clients[c]);
    StepInv(s, Hear(c));
    assert SlotOk(z, z.clients[c]);
  }

  /** A session that is back in the pool holds no baton, so nothing it does joins an old stream. */
  lemma IdleHoldsNoBaton(states: seq<World>, actions: seq<Action>, i: nat, c: nat)
    requires IsRun(states, actions) && i < |states|
    requires c in states[i].clients && states[i].clients[c].phase.Idle?
    ensures states[i].clients[c].baton.None?
  {
    hide Init, IsRun, Ids, Distinct, Tokens, Newest, Requests, Clients, Durable, Attempts;
    RunInv(states, actions, i);
    assert SlotOk(states[i], states[i].clients[c]);
  }

  // ==== the exception is real ====

  function Fresh(name: Text): Choice {
    Choice(false, false, name)
  }

  /** One session, one write, and the reply to its COMMIT is lost. */
  function LostCommit(): seq<Action> {
    [Start(0), Serve(0, Fresh("a")), Hear(0), Issue(0, 7), Serve(1, Fresh("b")), Hear(0), Finish(0),
     Serve(2, Fresh("c")), GiveUp(0), Undo(0), GiveUp(0)]
  }

  function Stage0(): World {
    World(Server(map[], map[], 0, []),
      map[], map[], map[0 := Client(None, Idle, 0)],
      map[], 0, 0, {})
  }

  function Stage1(): World {
    World(Server(map[], map[], 0, []),
      map[0 := Request(None, Begin, false, 0)], map[], map[0 := Client(None, Beginning(0), 0)],
      map[0 := Attempt([], None, false, Running)], 1, 1, {})
  }

  function Stage2(): World {
    World(Server(map["a" := Stream(0, true, 0, [])], map["a" := 0], 1, []),
      map[], map[0 := Answered(Some("a"), false)], map[0 := Client(None, Beginning(0), 0)],
      map[0 := Attempt([], None, false, Running)], 1, 1, {})
  }

  function Stage3(): World {
    World(Server(map["a" := Stream(0, true, 0, [])], map["a" := 0], 1, []),
      map[], map[], map[0 := Client(Some("a"), Body, 0)],
      map[0 := Attempt([], None, false, Running)], 1, 1, {})
  }

  function Stage4(): World {
    World(Server(map["a" := Stream(0, true, 0, [])], map["a" := 0], 1, []),
      map[1 := Request(Some("a"), Write(7), false, 0)], map[], map[0 := Client(Some("a"), Writing(1), 0)],
      map[0 := Attempt([7], None, false, Running)], 2, 1, {"a"})
  }

  function Stage5(): World {
    World(Server(map["b" := Stream(0, true, 0, [7])], map["a" := 0, "b" := 0], 1, []),
      map[], map[1 := Answered(Some("b"), false)], map[0 := Client(Some("a"), Writing(1), 0)],
      map[0 := Attempt([7], None, false, Running)], 2, 1, {"a"})
  }

  function Stage6(): World {
    World(Server(map["b" := Stream(0, true, 0, [7])], map["a" := 0, "b" := 0], 1, []),
      map[], map[], map[0 := Client(Some("b"), Body, 0)],
      map[0 := Attempt([7], None, false, Running)], 2, 1, {"a"})
  }

  function Stage7(): World {
    World(Server(map["b" := Stream(0, true, 0, [7])], map["a" := 0, "b" := 0], 1, []),
      map[2 := Request(Some("b"), Commit, true, 0)], map[], map[0 := Client(Some("b"), Committing(2), 0)],
      map[0 := Attempt([7], Some(2), false, Running)], 3, 1, {"a", "b"})
  }

  function Stage8(): World {
    World(Server(map[], map["a" := 0, "b" := 0], 1, [Record(0, 0, [7])]),
      map[], map[2 := Answered(None, false)], map[0 := Client(Some("b"), Committing(2), 0)],
      map[0 := Attempt([7], Some(2), false, Running)], 3, 1, {"a", "b"})
  }

  function Stage9(): World {
    World(Server(map[], map["a" := 0, "b" := 0], 1, [Record(0, 0, [7])]),
      map[], map[2 := Answered(None, false)], map[0 := Client(None, Failed, 0)],
      map[0 := Attempt([7], Some(2), false, Running)], 3, 1, {"a", "b"})
  }

  function Stage10(): World {
    World(Server(map[], map["a" := 0, "b" := 0], 1, [Record(0, 0, [7])]),
      map[3 := Request(None, Rollback, true, 0)], map[2 := Answered(None, false)],
      map[0 := Client(None, Undoing(3), 0)],
      map[0 := Attempt([7], Some(2), false, Running)], 4, 1, {"a", "b"})
  }

  function Stage11(): World {
    World(Server(map[], map["a" := 0, "b" := 0], 1, [Record(0, 0, [7])]),
      map[3 := Request(None, Rollback, true, 0)], map[2 := Answered(None, false)], map[0 := Client(None, Idle, 0)],
      map[0 := Attempt([7], Some(2), false, Returned(false))], 4, 1, {"a", "b"})
  }

  lemma Step0()
    ensures Moves(Stage0(), Start(0), Stage1())
  {
    assert Next(Stage0(), Start(0)) == Stage1();
  }

  lemma Step1()
    ensures Moves(Stage1(), Serve(0, Fresh("a")), Stage2())
  {
    assert Next(Stage1(), Serve(0, Fresh("a"))) == Stage2();
  }

  lemma Step2()
    ensures Moves(Stage2(), Hear(0), Stage3())
  {
    assert Next(Stage2(), Hear(0)) == Stage3();
  }

  lemma Step3()
    ensures Moves(Stage3(), Issue(0, 7), Stage4())
  {
    assert [] + [7 as nat] == [7];
    assert Next(Stage3(), Issue(0, 7)) == Stage4();
  }

  lemma Step4()
    ensures Moves(Stage4(), Serve(1, Fresh("b")), Stage5())
  {
    assert [] + [7 as nat] == [7];
    assert Next(Stage4(), Serve(1, Fresh("b"))) == Stage5();
  }

  lemma Step5()
    ensures Moves(Stage5(), Hear(0), Stage6())
  {
    assert Next(Stage5(), Hear(0)) == Stage6();
  }

  lemma Step6()
    ensures Moves(Stage6(), Finish(0), Stage7())
  {
    assert Next(Stage6(), Finish(0)) == Stage7();
  }

  lemma Step7()
    ensures Moves(Stage7(), Serve(2, Fresh("c")), Stage8())
  {
    assert Next(Stage7(), Serve(2, Fresh("c"))) == Stage8();
  }

  lemma Step8()
    ensures Moves(Stage8(), GiveUp(0), Stage9())
  {
    assert Next(Stage8(), GiveUp(0)) == Stage9();
  }

  lemma Step9()
    ensures Moves(Stage9(), Undo(0), Stage10())
  {
    assert Next(Stage9(), Undo(0)) == Stage10();
  }

  lemma Step10()
    ensures Moves(Stage10(), GiveUp(0), Stage11())
  {
    assert Next(Stage10(), GiveUp(0)) == Stage11();
  }

  /** A call can return Err although all its writes are durable. */
  lemma LostCommitReply() returns (states: seq<World>)
    ensures IsRun(states, LostCommit()) && |states| == 12
    ensures 0 in states[11].attempts && states[11].attempts[0] == Attempt([7], Some(2), false, Returned(false))
    ensures states[11].server.log == [Record(0, 0, [7])]
  {
    hide Moves, Stage1, Stage2, Stage3, Stage4, Stage5, Stage6, Stage7, Stage8, Stage9, Stage10;
    states := [Stage0(), Stage1(), Stage2(), Stage3(), Stage4(), Stage5(), Stage6(), Stage7(), Stage8(), Stage9(),
      Stage10(), Stage11()];
    Step0();
    Step1();
    Step2();
    Step3();
    Step4();
    Step5();
    Step6();
    Step7();
    Step8();
    Step9();
    Step10();
  }
}
