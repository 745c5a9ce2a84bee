/** The connection pool of backend/src/db.rs: a lock, a list of idle connections, a shutdown flag
    and a condition variable, under every interleaving of its callers. */
module Pool {
  import opened Bytes

  type Conn = nat

  // ==== what happens under the lock ====

  /** One turn of the loop in `checkout`. */
  datatype Turn = Closed | Got(conn: Conn) | Wait

  function TurnOf(idle: seq<Conn>, closed: bool): Turn {
    if closed then Closed else if idle == [] then Wait else Got(idle[|idle| - 1])
  }

  function AfterTurn(idle: seq<Conn>, closed: bool): seq<Conn> {
    if TurnOf(idle, closed).Got? then idle[..|idle| - 1] else idle
  }

  /** `PoolState` and the critical sections over it. */
  class PoolState {
    var idle: seq<Conn>
    var closed: bool

    constructor (conns: seq<Conn>)
      ensures idle == conns && !closed
    {
      idle := conns;
      closed := false;
    }

    /** A turn of `checkout`. */
    method TryCheckout() returns (r: Turn)
      modifies this
      ensures r == TurnOf(old(idle), old(closed)) && idle == AfterTurn(old(idle), old(closed)) && closed == old(closed)
      ensures r.Closed? <==> closed
      ensures r.Got? <==> !closed && old(idle) != []
      ensures r.Got? ==> old(idle) == idle + [r.conn]
      ensures !r.Got? ==> idle == old(idle)
    {
      if closed {
        return Closed;
      }
      if idle != [] {
        var db := idle[|idle| - 1];
        idle := idle[..|idle| - 1];
        return Got(db);
      }
      r := Wait;
    }

    /** `Checkout::drop`: whether to notify, or else to close the connection. */
    method GiveBack(conn: Conn) returns (notify: bool)
      modifies this
      ensures notify == !old(closed) && closed == old(closed)
      ensures idle == if notify then old(idle) + [conn] else old(idle)
    {
      if closed {
        return false;
      }
      idle := idle + [conn];
      notify := true;
    }

    /** `close_all`, up to its `notify_all`. */
    method CloseAll() returns (drained: seq<Conn>)
      modifies this
      ensures closed && idle == [] && drained == old(idle)
    {
      closed := true;
      drained := idle;
      idle := [];
    }
  }

  // ==== threads ====

  /** `Woken` has been delivered a notification, or a spurious one, and has yet to take the lock;
      `Notifying` has put a connection back and released the lock. */
  datatype Thread = Outside | Sleeping | Woken | Holding(conn: Conn) | Notifying | Refused

  /** `dropped` are the connections closed for good; `closers` counts the `notify_all` calls still
      to come. */
  datatype State = State(
    idle: seq<Conn>, closed: bool, threads: map<nat, Thread>, dropped: set<Conn>, closers: nat)

  datatype Action =
    | Enter(t: nat)
    | Resume(t: nat)
    | Spurious(t: nat)
    | Return(t: nat)
    | NotifyOne(t: nat, u: nat)    // wakes `u`
    | NotifyNone(t: nat)           // nobody sleeps
    | CloseAll
    | NotifyAll

  predicate Is(s: State, t: nat, h: Thread) {
    t in s.threads && s.threads[t] == h
  }

  ghost predicate SomeoneSleeps(s: State) {
    exists t :: Is(s, t, Sleeping)
  }

  ghost predicate Enabled(s: State, a: Action) {
    match a
    case Enter(t) => Is(s, t, Outside) || Is(s, t, Refused)
    case Resume(t) => Is(s, t, Woken)
    case Spurious(t) => Is(s, t, Sleeping)
    case Return(t) => t in s.threads && s.threads[t].Holding?
    case NotifyOne(t, u) => Is(s, t, Notifying) && Is(s, u, Sleeping)
    case NotifyNone(t) => Is(s, t, Notifying) && !SomeoneSleeps(s)
    case CloseAll => true
    case NotifyAll => s.closers > 0
  }

  /** A turn of `checkout` by thread `t`. */
  function Turned(s: State, t: nat): State
    requires t in s.threads
  {
    var turn := TurnOf(s.idle, s.closed);
    s.(idle := AfterTurn(s.idle, s.closed),
       threads := s.threads[t := match turn case Closed => Refused case Got(c) => Holding(c) case Wait => Sleeping])
  }

  function Next(s: State, a: Action): State
    requires Enabled(s, a)
  {
    match a
    case Enter(t) => Turned(s, t)
    case Resume(t) => Turned(s, t)
    case Spurious(t) => s.(threads := s.threads[t := Woken])
    case Return(t) =>
      var c := s.threads[t].conn;
      if s.closed then s.(threads := s.threads[t := Outside], dropped := s.dropped + {c})
      else s.(idle := s.idle + [c], threads := s.threads[t := Notifying])
    case NotifyOne(t, u) => s.(threads := s.threads[t := Outside][u := Woken])
    case NotifyNone(t) => s.(threads := s.threads[t := Outside])
    case CloseAll =>
      s.(closed := true, dropped := s.dropped + (set i | 0 <= i < |s.idle| :: s.idle[i]),
         idle := [], closers := s.closers + 1)
    case NotifyAll =>
      s.(threads := map t | t in s.threads :: if s.threads[t].Sleeping? then Woken else s.threads[t],
         closers := s.closers - 1)
  }

  // ==== the invariant ====

  function Bearers(s: State): set<nat> {
    set t | t in s.threads && (s.threads[t].Woken? || s.threads[t].Notifying?)
  }

  /** Where connection `c` is: exactly one place. */
  predicate InIdle(s: State, c: Conn) {
    exists i :: 0 <= i < |s.idle| && s.idle[i] == c
  }

  predicate IsHeld(s: State, c: Conn) {
    exists t :: t in s.threads && s.threads[t] == Holding(c)
  }

  /** No connection is in two places, or with two callers. */
  ghost predicate Exclusive(s: State) {
    && (forall i, j :: 0 <= i < j < |s.idle| ==> s.idle[i] != s.idle[j])
    && (forall t, i :: t in s.threads && 0 <= i < |s.idle| ==> s.threads[t] != Holding(s.idle[i]))
    && (forall t, u :: t in s.threads && u in s.threads && t != u && s.threads[t].Holding? ==>
          s.threads[t] != s.threads[u])
    && (forall c :: c in s.dropped ==> !InIdle(s, c) && !IsHeld(s, c))
  }

  /** Connections are neither made nor lost; while the pool is open none is dropped. */
  ghost predicate Conserved(s: State, all: set<Conn>) {
    && (forall c :: c in all <==> InIdle(s, c) || IsHeld(s, c) || c in s.dropped)
    && (!s.closed ==> s.dropped == {})
    && (s.closed ==> s.idle == [])
  }

  /** While someone sleeps in an open pool, every idle connection has a notification under way. */
  ghost predicate NoLostWakeup(s: State) {
    && (!s.closed && SomeoneSleeps(s) ==> |s.idle| <= |Bearers(s)|)
    && (s.closed && SomeoneSleeps(s) ==> s.closers > 0)
  }

  ghost predicate Inv(s: State, all: set<Conn>) {
    Exclusive(s) && Conserved(s, all) && NoLostWakeup(s)
  }

  ghost predicate Init(s: State, all: set<Conn>) {
    && !s.closed && s.dropped == {} && s.closers == 0
    && (forall t :: t in s.threads ==> s.threads[t] == Outside)
    && (forall i, j :: 0 <= i < j < |s.idle| ==> s.idle[i] != s.idle[j])
    && all == set i | 0 <= i < |s.idle| :: s.idle[i]
  }

  lemma InitInv(s: State, all: set<Conn>)
    requires Init(s, all)
    ensures Inv(s, all)
  {
  }

  /** One thread stops or starts bearing a notification. */
  lemma BearersMove(s: State, z: State, t: nat)
    requires t in s.threads && z.threads.Keys == s.threads.Keys
    requires forall u :: u in s.threads && u != t ==> z.threads[u] == s.threads[u]
    ensures t in Bearers(s) ==> |Bearers(z)| >= |Bearers(s)| - 1
    ensures t !in Bearers(s) ==> |Bearers(z)| >= |Bearers(s)|
    ensures t !in Bearers(s) && t in Bearers(z) ==> |Bearers(z)| == |Bearers(s)| + 1
    ensures t in Bearers(s) && t in Bearers(z) ==> |Bearers(z)| == |Bearers(s)|
  {
    assert Bearers(s) - {t} == Bearers(z) - {t};
    assert |Bearers(s) - {t}| == if t in Bearers(s) then |Bearers(s)| - 1 else |Bearers(s)|;
    assert |Bearers(z) - {t}| == if t in Bearers(z) then |Bearers(z)| - 1 else |Bearers(z)|;
  }

  lemma TurnedExclusive(s: State, t: nat, all: set<Conn>)
    requires Exclusive(s) && Conserved(s, all) && t in s.threads && !s.threads[t].Holding?
    ensures Exclusive(Turned(s, t))
  {
    var z := Turned(s, t);
    forall c | c in z.dropped ensures !InIdle(z, c) && !IsHeld(z, c) {
      assert s.closed && !InIdle(s, c) && !IsHeld(s, c);
      assert forall u :: u in z.threads && u != t ==> z.threads[u] == s.threads[u] && s.threads[u] != Holding(c);
    }
  }

  lemma TurnedConserved(s: State, t: nat, all: set<Conn>)
    requires Conserved(s, all) && t in s.threads && !s.threads[t].Holding?
    ensures Conserved(Turned(s, t), all)
  {
    var z := Turned(s, t);
    forall c ensures InIdle(s, c) || IsHeld(s, c) <==> InIdle(z, c) || IsHeld(z, c) {
      if InIdle(s, c) {
        var i :| 0 <= i < |s.idle| && s.idle[i] == c;
        if i < |z.idle| {
          assert z.idle[i] == c;
        } else {
          assert z.threads[t] == Holding(c);
        }
      }
      if IsHeld(s, c) {
        var u :| u in s.threads && s.threads[u] == Holding(c);
        assert z.threads[u] == Holding(c);
      }
      if InIdle(z, c) {
        var i :| 0 <= i < |z.idle| && z.idle[i] == c;
        assert s.idle[i] == c;
      }
      if IsHeld(z, c) && !IsHeld(s, c) {
        var u :| u in z.threads && z.threads[u] == Holding(c);
        assert u == t;
        assert s.idle[|s.idle| - 1] == c;
      }
    }
  }

  lemma TurnedWakes(s: State, t: nat)
    requires NoLostWakeup(s) && t in s.threads
    requires !s.threads[t].Holding? && !s.threads[t].Sleeping? && !s.threads[t].Notifying?
    ensures NoLostWakeup(Turned(s, t))
  {
    var z := Turned(s, t);
    BearersMove(s, z, t);
    if !z.closed && SomeoneSleeps(z) && z.idle != [] {
      var u :| Is(z, u, Sleeping);
      assert Is(s, u, Sleeping);
    }
    if z.closed && SomeoneSleeps(z) {
      var u :| Is(z, u, Sleeping);
      assert Is(s, u, Sleeping);
    }
  }

  /** A thread changes state without touching a connection. */
  lemma SteppedPlaces(s: State, z: State, all: set<Conn>)
    requires Exclusive(s) && Conserved(s, all)
    requires z.idle == s.idle && z.closed == s.closed && z.dropped == s.dropped && z.threads.Keys == s.threads.Keys
    requires forall t :: t in s.threads ==>
      z.threads[t] == s.threads[t] || (!s.threads[t].Holding? && !z.threads[t].Holding?)
    ensures Exclusive(z) && Conserved(z, all)
  {
    assert forall c, t :: t in s.threads ==> (s.threads[t] == Holding(c) <==> z.threads[t] == Holding(c));
    assert forall c :: IsHeld(s, c) <==> IsHeld(z, c);
    assert forall c :: InIdle(s, c) <==> InIdle(z, c);
  }

  lemma ReturnPlaces(s: State, t: nat, all: set<Conn>)
    requires Exclusive(s) && Conserved(s, all) && Enabled(s, Return(t))
    ensures Exclusive(Next(s, Return(t))) && Conserved(Next(s, Return(t)), all)
  {
    var z, c := Next(s, Return(t)), s.threads[t].conn;
    assert s.threads[t] == Holding(c);
    forall d ensures IsHeld(z, d) <==> IsHeld(s, d) && d != c {
      if IsHeld(s, d) && d != c {
        var u :| u in s.threads && s.threads[u] == Holding(d);
        assert z.threads[u] == Holding(d);
      }
      if IsHeld(z, d) {
        var u :| u in z.threads && z.threads[u] == Holding(d);
        assert s.threads[u] == Holding(d) && u != t;
      }
    }
    if s.closed {
      assert forall d :: InIdle(z, d) <==> InIdle(s, d);
    } else {
      ReturnIdle(s, z, c);
      assert forall i :: 0 <= i < |s.idle| ==> s.threads[t] != Holding(s.idle[i]);
    }
  }

  lemma ReturnIdle(s: State, z: State, c: Conn)
    requires z.idle == s.idle + [c]
    ensures forall d :: InIdle(z, d) <==> InIdle(s, d) || d == c
  {
    assert z.idle[|s.idle|] == c;
    assert forall i :: 0 <= i < |s.idle| ==> z.idle[i] == s.idle[i];
    forall d ensures InIdle(z, d) <==> InIdle(s, d) || d == c {
      if InIdle(s, d) {
        var i :| 0 <= i < |s.idle| && s.idle[i] == d;
        assert z.idle[i] == d;
      }
    }
  }

  lemma ReturnWakes(s: State, t: nat)
    requires NoLostWakeup(s) && Enabled(s, Return(t))
    ensures NoLostWakeup(Next(s, Return(t)))
  {
    var z := Next(s, Return(t));
    BearersMove(s, z, t);
    if SomeoneSleeps(z) {
      var u :| Is(z, u, Sleeping);
      assert Is(s, u, Sleeping);
    }
  }

  lemma SpuriousWakes(s: State, t: nat)
    requires NoLostWakeup(s) && Enabled(s, Spurious(t))
    ensures NoLostWakeup(Next(s, Spurious(t)))
  {
    var z := Next(s, Spurious(t));
    BearersMove(s, z, t);
    if SomeoneSleeps(z) {
      var u :| Is(z, u, Sleeping);
      assert Is(s, u, Sleeping);
    }
  }

  /** A delivered notification passes from the notifier to the sleeper. */
  lemma NotifyOneWakes(s: State, t: nat, u: nat)
    requires NoLostWakeup(s) && Enabled(s, NotifyOne(t, u))
    ensures NoLostWakeup(Next(s, NotifyOne(t, u)))
  {
    var m := s.(threads := s.threads[t := Outside]);
    var z := Next(s, NotifyOne(t, u));
    BearersMove(s, m, t);
    BearersMove(m, z, u);
    if SomeoneSleeps(z) {
      var v :| Is(z, v, Sleeping);
      assert Is(s, v, Sleeping);
    }
  }

  lemma NotifyNoneWakes(s: State, t: nat)
    requires NoLostWakeup(s) && Enabled(s, NotifyNone(t))
    ensures NoLostWakeup(Next(s, NotifyNone(t)))
  {
    var z := Next(s, NotifyNone(t));
    if SomeoneSleeps(z) {
      var v :| Is(z, v, Sleeping);
      assert Is(s, v, Sleeping);
      assert false;
    }
  }

  lemma NotifyAllWakes(s: State)
    requires Enabled(s, NotifyAll)
    ensures !SomeoneSleeps(Next(s, NotifyAll)) && NoLostWakeup(Next(s, NotifyAll))
  {
  }

  lemma ClosePlaces(s: State, all: set<Conn>)
    requires Exclusive(s) && Conserved(s, all)
    ensures Exclusive(Next(s, CloseAll)) && Conserved(Next(s, CloseAll), all)
  {
    var z := Next(s, CloseAll);
    assert forall c :: IsHeld(z, c) <==> IsHeld(s, c);
    forall c | InIdle(s, c) ensures c in z.dropped && !IsHeld(s, c) {
      var i :| 0 <= i < |s.idle| && s.idle[i] == c;
    }
    forall c | c in z.dropped ensures c in s.dropped || InIdle(s, c) {
    }
  }

  /** Every step of every caller keeps the invariant. */
  lemma StepInv(s: State, a: Action, all: set<Conn>)
    requires Inv(s, all) && Enabled(s, a)
    ensures Inv(Next(s, a), all)
  {
    hide Exclusive, Conserved, NoLostWakeup, Turned;
    match a
    case Enter(t) =>
      TurnedExclusive(s, t, all);
      TurnedConserved(s, t, all);
      TurnedWakes(s, t);
    case Resume(t) =>
      TurnedExclusive(s, t, all);
      TurnedConserved(s, t, all);
      TurnedWakes(s, t);
    case Spurious(t) =>
      SteppedPlaces(s, Next(s, a), all);
      SpuriousWakes(s, t);
    case Return(t) =>
      ReturnPlaces(s, t, all);
      ReturnWakes(s, t);
    case NotifyOne(t, u) =>
      SteppedPlaces(s, Next(s, a), all);
      NotifyOneWakes(s, t, u);
    case NotifyNone(t) =>
      SteppedPlaces(s, Next(s, a), all);
      NotifyNoneWakes(s, t);
    case CloseAll =>
      ClosePlaces(s, all);
      CloseWakes(s);
    case NotifyAll =>
      SteppedPlaces(s, Next(s, a), all);
      NotifyAllWakes(s);
  }

  lemma CloseWakes(s: State)
    ensures NoLostWakeup(Next(s, CloseAll))
  {
  }

  // ==== whole runs ====

  ghost predicate IsRun(states: seq<State>, actions: seq<Action>, all: set<Conn>) {
    && |states| == |actions| + 1 && Init(states[0], all)
    && forall i :: 0 <= i < |actions| ==> Moves(states[i], actions[i], states[i + 1])
  }

  ghost predicate Moves(s: State, a: Action, z: State) {
    Enabled(s, a) && z == Next(s, a)
  }

  lemma {:induction false} RunInv(states: seq<State>, actions: seq<Action>, all: set<Conn>, i: nat)
    requires IsRun(states, actions, all) && i < |states|
    ensures Inv(states[i], all)
  {
    hide Inv, Init, Next, Enabled;
    if i == 0 {
      InitInv(states[0], all);
    } else {
      RunInv(states, actions, all, i - 1);
      assert Moves(states[i - 1], actions[i - 1], states[i]);
      StepInv(states[i - 1], actions[i - 1], all);
    }
  }

  /** Safety: at every moment each connection is idle, held by one caller or dropped, never twice,
      and none is dropped while the pool is open. */
  lemma NeverHandedOutTwice(states: seq<State>, actions: seq<Action>, all: set<Conn>, i: nat, t: nat, u: nat)
    requires IsRun(states, actions, all) && i < |states|
    requires t in states[i].threads && u in states[i].threads && t != u
    requires states[i].threads[t].Holding? && states[i].threads[u].Holding?
    ensures states[i].threads[t].conn != states[i].threads[u].conn
    ensures states[i].threads[t].conn in all && !InIdle(states[i], states[i].threads[t].conn)
  {
    hide IsRun, NoLostWakeup;
    RunInv(states, actions, all, i);
    assert IsHeld(states[i], states[i].threads[t].conn);
  }

  /** No lost wakeup: when nobody bears a notification, a thread sleeps only because nothing is
      idle; and a sleeper in a closed pool still has a `notify_all` to come. */
  lemma SleepersHaveReason(states: seq<State>, actions: seq<Action>, all: set<Conn>, i: nat)
    requires IsRun(states, actions, all) && i < |states| && SomeoneSleeps(states[i])
    ensures Bearers(states[i]) == {} && !states[i].closed ==> states[i].idle == []
    ensures states[i].closed ==> states[i].closers > 0
  {
    hide IsRun, Exclusive, Conserved, SomeoneSleeps, Bearers;
    RunInv(states, actions, all, i);
  }

  /** Once closed the pool stays closed and empty: no checkout succeeds, and a waiter that wakes
      is refused. */
  lemma {:induction false} ClosedForGood(states: seq<State>, actions: seq<Action>, all: set<Conn>, i: nat, j: nat)
    requires IsRun(states, actions, all) && i <= j < |states| && states[i].closed
    ensures states[j].closed && states[j].idle == []
    ensures forall t :: Is(states[j], t, Woken) ==> Next(states[j], Resume(t)).threads[t] == Refused
    ensures forall t :: Is(states[j], t, Outside) ==> Next(states[j], Enter(t)).threads[t] == Refused
    decreases j
  {
    hide Init, Exclusive, NoLostWakeup;
    RunInv(states, actions, all, j);
    if i < j {
      ClosedForGood(states, actions, all, i, j - 1);
      assert Moves(states[j - 1], actions[j - 1], states[j]);
    }
  }

  /** After the `notify_all` of `close_all` nobody sleeps, then or ever again. */
  lemma {:induction false} ReleasedForGood(states: seq<State>, actions: seq<Action>, all: set<Conn>, i: nat, j: nat)
    requires IsRun(states, actions, all) && i < j < |states| && states[i].closed && actions[i] == NotifyAll
    ensures !SomeoneSleeps(states[j])
    decreases j
  {
    hide Init, Exclusive, Conserved, NoLostWakeup;
    assert Moves(states[j - 1], actions[j - 1], states[j]);
    ClosedForGood(states, actions, all, i, j - 1);
    if i == j - 1 {
      NotifyAllWakes(states[i]);
    } else {
      ReleasedForGood(states, actions, all, i, j - 1);
      forall t ensures !Is(states[j], t, Sleeping) {
        assert !Is(states[j - 1], t, Sleeping);
      }
    }
  }

  /** Nobody is stuck: whoever is not asleep, refused or outside has a step of its own, a sleeper in a
      closed pool is about to be woken, and idle connections come with a thread that is awake. */
  lemma NeverStuck(s: State, all: set<Conn>, t: nat)
    requires Inv(s, all) && t in s.threads
    ensures s.threads[t].Woken? ==> Enabled(s, Resume(t))
    ensures s.threads[t].Holding? ==> Enabled(s, Return(t))
    ensures s.threads[t].Notifying? ==> Enabled(s, NotifyNone(t)) || exists u :: Enabled(s, NotifyOne(t, u))
    ensures s.threads[t].Sleeping? && s.closed ==> Enabled(s, NotifyAll)
    ensures s.threads[t].Sleeping? && s.idle != [] ==> exists u :: u in Bearers(s)
  {
    assert s.threads[t].Sleeping? ==> Is(s, t, Sleeping);
    if s.threads[t].Notifying? && SomeoneSleeps(s) {
      var u :| Is(s, u, Sleeping);
      assert Enabled(s, NotifyOne(t, u));
    }
    if s.threads[t].Sleeping? && s.idle != [] {
      assert |Bearers(s)| > 0;
      var u :| u in Bearers(s);
    }
  }
}
