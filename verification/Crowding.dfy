/** Runs in which the bounded stores are full, and what eviction then drops. */
module Crowding {
  import opened Bytes
  import opened Numerals
  import opened Eviction
  import L = Lockout
  import R = RateLimit

  lemma DecimalsDiffer(i: nat, j: nat)
    requires i != j
    ensures Decimal(i) != Decimal(j)
  {
    hide Numeral, DigitsValue;
    NumeralValue(i, 10);
    NumeralValue(j, 10);
  }

  // ==== a lockout store full of live locks ====

  function Pair(i: nat): L.Key {
    (Decimal(i), [])
  }

  /** What five failures at time 0 leave. */
  const LOCKED := L.Attempt(L.THRESHOLD, Some(L.DURATION), 0)

  function AllLocked(n: nat): L.Store {
    if n == 0 then map[] else AllLocked(n - 1)[Pair(n - 1) := LOCKED]
  }

  lemma {:induction false} PairIsNew(n: nat, i: nat)
    requires n <= i
    ensures Pair(i) !in AllLocked(n)
  {
    hide Numeral, LOCKED;
    if n > 0 {
      DecimalsDiffer(i, n - 1);
      PairIsNew(n - 1, i);
    }
  }

  lemma {:induction false} AllLockedSize(n: nat)
    ensures |AllLocked(n)| == n && L.LiveLocks(AllLocked(n), 0) == AllLocked(n).Keys
  {
    hide Numeral;
    if n > 0 {
      AllLockedSize(n - 1);
      PairIsNew(n - 1, n - 1);
      assert AllLocked(n).Keys == AllLocked(n - 1).Keys + {Pair(n - 1)};
      forall k | k in AllLocked(n)
        ensures k in L.LiveLocks(AllLocked(n), 0)
      {
        assert k != Pair(n - 1) ==> k in L.LiveLocks(AllLocked(n - 1), 0);
      }
    }
  }

  /** A run of sign-ins at time 0, each of which checks before it records. */
  ghost predicate IsFlood(stores: seq<L.Store>, es: seq<L.Event>) {
    && L.IsRun(stores, es)
    && forall n :: 0 <= n < |es| ==> es[n].time == 0 && (es[n].Failure? ==> L.Asked(stores, es, n, es[n].key))
  }

  lemma {:induction false} AskedStays(
    stores: seq<L.Store>, es: seq<L.Event>, after: L.Store, e: L.Event, n: nat, key: L.Key)
    requires |stores| == |es| + 1 && n <= |es|
    ensures L.Asked(stores + [after], es + [e], n, key) == L.Asked(stores, es, n, key)
  {
    hide L.StatusOf;
    if n > 0 {
      AskedStays(stores, es, after, e, n - 1, key);
    }
  }

  lemma Extended(stores: seq<L.Store>, es: seq<L.Event>, e: L.Event, after: L.Store)
    requires IsFlood(stores, es) && e.time == 0 && L.Step(stores[|es|], e, after)
    requires e.Failure? ==> L.Asked(stores, es, |es|, e.key)
    ensures IsFlood(stores + [after], es + [e])
  {
    hide L.Step, L.Asked;
    var more, events := stores + [after], es + [e];
    forall n | 0 <= n < |events|
      ensures L.Step(more[n], events[n], more[n + 1]) && events[n].time == 0
      ensures events[n].Failure? ==> L.Asked(more, events, n, events[n].key)
    {
      if events[n].Failure? {
        AskedStays(stores, es, after, e, n, events[n].key);
      }
    }
  }

  function Failing(s: L.Store, key: L.Key): L.Store {
    s[key := L.Failed(L.RecordOf(s, key), 0)]
  }

  lemma FailingSteps(s: L.Store, key: L.Key)
    requires L.IsOpen(s, key) && (key in s || |s| < L.MAX_ENTRIES)
    ensures L.Step(s, L.Check(key, 0), s) && L.Step(s, L.Failure(key, 0), Failing(s, key))
    ensures !L.StatusOf(s, key, 0).locked
  {
    assert L.MadeRoom(s, s, key);
  }

  /** One failed sign-in. */
  lemma Attempted(stores: seq<L.Store>, es: seq<L.Event>, key: L.Key) returns (more: seq<L.Store>, events: seq<L.Event>)
    requires IsFlood(stores, es) && L.IsOpen(stores[|es|], key)
    requires key in stores[|es|] || |stores[|es|]| < L.MAX_ENTRIES
    ensures IsFlood(more, events) && |events| == |es| + 2 && more[|events|] == Failing(stores[|es|], key)
  {
    hide L.Step, L.IsOpen, L.StatusOf, Failing;
    var s := stores[|es|];
    FailingSteps(s, key);
    Extended(stores, es, L.Check(key, 0), s);
    var checked, asked := stores + [s], es + [L.Check(key, 0)];
    assert L.Asked(checked, asked, |asked|, key);
    Extended(checked, asked, L.Failure(key, 0), Failing(s, key));
    more, events := checked + [Failing(s, key)], asked + [L.Failure(key, 0)];
  }

  /** What `c` failures at time 0 leave. */
  function After(s: L.Store, key: L.Key, c: nat): L.Store
    requires c <= L.THRESHOLD
  {
    if c == 0 then s else s[key := L.Attempt(c, if c == L.THRESHOLD then Some(L.DURATION) else None, 0)]
  }

  lemma {:induction false} Attempts(stores: seq<L.Store>, es: seq<L.Event>, key: L.Key, c: nat)
    returns (more: seq<L.Store>, events: seq<L.Event>)
    requires IsFlood(stores, es) && key !in stores[|es|] && |stores[|es|]| < L.MAX_ENTRIES && c <= L.THRESHOLD
    ensures IsFlood(more, events) && |events| == |es| + 2 * c && more[|events|] == After(stores[|es|], key, c)
  {
    hide IsFlood;
    if c == 0 {
      more, events := stores, es;
    } else {
      more, events := Attempts(stores, es, key, c - 1);
      more, events := Attempted(more, events, key);
    }
  }

  /** Five failed sign-ins of each of `n` pairs leave a lock on every one of them. */
  lemma {:induction false} Flooded(n: nat) returns (stores: seq<L.Store>, es: seq<L.Event>)
    requires n <= L.MAX_ENTRIES
    ensures IsFlood(stores, es) && |es| == 10 * n && stores[|es|] == AllLocked(n)
  {
    hide IsFlood, Numeral;
    if n == 0 {
      stores, es := [map[]], [];
      NothingYet();
    } else {
      stores, es := Flooded(n - 1);
      AllLockedSize(n - 1);
      PairIsNew(n - 1, n - 1);
      stores, es := Attempts(stores, es, Pair(n - 1), L.THRESHOLD);
    }
  }

  lemma NothingYet()
    ensures IsFlood([map[]], [])
  {
  }

  /** One failure more, of a new pair, after which some live lock no longer answers. */
  ghost predicate DropsALock(before: L.Store, e: L.Event, after: L.Store) {
    L.Step(before, e, after) && exists k :: k in L.LiveLocks(before, e.time) && !L.HoldsLock(after, k, e.time)
  }

  lemma CrowdedStep(n: nat) returns (after: L.Store)
    requires n == L.MAX_ENTRIES
    ensures L.Step(AllLocked(n), L.Failure(Pair(n), 0), after)
  {
    hide AllLocked, Numeral;
    var s := AllLocked(n);
    AllLockedSize(n);
    PairIsNew(n, n);
    var k :| k in s;
    var room := s - {k};
    assert room.Keys == s.Keys - {k};
    AllRankedEqually(n);
    assert L.MadeRoom(room, s, Pair(n));
    after := Failing(room, Pair(n));
  }

  lemma {:induction false} AllRankedEqually(n: nat)
    ensures forall k :: k in AllLocked(n) ==> AllLocked(n)[k] == LOCKED
  {
    hide Numeral;
    if n > 0 {
      AllRankedEqually(n - 1);
    }
  }

  /** Five failed sign-ins of each of 50,000 pairs and one of another pair, all within the window,
      drop a live lock, whichever entry the eviction picks. */
  lemma FloodDropsALock() returns (stores: seq<L.Store>, es: seq<L.Event>)
    ensures L.IsRun(stores, es) && |es| == 500_002
    ensures forall n :: 0 <= n < |es| ==> es[n].time == 0 && (es[n].Failure? ==> L.Asked(stores, es, n, es[n].key))
    ensures |L.LiveLocks(stores[|es| - 1], 0)| == 50_000
    ensures DropsALock(stores[|es| - 1], es[|es| - 1], stores[|es|])
  {
    hide AllLocked, Numeral, L.Step, L.StatusOf, L.HoldsLock;
    var n := L.MAX_ENTRIES;
    stores, es := Flooded(n);
    AllLockedSize(n);
    PairIsNew(n, n);
    var s, key := AllLocked(n), Pair(n);
    NewPairIsOpen(s, key);
    Extended(stores, es, L.Check(key, 0), s);
    stores, es := stores + [s], es + [L.Check(key, 0)];
    assert L.Asked(stores, es, |es|, key);
    var after := CrowdedStep(n);
    L.FullOfLocksDropsOne(s, key, 0, after);
    Extended(stores, es, L.Failure(key, 0), after);
    stores, es := stores + [after], es + [L.Failure(key, 0)];
  }

  lemma NewPairIsOpen(s: L.Store, key: L.Key)
    requires key !in s
    ensures L.Step(s, L.Check(key, 0), s) && !L.StatusOf(s, key, 0).locked
  {
  }

  // ==== a rate limit store whose oldest entry is a full window ====

  const GUEST: Text := Decimal(0)

  function Zeros(n: nat): (h: seq<int>)
    ensures |h| == n && forall i :: 0 <= i < n ==> h[i] == 0
  {
    if n == 0 then [] else Zeros(n - 1) + [0]
  }

  lemma {:induction false} ZerosAreRecent(n: nat)
    ensures R.Recent(Zeros(n), 0) == Zeros(n)
  {
    if n > 0 {
      ZerosAreRecent(n - 1);
      assert Zeros(n)[..n - 1] == Zeros(n - 1);
    }
  }

  /** The guest's window, and one request each of `n` other addresses. */
  function Crowd(n: nat): R.Store {
    if n == 0 then map[GUEST := Zeros(R.LIMIT)] else Crowd(n - 1)[Decimal(n) := [1]]
  }

  lemma {:induction false} NameIsNew(n: nat, i: nat)
    requires n < i
    ensures Decimal(i) !in Crowd(n)
  {
    hide Numeral, Zeros;
    DecimalsDiffer(i, n);
    if n > 0 {
      NameIsNew(n - 1, i);
    }
  }

  lemma {:induction false} CrowdSize(n: nat)
    ensures |Crowd(n)| == n + 1
  {
    hide Numeral, Zeros;
    if n == 0 {
      AddedSize(map[], GUEST, Zeros(R.LIMIT));
    } else {
      CrowdSize(n - 1);
      NameIsNew(n - 1, n);
      AddedSize(Crowd(n - 1), Decimal(n), [1]);
    }
  }

  lemma AddedSize(s: R.Store, ip: Text, times: seq<int>)
    requires ip !in s
    ensures |s[ip := times]| == |s| + 1
  {
    assert s[ip := times].Keys == s.Keys + {ip};
  }

  lemma {:induction false} CrowdTimes(n: nat)
    ensures GUEST in Crowd(n) && Crowd(n)[GUEST] == Zeros(R.LIMIT)
    ensures forall k :: k in Crowd(n) && k != GUEST ==> Crowd(n)[k] == [1]
  {
    hide Numeral, Zeros;
    if n > 0 {
      CrowdTimes(n - 1);
      DecimalsDiffer(0, n);
    }
  }

  /** A run up to time `now`, in which the guest was admitted at the times `h`. */
  ghost predicate IsCrowd(stores: seq<R.Store>, es: seq<R.Event>, h: seq<int>, now: int) {
    && R.IsRun(stores, es) && R.Admissions(stores, es, |es|, GUEST) == h
    && forall n :: 0 <= n < |es| ==> es[n].time <= now
  }

  lemma {:induction false} AdmissionsStay(
    stores: seq<R.Store>, es: seq<R.Event>, after: R.Store, e: R.Event, n: nat, ip: Text)
    requires |stores| == |es| + 1 && n <= |es|
    ensures R.Admissions(stores + [after], es + [e], n, ip) == R.Admissions(stores, es, n, ip)
  {
    hide R.AnswerAt;
    if n > 0 {
      AdmissionsStay(stores, es, after, e, n - 1, ip);
    }
  }

  lemma Joined(stores: seq<R.Store>, es: seq<R.Event>, h: seq<int>, now: int, e: R.Event, after: R.Store)
    requires IsCrowd(stores, es, h, now) && now <= e.time && e.Request? && R.Step(stores[|es|], e, after)
    ensures IsCrowd(stores + [after], es + [e],
                    if e.ip == GUEST && !R.AnswerAt(stores[|es|], e).limited then h + [e.time] else h, e.time)
  {
    hide R.Step, R.AnswerAt, Numeral;
    var more, events := stores + [after], es + [e];
    AdmissionsStay(stores, es, after, e, |es|, GUEST);
    forall n | 0 <= n < |events|
      ensures R.Step(more[n], events[n], more[n + 1])
    {
    }
  }

  /** A first request, while there is room or after `room` was made. */
  lemma FirstRequest(s: R.Store, room: R.Store, ip: Text, now: int)
    requires ip !in s && R.MadeRoom(room, s, ip)
    ensures R.Step(s, R.Request(ip, now), room[ip := [now]])
    ensures !R.AnswerAt(s, R.Request(ip, now)).limited
  {
    assert [] + [now] == [now];
  }

  lemma GuestAgain(n: nat)
    requires 0 < n < R.LIMIT
    ensures R.Step(map[GUEST := Zeros(n)], R.Request(GUEST, 0), map[GUEST := Zeros(n + 1)])
    ensures !R.AnswerAt(map[GUEST := Zeros(n)], R.Request(GUEST, 0)).limited
  {
    hide Numeral;
    var s: R.Store := map[GUEST := Zeros(n)];
    ZerosAreRecent(n);
    assert s[GUEST := Zeros(n + 1)] == map[GUEST := Zeros(n + 1)];
    assert R.MadeRoom(s, s, GUEST);
  }

  /** The guest is admitted `n` times at time 0. */
  lemma {:induction false} Entered(n: nat) returns (stores: seq<R.Store>, es: seq<R.Event>)
    requires 0 < n <= R.LIMIT
    ensures IsCrowd(stores, es, Zeros(n), 0) && |es| == n && stores[n] == map[GUEST := Zeros(n)]
  {
    hide Numeral, R.Step, R.AnswerAt;
    if n == 1 {
      EmptyRoom();
      Joined([map[]], [], [], 0, R.Request(GUEST, 0), map[GUEST := Zeros(1)]);
      stores, es := [map[]] + [map[GUEST := Zeros(1)]], [] + [R.Request(GUEST, 0)];
    } else {
      stores, es := Entered(n - 1);
      GuestAgain(n - 1);
      Joined(stores, es, Zeros(n - 1), 0, R.Request(GUEST, 0), map[GUEST := Zeros(n)]);
      stores, es := stores + [map[GUEST := Zeros(n)]], es + [R.Request(GUEST, 0)];
    }
  }

  lemma EmptyRoom()
    ensures IsCrowd([map[]], [], [], 0)
    ensures R.Step(map[], R.Request(GUEST, 0), map[GUEST := Zeros(1)])
    ensures !R.AnswerAt(map[], R.Request(GUEST, 0)).limited
  {
    hide Numeral;
    FirstRequest(map[], map[], GUEST, 0);
    assert Zeros(0) == [];
  }

  /** Other addresses come in until `n` of them are tracked. */
  lemma {:induction false} Crowded(n: nat) returns (stores: seq<R.Store>, es: seq<R.Event>)
    requires n < R.MAX_ENTRIES
    ensures IsCrowd(stores, es, Zeros(R.LIMIT), 1) && |es| == R.LIMIT + n && stores[|es|] == Crowd(n)
  {
    hide Numeral, R.Step, R.AnswerAt, Zeros;
    if n == 0 {
      stores, es := Entered(R.LIMIT);
    } else {
      stores, es := Crowded(n - 1);
      CrowdSize(n - 1);
      NameIsNew(n - 1, n);
      DecimalsDiffer(0, n);
      FirstRequest(Crowd(n - 1), Crowd(n - 1), Decimal(n), 1);
      Joined(stores, es, Zeros(R.LIMIT), 1, R.Request(Decimal(n), 1), Crowd(n));
      stores, es := stores + [Crowd(n)], es + [R.Request(Decimal(n), 1)];
    }
  }

  /** Eviction from the full store drops the guest, whose entry is the oldest. */
  lemma GuestIsDropped(room: R.Store)
    requires Keeps(room, Crowd(R.MAX_ENTRIES - 1), R.MAX_ENTRIES - 1, R.Oldest)
    ensures GUEST !in room
  {
    hide Crowd, Numeral, Zeros;
    var s := Crowd(R.MAX_ENTRIES - 1);
    CrowdSize(R.MAX_ENTRIES - 1);
    CrowdTimes(R.MAX_ENTRIES - 1);
    if s.Keys <= room.Keys {
      SubsetCount(s.Keys, room.Keys);
    }
    var k :| k in s && k !in room;
    assert R.Oldest(s[GUEST]) == 0 && (k != GUEST ==> R.Oldest(s[k]) == 1);
  }

  lemma GuestCanLeave(s: R.Store)
    requires s == Crowd(R.MAX_ENTRIES - 1)
    ensures Keeps(s - {GUEST}, s, R.MAX_ENTRIES - 1, R.Oldest)
  {
    hide Crowd, Numeral, Zeros;
    CrowdSize(R.MAX_ENTRIES - 1);
    CrowdTimes(R.MAX_ENTRIES - 1);
    assert (s - {GUEST}).Keys == s.Keys - {GUEST};
  }

  lemma AnyoneCanLeave(s: R.Store, k: Text)
    requires |s| == R.MAX_ENTRIES && k in s && forall j :: j in s ==> s[j] == [1]
    ensures Keeps(s - {k}, s, R.MAX_ENTRIES - 1, R.Oldest)
  {
    assert (s - {k}).Keys == s.Keys - {k};
  }

  lemma WindowIsFull(h: seq<int>, n: nat)
    requires |h| == n && forall i :: 0 <= i < n ==> 0 <= h[i] < R.WINDOW
    ensures |R.InWindow(h, 0)| == n
  {
    assert R.InWindow(h, 0) == R.Run(0, n);
  }

  /** Twenty requests of one address and one of each of 50,000 others: the last of these makes
      every eviction drop the first address, which is then admitted again in the same window. */
  lemma CrowdPassesLimit() returns (stores: seq<R.Store>, es: seq<R.Event>)
    ensures R.IsRun(stores, es) && |es| == 50_021
    ensures var full := stores[|es| - 2];
      |full| == 50_000 && forall room | Keeps(room, full, 49_999, R.Oldest) :: GUEST !in room
    ensures |R.InWindow(R.Admissions(stores, es, |es|, GUEST), 0)| == 21
  {
    hide Crowd, Numeral, R.Step, R.AnswerAt, Zeros, Keeps, R.Admissions, R.InWindow;
    var n, ip := R.MAX_ENTRIES, Decimal(R.MAX_ENTRIES);
    var s := Crowd(n - 1);
    stores, es := Crowded(n - 1);
    CrowdSize(n - 1);
    NewcomerSteps(s, n);
    Joined(stores, es, Zeros(R.LIMIT), 1, R.Request(ip, 1), (s - {GUEST})[ip := [1]]);
    stores, es := stores + [(s - {GUEST})[ip := [1]]], es + [R.Request(ip, 1)];
    var after := GuestSteps((s - {GUEST})[ip := [1]]);
    Joined(stores, es, Zeros(R.LIMIT), 1, R.Request(GUEST, 1), after);
    stores, es := stores + [after], es + [R.Request(GUEST, 1)];
    forall room | Keeps(room, s, n - 1, R.Oldest)
      ensures GUEST !in room
    {
      GuestIsDropped(room);
    }
    WindowIsFull(Zeros(R.LIMIT) + [1], R.LIMIT + 1);
  }

  lemma NewcomerSteps(s: R.Store, n: nat)
    requires n == R.MAX_ENTRIES && s == Crowd(n - 1)
    ensures Decimal(n) != GUEST
    ensures var after := (s - {GUEST})[Decimal(n) := [1]];
      && R.Step(s, R.Request(Decimal(n), 1), after)
      && |after| == n && GUEST !in after && forall k :: k in after ==> after[k] == [1]
  {
    hide Crowd, Numeral, Zeros, Keeps;
    CrowdSize(n - 1);
    CrowdTimes(n - 1);
    NameIsNew(n - 1, n);
    DecimalsDiffer(0, n);
    GuestCanLeave(s);
    FirstRequest(s, s - {GUEST}, Decimal(n), 1);
    assert (s - {GUEST})[Decimal(n) := [1]].Keys == s.Keys - {GUEST} + {Decimal(n)};
  }

  lemma GuestSteps(s: R.Store) returns (after: R.Store)
    requires |s| == R.MAX_ENTRIES && GUEST !in s && forall k :: k in s ==> s[k] == [1]
    ensures R.Step(s, R.Request(GUEST, 1), after) && !R.AnswerAt(s, R.Request(GUEST, 1)).limited
  {
    hide Numeral, Keeps;
    var k :| k in s;
    AnyoneCanLeave(s, k);
    FirstRequest(s, s - {k}, GUEST, 1);
    after := (s - {k})[GUEST := [1]];
  }
}
