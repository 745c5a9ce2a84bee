/** `LockoutStore` of backend/src/stores.rs, and what its answers mean. */
module Lockout {
  import opened Bytes
  import opened Eviction

  const THRESHOLD := 5
  const DURATION := 15 * 60 * 1000
  const WINDOW := 15 * 60 * 1000
  const MAX_ENTRIES: nat := 50_000

  datatype Attempt = Attempt(attempts: nat, lockedUntil: Option<int>, last: int)

  /** Email and client address. */
  type Key = (Text, Text)

  type Store = map<Key, Attempt>

  datatype Status = Status(locked: bool, remaining: int)

  const OPEN := Status(false, 0)

  /** Seconds left, rounded up. */
  function LockedFor(until: int, now: int): Status {
    Status(true, (until - now + 999) / 1000)
  }

  function StatusOf(store: Store, key: Key, now: int): Status {
    if key in store && store[key].lockedUntil.Some? && now < store[key].lockedUntil.value then
      LockedFor(store[key].lockedUntil.value, now)
    else OPEN
  }

  /** A check forgets an expired lock. */
  function Checked(store: Store, key: Key, now: int): Store {
    if key in store && store[key].lockedUntil.Some? && now >= store[key].lockedUntil.value then store - {key} else store
  }

  /** The record of a pair after a failure at `now`. */
  function Failed(record: Option<Attempt>, now: int): Attempt {
    var counted :=
      if record.Some? && now - record.value.last <= WINDOW then record.value else Attempt(0, None, now);
    var attempts := counted.attempts + 1;
    Attempt(attempts, if attempts >= THRESHOLD then Some(now + DURATION) else counted.lockedUntil, now)
  }

  function RecordOf(store: Store, key: Key): Option<Attempt> {
    if key in store then Some(store[key]) else None
  }

  /** What eviction ranks by: a lock by its expiry, anything else by its last failure. */
  function Rank(a: Attempt): int {
    match a.lockedUntil case Some(until) => until case None => a.last
  }

  ghost predicate Evicted(after: Store, before: Store, max: nat) {
    Keeps(after, before, max, Rank)
  }

  /** `make_room`, which a failure of a new pair runs first. */
  ghost predicate MadeRoom(after: Store, before: Store, key: Key) {
    if key in before || |before| < MAX_ENTRIES then after == before else Evicted(after, before, MAX_ENTRIES - 1)
  }

  predicate IsFresh(a: Attempt, now: int) {
    match a.lockedUntil case Some(until) => now < until case None => now - a.last <= WINDOW
  }

  function Retained(store: Store, now: int): Store {
    map k | k in store && IsFresh(store[k], now) :: store[k]
  }

  class LockoutStore {
    var store: Store

    constructor ()
      ensures store == map[]
    {
      store := map[];
    }

    /** `is_locked` */
    method IsLocked(key: Key, now: int) returns (status: Status)
      modifies this
      ensures status == StatusOf(old(store), key, now) && store == Checked(old(store), key, now)
    {
      if key !in store {
        return OPEN;
      }
      match store[key].lockedUntil {
        case Some(until) =>
          if now < until {
            return LockedFor(until, now);
          }
          store := store - {key};
          return OPEN;
        case None =>
          return OPEN;
      }
    }

    /** `evict` */
    method Evict(max: nat)
      modifies this
      ensures Evicted(store, old(store), max)
    {
      hide Keeps;
      store := EvictOldest(store, max, Rank);
    }

    /** `record_failure` */
    method RecordFailure(key: Key, now: int) returns (tripped: bool)
      modifies this
      ensures exists room ::
        MadeRoom(room, old(store), key) && store == room[key := Failed(RecordOf(old(store), key), now)]
      ensures tripped <==> Failed(RecordOf(old(store), key), now).attempts >= THRESHOLD
    {
      ghost var before := store;
      if key !in store {
        if |store| >= MAX_ENTRIES {
          Evict(MAX_ENTRIES - 1);
        }
      }
      ghost var room := store;
      var record := if key in store then store[key] else Attempt(0, None, now);
      if now - record.last > WINDOW {
        record := record.(attempts := 0, lockedUntil := None);
      }
      record := record.(attempts := record.attempts + 1, last := now);
      tripped := record.attempts >= THRESHOLD;
      if tripped {
        record := record.(lockedUntil := Some(now + DURATION));
      }
      RoomKeepsRecord(room, before, key);
      store := store[key := record];
      assert MadeRoom(room, before, key);
    }

    /** `clear` */
    method Clear(key: Key)
      modifies this
      ensures store == old(store) - {key}
    {
      store := store - {key};
    }

    /** `cleanup` */
    method Cleanup(now: int) returns (cleaned: nat)
      modifies this
      ensures Evicted(store, Retained(old(store), now), MAX_ENTRIES)
      ensures cleaned == |old(store)| - |Retained(old(store), now)|
    {
      var before := |store|;
      RetainedSize(store, now);
      store := map k | k in store && IsFresh(store[k], now) :: store[k];
      cleaned := before - |store|;
      Evict(MAX_ENTRIES);
    }
  }

  lemma RoomKeepsRecord(room: Store, before: Store, key: Key)
    requires MadeRoom(room, before, key)
    ensures RecordOf(room, key) == RecordOf(before, key)
  {
  }

  lemma RetainedSize(store: Store, now: int)
    ensures |Retained(store, now)| <= |store|
  {
    SubsetCount(Retained(store, now).Keys, store.Keys);
  }

  // ==== runs ====

  datatype Event =
    | Check(key: Key, time: int)
    | Failure(key: Key, time: int)
    | Success(key: Key, time: int)
    | Tick(time: int)

  ghost predicate Step(before: Store, e: Event, after: Store) {
    match e
    case Check(key, now) => after == Checked(before, key, now)
    case Failure(key, now) =>
      exists room :: MadeRoom(room, before, key) && after == room[key := Failed(RecordOf(before, key), now)]
    case Success(key, _) => after == before - {key}
    case Tick(now) => Evicted(after, Retained(before, now), MAX_ENTRIES)
  }

  /** A run from the empty store, with a clock that never goes back. */
  ghost predicate IsRun(stores: seq<Store>, es: seq<Event>) {
    && |stores| == |es| + 1 && stores[0] == map[]
    && (forall n :: 0 <= n < |es| ==> Step(stores[n], es[n], stores[n + 1]))
    && (forall n :: 0 < n < |es| ==> es[n - 1].time <= es[n].time)
  }

  // ==== capacity ====

  lemma FailureSize(before: Store, key: Key, now: int, after: Store)
    requires |before| <= MAX_ENTRIES && Step(before, Failure(key, now), after)
    ensures |after| <= MAX_ENTRIES
  {
    hide Failed;
    var room :| MadeRoom(room, before, key) && after == room[key := Failed(RecordOf(before, key), now)];
    assert after.Keys == room.Keys + {key};
    if key in before {
      assert room.Keys + {key} == room.Keys;
    }
  }

  lemma StepSize(before: Store, e: Event, after: Store)
    requires |before| <= MAX_ENTRIES && Step(before, e, after)
    ensures |after| <= MAX_ENTRIES
  {
    hide MadeRoom, Failed;
    match e
    case Check(key, now) =>
      if after != before {
        assert after.Keys == before.Keys - {key};
      }
    case Failure(key, now) =>
      FailureSize(before, key, now, after);
    case Success(key, _) =>
      assert after.Keys == before.Keys - {key};
    case Tick(now) =>
  }

  /** The map never exceeds its capacity, whatever the requests. */
  lemma {:induction false} NeverOverCapacity(stores: seq<Store>, es: seq<Event>, n: nat)
    requires IsRun(stores, es) && n <= |es|
    ensures |stores[n]| <= 50_000
  {
    hide Step;
    if n > 0 {
      NeverOverCapacity(stores, es, n - 1);
      StepSize(stores[n - 1], es[n - 1], stores[n]);
    }
  }

  // ==== the plain history of one pair ====

  /** Failures of `key` since its last success, among the first `n` events. */
  function History(es: seq<Event>, n: nat, key: Key): seq<int>
    requires n <= |es|
  {
    if n == 0 then []
    else match es[n - 1]
      case Failure(k, now) => if k == key then History(es, n - 1, key) + [now] else History(es, n - 1, key)
      case Success(k, _) => if k == key then [] else History(es, n - 1, key)
      case _ => History(es, n - 1, key)
  }

  /** Length of the streak that ends a history: a failure within the window of the one before it
      continues the streak, unless that one completed a lock. */
  function Streak(h: seq<int>): (c: nat)
    ensures c <= THRESHOLD && (c == 0 <==> h == [])
  {
    if h == [] then 0
    else
      var c := Streak(h[..|h| - 1]);
      if |h| > 1 && h[|h| - 1] - h[|h| - 2] <= WINDOW && c < THRESHOLD then c + 1 else 1
  }

  /** What the history alone says about a sign-in at `now`. */
  function HistoryStatus(h: seq<int>, now: int): Status {
    if h != [] && Streak(h) == THRESHOLD && now < h[|h| - 1] + DURATION then LockedFor(h[|h| - 1] + DURATION, now)
    else OPEN
  }

  /** The last event on `key` before event `n` is a check that found it open, as sign-in makes it. */
  predicate Asked(stores: seq<Store>, es: seq<Event>, n: nat, key: Key)
    requires n <= |es| < |stores|
  {
    n > 0 && match es[n - 1]
      case Check(k, now) =>
        if k == key then !StatusOf(stores[n - 1], key, now).locked else Asked(stores, es, n - 1, key)
      case Failure(k, _) => k != key && Asked(stores, es, n - 1, key)
      case Success(k, _) => k != key && Asked(stores, es, n - 1, key)
      case Tick(_) => Asked(stores, es, n - 1, key)
  }

  /** A missing record says no more than that its history no longer matters. */
  predicate Forgotten(h: seq<int>, now: int) {
    h == [] || (if Streak(h) == THRESHOLD then now >= h[|h| - 1] + DURATION else now - h[|h| - 1] > WINDOW)
  }

  /** The record that a history calls for. */
  function Wanted(h: seq<int>): Attempt
    requires h != []
  {
    var last := h[|h| - 1];
    Attempt(Streak(h), if Streak(h) == THRESHOLD then Some(last + DURATION) else None, last)
  }

  predicate Tracks(store: Store, key: Key, h: seq<int>, now: int) {
    if key in store then h != [] && store[key] == Wanted(h) && h[|h| - 1] <= now else Forgotten(h, now)
  }

  /** A record that was just asked about holds no lock. */
  predicate IsOpen(store: Store, key: Key) {
    key in store ==> store[key].lockedUntil.None?
  }

  lemma TracksLater(store: Store, key: Key, h: seq<int>, now: int, later: int)
    requires Tracks(store, key, h, now) && now <= later
    ensures Tracks(store, key, h, later)
  {
  }

  /** Every answer is the one that the history gives. */
  lemma AnswersMatch(store: Store, key: Key, h: seq<int>, now: int)
    requires Tracks(store, key, h, now)
    ensures StatusOf(store, key, now) == HistoryStatus(h, now)
  {
    hide Streak;
  }

  lemma FailureTracks(store: Store, key: Key, h: seq<int>, now: int)
    requires Tracks(store, key, h, now) && IsOpen(store, key)
    ensures Failed(RecordOf(store, key), now) == Wanted(h + [now])
  {
    assert (h + [now])[..|h|] == h;
  }

  /** Before the event: it needs no room, or it is of `key` itself, or the record of `key` does not
      matter any more, or some record ranks below it. */
  ghost predicate IsSafe(before: Store, e: Event, key: Key) {
    || !e.Failure? || e.key in before || |before| < MAX_ENTRIES || e.key == key
    || key !in before || !IsFresh(before[key], e.time)
    || exists k :: k in before && Rank(before[k]) < Rank(before[key])
  }

  /** A record that still matters goes only by a success of its own pair. */
  predicate Spared(before: Store, e: Event, after: Store, key: Key) {
    key in before && IsFresh(before[key], e.time) && !(e.Success? && e.key == key) ==> key in after
  }

  lemma TickSpares(before: Store, now: int, after: Store, key: Key)
    requires |before| <= MAX_ENTRIES && Step(before, Tick(now), after)
    ensures Spared(before, Tick(now), after, key)
  {
    RetainedSize(before, now);
    var kept := Retained(before, now);
    assert after.Keys <= kept.Keys && |after.Keys| == |kept.Keys|;
    SubsetSize(after.Keys, kept.Keys);
  }

  /** With the store full, a record that is not the lowest survives one eviction. */
  lemma LowerIsDropped(before: Store, room: Store, key: Key, k: Key)
    requires |before| == MAX_ENTRIES && Keeps(room, before, MAX_ENTRIES - 1, Rank)
    requires key in before && k in before && Rank(before[k]) < Rank(before[key])
    ensures key in room
  {
    if key !in room {
      assert k !in room;
      assert room.Keys <= before.Keys - {key, k};
      assert |before.Keys - {key, k}| == |before.Keys| - |{key, k}|;
      SubsetCount(room.Keys, before.Keys - {key, k});
    }
  }

  lemma SafeIsSpared(before: Store, e: Event, after: Store, key: Key)
    requires |before| <= MAX_ENTRIES && IsSafe(before, e, key) && Step(before, e, after)
    ensures Spared(before, e, after, key)
  {
    hide Keeps, Rank, Failed;
    match e
    case Check(_, _) =>
    case Success(_, _) =>
    case Tick(now) =>
      TickSpares(before, now, after, key);
    case Failure(other, now) =>
      var room :| MadeRoom(room, before, other) && after == room[other := Failed(RecordOf(before, other), now)];
      if key in before && IsFresh(before[key], now) && room != before && other != key {
        var k :| k in before && Rank(before[k]) < Rank(before[key]);
        LowerIsDropped(before, room, key, k);
      }
  }

  lemma UnsafeIsDropped(before: Store, e: Event, key: Key) returns (after: Store)
    requires |before| <= MAX_ENTRIES && !IsSafe(before, e, key)
    ensures Step(before, e, after) && !Spared(before, e, after, key)
  {
    hide Rank, Failed, IsFresh, Keeps;
    LowestCanGo(before, key);
    var room := before - {key};
    assert MadeRoom(room, before, e.key);
    after := room[e.key := Failed(RecordOf(before, e.key), e.time)];
  }

  lemma LowestCanGo(before: Store, key: Key)
    requires |before| == MAX_ENTRIES && key in before
    requires forall k :: k in before ==> Rank(before[key]) <= Rank(before[k])
    ensures Keeps(before - {key}, before, MAX_ENTRIES - 1, Rank)
  {
    hide Rank;
    assert (before - {key}).Keys == before.Keys - {key};
  }

  /** Whatever eviction picks, a record that matters is spared exactly when the event is safe. */
  lemma SparedExactly(before: Store, e: Event, key: Key)
    requires |before| <= MAX_ENTRIES
    ensures IsSafe(before, e, key) <==> forall after | Step(before, e, after) :: Spared(before, e, after, key)
  {
    hide IsSafe, Step, Spared;
    if IsSafe(before, e, key) {
      forall after | Step(before, e, after)
        ensures Spared(before, e, after, key)
      {
        SafeIsSpared(before, e, after, key);
      }
    } else {
      var after := UnsafeIsDropped(before, e, key);
    }
  }

  lemma TickKeeps(before: Store, now: int, after: Store, key: Key, h: seq<int>)
    requires Step(before, Tick(now), after) && |before| <= MAX_ENTRIES && Tracks(before, key, h, now)
    ensures Tracks(after, key, h, now) && (IsOpen(before, key) ==> IsOpen(after, key))
  {
    hide Streak;
    RetainedSize(before, now);
    var kept := Retained(before, now);
    assert forall k :: k in after ==> k in kept && after[k] == kept[k];
    assert |kept.Keys| == |after.Keys|;
    assert after.Keys <= kept.Keys;
    SubsetSize(after.Keys, kept.Keys);
  }

  lemma StepTracks(before: Store, e: Event, after: Store, key: Key, h: seq<int>)
    requires Step(before, e, after) && |before| <= MAX_ENTRIES && Spared(before, e, after, key)
    requires Tracks(before, key, h, e.time)
    requires e.Failure? && e.key == key ==> IsOpen(before, key)
    ensures var next :=
        if e.Failure? && e.key == key then h + [e.time] else if e.Success? && e.key == key then [] else h;
      Tracks(after, key, next, e.time)
    ensures IsOpen(before, key) && !(e.Failure? && e.key == key) ==> IsOpen(after, key)
    ensures e.Check? && e.key == key && !StatusOf(before, key, e.time).locked ==> IsOpen(after, key)
  {
    hide Streak, Wanted, Failed;
    match e
    case Check(k, now) => CheckTracks(before, k, now, key, h);
    case Failure(k, now) =>
      if k == key {
        FailureTracks(before, key, h, now);
        LastWanted(h, now);
      } else {
        OtherTracks(before, k, now, after, key, h);
      }
    case Success(k, _) =>
    case Tick(now) => TickKeeps(before, now, after, key, h);
  }

  lemma OtherTracks(before: Store, k: Key, now: int, after: Store, key: Key, h: seq<int>)
    requires Step(before, Failure(k, now), after) && k != key && Spared(before, Failure(k, now), after, key)
    requires Tracks(before, key, h, now)
    ensures Tracks(after, key, h, now) && (IsOpen(before, key) ==> IsOpen(after, key))
  {
    hide Streak, Failed;
    var room :| MadeRoom(room, before, k) && after == room[k := Failed(RecordOf(before, k), now)];
    assert key in after ==> key in before && after[key] == before[key];
  }

  lemma CheckTracks(before: Store, k: Key, now: int, key: Key, h: seq<int>)
    requires Tracks(before, key, h, now)
    ensures Tracks(Checked(before, k, now), key, h, now)
  {
    hide Streak;
  }

  lemma LastWanted(h: seq<int>, now: int)
    ensures h + [now] != [] && (h + [now])[|h + [now]| - 1] == now
  {
  }

  lemma {:induction false} RunTracks(stores: seq<Store>, es: seq<Event>, key: Key, n: nat)
    requires IsRun(stores, es) && n <= |es|
    requires forall i :: 0 <= i < n ==> IsSafe(stores[i], es[i], key)
    requires forall i :: 0 <= i < n && es[i].Failure? && es[i].key == key ==> Asked(stores, es, i, key)
    ensures n > 0 ==> Tracks(stores[n], key, History(es, n, key), es[n - 1].time)
    ensures n == 0 ==> key !in stores[0] && History(es, 0, key) == []
    ensures Asked(stores, es, n, key) ==> IsOpen(stores[n], key)
  {
    hide Step, Tracks, IsSafe, Spared, IsOpen, StatusOf;
    if n > 0 {
      var before, e, h := stores[n - 1], es[n - 1], History(es, n - 1, key);
      RunTracks(stores, es, key, n - 1);
      NeverOverCapacity(stores, es, n - 1);
      if n > 1 {
        TracksLater(before, key, h, es[n - 2].time, e.time);
      } else {
        NothingTracks(before, key, e.time);
      }
      SafeIsSpared(before, e, stores[n], key);
      StepTracks(before, e, stores[n], key, h);
    }
  }

  lemma NothingTracks(store: Store, key: Key, now: int)
    requires key !in store
    ensures Tracks(store, key, [], now)
  {
  }

  /** Lockout refines a plain history. While sign-ins of the pair check before they record, with
      anything on other pairs and any clean-up in between, and every event so far is safe for the
      pair, each check answers, and each failure reports a lock, as the pair's own history says. */
  lemma LockoutRefinesHistory(stores: seq<Store>, es: seq<Event>, key: Key, n: nat)
    requires IsRun(stores, es) && n < |es|
    requires forall i :: 0 <= i < n ==> IsSafe(stores[i], es[i], key)
    requires forall i :: 0 <= i <= n && es[i].Failure? && es[i].key == key ==> Asked(stores, es, i, key)
    ensures es[n].Check? && es[n].key == key ==>
      StatusOf(stores[n], key, es[n].time) == HistoryStatus(History(es, n, key), es[n].time)
    ensures es[n].Failure? && es[n].key == key ==>
      (Failed(RecordOf(stores[n], key), es[n].time).attempts >= THRESHOLD <==>
      Streak(History(es, n + 1, key)) == THRESHOLD)
  {
    hide Step, Tracks, IsSafe, IsOpen, StatusOf, HistoryStatus, Failed, Streak;
    var h, now := History(es, n, key), es[n].time;
    RunTracks(stores, es, key, n);
    if n > 0 {
      TracksLater(stores[n], key, h, es[n - 1].time, now);
    } else {
      NothingTracks(stores[n], key, now);
    }
    AnswersMatch(stores[n], key, h, now);
    if es[n].Failure? && es[n].key == key {
      FailureTracks(stores[n], key, h, now);
    }
  }

  // ==== what the numbers mean ====

  /** The seconds told are exact: when they are over the pair is open, one second earlier it is not. */
  lemma RemainingIsExact(store: Store, key: Key, now: int)
    requires StatusOf(store, key, now).locked
    ensures var s := StatusOf(store, key, now).remaining;
      s > 0 && !StatusOf(store, key, now + 1000 * s).locked && StatusOf(store, key, now + 1000 * (s - 1)).locked
  {
  }

  /** Every failure comes within 15 minutes of the one before it. */
  predicate IsClose(h: seq<int>) {
    forall i :: 0 < i < |h| ==> h[i] - h[i - 1] <= 900_000
  }

  lemma {:induction false} CloseStreak(h: seq<int>)
    requires IsClose(h) && |h| <= 5
    ensures Streak(h) == |h|
  {
    if h != [] {
      CloseStreak(h[..|h| - 1]);
    }
  }

  lemma {:induction false} StreakIsShort(h: seq<int>)
    ensures Streak(h) <= |h|
  {
    if h != [] {
      StreakIsShort(h[..|h| - 1]);
    }
  }

  /** The fifth of five close failures locks for 15 minutes, and the sixth failure is a first one. */
  lemma FifthFailureLocks(h: seq<int>, now: int)
    requires |h| == 5 && IsClose(h)
    ensures HistoryStatus(h, now).locked <==> now < h[4] + 900_000
    ensures HistoryStatus(h, h[4]) == Status(true, 900) && Streak(h + [now]) == 1
  {
    CloseStreak(h);
    assert (h + [now])[..5] == h;
  }

  /** Fewer failures lock nothing, and neither does a streak broken by more than 15 minutes. */
  lemma FewerLeaveOpen(h: seq<int>, now: int, later: int)
    ensures |h| < 5 ==> HistoryStatus(h, now) == Status(false, 0)
    ensures h != [] && now - h[|h| - 1] > 900_000 ==> HistoryStatus(h + [now], later) == Status(false, 0)
  {
    StreakIsShort(h);
    if h != [] {
      assert (h + [now])[..|h|] == h;
    }
  }

  // ==== live locks survive flooding ====

  predicate HoldsLock(store: Store, key: Key, until: int) {
    key in store && store[key].lockedUntil.Some? && store[key].lockedUntil.value >= until
  }

  function LiveLocks(store: Store, now: int): set<Key> {
    set k | k in store && store[k].lockedUntil.Some? && store[k].lockedUntil.value > now
  }

  /** Locks last for the duration after the last failure, and no failure lies in the future. */
  predicate IsSound(store: Store, now: int) {
    forall k :: k in store ==>
      && store[k].last <= now
      && (store[k].lockedUntil.Some? ==>
           store[k].lockedUntil.value == store[k].last + DURATION && store[k].attempts >= THRESHOLD)
  }

  /** Eviction drops a live lock only when every place it leaves is taken by another live lock. */
  lemma EvictionSpares(before: Store, after: Store, max: nat, key: Key, now: int)
    requires Evicted(after, before, max) && IsSound(before, now)
    requires key in LiveLocks(before, now) && |LiveLocks(before, now)| <= max
    ensures key in after && after[key] == before[key]
  {
    if key !in after {
      var live := LiveLocks(before, now);
      forall k | k in after
        ensures k in live
      {
        assert Rank(before[key]) <= Rank(before[k]);
      }
      assert after.Keys <= live - {key};
      SubsetCount(after.Keys, live - {key});
      if |before| <= max {
        assert after.Keys <= before.Keys - {key};
        SubsetCount(after.Keys, before.Keys - {key});
      }
    }
  }

  lemma StepSound(before: Store, e: Event, after: Store, now: int)
    requires IsSound(before, now) && now <= e.time && Step(before, e, after)
    ensures IsSound(after, e.time)
  {
    match e
    case Check(key, t) =>
    case Failure(key, t) =>
      var room :| MadeRoom(room, before, key) && after == room[key := Failed(RecordOf(before, key), t)];
      assert forall k :: k in room ==> k in before && room[k] == before[k];
    case Success(key, _) =>
    case Tick(t) =>
      assert forall k :: k in after ==> k in before && after[k] == before[k];
  }

  lemma {:induction false} RunSound(stores: seq<Store>, es: seq<Event>, n: nat)
    requires IsRun(stores, es) && 0 < n <= |es|
    ensures IsSound(stores[n], es[n - 1].time)
  {
    hide Step;
    if n == 1 {
      assert IsSound(stores[0], es[0].time);
      StepSound(stores[0], es[0], stores[1], es[0].time);
    } else {
      RunSound(stores, es, n - 1);
      StepSound(stores[n - 1], es[n - 1], stores[n], es[n - 2].time);
    }
  }

  lemma SoundLater(store: Store, now: int, later: int)
    requires IsSound(store, now) && now <= later
    ensures IsSound(store, later)
  {
  }

  /** The event needs no room, or the live locks leave some. */
  predicate LeavesLocks(before: Store, e: Event) {
    e.Failure? ==> e.key in before || |LiveLocks(before, e.time)| <= 49_999
  }

  lemma LiveLocksFit(before: Store, now: int)
    ensures |LiveLocks(before, now)| <= |before|
  {
    SubsetCount(LiveLocks(before, now), before.Keys);
  }

  lemma StepKeepsLock(before: Store, e: Event, after: Store, key: Key, until: int)
    requires Step(before, e, after) && IsSound(before, e.time) && |before| <= MAX_ENTRIES && LeavesLocks(before, e)
    requires HoldsLock(before, key, until) && e.time < until && !(e.Success? && e.key == key)
    ensures HoldsLock(after, key, until)
  {
    hide Evicted;
    assert key in LiveLocks(before, e.time);
    match e
    case Check(k, t) =>
    case Failure(k, t) =>
      var room :| MadeRoom(room, before, k) && after == room[k := Failed(RecordOf(before, k), t)];
      if k != key && k !in before && |before| >= MAX_ENTRIES {
        EvictionSpares(before, room, MAX_ENTRIES - 1, key, t);
      }
    case Success(k, _) =>
    case Tick(t) =>
      var kept := Retained(before, t);
      assert LiveLocks(kept, t) == LiveLocks(before, t);
      LiveLocksFit(before, t);
      EvictionSpares(kept, after, MAX_ENTRIES, key, t);
  }

  /** A lock set by event `m` is still reported at every time before it expires, however the map is
      flooded, unless the pair signs in or a new pair fails while more than 49,999 locks are live. */
  lemma {:induction false} LocksSurviveFlooding(stores: seq<Store>, es: seq<Event>, key: Key, m: nat, n: nat)
    requires IsRun(stores, es) && m < n <= |es| && es[m].Failure? && es[m].key == key
    requires Failed(RecordOf(stores[m], key), es[m].time).attempts >= THRESHOLD
    requires forall i :: m < i < n ==> es[i].time < es[m].time + DURATION && !(es[i].Success? && es[i].key == key)
    requires forall i :: m < i < n ==> LeavesLocks(stores[i], es[i])
    ensures HoldsLock(stores[n], key, es[m].time + DURATION)
    ensures forall now: int | now < es[m].time + DURATION :: StatusOf(stores[n], key, now).locked
    decreases n
  {
    hide Step, Failed, LeavesLocks, IsSound;
    if n == m + 1 {
      LockIsSet(stores[m], key, es[m].time, stores[n]);
    } else {
      LocksSurviveFlooding(stores, es, key, m, n - 1);
      RunSound(stores, es, n - 1);
      SoundLater(stores[n - 1], es[n - 2].time, es[n - 1].time);
      NeverOverCapacity(stores, es, n - 1);
      StepKeepsLock(stores[n - 1], es[n - 1], stores[n], key, es[m].time + DURATION);
    }
  }

  lemma LockIsSet(before: Store, key: Key, now: int, after: Store)
    requires Step(before, Failure(key, now), after) && Failed(RecordOf(before, key), now).attempts >= THRESHOLD
    ensures HoldsLock(after, key, now + DURATION)
  {
  }

  /** The bound is exact: with the map full of live locks, a failure of a new pair drops one. */
  lemma FullOfLocksDropsOne(before: Store, key: Key, now: int, after: Store)
    requires |before| == MAX_ENTRIES && |LiveLocks(before, now)| == MAX_ENTRIES && key !in before
    requires Step(before, Failure(key, now), after)
    ensures exists k :: k in LiveLocks(before, now) && !HoldsLock(after, k, now)
  {
    hide Failed, HoldsLock;
    var room :| MadeRoom(room, before, key) && after == room[key := Failed(RecordOf(before, key), now)];
    var live := LiveLocks(before, now);
    if live <= room.Keys {
      SubsetCount(live, room.Keys);
      assert false;
    }
    var k :| k in live && k !in room;
    assert k !in after;
    NoRecordNoLock(after, k, now);
  }

  lemma NoRecordNoLock(store: Store, key: Key, until: int)
    requires key !in store
    ensures !HoldsLock(store, key, until)
  {
  }

  /** Every live lock lasts, but for that of a pair that signs in. */
  predicate SparesLocks(before: Store, e: Event, after: Store) {
    forall k :: k in LiveLocks(before, e.time) && !(e.Success? && e.key == k) ==>
      HoldsLock(after, k, before[k].lockedUntil.value)
  }

  /** One entry less, that of the lowest rank. */
  lemma RoomExists(before: Store) returns (room: Store)
    requires |before| == MAX_ENTRIES
    ensures Evicted(room, before, MAX_ENTRIES - 1)
  {
    hide Rank;
    var k := Lowest(before, Rank);
    room := before - {k};
    assert room.Keys == before.Keys - {k};
  }

  /** Whatever eviction picks, a step spares every live lock if and only if it is no failure of a
      new pair that finds the map full of live locks. */
  lemma LocksSparedExactly(before: Store, e: Event)
    requires IsSound(before, e.time) && |before| <= MAX_ENTRIES
    ensures LeavesLocks(before, e) <==> forall after | Step(before, e, after) :: SparesLocks(before, e, after)
  {
    hide Step, IsSound, HoldsLock, LiveLocks, Evicted, Failed;
    if LeavesLocks(before, e) {
      forall after | Step(before, e, after)
        ensures SparesLocks(before, e, after)
      {
        LockByLock(before, e, after);
      }
    } else {
      LiveLocksFit(before, e.time);
      var room := RoomExists(before);
      var after := room[e.key := Failed(RecordOf(before, e.key), e.time)];
      RoomStep(before, e, room, after);
      FullOfLocksDropsOne(before, e.key, e.time, after);
      OneIsNotSpared(before, e, after);
    }
  }

  lemma LockByLock(before: Store, e: Event, after: Store)
    requires IsSound(before, e.time) && |before| <= MAX_ENTRIES && LeavesLocks(before, e) && Step(before, e, after)
    ensures SparesLocks(before, e, after)
  {
    hide Step, IsSound, LeavesLocks;
    forall k | k in LiveLocks(before, e.time) && !(e.Success? && e.key == k)
      ensures HoldsLock(after, k, before[k].lockedUntil.value)
    {
      StepKeepsLock(before, e, after, k, before[k].lockedUntil.value);
    }
  }

  lemma RoomStep(before: Store, e: Event, room: Store, after: Store)
    requires e.Failure? && e.key !in before && |before| == MAX_ENTRIES && Evicted(room, before, MAX_ENTRIES - 1)
    requires after == room[e.key := Failed(RecordOf(before, e.key), e.time)]
    ensures Step(before, e, after)
  {
    hide Evicted, Failed;
    assert MadeRoom(room, before, e.key);
  }

  lemma OneIsNotSpared(before: Store, e: Event, after: Store)
    requires e.Failure? && exists k :: k in LiveLocks(before, e.time) && !HoldsLock(after, k, e.time)
    ensures !SparesLocks(before, e, after)
  {
    var k :| k in LiveLocks(before, e.time) && !HoldsLock(after, k, e.time);
    assert !HoldsLock(after, k, before[k].lockedUntil.value);
  }
}
