/** `RateLimitStore` of backend/src/stores.rs: a sliding window for each client address. */
module RateLimit {
  import opened Bytes
  import opened Eviction

  const WINDOW := 15 * 60 * 1000
  const LIMIT: nat := 20
  const MAX_ENTRIES: nat := 50_000

  type Store = map<Text, seq<int>>

  datatype Answer = Answer(limited: bool, retryAfter: int)

  const ADMITTED := Answer(false, 0)

  /** The times inside the window that ends at `now`: `retain(|t| t > window_start)`. */
  function Recent(times: seq<int>, now: int): seq<int> {
    if times == [] then []
    else
      var last := times[|times| - 1];
      Recent(times[..|times| - 1], now) + (if last > now - WINDOW then [last] else [])
  }

  function TimesOf(store: Store, ip: Text): seq<int> {
    if ip in store then store[ip] else []
  }

  /** Rank for eviction: the first time still held. */
  function Oldest(times: seq<int>): int {
    if times == [] then 0 else times[0]
  }

  /** The answer to a request at `now` when the window holds `recent`. */
  function AnswerTo(recent: seq<int>, now: int): Answer {
    if |recent| >= LIMIT then
      var retry := (recent[0] + WINDOW - now + 999) / 1000;
      Answer(true, if retry < 1 then 1 else retry)
    else ADMITTED
  }

  /** The window afterwards: a refused request is not recorded. */
  function Recorded(recent: seq<int>, now: int): seq<int> {
    if |recent| >= LIMIT then recent else recent + [now]
  }

  ghost predicate MadeRoom(after: Store, before: Store, ip: Text) {
    if ip in before || |before| < MAX_ENTRIES then after == before else Keeps(after, before, MAX_ENTRIES - 1, Oldest)
  }

  function Pruned(store: Store, now: int): Store {
    map k | k in store && Recent(store[k], now) != [] :: Recent(store[k], now)
  }

  class RateLimitStore {
    var store: Store

    constructor ()
      ensures store == map[]
    {
      store := map[];
    }

    /** `check_and_record` */
    method CheckAndRecord(ip: Text, now: int) returns (answer: Answer)
      modifies this
      ensures var recent := Recent(TimesOf(old(store), ip), now);
        && answer == AnswerTo(recent, now)
        && exists room :: MadeRoom(room, old(store), ip) && store == room[ip := Recorded(recent, now)]
    {
      hide Keeps, Recent;
      ghost var before := store;
      if ip !in store && |store| >= MAX_ENTRIES {
        store := EvictOldest(store, MAX_ENTRIES - 1, Oldest);
      }
      ghost var room := store;
      RoomKeepsTimes(room, before, ip);
      assert MadeRoom(room, before, ip);
      var times := Recent(if ip in store then store[ip] else [], now);
      store := store[ip := times];
      if |times| >= LIMIT {
        var retry := (times[0] + WINDOW - now + 999) / 1000;
        return Answer(true, if retry < 1 then 1 else retry);
      }
      store := store[ip := times + [now]];
      assert store == room[ip := times + [now]];
      answer := ADMITTED;
    }

    /** `cleanup` */
    method Cleanup(now: int) returns (cleaned: nat)
      modifies this
      ensures Keeps(store, Pruned(old(store), now), MAX_ENTRIES, Oldest)
      ensures cleaned == |old(store)| - |Pruned(old(store), now)|
    {
      var before := |store|;
      PrunedSize(store, now);
      store := Pruned(store, now);
      cleaned := before - |store|;
      if |store| > MAX_ENTRIES {
        store := EvictOldest(store, MAX_ENTRIES, Oldest);
      }
    }
  }

  lemma RoomKeepsTimes(room: Store, before: Store, ip: Text)
    requires if ip in before || |before| < MAX_ENTRIES then room == before
      else Keeps(room, before, MAX_ENTRIES - 1, Oldest)
    ensures TimesOf(room, ip) == TimesOf(before, ip)
  {
  }

  lemma PrunedSize(store: Store, now: int)
    ensures |Pruned(store, now)| <= |store|
  {
    hide Recent;
    SubsetCount(Pruned(store, now).Keys, store.Keys);
  }

  // ==== runs ====

  datatype Event = Request(ip: Text, time: int) | Tick(time: int)

  ghost predicate Step(before: Store, e: Event, after: Store) {
    match e
    case Request(ip, now) =>
      exists room :: MadeRoom(room, before, ip) && after == room[ip := Recorded(Recent(TimesOf(before, ip), now), now)]
    case Tick(now) => Keeps(after, Pruned(before, now), MAX_ENTRIES, Oldest)
  }

  /** A run from the empty store, with a clock that never goes back. */
  ghost predicate IsRun(stores: seq<Store>, es: seq<Event>) {
    && |stores| == |es| + 1 && stores[0] == map[]
    && (forall n :: 0 <= n < |es| ==> Step(stores[n], es[n], stores[n + 1]))
    && (forall i, j :: 0 <= i < j < |es| ==> es[i].time <= es[j].time)
  }

  function AnswerAt(store: Store, e: Event): Answer
    requires e.Request?
  {
    AnswerTo(Recent(TimesOf(store, e.ip), e.time), e.time)
  }

  /** When the first `n` events admitted requests of `ip`. */
  function Admissions(stores: seq<Store>, es: seq<Event>, n: nat, ip: Text): seq<int>
    requires n <= |es| < |stores|
  {
    if n == 0 then []
    else
      var h := Admissions(stores, es, n - 1, ip);
      var e := es[n - 1];
      if e.Request? && e.ip == ip && !AnswerAt(stores[n - 1], e).limited then h + [e.time] else h
  }

  /** Capacity never drops the entry of `ip` while it still holds a time in the window. */
  predicate Spared(before: Store, e: Event, after: Store, ip: Text) {
    Recent(TimesOf(before, ip), e.time) != [] ==> ip in after
  }

  ghost predicate IsSparingRun(stores: seq<Store>, es: seq<Event>, ip: Text) {
    IsRun(stores, es) && forall n :: 0 <= n < |es| ==> Spared(stores[n], es[n], stores[n + 1], ip)
  }

  // ==== capacity ====

  lemma StepSize(before: Store, e: Event, after: Store)
    requires |before| <= MAX_ENTRIES && Step(before, e, after)
    ensures |after| <= MAX_ENTRIES
  {
    hide Recent, Recorded;
    match e
    case Request(ip, now) =>
      var room :| MadeRoom(room, before, ip) && after == room[ip := Recorded(Recent(TimesOf(before, ip), now), now)];
      assert after.Keys == room.Keys + {ip};
      if ip in before {
        assert room.Keys + {ip} == room.Keys;
      }
    case Tick(now) =>
  }

  /** The map never exceeds its capacity, whatever the requests. */
  lemma {:induction false} NeverOverCapacity(stores: seq<Store>, es: seq<Event>, n: nat)
    requires IsRun(stores, es) && n <= |es|
    ensures |stores[n]| <= 50_000
  {
    hide Step;
    if n > 0 {
      NeverOverCapacity(stores, es, n - 1);
      StepSize(stores[n - 1], es[n - 1], stores[n]);
    }
  }

  /** Before the event: the event needs no room, or it is of `ip` itself, or `ip` has nothing in its
      window to lose, or some entry is older than that of `ip`. */
  ghost predicate IsSafe(before: Store, e: Event, ip: Text) {
    || e.Tick? || e.ip in before || |before| < MAX_ENTRIES || e.ip == ip
    || Recent(TimesOf(before, ip), e.time) == []
    || exists k :: k in before && Oldest(before[k]) < Oldest(TimesOf(before, ip))
  }

  lemma TickSpares(before: Store, now: int, after: Store, ip: Text)
    requires |before| <= MAX_ENTRIES && Step(before, Tick(now), after)
    ensures Spared(before, Tick(now), after, ip)
  {
    hide Recent;
    NoneRecent(now);
    PrunedSize(before, now);
    var kept := Pruned(before, now);
    assert after.Keys <= kept.Keys && |after.Keys| == |kept.Keys|;
    SubsetSize(after.Keys, kept.Keys);
  }

  /** With the store full, an entry that is not the oldest survives one eviction. */
  lemma OlderIsDropped(before: Store, room: Store, ip: Text, k: Text)
    requires |before| == MAX_ENTRIES && Keeps(room, before, MAX_ENTRIES - 1, Oldest)
    requires ip in before && k in before && Oldest(before[k]) < Oldest(before[ip])
    ensures ip in room
  {
    if ip !in room {
      assert k !in room;
      assert room.Keys <= before.Keys - {ip, k};
      assert |before.Keys - {ip, k}| == |before.Keys| - |{ip, k}|;
      SubsetCount(room.Keys, before.Keys - {ip, k});
    }
  }

  lemma SafeIsSpared(before: Store, e: Event, after: Store, ip: Text)
    requires |before| <= MAX_ENTRIES && IsSafe(before, e, ip) && Step(before, e, after)
    ensures Spared(before, e, after, ip)
  {
    hide Recent, Keeps, Oldest, Recorded;
    match e
    case Tick(now) =>
      TickSpares(before, now, after, ip);
    case Request(other, now) =>
      NoneRecent(now);
      var room :| MadeRoom(room, before, other) &&
        after == room[other := Recorded(Recent(TimesOf(before, other), now), now)];
      if Recent(TimesOf(before, ip), now) != [] && room != before && other != ip {
        var k :| k in before && Oldest(before[k]) < Oldest(before[ip]);
        OlderIsDropped(before, room, ip, k);
      }
  }

  lemma UnsafeIsDropped(before: Store, e: Event, ip: Text) returns (after: Store)
    requires |before| <= MAX_ENTRIES && !IsSafe(before, e, ip)
    ensures Step(before, e, after) && !Spared(before, e, after, ip)
  {
    hide Recent, Oldest, Recorded;
    NoneRecent(e.time);
    var room := before - {ip};
    assert room.Keys == before.Keys - {ip};
    assert MadeRoom(room, before, e.ip);
    after := room[e.ip := Recorded(Recent(TimesOf(before, e.ip), e.time), e.time)];
  }

  /** Whatever eviction picks, the entry of `ip` is spared exactly when the event is safe. */
  lemma SparedExactly(before: Store, e: Event, ip: Text)
    requires |before| <= MAX_ENTRIES
    ensures IsSafe(before, e, ip) <==> forall after | Step(before, e, after) :: Spared(before, e, after, ip)
  {
    hide IsSafe, Step, Spared;
    if IsSafe(before, e, ip) {
      forall after | Step(before, e, after)
        ensures Spared(before, e, after, ip)
      {
        SafeIsSpared(before, e, after, ip);
      }
    } else {
      var after := UnsafeIsDropped(before, e, ip);
    }
  }

  /** So the results below hold of every run whose events are safe for `ip`, in particular of every
      run in which no new address comes while 50,000 are tracked. */
  lemma SafeRunsSpare(stores: seq<Store>, es: seq<Event>, ip: Text)
    requires IsRun(stores, es) && forall n :: 0 <= n < |es| ==> IsSafe(stores[n], es[n], ip)
    ensures IsSparingRun(stores, es, ip)
  {
    hide IsSafe, Step, Spared;
    forall n | 0 <= n < |es|
      ensures Spared(stores[n], es[n], stores[n + 1], ip)
    {
      NeverOverCapacity(stores, es, n);
      SafeIsSpared(stores[n], es[n], stores[n + 1], ip);
    }
  }

  // ==== the window ====

  predicate Ordered(h: seq<int>) {
    forall i, j :: 0 <= i < j < |h| ==> h[i] <= h[j]
  }

  lemma {:induction false} RecentTwice(h: seq<int>, now: int, later: int)
    requires now <= later
    ensures Recent(Recent(h, now), later) == Recent(h, later)
  {
    if h != [] {
      var front, last := h[..|h| - 1], h[|h| - 1];
      RecentTwice(front, now, later);
      if last > now - WINDOW {
        RecentSnoc(Recent(front, now), last, later);
      } else {
        assert Recent(front, now) + [] == Recent(front, now);
      }
    }
  }

  lemma RecentSnoc(h: seq<int>, last: int, now: int)
    ensures Recent(h + [last], now) == Recent(h, now) + if last > now - WINDOW then [last] else []
  {
    assert (h + [last])[..|h|] == h;
  }

  /** Of an ordered history, the window holds an end piece. */
  lemma {:induction false} RecentIsSuffix(h: seq<int>, now: int) returns (k: nat)
    requires Ordered(h)
    ensures k <= |h| && Recent(h, now) == h[k..]
    ensures forall i :: 0 <= i < k ==> h[i] <= now - WINDOW
    ensures forall i :: k <= i < |h| ==> h[i] > now - WINDOW
  {
    if h == [] {
      k := 0;
    } else {
      k := RecentIsSuffix(h[..|h| - 1], now);
      if h[|h| - 1] > now - WINDOW {
        assert h[k..] == h[..|h| - 1][k..] + [h[|h| - 1]];
      } else {
        assert forall i :: 0 <= i < |h| - 1 ==> h[i] <= h[|h| - 1];
        assert k == |h| - 1;
        k := |h|;
      }
    }
  }

  /** The window of `ip` is what its admissions call for, at every later time. */
  ghost predicate Tracks(store: Store, ip: Text, h: seq<int>, now: int) {
    forall t :: t >= now ==> Recent(TimesOf(store, ip), t) == Recent(h, t)
  }

  lemma RequestTracks(before: Store, e: Event, after: Store, h: seq<int>)
    requires e.Request? && Step(before, e, after) && Tracks(before, e.ip, h, e.time)
    ensures Tracks(after, e.ip, if AnswerAt(before, e).limited then h else h + [e.time], e.time)
  {
    hide Recent, Keeps;
    var ip, now := e.ip, e.time;
    var recent := Recent(TimesOf(before, ip), now);
    assert TimesOf(after, ip) == Recorded(recent, now);
    forall t | t >= now
      ensures Recent(TimesOf(after, ip), t) == Recent(if AnswerAt(before, e).limited then h else h + [now], t)
    {
      RecentTwice(TimesOf(before, ip), now, t);
      RecentSnoc(recent, now, t);
      RecentSnoc(h, now, t);
    }
  }

  lemma OtherTracks(before: Store, e: Event, after: Store, ip: Text, h: seq<int>)
    requires Step(before, e, after) && !(e.Request? && e.ip == ip) && Spared(before, e, after, ip)
    requires Tracks(before, ip, h, e.time)
    ensures Tracks(after, ip, h, e.time)
  {
    hide Recent, Recorded;
    var times := TimesOf(before, ip);
    match e {
      case Request(k, now) => assert ip in after ==> ip in before && after[ip] == before[ip];
      case Tick(now) => assert ip in after ==> ip in before && after[ip] == Recent(times, now);
    }
    forall t | t >= e.time
      ensures Recent(TimesOf(after, ip), t) == Recent(h, t)
    {
      RecentTwice(times, e.time, t);
      NoneRecent(t);
    }
  }

  lemma NoneRecent(now: int)
    ensures Recent([], now) == []
  {
  }

  lemma {:induction false} RunTracks(stores: seq<Store>, es: seq<Event>, ip: Text, n: nat, now: int)
    requires IsSparingRun(stores, es, ip) && n <= |es| && forall i :: 0 <= i < n ==> es[i].time <= now
    ensures Tracks(stores[n], ip, Admissions(stores, es, n, ip), now)
  {
    hide Step, Tracks, Spared, AnswerAt;
    if n == 0 {
      NothingTracks(stores[0], ip, now);
    } else {
      var e := es[n - 1];
      RunTracks(stores, es, ip, n - 1, e.time);
      if e.Request? && e.ip == ip {
        RequestTracks(stores[n - 1], e, stores[n], Admissions(stores, es, n - 1, ip));
      } else {
        OtherTracks(stores[n - 1], e, stores[n], ip, Admissions(stores, es, n - 1, ip));
      }
      TracksLater(stores[n], ip, Admissions(stores, es, n, ip), e.time, now);
    }
  }

  lemma NothingTracks(store: Store, ip: Text, now: int)
    requires ip !in store
    ensures Tracks(store, ip, [], now)
  {
  }

  lemma TracksLater(store: Store, ip: Text, h: seq<int>, now: int, later: int)
    requires Tracks(store, ip, h, now) && now <= later
    ensures Tracks(store, ip, h, later)
  {
  }

  /** Each answer is the one that the admissions so far call for. */
  lemma AnswersMatch(stores: seq<Store>, es: seq<Event>, ip: Text, n: nat)
    requires IsSparingRun(stores, es, ip) && n < |es| && es[n].Request? && es[n].ip == ip
    ensures AnswerAt(stores[n], es[n]) == AnswerTo(Recent(Admissions(stores, es, n, ip), es[n].time), es[n].time)
  {
    hide Step, Recent, AnswerTo, Spared, Admissions;
    RunTracks(stores, es, ip, n, es[n].time);
  }

  /** Admissions are in order, and any one is a whole window after the twentieth before it. */
  predicate Spaced(h: seq<int>) {
    Ordered(h) && forall j {:trigger h[j]} :: LIMIT <= j < |h| ==> h[j] - h[j - LIMIT] >= WINDOW
  }

  lemma AdmittedIsSpaced(h: seq<int>, now: int)
    requires Spaced(h) && |Recent(h, now)| < LIMIT && (h != [] ==> h[|h| - 1] <= now)
    ensures Spaced(h + [now])
  {
    var k := RecentIsSuffix(h, now);
    assert |h[k..]| == |h| - k;
  }

  lemma {:induction false} AdmissionsSpaced(stores: seq<Store>, es: seq<Event>, ip: Text, n: nat)
    requires IsSparingRun(stores, es, ip) && n <= |es|
    ensures var h := Admissions(stores, es, n, ip);
      Spaced(h) && (h != [] ==> n > 0 && h[|h| - 1] <= es[n - 1].time)
  {
    hide Step, Recent, Spared, Spaced, AnswerAt;
    if n == 0 {
      NothingSpaced();
    } else {
      AdmissionsSpaced(stores, es, ip, n - 1);
      var e := es[n - 1];
      if e.Request? && e.ip == ip && !AnswerAt(stores[n - 1], e).limited {
        AnswersMatch(stores, es, ip, n - 1);
        AdmittedIsSpaced(Admissions(stores, es, n - 1, ip), e.time);
      }
    }
  }

  lemma NothingSpaced()
    ensures Spaced([])
  {
  }

  /** The admissions of a history in the half-open window that begins at `start`. */
  function InWindow(h: seq<int>, start: int): set<int> {
    set j | 0 <= j < |h| && start <= h[j] < start + 900_000
  }

  lemma Apart(h: seq<int>, i: nat, j: nat)
    requires Spaced(h) && i + LIMIT <= j < |h|
    ensures h[j] - h[i] >= WINDOW
  {
    assert h[j] - h[j - LIMIT] >= WINDOW && h[i] <= h[j - LIMIT];
  }

  lemma SpacedIsOrdered(h: seq<int>)
    requires Spaced(h)
    ensures Ordered(h)
  {
  }

  lemma SpacedBounds(h: seq<int>, start: int)
    requires Spaced(h)
    ensures |InWindow(h, start)| <= LIMIT
  {
    hide Spaced, Recent;
    SpacedIsOrdered(h);
    var all := InWindow(h, start);
    var first := RecentIsSuffix(h, start - 1 + WINDOW);
    forall j | j in all
      ensures j in Run(first, LIMIT)
    {
      if j >= first + LIMIT {
        Apart(h, first, j);
      }
    }
    SubsetCount(all, Run(first, LIMIT));
  }

  function Run(first: int, n: nat): (r: set<int>)
    ensures |r| == n && forall j :: j in r <==> first <= j < first + n
  {
    if n == 0 then {} else Run(first, n - 1) + {first + n - 1}
  }

  /** Over every run, any window of 15 minutes holds at most 20 admitted requests of an address
      whose entry capacity spares. */
  lemma WindowBound(stores: seq<Store>, es: seq<Event>, ip: Text, start: int)
    requires IsSparingRun(stores, es, ip)
    ensures |InWindow(Admissions(stores, es, |es|, ip), start)| <= 20
  {
    hide Admissions, Spaced, Spared, Step, InWindow;
    AdmissionsSpaced(stores, es, ip, |es|);
    SpacedBounds(Admissions(stores, es, |es|, ip), start);
  }

  /** Exactly when 20 admissions lie less than 15 minutes back, a request is refused. */
  lemma RefusedExactly(stores: seq<Store>, es: seq<Event>, ip: Text, n: nat)
    requires IsSparingRun(stores, es, ip) && n < |es| && es[n].Request? && es[n].ip == ip
    ensures AnswerAt(stores[n], es[n]).limited <==>
      |InWindow(Admissions(stores, es, n, ip), es[n].time - 899_999)| >= 20
    ensures !AnswerAt(stores[n], es[n]).limited ==> AnswerAt(stores[n], es[n]).retryAfter == 0
  {
    hide Admissions, Spaced, Spared, Step, Recent, AnswerAt;
    var h, now := Admissions(stores, es, n, ip), es[n].time;
    AnswersMatch(stores, es, ip, n);
    AdmissionsSpaced(stores, es, ip, n);
    SpacedIsOrdered(h);
    if n > 0 {
      RunIsOrdered(stores, es, n);
    }
    var k := RecentIsSuffix(h, now);
    assert InWindow(h, now - 899_999) == Run(k, |h| - k);
  }

  lemma RunIsOrdered(stores: seq<Store>, es: seq<Event>, n: nat)
    requires IsRun(stores, es) && 0 < n < |es|
    ensures es[n - 1].time <= es[n].time
  {
  }

  // ==== waiting ====

  /** `ip` sends nothing from event `m` up to event `n`. */
  predicate Quiet(es: seq<Event>, ip: Text, m: nat, n: nat)
    requires m <= n <= |es|
  {
    forall i :: m <= i < n ==> !(es[i].Request? && es[i].ip == ip)
  }

  lemma {:induction false} QuietAdmits(stores: seq<Store>, es: seq<Event>, ip: Text, m: nat, n: nat)
    requires |stores| == |es| + 1 && m <= n <= |es| && Quiet(es, ip, m, n)
    ensures Admissions(stores, es, n, ip) == Admissions(stores, es, m, ip)
    decreases n
  {
    if n > m {
      QuietAdmits(stores, es, ip, m, n - 1);
    }
  }

  /** A full window never holds more than the limit. */
  lemma RecentIsBounded(h: seq<int>, now: int)
    requires Spaced(h) && (h != [] ==> h[|h| - 1] <= now)
    ensures |Recent(h, now)| <= LIMIT
  {
    hide Spaced;
    SpacedIsOrdered(h);
    var k := RecentIsSuffix(h, now);
    if |h| - k > LIMIT {
      Apart(h, |h| - 1 - LIMIT, |h| - 1);
    }
  }

  lemma WaitIsExact(h: seq<int>, now: int, later: int)
    requires Spaced(h) && (h != [] ==> h[|h| - 1] <= now) && AnswerTo(Recent(h, now), now).limited && now <= later
    ensures var retry := AnswerTo(Recent(h, now), now).retryAfter;
      && retry >= 1
      && (later >= now + 1000 * retry ==> !AnswerTo(Recent(h, later), later).limited)
      && (later <= now + 1000 * (retry - 1) ==> AnswerTo(Recent(h, later), later).limited)
  {
    RecentIsBounded(h, now);
    var k := RecentIsSuffix(h, now);
    var j := RecentIsSuffix(h, later);
    assert Recent(h, now)[0] == h[k];
  }

  /** A refused caller who sends nothing until then is admitted at the time it was told, and one
      second less is too early. */
  lemma RetryAfterIsExact(stores: seq<Store>, es: seq<Event>, ip: Text, m: nat, n: nat)
    requires IsSparingRun(stores, es, ip) && m < n < |es| && Quiet(es, ip, m + 1, n)
    requires es[m].Request? && es[m].ip == ip && AnswerAt(stores[m], es[m]).limited
    requires es[n].Request? && es[n].ip == ip
    ensures var due := es[m].time + 1000 * AnswerAt(stores[m], es[m]).retryAfter;
      && (es[n].time >= due ==> !AnswerAt(stores[n], es[n]).limited)
      && (es[n].time <= due - 1000 ==> AnswerAt(stores[n], es[n]).limited)
  {
    hide Recent, Spaced, Spared, Step, AnswerTo, AnswerAt, Quiet;
    var h := Admissions(stores, es, m, ip);
    assert Admissions(stores, es, m + 1, ip) == h;
    QuietAdmits(stores, es, ip, m + 1, n);
    AnswersMatch(stores, es, ip, m);
    AnswersMatch(stores, es, ip, n);
    AdmissionsSpaced(stores, es, ip, m);
    WaitIsExact(h, es[m].time, es[n].time);
  }
}
