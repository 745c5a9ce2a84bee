/** `evict_oldest_entries` of backend/src/stores.rs: a bounded max-heap, kept in place, selects the
    entries to drop. */
module Eviction {
  function Parent(i: nat): nat
    requires i > 0
  {
    (i - 1) / 2
  }

  /** No entry is newer than its parent. */
  ghost predicate IsHeap<K>(s: seq<(K, int)>) {
    forall i: nat :: 0 < i < |s| ==> s[Parent(i)].1 >= s[i].1
  }

  /** A heap but for `at`, which may be newer than its parent. */
  ghost predicate HeapAbove<K>(s: seq<(K, int)>, at: nat) {
    && (forall i: nat :: 0 < i < |s| && i != at ==> s[Parent(i)].1 >= s[i].1)
    && (forall i: nat :: 0 < i < |s| && at > 0 && Parent(i) == at ==> s[Parent(at)].1 >= s[i].1)
  }

  /** A heap but for `at`, which may be older than its children. */
  ghost predicate HeapBelow<K>(s: seq<(K, int)>, at: nat) {
    && (forall i: nat :: 0 < i < |s| && Parent(i) != at ==> s[Parent(i)].1 >= s[i].1)
    && (forall i: nat :: 0 < i < |s| && at > 0 && at < |s| && Parent(i) == at ==> s[Parent(at)].1 >= s[i].1)
  }

  function Swapped<K>(s: seq<(K, int)>, i: nat, j: nat): (t: seq<(K, int)>)
    requires i < |s| && j < |s|
    ensures |t| == |s|
  {
    s[i := s[j]][j := s[i]]
  }

  lemma SwappedMultiset<K>(s: seq<(K, int)>, i: nat, j: nat)
    requires i < |s| && j < |s|
    ensures multiset(Swapped(s, i, j)) == multiset(s)
  {
  }

  lemma UpStep<K>(s: seq<(K, int)>, at: nat)
    requires 0 < at < |s| && HeapAbove(s, at) && s[Parent(at)].1 < s[at].1
    ensures HeapAbove(Swapped(s, Parent(at), at), Parent(at))
  {
    var p := Parent(at);
    var t := Swapped(s, p, at);
    forall i: nat | 0 < i < |t| && i != p
      ensures t[Parent(i)].1 >= t[i].1
    {
      assert s[Parent(i)].1 >= s[i].1 || i == at;
    }
    forall i: nat | 0 < i < |t| && p > 0 && Parent(i) == p
      ensures t[Parent(p)].1 >= t[i].1
    {
      assert s[Parent(p)].1 >= s[p].1;
    }
  }

  lemma DownStep<K>(s: seq<(K, int)>, at: nat, child: nat)
    requires at < child < |s| && Parent(child) == at && HeapBelow(s, at) && s[child].1 > s[at].1
    requires forall i: nat :: 0 < i < |s| && Parent(i) == at ==> s[child].1 >= s[i].1
    ensures HeapBelow(Swapped(s, child, at), child)
  {
    var t := Swapped(s, child, at);
    forall i: nat | 0 < i < |t| && Parent(i) != child
      ensures t[Parent(i)].1 >= t[i].1
    {
      if Parent(i) != at {
        assert s[Parent(i)].1 >= s[i].1;
      }
    }
    forall i: nat | 0 < i < |t| && Parent(i) == child
      ensures t[Parent(child)].1 >= t[i].1
    {
      assert i != at && i != child;
      assert s[Parent(i)].1 >= s[i].1;
    }
  }

  /** Nothing in a heap is newer than its root. */
  lemma {:induction false} RootIsNewest<K>(s: seq<(K, int)>, i: nat)
    requires IsHeap(s) && i < |s|
    ensures s[0].1 >= s[i].1
  {
    if i > 0 {
      RootIsNewest(s, Parent(i));
    }
  }

  /** `sift_up` on the first `size` slots. */
  method SiftUp<K>(heap: array<(K, int)>, size: nat, start: nat)
    requires start < size <= heap.Length && HeapAbove(heap[..size], start)
    modifies heap
    ensures IsHeap(heap[..size]) && multiset(heap[..size]) == old(multiset(heap[..size]))
  {
    hide HeapAbove, Swapped;
    var i: nat := start;
    while i > 0
      invariant i < size && HeapAbove(heap[..size], i)
      invariant multiset(heap[..size]) == old(multiset(heap[..size]))
    {
      var parent := (i - 1) / 2;
      ghost var s := heap[..size];
      if heap[parent].1 >= heap[i].1 {
        break;
      }
      UpStep(s, i);
      SwappedMultiset(s, parent, i);
      heap[parent], heap[i] := heap[i], heap[parent];
      SwapIs(s, heap[..size], parent, i);
      i := parent;
    }
    AboveDone(heap[..size], i);
  }

  lemma SwapIs<K>(s: seq<(K, int)>, t: seq<(K, int)>, i: nat, j: nat)
    requires i < |s| && j < |s| && |t| == |s| && t[i] == s[j] && t[j] == s[i]
    requires forall k :: 0 <= k < |s| && k != i && k != j ==> t[k] == s[k]
    ensures t == Swapped(s, i, j)
  {
  }

  lemma AboveDone<K>(s: seq<(K, int)>, at: nat)
    requires at < |s| && HeapAbove(s, at) && (at == 0 || s[Parent(at)].1 >= s[at].1)
    ensures IsHeap(s)
  {
  }

  lemma BelowDone<K>(s: seq<(K, int)>, at: nat)
    requires at < |s| && HeapBelow(s, at) && forall i: nat :: 0 < i < |s| && Parent(i) == at ==> s[at].1 >= s[i].1
    ensures IsHeap(s)
  {
  }

  /** The newest among `at` and its children. */
  ghost predicate IsLargest<K>(s: seq<(K, int)>, at: nat, largest: nat) {
    && at < |s| && largest < |s| && s[largest].1 >= s[at].1
    && (largest == at || (largest > 0 && Parent(largest) == at && s[largest].1 > s[at].1))
    && (forall i: nat :: 0 < i < |s| && Parent(i) == at ==> s[largest].1 >= s[i].1)
  }

  lemma ChildrenOf(i: nat, at: nat)
    requires i > 0 && Parent(i) == at
    ensures i == 2 * at + 1 || i == 2 * at + 2
  {
  }

  /** The choice at one position of `sift_down`. */
  method Largest<K>(heap: array<(K, int)>, size: nat, i: nat) returns (largest: nat)
    requires i < size <= heap.Length
    ensures IsLargest(heap[..size], i, largest)
  {
    var left := 2 * i + 1;
    var right := left + 1;
    largest := i;
    if left < size && heap[left].1 > heap[largest].1 {
      largest := left;
    }
    if right < size && heap[right].1 > heap[largest].1 {
      largest := right;
    }
    forall j: nat | 0 < j < size && Parent(j) == i
      ensures heap[largest].1 >= heap[j].1
    {
      ChildrenOf(j, i);
    }
  }

  /** `sift_down` on the first `size` slots. */
  method SiftDown<K>(heap: array<(K, int)>, size: nat, start: nat)
    requires start < size <= heap.Length && HeapBelow(heap[..size], start)
    modifies heap
    ensures IsHeap(heap[..size]) && multiset(heap[..size]) == old(multiset(heap[..size]))
  {
    hide HeapBelow, Swapped;
    var i := start;
    while true
      invariant i < size && HeapBelow(heap[..size], i)
      invariant multiset(heap[..size]) == old(multiset(heap[..size]))
      decreases size - i
    {
      var largest := Largest(heap, size, i);
      ghost var s := heap[..size];
      if largest == i {
        break;
      }
      DownStep(s, i, largest);
      SwappedMultiset(s, largest, i);
      heap[largest], heap[i] := heap[i], heap[largest];
      SwapIs(s, heap[..size], largest, i);
      i := largest;
    }
    BelowDone(heap[..size], i);
  }

  // ==== selection ====

  /** `chosen` is the part of `seen` that the heap holds: its oldest entries, at most `count`. */
  ghost predicate Selects<K(!new)>(chosen: map<K, int>, seen: map<K, int>, count: nat) {
    && Pairs(chosen) <= Pairs(seen)
    && |chosen| == (if |seen| < count then |seen| else count)
    && (forall k, j :: k in seen && k !in chosen && j in chosen ==> chosen[j] <= seen[k])
  }

  ghost function Pairs<K(!new)>(m: map<K, int>): set<(K, int)> {
    set k | k in m :: (k, m[k])
  }

  /** The entries of `s`, in any order, are those of `chosen`. */
  ghost predicate Holds<K(!new)>(s: seq<(K, int)>, chosen: map<K, int>) {
    multiset(s) == multiset(Pairs(chosen))
  }

  lemma HoldsEntry<K(!new)>(s: seq<(K, int)>, chosen: map<K, int>, k: K)
    requires Holds(s, chosen) && k in chosen
    ensures (k, chosen[k]) in s
  {
    assert (k, chosen[k]) in Pairs(chosen);
    assert (k, chosen[k]) in multiset(Pairs(chosen));
    assert (k, chosen[k]) in multiset(s);
  }

  lemma HeldEntry<K(!new)>(s: seq<(K, int)>, chosen: map<K, int>, i: nat)
    requires Holds(s, chosen) && i < |s|
    ensures s[i].0 in chosen && chosen[s[i].0] == s[i].1
  {
    assert s[i] in multiset(s);
    assert s[i] in multiset(Pairs(chosen));
    assert s[i] in Pairs(chosen);
  }

  lemma HeldCount<K(!new)>(s: seq<(K, int)>, chosen: map<K, int>)
    requires Holds(s, chosen)
    ensures |s| == |chosen|
  {
    assert |multiset(s)| == |s|;
    assert |multiset(Pairs(chosen))| == |Pairs(chosen)|;
    PairCount(chosen);
  }

  lemma AddedItem<K(!new)>(chosen: map<K, int>, k: K, ts: int)
    requires k !in chosen
    ensures Pairs(chosen[k := ts]) == Pairs(chosen) + {(k, ts)} && (k, ts) !in Pairs(chosen)
  {
    var m := chosen[k := ts];
    assert forall j :: j in m ==> j == k || j in chosen;
    assert Pairs(m) <= Pairs(chosen) + {(k, ts)};
    forall j | j in chosen
      ensures (j, chosen[j]) in Pairs(m)
    {
      assert j in m && m[j] == chosen[j];
    }
    assert (k, ts) in Pairs(m) by {
      assert k in m && m[k] == ts;
    }
    assert Pairs(m) == Pairs(chosen) + {(k, ts)};
  }

  lemma {:induction false} PairCount<K(!new)>(m: map<K, int>)
    ensures |Pairs(m)| == |m|
    decreases |m|
  {
    if m == map[] {
      assert Pairs(m) == {};
    } else {
      var k :| k in m;
      var less := m - {k};
      assert less.Keys == m.Keys - {k};
      PairCount(less);
      AddedItem(less, k, m[k]);
      assert less[k := m[k]] == m;
    }
  }

  lemma HoldsAdded<K(!new)>(s: seq<(K, int)>, chosen: map<K, int>, k: K, ts: int)
    requires Holds(s, chosen) && k !in chosen
    ensures Holds(s + [(k, ts)], chosen[k := ts])
  {
    AddedItem(chosen, k, ts);
    assert multiset(Pairs(chosen) + {(k, ts)}) == multiset(Pairs(chosen)) + multiset{(k, ts)};
  }

  lemma RemovedItem<K(!new)>(chosen: map<K, int>, k: K)
    requires k in chosen
    ensures Pairs(chosen) == Pairs(chosen - {k}) + {(k, chosen[k])}
  {
    AddedItem(chosen - {k}, k, chosen[k]);
    assert (chosen - {k})[k := chosen[k]] == chosen;
  }

  lemma Cancel<T>(a: multiset<T>, b: multiset<T>, e: T)
    requires multiset{e} + a == b + multiset{e}
    ensures a == b
  {
    assert a == (multiset{e} + a) - multiset{e};
    assert b == (b + multiset{e}) - multiset{e};
  }

  lemma HoldsRest<K(!new)>(s: seq<(K, int)>, chosen: map<K, int>)
    requires s != [] && Holds(s, chosen) && s[0].0 in chosen && chosen[s[0].0] == s[0].1
    ensures Holds(s[1..], chosen - {s[0].0})
  {
    var less := chosen - {s[0].0};
    RemovedItem(chosen, s[0].0);
    assert s == [s[0]] + s[1..];
    assert (s[0].0, s[0].1) == s[0];
    AddedItem(less, s[0].0, s[0].1);
    assert multiset(Pairs(less) + {s[0]}) == multiset(Pairs(less)) + multiset{s[0]};
    assert multiset(s) == multiset{s[0]} + multiset(s[1..]);
    Cancel(multiset(s[1..]), multiset(Pairs(less)), s[0]);
  }

  lemma HoldsReplaced<K(!new)>(s: seq<(K, int)>, chosen: map<K, int>, k: K, ts: int)
    requires s != [] && Holds(s, chosen) && k !in chosen && s[0].0 in chosen && chosen[s[0].0] == s[0].1
    ensures Holds(s[0 := (k, ts)], (chosen - {s[0].0})[k := ts])
  {
    var less := chosen - {s[0].0};
    HoldsRest(s, chosen);
    HoldsAdded(s[1..], less, k, ts);
    assert s[0 := (k, ts)] == [(k, ts)] + s[1..];
    assert multiset([(k, ts)] + s[1..]) == multiset(s[1..] + [(k, ts)]);
  }

  lemma SelectAdded<K(!new)>(chosen: map<K, int>, seen: map<K, int>, count: nat, k: K, ts: int)
    requires Selects(chosen, seen, count) && k !in seen && |chosen| < count
    ensures k !in chosen && Selects(chosen[k := ts], seen[k := ts], count)
  {
    ItemsAre(chosen, seen);
    AddedItem(chosen, k, ts);
    AddedItem(seen, k, ts);
    AllChosen(chosen, seen);
  }

  lemma ItemsAre<K(!new)>(chosen: map<K, int>, seen: map<K, int>)
    requires Pairs(chosen) <= Pairs(seen)
    ensures forall j :: j in chosen ==> j in seen && chosen[j] == seen[j]
  {
    forall j | j in chosen
      ensures j in seen && chosen[j] == seen[j]
    {
      assert (j, chosen[j]) in Pairs(chosen);
      assert (j, chosen[j]) in Pairs(seen);
    }
  }

  lemma AllChosen<K(!new)>(chosen: map<K, int>, seen: map<K, int>)
    requires Pairs(chosen) <= Pairs(seen) && |chosen| == |seen|
    ensures chosen == seen
  {
    ItemsAre(chosen, seen);
    assert chosen.Keys <= seen.Keys;
    SubsetSize(chosen.Keys, seen.Keys);
  }

  lemma SubsetSize<K>(a: set<K>, b: set<K>)
    requires a <= b && |a| == |b|
    ensures a == b
  {
    assert |b - a| == |b| - |a|;
  }

  lemma SubsetCount<K>(a: set<K>, b: set<K>)
    requires a <= b
    ensures |a| <= |b|
  {
    assert |b - a| == |b| - |a|;
  }

  lemma SelectSkipped<K(!new)>(chosen: map<K, int>, seen: map<K, int>, count: nat, k: K, ts: int)
    requires Selects(chosen, seen, count) && k !in seen && |chosen| == count
    requires forall j :: j in chosen ==> chosen[j] <= ts
    ensures Selects(chosen, seen[k := ts], count)
  {
    AddedItem(seen, k, ts);
    ItemsSize(chosen, seen);
  }

  lemma ItemsSize<K(!new)>(chosen: map<K, int>, seen: map<K, int>)
    requires Pairs(chosen) <= Pairs(seen)
    ensures |chosen| <= |seen|
  {
    PairCount(chosen);
    PairCount(seen);
    SubsetCount(Pairs(chosen), Pairs(seen));
  }

  lemma SelectReplaced<K(!new)>(chosen: map<K, int>, seen: map<K, int>, count: nat, root: K, k: K, ts: int)
    requires Selects(chosen, seen, count) && k !in seen && |chosen| == count
    requires root in chosen && ts < chosen[root] && forall j :: j in chosen ==> chosen[j] <= chosen[root]
    ensures k !in chosen && Selects((chosen - {root})[k := ts], seen[k := ts], count)
  {
    ItemsAre(chosen, seen);
    ItemsSize(chosen, seen);
    RemovedItem(chosen, root);
    AddedItem(chosen - {root}, k, ts);
    AddedItem(seen, k, ts);
    assert |chosen - {root}| == |chosen| - 1 by {
      assert (chosen - {root}).Keys == chosen.Keys - {root};
    }
  }

  /** What eviction must leave of `store`: as many entries as fit, unchanged, none of them older
      than an entry that was dropped. */
  ghost predicate Keeps<K(!new), V>(kept: map<K, V>, store: map<K, V>, max: nat, stamp: V -> int) {
    && |kept| == (if |store| < max then |store| else max)
    && (forall k :: k in kept ==> k in store && kept[k] == store[k])
    && (forall k, j :: k in kept && j in store && j !in kept ==> stamp(store[j]) <= stamp(store[k]))
  }

  /** Some entry has the smallest stamp. */
  lemma {:induction false} Lowest<K(!new), V>(store: map<K, V>, stamp: V -> int) returns (k: K)
    requires |store| > 0
    ensures k in store && forall j :: j in store ==> stamp(store[k]) <= stamp(store[j])
    decreases |store|
  {
    k :| k in store;
    var first := k;
    var others := store - {first};
    assert others.Keys == store.Keys - {first};
    assert forall j :: j in store ==> j == first || (j in others && others[j] == store[j]);
    if |others| > 0 {
      var other := Lowest(others, stamp);
      if stamp(store[other]) < stamp(store[first]) {
        k := other;
      }
    }
  }

  ghost function Stamps<K(!new), V>(store: map<K, V>, keys: set<K>, stamp: V -> int): map<K, int> {
    map k | k in store && k in keys :: stamp(store[k])
  }

  /** `evict_oldest_entries`, for every order in which the hash map may be walked. */
  method EvictOldest<K(==, !new), V>(store: map<K, V>, max: nat, stamp: V -> int) returns (kept: map<K, V>)
    ensures Keeps(kept, store, max, stamp)
  {
    if |store| <= max {
      return store;
    }
    var count := |store| - max;
    hide Holds, Selects;
    var heap, chosen := Select(store, count, stamp);
    kept := store;
    var i := 0;
    while i < count
      invariant i <= count
      invariant forall k :: k in kept <==> k in store && forall j :: 0 <= j < i ==> heap[j].0 != k
      invariant forall k :: k in kept ==> kept[k] == store[k]
    {
      kept := kept - {heap[i].0};
      i := i + 1;
    }
    HeldCount(heap, chosen);
    KeptKeys(heap, chosen, store, kept);
    KeptAre(chosen, store, kept, max, stamp);
  }

  /** What the walk keeps: the heap holds what is selected from the entries seen. */
  ghost predicate Walk<K(!new)>(s: seq<(K, int)>, chosen: map<K, int>, seen: map<K, int>, count: nat) {
    IsHeap(s) && Holds(s, chosen) && Selects(chosen, seen, count)
  }

  lemma WalkPush<K(!new)>(s: seq<(K, int)>, t: seq<(K, int)>, chosen: map<K, int>, seen: map<K, int>,
    count: nat, k: K, ts: int)
    requires Walk(s, chosen, seen, count) && k !in seen && |s| < count
    requires IsHeap(t) && multiset(t) == multiset(s + [(k, ts)])
    ensures Walk(t, chosen[k := ts], seen[k := ts], count)
  {
    hide IsHeap, Holds, Selects;
    HeldCount(s, chosen);
    SelectAdded(chosen, seen, count, k, ts);
    HoldsAdded(s, chosen, k, ts);
    StillHolds(s + [(k, ts)], t, chosen[k := ts]);
  }

  lemma WalkReplace<K(!new)>(s: seq<(K, int)>, t: seq<(K, int)>, chosen: map<K, int>, seen: map<K, int>,
    count: nat, k: K, ts: int)
    requires Walk(s, chosen, seen, count) && k !in seen && |s| == count && s != [] && ts < s[0].1
    requires IsHeap(t) && multiset(t) == multiset(s[0 := (k, ts)])
    ensures Walk(t, (chosen - {s[0].0})[k := ts], seen[k := ts], count)
  {
    hide IsHeap, Holds, Selects;
    HeldCount(s, chosen);
    HeldEntry(s, chosen, 0);
    RootAbove(s, chosen);
    SelectReplaced(chosen, seen, count, s[0].0, k, ts);
    HoldsReplaced(s, chosen, k, ts);
    StillHolds(s[0 := (k, ts)], t, (chosen - {s[0].0})[k := ts]);
  }

  lemma WalkSkip<K(!new)>(s: seq<(K, int)>, chosen: map<K, int>, seen: map<K, int>, count: nat, k: K, ts: int)
    requires Walk(s, chosen, seen, count) && k !in seen && |s| == count && s != [] && ts >= s[0].1
    ensures Walk(s, chosen, seen[k := ts], count)
  {
    hide IsHeap, Holds, Selects;
    HeldCount(s, chosen);
    RootAbove(s, chosen);
    SelectSkipped(chosen, seen, count, k, ts);
  }

  /** One step of the walk: push while there is room, else replace a newer root, else skip. */
  method Offer<K>(heap: array<(K, int)>, len: nat, k: K, ts: int) returns (size: nat)
    requires len <= heap.Length && heap.Length > 0 && IsHeap(heap[..len])
    modifies heap
    ensures size <= heap.Length && IsHeap(heap[..size])
    ensures len < heap.Length ==> multiset(heap[..size]) == multiset(old(heap[..len]) + [(k, ts)])
    ensures len < heap.Length ==> size == len + 1
    ensures len == heap.Length ==> size == len
    ensures len == heap.Length && ts < old(heap[0].1) ==>
      multiset(heap[..size]) == multiset(old(heap[..len])[0 := (k, ts)])
    ensures len == heap.Length && ts >= old(heap[0].1) ==> heap[..] == old(heap[..])
  {
    hide HeapAbove, HeapBelow, IsHeap;
    ghost var s := heap[..len];
    size := len;
    if len < heap.Length {
      heap[len] := (k, ts);
      size := len + 1;
      assert heap[..size] == s + [(k, ts)];
      AppendedLeaf(s, (k, ts));
      SiftUp(heap, size, size - 1);
    } else if ts < heap[0].1 {
      heap[0] := (k, ts);
      assert heap[..size] == s[0 := (k, ts)];
      ReplacedRoot(s, (k, ts));
      SiftDown(heap, size, 0);
    }
  }

  /** The walk over the map with the bounded heap: the keys and stamps to drop. */
  method Select<K(==, !new), V>(store: map<K, V>, count: nat, stamp: V -> int)
    returns (dropped: seq<(K, int)>, ghost chosen: map<K, int>)
    requires 0 < count <= |store|
    ensures |dropped| == count && Holds(dropped, chosen) && Selects(chosen, Stamps(store, store.Keys, stamp), count)
  {
    hide Selects, Holds, Stamps, HeapAbove, HeapBelow, IsHeap, Walk;
    var any :| any in store;
    var heap := new (K, int)[count](_ => (any, 0));
    var len: nat := 0;
    var remaining := store.Keys;
    ghost var walked: set<K> := {};
    chosen := map[];
    WalkNone<K>(count);
    NoStamps(store, stamp);
    assert heap[..0] == [];
    while remaining != {}
      invariant remaining <= store.Keys && walked == store.Keys - remaining
      invariant len <= count && fresh(heap) && heap.Length == count
      invariant Walk(heap[..len], chosen, Stamps(store, walked, stamp), count)
      decreases |remaining|
    {
      var k :| k in remaining;
      var ts := stamp(store[k]);
      ghost var s := heap[..len];
      ghost var seen := Stamps(store, walked, stamp);
      StampsNext(store, walked, stamp, k);
      WalkHeap(s, chosen, seen, count);
      len := Offer(heap, len, k, ts);
      if |s| < count {
        WalkPush(s, heap[..len], chosen, seen, count, k, ts);
        chosen := chosen[k := ts];
      } else if ts < s[0].1 {
        WalkReplace(s, heap[..len], chosen, seen, count, k, ts);
        chosen := (chosen - {s[0].0})[k := ts];
      } else {
        WalkSkip(s, chosen, seen, count, k, ts);
      }
      walked := walked + {k};
      remaining := remaining - {k};
    }
    assert walked == store.Keys;
    AllStamps(store, stamp);
    WalkEnd(heap[..len], chosen, Stamps(store, walked, stamp), count);
    dropped := heap[..len];
  }

  lemma WalkHeap<K(!new)>(s: seq<(K, int)>, chosen: map<K, int>, seen: map<K, int>, count: nat)
    requires Walk(s, chosen, seen, count)
    ensures IsHeap(s)
  {
  }

  lemma WalkEnd<K(!new)>(s: seq<(K, int)>, chosen: map<K, int>, seen: map<K, int>, count: nat)
    requires Walk(s, chosen, seen, count) && count <= |seen|
    ensures |s| == count && Holds(s, chosen) && Selects(chosen, seen, count)
  {
    HeldCount(s, chosen);
  }

  lemma WalkNone<K(!new)>(count: nat)
    ensures Walk<K>([], map[], map[], count)
  {
    var none: map<K, int> := map[];
    assert Pairs(none) == {};
    assert multiset(Pairs(none)) == multiset{};
  }

  lemma NoStamps<K(!new), V>(store: map<K, V>, stamp: V -> int)
    ensures Stamps(store, {}, stamp) == map[]
  {
  }

  lemma StampsNext<K(!new), V>(store: map<K, V>, keys: set<K>, stamp: V -> int, k: K)
    requires k in store && k !in keys
    ensures Stamps(store, keys + {k}, stamp) == Stamps(store, keys, stamp)[k := stamp(store[k])]
    ensures k !in Stamps(store, keys, stamp)
  {
  }

  lemma AllStamps<K(!new), V>(store: map<K, V>, stamp: V -> int)
    ensures |Stamps(store, store.Keys, stamp)| == |store|
  {
    assert Stamps(store, store.Keys, stamp).Keys == store.Keys;
  }

  lemma AppendedLeaf<K>(s: seq<(K, int)>, e: (K, int))
    requires IsHeap(s)
    ensures HeapAbove(s + [e], |s|)
  {
  }

  lemma ReplacedRoot<K>(s: seq<(K, int)>, e: (K, int))
    requires s != [] && IsHeap(s)
    ensures HeapBelow(s[0 := e], 0)
  {
  }

  lemma StillHolds<K(!new)>(s: seq<(K, int)>, t: seq<(K, int)>, chosen: map<K, int>)
    requires Holds(s, chosen) && multiset(t) == multiset(s)
    ensures Holds(t, chosen)
  {
  }

  lemma RootAbove<K(!new)>(s: seq<(K, int)>, chosen: map<K, int>)
    requires s != [] && IsHeap(s) && Holds(s, chosen)
    ensures forall j :: j in chosen ==> chosen[j] <= s[0].1
  {
    forall j | j in chosen
      ensures chosen[j] <= s[0].1
    {
      HoldsEntry(s, chosen, j);
      var i :| 0 <= i < |s| && s[i] == (j, chosen[j]);
      RootIsNewest(s, i);
    }
  }

  lemma KeptKeys<K(!new), V>(heap: seq<(K, int)>, chosen: map<K, int>, store: map<K, V>, kept: map<K, V>)
    requires Holds(heap, chosen)
    requires forall k :: k in kept <==> k in store && forall j :: 0 <= j < |heap| ==> heap[j].0 != k
    ensures forall k :: k in kept <==> k in store && k !in chosen
  {
    hide Holds;
    forall k
      ensures k in kept <==> k in store && k !in chosen
    {
      if k in chosen {
        HoldsEntry(heap, chosen, k);
      } else {
        forall j | 0 <= j < |heap|
          ensures heap[j].0 != k
        {
          HeldEntry(heap, chosen, j);
        }
      }
    }
  }

  lemma KeptAre<K(!new), V>(chosen: map<K, int>, store: map<K, V>, kept: map<K, V>, max: nat, stamp: V -> int)
    requires |store| > max && |chosen| == |store| - max
    requires Selects(chosen, Stamps(store, store.Keys, stamp), |chosen|)
    requires forall k :: k in kept <==> k in store && k !in chosen
    requires forall k :: k in kept ==> kept[k] == store[k]
    ensures Keeps(kept, store, max, stamp)
  {
    ItemsAre(chosen, Stamps(store, store.Keys, stamp));
    assert kept.Keys == store.Keys - chosen.Keys;
    assert chosen.Keys <= store.Keys;
    assert |store.Keys - chosen.Keys| == |store.Keys| - |chosen.Keys|;
  }
}
