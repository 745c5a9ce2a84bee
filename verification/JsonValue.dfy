/** JSON documents: `Json` and its `BTreeMap` objects, held as key-sorted entries. */
module JsonValue {
  import opened Bytes
  import opened Utf8

  /** Below 2^53 in magnitude every integer is one f64. Any other number is kept as the
      text it was read from; its rounding to an f64 is not modelled. */
  datatype Number = Int(n: int) | Other(lexeme: Text)

  datatype Entry = Entry(key: Text, value: Json)

  datatype Json =
    | Null
    | Bool(b: bool)
    | Num(n: Number)
    | Str(s: Text)
    | Arr(items: seq<Json>)
    | Obj(entries: seq<Entry>)

  const SAFE_INT: int := 0x20_0000_0000_0000

  /** Byte order of text, which is the order of `String` keys in a `BTreeMap`. */
  predicate Before(a: Text, b: Text) {
    b != [] && (a == [] || a[0] < b[0] || (a[0] == b[0] && Before(a[1..], b[1..])))
  }

  predicate Sorted(es: seq<Entry>) {
    forall i, j :: 0 <= i < j < |es| ==> Before(es[i].key, es[j].key)
  }

  /** `BTreeMap::get`. */
  function Lookup(es: seq<Entry>, k: Text): Option<Json> {
    if es == [] then None
    else if es[0].key == k then Some(es[0].value)
    else Lookup(es[1..], k)
  }

  /** `BTreeMap::insert`. */
  function Insert(es: seq<Entry>, k: Text, v: Json): (r: seq<Entry>) {
    if es == [] || Before(k, es[0].key) then [Entry(k, v)] + es
    else if es[0].key == k then [Entry(k, v)] + es[1..]
    else [es[0]] + Insert(es[1..], k, v)
  }

  /** `Json::as_obj` followed by `get`. */
  function Get(doc: Json, k: Text): Option<Json> {
    if doc.Obj? then Lookup(doc.entries, k) else None
  }

  function AsStr(v: Option<Json>): Option<Text> {
    if v.Some? && v.value.Str? then Some(v.value.s) else None
  }

  /** What Rust's types guarantee of every `Json`: strings are UTF-8 and maps are sorted. */
  predicate Proper(v: Json)
    decreases v
  {
    match v
    case Str(s) => IsUtf8(s)
    case Arr(items) => forall i :: 0 <= i < |items| ==> Proper(items[i])
    case Obj(entries) =>
      && Sorted(entries)
      && forall i :: 0 <= i < |entries| ==> IsUtf8(entries[i].key) && Proper(entries[i].value)
    case _ => true
  }

  /** Every number is an integer below 2^53 in magnitude. */
  predicate Integral(v: Json)
    decreases v
  {
    match v
    case Num(n) => n.Int? && -SAFE_INT < n.n < SAFE_INT
    case Arr(items) => forall i :: 0 <= i < |items| ==> Integral(items[i])
    case Obj(entries) => forall i :: 0 <= i < |entries| ==> Integral(entries[i].value)
    case _ => true
  }

  function Max(a: nat, b: nat): nat {
    if a < b then b else a
  }

  /** Levels of nesting below the top of `v`. */
  function Depth(v: Json): nat
    decreases v
  {
    match v
    case Arr(items) => if items == [] then 0 else 1 + ItemsDepth(items)
    case Obj(entries) => if entries == [] then 0 else 1 + EntriesDepth(entries)
    case _ => 0
  }

  function ItemsDepth(items: seq<Json>): nat
    decreases items
  {
    if items == [] then 0 else Max(Depth(items[0]), ItemsDepth(items[1..]))
  }

  function EntriesDepth(entries: seq<Entry>): nat
    decreases entries
  {
    if entries == [] then 0 else Max(Depth(entries[0].value), EntriesDepth(entries[1..]))
  }

  // ---- order ----

  lemma {:induction false} BeforeIrreflexive(a: Text)
    ensures !Before(a, a)
  {
    if a != [] {
      BeforeIrreflexive(a[1..]);
    }
  }

  lemma {:induction false} BeforeTransitive(a: Text, b: Text, c: Text)
    requires Before(a, b) && Before(b, c)
    ensures Before(a, c)
  {
    if a != [] && a[0] == b[0] && b[0] == c[0] {
      BeforeTransitive(a[1..], b[1..], c[1..]);
    }
  }

  lemma {:induction false} BeforeTotal(a: Text, b: Text)
    ensures a == b || Before(a, b) || Before(b, a)
  {
    if a != [] && b != [] && a[0] == b[0] {
      BeforeTotal(a[1..], b[1..]);
      if a[1..] == b[1..] {
        assert a == [a[0]] + a[1..];
      }
    }
  }

  // ---- maps ----

  /** `Insert` adds one entry and keeps only old ones. */
  lemma {:induction false} InsertEntries(es: seq<Entry>, k: Text, v: Json)
    ensures forall j :: 0 <= j < |Insert(es, k, v)| ==>
      Insert(es, k, v)[j] == Entry(k, v) || exists i :: 0 <= i < |es| && es[i] == Insert(es, k, v)[j]
  {
    var r := Insert(es, k, v);
    if es == [] || Before(k, es[0].key) || es[0].key == k {
    } else {
      InsertEntries(es[1..], k, v);
      forall j | 0 <= j < |r| ensures r[j] == Entry(k, v) || exists i :: 0 <= i < |es| && es[i] == r[j] {
        if j == 0 {
          assert es[0] == r[0];
        } else if r[j] != Entry(k, v) {
          var i :| 0 <= i < |es[1..]| && es[1..][i] == Insert(es[1..], k, v)[j - 1];
          assert es[i + 1] == r[j];
        }
      }
    }
  }

  lemma {:induction false} InsertSorted(es: seq<Entry>, k: Text, v: Json)
    requires Sorted(es)
    ensures Sorted(Insert(es, k, v))
  {
    hide Before;
    if es == [] {
    } else if Before(k, es[0].key) {
      forall j | 0 <= j < |es| ensures Before(k, es[j].key) {
        if j > 0 {
          BeforeTransitive(k, es[0].key, es[j].key);
        }
      }
      ConsSorted(Entry(k, v), es);
    } else if es[0].key == k {
      ConsSorted(Entry(k, v), es[1..]);
    } else {
      BeforeTotal(k, es[0].key);
      InsertSorted(es[1..], k, v);
      InsertEntries(es[1..], k, v);
      ConsSorted(es[0], Insert(es[1..], k, v));
    }
  }

  lemma ConsSorted(e: Entry, es: seq<Entry>)
    requires Sorted(es) && forall j :: 0 <= j < |es| ==> Before(e.key, es[j].key)
    ensures Sorted([e] + es)
  {
    hide Before;
  }

  /** A map answers the last value inserted under a key, and others are untouched. */
  lemma {:induction false} InsertLookup(es: seq<Entry>, k: Text, v: Json, q: Text)
    requires Sorted(es)
    ensures Lookup(Insert(es, k, v), q) == if q == k then Some(v) else Lookup(es, q)
  {
    if es == [] || Before(k, es[0].key) || es[0].key == k {
    } else {
      InsertLookup(es[1..], k, v, q);
    }
  }

  /** A key after all others goes to the end. */
  lemma {:induction false} InsertLast(es: seq<Entry>, k: Text, v: Json)
    requires forall i :: 0 <= i < |es| ==> Before(es[i].key, k)
    ensures Insert(es, k, v) == es + [Entry(k, v)]
  {
    if es != [] {
      BeforeIrreflexive(k);
      if Before(k, es[0].key) {
        BeforeTransitive(k, es[0].key, k);
        assert false;
      }
      InsertLast(es[1..], k, v);
    }
  }
}
