/** The serializer of backend/src/json.rs and its round trip with the parser. */
module JsonPrinter {
  import opened Bytes
  import opened Utf8
  import opened Numerals
  import opened JsonValue
  import opened JsonGrammar
  import opened JsonParser
  import opened JsonCorrect
  import opened JsonSound

  /** What a character of a string is written as. */
  function Escape(c: Byte): Text {
    if c == '\"' then "\\\""
    else if c == '\\' then "\\\\"
    else if c == '\n' then "\\n"
    else if c == '\r' then "\\r"
    else if c == '\t' then "\\t"
    else if c == '\U{8}' then "\\b"
    else if c == '\U{C}' then "\\f"
    else if c < ' ' then "\\u" + ControlHex(c)
    else [c]
  }

  /** The four hexadecimal digits of a control character. */
  function ControlHex(c: Byte): Text
    requires c < ' '
  {
    ['0', '0', LowerHexDigit(c as int / 16), LowerHexDigit(c as int % 16)]
  }

  function Escaped(s: Text): Text {
    if s == [] then [] else Escape(s[0]) + Escaped(s[1..])
  }

  function Quoted(s: Text): Text {
    "\"" + (Escaped(s) + "\"")
  }

  /** `stringify`, for documents whose numbers are integers. */
  function Stringified(v: Json): Text
    requires Integral(v)
    decreases v
  {
    match v
    case Null => "null"
    case Bool(b) => if b then "true" else "false"
    case Num(n) => SignedDecimal(n.n)
    case Str(s) => Quoted(s)
    case Arr(items) => "[" + (JoinedItems(items, true) + "]")
    case Obj(entries) => "{" + (JoinedEntries(entries, true) + "}")
  }

  function JoinedItems(items: seq<Json>, first: bool): Text
    requires forall i :: 0 <= i < |items| ==> Integral(items[i])
    decreases items
  {
    if items == [] then []
    else (if first then "" else ",") + (Stringified(items[0]) + JoinedItems(items[1..], false))
  }

  function JoinedEntries(entries: seq<Entry>, first: bool): Text
    requires forall i :: 0 <= i < |entries| ==> Integral(entries[i].value)
    decreases entries
  {
    if entries == [] then []
    else (if first then "" else ",") + EntryText(entries[0], JoinedEntries(entries[1..], false))
  }

  /** One member, followed by `more`. */
  function EntryText(e: Entry, more: Text): Text
    requires Integral(e.value)
    decreases e
  {
    Quoted(e.key) + (":" + (Stringified(e.value) + more))
  }

  class Writer {
    var out: Text

    constructor ()
      ensures out == []
    {
      out := [];
    }

    method Push(t: Text)
      modifies this
      ensures out == old(out) + t
    {
      out := out + t;
    }

    /** `write_string`: one turn a character, which is one scalar of the text. */
    method WriteString(s: Text)
      requires IsUtf8(s)
      modifies this
      ensures out == old(out) + Quoted(s)
    {
      hide ScalarLen, Escape;
      ghost var goal := old(out) + Quoted(s);
      Push("\"");
      Assoc(old(out), "\"", Escaped(s) + "\"");
      var rest := s;
      while rest != []
        invariant IsUtf8(rest) && out + (Escaped(rest) + "\"") == goal
        decreases |rest|
      {
        var n := ScalarLen(rest);
        var piece := if n == 1 then Escape(rest[0]) else rest[..n];
        ScalarEscaped(rest);
        Shift(out, piece, Escaped(rest[n..]), "\"");
        Push(piece);
        rest := rest[n..];
      }
      NilLeft("\"");
      Push("\"");
    }

    method WriteValue(v: Json)
      requires Proper(v) && Integral(v)
      modifies this
      ensures out == old(out) + Stringified(v)
      decreases v
    {
      hide Quoted, JoinedItems, JoinedEntries, SignedDecimal;
      match v {
        case Null => Push("null");
        case Bool(b) => Push(if b then "true" else "false");
        case Num(n) => Push(SignedDecimal(n.n));
        case Str(s) => WriteString(s);
        case Arr(items) => WriteItems(items);
        case Obj(entries) => WriteEntries(entries);
      }
    }

    method WriteItems(items: seq<Json>)
      requires forall i :: 0 <= i < |items| ==> Proper(items[i]) && Integral(items[i])
      modifies this
      ensures out == old(out) + ("[" + (JoinedItems(items, true) + "]"))
      decreases items
    {
      hide Stringified, Proper, Integral;
      ghost var goal := old(out) + ("[" + (JoinedItems(items, true) + "]"));
      Push("[");
      Assoc(old(out), "[", JoinedItems(items, true) + "]");
      var idx := 0;
      while idx < |items|
        invariant 0 <= idx <= |items| && out + (JoinedItems(items[idx..], idx == 0) + "]") == goal
      {
        ghost var sep: Text := if idx == 0 then "" else ",";
        ghost var more := JoinedItems(items[idx + 1..], false);
        ghost var piece := Stringified(items[idx]);
        assert items[idx..][1..] == items[idx + 1..];
        Shift(out, sep, piece + more, "]");
        NilLeft(out);
        if idx > 0 {
          Push(",");
        }
        Shift(out, piece, more, "]");
        WriteValue(items[idx]);
        idx := idx + 1;
      }
      NilLeft("]");
      Push("]");
    }

    method WriteEntries(entries: seq<Entry>)
      requires forall i :: 0 <= i < |entries| ==>
        IsUtf8(entries[i].key) && Proper(entries[i].value) && Integral(entries[i].value)
      modifies this
      ensures out == old(out) + ("{" + (JoinedEntries(entries, true) + "}"))
      decreases entries
    {
      hide Stringified, Proper, Integral, Quoted, IsUtf8;
      ghost var goal := old(out) + ("{" + (JoinedEntries(entries, true) + "}"));
      Push("{");
      Assoc(old(out), "{", JoinedEntries(entries, true) + "}");
      var idx := 0;
      while idx < |entries|
        invariant 0 <= idx <= |entries| && out + (JoinedEntries(entries[idx..], idx == 0) + "}") == goal
      {
        ghost var sep: Text := if idx == 0 then "" else ",";
        ghost var more := JoinedEntries(entries[idx + 1..], false);
        ghost var k, v := Quoted(entries[idx].key), Stringified(entries[idx].value);
        assert entries[idx..][1..] == entries[idx + 1..];
        Shift(out, sep, k + (":" + (v + more)), "}");
        NilLeft(out);
        if idx > 0 {
          Push(",");
        }
        Shift(out, k, ":" + (v + more), "}");
        WriteString(entries[idx].key);
        Shift(out, ":", v + more, "}");
        Push(":");
        Shift(out, v, more, "}");
        WriteValue(entries[idx].value);
        idx := idx + 1;
      }
      NilLeft("}");
      Push("}");
    }
  }

  /** A scalar is escaped as a whole: only single bytes have an escape. */
  lemma ScalarEscaped(s: Text)
    requires ScalarLen(s) > 0
    ensures var n := ScalarLen(s);
      Escaped(s) == (if n == 1 then Escape(s[0]) else s[..n]) + Escaped(s[n..])
  {
    var n := ScalarLen(s);
    if n > 1 {
      PlainEscaped(s, n);
    }
  }

  lemma {:induction false} PlainEscaped(s: Text, n: nat)
    requires n <= |s| && forall i :: 0 <= i < n ==> s[i] >= '\U{80}'
    ensures Escaped(s) == s[..n] + Escaped(s[n..])
    decreases n
  {
    if n == 0 {
      assert s[..0] + Escaped(s) == Escaped(s);
    } else {
      PlainEscaped(s[1..], n - 1);
      assert s[1..][n - 1..] == s[n..];
      assert s[..n] == [s[0]] + s[1..][..n - 1];
      Assoc([s[0]], s[1..][..n - 1], Escaped(s[n..]));
    }
  }

  method Stringify(v: Json) returns (text: Text)
    requires Proper(v) && Integral(v)
    ensures text == Stringified(v)
  {
    var w := new Writer();
    w.WriteValue(v);
    text := w.out;
  }

  // ==== the tree of a printed document ====

  /** The code of the two-character escape of `c`, if it has one. */
  function ShortEscape(c: Byte): Option<Byte> {
    match c
    case '\"' => Some('\"')
    case '\\' => Some('\\')
    case '\n' => Some('n')
    case '\r' => Some('r')
    case '\t' => Some('t')
    case '\U{8}' => Some('b')
    case '\U{C}' => Some('f')
    case _ => None
  }

  function ChrOf(scalar: Text): Chr
    requires IsScalar(scalar)
  {
    if ShortEscape(scalar[0]).Some? then Esc(ShortEscape(scalar[0]).value)
    else if scalar[0] < ' ' then Uni(ControlHex(scalar[0]))
    else Raw(scalar)
  }

  function ChrsOf(s: Text): seq<Chr>
    requires IsUtf8(s)
  {
    if s == [] then []
    else
      ScalarAlone(s);
      [ChrOf(s[..ScalarLen(s)])] + ChrsOf(s[ScalarLen(s)..])
  }

  lemma ScalarAlone(s: Text)
    requires ScalarLen(s) > 0
    ensures IsScalar(s[..ScalarLen(s)])
  {
  }

  lemma ControlHexValue(c: Byte)
    requires c < ' '
    ensures IsHex(ControlHex(c)) && HexValue(ControlHex(c)) == c as int
  {
  }

  lemma ChrOfMeaning(t: Text)
    requires IsScalar(t)
    ensures IsChr(ChrOf(t)) && ChrDoc(ChrOf(t)) == if |t| == 1 then Escape(t[0]) else t
    ensures DenoteChrs([ChrOf(t)]) == t
  {
    hide HexValue, EncodeScalar;
    var c := ChrOf(t);
    assert DenoteChrs([]) == [];
    assert [c][1..] == [];
    if c.Uni? {
      ControlHexValue(t[0]);
      SmallScalar(t[0]);
    }
  }

  lemma SmallScalar(c: Byte)
    requires c < '\U{80}'
    ensures EncodeScalar(c as int) == [c]
  {
  }

  /** A printed string derives itself and denotes the string. */
  lemma {:induction false} ChrsOfMeaning(s: Text)
    requires IsUtf8(s)
    ensures AreChrs(ChrsOf(s)) && ChrsDoc(ChrsOf(s)) == Escaped(s) && DenoteChrs(ChrsOf(s)) == s
  {
    hide ScalarLen, HexValue, EncodeScalar, Pair, Escape, ChrOf, ChrDoc;
    if s != [] {
      var n := ScalarLen(s);
      var t, cs := s[..n], ChrsOf(s[n..]);
      ScalarAlone(s);
      ChrOfMeaning(t);
      ChrsOfMeaning(s[n..]);
      ScalarEscaped(s);
      ChrThen(ChrOf(t), cs);
      assert ChrsOf(s)[1..] == cs;
      assert s == t + s[n..];
      NoSurrogate(t);
    }
  }

  /** A printed character is never a surrogate, so it keeps its meaning before any text. */
  lemma NoSurrogate(t: Text)
    requires IsScalar(t)
    ensures ChrOf(t).Uni? ==> IsHex(ChrOf(t).hex) && !IsHigh(HexValue(ChrOf(t).hex))
    ensures forall cs :: AreChrs(cs) ==> DenoteChrs([ChrOf(t)] + cs) == t + DenoteChrs(cs)
  {
    ChrOfMeaning(t);
    if ChrOf(t).Uni? {
      ControlHexValue(t[0]);
    }
    forall cs | AreChrs(cs) ensures DenoteChrs([ChrOf(t)] + cs) == t + DenoteChrs(cs) {
      ChrThen(ChrOf(t), cs);
    }
  }

  lemma ChrThen(c: Chr, cs: seq<Chr>)
    requires IsChr(c) && AreChrs(cs)
    ensures AreChrs([c] + cs)
    ensures !(c.Uni? && IsHigh(HexValue(c.hex))) ==> DenoteChrs([c] + cs) == DenoteChrs([c]) + DenoteChrs(cs)
  {
    hide HexValue, EncodeScalar, Pair;
    var all := [c] + cs;
    assert all[1..] == cs && [c][1..] == [];
    assert DenoteChrs([]) == [];
  }

  function NumericOf(n: int): Numeric {
    Numeric(n < 0, Decimal(if n < 0 then -n else n), None, None)
  }

  lemma PrintedMagnitude(n: int)
    ensures Magnitude(SignedDecimal(n)) == Some(if n < 0 then -n else n) && (IsNegative(SignedDecimal(n)) <==> n < 0)
  {
    var m := if n < 0 then -n else n;
    DecimalShape(m);
    NumeralValue(m, 10);
    if n < 0 {
      assert ("-" + Decimal(m))[1..] == Decimal(m);
    }
  }

  /** A printed integer is a numeral of the grammar, and reads back as itself below 2^53. */
  lemma NumericOfMeaning(n: int)
    ensures IsNumeric(NumericOf(n)) && NumericDoc(NumericOf(n)) == SignedDecimal(n)
    ensures NumberOf(SignedDecimal(n)) == if -SAFE_INT < n < SAFE_INT then Int(n) else Other(SignedDecimal(n))
  {
    hide Magnitude, IsNegative;
    PrintedMagnitude(n);
    DecimalShape(if n < 0 then -n else n);
    NilLeft(Decimal(if n < 0 then -n else n));
  }

  function CstOf(v: Json): Cst
    requires Proper(v) && Integral(v)
    decreases v
  {
    match v
    case Null => CNull
    case Bool(b) => if b then CTrue else CFalse
    case Num(n) => CNum(NumericOf(n.n))
    case Str(s) => CStr(ChrsOf(s))
    case Arr(items) => if items == [] then CEmptyArr([]) else CArr(ItemsOf(items))
    case Obj(entries) => if entries == [] then CEmptyObj([]) else CObj(MembersOf(entries))
  }

  function ItemsOf(items: seq<Json>): Items
    requires items != [] && forall i :: 0 <= i < |items| ==> Proper(items[i]) && Integral(items[i])
    decreases items
  {
    if |items| == 1 then LastItem([], CstOf(items[0]), [])
    else ThenItem([], CstOf(items[0]), [], ItemsOf(items[1..]))
  }

  function MembersOf(entries: seq<Entry>): Members
    requires entries != [] && forall i :: 0 <= i < |entries| ==>
      IsUtf8(entries[i].key) && Proper(entries[i].value) && Integral(entries[i].value)
    decreases entries
  {
    var m := Member([], ChrsOf(entries[0].key), [], [], CstOf(entries[0].value), []);
    if |entries| == 1 then LastMember(m) else ThenMember(m, MembersOf(entries[1..]))
  }

  lemma {:induction false} CstOfMeaning(v: Json)
    requires Proper(v) && Integral(v)
    ensures IsCst(CstOf(v)) && Doc(CstOf(v)) == Stringified(v) && Denote(CstOf(v)) == v
    ensures CstDepth(CstOf(v)) == Depth(v)
    decreases v
  {
    match v
    case Null =>
    case Bool(b) =>
    case Num(n) => NumericOfMeaning(n.n);
    case Str(s) => ChrsOfMeaning(s);
    case Arr(items) =>
      if items != [] {
        ItemsOfMeaning(items);
      } else {
        assert JoinedItems(items, true) == [];
      }
    case Obj(entries) =>
      if entries != [] {
        MembersOfMeaning(entries, []);
        assert [] + entries == entries;
      } else {
        assert JoinedEntries(entries, true) == [];
      }
  }

  lemma {:induction false} ItemsOfMeaning(items: seq<Json>)
    requires items != [] && forall i :: 0 <= i < |items| ==> Proper(items[i]) && Integral(items[i])
    ensures AreItems(ItemsOf(items)) && DenoteItems(ItemsOf(items)) == items
    ensures ItemsDoc(ItemsOf(items)) == JoinedItems(items, true) + "]"
    ensures CstItemsDepth(ItemsOf(items)) == ItemsDepth(items)
    decreases items
  {
    hide Stringified, CstOf, Doc, IsCst, Denote, Proper, Integral, Depth, CstDepth;
    CstOfMeaning(items[0]);
    var d := Stringified(items[0]);
    if |items| > 1 {
      ItemsOfMeaning(items[1..]);
      ItemsOfText(items);
    } else {
      assert items[1..] == [];
      assert items == [items[0]];
      ItemText(d, [], "]");
      NilLeft("]");
    }
  }

  lemma LaterItems(items: seq<Json>)
    requires items != [] && forall i :: 0 <= i < |items| ==> Integral(items[i])
    ensures JoinedItems(items, false) == "," + JoinedItems(items, true)
  {
    hide Stringified, Integral;
    NilLeft(Stringified(items[0]) + JoinedItems(items[1..], false));
  }

  lemma ItemText(d: Text, more: Text, end: Text)
    ensures [] + (d + ([] + (more + end))) == ("" + (d + more)) + end
  {
    NilLeft(d + more);
    NilLeft(more + end);
    NilLeft(d + (more + end));
    Assoc(d, more, end);
  }

  lemma ItemsOfText(items: seq<Json>)
    requires |items| > 1 && forall i :: 0 <= i < |items| ==> Proper(items[i]) && Integral(items[i])
    requires ItemsDoc(ItemsOf(items[1..])) == JoinedItems(items[1..], true) + "]"
    requires Doc(CstOf(items[0])) == Stringified(items[0])
    ensures ItemsDoc(ItemsOf(items)) == JoinedItems(items, true) + "]"
  {
    hide Stringified, CstOf, Doc, Proper, Integral;
    var d, more := Stringified(items[0]), JoinedItems(items[1..], true);
    LaterItems(items[1..]);
    ItemText(d, "," + more, "]");
    Assoc(",", more, "]");
  }

  lemma {:induction false} MembersOfMeaning(entries: seq<Entry>, known: seq<Entry>)
    requires entries != [] && forall i :: 0 <= i < |entries| ==>
      IsUtf8(entries[i].key) && Proper(entries[i].value) && Integral(entries[i].value)
    requires Sorted(known + entries)
    ensures AreMembers(MembersOf(entries)) && DenoteMembers(MembersOf(entries), known) == known + entries
    ensures MembersDoc(MembersOf(entries)) == JoinedEntries(entries, true) + "}"
    ensures CstMembersDepth(MembersOf(entries)) == EntriesDepth(entries)
    decreases entries
  {
    hide Stringified, CstOf, Doc, IsCst, Denote, Proper, Integral, Depth, CstDepth, ChrsOf, DenoteChrs, Before;
    hide Insert, Quoted, IsUtf8, AreChrs;
    var e := entries[0];
    ChrsOfMeaning(e.key);
    CstOfMeaning(e.value);
    InsertNext(known, entries);
    if |entries| > 1 {
      assert (known + [e]) + entries[1..] == known + entries;
      MembersOfMeaning(entries[1..], known + [e]);
    } else {
      assert entries == [e] && entries[1..] == [];
    }
    MembersOfText(entries);
  }

  lemma InsertNext(known: seq<Entry>, entries: seq<Entry>)
    requires entries != [] && Sorted(known + entries)
    ensures Insert(known, entries[0].key, entries[0].value) == known + [entries[0]]
  {
    var all := known + entries;
    forall i | 0 <= i < |known| ensures Before(known[i].key, entries[0].key) {
      assert all[i] == known[i] && all[|known|] == entries[0];
    }
    InsertLast(known, entries[0].key, entries[0].value);
  }

  lemma LaterEntries(entries: seq<Entry>)
    requires entries != [] && forall i :: 0 <= i < |entries| ==> Integral(entries[i].value)
    ensures JoinedEntries(entries, false) == "," + JoinedEntries(entries, true)
  {
    hide EntryText, Integral;
    NilLeft(EntryText(entries[0], JoinedEntries(entries[1..], false)));
  }

  lemma MemberText(k: Text, d: Text, more: Text, end: Text)
    ensures [] + (k + ([] + (":" + ([] + (d + ([] + (more + end))))))) == ("" + (k + (":" + (d + more)))) + end
  {
    NilLeft(more + end);
    NilLeft(d + (more + end));
    NilLeft(":" + (d + (more + end)));
    NilLeft(k + (":" + (d + (more + end))));
    NilLeft(k + (":" + (d + more)));
    Assoc(d, more, end);
    Assoc(":", d + more, end);
    Assoc(k, ":" + (d + more), end);
  }

  lemma MembersOfText(entries: seq<Entry>)
    requires entries != [] && forall i :: 0 <= i < |entries| ==>
      IsUtf8(entries[i].key) && Proper(entries[i].value) && Integral(entries[i].value)
    requires ChrsDoc(ChrsOf(entries[0].key)) == Escaped(entries[0].key)
    requires Doc(CstOf(entries[0].value)) == Stringified(entries[0].value)
    requires |entries| > 1 ==> MembersDoc(MembersOf(entries[1..])) == JoinedEntries(entries[1..], true) + "}"
    ensures MembersDoc(MembersOf(entries)) == JoinedEntries(entries, true) + "}"
  {
    hide Stringified, CstOf, Doc, Proper, Integral, ChrsOf, Escaped, ChrsDoc, IsUtf8, StringDoc, Quoted, MembersDoc;
    hide MembersOf, JoinedEntries;
    StringDocIs(ChrsOf(entries[0].key), entries[0].key);
    if |entries| > 1 {
      MoreText(entries, Quoted(entries[0].key), Stringified(entries[0].value));
    } else {
      assert entries == [entries[0]];
      OneText(entries[0], Quoted(entries[0].key), Stringified(entries[0].value));
    }
  }

  lemma OneText(e: Entry, k: Text, d: Text)
    requires IsUtf8(e.key) && Proper(e.value) && Integral(e.value)
    requires StringDoc(ChrsOf(e.key)) == k == Quoted(e.key) && Doc(CstOf(e.value)) == d == Stringified(e.value)
    ensures MembersDoc(MembersOf([e])) == JoinedEntries([e], true) + "}"
  {
    hide Stringified, CstOf, Doc, Proper, Integral, ChrsOf, IsUtf8, StringDoc, Quoted;
    MemberText(k, d, [], "}");
    NilLeft("}");
    assert [e][1..] == [] && JoinedEntries([], false) == [];
  }

  lemma MoreText(entries: seq<Entry>, k: Text, d: Text)
    requires |entries| > 1 && forall i :: 0 <= i < |entries| ==>
      IsUtf8(entries[i].key) && Proper(entries[i].value) && Integral(entries[i].value)
    requires StringDoc(ChrsOf(entries[0].key)) == k == Quoted(entries[0].key)
    requires Doc(CstOf(entries[0].value)) == d == Stringified(entries[0].value)
    requires MembersDoc(MembersOf(entries[1..])) == JoinedEntries(entries[1..], true) + "}"
    ensures MembersDoc(MembersOf(entries)) == JoinedEntries(entries, true) + "}"
  {
    hide Stringified, CstOf, Doc, Proper, Integral, ChrsOf, IsUtf8, StringDoc, Quoted;
    var more := JoinedEntries(entries[1..], true);
    LaterEntries(entries[1..]);
    MemberText(k, d, "," + more, "}");
    Assoc(",", more, "}");
    assert JoinedEntries(entries, true) == "" + EntryText(entries[0], "," + more);
  }

  lemma StringDocIs(cs: seq<Chr>, s: Text)
    requires ChrsDoc(cs) == Escaped(s)
    ensures StringDoc(cs) == Quoted(s)
  {
  }

  // ==== round trips ====

  /** Parsing a printed document gives the document back exactly when nothing in it is nested
      more than 128 levels deep, and fails otherwise. */
  lemma RoundTrip(v: Json)
    requires Proper(v) && Integral(v)
    ensures Parsed(Stringified(v)) == Ok(v) <==> Depth(v) <= 128
    ensures Depth(v) > 128 ==> Parsed(Stringified(v)).Err?
  {
    hide Parsed;
    CstOfMeaning(v);
    var input := Stringified(v);
    assert input == [] + (Doc(CstOf(v)) + []);
    assert Derives(CstOf(v), [], [], input);
    DerivedParses(CstOf(v), [], [], input);
  }

  lemma {:induction false} DenoteDepth(c: Cst)
    requires IsCst(c)
    ensures Depth(Denote(c)) <= CstDepth(c)
    decreases c
  {
    match c
    case CArr(items) => DenoteItemsDepth(items);
    case CObj(ms) => DenoteMembersDepth(ms, []);
    case _ =>
  }

  lemma {:induction false} DenoteItemsDepth(items: Items)
    requires AreItems(items)
    ensures ItemsDepth(DenoteItems(items)) <= CstItemsDepth(items)
    decreases items
  {
    DenoteDepth(items.value);
    assert DenoteItems(items)[1..] == if items.ThenItem? then DenoteItems(items.rest) else [];
    if items.ThenItem? {
      DenoteItemsDepth(items.rest);
    }
  }

  lemma {:induction false} DenoteMembersDepth(ms: Members, known: seq<Entry>)
    requires AreMembers(ms)
    ensures EntriesDepth(DenoteMembers(ms, known)) <= Max(EntriesDepth(known), CstMembersDepth(ms))
    decreases ms
  {
    hide Depth, Denote, CstDepth, Insert, DenoteChrs;
    DenoteDepth(ms.m.value);
    InsertDepth(known, DenoteChrs(ms.m.key), Denote(ms.m.value));
    if ms.ThenMember? {
      DenoteMembersDepth(ms.tail, Insert(known, DenoteChrs(ms.m.key), Denote(ms.m.value)));
    }
  }

  lemma {:induction false} InsertDepth(es: seq<Entry>, k: Text, v: Json)
    ensures EntriesDepth(Insert(es, k, v)) <= Max(EntriesDepth(es), Depth(v))
  {
    hide Depth, Before;
    if es == [] || Before(k, es[0].key) {
      assert ([Entry(k, v)] + es)[1..] == es;
    } else if es[0].key == k {
      assert ([Entry(k, v)] + es[1..])[1..] == es[1..];
    } else {
      InsertDepth(es[1..], k, v);
      assert ([es[0]] + Insert(es[1..], k, v))[1..] == Insert(es[1..], k, v);
    }
  }

  /** Printing a parsed document is a fixed point of parsing and printing. */
  lemma PrintedIsCanonical(input: Text)
    requires Parsed(input).Ok? && Integral(Parsed(input).value)
    ensures Proper(Parsed(input).value) && Parsed(Stringified(Parsed(input).value)) == Parsed(input)
  {
    hide Parsed, Depth, Stringified;
    var v := Parsed(input).value;
    ParsedIsProper(input);
    ParseIsGrammar(input, v);
    var c, before, after :| Derives(c, before, after, input) && CstDepth(c) <= MAX_DEPTH && Denote(c) == v;
    DenoteDepth(c);
    RoundTrip(v);
  }
}
