/** The parser accepts the grammar and nothing else: a document parses to a value exactly when
    some syntax tree of depth at most 128 derives it and denotes that value. */
module JsonCorrect {
  import opened Bytes
  import opened Utf8
  import opened Numerals
  import opened JsonValue
  import opened JsonGrammar
  import opened JsonParser

  // ==== completeness: what a tree derives is parsed ====

  /** What may come after a value. */
  predicate Follows(rest: Text) {
    rest == [] || IsWsByte(rest[0]) || rest[0] == ',' || rest[0] == ']' || rest[0] == '}'
  }

  lemma {:induction false} SkipWsOver(w: Text, s: Text)
    requires IsWs(w) && (s == [] || !IsWsByte(s[0]))
    ensures SkipWs(w + s) == s
  {
    if w == [] {
      assert w + s == s;
    } else {
      assert (w + s)[1..] == w[1..] + s;
      SkipWsOver(w[1..], s);
    }
  }

  lemma {:induction false} SkipWsTwice(s: Text)
    ensures SkipWs(SkipWs(s)) == SkipWs(s)
  {
    if s != [] && IsWsByte(s[0]) {
      SkipWsTwice(s[1..]);
    }
  }

  lemma {:induction false} DigitRunOver(d: Text, s: Text)
    requires AllDigits(d) && (s == [] || !IsDigit(s[0]))
    ensures DigitRun(d + s) == |d|
  {
    if d == [] {
      assert d + s == s;
    } else {
      assert (d + s)[1..] == d[1..] + s;
      DigitRunOver(d[1..], s);
    }
  }

  // ---- strings ----

  lemma RawStep(t: Text, tail: Text, out: Text)
    requires IsScalar(t) && t[0] >= ' ' && t[0] != '\"' && t[0] != '\\'
    ensures ParseChars(t + tail, out) == ParseChars(tail, out + t)
  {
    var s := t + tail;
    assert s[..|t|] == t && s[|t|..] == tail;
    ScalarIsUtf8(t);
    assert Utf8Len(s[0]) == |t|;
  }

  lemma EscStep(code: Byte, tail: Text, out: Text)
    requires EscapeValue(code).Some?
    ensures ParseChars(['\\', code] + tail, out) == ParseChars(tail, out + [EscapeValue(code).value])
  {
    hide UnicodeEscape, ScalarLen, IsUtf8, Utf8Len;
    assert (['\\', code] + tail)[2..] == tail;
  }

  lemma Hex4Over(hex: Text, tail: Text)
    requires |hex| == 4 && IsHex(hex)
    ensures Hex4(hex + tail) == Done(HexValue(hex), tail)
  {
    assert (hex + tail)[..4] == hex && (hex + tail)[4..] == tail;
  }

  lemma UniStep(hex: Text, tail: Text, out: Text, piece: Text, after: Text)
    requires |hex| == 4 && UnicodeEscape(hex + tail) == Done(piece, after)
    ensures ParseChars(("\\u" + hex) + tail, out) == ParseChars(after, out + piece)
  {
    var s := ("\\u" + hex) + tail;
    assert s[2..] == hex + tail;
  }

  /** Text after a high surrogate that does not complete a pair. */
  lemma LoneHigh(hex: Text, cs: seq<Chr>, end: Text)
    requires |hex| == 4 && IsHex(hex) && IsHigh(HexValue(hex)) && AreChrs(cs)
    requires cs != [] && cs[0].Uni? ==> !IsLow(HexValue(cs[0].hex))
    requires end != [] && end[0] == '\"'
    ensures UnicodeEscape(hex + (ChrsDoc(cs) + end)) == Done(REPLACEMENT, ChrsDoc(cs) + end)
  {
    hide HexValue, EncodeScalar, Pair, ScalarLen, IsUtf8;
    var tail := ChrsDoc(cs) + end;
    Hex4Over(hex, tail);
    if cs != [] {
      var more := ChrsDoc(cs[1..]) + end;
      Assoc(ChrDoc(cs[0]), ChrsDoc(cs[1..]), end);
      ChrHead(cs[0], more);
      if cs[0].Uni? {
        Hex4Over(cs[0].hex, more);
      }
    }
  }

  /** Only a `\u` escape starts with a backslash and a 'u'. */
  lemma ChrHead(c: Chr, tail: Text)
    requires IsChr(c)
    ensures var t := ChrDoc(c) + tail;
      if c.Uni? then |t| >= 2 && t[0] == '\\' && t[1] == 'u' && t[2..] == c.hex + tail
      else |t| >= 1 && !(t[0] == '\\' && |t| >= 2 && t[1] == 'u')
  {
  }

  lemma PairedHigh(hex: Text, low: Text, tail: Text)
    requires |hex| == 4 && IsHex(hex) && IsHigh(HexValue(hex))
    requires |low| == 4 && IsHex(low) && IsLow(HexValue(low))
    ensures UnicodeEscape(hex + (("\\u" + low) + tail)) == Done(EncodeScalar(Pair(HexValue(hex), HexValue(low))), tail)
  {
    hide EncodeScalar, Pair, HexValue;
    var rest := ("\\u" + low) + tail;
    Hex4Over(hex, rest);
    Hex4Over(low, tail);
    assert rest[2..] == low + tail;
  }

  lemma {:induction false} CharsComplete(cs: seq<Chr>, rest: Text, out: Text)
    requires AreChrs(cs)
    ensures ParseChars(ChrsDoc(cs) + ("\"" + rest), out) == Done(out + DenoteChrs(cs), rest)
    decreases |cs|
  {
    hide EncodeScalar, Pair, HexValue, UnicodeEscape, IsUtf8, ScalarLen;
    var end := "\"" + rest;
    if cs == [] {
      assert ChrsDoc(cs) + end == end && end[1..] == rest && out + [] == out;
    } else {
      var tail := ChrsDoc(cs[1..]) + end;
      Assoc(ChrDoc(cs[0]), ChrsDoc(cs[1..]), end);
      match cs[0]
      case Raw(t) =>
        RawStep(t, tail, out);
        CharsComplete(cs[1..], rest, out + t);
        Assoc(out, t, DenoteChrs(cs[1..]));
      case Esc(code) =>
        var t := [EscapeValue(code).value];
        EscStep(code, tail, out);
        CharsComplete(cs[1..], rest, out + t);
        Assoc(out, t, DenoteChrs(cs[1..]));
      case Uni(hex) =>
        UniComplete(cs, rest, out);
    }
  }

  lemma {:induction false} UniComplete(cs: seq<Chr>, rest: Text, out: Text)
    requires AreChrs(cs) && cs != [] && cs[0].Uni?
    ensures ParseChars(ChrsDoc(cs) + ("\"" + rest), out) == Done(out + DenoteChrs(cs), rest)
    decreases |cs|, 0
  {
    hide EncodeScalar, Pair, HexValue, UnicodeEscape, IsUtf8, ScalarLen, ParseChars;
    var hex, end := cs[0].hex, "\"" + rest;
    var tail := ChrsDoc(cs[1..]) + end;
    Assoc(ChrDoc(cs[0]), ChrsDoc(cs[1..]), end);
    var u := HexValue(hex);
    if IsHigh(u) && |cs| > 1 && cs[1].Uni? && IsLow(HexValue(cs[1].hex)) {
      var tail2 := ChrsDoc(cs[2..]) + end;
      assert cs[1..][1..] == cs[2..];
      Assoc(ChrDoc(cs[1]), ChrsDoc(cs[2..]), end);
      var t := EncodeScalar(Pair(u, HexValue(cs[1].hex)));
      PairedHigh(hex, cs[1].hex, tail2);
      UniStep(hex, tail, out, t, tail2);
      CharsComplete(cs[2..], rest, out + t);
      Assoc(out, t, DenoteChrs(cs[2..]));
    } else {
      var t := if IsHigh(u) || IsLow(u) then REPLACEMENT else EncodeScalar(u);
      if IsHigh(u) {
        LoneHigh(hex, cs[1..], end);
      } else {
        SingleUnit(hex, tail);
      }
      UniStep(hex, tail, out, t, tail);
      CharsComplete(cs[1..], rest, out + t);
      Assoc(out, t, DenoteChrs(cs[1..]));
    }
  }

  lemma SingleUnit(hex: Text, tail: Text)
    requires |hex| == 4 && IsHex(hex) && !IsHigh(HexValue(hex))
    ensures UnicodeEscape(hex + tail)
         == Done(if IsLow(HexValue(hex)) then REPLACEMENT else EncodeScalar(HexValue(hex)), tail)
  {
    Hex4Over(hex, tail);
  }

  lemma StringComplete(cs: seq<Chr>, rest: Text)
    requires AreChrs(cs)
    ensures StringDoc(cs) + rest != [] && (StringDoc(cs) + rest)[0] == '\"'
    ensures ParseString(StringDoc(cs) + rest) == Done(DenoteChrs(cs), rest)
  {
    hide ParseChars, DenoteChrs, ChrsDoc;
    CharsComplete(cs, rest, []);
    assert (StringDoc(cs) + rest)[1..] == ChrsDoc(cs) + ("\"" + rest);
    assert [] + DenoteChrs(cs) == DenoteChrs(cs);
  }

  // ---- numbers ----

  lemma WholeComplete(whole: Text, s: Text)
    requires IsDigits(whole) && (whole[0] == '0' ==> |whole| == 1)
    requires s == [] || !IsDigit(s[0])
    ensures SkipWhole(whole + s) == Done((), s)
  {
    DigitRunOver(whole, s);
    assert (whole + s)[|whole|..] == s;
  }

  lemma FracComplete(frac: Option<Text>, s: Text)
    requires frac.Some? ==> IsDigits(frac.value)
    requires s == [] || (!IsDigit(s[0]) && s[0] != '.')
    ensures SkipFrac(FracDoc(frac) + s) == Done((), s)
  {
    if frac.Some? {
      hide DigitRun;
      AfterFirst('.', frac.value, s);
      DigitRunOver(frac.value, s);
      Parts(frac.value, s);
      Parts("." + frac.value, s);
    } else {
      NilLeft(s);
    }
  }

  lemma ExpComplete(n: Numeric, s: Text)
    requires IsNumeric(n)
    requires s == [] || (!IsDigit(s[0]) && s[0] != 'e' && s[0] != 'E')
    ensures SkipExp(ExpDoc(n.exp) + s) == Done((), s)
  {
    if n.exp.Some? {
      var x := n.exp.value;
      AfterFirst(x.e, x.sign + x.digits, s);
      Assoc(x.sign, x.digits, s);
      SignComplete(x.sign, x.digits + s);
      DigitRunOver(x.digits, s);
      assert (x.digits + s)[|x.digits|..] == s;
    } else {
      assert ExpDoc(n.exp) + s == s;
    }
  }

  lemma SignComplete(sign: Text, s: Text)
    requires sign == "" || sign == "+" || sign == "-"
    requires s != [] && IsDigit(s[0])
    ensures SkipSign(sign + s) == s
  {
    assert (sign + s)[|sign|..] == s;
  }

  lemma UnsignedComplete(n: Numeric, rest: Text)
    requires IsNumeric(n) && Follows(rest)
    ensures SkipUnsigned(n.whole + (FracDoc(n.frac) + (ExpDoc(n.exp) + rest))) == Done((), rest)
  {
    hide SkipWhole, SkipFrac, SkipExp, FracDoc, ExpDoc;
    NumberHeads(n, rest);
    WholeComplete(n.whole, FracDoc(n.frac) + (ExpDoc(n.exp) + rest));
    FracComplete(n.frac, ExpDoc(n.exp) + rest);
    ExpComplete(n, rest);
  }

  lemma UnsignedText(n: Numeric, rest: Text)
    ensures NumericDoc(n) + rest ==
      (if n.minus then "-" else "") + (n.whole + (FracDoc(n.frac) + (ExpDoc(n.exp) + rest)))
  {
    hide FracDoc, ExpDoc;
    Assoc(FracDoc(n.frac), ExpDoc(n.exp), rest);
    Assoc(n.whole, FracDoc(n.frac) + ExpDoc(n.exp), rest);
    Assoc(if n.minus then "-" else "", n.whole + (FracDoc(n.frac) + ExpDoc(n.exp)), rest);
  }

  lemma NumberComplete(n: Numeric, rest: Text)
    requires IsNumeric(n) && Follows(rest)
    ensures ParseNumber(NumericDoc(n) + rest) == Done(Num(NumberOf(NumericDoc(n))), rest)
  {
    hide NumberOf, SkipUnsigned, FracDoc, ExpDoc, NumericDoc, Follows;
    var s := NumericDoc(n) + rest;
    UnsignedText(n, rest);
    UnsignedComplete(n, rest);
    assert n.whole[0] != '-';
    assert n.whole + (FracDoc(n.frac) + (ExpDoc(n.exp) + rest)) == if s[0] == '-' then s[1..] else s;
    Parts(NumericDoc(n), rest);
    assert |s| - |rest| == |NumericDoc(n)|;
  }

  lemma NumberHeads(n: Numeric, rest: Text)
    requires IsNumeric(n) && Follows(rest)
    ensures var s := ExpDoc(n.exp) + rest; s == [] || (!IsDigit(s[0]) && s[0] != '.')
    ensures var s := FracDoc(n.frac) + (ExpDoc(n.exp) + rest); s == [] || !IsDigit(s[0])
  {
  }

  // ---- values ----

  /** The first character of a value tells its kind. */
  predicate Starts(c: Cst, h: Byte) {
    match c
    case CNull => h == 'n'
    case CTrue => h == 't'
    case CFalse => h == 'f'
    case CNum(_) => h == '-' || IsDigit(h)
    case CStr(_) => h == '\"'
    case CEmptyArr(_) => h == '['
    case CArr(_) => h == '['
    case CEmptyObj(_) => h == '{'
    case CObj(_) => h == '{'
  }

  lemma DocHead(c: Cst, rest: Text)
    requires IsCst(c)
    ensures Doc(c) != [] && Starts(c, Doc(c)[0]) && (Doc(c) + rest)[0] == Doc(c)[0]
  {
  }

  /** `p` is `done` for text nested within the limit, and an error otherwise. */
  predicate Limited(p: Parse<Json>, levels: nat, v: Json, rest: Text) {
    if levels <= MAX_DEPTH then p == Done(v, rest) else p.Bad?
  }

  lemma LitComplete(word: Text, v: Json, rest: Text)
    ensures ParseLit(word + rest, word, v) == Done(v, rest)
  {
    assert (word + rest)[..|word|] == word && (word + rest)[|word|..] == rest;
  }

  /** Values without parts, and empty ones. */
  lemma LeafComplete(c: Cst, rest: Text, depth: nat)
    requires IsCst(c) && Follows(rest) && !c.CArr? && !c.CObj? && depth <= MAX_DEPTH
    ensures ParseValue(Doc(c) + rest, depth) == Done(Denote(c), rest)
  {
    hide ParseNumber, ParseString, DenoteChrs, NumberOf, ParseArray, ParseObject, SkipWs, NumericDoc, StringDoc;
    match c
    case CNull => LitComplete("null", Null, rest);
    case CTrue => LitComplete("true", Bool(true), rest);
    case CFalse => LitComplete("false", Bool(false), rest);
    case CNum(n) =>
      DocHead(c, rest);
      NumberComplete(n, rest);
    case CStr(cs) => StringComplete(cs, rest);
    case CEmptyArr(ws) => EmptyArrComplete(ws, rest, depth);
    case CEmptyObj(ws) => EmptyObjComplete(ws, rest, depth);
  }

  lemma EmptyArrComplete(ws: Text, rest: Text, depth: nat)
    requires IsWs(ws) && depth <= MAX_DEPTH
    ensures ParseValue(Doc(CEmptyArr(ws)) + rest, depth) == Done(Arr([]), rest)
  {
    hide ParseItems, SkipWs, IsWs;
    EmptyText(ws, '[', "]", rest);
    SkipWsOver(ws, "]" + rest);
  }

  lemma EmptyObjComplete(ws: Text, rest: Text, depth: nat)
    requires IsWs(ws) && depth <= MAX_DEPTH
    ensures ParseValue(Doc(CEmptyObj(ws)) + rest, depth) == Done(Obj([]), rest)
  {
    hide ParseMembers, SkipWs, IsWs;
    EmptyText(ws, '{', "}", rest);
    SkipWsOver(ws, "}" + rest);
  }

  lemma EmptyText(ws: Text, open: Byte, end: Text, rest: Text)
    ensures var s := ([open] + (ws + end)) + rest; s != [] && s[0] == open && s[1..] == ws + (end + rest)
  {
  }

  lemma {:induction false} ValueComplete(c: Cst, rest: Text, depth: nat)
    requires IsCst(c) && Follows(rest)
    ensures Limited(ParseValue(Doc(c) + rest, depth), depth + CstDepth(c), Denote(c), rest)
    decreases c, 1
  {
    hide SkipWs, ParseValue, ParseArray, ParseObject, Doc, ItemsDoc, MembersDoc, DenoteItems, DenoteMembers, Follows;
    if depth > MAX_DEPTH {
      TooDeep(Doc(c) + rest, depth);
    } else {
      match c
      case CArr(items) =>
        OpensArray(items, rest, depth);
        ArrayComplete(items, rest, depth);
      case CObj(members) =>
        OpensObject(members, rest, depth);
        ObjectComplete(members, rest, depth);
      case _ =>
        LeafComplete(c, rest, depth);
    }
  }

  lemma TooDeep(s: Text, depth: nat)
    requires depth > MAX_DEPTH
    ensures ParseValue(s, depth).Bad?
  {
  }

  lemma OpensArray(items: Items, rest: Text, depth: nat)
    requires depth <= MAX_DEPTH
    ensures ParseValue(Doc(CArr(items)) + rest, depth) == ParseArray(SkipWs(ItemsDoc(items) + rest), depth)
  {
    hide SkipWs, ParseArray, ItemsDoc;
    AfterFirst('[', ItemsDoc(items), rest);
  }

  lemma OpensObject(ms: Members, rest: Text, depth: nat)
    requires depth <= MAX_DEPTH
    ensures ParseValue(Doc(CObj(ms)) + rest, depth) == ParseObject(SkipWs(MembersDoc(ms) + rest), depth)
  {
    hide SkipWs, ParseObject, MembersDoc;
    AfterFirst('{', MembersDoc(ms), rest);
  }

  /** The text after the first item's value. */
  function ItemTail(items: Items, rest: Text): Text {
    items.after + ItemEnd(items, rest)
  }

  function ItemEnd(items: Items, rest: Text): Text {
    (if items.ThenItem? then "," + ItemsDoc(items.rest) else "]") + rest
  }

  lemma ItemsSplit(items: Items, rest: Text)
    ensures ItemsDoc(items) + rest == items.before + (Doc(items.value) + ItemTail(items, rest))
  {
    hide Doc;
    var end := if items.ThenItem? then "," + ItemsDoc(items.rest) else "]";
    Assoc(items.after, end, rest);
    Assoc(Doc(items.value), items.after + end, rest);
    Assoc(items.before, Doc(items.value) + (items.after + end), rest);
  }

  lemma ItemTailFollows(items: Items, rest: Text)
    requires AreItems(items)
    ensures Follows(ItemTail(items, rest)) && SkipWs(ItemTail(items, rest)) == ItemEnd(items, rest)
  {
    hide SkipWs;
    SkipWsOver(items.after, ItemEnd(items, rest));
  }

  lemma ItemStart(items: Items, rest: Text)
    requires AreItems(items)
    ensures SkipWs(ItemsDoc(items) + rest) == Doc(items.value) + ItemTail(items, rest)
    ensures Doc(items.value) != [] && Doc(items.value)[0] != ']'
  {
    hide SkipWs, Doc, ItemTail;
    ItemsSplit(items, rest);
    DocHead(items.value, ItemTail(items, rest));
    SkipWsOver(items.before, Doc(items.value) + ItemTail(items, rest));
  }

  lemma FirstKept(a: Text, b: Text)
    requires a != []
    ensures a + b != [] && (a + b)[0] == a[0]
  {
  }

  lemma ArrayIsItems(s: Text, depth: nat)
    requires s == [] || s[0] != ']'
    ensures ParseArray(s, depth) == ParseItems(s, depth, [])
  {
    hide ParseItems;
  }

  lemma ObjectIsMembers(s: Text, depth: nat)
    requires s == [] || s[0] != '}'
    ensures ParseObject(s, depth) == ParseMembers(s, depth, [])
  {
    hide ParseMembers;
  }

  lemma ObjectIsEmpty(s: Text, depth: nat)
    requires s != [] && s[0] == '}'
    ensures ParseObject(s, depth) == Done(Obj([]), s[1..])
  {
    hide ParseMembers;
  }

  lemma ArrayIsEmpty(s: Text, depth: nat)
    requires s != [] && s[0] == ']'
    ensures ParseArray(s, depth) == Done(Arr([]), s[1..])
  {
    hide ParseItems;
  }

  lemma {:induction false} ArrayComplete(items: Items, rest: Text, depth: nat)
    requires AreItems(items)
    ensures Limited(ParseArray(SkipWs(ItemsDoc(items) + rest), depth), depth + 1 + CstItemsDepth(items),
                    Arr(DenoteItems(items)), rest)
    decreases items, 2
  {
    hide ParseValue, SkipWs, ItemsDoc, Doc, ItemTail, AreItems, Denote, DenoteItems, CstItemsDepth, ParseItems;
    hide ParseArray;
    var s := SkipWs(ItemsDoc(items) + rest);
    ItemStart(items, rest);
    FirstKept(Doc(items.value), ItemTail(items, rest));
    ArrayIsItems(s, depth);
    SkipWsTwice(ItemsDoc(items) + rest);
    ItemsComplete(items, rest, s, depth, []);
    assert [] + DenoteItems(items) == DenoteItems(items);
  }

  /** One turn of the array loop. */
  lemma ItemsStep(s: Text, depth: nat, out: seq<Json>, v: Json, after: Text)
    requires ParseValue(SkipWs(s), depth + 1) == Done(v, after)
    ensures var t := SkipWs(after);
      && (t != [] && t[0] == ',' ==> ParseItems(s, depth, out) == ParseItems(t[1..], depth, out + [v]))
      && (t != [] && t[0] == ']' ==> ParseItems(s, depth, out) == Done(Arr(out + [v]), t[1..]))
  {
    hide ParseValue, SkipWs;
  }

  lemma ItemsBad(s: Text, depth: nat, out: seq<Json>)
    requires ParseValue(SkipWs(s), depth + 1).Bad?
    ensures ParseItems(s, depth, out).Bad?
  {
    hide ParseValue, SkipWs;
  }

  lemma ItemsUnfold(items: Items)
    requires AreItems(items)
    ensures IsCst(items.value) && (items.ThenItem? ==> AreItems(items.rest))
    ensures DenoteItems(items) == [Denote(items.value)] + if items.ThenItem? then DenoteItems(items.rest) else []
    ensures CstItemsDepth(items) == Max(CstDepth(items.value), if items.ThenItem? then CstItemsDepth(items.rest) else 0)
  {
    hide IsCst, Denote, CstDepth, IsWs;
  }

  lemma {:induction false} ItemsComplete(items: Items, rest: Text, s: Text, depth: nat, out: seq<Json>)
    requires AreItems(items) && SkipWs(s) == Doc(items.value) + ItemTail(items, rest)
    ensures Limited(ParseItems(s, depth, out), depth + 1 + CstItemsDepth(items), Arr(out + DenoteItems(items)), rest)
    decreases items, 1
  {
    hide ParseValue, ParseItems, SkipWs, Doc, ItemsDoc, ItemTail, Denote, CstDepth, IsWs, Follows, AreItems;
    hide DenoteItems, CstItemsDepth;
    ItemsUnfold(items);
    var end, v := ItemEnd(items, rest), Denote(items.value);
    ItemStart(items, rest);
    ItemTailFollows(items, rest);
    ValueComplete(items.value, ItemTail(items, rest), depth + 1);
    if depth + 1 + CstDepth(items.value) > MAX_DEPTH {
      ItemsBad(s, depth, out);
    } else {
      ItemsStep(s, depth, out, v, ItemTail(items, rest));
      if items.ThenItem? {
        AfterFirst(',', ItemsDoc(items.rest), rest);
        ItemStart(items.rest, rest);
        ItemsComplete(items.rest, rest, end[1..], depth, out + [v]);
        assert (out + [v]) + DenoteItems(items.rest) == out + DenoteItems(items);
      } else {
        assert end[0] == ']' && end[1..] == rest;
        assert out + [v] == out + DenoteItems(items);
      }
    }
  }

  lemma {:induction false} ObjectComplete(ms: Members, rest: Text, depth: nat)
    requires AreMembers(ms)
    ensures Limited(ParseObject(SkipWs(MembersDoc(ms) + rest), depth), depth + 1 + CstMembersDepth(ms),
                    Obj(DenoteMembers(ms, [])), rest)
    decreases ms, 2
  {
    hide ParseValue, SkipWs, ParseKey, ParseMembers, MembersDoc, KeyTail, StringDoc, IsCst, DenoteMembers;
    var s := MembersDoc(ms) + rest;
    MembersSplit(ms, rest);
    StringComplete(ms.m.key, KeyTail(ms, rest));
    SkipWsOver(ms.m.before, StringDoc(ms.m.key) + KeyTail(ms, rest));
    SkipWsTwice(s);
    MembersComplete(ms, rest, SkipWs(s), depth, []);
  }

  /** The text after the first key. */
  function KeyTail(ms: Members, rest: Text): Text {
    ms.m.beforeColon + (":" + (ms.m.afterColon + (Doc(ms.m.value) + ValueTail(ms, rest))))
  }

  /** The text after the first member's value. */
  function ValueTail(ms: Members, rest: Text): Text {
    ms.m.after + MemberEnd(ms, rest)
  }

  function MemberEnd(ms: Members, rest: Text): Text {
    (if ms.ThenMember? then "," + MembersDoc(ms.tail) else "}") + rest
  }

  lemma MembersSplit(ms: Members, rest: Text)
    ensures MembersDoc(ms) + rest == ms.m.before + (StringDoc(ms.m.key) + KeyTail(ms, rest))
  {
    hide StringDoc, Doc;
    var m := ms.m;
    var end := if ms.ThenMember? then "," + MembersDoc(ms.tail) else "}";
    var t1 := m.after + end;
    var t2 := Doc(m.value) + t1;
    var t3 := m.afterColon + t2;
    var t4 := ":" + t3;
    var t5 := m.beforeColon + t4;
    assert t1 + rest == ValueTail(ms, rest);
    assert t2 + rest == Doc(m.value) + (t1 + rest);
    assert t3 + rest == m.afterColon + (t2 + rest);
    assert t4 + rest == ":" + (t3 + rest);
    assert t5 + rest == m.beforeColon + (t4 + rest);
    assert (m.before + (StringDoc(m.key) + t5)) + rest == m.before + (StringDoc(m.key) + (t5 + rest));
  }

  lemma ValueTailFollows(ms: Members, rest: Text)
    requires AreMembers(ms)
    ensures Follows(ValueTail(ms, rest)) && SkipWs(ValueTail(ms, rest)) == MemberEnd(ms, rest)
  {
    hide SkipWs;
    SkipWsOver(ms.m.after, MemberEnd(ms, rest));
  }

  lemma KeyComplete(ms: Members, rest: Text)
    requires AreMembers(ms)
    ensures ParseKey(SkipWs(MembersDoc(ms) + rest))
         == Done(DenoteChrs(ms.m.key), Doc(ms.m.value) + ValueTail(ms, rest))
  {
    hide ParseString, DenoteChrs, StringDoc, SkipWs, ValueTail, Doc, Starts, KeyTail;
    MembersSplit(ms, rest);
    StringComplete(ms.m.key, KeyTail(ms, rest));
    SkipWsOver(ms.m.before, StringDoc(ms.m.key) + KeyTail(ms, rest));
    ColonComplete(ms, rest);
  }

  lemma ColonComplete(ms: Members, rest: Text)
    requires AreMembers(ms)
    ensures var t := SkipWs(KeyTail(ms, rest));
      t != [] && t[0] == ':' && SkipWs(t[1..]) == Doc(ms.m.value) + ValueTail(ms, rest)
  {
    hide SkipWs, ValueTail;
    var v := Doc(ms.m.value) + ValueTail(ms, rest);
    var t := ":" + (ms.m.afterColon + v);
    SkipWsOver(ms.m.beforeColon, t);
    assert t[1..] == ms.m.afterColon + v;
    DocHead(ms.m.value, ValueTail(ms, rest));
    SkipWsOver(ms.m.afterColon, v);
  }

  /** One turn of the object loop. */
  lemma MembersStep(s: Text, depth: nat, out: seq<Entry>, k: Text, s1: Text, v: Json, after: Text)
    requires ParseKey(SkipWs(s)) == Done(k, s1) && ParseValue(s1, depth + 1) == Done(v, after)
    ensures var t := SkipWs(after);
      && (t != [] && t[0] == ',' ==> ParseMembers(s, depth, out) == ParseMembers(t[1..], depth, Insert(out, k, v)))
      && (t != [] && t[0] == '}' ==> ParseMembers(s, depth, out) == Done(Obj(Insert(out, k, v)), t[1..]))
  {
    hide ParseValue, ParseKey, SkipWs, Insert;
  }

  lemma MembersBad(s: Text, depth: nat, out: seq<Entry>, k: Text, s1: Text)
    requires ParseKey(SkipWs(s)) == Done(k, s1) && ParseValue(s1, depth + 1).Bad?
    ensures ParseMembers(s, depth, out).Bad?
  {
    hide ParseValue, ParseKey, SkipWs, Insert;
  }

  lemma {:induction false} MembersComplete(ms: Members, rest: Text, s: Text, depth: nat, out: seq<Entry>)
    requires AreMembers(ms) && SkipWs(s) == SkipWs(MembersDoc(ms) + rest)
    ensures Limited(ParseMembers(s, depth, out), depth + 1 + CstMembersDepth(ms),
                    Obj(DenoteMembers(ms, out)), rest)
    decreases ms, 1
  {
    hide ParseValue, ParseMembers, SkipWs, ParseKey, Insert, DenoteChrs, Doc, MembersDoc, Denote, ValueTail, IsWs;
    hide Follows, CstDepth;
    var end := MemberEnd(ms, rest);
    var k, v, s1 := DenoteChrs(ms.m.key), Denote(ms.m.value), Doc(ms.m.value) + ValueTail(ms, rest);
    KeyComplete(ms, rest);
    ValueTailFollows(ms, rest);
    ValueComplete(ms.m.value, ValueTail(ms, rest), depth + 1);
    if depth + 1 + CstDepth(ms.m.value) > MAX_DEPTH {
      MembersBad(s, depth, out, k, s1);
    } else {
      MembersStep(s, depth, out, k, s1, v, ValueTail(ms, rest));
      if ms.ThenMember? {
        AfterFirst(',', MembersDoc(ms.tail), rest);
        MembersComplete(ms.tail, rest, end[1..], depth, Insert(out, k, v));
      } else {
        AfterFirst('}', [], rest);
      }
    }
  }
}
