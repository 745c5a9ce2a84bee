/** Whatever the parser accepts has a syntax tree, and the exact statement of what it accepts. */
module JsonSound {
  import opened Bytes
  import opened Utf8
  import opened Numerals
  import opened JsonValue
  import opened JsonGrammar
  import opened JsonParser
  import opened JsonCorrect

  // ==== soundness: what is parsed is derived by some tree ====

  lemma {:induction false} SkipWsSplit(s: Text) returns (w: Text)
    ensures IsWs(w) && s == w + SkipWs(s)
  {
    hide IsWs;
    if s != [] && IsWsByte(s[0]) {
      var w' := SkipWsSplit(s[1..]);
      w := [s[0]] + w';
      MoreWs(s[0], w');
      HeadTail(s);
      Assoc([s[0]], w', SkipWs(s));
    } else {
      w := [];
      NoWs();
      NilLeft(s);
    }
  }

  lemma NoWs()
    ensures IsWs([])
  {
  }

  lemma MoreWs(c: Byte, w: Text)
    requires IsWsByte(c) && IsWs(w)
    ensures IsWs([c] + w)
  {
  }

  lemma HeadTail(s: Text)
    requires s != []
    ensures s == [s[0]] + s[1..]
  {
  }

  lemma {:induction false} DigitRunDigits(s: Text)
    ensures AllDigits(s[..DigitRun(s)])
  {
    if s != [] && IsDigit(s[0]) {
      DigitRunDigits(s[1..]);
      assert s[..DigitRun(s)] == [s[0]] + s[1..][..DigitRun(s[1..])];
    }
  }

  // ---- strings ----

  lemma Hex4Sound(s: Text)
    requires Hex4(s).Done?
    ensures |s| >= 4 && IsHex(s[..4]) && Hex4(s) == Done(HexValue(s[..4]), s[4..]) && s == s[..4] + s[4..]
  {
  }

  /** A valid chunk of the length its first byte announces is one scalar. */
  lemma ChunkIsScalar(t: Text)
    requires t != [] && |t| == Utf8Len(t[0]) && IsUtf8(t)
    ensures IsScalar(t)
  {
  }

  /** The code units a `\u` escape consumed: one, or a surrogate pair. */
  lemma EscapeSound(s: Text) returns (units: seq<Chr>)
    requires UnicodeEscape(s).Done?
    ensures |units| == 1 || |units| == 2
    ensures AreChrs(units) && units[0].Uni?
    ensures "\\u" + s == ChrsDoc(units) + UnicodeEscape(s).rest
    ensures UnicodeEscape(s).value == DenoteChrs(units)
    ensures |units| == 2 ==> units[1].Uni? && IsHigh(HexValue(units[0].hex)) && IsLow(HexValue(units[1].hex))
    ensures |units| == 1 && IsHigh(HexValue(units[0].hex)) ==> !StartsLow(UnicodeEscape(s).rest)
  {
    hide EncodeScalar, Pair, HexValue, ScalarLen, IsUtf8, ChrsDoc, DenoteChrs, Hex4;
    Hex4Sound(s);
    var hex, rest := s[..4], s[4..];
    Assoc("\\u", hex, rest);
    if IsHigh(HexValue(hex)) && StartsLow(rest) {
      var low := rest[2..6];
      units := [Uni(hex), Uni(low)];
      LowSound(rest);
      TwoUnits(hex, low);
      assert rest == ("\\u" + low) + rest[6..];
      Assoc("\\u" + hex, "\\u" + low, rest[6..]);
    } else {
      units := [Uni(hex)];
      OneUnit(hex);
    }
  }

  /** A `\u` escape of a low surrogate comes next. */
  predicate StartsLow(s: Text) {
    |s| >= 2 && s[0] == '\\' && s[1] == 'u' && Hex4(s[2..]).Done? && IsLow(Hex4(s[2..]).value)
  }

  lemma LowSound(s: Text)
    requires StartsLow(s)
    ensures |s| >= 6 && IsHex(s[2..6]) && IsLow(HexValue(s[2..6])) && Hex4(s[2..]) == Done(HexValue(s[2..6]), s[6..])
  {
    hide HexValue;
    assert s[2..][..4] == s[2..6] && s[2..][4..] == s[6..];
  }

  lemma OneUnit(hex: Text)
    requires |hex| == 4 && IsHex(hex)
    ensures ChrsDoc([Uni(hex)]) == "\\u" + hex
    ensures DenoteChrs([Uni(hex)])
         == if IsHigh(HexValue(hex)) || IsLow(HexValue(hex)) then REPLACEMENT else EncodeScalar(HexValue(hex))
  {
    hide EncodeScalar, HexValue, Pair;
    var cs := [Uni(hex)];
    assert cs[1..] == [];
    assert DenoteChrs([]) == [];
    assert ("\\u" + hex) + [] == "\\u" + hex;
  }

  lemma TwoUnits(hex: Text, low: Text)
    requires |hex| == 4 && IsHex(hex) && IsHigh(HexValue(hex))
    requires |low| == 4 && IsHex(low) && IsLow(HexValue(low))
    ensures ChrsDoc([Uni(hex), Uni(low)]) == "\\u" + hex + ("\\u" + low)
    ensures DenoteChrs([Uni(hex), Uni(low)]) == EncodeScalar(Pair(HexValue(hex), HexValue(low)))
  {
    hide EncodeScalar, HexValue, Pair;
    OneUnit(low);
    var cs := [Uni(hex), Uni(low)];
    assert cs[1..] == [Uni(low)] && cs[2..] == [];
    assert DenoteChrs([]) == [];
  }

  lemma DocThen(c: Chr, cs: seq<Chr>)
    ensures ChrsDoc([c] + cs) == ChrDoc(c) + ChrsDoc(cs)
  {
    hide ChrDoc;
    assert ([c] + cs)[1..] == cs;
  }

  lemma OneUnitThen(c: Chr, cs: seq<Chr>)
    requires IsChr(c) && c.Uni? && AreChrs(cs) && AreChrs([c]) && AreChrs([c] + cs)
    requires IsHigh(HexValue(c.hex)) && cs != [] && cs[0].Uni? ==> !IsLow(HexValue(cs[0].hex))
    ensures DenoteChrs([c] + cs) == DenoteChrs([c]) + DenoteChrs(cs)
  {
    hide EncodeScalar, HexValue, Pair;
    OneUnit(c.hex);
    assert ([c] + cs)[1..] == cs && [c] == [Uni(c.hex)];
  }

  lemma TwoUnitsThen(c: Chr, d: Chr, cs: seq<Chr>)
    requires IsChr(c) && IsChr(d) && c.Uni? && d.Uni? && IsHigh(HexValue(c.hex)) && IsLow(HexValue(d.hex))
    requires AreChrs(cs) && AreChrs([c, d]) && AreChrs([c, d] + cs)
    ensures DenoteChrs([c, d] + cs) == DenoteChrs([c, d]) + DenoteChrs(cs)
  {
    hide EncodeScalar, HexValue, Pair;
    TwoUnits(c.hex, d.hex);
    assert ([c, d] + cs)[2..] == cs && [c, d] == [Uni(c.hex), Uni(d.hex)];
  }

  lemma DocsThen(units: seq<Chr>, cs: seq<Chr>)
    requires 1 <= |units| <= 2
    ensures ChrsDoc(units + cs) == ChrsDoc(units) + ChrsDoc(cs)
  {
    hide ChrDoc, ChrsDoc;
    DocOfNone();
    if |units| == 1 {
      assert units == [units[0]] + [] && units + cs == [units[0]] + cs;
      DocThen(units[0], []);
      DocThen(units[0], cs);
      NilLeft(ChrDoc(units[0]));
    } else {
      assert units == [units[0]] + ([units[1]] + []) && units + cs == [units[0]] + ([units[1]] + cs);
      DocThen(units[0], [units[1]] + []);
      DocThen(units[0], [units[1]] + cs);
      DocThen(units[1], []);
      DocThen(units[1], cs);
      NilLeft(ChrDoc(units[1]));
      Assoc(ChrDoc(units[0]), ChrDoc(units[1]), ChrsDoc(cs));
    }
  }

  lemma DocOfNone()
    ensures ChrsDoc([]) == []
  {
  }

  /** Code units before more characters keep their meaning. */
  lemma UnitsThen(units: seq<Chr>, cs: seq<Chr>)
    requires AreChrs(units) && AreChrs(cs) && |units| >= 1 && units[0].Uni?
    requires |units| == 1 || (|units| == 2 && units[1].Uni? &&
      IsHigh(HexValue(units[0].hex)) && IsLow(HexValue(units[1].hex)))
    requires |units| == 1 && IsHigh(HexValue(units[0].hex)) && cs != [] && cs[0].Uni? ==> !IsLow(HexValue(cs[0].hex))
    ensures DenoteChrs(units + cs) == DenoteChrs(units) + DenoteChrs(cs)
    ensures ChrsDoc(units + cs) == ChrsDoc(units) + ChrsDoc(cs)
  {
    hide EncodeScalar, HexValue, Pair, DenoteChrs, ChrsDoc;
    DocsThen(units, cs);
    if |units| == 1 {
      assert units == [units[0]];
      OneUnitThen(units[0], cs);
    } else {
      assert units == [units[0], units[1]];
      TwoUnitsThen(units[0], units[1], cs);
    }
  }

  lemma NoChrs()
    ensures AreChrs([]) && ChrsDoc([]) == [] && DenoteChrs([]) == []
  {
  }

  /** A character that is no code unit keeps its meaning before any others. */
  lemma PlainThen(c: Chr, cs: seq<Chr>)
    requires IsChr(c) && !c.Uni? && AreChrs(cs)
    ensures AreChrs([c] + cs) && ChrsDoc([c] + cs) == ChrDoc(c) + ChrsDoc(cs)
    ensures DenoteChrs([c] + cs) == (if c.Raw? then c.scalar else [EscapeValue(c.code).value]) + DenoteChrs(cs)
  {
    hide IsScalar;
    assert ([c] + cs)[1..] == cs;
  }

  /** One turn of the string loop, at an escape other than a code unit. */
  lemma EscapeTurn(s: Text, out: Text)
    requires ParseChars(s, out).Done? && s != [] && s[0] == '\\' && !(|s| > 1 && s[1] == 'u')
    ensures |s| >= 2 && IsChr(Esc(s[1])) && s == ['\\', s[1]] + s[2..]
    ensures ParseChars(s, out) == ParseChars(s[2..], out + [EscapeValue(s[1]).value])
  {
    hide EscapeValue;
    assert s == ['\\', s[1]] + s[2..];
  }

  /** And at a character that stands for itself. */
  lemma ScalarTurn(s: Text, out: Text)
    requires ParseChars(s, out).Done? && s != [] && s[0] != '\"' && s[0] != '\\'
    ensures var n := Utf8Len(s[0]);
      && 0 < n <= |s| && IsChr(Raw(s[..n])) && s == s[..n] + s[n..]
      && ParseChars(s, out) == ParseChars(s[n..], out + s[..n])
  {
    hide IsUtf8, IsScalar;
    var n := Utf8Len(s[0]);
    ChunkIsScalar(s[..n]);
  }

  /** A string literal that parses consists of characters of the grammar. */
  lemma {:induction false} CharsSound(s: Text, out: Text) returns (cs: seq<Chr>)
    requires ParseChars(s, out).Done?
    ensures AreChrs(cs)
    ensures s == ChrsDoc(cs) + ("\"" + ParseChars(s, out).rest)
    ensures ParseChars(s, out).value == out + DenoteChrs(cs)
    decreases |s|
  {
    hide ParseChars, AreChrs, ChrsDoc, DenoteChrs, IsChr, EscapeValue, Utf8Len;
    var end := "\"" + ParseChars(s, out).rest;
    NotEmptyChars(s, out);
    if s[0] == '\"' {
      cs := [];
      NoChrs();
      HeadTail(s);
      NilLeft(end);
      NilLeft(out);
    } else if s[0] == '\\' && |s| > 1 && s[1] == 'u' {
      cs := UnitsSound(s, out);
    } else if s[0] == '\\' {
      EscapeTurn(s, out);
      var cs' := CharsSound(s[2..], out + PlainValue(Esc(s[1])));
      cs := [Esc(s[1])] + cs';
      PlainJoins(Esc(s[1]), cs', out, end);
    } else {
      var n := Utf8Len(s[0]);
      ScalarTurn(s, out);
      var cs' := CharsSound(s[n..], out + s[..n]);
      cs := [Raw(s[..n])] + cs';
      PlainJoins(Raw(s[..n]), cs', out, end);
    }
  }

  lemma NotEmptyChars(s: Text, out: Text)
    requires ParseChars(s, out).Done?
    ensures s != [] && (s[0] == '\"' ==> ParseChars(s, out) == Done(out, s[1..]))
  {
  }

  function PlainValue(c: Chr): Text
    requires IsChr(c) && !c.Uni?
  {
    if c.Raw? then c.scalar else [EscapeValue(c.code).value]
  }

  /** The same, with what comes before and after. */
  lemma PlainJoins(c: Chr, cs: seq<Chr>, out: Text, end: Text)
    requires IsChr(c) && !c.Uni? && AreChrs(cs)
    ensures AreChrs([c] + cs) && ChrsDoc([c] + cs) + end == ChrDoc(c) + (ChrsDoc(cs) + end)
    ensures (out + PlainValue(c)) + DenoteChrs(cs) == out + DenoteChrs([c] + cs)
  {
    hide IsScalar, AreChrs, ChrsDoc, ChrDoc, DenoteChrs;
    PlainThen(c, cs);
    Assoc(ChrDoc(c), ChrsDoc(cs), end);
    Assoc(out, PlainValue(c), DenoteChrs(cs));
  }

  lemma {:induction false} UnitsSound(s: Text, out: Text) returns (cs: seq<Chr>)
    requires ParseChars(s, out).Done? && |s| >= 2 && s[0] == '\\' && s[1] == 'u'
    ensures AreChrs(cs)
    ensures s == ChrsDoc(cs) + ("\"" + ParseChars(s, out).rest)
    ensures ParseChars(s, out).value == out + DenoteChrs(cs)
    decreases |s|, 0
  {
    hide UnicodeEscape, ScalarLen, IsUtf8, EncodeScalar, HexValue, Pair, DenoteChrs, ChrsDoc;
    var end := "\"" + ParseChars(s, out).rest;
    var u := UnicodeEscape(s[2..]);
    var units := EscapeSound(s[2..]);
    var cs' := CharsSound(u.rest, out + u.value);
    cs := units + cs';
    assert s == "\\u" + s[2..];
    UnitsMeet(units, cs', u.rest, end);
    UnitsThen(units, cs');
    Assoc(ChrsDoc(units), ChrsDoc(cs'), end);
    Assoc(out, u.value, DenoteChrs(cs'));
  }

  /** Characters that read a text which starts no low surrogate do not start with one. */
  lemma UnitsMeet(units: seq<Chr>, cs: seq<Chr>, rest: Text, end: Text)
    requires AreChrs(cs) && rest == ChrsDoc(cs) + end
    requires units != [] && units[0].Uni? && |units[0].hex| == 4 && IsHex(units[0].hex)
    requires |units| == 1 && IsHigh(HexValue(units[0].hex)) ==> !StartsLow(rest)
    ensures |units| == 1 && IsHigh(HexValue(units[0].hex)) && cs != [] && cs[0].Uni? ==> !IsLow(HexValue(cs[0].hex))
  {
    hide HexValue;
    if cs != [] && cs[0].Uni? {
      var more := ChrsDoc(cs[1..]) + end;
      Assoc(ChrDoc(cs[0]), ChrsDoc(cs[1..]), end);
      ChrHead(cs[0], more);
      Hex4Over(cs[0].hex, more);
    }
  }

  lemma StringSound(s: Text) returns (cs: seq<Chr>)
    requires s != [] && s[0] == '\"' && ParseString(s).Done?
    ensures AreChrs(cs) && s == StringDoc(cs) + ParseString(s).rest && ParseString(s).value == DenoteChrs(cs)
  {
    hide ParseChars, DenoteChrs, ChrsDoc;
    cs := CharsSound(s[1..], []);
    var rest := ParseString(s).rest;
    assert [] + DenoteChrs(cs) == DenoteChrs(cs);
    Assoc(ChrsDoc(cs), "\"", rest);
    Assoc("\"", ChrsDoc(cs) + "\"", rest);
  }

  // ---- numbers ----

  lemma WholeSound(s: Text) returns (whole: Text)
    requires SkipWhole(s).Done?
    ensures IsDigits(whole) && (whole[0] == '0' ==> |whole| == 1) && s == whole + SkipWhole(s).rest
  {
    if s[0] == '0' {
      whole := s[..1];
    } else {
      DigitRunDigits(s);
      whole := s[..DigitRun(s)];
    }
  }

  lemma FracSound(s: Text) returns (frac: Option<Text>)
    requires SkipFrac(s).Done?
    ensures (frac.Some? ==> IsDigits(frac.value)) && s == FracDoc(frac) + SkipFrac(s).rest
  {
    if s == [] || s[0] != '.' {
      frac := None;
    } else {
      DigitRunDigits(s[1..]);
      frac := Some(s[1..][..DigitRun(s[1..])]);
      assert s == ("." + frac.value) + s[1 + |frac.value|..];
    }
  }

  predicate IsExponent(x: Exponent) {
    && (x.e == 'e' || x.e == 'E')
    && (x.sign == "" || x.sign == "+" || x.sign == "-")
    && IsDigits(x.digits)
  }

  lemma SignSound(s: Text) returns (sign: Text)
    ensures (sign == "" || sign == "+" || sign == "-") && s == sign + SkipSign(s)
  {
    sign := if s != [] && (s[0] == '+' || s[0] == '-') then [s[0]] else [];
  }

  lemma ExpSound(s: Text) returns (exp: Option<Exponent>)
    requires SkipExp(s).Done?
    ensures (exp.Some? ==> IsExponent(exp.value)) && s == ExpDoc(exp) + SkipExp(s).rest
  {
    hide SkipSign, DigitRun, AllDigits, ExpDoc;
    if s == [] || (s[0] != 'e' && s[0] != 'E') {
      exp := None;
      NoExp(s);
    } else {
      var x := ExponentSound(s);
      exp := Some(x);
    }
  }

  lemma ExponentSound(s: Text) returns (x: Exponent)
    requires s != [] && (s[0] == 'e' || s[0] == 'E') && DigitRun(SkipSign(s[1..])) > 0
    ensures IsExponent(x)
    ensures s == ExpDoc(Some(x)) + SkipSign(s[1..])[DigitRun(SkipSign(s[1..]))..]
  {
    hide SkipSign, DigitRun, AllDigits, ExpDoc;
    var d := SkipSign(s[1..]);
    var sign := SignSound(s[1..]);
    DigitRunDigits(d);
    x := Exponent(s[0], sign, d[..DigitRun(d)]);
    ExpDocs(x, d[DigitRun(d)..]);
    assert d == d[..DigitRun(d)] + d[DigitRun(d)..];
    assert s == [s[0]] + s[1..];
  }

  lemma NoExp(rest: Text)
    ensures ExpDoc(None) + rest == rest
  {
  }

  lemma ExpDocs(x: Exponent, rest: Text)
    ensures ExpDoc(Some(x)) + rest == [x.e] + (x.sign + (x.digits + rest))
  {
    Assoc(x.sign, x.digits, rest);
    Assoc([x.e], x.sign + x.digits, rest);
  }

  lemma SignedText(s: Text)
    requires s != []
    ensures s == (if s[0] == '-' then "-" else "") + (if s[0] == '-' then s[1..] else s)
  {
    if s[0] == '-' {
      HeadTail(s);
    } else {
      NilLeft(s);
    }
  }

  lemma NumberText(n: Numeric, s: Text, rest: Text)
    requires s == (if n.minus then "-" else "") + (n.whole + (FracDoc(n.frac) + (ExpDoc(n.exp) + rest)))
    ensures s == NumericDoc(n) + rest && |s| == |NumericDoc(n)| + |rest| && s[..|s| - |rest|] == NumericDoc(n)
  {
    hide FracDoc, ExpDoc, NumericDoc;
    UnsignedText(n, rest);
    Parts(NumericDoc(n), rest);
    assert |s| - |rest| == |NumericDoc(n)|;
  }

  lemma UnsignedDone(s: Text)
    requires SkipUnsigned(s).Done?
    ensures SkipWhole(s).Done? && SkipFrac(SkipWhole(s).rest).Done? && SkipExp(SkipFrac(SkipWhole(s).rest).rest).Done?
    ensures SkipUnsigned(s).rest == SkipExp(SkipFrac(SkipWhole(s).rest).rest).rest
  {
    hide SkipWhole, SkipFrac, SkipExp;
  }

  /** A number without its sign. */
  lemma UnsignedSound(s: Text, minus: bool) returns (n: Numeric)
    requires SkipUnsigned(s).Done?
    ensures IsNumeric(n) && n.minus == minus
    ensures s == n.whole + (FracDoc(n.frac) + (ExpDoc(n.exp) + SkipUnsigned(s).rest))
  {
    hide SkipUnsigned, SkipWhole, SkipFrac, SkipExp, FracDoc, ExpDoc, AllDigits;
    UnsignedDone(s);
    var whole := WholeSound(s);
    var s1 := SkipWhole(s).rest;
    var frac := FracSound(s1);
    var exp := ExpSound(SkipFrac(s1).rest);
    n := Numeric(minus, whole, frac, exp);
  }

  lemma NumberDone(s: Text)
    requires s != [] && ParseNumber(s).Done?
    ensures var left := SkipUnsigned(if s[0] == '-' then s[1..] else s);
      left.Done? && |left.rest| <= |s| && ParseNumber(s) == Done(Num(NumberOf(s[..|s| - |left.rest|])), left.rest)
  {
    hide NumberOf, SkipUnsigned;
  }

  lemma NumberSound(s: Text) returns (n: Numeric)
    requires s != [] && ParseNumber(s).Done?
    ensures IsNumeric(n) && s == NumericDoc(n) + ParseNumber(s).rest
    ensures ParseNumber(s).value == Num(NumberOf(NumericDoc(n)))
  {
    hide NumberOf, ParseNumber, SkipUnsigned, FracDoc, ExpDoc, NumericDoc, IsNumeric;
    NumberDone(s);
    n := UnsignedSound(if s[0] == '-' then s[1..] else s, s[0] == '-');
    SignedText(s);
    NumberText(n, s, ParseNumber(s).rest);
  }

  // ---- values ----

  lemma {:induction false} ValueSound(s: Text, depth: nat) returns (c: Cst)
    requires ParseValue(s, depth).Done?
    ensures IsCst(c) && s == Doc(c) + ParseValue(s, depth).rest
    ensures ParseValue(s, depth).value == Denote(c) && depth + CstDepth(c) <= MAX_DEPTH
    decreases |s|, 0
  {
    hide ParseNumber, ParseString, DenoteChrs, NumberOf, ParseItems, ParseMembers, SkipWs, ParseArray, ParseObject;
    if s[0] == 'n' {
      c := CNull;
    } else if s[0] == 't' {
      c := CTrue;
    } else if s[0] == 'f' {
      c := CFalse;
    } else if s[0] == '\"' {
      var cs := StringSound(s);
      c := CStr(cs);
    } else if s[0] == '[' {
      c := ArraySound(s, depth);
    } else if s[0] == '{' {
      c := ObjectSound(s, depth);
    } else {
      var n := NumberSound(s);
      c := CNum(n);
    }
  }

  lemma ArrayDocs(w: Text, items: Items, rest: Text)
    ensures Doc(CEmptyArr(w)) + rest == "[" + (w + ("]" + rest))
    ensures Doc(CArr(items)) + rest == "[" + (ItemsDoc(items) + rest)
  {
    hide ItemsDoc;
    Assoc(w, "]", rest);
    Assoc("[", w + "]", rest);
    Assoc("[", ItemsDoc(items), rest);
  }

  lemma {:induction false} ArraySound(s: Text, depth: nat) returns (c: Cst)
    requires s != [] && s[0] == '[' && depth <= MAX_DEPTH
    requires ParseArray(SkipWs(s[1..]), depth).Done?
    ensures var p := ParseArray(SkipWs(s[1..]), depth);
      IsCst(c) && s == Doc(c) + p.rest && p.value == Denote(c) && depth + CstDepth(c) <= MAX_DEPTH
    decreases |s|, 0, 0
  {
    hide SkipWs, ParseItems, ParseArray, ParseValue, Doc, ItemsDoc, Widen, IsWs, AreItems, DenoteItems, CstItemsDepth;
    var t := SkipWs(s[1..]);
    var p := ParseArray(t, depth);
    var w := SkipWsSplit(s[1..]);
    HeadTail(s);
    if t != [] && t[0] == ']' {
      c := CEmptyArr(w);
      ArrayIsEmpty(t, depth);
      HeadTail(t);
      ArrayDocs(w, LastItem([], CNull, []), p.rest);
    } else {
      ArrayIsItems(t, depth);
      var items := ItemsSound(t, depth, []);
      assert [] + DenoteItems(items) == DenoteItems(items);
      c := CArr(Widen(w, items));
      WidenItems(w, items, p.rest);
      ArrayDocs(w, Widen(w, items), p.rest);
    }
  }

  /** More whitespace before the first item. */
  function Widen(w: Text, items: Items): Items {
    items.(before := w + items.before)
  }

  lemma WidenItems(w: Text, items: Items, rest: Text)
    requires IsWs(w) && AreItems(items)
    ensures AreItems(Widen(w, items))
    ensures ItemsDoc(Widen(w, items)) + rest == w + (ItemsDoc(items) + rest)
    ensures DenoteItems(Widen(w, items)) == DenoteItems(items)
    ensures CstItemsDepth(Widen(w, items)) == CstItemsDepth(items)
  {
    hide Denote, Doc, IsCst, CstDepth;
    var tail := Doc(items.value) + (items.after + (if items.ThenItem? then "," + ItemsDoc(items.rest) else "]"));
    assert ItemsDoc(items) == items.before + tail;
    Assoc(w, items.before, tail);
    Assoc(w, items.before + tail, rest);
  }

  lemma {:induction false} ItemsSound(s: Text, depth: nat, out: seq<Json>) returns (items: Items)
    requires ParseItems(s, depth, out).Done?
    ensures var p := ParseItems(s, depth, out);
      && AreItems(items) && s == ItemsDoc(items) + p.rest && p.value == Arr(out + DenoteItems(items))
      && depth + 1 + CstItemsDepth(items) <= MAX_DEPTH
    decreases |s|, 1
  {
    hide SkipWs, ParseValue, Doc, Denote;
    var p := ParseItems(s, depth, out);
    var before := SkipWsSplit(s);
    var c := ValueSound(SkipWs(s), depth + 1);
    var v, r := Denote(c), ParseValue(SkipWs(s), depth + 1).rest;
    var after := SkipWsSplit(r);
    var t := SkipWs(r);
    if t[0] == ',' {
      var rest := ItemsSound(t[1..], depth, out + [v]);
      items := ThenItem(before, c, after, rest);
      assert (out + [v]) + DenoteItems(rest) == out + DenoteItems(items);
      assert t == ("," + ItemsDoc(rest)) + p.rest;
    } else {
      items := LastItem(before, c, after);
      assert out + [v] == out + DenoteItems(items);
      assert t == "]" + p.rest;
    }
    ItemsSplit(items, p.rest);
  }

  lemma ObjectDocs(w: Text, ms: Members, rest: Text)
    ensures Doc(CEmptyObj(w)) + rest == "{" + (w + ("}" + rest))
    ensures Doc(CObj(ms)) + rest == "{" + (MembersDoc(ms) + rest)
  {
    hide MembersDoc;
    Assoc(w, "}", rest);
    Assoc("{", w + "}", rest);
    Assoc("{", MembersDoc(ms), rest);
  }

  lemma {:induction false} ObjectSound(s: Text, depth: nat) returns (c: Cst)
    requires s != [] && s[0] == '{' && depth <= MAX_DEPTH
    requires ParseObject(SkipWs(s[1..]), depth).Done?
    ensures var p := ParseObject(SkipWs(s[1..]), depth);
      IsCst(c) && s == Doc(c) + p.rest && p.value == Denote(c) && depth + CstDepth(c) <= MAX_DEPTH
    decreases |s|, 0, 0
  {
    hide SkipWs, ParseMembers, ParseObject, ParseValue, Doc, MembersDoc, ParseKey, WidenMember, IsWs, AreMembers;
    hide DenoteMembers, CstMembersDepth;
    var t := SkipWs(s[1..]);
    var p := ParseObject(t, depth);
    var w := SkipWsSplit(s[1..]);
    HeadTail(s);
    if t != [] && t[0] == '}' {
      c := CEmptyObj(w);
      ObjectIsEmpty(t, depth);
      HeadTail(t);
      ObjectDocs(w, LastMember(Member([], [], [], [], CNull, [])), p.rest);
    } else {
      ObjectIsMembers(t, depth);
      var ms := MembersSound(t, depth, []);
      c := CObj(WidenMember(w, ms));
      WidenMembers(w, ms, p.rest);
      ObjectDocs(w, WidenMember(w, ms), p.rest);
    }
  }

  function WidenMember(w: Text, ms: Members): Members {
    ms.(m := ms.m.(before := w + ms.m.before))
  }

  lemma WidenMembers(w: Text, ms: Members, rest: Text)
    requires IsWs(w) && AreMembers(ms)
    ensures AreMembers(WidenMember(w, ms))
    ensures MembersDoc(WidenMember(w, ms)) + rest == w + (MembersDoc(ms) + rest)
    ensures DenoteMembers(WidenMember(w, ms), []) == DenoteMembers(ms, [])
    ensures CstMembersDepth(WidenMember(w, ms)) == CstMembersDepth(ms)
  {
    hide Denote, Doc, IsCst, CstDepth, StringDoc, DenoteChrs, Insert;
    MembersSplit(ms, rest);
    MembersSplit(WidenMember(w, ms), rest);
    Assoc(w, ms.m.before, StringDoc(ms.m.key) + KeyTail(ms, rest));
  }

  lemma KeySound(s: Text) returns (m: Member)
    requires ParseKey(s).Done?
    ensures AreChrs(m.key) && IsWs(m.beforeColon) && IsWs(m.afterColon)
    ensures s == StringDoc(m.key) + (m.beforeColon + (":" + (m.afterColon + ParseKey(s).rest)))
    ensures ParseKey(s).value == DenoteChrs(m.key)
  {
    hide SkipWs, ParseString, DenoteChrs, StringDoc, AreChrs, IsWs;
    var key := StringSound(s);
    var r := ParseString(s).rest;
    var beforeColon := SkipWsSplit(r);
    var t := SkipWs(r);
    var afterColon := SkipWsSplit(t[1..]);
    HeadTail(t);
    m := Member([], key, beforeColon, afterColon, CNull, []);
  }

  /** What a successful turn of the object loop went through. */
  lemma MembersDone(s: Text, depth: nat, out: seq<Entry>)
    requires ParseMembers(s, depth, out).Done?
    ensures ParseKey(SkipWs(s)).Done? && ParseValue(ParseKey(SkipWs(s)).rest, depth + 1).Done?
    ensures var item := ParseValue(ParseKey(SkipWs(s)).rest, depth + 1);
      var t, more := SkipWs(item.rest), Insert(out, ParseKey(SkipWs(s)).value, item.value);
      && t != [] && (t[0] == ',' || t[0] == '}')
      && (t[0] == ',' ==> ParseMembers(s, depth, out) == ParseMembers(t[1..], depth, more))
      && (t[0] == '}' ==> ParseMembers(s, depth, out) == Done(Obj(more), t[1..]))
  {
    hide SkipWs, ParseValue, ParseKey, Insert;
  }

  lemma {:induction false} MembersSound(s: Text, depth: nat, out: seq<Entry>) returns (ms: Members)
    requires ParseMembers(s, depth, out).Done?
    ensures var p := ParseMembers(s, depth, out);
      && AreMembers(ms) && s == MembersDoc(ms) + p.rest && p.value == Obj(DenoteMembers(ms, out))
      && depth + 1 + CstMembersDepth(ms) <= MAX_DEPTH
    decreases |s|, 1
  {
    hide SkipWs, ParseValue, ParseKey, ParseMembers, Insert, DenoteChrs, StringDoc, Doc, Denote, AreChrs, IsWs;
    var p := ParseMembers(s, depth, out);
    MembersDone(s, depth, out);
    var before := SkipWsSplit(s);
    var m0 := KeySound(SkipWs(s));
    var k, s1 := ParseKey(SkipWs(s)).value, ParseKey(SkipWs(s)).rest;
    var c := ValueSound(s1, depth + 1);
    var v, r := Denote(c), ParseValue(s1, depth + 1).rest;
    var after := SkipWsSplit(r);
    var t := SkipWs(r);
    var m := m0.(before := before, value := c, after := after);
    if t[0] == ',' {
      var tail := MembersSound(t[1..], depth, Insert(out, k, v));
      ms := ThenMember(m, tail);
      HeadTail(t);
      Assoc(",", MembersDoc(tail), p.rest);
    } else {
      ms := LastMember(m);
      HeadTail(t);
    }
    MembersSplit(ms, p.rest);
  }

  // ==== what `parse` accepts ====

  /** `input` is `ws value ws` with the value `c`. */
  ghost predicate Derives(c: Cst, before: Text, after: Text, input: Text) {
    IsCst(c) && IsWs(before) && IsWs(after) && input == before + (Doc(c) + after)
  }

  /** A JSON text of sections 2 to 7 of RFC 8259, nested at most `levels` below its top. */
  ghost predicate IsJsonText(input: Text, v: Json, levels: nat) {
    exists c, before, after :: Derives(c, before, after, input) && CstDepth(c) <= levels && Denote(c) == v
  }

  /** A derived text parses to its value when it is shallow enough, and fails otherwise. */
  lemma DerivedParses(c: Cst, before: Text, after: Text, input: Text)
    requires Derives(c, before, after, input)
    ensures if CstDepth(c) <= 128 then Parsed(input) == Ok(Denote(c)) else Parsed(input).Err?
  {
    hide ParseValue, SkipWs, Doc, Denote;
    DocHead(c, after);
    SkipWsOver(before, Doc(c) + after);
    ValueComplete(c, after, 0);
    SkipWsOver(after, []);
    assert after + [] == after;
  }

  /** `parse` accepts exactly the grammar, and gives the value of the grammar. */
  lemma ParseIsGrammar(input: Text, v: Json)
    ensures Parsed(input) == Ok(v) <==> IsJsonText(input, v, 128)
  {
    if Parsed(input) == Ok(v) {
      var before := SkipWsSplit(input);
      var c := ValueSound(SkipWs(input), 0);
      var after := SkipWsSplit(ParseValue(SkipWs(input), 0).rest);
      assert after + [] == after;
      assert Derives(c, before, after, input);
    }
    if IsJsonText(input, v, MAX_DEPTH) {
      var c, before, after :| Derives(c, before, after, input) && CstDepth(c) <= MAX_DEPTH && Denote(c) == v;
      DerivedParses(c, before, after, input);
    }
  }

  /** The grammar gives a text at most one value. */
  lemma GrammarIsUnambiguous(input: Text, v: Json, w: Json)
    requires IsJsonText(input, v, MAX_DEPTH) && IsJsonText(input, w, MAX_DEPTH)
    ensures v == w
  {
    ParseIsGrammar(input, v);
    ParseIsGrammar(input, w);
  }

  /** A parsed document is a value Rust's types allow. */
  lemma ParsedIsProper(input: Text)
    requires Parsed(input).Ok?
    ensures Proper(Parsed(input).value)
  {
    var v := Parsed(input).value;
    ParseIsGrammar(input, v);
    var c, before, after :| Derives(c, before, after, input) && CstDepth(c) <= MAX_DEPTH && Denote(c) == v;
    DenoteProper(c);
  }
}
