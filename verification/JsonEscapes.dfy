/** What the escapes of JSON strings stand for, told without the grammar's own arithmetic: by a
    UTF-8 decoder and by tables. */
module JsonEscapes {
  import opened Bytes
  import opened Utf8
  import opened Numerals
  import opened JsonValue
  import opened JsonGrammar
  import opened JsonParser
  import opened JsonSound

  // ==== UTF-8, decoded ====

  /** The low six bits of a continuation byte. */
  function Low(c: Byte): int {
    c as int - 0x80
  }

  /** The code point of one scalar, from the bit patterns of Table 3-6 of the Unicode Standard. */
  function CodePoint(s: Text): Option<int> {
    if |s| == 1 && s[0] < '\U{80}' then Some(s[0] as int)
    else if |s| == 2 && '\U{C0}' <= s[0] <= '\U{DF}' && IsContinuation(s[1]) then
      Some((s[0] as int - 0xC0) * 64 + Low(s[1]))
    else if |s| == 3 && '\U{E0}' <= s[0] <= '\U{EF}' && IsContinuation(s[1]) && IsContinuation(s[2]) then
      Some(((s[0] as int - 0xE0) * 64 + Low(s[1])) * 64 + Low(s[2]))
    else if |s| == 4 && '\U{F0}' <= s[0] <= '\U{F7}'
      && IsContinuation(s[1]) && IsContinuation(s[2]) && IsContinuation(s[3]) then
      Some((((s[0] as int - 0xF0) * 64 + Low(s[1])) * 64 + Low(s[2])) * 64 + Low(s[3]))
    else None
  }

  lemma Sixes(u: nat)
    ensures u == u / 64 * 64 + u % 64 && u / 64 / 64 == u / 4096 && u / 4096 / 64 == u / 262144
    ensures u / 64 == u / 4096 * 64 + u / 64 % 64 && u / 4096 == u / 262144 * 64 + u / 4096 % 64
  {
  }

  lemma TwoIsRead(u: nat)
    requires 0x80 <= u < 0x800
    ensures CodePoint(EncodeScalar(u)) == Some(u)
  {
    Sixes(u);
    assert 2 <= u / 64 < 32;
  }

  lemma ThreeIsRead(u: nat)
    requires 0x800 <= u < 0x10000 && IsCodePoint(u)
    ensures CodePoint(EncodeScalar(u)) == Some(u)
  {
    Sixes(u);
    assert u / 4096 < 16;
  }

  lemma FourIsRead(u: nat)
    requires 0x10000 <= u < 0x110000
    ensures CodePoint(EncodeScalar(u)) == Some(u)
  {
    Sixes(u);
    assert u / 262144 < 5;
  }

  /** Encoding a code point is undone by decoding. */
  lemma EncodedIsRead(u: int)
    requires IsCodePoint(u)
    ensures CodePoint(EncodeScalar(u)) == Some(u)
  {
    hide CodePoint, EncodeScalar;
    if u < 0x80 {
      OneIsRead(u);
    } else if u < 0x800 {
      TwoIsRead(u);
    } else if u < 0x10000 {
      ThreeIsRead(u);
    } else {
      FourIsRead(u);
    }
  }

  lemma OneIsRead(u: nat)
    requires u < 0x80
    ensures CodePoint(EncodeScalar(u)) == Some(u)
  {
  }

  lemma TwoIsEncoded(a: Byte, b: Byte)
    requires '\U{C2}' <= a <= '\U{DF}' && IsContinuation(b)
    ensures CodePoint([a, b]).Some? && IsCodePoint(CodePoint([a, b]).value)
    ensures EncodeScalar(CodePoint([a, b]).value) == [a, b]
  {
    var u := CodePoint([a, b]).value;
    assert u / 64 == a as int - 0xC0 && u % 64 == Low(b);
  }

  lemma ThreeIsEncoded(a: Byte, b: Byte, c: Byte)
    requires IsLead3(a, b) && IsContinuation(c)
    ensures CodePoint([a, b, c]).Some? && IsCodePoint(CodePoint([a, b, c]).value)
    ensures EncodeScalar(CodePoint([a, b, c]).value) == [a, b, c]
  {
    var u := CodePoint([a, b, c]).value;
    assert u / 64 == (a as int - 0xE0) * 64 + Low(b) && u % 64 == Low(c);
    assert u / 4096 == a as int - 0xE0 && u / 64 % 64 == Low(b);
  }

  lemma FourIsEncoded(a: Byte, b: Byte, c: Byte, d: Byte)
    requires IsLead4(a, b) && IsContinuation(c) && IsContinuation(d)
    ensures CodePoint([a, b, c, d]).Some? && IsCodePoint(CodePoint([a, b, c, d]).value)
    ensures EncodeScalar(CodePoint([a, b, c, d]).value) == [a, b, c, d]
  {
    var u := CodePoint([a, b, c, d]).value;
    assert u / 64 == ((a as int - 0xF0) * 64 + Low(b)) * 64 + Low(c) && u % 64 == Low(d);
    assert u / 4096 == (a as int - 0xF0) * 64 + Low(b) && u / 64 % 64 == Low(c);
    assert u / 262144 == a as int - 0xF0 && u / 4096 % 64 == Low(b);
  }

  /** And each scalar of valid text is the encoding of its code point: no other form is accepted. */
  lemma ScalarIsEncoded(s: Text)
    requires IsScalar(s)
    ensures CodePoint(s).Some? && IsCodePoint(CodePoint(s).value) && EncodeScalar(CodePoint(s).value) == s
  {
    hide CodePoint, EncodeScalar, IsLead3, IsLead4;
    if |s| == 1 {
      OneIsEncoded(s[0]);
      assert s == [s[0]];
    } else if |s| == 2 {
      TwoIsEncoded(s[0], s[1]);
      assert s == [s[0], s[1]];
    } else if |s| == 3 {
      ThreeIsEncoded(s[0], s[1], s[2]);
      assert s == [s[0], s[1], s[2]];
    } else {
      FourIsEncoded(s[0], s[1], s[2], s[3]);
      assert s == [s[0], s[1], s[2], s[3]];
    }
  }

  lemma OneIsEncoded(a: Byte)
    requires a < '\U{80}'
    ensures CodePoint([a]).Some? && IsCodePoint(CodePoint([a]).value) && EncodeScalar(CodePoint([a]).value) == [a]
  {
  }

  // ==== \u escapes ====

  lemma FourDigits(h: Text)
    requires |h| == 4 && DigitsValue(h, 16).Some?
    ensures IsHex(h) && HexValue(h) == DigitsValue(h, 16).value
  {
    var a, b, c := h[..3], h[..2], h[..1];
    assert a[..2] == b && b[..1] == c && c[..0] == [];
    assert DigitsValue([], 16) == Some(0);
    assert DigitsValue(c, 16).Some? && DigitsValue(b, 16).Some? && DigitsValue(a, 16).Some?;
  }

  /** A string literal of some characters parses to what they denote. */
  lemma StringParses(cs: seq<Chr>, text: Text)
    requires AreChrs(cs) && text == StringDoc(cs)
    ensures Parsed(text) == Ok(Str(DenoteChrs(cs)))
  {
    hide ChrsDoc, AreChrs, DenoteChrs, Parsed;
    var c := CStr(cs);
    NilLeft(text);
    assert text + [] == text;
    assert Derives(c, [], [], text);
    DerivedParses(c, [], [], text);
  }

  /** One scalar, by its escapes. */
  predicate IsScalarText(r: Result<Json, ParseError>, u: int) {
    r.Ok? && r.value.Str? && IsUtf8(r.value.s) && CodePoint(r.value.s) == Some(u)
  }

  /** A surrogate pair stands for the scalar above U+FFFF that it encodes in UTF-16. */
  lemma PairParses(u: int, hi: Text, lo: Text)
    requires 0x10000 <= u < 0x110000 && |hi| == 4 && |lo| == 4
    requires DigitsValue(hi, 16) == Some(0xD800 + (u - 0x10000) / 1024)
    requires DigitsValue(lo, 16) == Some(0xDC00 + (u - 0x10000) % 1024)
    ensures IsScalarText(Parsed("\"\\u" + (hi + ("\\u" + (lo + "\"")))), u)
  {
    hide IsHigh, IsLow, Parsed, EncodeScalar, CodePoint, DigitsValue, IsUtf8, StringDoc, AreChrs, DenoteChrs, Pair;
    FourDigits(hi);
    FourDigits(lo);
    PairIsCodePoint(u, HexValue(hi), HexValue(lo));
    PairDenotes(hi, lo);
    PairText(hi, lo);
    StringParses([Uni(hi), Uni(lo)], "\"\\u" + (hi + ("\\u" + (lo + "\""))));
    EncodedIsRead(u);
    ScalarIsUtf8(EncodeScalar(u));
  }

  lemma PairText(hi: Text, lo: Text)
    requires |hi| == 4 && IsHex(hi) && |lo| == 4 && IsHex(lo)
    ensures AreChrs([Uni(hi), Uni(lo)])
    ensures "\"\\u" + (hi + ("\\u" + (lo + "\""))) == StringDoc([Uni(hi), Uni(lo)])
  {
    hide IsHex;
    var x, y := "\\u" + hi, "\\u" + lo;
    assert [Uni(hi), Uni(lo)][1..] == [Uni(lo)] && [Uni(lo)][1..] == [];
    assert ChrsDoc([Uni(lo)]) == y + ChrsDoc([]) && ChrsDoc([]) == [];
    NilLeft(y);
    assert ChrsDoc([Uni(hi), Uni(lo)]) == x + y;
    calc {
      "\"" + ((x + y) + "\"");
    == { Assoc(x, y, "\""); }
      "\"" + (x + (y + "\""));
    == { Assoc("\\u", lo, "\""); Assoc("\\u", hi, "\\u" + (lo + "\"")); }
      "\"" + ("\\u" + (hi + ("\\u" + (lo + "\""))));
    == { Assoc("\"", "\\u", hi + ("\\u" + (lo + "\""))); assert "\"\\u" == "\"" + "\\u"; }
      "\"\\u" + (hi + ("\\u" + (lo + "\"")));
    }
  }

  lemma PairDenotes(hi: Text, lo: Text)
    requires |hi| == 4 && IsHex(hi) && |lo| == 4 && IsHex(lo) && IsHigh(HexValue(hi)) && IsLow(HexValue(lo))
    ensures AreChrs([Uni(hi), Uni(lo)])
    ensures DenoteChrs([Uni(hi), Uni(lo)]) == EncodeScalar(Pair(HexValue(hi), HexValue(lo)))
  {
    hide EncodeScalar, Pair, HexValue, IsHigh, IsLow;
    assert [Uni(hi), Uni(lo)][2..] == [] && DenoteChrs([]) == [];
  }

  lemma PairIsCodePoint(u: int, hi: int, lo: int)
    requires 0x10000 <= u < 0x110000 && hi == 0xD800 + (u - 0x10000) / 1024 && lo == 0xDC00 + (u - 0x10000) % 1024
    ensures IsHigh(hi) && IsLow(lo) && Pair(hi, lo) == u && IsCodePoint(u)
  {
  }

  /** Any other code unit stands for the scalar of its own number. */
  lemma UnitParses(u: int, h: Text)
    requires 0 <= u < 0x10000 && !(0xD800 <= u < 0xE000) && |h| == 4 && DigitsValue(h, 16) == Some(u)
    ensures IsScalarText(Parsed("\"\\u" + (h + "\"")), u)
  {
    hide Parsed, EncodeScalar, CodePoint, DigitsValue, IsUtf8, StringDoc, AreChrs, DenoteChrs;
    FourDigits(h);
    UnitText(h);
    UnitDenotes(h);
    StringParses([Uni(h)], "\"\\u" + (h + "\""));
    EncodedIsRead(u);
    ScalarIsUtf8(EncodeScalar(u));
  }

  lemma UnitText(h: Text)
    requires |h| == 4 && IsHex(h)
    ensures AreChrs([Uni(h)]) && "\"\\u" + (h + "\"") == StringDoc([Uni(h)])
  {
    assert [Uni(h)][1..] == [] && ChrsDoc([]) == [];
  }

  lemma UnitDenotes(h: Text)
    requires |h| == 4 && IsHex(h)
    ensures AreChrs([Uni(h)])
    ensures DenoteChrs([Uni(h)]) ==
      if 0xD800 <= HexValue(h) < 0xE000 then "\U{EF}\U{BF}\U{BD}" else EncodeScalar(HexValue(h))
  {
    hide EncodeScalar, HexValue;
    assert [Uni(h)][1..] == [] && DenoteChrs([]) == [];
  }

  /** A surrogate by itself stands for U+FFFD. */
  lemma LoneSurrogateParses(u: int, h: Text)
    requires 0xD800 <= u < 0xE000 && |h| == 4 && DigitsValue(h, 16) == Some(u)
    ensures IsScalarText(Parsed("\"\\u" + (h + "\"")), 0xFFFD)
  {
    hide Parsed, DigitsValue, IsUtf8, StringDoc, AreChrs, DenoteChrs;
    FourDigits(h);
    UnitText(h);
    UnitDenotes(h);
    StringParses([Uni(h)], "\"\\u" + (h + "\""));
    ScalarIsUtf8("\U{EF}\U{BF}\U{BD}");
  }

  /** A high surrogate and something else than a low one stand for U+FFFD and that. */
  lemma BrokenPairParses(u: int, v: int, hi: Text, lo: Text)
    requires 0xD800 <= u < 0xDC00 && 0 <= v < 0x10000 && !(0xD800 <= v < 0xE000) && |hi| == 4 && |lo| == 4
    requires DigitsValue(hi, 16) == Some(u) && DigitsValue(lo, 16) == Some(v)
    ensures Parsed("\"\\u" + (hi + ("\\u" + (lo + "\"")))) == Ok(Str("\U{EF}\U{BF}\U{BD}" + EncodeScalar(v)))
  {
    hide Parsed, EncodeScalar, CodePoint, DigitsValue, IsUtf8, StringDoc, AreChrs, DenoteChrs;
    FourDigits(hi);
    FourDigits(lo);
    PairText(hi, lo);
    BrokenPairDenotes(hi, lo);
    StringParses([Uni(hi), Uni(lo)], "\"\\u" + (hi + ("\\u" + (lo + "\""))));
  }

  lemma BrokenPairDenotes(hi: Text, lo: Text)
    requires |hi| == 4 && IsHex(hi) && |lo| == 4 && IsHex(lo)
    requires 0xD800 <= HexValue(hi) < 0xDC00 && !(0xD800 <= HexValue(lo) < 0xE000)
    ensures AreChrs([Uni(hi), Uni(lo)])
    ensures DenoteChrs([Uni(hi), Uni(lo)]) == "\U{EF}\U{BF}\U{BD}" + EncodeScalar(HexValue(lo))
  {
    hide EncodeScalar, HexValue;
    assert [Uni(hi), Uni(lo)][1..] == [Uni(lo)] && [Uni(lo)][1..] == [] && DenoteChrs([]) == [];
    assert DenoteChrs([Uni(lo)]) == EncodeScalar(HexValue(lo));
  }

  // ==== two-character escapes ====

  const CODES: Text := "\"\\/bfnrt"
  const VALUES: Text := "\"\\/\U{8}\U{C}\n\r\t"

  lemma EscapeTable(code: Byte)
    ensures |CODES| == |VALUES| == 8
    ensures EscapeValue(code) == if code in CODES then Some(VALUES[IndexOf(code)]) else None
  {
  }

  function IndexOf(code: Byte): (i: nat)
    requires code in CODES
    ensures i < |VALUES| == |CODES| && CODES[i] == code
  {
    if code == '\"' then 0 else if code == '\\' then 1 else if code == '/' then 2 else if code == 'b' then 3
    else if code == 'f' then 4 else if code == 'n' then 5 else if code == 'r' then 6 else 7
  }

  lemma EscapeText(code: Byte)
    requires IsChr(Esc(code))
    ensures AreChrs([Esc(code)]) && "\"\\" + ([code] + "\"") == StringDoc([Esc(code)])
    ensures DenoteChrs([Esc(code)]) == [EscapeValue(code).value]
  {
    hide EscapeValue;
    assert [Esc(code)][1..] == [] && ChrsDoc([]) == [] && DenoteChrs([]) == [];
    assert "\"\\" + ([code] + "\"") == "\"" + (['\\', code] + "\"");
  }

  lemma BadEscape(s: Text, code: Byte)
    requires code != 'u' && EscapeValue(code).None? && s == ['\"', '\\', code, '\"']
    ensures Parsed(s) == Err(ParseError(3, "bad escape"))
  {
    hide EscapeValue;
    assert s[1..][0] == '\\' && s[1..][1] == code && |s[1..]| == 3;
    assert ParseChars(s[1..], []) == Bad(1, "bad escape");
    assert ParseValue(s, 0) == Bad(1, "bad escape");
  }

  /** After a backslash, each of eight characters stands for its partner, and no other but `u` may
      follow. */
  lemma EscapeParses(code: Byte)
    requires code != 'u'
    ensures Parsed("\"\\" + ([code] + "\"")) ==
      if code in CODES then Ok(Str([VALUES[IndexOf(code)]])) else Err(ParseError(3, "bad escape"))
  {
    hide Parsed, EscapeValue, CODES, VALUES, StringDoc, DenoteChrs, AreChrs;
    EscapeTable(code);
    if code in CODES {
      EscapeText(code);
      StringParses([Esc(code)], "\"\\" + ([code] + "\""));
    } else {
      BadEscape("\"\\" + ([code] + "\""), code);
    }
  }
}
