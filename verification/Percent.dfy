/** Percent encoding of backend/src/stripe.rs and percent decoding of backend/src/http.rs. */
module Percent {
  import opened Alphabet
  import opened Bytes
  import opened Utf8
  import opened Numerals
  import opened Splitting

  // ==== decoding ====

  /** `percent_decode`, before invalid UTF-8 is replaced: a malformed escape stays as it is. */
  function Decoded(s: Text, plus: bool): Text {
    if s == [] then []
    else if s[0] == '%' && |s| > 2 && HexVal(s[1]).Some? && HexVal(s[2]).Some? then
      [(HexVal(s[1]).value * 16 + HexVal(s[2]).value) as char] + Decoded(s[3..], plus)
    else if s[0] == '+' && plus then " " + Decoded(s[1..], plus)
    else [s[0]] + Decoded(s[1..], plus)
  }

  function PercentDecoded(s: Text, plus: bool): Text {
    Lossy(Decoded(s, plus))
  }

  /** A percent sign and two hexadecimal digits. */
  predicate IsEscape(s: Text, high: int, low: int) {
    && 0 <= high < 16 && 0 <= low < 16 && |s| == 3 && s[0] == '%'
    && (s[1] == LOWER_DIGITS[high] || s[1] == UPPER_DIGITS[high])
    && (s[2] == LOWER_DIGITS[low] || s[2] == UPPER_DIGITS[low])
  }

  ghost predicate StartsEscape(s: Text) {
    |s| >= 3 && exists high, low :: IsEscape(s[..3], high, low)
  }

  /** An escape stands for its byte. Whatever begins no escape stays, a stray percent sign too, but for
      a plus sign where that means a space. */
  lemma DecodedExactly(s: Text, plus: bool)
    ensures Decoded([], plus) == []
    ensures forall high, low :: |s| >= 3 && IsEscape(s[..3], high, low) ==>
      Decoded(s, plus) == [(16 * high + low) as char] + Decoded(s[3..], plus)
    ensures s != [] && !StartsEscape(s) ==>
      Decoded(s, plus) == [if s[0] == '+' && plus then ' ' else s[0]] + Decoded(s[1..], plus)
  {
    hide HexVal;
    if |s| >= 3 {
      forall high, low | IsEscape(s[..3], high, low)
        ensures Decoded(s, plus) == [(16 * high + low) as char] + Decoded(s[3..], plus)
      {
        DigitTable(s[1], high);
        DigitTable(s[2], low);
      }
      if s[0] == '%' && HexVal(s[1]).Some? && HexVal(s[2]).Some? {
        DigitTable(s[1], HexVal(s[1]).value);
        DigitTable(s[2], HexVal(s[2]).value);
        assert IsEscape(s[..3], HexVal(s[1]).value, HexVal(s[2]).value);
      }
    }
  }

  /** The loop of `percent_decode`. */
  method PercentDecode(s: Text, plus: bool) returns (r: Text)
    ensures r == PercentDecoded(s, plus)
  {
    hide Lossy;
    var out: Text := [];
    var i := 0;
    ghost var rest := s;
    while i < |s|
      invariant i <= |s| && rest == s[i..] && Decoded(s, plus) == out + Decoded(rest, plus)
    {
      var c := s[i];
      ghost var before, was := out, rest;
      if c == '%' && i + 2 < |s| {
        match (HexVal(s[i + 1]), HexVal(s[i + 2])) {
          case (Some(h), Some(l)) =>
            out := out + [(h * 16 + l) as char];
            i := i + 3;
            rest := rest[3..];
          case _ =>
            out := out + "%";
            i := i + 1;
            rest := rest[1..];
        }
      } else {
        out := out + [if c == '+' && plus then ' ' else c];
        i := i + 1;
        rest := rest[1..];
      }
      ghost var byte := out[|before|..];
      assert out == before + byte;
      assert Decoded(was, plus) == byte + Decoded(rest, plus);
      Assoc(before, byte, Decoded(rest, plus));
    }
    NilLeft(out);
    r := Lossy(out);
  }

  // ==== encoding ====

  predicate IsUnreserved(c: Byte) {
    'A' <= c <= 'Z' || 'a' <= c <= 'z' || '0' <= c <= '9' || c == '-' || c == '.' || c == '_' || c == '~'
  }

  function EncodedByte(c: Byte): Text {
    if IsUnreserved(c) then [c] else ['%', UpperHexDigit(c as int / 16), UpperHexDigit(c as int % 16)]
  }

  function Encoded(s: Text): Text {
    if s == [] then [] else EncodedByte(s[0]) + Encoded(s[1..])
  }

  /** The loop of `percent_encode`. */
  method PercentEncode(s: Text) returns (out: Text)
    ensures out == Encoded(s)
  {
    hide UpperHexDigit, IsUnreserved;
    out := [];
    ghost var rest := s;
    NilLeft(Encoded(s));
    for i := 0 to |s|
      invariant rest == s[i..] && Encoded(s) == out + Encoded(rest)
    {
      Assoc(out, EncodedByte(s[i]), Encoded(rest[1..]));
      if IsUnreserved(s[i]) {
        out := out + [s[i]];
      } else {
        out := out + ['%', UpperHexDigit(s[i] as int / 16), UpperHexDigit(s[i] as int % 16)];
      }
      rest := rest[1..];
    }
    NilLeft(out);
  }

  /** The unreserved characters of section 2.3 of RFC 3986 stay; every other byte becomes an escape with
      upper-case digits. */
  lemma EncodedExactly(c: Byte)
    ensures EncodedByte(c) == [c] <==> c in CAPITALS || c in SMALL || c in DIGITS || c in "-._~"
    ensures EncodedByte(c) == [c] || exists high, low :: IsUpperEscape(EncodedByte(c), high, low, c)
  {
    hide CAPITALS, SMALL, DIGITS;
    CapitalsExactly(c);
    SmallExactly(c);
    DigitsExactly(c);
    if !IsUnreserved(c) {
      DigitTable('0', c as int / 16);
      DigitTable('0', c as int % 16);
      assert IsUpperEscape(EncodedByte(c), c as int / 16, c as int % 16, c);
    }
  }

  predicate IsUpperEscape(s: Text, high: int, low: int, c: Byte) {
    && 0 <= high < 16 && 0 <= low < 16 && c as int == 16 * high + low
    && s == ['%', UPPER_DIGITS[high], UPPER_DIGITS[low]]
  }

  lemma EncodedByteIs(c: Byte, rest: Text, plus: bool)
    ensures Decoded(EncodedByte(c) + rest, plus) == [c] + Decoded(rest, plus)
    ensures forall i :: 0 <= i < |EncodedByte(c)| ==>
      (IsUnreserved(EncodedByte(c)[i]) || EncodedByte(c)[i] == '%') && EncodedByte(c)[i] < '\U{80}'
  {
    var s := EncodedByte(c) + rest;
    if IsUnreserved(c) {
      assert s[1..] == rest;
    } else {
      assert s[3..] == rest;
    }
  }

  /** Decoding undoes encoding, byte for byte, in either plus mode. */
  lemma {:induction false} DecodeEncoded(s: Text, plus: bool)
    ensures Decoded(Encoded(s), plus) == s
  {
    if s != [] {
      EncodedByteIs(s[0], Encoded(s[1..]), plus);
      DecodeEncoded(s[1..], plus);
    }
  }

  /** Encoded text is unreserved ASCII and '%'. */
  lemma {:induction false} EncodedBytes(s: Text)
    ensures forall i :: 0 <= i < |Encoded(s)| ==>
      (IsUnreserved(Encoded(s)[i]) || Encoded(s)[i] == '%') && Encoded(s)[i] < '\U{80}'
  {
    if s != [] {
      EncodedByteIs(s[0], [], false);
      EncodedBytes(s[1..]);
    }
  }

  // ==== forms and queries ====

  datatype Pair = Pair(key: Text, value: Text)

  /** `form_encode` */
  function FormEncoded(pairs: seq<Pair>): Text {
    if pairs == [] then []
    else
      Encoded(pairs[0].key) + ("=" + (Encoded(pairs[0].value) + (
        if |pairs| == 1 then [] else "&" + FormEncoded(pairs[1..]))))
  }

  /** The loop of `form_encode`, which puts '&' before every pair but the first. */
  method FormEncode(pairs: seq<Pair>) returns (out: Text)
    ensures out == FormEncoded(pairs)
  {
    hide Encoded, FormEncoded, FormTail;
    out := [];
    var i := 0;
    ghost var rest := pairs;
    NilLeft(FormEncoded(pairs));
    FormTailEnds(pairs);
    while i < |pairs|
      invariant i <= |pairs| && (out == [] <==> i == 0) && rest == pairs[i..]
      invariant FormEncoded(pairs) == out + FormTail(rest, i == 0)
    {
      var sep := if out != [] then "&" else "";
      var k := PercentEncode(pairs[i].key);
      var v := PercentEncode(pairs[i].value);
      FormTailStep(out, rest, i == 0);
      out := ((out + sep) + k) + ("=" + v);
      i := i + 1;
      rest := rest[1..];
    }
    FormTailEnds([]);
    NilLeft(out);
  }

  /** What is still to be written: all of it at first, and later with a leading '&'. */
  function FormTail(pairs: seq<Pair>, first: bool): Text {
    if pairs == [] then [] else (if first then "" else "&") + FormEncoded(pairs)
  }

  lemma FormTailEnds(pairs: seq<Pair>)
    ensures FormTail(pairs, true) == FormEncoded(pairs) && FormTail([], false) == [] && FormTail([], true) == []
  {
    hide Encoded;
    NilLeft(FormEncoded(pairs));
  }

  lemma FormEncodedStep(pairs: seq<Pair>)
    requires pairs != []
    ensures FormEncoded(pairs) ==
      Encoded(pairs[0].key) + ("=" + (Encoded(pairs[0].value) + FormTail(pairs[1..], false)))
  {
    hide Encoded;
    if |pairs| == 1 {
      assert pairs[1..] == [];
    }
  }

  lemma FormTailStep(out: Text, pairs: seq<Pair>, first: bool)
    requires pairs != []
    ensures var sep := if first then "" else "&";
      var next := ((out + sep) + Encoded(pairs[0].key)) + ("=" + Encoded(pairs[0].value));
      out + FormTail(pairs, first) == next + FormTail(pairs[1..], false)
  {
    hide Encoded, FormEncoded;
    var sep := if first then "" else "&";
    var k, v, tail := Encoded(pairs[0].key), Encoded(pairs[0].value), FormTail(pairs[1..], false);
    FormEncodedStep(pairs);
    Assoc("=", v, tail);
    Assoc(out, sep, k + ("=" + (v + tail)));
    Assoc(out + sep, k, "=" + (v + tail));
    Assoc((out + sep) + k, "=" + v, tail);
  }

  /** `Request::query_param` over the pieces between the '&'s. */
  function FirstMatch(pieces: seq<Text>, name: Text): Option<Text> {
    if pieces == [] then None
    else if pieces[0] == [] then FirstMatch(pieces[1..], name)
    else
      var kv := match SplitOnce(pieces[0], '=') case Some(p) => p case None => (pieces[0], []);
      if PercentDecoded(kv.0, true) == name then Some(PercentDecoded(kv.1, true)) else FirstMatch(pieces[1..], name)
  }

  function QueryParam(query: Text, name: Text): Option<Text> {
    FirstMatch(Split(query, '&'), name)
  }

  method FindParam(query: Text, name: Text) returns (r: Option<Text>)
    ensures r == QueryParam(query, name)
  {
    var pieces := Split(query, '&');
    var i := 0;
    assert pieces[0..] == pieces;
    while i < |pieces|
      invariant i <= |pieces| && FirstMatch(pieces, name) == FirstMatch(pieces[i..], name)
    {
      assert pieces[i..][1..] == pieces[i + 1..];
      if pieces[i] != [] {
        var kv := match SplitOnce(pieces[i], '=') case Some(p) => p case None => (pieces[i], []);
        var k := PercentDecode(kv.0, true);
        if k == name {
          var v := PercentDecode(kv.1, true);
          return Some(v);
        }
      }
      i := i + 1;
    }
    r := None;
  }

  /** The value of the first pair with key `name`. */
  function FirstValue(pairs: seq<Pair>, name: Text): Option<Text> {
    if pairs == [] then None
    else if pairs[0].key == name then Some(pairs[0].value)
    else FirstValue(pairs[1..], name)
  }

  predicate AreTexts(pairs: seq<Pair>) {
    forall i :: 0 <= i < |pairs| ==> IsUtf8(pairs[i].key) && IsUtf8(pairs[i].value)
  }

  lemma EncodedLacks(s: Text, c: Byte)
    requires !IsUnreserved(c) && c != '%'
    ensures Lacks(Encoded(s), c)
  {
    hide Encoded;
    EncodedBytes(s);
  }

  lemma PieceLacks(k: Text, v: Text)
    ensures Lacks(Encoded(k) + ("=" + Encoded(v)), '&') && Encoded(k) + ("=" + Encoded(v)) != []
  {
    hide Encoded, Lacks;
    EncodedLacks(k, '&');
    EncodedLacks(v, '&');
    assert Lacks("=", '&') by { assert "="[0] == '='; SingleLacks('=', '&'); }
    LacksBoth("=", Encoded(v), '&');
    LacksBoth(Encoded(k), "=" + Encoded(v), '&');
  }

  lemma SingleLacks(a: Byte, c: Byte)
    requires a != c
    ensures Lacks([a], c)
  {
  }

  lemma DecodeText(s: Text, plus: bool)
    requires IsUtf8(s)
    ensures PercentDecoded(Encoded(s), plus) == s
  {
    hide Encoded, Decoded, Lossy, IsUtf8;
    DecodeEncoded(s, plus);
  }

  lemma PieceMatches(p: Pair)
    requires IsUtf8(p.key) && IsUtf8(p.value)
    ensures var piece := Encoded(p.key) + ("=" + Encoded(p.value));
      && Lacks(piece, '&') && piece != []
      && SplitOnce(piece, '=') == Some((Encoded(p.key), Encoded(p.value)))
      && PercentDecoded(Encoded(p.key), true) == p.key && PercentDecoded(Encoded(p.value), true) == p.value
  {
    hide Encoded, PercentDecoded, SplitOnce, IsUtf8, Lacks;
    PieceLacks(p.key, p.value);
    EncodedLacks(p.key, '=');
    SplitOnceIn(Encoded(p.key), '=', Encoded(p.value));
    DecodeText(p.key, true);
    DecodeText(p.value, true);
  }

  /** Reading a parameter of an encoded form gives the value of the first pair with that key, or
      nothing when no pair has it. */
  lemma {:induction false} FormRoundTrip(pairs: seq<Pair>, name: Text)
    requires AreTexts(pairs)
    ensures QueryParam(FormEncoded(pairs), name) == FirstValue(pairs, name)
  {
    hide Encoded, PercentDecoded, SplitOnce, Find, IsUtf8;
    if pairs == [] {
      SplitNone([], '&');
      assert FirstMatch([[]], name) == FirstMatch([[]][1..], name);
    } else {
      var p := pairs[0];
      var piece := Encoded(p.key) + ("=" + Encoded(p.value));
      PieceMatches(p);
      if |pairs| == 1 {
        assert FormEncoded(pairs) == piece;
        SplitNone(piece, '&');
        assert [piece][1..] == [] && pairs[1..] == [];
        assert FirstMatch([], name) == None;
      } else {
        var tail := FormEncoded(pairs[1..]);
        FormEncodedMore(pairs, piece, tail);
        SplitIn(piece, '&', tail);
        assert ([piece] + Split(tail, '&'))[1..] == Split(tail, '&');
        FormRoundTrip(pairs[1..], name);
      }
    }
  }

  lemma FormEncodedMore(pairs: seq<Pair>, piece: Text, tail: Text)
    requires |pairs| > 1 && tail == FormEncoded(pairs[1..])
    requires piece == Encoded(pairs[0].key) + ("=" + Encoded(pairs[0].value))
    ensures FormEncoded(pairs) == piece + (['&'] + tail)
  {
    hide Encoded, FormEncoded;
    var k, v := Encoded(pairs[0].key), Encoded(pairs[0].value);
    FormEncodedStep(pairs);
    assert FormTail(pairs[1..], false) == ['&'] + tail;
    Assoc("=", v, ['&'] + tail);
    Assoc(k, "=" + v, ['&'] + tail);
  }
}
