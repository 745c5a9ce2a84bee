/** `hex_encode` and `hex_decode` of backend/src/crypto.rs. */
module Hex {
  import opened Bytes
  import opened Numerals
  import opened Trim

  function HexPair(b: Byte): (t: Text)
    ensures |t| == 2
  {
    [LowerHexDigit(b as int / 16), LowerHexDigit(b as int % 16)]
  }

  function HexEncoded(s: Text): (t: Text)
    ensures |t| == 2 * |s|
  {
    if s == [] then [] else HexPair(s[0]) + HexEncoded(s[1..])
  }

  function HexDecoded(t: Text): Option<Text> {
    if t == [] then Some([])
    else if |t| == 1 then None
    else
      match (HexVal(t[0]), HexVal(t[1]), HexDecoded(t[2..]))
      case (Some(high), Some(low), Some(tail)) => Some([(high * 16 + low) as char] + tail)
      case _ => None
  }

  /** `hex_encode` */
  method HexEncode(s: Text) returns (out: Text)
    ensures out == HexEncoded(s)
  {
    hide LowerHexDigit;
    out := [];
    ghost var rest := s;
    NilLeft(HexEncoded(s));
    for i := 0 to |s|
      invariant rest == s[i..] && HexEncoded(s) == out + HexEncoded(rest)
    {
      Assoc(out, HexPair(s[i]), HexEncoded(rest[1..]));
      out := out + [LowerHexDigit(s[i] as int / 16)] + [LowerHexDigit(s[i] as int % 16)];
      rest := rest[1..];
    }
    NilLeft(out);
  }

  /** `hex_decode` */
  method HexDecode(t: Text) returns (r: Option<Text>)
    ensures r == HexDecoded(t)
  {
    hide HexVal;
    if |t| % 2 != 0 {
      OddIsNone(t);
      return None;
    }
    var out: Text := [];
    var i := 0;
    ghost var rest := t;
    AfterNone(HexDecoded(t));
    while i < |t|
      invariant i <= |t| && rest == t[i..] && |rest| % 2 == 0 && HexDecoded(t) == After(out, HexDecoded(rest))
    {
      var high, low := HexVal(t[i]), HexVal(t[i + 1]);
      if high.None? || low.None? {
        return None;
      }
      AfterTwo(out, [(high.value * 16 + low.value) as char], HexDecoded(rest[2..]));
      out := out + [(high.value * 16 + low.value) as char];
      i := i + 2;
      rest := rest[2..];
    }
    NilLeft(out);
    r := Some(out);
  }

  lemma {:induction false} OddIsNone(t: Text)
    requires |t| % 2 != 0
    ensures HexDecoded(t).None?
    decreases |t|
  {
    if |t| > 1 {
      OddIsNone(t[2..]);
    }
  }

  lemma ByteOfPair(b: Byte)
    ensures HexVal(HexPair(b)[0]) == Some(b as int / 16) && HexVal(HexPair(b)[1]) == Some(b as int % 16)
    ensures (b as int / 16 * 16 + b as int % 16) as char == b
  {
  }

  lemma {:induction false} DecodeEncoded(s: Text)
    ensures HexDecoded(HexEncoded(s)) == Some(s)
  {
    hide HexVal, HexPair;
    if s != [] {
      ByteOfPair(s[0]);
      DecodeEncoded(s[1..]);
      assert HexEncoded(s)[2..] == HexEncoded(s[1..]);
      assert s == [s[0]] + s[1..];
    }
  }

  lemma DigitIsLowered(c: Byte, d: Byte)
    requires HexVal(c).Some? && HexVal(d).Some?
    ensures Lower(LowerHexDigit(HexVal(c).value)) == Lower(c)
    ensures (HexVal(c).value * 16 + HexVal(d).value) / 16 == HexVal(c).value
    ensures (HexVal(c).value * 16 + HexVal(d).value) % 16 == HexVal(d).value
  {
  }

  /** Exactly the spellings of some bytes decode, in either case, and to those bytes. */
  lemma {:induction false} DecodesExactly(t: Text, s: Text)
    ensures HexDecoded(t) == Some(s) <==> LowerAll(t) == LowerAll(HexEncoded(s))
    decreases |t|
  {
    if HexDecoded(t) == Some(s) {
      DecodedIsSpelled(t);
    } else if LowerAll(t) == LowerAll(HexEncoded(s)) {
      SameDecoding(t, HexEncoded(s));
      DecodeEncoded(s);
    }
  }

  lemma {:induction false} DecodedIsSpelled(t: Text)
    requires HexDecoded(t).Some?
    ensures LowerAll(t) == LowerAll(HexEncoded(HexDecoded(t).value))
    decreases |t|
  {
    hide HexVal, LowerHexDigit, Lower;
    if t != [] {
      var tail := HexDecoded(t[2..]).value;
      DecodedIsSpelled(t[2..]);
      DigitIsLowered(t[0], t[1]);
      DigitIsLowered(t[1], t[0]);
      var s := HexDecoded(t).value;
      assert s[1..] == tail;
      LowerTwo(t);
      LowerTwo(HexEncoded(s));
      assert HexEncoded(s)[2..] == HexEncoded(tail);
    }
  }

  lemma LowerTwo(t: Text)
    requires |t| >= 2
    ensures LowerAll(t) == [Lower(t[0]), Lower(t[1])] + LowerAll(t[2..])
  {
    hide Lower;
  }

  lemma SameDigit(c: Byte, d: Byte)
    requires Lower(c) == Lower(d)
    ensures HexVal(c) == HexVal(d)
  {
  }

  lemma {:induction false} SameDecoding(t: Text, u: Text)
    requires LowerAll(t) == LowerAll(u)
    ensures HexDecoded(t) == HexDecoded(u)
    decreases |t|
  {
    hide HexVal, Lower;
    if |t| >= 2 {
      LowerTwo(t);
      LowerTwo(u);
      assert LowerAll(t)[2..] == LowerAll(t[2..]) && LowerAll(u)[2..] == LowerAll(u[2..]);
      assert LowerAll(t)[0] == LowerAll(u)[0] && LowerAll(t)[1] == LowerAll(u)[1];
      SameDigit(t[0], u[0]);
      SameDigit(t[1], u[1]);
      SameDecoding(t[2..], u[2..]);
    } else {
      assert |LowerAll(t)| == |LowerAll(u)|;
    }
  }
}
