/** Decimal and hexadecimal numerals, as Rust formats and parses them. */
module Numerals {
  import opened Bytes

  predicate IsDigit(c: Byte) {
    '0' <= c <= '9'
  }

  predicate AllDigits(s: Text) {
    forall i :: 0 <= i < |s| ==> IsDigit(s[i])
  }

  /** Value of one hexadecimal digit in either case. */
  function HexVal(c: Byte): (v: Option<int>)
    ensures v.Some? ==> 0 <= v.value < 16
  {
    if '0' <= c <= '9' then Some(c as int - '0' as int)
    else if 'a' <= c <= 'f' then Some(c as int - 'a' as int + 10)
    else if 'A' <= c <= 'F' then Some(c as int - 'A' as int + 10)
    else None
  }

  function LowerHexDigit(v: int): (c: Byte)
    requires 0 <= v < 16
    ensures HexVal(c) == Some(v)
    ensures v < 10 ==> IsDigit(c)
  {
    if v < 10 then (v + '0' as int) as char else (v - 10 + 'a' as int) as char
  }

  function UpperHexDigit(v: int): (c: Byte)
    requires 0 <= v < 16
    ensures HexVal(c) == Some(v)
  {
    if v < 10 then (v + '0' as int) as char else (v - 10 + 'A' as int) as char
  }

  const LOWER_DIGITS := "0123456789abcdef"
  const UPPER_DIGITS := "0123456789ABCDEF"

  /** The digits and their values: 22 characters have one. */
  lemma DigitTable(c: Byte, v: int)
    requires 0 <= v < 16
    ensures HexVal(c) == Some(v) <==> c == LOWER_DIGITS[v] || c == UPPER_DIGITS[v]
    ensures LowerHexDigit(v) == LOWER_DIGITS[v] && UpperHexDigit(v) == UPPER_DIGITS[v]
  {
    if v < 10 {
      assert LOWER_DIGITS[v] == UPPER_DIGITS[v] == (v + 48) as char;
    } else {
      assert LOWER_DIGITS[v] == (v + 87) as char && UPPER_DIGITS[v] == (v + 55) as char;
    }
  }

  /** Value of a numeral in base `radix`, or None when some character is no digit of it. */
  function DigitsValue(s: Text, radix: int): (v: Option<nat>)
    requires (radix == 10 || radix == 16)
  {
    if s == [] then Some(0)
    else
      var high := DigitsValue(s[..|s| - 1], radix);
      var low := HexVal(s[|s| - 1]);
      if high.Some? && low.Some? && low.value < radix then Some(high.value * radix + low.value) else None
  }

  /** Canonical numeral of `n`: lower case, no leading zero. */
  function Numeral(n: nat, radix: int): (s: Text)
    requires (radix == 10 || radix == 16)
    ensures s != []
    decreases n
  {
    if n < radix then [LowerHexDigit(n)] else Numeral(n / radix, radix) + [LowerHexDigit(n % radix)]
  }

  function Decimal(n: nat): Text {
    Numeral(n, 10)
  }

  /** A signed integer as Rust's `Display` writes it. */
  function SignedDecimal(n: int): Text {
    if n < 0 then "-" + Decimal(-n) else Decimal(n)
  }

  lemma {:induction false} NumeralValue(n: nat, radix: int)
    requires (radix == 10 || radix == 16)
    ensures DigitsValue(Numeral(n, radix), radix) == Some(n)
    decreases n
  {
    hide DigitsValue, HexVal, LowerHexDigit;
    if n < radix {
      NothingIsZero(radix);
      DigitsSnoc([], LowerHexDigit(n), radix);
      assert [] + [LowerHexDigit(n)] == Numeral(n, radix);
    } else {
      NumeralValue(n / radix, radix);
      QuotientRemainder(n, radix);
      DigitsSnoc(Numeral(n / radix, radix), LowerHexDigit(n % radix), radix);
    }
  }

  lemma NothingIsZero(radix: int)
    requires (radix == 10 || radix == 16)
    ensures DigitsValue([], radix) == Some(0)
  {
  }

  lemma QuotientRemainder(n: nat, radix: int)
    requires radix == 10 || radix == 16
    ensures n / radix * radix + n % radix == n && 0 <= n % radix < radix
  {
    if radix == 10 {
      assert n / 10 * 10 + n % 10 == n;
    }
  }

  lemma DigitsSnoc(s: Text, c: Byte, radix: int)
    requires (radix == 10 || radix == 16) && DigitsValue(s, radix).Some?
    requires HexVal(c).Some? && HexVal(c).value < radix
    ensures DigitsValue(s + [c], radix) == Some(DigitsValue(s, radix).value * radix + HexVal(c).value)
  {
    assert (s + [c])[..|s|] == s;
  }

  /** Decimal numerals are digits only, and only zero starts with '0'. */
  lemma {:induction false} DecimalShape(n: nat)
    ensures AllDigits(Decimal(n))
    ensures Decimal(n)[0] == '0' ==> n == 0
    ensures n == 0 ==> Decimal(n) == "0"
    decreases n
  {
    if n >= 10 {
      DecimalShape(n / 10);
    }
  }

  /** `usize::from_str_radix` and `str::parse` on a 64-bit target: an optional '+', at least
      one digit, and no overflow. */
  function ParseUnsigned(s: Text, radix: int, limit: nat): Option<nat>
    requires (radix == 10 || radix == 16)
  {
    var digits := if s != [] && s[0] == '+' then s[1..] else s;
    if digits == [] then None
    else match DigitsValue(digits, radix)
      case None => None
      case Some(v) => if v < limit then Some(v) else None
  }

  const USIZE_LIMIT: nat := 0x1_0000_0000_0000_0000
  const U32_LIMIT: nat := 0x1_0000_0000

  lemma {:induction false} ParseNumeral(n: nat, radix: int, limit: nat)
    requires (radix == 10 || radix == 16) && n < limit
    ensures ParseUnsigned(Numeral(n, radix), radix, limit) == Some(n)
  {
    NumeralValue(n, radix);
    NumeralHead(n, radix);
  }

  lemma {:induction false} NumeralHead(n: nat, radix: int)
    requires (radix == 10 || radix == 16)
    ensures HexVal(Numeral(n, radix)[0]).Some?
    decreases n
  {
    if n >= radix {
      NumeralHead(n / radix, radix);
    }
  }
}
