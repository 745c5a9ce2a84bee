/** The letters and digits of ASCII, written out. */
module Alphabet {
  import opened Bytes

  const CAPITALS := "ABCDEFGHIJKLMNOPQRSTUVWXYZ"
  const SMALL := "abcdefghijklmnopqrstuvwxyz"
  const DIGITS := "0123456789"

  lemma CapitalCodes(i: nat)
    requires i < 26
    ensures CAPITALS[i] as int == 65 + i
  {
  }

  lemma SmallCodes(i: nat)
    requires i < 26
    ensures SMALL[i] as int == 97 + i
  {
  }

  lemma CapitalsExactly(c: Byte)
    ensures c in CAPITALS <==> 'A' <= c <= 'Z'
  {
    if 'A' <= c <= 'Z' {
      CapitalCodes(c as int - 65);
    }
  }

  lemma SmallExactly(c: Byte)
    ensures c in SMALL <==> 'a' <= c <= 'z'
  {
    if 'a' <= c <= 'z' {
      SmallCodes(c as int - 97);
    }
  }

  lemma DigitsExactly(c: Byte)
    ensures c in DIGITS <==> '0' <= c <= '9'
  {
    if '0' <= c <= '9' {
      assert DIGITS[c as int - 48] == c;
    }
  }
}
