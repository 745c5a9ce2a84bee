/** UTF-8 as Rust's `str` checks it: Table 3-7 of the Unicode Standard. */
module Utf8 {
  import opened Bytes

  /** U+FFFD, which replaces what is not text. */
  const REPLACEMENT: Text := "\U{EF}\U{BF}\U{BD}"

  predicate IsContinuation(c: Byte) {
    '\U{80}' <= c <= '\U{BF}'
  }

  /** The first two bytes of a three-byte scalar. */
  predicate IsLead3(a: Byte, b: Byte) {
    || (a == '\U{E0}' && '\U{A0}' <= b <= '\U{BF}')
    || ('\U{E1}' <= a <= '\U{EC}' && IsContinuation(b))
    || (a == '\U{ED}' && '\U{80}' <= b <= '\U{9F}')
    || ('\U{EE}' <= a <= '\U{EF}' && IsContinuation(b))
  }

  /** The first two bytes of a four-byte scalar. */
  predicate IsLead4(a: Byte, b: Byte) {
    || (a == '\U{F0}' && '\U{90}' <= b <= '\U{BF}')
    || ('\U{F1}' <= a <= '\U{F3}' && IsContinuation(b))
    || (a == '\U{F4}' && '\U{80}' <= b <= '\U{8F}')
  }

  /** Length of the scalar value at the front of `s`, or 0 when there is none. */
  function ScalarLen(s: Text): (n: nat)
    ensures n <= |s| && n <= 4
  {
    if |s| >= 1 && s[0] < '\U{80}' then 1
    else if |s| >= 2 && '\U{C2}' <= s[0] <= '\U{DF}' && IsContinuation(s[1]) then 2
    else if |s| >= 3 && IsLead3(s[0], s[1]) && IsContinuation(s[2]) then 3
    else if |s| >= 4 && IsLead4(s[0], s[1]) && IsContinuation(s[2]) && IsContinuation(s[3]) then 4
    else 0
  }

  predicate IsScalar(s: Text) {
    |s| > 0 && ScalarLen(s) == |s|
  }

  predicate IsUtf8(s: Text) {
    s == [] || (ScalarLen(s) > 0 && IsUtf8(s[ScalarLen(s)..]))
  }

  lemma ScalarLenPrefix(a: Text, b: Text)
    requires ScalarLen(a) > 0
    ensures ScalarLen(a + b) == ScalarLen(a)
  {
  }

  lemma {:induction false} ScalarIsUtf8(s: Text)
    requires IsScalar(s)
    ensures IsUtf8(s)
  {
    assert s[ScalarLen(s)..] == [];
  }

  /** Valid text followed by anything is text exactly when the rest is. */
  lemma {:induction false} Utf8Concat(a: Text, b: Text)
    requires IsUtf8(a)
    ensures IsUtf8(a + b) <==> IsUtf8(b)
  {
    if a == [] {
      assert a + b == b;
    } else {
      var n := ScalarLen(a);
      ScalarLenPrefix(a, b);
      assert (a + b)[n..] == a[n..] + b;
      Utf8Concat(a[n..], b);
    }
  }

  /** Plain ASCII is text. */
  lemma {:induction false} AsciiIsUtf8(s: Text)
    requires forall i :: 0 <= i < |s| ==> s[i] < '\U{80}'
    ensures IsUtf8(s)
  {
    if s != [] {
      AsciiIsUtf8(s[1..]);
    }
  }

  predicate IsCodePoint(u: int) {
    0 <= u < 0x110000 && !(0xD800 <= u < 0xE000)
  }

  function EncodeScalar(u: int): (s: Text)
    requires IsCodePoint(u)
    ensures IsScalar(s)
  {
    if u < 0x80 then [u as char]
    else if u < 0x800 then [(0xC0 + u / 64) as char, (0x80 + u % 64) as char]
    else if u < 0x10000 then
      [(0xE0 + u / 4096) as char, (0x80 + u / 64 % 64) as char, (0x80 + u % 64) as char]
    else
      [(0xF0 + u / 262144) as char, (0x80 + u / 4096 % 64) as char, (0x80 + u / 64 % 64) as char,
       (0x80 + u % 64) as char]
  }

  /** Bytes that `String::from_utf8_lossy` replaces by one U+FFFD. */
  function BadLen(s: Text): (n: nat)
    requires s != [] && ScalarLen(s) == 0
    ensures 1 <= n <= |s|
  {
    if |s| >= 2 && IsLead3(s[0], s[1]) then 2
    else if |s| >= 2 && IsLead4(s[0], s[1]) then
      if |s| >= 3 && IsContinuation(s[2]) then 3 else 2
    else 1
  }

  /** `String::from_utf8_lossy`. */
  function Lossy(s: Text): (t: Text)
    ensures IsUtf8(s) ==> t == s
  {
    if s == [] then []
    else if ScalarLen(s) > 0 then s[..ScalarLen(s)] + Lossy(s[ScalarLen(s)..])
    else REPLACEMENT + Lossy(s[BadLen(s)..])
  }

  lemma {:induction false} LossyIsUtf8(s: Text)
    ensures IsUtf8(Lossy(s))
  {
    if s == [] {
    } else if ScalarLen(s) > 0 {
      var n := ScalarLen(s);
      LossyIsUtf8(s[n..]);
      ScalarIsUtf8(s[..n]);
      Utf8Concat(s[..n], Lossy(s[n..]));
    } else {
      LossyIsUtf8(s[BadLen(s)..]);
      ScalarIsUtf8(REPLACEMENT);
      Utf8Concat(REPLACEMENT, Lossy(s[BadLen(s)..]));
    }
  }
}
