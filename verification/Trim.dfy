/** `str::trim`: Unicode white space at the ends of UTF-8 text. */
module Trim {
  import opened Bytes

  /** Length of the White_Space scalar at the front of `s`, or 0 when there is none. */
  function SpaceLen(s: Text): (n: nat)
    ensures n <= |s| && n <= 3
  {
    if |s| >= 1 && ('\t' <= s[0] <= '\r' || s[0] == ' ') then 1
    else if |s| >= 2 && s[0] == '\U{C2}' && (s[1] == '\U{85}' || s[1] == '\U{A0}') then 2
    else if |s| >= 3 && IsWideSpace(s[0], s[1], s[2]) then 3
    else 0
  }

  /** U+1680, U+2000 to U+200A, U+2028, U+2029, U+202F, U+205F and U+3000. */
  predicate IsWideSpace(a: Byte, b: Byte, c: Byte) {
    || (a == '\U{E1}' && b == '\U{9A}' && c == '\U{80}')
    || (a == '\U{E2}' && b == '\U{80}' &&
        ('\U{80}' <= c <= '\U{8A}' || c == '\U{A8}' || c == '\U{A9}' || c == '\U{AF}'))
    || (a == '\U{E2}' && b == '\U{81}' && c == '\U{9F}')
    || (a == '\U{E3}' && b == '\U{80}' && c == '\U{80}')
  }

  function SpaceEndLen(s: Text): (n: nat)
    ensures n <= |s|
  {
    if |s| >= 1 && SpaceLen(s[|s| - 1..]) == 1 then 1
    else if |s| >= 2 && SpaceLen(s[|s| - 2..]) == 2 then 2
    else if |s| >= 3 && SpaceLen(s[|s| - 3..]) == 3 then 3
    else 0
  }

  function TrimStart(s: Text): Text
    decreases |s|
  {
    if SpaceLen(s) > 0 then TrimStart(s[SpaceLen(s)..]) else s
  }

  function TrimEnd(s: Text): Text
    decreases |s|
  {
    if SpaceEndLen(s) > 0 then TrimEnd(s[..|s| - SpaceEndLen(s)]) else s
  }

  function TrimBoth(s: Text): Text {
    TrimEnd(TrimStart(s))
  }

  lemma {:induction false} StartTrimmed(s: Text)
    ensures SpaceLen(TrimStart(s)) == 0
    decreases |s|
  {
    if SpaceLen(s) > 0 {
      StartTrimmed(s[SpaceLen(s)..]);
    }
  }

  lemma {:induction false} EndTrimmed(s: Text)
    ensures SpaceEndLen(TrimEnd(s)) == 0 && (SpaceLen(s) == 0 ==> SpaceLen(TrimEnd(s)) == 0)
    decreases |s|
  {
    hide SpaceLen, SpaceEndLen;
    if SpaceEndLen(s) > 0 {
      EndTrimmed(s[..|s| - SpaceEndLen(s)]);
      if SpaceLen(s) == 0 {
        PrefixSpace(s, |s| - SpaceEndLen(s));
      }
    }
  }

  lemma PrefixSpace(s: Text, n: nat)
    requires n <= |s| && SpaceLen(s) == 0
    ensures SpaceLen(s[..n]) == 0
  {
  }

  /** Trimming twice is trimming once. */
  lemma TrimmedOnce(s: Text)
    ensures TrimBoth(TrimBoth(s)) == TrimBoth(s)
  {
    hide SpaceLen, SpaceEndLen;
    StartTrimmed(s);
    EndTrimmed(TrimStart(s));
  }

  /** ASCII letters to lower and upper case. */
  function Lower(c: Byte): Byte {
    if 'A' <= c <= 'Z' then (c as int + 32) as char else c
  }

  function Upper(c: Byte): Byte {
    if 'a' <= c <= 'z' then (c as int - 32) as char else c
  }

  function LowerAll(s: Text): (t: Text)
    ensures |t| == |s|
  {
    seq(|s|, i requires 0 <= i < |s| => Lower(s[i]))
  }

  function UpperAll(s: Text): (t: Text)
    ensures |t| == |s|
  {
    seq(|s|, i requires 0 <= i < |s| => Upper(s[i]))
  }
}
