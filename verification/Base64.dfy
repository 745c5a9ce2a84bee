/** Base64 of backend/src/crypto.rs:326-397: section 4 and section 5 of RFC 4648. */
module Base64 {
  import opened Alphabet
  import opened Bytes
  import opened Division
  import opened Splitting

  /** Character `v` of the URL-safe or the standard alphabet. */
  function Char64(v: int, url: bool): Byte
    requires 0 <= v < 64
  {
    if v < 26 then (v + 'A' as int) as char
    else if v < 52 then (v - 26 + 'a' as int) as char
    else if v < 62 then (v - 52 + '0' as int) as char
    else if v == 62 then (if url then '-' else '+')
    else (if url then '_' else '/')
  }

  /** `b64_val`: both alphabets are read. */
  function Val64(c: Byte): (v: Option<int>)
    ensures v.Some? ==> 0 <= v.value < 64
  {
    if 'A' <= c <= 'Z' then Some(c as int - 'A' as int)
    else if 'a' <= c <= 'z' then Some(c as int - 'a' as int + 26)
    else if '0' <= c <= '9' then Some(c as int - '0' as int + 52)
    else if c == '+' || c == '-' then Some(62)
    else if c == '/' || c == '_' then Some(63)
    else None
  }

  lemma CharVal(v: int, url: bool)
    requires 0 <= v < 64
    ensures Val64(Char64(v, url)) == Some(v)
  {
  }

  /** Tables 1 and 2 of RFC 4648. */
  lemma Alphabets(v: int, url: bool)
    requires 0 <= v < 64
    ensures v < 26 ==> Char64(v, url) == CAPITALS[v]
    ensures 26 <= v < 52 ==> Char64(v, url) == SMALL[v - 26]
    ensures v >= 52 ==> Char64(v, url) == (if url then "0123456789-_" else "0123456789+/")[v - 52]
  {
    if v < 26 {
      CapitalCodes(v);
    } else if v < 52 {
      SmallCodes(v - 26);
    } else if v < 62 {
      assert (if url then "0123456789-_" else "0123456789+/")[v - 52] == (v - 4) as char;
    }
  }

  /** Only those characters and the other alphabet's two have a value. */
  lemma ValuesExactly(c: Byte, v: int)
    requires 0 <= v < 64
    ensures Val64(c) == Some(v) <==> c == Char64(v, true) || c == Char64(v, false)
  {
  }

  // ==== encoding ====

  function ByteAt(s: Text, i: nat): int {
    if i < |s| then s[i] as int else 0
  }

  function Packed(a: int, b: int, c: int): int {
    a * 65536 + b * 256 + c
  }

  /** The 6-bit fields of a group, most significant first. */
  function Sextet(n: int, i: nat): (v: int)
    requires i < 4
    ensures 0 <= v < 64
  {
    n / Weight(i) % 64
  }

  function Weight(i: nat): (w: int)
    requires i < 4
    ensures w > 0
  {
    if i == 0 then 262144 else if i == 1 then 4096 else if i == 2 then 64 else 1
  }

  /** One group of up to three bytes. */
  function GroupText(chunk: Text, url: bool, pad: bool): Text
    requires 1 <= |chunk| <= 3
  {
    var n := Packed(ByteAt(chunk, 0), ByteAt(chunk, 1), ByteAt(chunk, 2));
    [Char64(Sextet(n, 0), url), Char64(Sextet(n, 1), url)]
    + (if |chunk| > 1 then [Char64(Sextet(n, 2), url)] else if pad then "=" else [])
    + (if |chunk| > 2 then [Char64(Sextet(n, 3), url)] else if pad then "=" else [])
  }

  function Encoded64(s: Text, url: bool, pad: bool): Text {
    if s == [] then []
    else
      var k := if |s| < 3 then |s| else 3;
      GroupText(s[..k], url, pad) + Encoded64(s[k..], url, pad)
  }

  /** `b64_encode_with` */
  method Encode64(s: Text, url: bool, pad: bool) returns (out: Text)
    ensures out == Encoded64(s, url, pad)
  {
    hide GroupText;
    out := [];
    var i := 0;
    ghost var rest := s;
    NilLeft(Encoded64(s, url, pad));
    while i < |s|
      invariant i <= |s| && rest == s[i..] && Encoded64(s, url, pad) == out + Encoded64(rest, url, pad)
    {
      var k := if |s| - i < 3 then |s| - i else 3;
      var group := GroupText(s[i..i + k], url, pad);
      assert rest[..k] == s[i..i + k] && rest[k..] == s[i + k..];
      Assoc(out, group, Encoded64(rest[k..], url, pad));
      out := out + group;
      i := i + k;
      rest := rest[k..];
    }
    NilLeft(out);
  }

  // ==== decoding ====

  /** `trim_end_matches('=')` */
  function TrimPad(s: Text): Text {
    if s != [] && s[|s| - 1] == '=' then TrimPad(s[..|s| - 1]) else s
  }

  /** The number that the characters of a group spell, most significant first. */
  function GroupValue(group: Text): (n: Option<int>)
    requires |group| <= 4
  {
    if group == [] then Some(0)
    else
      var front := GroupValue(group[..|group| - 1]);
      var v := Val64(group[|group| - 1]);
      if front.Some? && v.Some? then Some(front.value + v.value * Weight(|group| - 1)) else None
  }

  /** A group of k characters carries k - 1 bytes. */
  function GroupBytes(n: int, k: nat): Text {
    if k < 2 then []
    else if k == 2 then [(n / 65536 % 256) as char]
    else if k == 3 then [(n / 65536 % 256) as char, (n / 256 % 256) as char]
    else [(n / 65536 % 256) as char, (n / 256 % 256) as char, (n % 256) as char]
  }

  function DecodedGroups(b: Text): Option<Text> {
    if b == [] then Some([])
    else
      var k := if |b| < 4 then |b| else 4;
      match GroupValue(b[..k])
      case None => None
      case Some(n) =>
        match DecodedGroups(b[k..])
        case None => None
        case Some(tail) => Some(GroupBytes(n, k) + tail)
  }

  function Decoded64(s: Text): Option<Text> {
    var b := TrimPad(s);
    if |b| % 4 == 1 then None else DecodedGroups(b)
  }

  /** The inner loop of `b64_decode_any`. */
  method ReadGroup(group: Text) returns (n: Option<int>)
    requires |group| <= 4
    ensures n == GroupValue(group)
  {
    hide Val64, Weight;
    var sum := 0;
    for i := 0 to |group|
      invariant GroupValue(group[..i]) == Some(sum)
    {
      assert group[..i + 1][..i] == group[..i];
      var v := Val64(group[i]);
      if v.None? {
        GroupStops(group, i);
        return None;
      }
      sum := sum + v.value * Weight(i);
    }
    assert group[..|group|] == group;
    n := Some(sum);
  }

  lemma {:induction false} GroupStops(group: Text, i: nat)
    requires |group| <= 4 && i < |group| && Val64(group[i]).None?
    ensures GroupValue(group).None?
    decreases |group|
  {
    if i < |group| - 1 {
      GroupStops(group[..|group| - 1], i);
    }
  }

  /** `b64_decode_any` */
  method Decode64(s: Text) returns (r: Option<Text>)
    ensures r == Decoded64(s)
  {
    hide GroupValue, GroupBytes;
    var b := TrimPad(s);
    if |b| % 4 == 1 {
      return None;
    }
    var out: Text := [];
    var i := 0;
    ghost var rest := b;
    AfterNone(DecodedGroups(b));
    while i < |b|
      invariant i <= |b| && rest == b[i..] && DecodedGroups(b) == After(out, DecodedGroups(rest))
    {
      var k := if |b| - i < 4 then |b| - i else 4;
      assert rest[..k] == b[i..i + k] && rest[k..] == b[i + k..];
      var n := ReadGroup(b[i..i + k]);
      if n.None? {
        return None;
      }
      AfterTwo(out, GroupBytes(n.value, k), DecodedGroups(rest[k..]));
      out := out + GroupBytes(n.value, k);
      i := i + k;
      rest := rest[k..];
    }
    NilLeft(out);
    r := Some(out);
  }

  /** Decoding never gives more bytes than it reads characters. */
  lemma DecodedIsShorter(s: Text)
    requires Decoded64(s).Some?
    ensures |Decoded64(s).value| <= |s|
  {
    hide DecodedGroups;
    TrimPadIsShorter(s);
    GroupsAreShorter(TrimPad(s));
  }

  lemma {:induction false} TrimPadIsShorter(s: Text)
    ensures |TrimPad(s)| <= |s|
  {
    if s != [] {
      TrimPadIsShorter(s[..|s| - 1]);
    }
  }

  lemma {:induction false} GroupsAreShorter(b: Text)
    requires DecodedGroups(b).Some?
    ensures |DecodedGroups(b).value| <= |b|
    decreases |b|
  {
    hide GroupValue;
    if b != [] {
      GroupsAreShorter(b[if |b| < 4 then |b| else 4..]);
    }
  }

  // ==== round trip ====

  lemma GroupShape(chunk: Text, url: bool)
    requires 1 <= |chunk| <= 3
    ensures |GroupText(chunk, url, false)| == |chunk| + 1
    ensures forall i :: 0 <= i <= |chunk| ==> Val64(GroupText(chunk, url, false)[i]).Some?
  {
    hide Char64, Val64, Sextet, Packed;
    var n := Packed(ByteAt(chunk, 0), ByteAt(chunk, 1), ByteAt(chunk, 2));
    CharVal(Sextet(n, 0), url);
    CharVal(Sextet(n, 1), url);
    CharVal(Sextet(n, 2), url);
    CharVal(Sextet(n, 3), url);
  }

  lemma ValueSnoc(s: Text, c: Byte, n: int, v: int)
    requires |s| < 4 && GroupValue(s) == Some(n) && Val64(c) == Some(v)
    ensures GroupValue(s + [c]) == Some(n + v * Weight(|s|))
  {
    assert (s + [c])[..|s|] == s;
  }

  lemma TwoChars(a: int, b: int, url: bool)
    requires 0 <= a < 64 && 0 <= b < 64
    ensures GroupValue([Char64(a, url), Char64(b, url)]) == Some(a * 262144 + b * 4096)
  {
    hide Val64, Char64, GroupValue;
    CharVal(a, url);
    CharVal(b, url);
    GroupOfNone();
    ValueSnoc([], Char64(a, url), 0, a);
    assert [] + [Char64(a, url)] == [Char64(a, url)];
    ValueSnoc([Char64(a, url)], Char64(b, url), a * 262144, b);
    assert [Char64(a, url)] + [Char64(b, url)] == [Char64(a, url), Char64(b, url)];
  }

  lemma GroupOfNone()
    ensures GroupValue([]) == Some(0)
  {
  }

  lemma ThreeChars(a: int, b: int, c: int, url: bool)
    requires 0 <= a < 64 && 0 <= b < 64 && 0 <= c < 64
    ensures GroupValue([Char64(a, url), Char64(b, url), Char64(c, url)]) == Some(a * 262144 + b * 4096 + c * 64)
  {
    hide Val64, Char64, GroupValue;
    TwoChars(a, b, url);
    CharVal(c, url);
    var two := [Char64(a, url), Char64(b, url)];
    ValueSnoc(two, Char64(c, url), a * 262144 + b * 4096, c);
    assert two + [Char64(c, url)] == [Char64(a, url), Char64(b, url), Char64(c, url)];
  }

  lemma FourChars(a: int, b: int, c: int, d: int, url: bool)
    requires 0 <= a < 64 && 0 <= b < 64 && 0 <= c < 64 && 0 <= d < 64
    ensures GroupValue([Char64(a, url), Char64(b, url), Char64(c, url), Char64(d, url)])
      == Some(a * 262144 + b * 4096 + c * 64 + d)
  {
    hide Val64, Char64, GroupValue;
    ThreeChars(a, b, c, url);
    CharVal(d, url);
    var three := [Char64(a, url), Char64(b, url), Char64(c, url)];
    ValueSnoc(three, Char64(d, url), a * 262144 + b * 4096 + c * 64, d);
    assert three + [Char64(d, url)] == [Char64(a, url), Char64(b, url), Char64(c, url), Char64(d, url)];
  }

  lemma NextSextet(n: int, k: int)
    requires n >= 0 && (k == 1 || k == 64 || k == 4096)
    ensures n / k == 64 * (n / (64 * k)) + n / k % 64
  {
    assert n / k / 64 == n / (64 * k);
  }

  lemma Sextets(n: int)
    requires 0 <= n < 16777216
    ensures Sextet(n, 0) * 262144 + Sextet(n, 1) * 4096 + Sextet(n, 2) * 64 + Sextet(n, 3) == n
  {
    NextSextet(n, 1);
    NextSextet(n, 64);
    NextSextet(n, 4096);
  }

  lemma SixtyFour(x: int)
    ensures 64 * x / 64 == x && 64 * x % 64 == 0
  {
  }

  /** Fields that no byte reaches are zero. */
  lemma ShortSextets(a: int, b: int)
    ensures Sextet(Packed(a, b, 0), 3) == 0 && Sextet(Packed(a, 0, 0), 2) == 0
  {
    assert Packed(a, b, 0) == 64 * (a * 1024 + b * 4);
    SixtyFour(a * 1024 + b * 4);
    assert Packed(a, 0, 0) == 64 * (64 * (a * 16));
    SixtyFour(64 * (a * 16));
    SixtyFour(a * 16);
    assert Packed(a, 0, 0) / 64 == 64 * (a * 16);
  }

  lemma PackedBytes(a: int, b: int, c: int)
    requires 0 <= a < 256 && 0 <= b < 256 && 0 <= c < 256
    ensures var n := Packed(a, b, c);
      0 <= n < 16777216 && n / 65536 % 256 == a && n / 256 % 256 == b && n % 256 == c
  {
    var n := Packed(a, b, c);
    assert n == 256 * (256 * a + b) + c;
    assert n / 256 == 256 * a + b;
    assert n / 65536 == a;
  }

  lemma OneByteBack(chunk: Text, url: bool)
    requires |chunk| == 1
    ensures var g := GroupText(chunk, url, false);
      |g| == 2 && GroupValue(g).Some? && GroupBytes(GroupValue(g).value, 2) == chunk
  {
    hide Char64, GroupValue, Sextet, Packed;
    var a := chunk[0] as int;
    var n := Packed(a, 0, 0);
    PackedBytes(a, 0, 0);
    Sextets(n);
    ShortSextets(a, 0);
    TwoChars(Sextet(n, 0), Sextet(n, 1), url);
    assert GroupText(chunk, url, false) == [Char64(Sextet(n, 0), url), Char64(Sextet(n, 1), url)];
  }

  lemma TwoBytesBack(chunk: Text, url: bool)
    requires |chunk| == 2
    ensures var g := GroupText(chunk, url, false);
      |g| == 3 && GroupValue(g).Some? && GroupBytes(GroupValue(g).value, 3) == chunk
  {
    hide Char64, GroupValue, Sextet, Packed;
    var a, b := chunk[0] as int, chunk[1] as int;
    var n := Packed(a, b, 0);
    PackedBytes(a, b, 0);
    Sextets(n);
    ShortSextets(a, b);
    ThreeChars(Sextet(n, 0), Sextet(n, 1), Sextet(n, 2), url);
    assert GroupText(chunk, url, false) ==
      [Char64(Sextet(n, 0), url), Char64(Sextet(n, 1), url), Char64(Sextet(n, 2), url)];
  }

  lemma ThreeBytesBack(chunk: Text, url: bool)
    requires |chunk| == 3
    ensures var g := GroupText(chunk, url, false);
      |g| == 4 && GroupValue(g).Some? && GroupBytes(GroupValue(g).value, 4) == chunk
  {
    hide Char64, GroupValue, Sextet, Packed;
    var a, b, c := chunk[0] as int, chunk[1] as int, chunk[2] as int;
    var n := Packed(a, b, c);
    PackedBytes(a, b, c);
    Sextets(n);
    FourChars(Sextet(n, 0), Sextet(n, 1), Sextet(n, 2), Sextet(n, 3), url);
    assert GroupText(chunk, url, false)
      == [Char64(Sextet(n, 0), url), Char64(Sextet(n, 1), url), Char64(Sextet(n, 2), url), Char64(Sextet(n, 3), url)];
  }

  /** Section 4 of RFC 4648: six bits to a character, from the left, with zero bits and the padding at the
      end. */
  lemma GroupExactly(chunk: Text, url: bool, pad: bool)
    requires 1 <= |chunk| <= 3
    ensures var a := chunk[0] as int;
      var b, c := if |chunk| > 1 then chunk[1] as int else 0, if |chunk| > 2 then chunk[2] as int else 0;
      var first := [Char64(a / 4, url), Char64(a % 4 * 16 + b / 16, url)];
      GroupText(chunk, url, pad) == match |chunk|
        case 1 => first + (if pad then "==" else "")
        case 2 => first + [Char64(b % 16 * 4 + c / 64, url)] + (if pad then "=" else "")
        case _ => first + [Char64(b % 16 * 4 + c / 64, url), Char64(c % 64, url)]
  {
    hide Char64, Sextet, Packed;
    PackedSextets(chunk[0] as int, ByteAt(chunk, 1), ByteAt(chunk, 2));
  }

  lemma PackedSextets(a: int, b: int, c: int)
    requires 0 <= a < 256 && 0 <= b < 256 && 0 <= c < 256
    ensures var n := Packed(a, b, c);
      && Sextet(n, 0) == a / 4 && Sextet(n, 1) == a % 4 * 16 + b / 16
      && Sextet(n, 2) == b % 16 * 4 + c / 64 && Sextet(n, 3) == c % 64
  {
    var n := Packed(a, b, c);
    Sixths(a, b, c);
    Nested(a, b / 16, b % 16 * 4 + c / 64, c % 64);
  }

  lemma Sixths(a: int, b: int, c: int)
    requires 0 <= b < 256 && 0 <= c < 256
    ensures Packed(a, b, c) == a / 4 * 262144 + (a % 4 * 16 + b / 16) * 4096 + (b % 16 * 4 + c / 64) * 64 + c % 64
  {
  }

  lemma Nested(a: int, high: int, middle: int, low: int)
    requires 0 <= a < 256 && 0 <= high < 16 && 0 <= middle < 64 && 0 <= low < 64
    ensures var n := a / 4 * 262144 + (a % 4 * 16 + high) * 4096 + middle * 64 + low;
      && n / 262144 % 64 == a / 4 && n / 4096 % 64 == a % 4 * 16 + high && n / 64 % 64 == middle && n % 64 == low
  {
    var top, second := a / 4, a % 4 * 16 + high;
    QuotientIs(((top * 64 + second) * 64 + middle) * 64 + low, 64, (top * 64 + second) * 64 + middle, low);
    QuotientIs((top * 64 + second) * 64 + middle, 64, top * 64 + second, middle);
    QuotientIs(top * 64 + second, 64, top, second);
    var n := top * 262144 + second * 4096 + middle * 64 + low;
    assert n / 4096 == n / 64 / 64 && n / 262144 == n / 4096 / 64;
  }

  /** Each group decodes to its bytes. */
  lemma GroupBack(chunk: Text, url: bool)
    requires 1 <= |chunk| <= 3
    ensures var g := GroupText(chunk, url, false);
      |g| == |chunk| + 1 && GroupValue(g).Some? && GroupBytes(GroupValue(g).value, |g|) == chunk
  {
    hide GroupText, GroupValue, GroupBytes;
    if |chunk| == 1 {
      OneByteBack(chunk, url);
    } else if |chunk| == 2 {
      TwoBytesBack(chunk, url);
    } else {
      ThreeBytesBack(chunk, url);
    }
  }

  lemma {:induction false} EncodedLength(s: Text, url: bool)
    ensures |Encoded64(s, url, false)| % 4 != 1
    decreases |s|
  {
    hide GroupText, Val64;
    if s != [] {
      var k := if |s| < 3 then |s| else 3;
      GroupShape(s[..k], url);
      EncodedLength(s[k..], url);
      assert k < 3 ==> s[k..] == [];
    }
  }

  lemma DecodedFirst(group: Text, tail: Text, n: int)
    requires 2 <= |group| <= 4 && (|group| < 4 ==> tail == []) && GroupValue(group) == Some(n)
    ensures DecodedGroups(group + tail) == After(GroupBytes(n, |group|), DecodedGroups(tail))
  {
    hide GroupValue, GroupBytes;
    Parts(group, tail);
  }

  lemma {:induction false} GroupsBack(s: Text, url: bool)
    ensures DecodedGroups(Encoded64(s, url, false)) == Some(s)
    decreases |s|
  {
    hide GroupText, GroupValue, GroupBytes;
    if s != [] {
      var k := if |s| < 3 then |s| else 3;
      var group, tail := GroupText(s[..k], url, false), Encoded64(s[k..], url, false);
      GroupBack(s[..k], url);
      GroupsBack(s[k..], url);
      hide DecodedGroups;
      DecodedFirst(group, tail, GroupValue(group).value);
      assert s == s[..k] + s[k..];
    }
  }

  predicate AreChars64(s: Text) {
    forall i :: 0 <= i < |s| ==> Val64(s[i]).Some?
  }

  lemma BothChars64(a: Text, b: Text)
    requires AreChars64(a) && AreChars64(b)
    ensures AreChars64(a + b)
  {
    hide Val64;
  }

  /** Encoded text is made of alphabet characters. */
  lemma {:induction false} EncodedChars(s: Text, url: bool)
    ensures AreChars64(Encoded64(s, url, false))
    decreases |s|
  {
    hide GroupText, Val64;
    if s != [] {
      var k := if |s| < 3 then |s| else 3;
      EncodedChars(s[k..], url);
      GroupShape(s[..k], url);
      BothChars64(GroupText(s[..k], url, false), Encoded64(s[k..], url, false));
    }
  }

  /** Padding adds '='s at the end of encoded text only. */
  lemma {:induction false} EncodedPad(s: Text, url: bool) returns (eqs: Text)
    ensures IsPad(eqs) && Encoded64(s, url, true) == Encoded64(s, url, false) + eqs
    decreases |s|
  {
    hide GroupText;
    if s == [] {
      eqs := [];
    } else {
      var k := if |s| < 3 then |s| else 3;
      var group := GroupText(s[..k], url, false);
      if k < 3 {
        assert s[k..] == [];
        eqs := GroupPad(s[..k], url);
        NilLeft(group);
        NilLeft(group + eqs);
      } else {
        eqs := EncodedPad(s[k..], url);
        FullGroup(s[..k], url);
        Assoc(group, Encoded64(s[k..], url, false), eqs);
      }
    }
  }

  predicate IsPad(s: Text) {
    forall i :: 0 <= i < |s| ==> s[i] == '='
  }

  lemma GroupPad(chunk: Text, url: bool) returns (eqs: Text)
    requires 1 <= |chunk| <= 3
    ensures IsPad(eqs) && GroupText(chunk, url, true) == GroupText(chunk, url, false) + eqs
  {
    eqs := if |chunk| == 1 then "==" else if |chunk| == 2 then "=" else [];
  }

  lemma FullGroup(chunk: Text, url: bool)
    requires |chunk| == 3
    ensures GroupText(chunk, url, true) == GroupText(chunk, url, false)
  {
  }

  lemma {:induction false} TrimsPad(s: Text, eqs: Text)
    requires IsPad(eqs) && (s != [] ==> s[|s| - 1] != '=')
    ensures TrimPad(s + eqs) == s
    decreases |eqs|
  {
    if eqs == [] {
      NilLeft(s);
    } else {
      TrimsPad(s, eqs[..|eqs| - 1]);
      assert (s + eqs)[..|s + eqs| - 1] == s + eqs[..|eqs| - 1];
    }
  }

  /** Decoding undoes encoding: either alphabet, padded or not. */
  lemma DecodeEncoded64(s: Text, url: bool, pad: bool)
    ensures Decoded64(Encoded64(s, url, pad)) == Some(s)
  {
    hide Val64, Encoded64, DecodedGroups, TrimPad;
    EncodedChars(s, url);
    var eqs := EncodedPad(s, url);
    EqualsHasNoValue();
    GroupsBack(s, url);
    EncodedLength(s, url);
    TrimsPad(Encoded64(s, url, false), eqs);
    TrimsPad(Encoded64(s, url, false), []);
    NilLeft(Encoded64(s, url, false));
  }

  lemma EqualsHasNoValue()
    ensures Val64('=').None? && Val64('.').None? && Val64('$').None?
  {
  }

  /** Characters outside the alphabet do not occur in encoded text. */
  lemma EncodedLacks(s: Text, url: bool, c: Byte)
    requires Val64(c).None?
    ensures Lacks(Encoded64(s, url, false), c)
  {
    hide Val64, Encoded64;
    EncodedChars(s, url);
  }

  /** Decoding accepts exactly alphabet characters, '='s at the end apart, in every length that an
      encoder can produce. */
  lemma AcceptedTexts(s: Text)
    ensures Decoded64(s).Some? <==>
      |TrimPad(s)| % 4 != 1 && forall i :: 0 <= i < |TrimPad(s)| ==> Val64(TrimPad(s)[i]).Some?
  {
    hide DecodedGroups, TrimPad, Val64;
    GroupsAccept(TrimPad(s));
  }

  lemma {:induction false} GroupsAccept(b: Text)
    ensures DecodedGroups(b).Some? <==> forall i :: 0 <= i < |b| ==> Val64(b[i]).Some?
    decreases |b|
  {
    hide GroupValue, GroupBytes, Val64;
    if b != [] {
      var k := if |b| < 4 then |b| else 4;
      GroupAccepts(b[..k]);
      GroupsAccept(b[k..]);
      assert forall i :: k <= i < |b| ==> b[i] == b[k..][i - k];
      assert forall i :: 0 <= i < k ==> b[i] == b[..k][i];
    }
  }

  lemma {:induction false} GroupAccepts(group: Text)
    requires |group| <= 4
    ensures GroupValue(group).Some? <==> forall i :: 0 <= i < |group| ==> Val64(group[i]).Some?
    decreases |group|
  {
    hide Val64;
    if group != [] {
      GroupAccepts(group[..|group| - 1]);
      assert forall i :: 0 <= i < |group| - 1 ==> group[i] == group[..|group| - 1][i];
    }
  }
}
