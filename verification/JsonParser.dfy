/** The recursive-descent parser of backend/src/json.rs.

    The functions say what each parser routine does to the text left in front of it; the class
    `Parser` is the routines themselves, over a byte buffer and a moving index `i`.
 */
module JsonParser {
  import opened Bytes
  import opened Utf8
  import opened Numerals
  import opened JsonValue
  import opened JsonGrammar

  const MAX_DEPTH: nat := 128

  datatype ParseError = ParseError(at: nat, msg: string)

  /** A value and the text after it, or an error with the length of the text still unread. */
  datatype Parse<T> = Done(value: T, rest: Text) | Bad(left: nat, msg: string)

  function SkipWs(s: Text): (r: Text)
    ensures |r| <= |s| && r == s[|s| - |r|..]
  {
    if s != [] && IsWsByte(s[0]) then SkipWs(s[1..]) else s
  }

  /** Length of the leading run of digits. */
  function DigitRun(s: Text): (n: nat)
    ensures n <= |s|
  {
    if s != [] && IsDigit(s[0]) then 1 + DigitRun(s[1..]) else 0
  }

  lemma NoDigits(s: Text)
    ensures DigitRun(s) == 0 <==> s == [] || !IsDigit(s[0])
  {
  }

  function ParseLit(s: Text, word: Text, v: Json): Parse<Json> {
    if |s| >= |word| && s[..|word|] == word then Done(v, s[|word|..]) else Bad(|s|, "bad literal")
  }

  // ---- strings ----

  /** Length of a UTF-8 sequence judged by its first byte alone. */
  function Utf8Len(lead: Byte): nat {
    if lead < '\U{80}' then 1
    else if '\U{C0}' <= lead <= '\U{DF}' then 2
    else if '\U{E0}' <= lead <= '\U{EF}' then 3
    else 4
  }

  function Hex4(s: Text): (r: Parse<int>)
    ensures r.Done? ==> 0 <= r.value < 0x10000 && |r.rest| + 4 == |s|
    ensures r.Bad? ==> r.left <= |s|
  {
    if |s| < 4 then Bad(|s|, "truncated \\u escape")
    else if IsHex(s[..4]) then Done(HexValue(s[..4]), s[4..])
    else Bad(|s|, "bad hex digit")
  }

  /** The text a `\u` escape adds; `s` starts at its first hex digit. */
  function UnicodeEscape(s: Text): (r: Parse<Text>)
    ensures r.Done? ==> |r.rest| < |s|
    ensures r.Bad? ==> r.left <= |s|
  {
    match Hex4(s)
    case Bad(left, msg) => Bad(left, msg)
    case Done(hi, rest) =>
      if IsHigh(hi) then
        if |rest| >= 2 && rest[0] == '\\' && rest[1] == 'u' then
          match Hex4(rest[2..])
          case Bad(left, msg) => Bad(left, msg)
          case Done(lo, rest') =>
            if IsLow(lo) then Done(EncodeScalar(Pair(hi, lo)), rest') else Done(REPLACEMENT, rest)
        else Done(REPLACEMENT, rest)
      else if IsLow(hi) then Done(REPLACEMENT, rest)
      else Done(EncodeScalar(hi), rest)
  }

  /** The rest of a string literal, after `out` has been read. */
  function ParseChars(s: Text, out: Text): (r: Parse<Text>)
    ensures r.Done? ==> |r.rest| < |s|
    ensures r.Bad? ==> r.left <= |s|
    decreases |s|
  {
    if s == [] then Bad(0, "unterminated string")
    else if s[0] == '\"' then Done(out, s[1..])
    else if s[0] == '\\' then
      if |s| == 1 then Bad(0, "unterminated escape")
      else if s[1] == 'u' then
        match UnicodeEscape(s[2..])
        case Bad(left, msg) => Bad(left, msg)
        case Done(t, rest) => ParseChars(rest, out + t)
      else match EscapeValue(s[1])
        case Some(c) => ParseChars(s[2..], out + [c])
        case None => Bad(|s| - 2, "bad escape")
    else if s[0] < ' ' then Bad(|s|, "raw control char in string")
    else
      var n := Utf8Len(s[0]);
      if n > |s| then Bad(|s|, "truncated UTF-8")
      else if IsUtf8(s[..n]) then ParseChars(s[n..], out + s[..n])
      else Bad(|s|, "invalid UTF-8")
  }

  /** A string literal; the caller has seen the opening quote. */
  function ParseString(s: Text): (r: Parse<Text>)
    requires s != []
    ensures r.Done? ==> |r.rest| < |s|
    ensures r.Bad? ==> r.left <= |s|
  {
    ParseChars(s[1..], [])
  }

  // ---- numbers ----

  /** The text after the integer part. */
  function SkipWhole(s: Text): (r: Parse<()>)
    ensures r.Done? ==> |r.rest| < |s| && r.rest == s[|s| - |r.rest|..]
    ensures r.Bad? ==> r.left <= |s|
  {
    if s == [] || !IsDigit(s[0]) then Bad(|s|, "bad number")
    else if s[0] == '0' then Done((), s[1..])
    else Done((), s[DigitRun(s)..])
  }

  function SkipFrac(s: Text): (r: Parse<()>)
    ensures r.Done? ==> |r.rest| <= |s| && r.rest == s[|s| - |r.rest|..]
    ensures r.Bad? ==> r.left <= |s|
  {
    if s == [] || s[0] != '.' then Done((), s)
    else if DigitRun(s[1..]) == 0 then Bad(|s| - 1, "bad fraction")
    else Done((), s[1 + DigitRun(s[1..])..])
  }

  function SkipSign(s: Text): (r: Text)
    ensures |r| <= |s| && r == s[|s| - |r|..]
  {
    if s != [] && (s[0] == '+' || s[0] == '-') then s[1..] else s
  }

  function SkipExp(s: Text): (r: Parse<()>)
    ensures r.Done? ==> |r.rest| <= |s| && r.rest == s[|s| - |r.rest|..]
    ensures r.Bad? ==> r.left <= |s|
  {
    if s == [] || (s[0] != 'e' && s[0] != 'E') then Done((), s)
    else
      var d := SkipSign(s[1..]);
      if DigitRun(d) == 0 then Bad(|d|, "bad exponent") else Done((), d[DigitRun(d)..])
  }

  /** The text after a number without its sign. */
  function SkipUnsigned(s: Text): (r: Parse<()>)
    ensures r.Done? ==> |r.rest| < |s|
    ensures r.Bad? ==> r.left <= |s|
  {
    match SkipWhole(s)
    case Bad(left, msg) => Bad(left, msg)
    case Done(_, s1) =>
      match SkipFrac(s1)
      case Bad(left, msg) => Bad(left, msg)
      case Done(_, s2) => SkipExp(s2)
  }

  function ParseNumber(s: Text): (r: Parse<Json>)
    requires s != []
    ensures r.Done? ==> |r.rest| < |s|
    ensures r.Bad? ==> r.left <= |s|
  {
    match SkipUnsigned(if s[0] == '-' then s[1..] else s)
    case Bad(left, msg) => Bad(left, msg)
    case Done(_, rest) => Done(Num(NumberOf(s[..|s| - |rest|])), rest)
  }

  // ---- values ----

  function ParseValue(s: Text, depth: nat): (r: Parse<Json>)
    ensures r.Done? ==> |r.rest| < |s|
    ensures r.Bad? ==> r.left <= |s|
    decreases |s|, 0
  {
    if depth > MAX_DEPTH then Bad(|s|, "too deep")
    else if s == [] then Bad(0, "unexpected end")
    else if s[0] == 'n' then ParseLit(s, "null", Null)
    else if s[0] == 't' then ParseLit(s, "true", Bool(true))
    else if s[0] == 'f' then ParseLit(s, "false", Bool(false))
    else if s[0] == '\"' then
      match ParseString(s)
      case Bad(left, msg) => Bad(left, msg)
      case Done(t, rest) => Done(Str(t), rest)
    else if s[0] == '[' then ParseArray(SkipWs(s[1..]), depth)
    else if s[0] == '{' then ParseObject(SkipWs(s[1..]), depth)
    else if s[0] == '-' || IsDigit(s[0]) then ParseNumber(s)
    else Bad(|s|, "unexpected token")
  }

  /** After '[' and whitespace. */
  function ParseArray(s: Text, depth: nat): (r: Parse<Json>)
    ensures r.Done? ==> |r.rest| < |s|
    ensures r.Bad? ==> r.left <= |s|
    decreases |s|, 2
  {
    if s != [] && s[0] == ']' then Done(Arr([]), s[1..]) else ParseItems(s, depth, [])
  }

  /** The array loop, with the items read so far in `out`. */
  function ParseItems(s: Text, depth: nat, out: seq<Json>): (r: Parse<Json>)
    ensures r.Done? ==> |r.rest| < |s|
    ensures r.Bad? ==> r.left <= |s|
    decreases |s|, 1
  {
    match ParseValue(SkipWs(s), depth + 1)
    case Bad(left, msg) => Bad(left, msg)
    case Done(v, rest) =>
      var t := SkipWs(rest);
      if t != [] && t[0] == ',' then ParseItems(t[1..], depth, out + [v])
      else if t != [] && t[0] == ']' then Done(Arr(out + [v]), t[1..])
      else Bad(|t|, "expected ',' or ']'")
  }

  /** After '{' and whitespace. */
  function ParseObject(s: Text, depth: nat): (r: Parse<Json>)
    ensures r.Done? ==> |r.rest| < |s|
    ensures r.Bad? ==> r.left <= |s|
    decreases |s|, 2
  {
    if s != [] && s[0] == '}' then Done(Obj([]), s[1..]) else ParseMembers(s, depth, [])
  }

  /** A key and its colon; the value follows. */
  function ParseKey(s: Text): (r: Parse<Text>)
    ensures r.Done? ==> |r.rest| < |s|
    ensures r.Bad? ==> r.left <= |s|
  {
    if s == [] || s[0] != '\"' then Bad(|s|, "expected object key")
    else match ParseString(s)
      case Bad(left, msg) => Bad(left, msg)
      case Done(k, rest) =>
        var t := SkipWs(rest);
        if t != [] && t[0] == ':' then Done(k, SkipWs(t[1..])) else Bad(|t|, "expected ':'")
  }

  /** The object loop, with the map built so far in `out`. */
  function ParseMembers(s: Text, depth: nat, out: seq<Entry>): (r: Parse<Json>)
    ensures r.Done? ==> |r.rest| < |s|
    ensures r.Bad? ==> r.left <= |s|
    decreases |s|, 1
  {
    match ParseKey(SkipWs(s))
    case Bad(left, msg) => Bad(left, msg)
    case Done(k, s1) =>
      match ParseValue(s1, depth + 1)
      case Bad(left, msg) => Bad(left, msg)
      case Done(v, rest) =>
        var t := SkipWs(rest);
        if t != [] && t[0] == ',' then ParseMembers(t[1..], depth, Insert(out, k, v))
        else if t != [] && t[0] == '}' then Done(Obj(Insert(out, k, v)), t[1..])
        else Bad(|t|, "expected ',' or '}'")
  }

  /** `json::parse`. */
  function Parsed(input: Text): Result<Json, ParseError> {
    match ParseValue(SkipWs(input), 0)
    case Bad(left, msg) => Err(ParseError(|input| - left, msg))
    case Done(v, rest) =>
      var t := SkipWs(rest);
      if t == [] then Ok(v) else Err(ParseError(|input| - |t|, "trailing content"))
  }

  // ---- the parser itself ----

  /** Value of the first `k` hexadecimal digits. */
  function HexPrefix(s: Text, k: nat): int
    requires |s| == 4 && k <= 4 && IsHex(s[..k])
  {
    if k == 0 then 0
    else
      assert s[..k][k - 1] == s[k - 1];
      HexPrefix(s, k - 1) * 16 + HexVal(s[k - 1]).value
  }

  lemma HexPrefixFull(s: Text)
    requires |s| == 4 && IsHex(s)
    ensures IsHex(s[..4]) && HexPrefix(s, 4) == HexValue(s)
  {
    assert s[..4] == s;
    assert HexPrefix(s, 0) == 0;
    var v1, v2, v3 := HexPrefix(s, 1), HexPrefix(s, 2), HexPrefix(s, 3);
    assert v1 == HexVal(s[0]).value;
    assert v2 == v1 * 16 + HexVal(s[1]).value;
    assert v3 == v2 * 16 + HexVal(s[2]).value;
  }

  /** The next item and the whitespace around it. */
  function ParseItem(s: Text, depth: nat): (r: Parse<Json>)
    ensures r.Done? ==> |r.rest| < |s|
    ensures r.Bad? ==> r.left <= |s|
  {
    match ParseValue(SkipWs(s), depth + 1)
    case Bad(left, msg) => Bad(left, msg)
    case Done(v, rest) => Done(v, SkipWs(rest))
  }

  /** The rest of the array loop, once the next item has been parsed. */
  function ItemsAfter(item: Parse<Json>, depth: nat, out: seq<Json>): Parse<Json> {
    match item
    case Bad(left, msg) => Bad(left, msg)
    case Done(v, t) =>
      if t != [] && t[0] == ',' then ParseItems(t[1..], depth, out + [v])
      else if t != [] && t[0] == ']' then Done(Arr(out + [v]), t[1..])
      else Bad(|t|, "expected ',' or ']'")
  }

  lemma ItemsTurn(s: Text, depth: nat, out: seq<Json>)
    ensures ParseItems(s, depth, out) == ItemsAfter(ParseItem(s, depth), depth, out)
  {
    hide ParseValue, SkipWs;
  }

  /** The next member and the whitespace around it. */
  function ParseEntry(s: Text, depth: nat): (r: Parse<Entry>)
    ensures r.Done? ==> |r.rest| < |s|
    ensures r.Bad? ==> r.left <= |s|
  {
    match ParseKey(SkipWs(s))
    case Bad(left, msg) => Bad(left, msg)
    case Done(k, s1) =>
      match ParseValue(s1, depth + 1)
      case Bad(left, msg) => Bad(left, msg)
      case Done(v, rest) => Done(Entry(k, v), SkipWs(rest))
  }

  /** The rest of the object loop, once the next member has been parsed. */
  function MembersAfter(entry: Parse<Entry>, depth: nat, out: seq<Entry>): Parse<Json> {
    match entry
    case Bad(left, msg) => Bad(left, msg)
    case Done(e, t) =>
      if t != [] && t[0] == ',' then ParseMembers(t[1..], depth, Insert(out, e.key, e.value))
      else if t != [] && t[0] == '}' then Done(Obj(Insert(out, e.key, e.value)), t[1..])
      else Bad(|t|, "expected ',' or '}'")
  }

  lemma MembersTurn(s: Text, depth: nat, out: seq<Entry>)
    ensures ParseMembers(s, depth, out) == MembersAfter(ParseEntry(s, depth), depth, out)
  {
    hide ParseValue, SkipWs, ParseKey, Insert;
  }

  /** A cursor over a document. */
  class Parser {
    const b: Text
    var i: nat
    /** The text not yet read. */
    ghost var rest: Text

    constructor (input: Text)
      ensures b == input && i == 0 && rest == input && Valid()
    {
      b := input;
      i := 0;
      rest := input;
    }

    ghost predicate Valid()
      reads this
    {
      At(i, rest)
    }

    /** `s` is the text from position `p` on. */
    ghost predicate At(p: nat, s: Text) {
      p + |s| == |b| && forall k :: 0 <= k < |s| ==> s[k] == b[p + k]
    }

    lemma Slice(p: nat, s: Text, n: nat)
      requires At(p, s) && n <= |s|
      ensures p + |s| == |b| && b[p..p + n] == s[..n]
    {
    }

    /** `r` and the cursor are what `p` says. */
    ghost predicate Agrees<T>(r: Result<T, ParseError>, p: Parse<T>)
      requires Valid()
      reads this
    {
      match p
      case Done(v, after) => r == Ok(v) && rest == after
      case Bad(left, msg) => left <= |b| && r == Err(ParseError(|b| - left, msg))
    }

    function Peek(): (c: Option<Byte>)
      requires Valid()
      reads this
      ensures c == if rest == [] then None else Some(rest[0])
    {
      if i < |b| then Some(b[i]) else None
    }

    /** The next `n` bytes, when there are as many. */
    function Ahead(n: nat): (s: Option<Text>)
      requires Valid()
      reads this
      ensures s == if n <= |rest| then Some(rest[..n]) else None
    {
      assert n <= |rest| ==> b[i..i + n] == rest[..n];
      if i + n <= |b| then Some(b[i..i + n]) else None
    }

    method Advance(n: nat)
      requires Valid() && n <= |rest|
      modifies this
      ensures Valid() && rest == old(rest)[n..]
    {
      i := i + n;
      rest := rest[n..];
    }

    function Fail(msg: string): (e: ParseError)
      requires Valid()
      reads this
      ensures e == ParseError(|b| - |rest|, msg) && |rest| <= |b|
    {
      ParseError(i, msg)
    }

    method Ws()
      requires Valid()
      modifies this
      ensures Valid() && rest == SkipWs(old(rest))
    {
      while Peek().Some? && IsWsByte(Peek().value)
        invariant Valid() && SkipWs(rest) == SkipWs(old(rest))
        decreases |rest|
      {
        Advance(1);
      }
    }

    method Lit(word: Text, v: Json) returns (r: Result<Json, ParseError>)
      requires Valid()
      modifies this
      ensures Valid() && Agrees(r, ParseLit(old(rest), word, v))
    {
      if Ahead(|word|) == Some(word) {
        Advance(|word|);
        r := Ok(v);
      } else {
        r := Err(Fail("bad literal"));
      }
    }

    method ReadHex4() returns (r: Result<int, ParseError>)
      requires Valid()
      modifies this
      ensures Valid() && Agrees(r, Hex4(old(rest)))
    {
      hide Valid;
      if Ahead(4).None? {
        return Err(Fail("truncated \\u escape"));
      }
      var s := Ahead(4).value;
      var v, k := 0, 0;
      while k < 4
        invariant 0 <= k <= 4 && IsHex(s[..k])
        invariant v == HexPrefix(s, k)
      {
        match HexVal(s[k]) {
          case None =>
            assert !IsHex(s);
            return Err(Fail("bad hex digit"));
          case Some(nib) =>
            v := v * 16 + nib;
            k := k + 1;
        }
      }
      assert s[..4] == s;
      HexPrefixFull(s);
      Advance(4);
      r := Ok(v);
    }

    method ReadUnicodeEscape() returns (r: Result<Text, ParseError>)
      requires Valid()
      modifies this
      ensures Valid() && Agrees(r, UnicodeEscape(old(rest)))
    {
      hide At, Hex4, EncodeScalar, Pair;
      var hi := ReadHex4();
      if hi.Err? {
        return Err(hi.error);
      }
      if IsHigh(hi.value) {
        assert |rest| >= 2 ==> rest[..2] == [rest[0], rest[1]];
        if Ahead(2) == Some("\\u") {
          var saved := i;
          ghost var tail := rest;
          Advance(2);
          var lo := ReadHex4();
          if lo.Err? {
            return Err(lo.error);
          }
          if IsLow(lo.value) {
            return Ok(EncodeScalar(Pair(hi.value, lo.value)));
          }
          i, rest := saved, tail;
        }
        return Ok(REPLACEMENT);
      }
      if IsLow(hi.value) {
        return Ok(REPLACEMENT);
      }
      return Ok(EncodeScalar(hi.value));
    }

    method ReadString() returns (r: Result<Text, ParseError>)
      requires Valid() && rest != []
      modifies this
      ensures Valid() && Agrees(r, ParseString(old(rest)))
    {
      hide Valid;
      Advance(1);
      var out: Text := [];
      while true
        invariant Valid() && ParseChars(rest, out) == ParseString(old(rest))
        decreases |rest|
      {
        var c := Peek();
        if c == None {
          return Err(Fail("unterminated string"));
        } else if c.value == '\"' {
          Advance(1);
          return Ok(out);
        } else if c.value == '\\' {
          var piece := ReadEscape(out);
          if piece.Err? {
            return Err(piece.error);
          }
          out := out + piece.value;
        } else if c.value < ' ' {
          return Err(Fail("raw control char in string"));
        } else {
          var chunk := Ahead(Utf8Len(c.value));
          if chunk == None {
            return Err(Fail("truncated UTF-8"));
          } else if !IsUtf8(chunk.value) {
            return Err(Fail("invalid UTF-8"));
          }
          out := out + chunk.value;
          Advance(|chunk.value|);
        }
      }
    }

    /** One escape sequence; the cursor is on its backslash. */
    method ReadEscape(ghost out: Text) returns (r: Result<Text, ParseError>)
      requires Valid() && rest != [] && rest[0] == '\\'
      modifies this
      ensures Valid()
      ensures r.Ok? ==> |rest| < |old(rest)| && ParseChars(rest, out + r.value) == ParseChars(old(rest), out)
      ensures r.Err? ==> Agrees(r, ParseChars(old(rest), out))
    {
      hide Valid;
      Advance(1);
      var e := Peek();
      if e == None {
        return Err(Fail("unterminated escape"));
      }
      Advance(1);
      if e.value == 'u' {
        r := ReadUnicodeEscape();
      } else {
        match EscapeValue(e.value) {
          case Some(x) => r := Ok([x]);
          case None => r := Err(Fail("bad escape"));
        }
      }
    }

    method SkipDigits()
      requires Valid()
      modifies this
      ensures Valid() && rest == old(rest)[DigitRun(old(rest))..]
    {
      hide Valid;
      ghost var n := 0;
      while Peek().Some? && IsDigit(Peek().value)
        invariant Valid() && n <= |old(rest)| && rest == old(rest)[n..]
        invariant n + DigitRun(rest) == DigitRun(old(rest))
        decreases |rest|
      {
        Advance(1);
        n := n + 1;
      }
    }

    method ReadWhole() returns (r: Result<(), ParseError>)
      requires Valid()
      modifies this
      ensures Valid() && Agrees(r, SkipWhole(old(rest)))
    {
      hide Valid;
      var c := Peek();
      if c.None? || !IsDigit(c.value) {
        return Err(Fail("bad number"));
      }
      if c.value == '0' {
        Advance(1);
      } else {
        SkipDigits();
      }
      r := Ok(());
    }

    method ReadFrac() returns (r: Result<(), ParseError>)
      requires Valid()
      modifies this
      ensures Valid() && Agrees(r, SkipFrac(old(rest)))
    {
      hide Valid;
      if Peek() == Some('.') {
        Advance(1);
        if Peek().None? || !IsDigit(Peek().value) {
          return Err(Fail("bad fraction"));
        }
        SkipDigits();
      }
      r := Ok(());
    }

    method ReadSign()
      requires Valid()
      modifies this
      ensures Valid() && rest == SkipSign(old(rest))
    {
      hide Valid;
      if Peek() == Some('+') || Peek() == Some('-') {
        Advance(1);
      }
    }

    method ReadExp() returns (r: Result<(), ParseError>)
      requires Valid()
      modifies this
      ensures Valid() && Agrees(r, SkipExp(old(rest)))
    {
      hide Valid, DigitRun, SkipSign;
      if Peek() == Some('e') || Peek() == Some('E') {
        Advance(1);
        ReadSign();
        NoDigits(rest);
        if Peek().None? || !IsDigit(Peek().value) {
          return Err(Fail("bad exponent"));
        }
        SkipDigits();
      }
      r := Ok(());
    }

    /** The parts of a number after its sign. */
    method ReadUnsigned() returns (r: Result<(), ParseError>)
      requires Valid()
      modifies this
      ensures Valid() && Agrees(r, SkipUnsigned(old(rest)))
    {
      hide Valid, SkipWhole, SkipFrac, SkipExp;
      r := ReadWhole();
      if r.Ok? {
        r := ReadFrac();
      }
      if r.Ok? {
        r := ReadExp();
      }
    }

    /** `number`, up to the conversion of its text. */
    method ReadNumber() returns (r: Result<Json, ParseError>)
      requires Valid() && rest != []
      modifies this
      ensures Valid() && Agrees(r, ParseNumber(old(rest)))
    {
      hide At, SkipUnsigned, NumberOf;
      var start := i;
      if Peek() == Some('-') {
        Advance(1);
      }
      var part := ReadUnsigned();
      if part.Err? {
        return Err(part.error);
      }
      Slice(start, old(rest), |old(rest)| - |rest|);
      Slice(i, rest, 0);
      r := Ok(Num(NumberOf(b[start..i])));
    }

    method ValueAt(depth: nat) returns (r: Result<Json, ParseError>)
      requires Valid()
      modifies this
      ensures Valid() && Agrees(r, ParseValue(old(rest), depth))
      decreases |rest|, 0
    {
      hide Valid;
      if depth > MAX_DEPTH {
        return Err(Fail("too deep"));
      }
      match Peek() {
        case None => r := Err(Fail("unexpected end"));
        case Some(c) =>
          if c == 'n' {
            r := Lit("null", Null);
          } else if c == 't' {
            r := Lit("true", Bool(true));
          } else if c == 'f' {
            r := Lit("false", Bool(false));
          } else if c == '\"' {
            var t := ReadString();
            r := if t.Ok? then Ok(Str(t.value)) else Err(t.error);
          } else if c == '[' {
            Advance(1);
            Ws();
            r := ReadArray(depth);
          } else if c == '{' {
            Advance(1);
            Ws();
            r := ReadObject(depth);
          } else if c == '-' || IsDigit(c) {
            r := ReadNumber();
          } else {
            r := Err(Fail("unexpected token"));
          }
      }
    }

    method ReadItem(depth: nat) returns (r: Result<Json, ParseError>)
      requires Valid()
      modifies this
      ensures Valid() && Agrees(r, ParseItem(old(rest), depth))
      decreases |rest|, 1
    {
      hide Valid, ParseValue, SkipWs;
      Ws();
      r := ValueAt(depth + 1);
      if r.Ok? {
        Ws();
      }
    }

    /** `array`, past its opening bracket and whitespace. */
    method ReadArray(depth: nat) returns (r: Result<Json, ParseError>)
      requires Valid()
      modifies this
      ensures Valid() && Agrees(r, ParseArray(old(rest), depth))
      decreases |rest|, 2
    {
      hide Valid, ParseItem, ParseItems;
      if Peek() == Some(']') {
        Advance(1);
        return Ok(Arr([]));
      }
      var out: seq<Json> := [];
      while true
        invariant Valid() && |rest| <= |old(rest)|
        invariant ParseItems(rest, depth, out) == ParseArray(old(rest), depth)
        decreases |rest|
      {
        ItemsTurn(rest, depth, out);
        var v := ReadItem(depth);
        if v.Err? {
          return Err(v.error);
        }
        var c := Peek();
        if c == Some(',') {
          out := out + [v.value];
          Advance(1);
        } else if c == Some(']') {
          Advance(1);
          return Ok(Arr(out + [v.value]));
        } else {
          return Err(Fail("expected ',' or ']'"));
        }
      }
    }

    method ReadKey() returns (r: Result<Text, ParseError>)
      requires Valid()
      modifies this
      ensures Valid() && Agrees(r, ParseKey(old(rest)))
    {
      hide Valid, SkipWs, ParseChars;
      if Peek() != Some('\"') {
        return Err(Fail("expected object key"));
      }
      var k := ReadString();
      if k.Err? {
        return Err(k.error);
      }
      Ws();
      if Peek() != Some(':') {
        return Err(Fail("expected ':'"));
      }
      Advance(1);
      Ws();
      return Ok(k.value);
    }

    method ReadEntry(depth: nat) returns (r: Result<Entry, ParseError>)
      requires Valid()
      modifies this
      ensures Valid() && Agrees(r, ParseEntry(old(rest), depth))
      decreases |rest|, 1
    {
      hide Valid, ParseValue, SkipWs, ParseKey;
      Ws();
      var k := ReadKey();
      if k.Err? {
        return Err(k.error);
      }
      var v := ValueAt(depth + 1);
      if v.Err? {
        return Err(v.error);
      }
      Ws();
      return Ok(Entry(k.value, v.value));
    }

    /** `object`, past its opening brace and whitespace. */
    method ReadObject(depth: nat) returns (r: Result<Json, ParseError>)
      requires Valid()
      modifies this
      ensures Valid() && Agrees(r, ParseObject(old(rest), depth))
      decreases |rest|, 2
    {
      hide Valid, ParseEntry, ParseMembers, Insert;
      if Peek() == Some('}') {
        Advance(1);
        return Ok(Obj([]));
      }
      var out: seq<Entry> := [];
      while true
        invariant Valid() && |rest| <= |old(rest)|
        invariant ParseMembers(rest, depth, out) == ParseObject(old(rest), depth)
        decreases |rest|
      {
        MembersTurn(rest, depth, out);
        var e := ReadEntry(depth);
        if e.Err? {
          return Err(e.error);
        }
        var c := Peek();
        out := Insert(out, e.value.key, e.value.value);
        if c == Some(',') {
          Advance(1);
        } else if c == Some('}') {
          Advance(1);
          return Ok(Obj(out));
        } else {
          return Err(Fail("expected ',' or '}'"));
        }
      }
    }
  }

  /** `json::parse`: leading and trailing whitespace, one value, nothing else. */
  method ParseDocument(input: Text) returns (r: Result<Json, ParseError>)
    ensures r == Parsed(input)
  {
    hide ParseValue, SkipWs, Parser.Valid;
    var p := new Parser(input);
    p.Ws();
    var v := p.ValueAt(0);
    if v.Err? {
      return v;
    }
    p.Ws();
    r := if p.Peek().Some? then Err(p.Fail("trailing content")) else v;
  }
}
