/** Where and why the parser refuses a text, for the commonest ways of not being JSON. */
module JsonErrors {
  import opened Alphabet
  import opened Bytes
  import opened Numerals
  import opened JsonValue
  import opened JsonGrammar
  import opened JsonParser
  import opened JsonCorrect
  import opened JsonSound

  /** White space is four characters. */
  lemma WsExactly(c: Byte)
    ensures IsWsByte(c) <==> c in " \t\n\r"
  {
  }

  lemma WsOnly(ws: Text)
    requires IsWs(ws)
    ensures SkipWs(ws) == []
  {
    SkipWsOver(ws, []);
    assert ws + [] == ws;
  }

  /** Nothing but white space ends too early. */
  lemma BlankIsRefused(ws: Text)
    requires IsWs(ws)
    ensures Parsed(ws) == Err(ParseError(|ws|, "unexpected end"))
  {
    hide SkipWs;
    WsOnly(ws);
  }

  /** No value begins with any other character than these. */
  predicate CanBegin(c: Byte) {
    c in DIGITS || c in "\"[{-ntf"
  }

  /** What begins no value is refused where it begins. */
  lemma OtherIsRefused(ws: Text, s: Text)
    requires IsWs(ws) && s != [] && !IsWsByte(s[0]) && !CanBegin(s[0])
    ensures Parsed(ws + s) == Err(ParseError(|ws|, "unexpected token"))
  {
    hide SkipWs, DIGITS;
    DigitsExactly(s[0]);
    SkipWsOver(ws, s);
    OtherIsBad(s);
  }

  lemma OtherIsBad(s: Text)
    requires s != [] && !IsDigit(s[0]) && s[0] !in "\"[{-ntf"
    ensures ParseValue(s, 0) == Bad(|s|, "unexpected token")
  {
    hide ParseString, ParseNumber, ParseArray, ParseObject, ParseLit, IsDigit;
  }

  /** Half a word is refused where the word begins. */
  lemma HalfWordIsRefused(ws: Text, s: Text)
    requires IsWs(ws) && s != [] && s[0] in "ntf" && !("null" <= s) && !("true" <= s) && !("false" <= s)
    ensures Parsed(ws + s) == Err(ParseError(|ws|, "bad literal"))
  {
    hide SkipWs;
    SkipWsOver(ws, s);
    HalfWordIsBad(s);
  }

  lemma HalfWordIsBad(s: Text)
    requires s != [] && s[0] in "ntf" && !("null" <= s) && !("true" <= s) && !("false" <= s)
    ensures ParseValue(s, 0) == Bad(|s|, "bad literal") && !IsWsByte(s[0])
  {
    hide ParseString, ParseNumber, ParseArray, ParseObject, ParseLit, SkipWs;
    NotLit(s, "null", Null);
    NotLit(s, "true", Bool(true));
    NotLit(s, "false", Bool(false));
  }

  lemma NotLit(s: Text, word: Text, v: Json)
    requires !(word <= s)
    ensures ParseLit(s, word, v) == Bad(|s|, "bad literal")
  {
  }

  /** Whatever follows a value and white space is refused where it begins. */
  lemma MoreIsRefused(c: Cst, before: Text, after: Text, more: Text)
    requires IsCst(c) && IsWs(before) && IsWs(after) && CstDepth(c) <= 128
    requires more != [] && !IsWsByte(more[0]) && (after != [] || more[0] in ",]}")
    ensures Parsed(before + (Doc(c) + (after + more))) ==
      Err(ParseError(|before| + |Doc(c)| + |after|, "trailing content"))
  {
    hide ParseValue, SkipWs, Doc, Denote, CstDepth, IsCst, Follows, IsWs;
    var rest := after + more;
    CommaFollows(after, more);
    DocHead(c, rest);
    SkipWsOver(before, Doc(c) + rest);
    ValueComplete(c, rest, 0);
    SkipWsOver(after, more);
  }

  lemma CommaFollows(after: Text, more: Text)
    requires IsWs(after) && more != [] && (after != [] || more[0] in ",]}")
    ensures Follows(after + more)
  {
    if after != [] {
      assert (after + more)[0] == after[0];
    }
  }
}
