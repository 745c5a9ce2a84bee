/** `jwt_sign` and `jwt_verify` of backend/src/auth.rs, for every message authentication code. */
module Token {
  import opened Bytes
  import opened Utf8
  import opened Numerals
  import opened Splitting
  import opened JsonValue
  import opened JsonGrammar
  import opened JsonParser
  import opened JsonSound
  import opened JsonPrinter
  import opened Base64
  import opened Float64

  datatype Payload = Payload(user: Text, exp: Option<int>)

  datatype TokenError = Malformed | BadSignature | Expired

  /** From a key and a message to a tag. */
  type Mac = (Text, Text) -> Text

  function Header(): Text {
    "{\"alg\":\"HS256\",\"typ\":\"JWT\"}"
  }

  // ==== signing ====

  function KeyText(key: Text): Text {
    "\"" + (key + "\"")
  }

  function Claim(key: Text, value: Text, more: Text): Text {
    KeyText(key) + (":" + (value + more))
  }

  /** The payload, with `userID` before `exp`. */
  function BodyJson(p: Payload): Text {
    "{" + Claim("userID", Quoted(p.user),
      match p.exp
      case None => "}"
      case Some(exp) => "," + Claim("exp", SignedDecimal(exp), "}"))
  }

  function Url64(s: Text): Text {
    Encoded64(s, true, false)
  }

  function SigningInput(head: Text, body: Text): Text {
    head + (['.'] + body)
  }

  /** `jwt_sign` */
  function JwtSign(p: Payload, secret: Text, mac: Mac): Text {
    var input := SigningInput(Url64(Header()), Url64(BodyJson(p)));
    input + (['.'] + Url64(mac(secret, input)))
  }

  // ==== verifying ====

  /** The `exp` claim: absent or null, or a whole f64 below 2^53 in magnitude. */
  function ExpOf(claim: Option<Json>, other: Text -> F64): Result<Option<int>, TokenError> {
    match claim
    case None => Ok(None)
    case Some(Null) => Ok(None)
    case Some(Num(number)) =>
      (match ValueOf(number, other)
       case Whole(n) => if -SAFE_INT < n < SAFE_INT then Ok(Some(n)) else Err(Malformed)
       case _ => Err(Malformed))
    case Some(_) => Err(Malformed)
  }

  function ReadPayload(raw: Text, now: int, other: Text -> F64): Result<Payload, TokenError> {
    match Parsed(raw)
    case Err(_) => Err(Malformed)
    case Ok(doc) =>
      match AsStr(Get(doc, "userID"))
      case None => Err(Malformed)
      case Some(user) =>
        match ExpOf(Get(doc, "exp"), other)
        case Err(e) => Err(e)
        case Ok(exp) =>
          if exp.Some? && exp.value != 0 && now > exp.value then Err(Expired) else Ok(Payload(user, exp))
  }

  /** `jwt_verify` at the time `now`. */
  function JwtVerify(token: Text, secret: Text, now: int, mac: Mac, other: Text -> F64): Result<Payload, TokenError> {
    var parts := Split(token, '.');
    if |parts| != 3 || parts[0] == [] || parts[1] == [] || parts[2] == [] then Err(Malformed)
    else if parts[2] != Url64(mac(secret, SigningInput(parts[0], parts[1]))) then Err(BadSignature)
    else
      match Decoded64(parts[1])
      case None => Err(Malformed)
      case Some(raw) => ReadPayload(raw, now, other)
  }

  // ==== the payload parses back ====

  /** Text that a JSON string shows as it is. */
  predicate IsPlain(s: Text) {
    forall i :: 0 <= i < |s| ==> ' ' <= s[i] < '\U{80}' && s[i] != '\"' && s[i] != '\\'
  }

  function RawChars(s: Text): seq<Chr> {
    if s == [] then [] else [Raw([s[0]])] + RawChars(s[1..])
  }

  lemma {:induction false} RawCharsMean(s: Text)
    requires IsPlain(s)
    ensures AreChrs(RawChars(s)) && ChrsDoc(RawChars(s)) == s && DenoteChrs(RawChars(s)) == s
  {
    if s != [] {
      RawCharsMean(s[1..]);
      ChrThen(Raw([s[0]]), RawChars(s[1..]));
      RawAlone(s[0]);
      assert s == [s[0]] + s[1..];
      assert RawChars(s)[1..] == RawChars(s[1..]);
    }
  }

  lemma RawAlone(c: Byte)
    requires ' ' <= c < '\U{80}' && c != '\"' && c != '\\'
    ensures IsChr(Raw([c])) && ChrDoc(Raw([c])) == [c] && DenoteChrs([Raw([c])]) == [c]
  {
    assert [Raw([c])][1..] == [] && DenoteChrs([]) == [];
  }

  /** A member without white space. */
  function BareMember(key: Text, value: Cst): Member {
    Member([], RawChars(key), [], [], value, [])
  }

  lemma BareFrame(key: Text, value: Cst)
    requires IsPlain(key)
    ensures IsFrame(BareMember(key, value)) && DenoteChrs(RawChars(key)) == key
  {
    hide RawChars, DenoteChrs, AreChrs;
    RawCharsMean(key);
  }

  lemma BareText(key: Text, value: Cst, more: Text)
    requires IsPlain(key)
    ensures [] + (StringDoc(RawChars(key)) + ([] + (":" + ([] + (Doc(value) + ([] + more)))))) ==
      Claim(key, Doc(value), more)
  {
    hide RawChars, DenoteChrs, AreChrs, Doc;
    RawCharsMean(key);
    NilLeft(more);
    NilLeft(Doc(value) + more);
    NilLeft(":" + (Doc(value) + more));
    NilLeft(KeyText(key) + (":" + (Doc(value) + more)));
  }

  function BodyMembers(p: Payload): Members
    requires IsUtf8(p.user)
  {
    var user := BareMember("userID", CStr(ChrsOf(p.user)));
    match p.exp
    case None => LastMember(user)
    case Some(exp) => ThenMember(user, LastMember(BareMember("exp", CNum(NumericOf(exp)))))
  }

  lemma PlainKeys()
    ensures IsPlain("userID") && IsPlain("exp") && "userID" != "exp"
  {
    assert |"userID"| == 6 && |"exp"| == 3;
  }

  lemma UserDoc(user: Text)
    requires IsUtf8(user)
    ensures var c := CStr(ChrsOf(user)); IsCst(c) && Doc(c) == Quoted(user) && Denote(c) == Str(user)
  {
    hide ChrsOf, AreChrs, IsUtf8, ChrsDoc, DenoteChrs, Escaped, StringDoc, Quoted;
    ChrsOfMeaning(user);
    StringDocIs(ChrsOf(user), user);
  }

  lemma ExpDoc(exp: int)
    ensures var c := CNum(NumericOf(exp));
      && IsCst(c) && Doc(c) == SignedDecimal(exp)
      && Denote(c) == Num(if -SAFE_INT < exp < SAFE_INT then Int(exp) else Other(SignedDecimal(exp)))
  {
    hide NumericOf, IsNumeric, NumericDoc, NumberOf;
    NumericOfMeaning(exp);
  }

  lemma LastDoc(key: Text, value: Cst)
    requires IsPlain(key)
    ensures MembersDoc(LastMember(BareMember(key, value))) == Claim(key, Doc(value), "}")
  {
    hide Claim, RawChars, StringDoc, Doc, IsPlain;
    BareText(key, value, "}");
  }

  lemma ThenDoc(key: Text, value: Cst, tail: Members)
    requires IsPlain(key)
    ensures MembersDoc(ThenMember(BareMember(key, value), tail)) == Claim(key, Doc(value), "," + MembersDoc(tail))
  {
    var more := "," + MembersDoc(tail);
    hide Claim, RawChars, StringDoc, Doc, IsPlain;
    BareText(key, value, more);
  }

  lemma LastAre(key: Text, value: Cst)
    requires IsPlain(key) && IsCst(value)
    ensures AreMembers(LastMember(BareMember(key, value)))
  {
    BareFrame(key, value);
    hide IsFrame, IsPlain;
  }

  lemma ThenAre(key: Text, value: Cst, tail: Members)
    requires IsPlain(key) && IsCst(value) && AreMembers(tail)
    ensures AreMembers(ThenMember(BareMember(key, value), tail))
  {
    BareFrame(key, value);
    hide IsFrame, IsPlain;
  }

  lemma MembersAre(p: Payload)
    requires IsUtf8(p.user)
    ensures AreMembers(BodyMembers(p))
  {
    PlainKeys();
    hide BareMember, IsPlain, AreMembers, ChrsOf, NumericOf, IsUtf8, IsCst, Doc, Denote, Quoted, SignedDecimal;
    UserDoc(p.user);
    match p.exp
    case None => LastAre("userID", CStr(ChrsOf(p.user)));
    case Some(exp) =>
      ExpDoc(exp);
      LastAre("exp", CNum(NumericOf(exp)));
      ThenAre("userID", CStr(ChrsOf(p.user)), LastMember(BareMember("exp", CNum(NumericOf(exp)))));
  }

  lemma MembersText(p: Payload)
    requires IsUtf8(p.user)
    ensures "{" + MembersDoc(BodyMembers(p)) == BodyJson(p)
  {
    PlainKeys();
    hide BareMember, IsPlain, MembersDoc, Claim, ChrsOf, NumericOf, IsUtf8, IsCst, Doc, Denote, Quoted, SignedDecimal;
    UserDoc(p.user);
    match p.exp
    case None => LastDoc("userID", CStr(ChrsOf(p.user)));
    case Some(exp) =>
      ExpDoc(exp);
      LastDoc("exp", CNum(NumericOf(exp)));
      ThenDoc("userID", CStr(ChrsOf(p.user)), LastMember(BareMember("exp", CNum(NumericOf(exp)))));
  }

  /** The payload is the text of its members. */
  lemma BodyDoc(p: Payload)
    requires IsUtf8(p.user)
    ensures IsCst(CObj(BodyMembers(p))) && Doc(CObj(BodyMembers(p))) == BodyJson(p)
  {
    hide BodyMembers, AreMembers, MembersDoc, BodyJson, IsUtf8;
    MembersAre(p);
    MembersText(p);
  }

  function ExpClaim(exp: Option<int>): Option<Json> {
    match exp
    case None => None
    case Some(n) => Some(Num(if -SAFE_INT < n < SAFE_INT then Int(n) else Other(SignedDecimal(n))))
  }

  lemma OneValue(m: Member, q: Text, before: Option<Json>)
    requires AreMembers(LastMember(m))
    ensures LastValue(LastMember(m), q, before) == if DenoteChrs(m.key) == q then Some(Denote(m.value)) else before
  {
    hide DenoteChrs, Denote;
  }

  lemma TwoValues(m: Member, n: Member, q: Text)
    requires AreMembers(ThenMember(m, LastMember(n)))
    ensures AreMembers(LastMember(m)) && AreMembers(LastMember(n))
    ensures LastValue(ThenMember(m, LastMember(n)), q, None) ==
      LastValue(LastMember(n), q, LastValue(LastMember(m), q, None))
  {
    hide DenoteChrs, Denote, IsFrame;
  }

  lemma BareKey(key: Text, value: Cst)
    requires IsPlain(key)
    ensures IsFrame(BareMember(key, value)) && BareMember(key, value).value == value
    ensures DenoteChrs(BareMember(key, value).key) == key
  {
    hide DenoteChrs, RawChars, IsFrame;
    BareFrame(key, value);
  }

  /** The last values that the members give to the claims. */
  predicate GiveClaims(ms: Members, p: Payload)
    requires AreMembers(ms)
  {
    LastValue(ms, "userID", None) == Some(Str(p.user)) && LastValue(ms, "exp", None) == ExpClaim(p.exp)
  }

  lemma BodyValues(p: Payload)
    requires IsUtf8(p.user) && AreMembers(BodyMembers(p))
    ensures GiveClaims(BodyMembers(p), p)
  {
    PlainKeys();
    hide BareMember, IsPlain, ChrsOf, NumericOf, SignedDecimal, IsUtf8, DenoteChrs, Doc, Quoted, LastValue;
    hide AreMembers, IsCst, Denote;
    var user := BareMember("userID", CStr(ChrsOf(p.user)));
    UserDoc(p.user);
    BareKey("userID", CStr(ChrsOf(p.user)));
    match p.exp
    case None =>
      OneValue(user, "userID", None);
      OneValue(user, "exp", None);
    case Some(n) =>
      var exp := BareMember("exp", CNum(NumericOf(n)));
      ExpDoc(n);
      BareKey("exp", CNum(NumericOf(n)));
      TwoValues(user, exp, "userID");
      TwoValues(user, exp, "exp");
      OneValue(user, "userID", None);
      OneValue(user, "exp", None);
      OneValue(exp, "userID", Some(Str(p.user)));
      OneValue(exp, "exp", None);
  }

  lemma LookupNone(k: Text)
    ensures Lookup([], k) == None && Sorted([])
  {
  }

  lemma BodyDepth(p: Payload)
    requires IsUtf8(p.user)
    ensures CstDepth(CObj(BodyMembers(p))) == 1
  {
    hide ChrsOf, NumericOf, RawChars, IsUtf8;
    var ms := BodyMembers(p);
    assert CstDepth(ms.m.value) == 0;
    if ms.ThenMember? {
      assert CstDepth(ms.tail.m.value) == 0;
      assert CstMembersDepth(ms.tail) == 0;
    }
    assert CstMembersDepth(ms) == 0;
  }

  /** The payload parses to the claims. */
  lemma BodyParses(p: Payload)
    requires IsUtf8(p.user)
    ensures Parsed(BodyJson(p)).Ok?
    ensures Get(Parsed(BodyJson(p)).value, "userID") == Some(Str(p.user))
    ensures Get(Parsed(BodyJson(p)).value, "exp") == ExpClaim(p.exp)
  {
    hide Parsed, BodyJson, BodyMembers, Doc, CstDepth, IsUtf8, Lookup, DenoteMembers, AreMembers, LastValue, ExpClaim;
    BodyDoc(p);
    BodyDepth(p);
    BodyValues(p);
    var c := CObj(BodyMembers(p));
    LookupNone("userID");
    LookupNone("exp");
    DuplicatesKeepLast(BodyMembers(p), [], "userID");
    DuplicatesKeepLast(BodyMembers(p), [], "exp");
    NilLeft(Doc(c));
    NothingIsWs();
    assert Derives(c, [], [], BodyJson(p));
    DerivedParses(c, [], [], BodyJson(p));
  }

  lemma NothingIsWs()
    ensures IsWs([])
  {
  }

  // ==== the header ====

  lemma {:induction false} PlainEscapes(s: Text)
    requires IsPlain(s)
    ensures Escaped(s) == s && Quoted(s) == "\"" + (s + "\"") && IsUtf8(s)
  {
    if s == [] {
    } else {
      PlainEscapes(s[1..]);
      assert s == [s[0]] + s[1..];
    }
  }

  const ALGORITHM := Entry("alg", Str("HS256"))
  const KIND := Entry("typ", Str("JWT"))

  /** The header names the algorithm and the kind of token, as section 5 of RFC 7519 has it. */
  lemma HeaderParses()
    ensures Parsed(Header()) == Ok(Obj([ALGORITHM, KIND]))
  {
    hide Parsed, Stringified, Proper, Integral, Depth;
    var doc := Obj([ALGORITHM, KIND]);
    HeaderIsProper();
    HeaderIsPrinted();
    RoundTrip(doc);
  }

  lemma HeaderWords()
    ensures IsPlain("alg") && IsPlain("HS256") && IsPlain("typ") && IsPlain("JWT")
  {
  }

  lemma HeaderIsProper()
    ensures var doc := Obj([ALGORITHM, KIND]); Proper(doc) && Integral(doc) && Depth(doc) <= MAX_DEPTH
  {
    hide IsUtf8, IsPlain, Escaped;
    HeaderWords();
    PlainEscapes("alg");
    PlainEscapes("HS256");
    PlainEscapes("typ");
    PlainEscapes("JWT");
    assert Before("alg", "typ");
    assert [ALGORITHM, KIND][1..] == [KIND] && [KIND][1..] == [];
    assert EntriesDepth([]) == 0 && Depth(ALGORITHM.value) == 0 && Depth(KIND.value) == 0;
    assert EntriesDepth([KIND]) == 0 && EntriesDepth([ALGORITHM, KIND]) == 0;
  }

  lemma PlainEntry(key: Text, value: Text, more: Text)
    requires IsPlain(key) && IsPlain(value)
    ensures EntryText(Entry(key, Str(value)), more) == Claim(key, KeyText(value), more)
  {
    hide IsPlain, Escaped, Quoted, IsUtf8;
    PlainEscapes(key);
    PlainEscapes(value);
  }

  lemma TwoEntries(a: Entry, b: Entry)
    requires Integral(a.value) && Integral(b.value) && Integral(Obj([a, b]))
    ensures Stringified(Obj([a, b])) == "{" + (EntryText(a, "," + EntryText(b, [])) + "}")
  {
    hide EntryText;
    assert [a, b][1..] == [b] && [b][1..] == [];
    assert JoinedEntries([], false) == [];
    assert JoinedEntries([b], false) == "," + EntryText(b, []);
    NilLeft(EntryText(a, "," + EntryText(b, [])));
  }

  lemma HeaderIsPrinted()
    requires Integral(Obj([ALGORITHM, KIND]))
    ensures Stringified(Obj([ALGORITHM, KIND])) == Header()
  {
    hide EntryText, Claim, KeyText, Stringified, Header, IsPlain;
    HeaderWords();
    TwoEntries(ALGORITHM, KIND);
    PlainEntry("typ", "JWT", []);
    PlainEntry("alg", "HS256", "," + EntryText(KIND, []));
    HeaderText();
  }

  lemma HeaderText()
    ensures "{" + (Claim("alg", KeyText("HS256"), "," + Claim("typ", KeyText("JWT"), [])) + "}") == Header()
  {
  }

  // ==== tokens ====

  lemma Url64Part(s: Text)
    ensures Lacks(Url64(s), '.') && (s != [] ==> Url64(s) != []) && Decoded64(Url64(s)) == Some(s)
  {
    hide Decoded64, Val64, Lacks, GroupText;
    EqualsHasNoValue();
    EncodedLacks(s, true, '.');
    DecodeEncoded64(s, true, false);
    if s != [] {
      GroupShape(s[..if |s| < 3 then |s| else 3], true);
    }
  }

  /** A token splits into its three segments. */
  lemma TokenSplits(head: Text, body: Text, sig: Text)
    requires Lacks(head, '.') && Lacks(body, '.') && Lacks(sig, '.')
    ensures Split(SigningInput(head, body) + (['.'] + sig), '.') == [head, body, sig]
  {
    hide Split, Lacks;
    Assoc(head, ['.'] + body, ['.'] + sig);
    Assoc(['.'], body, ['.'] + sig);
    SplitIn(head, '.', body + (['.'] + sig));
    SplitIn(body, '.', sig);
    SplitNone(sig, '.');
  }

  lemma HeadAndBodyNotEmpty(p: Payload)
    ensures Header() != [] && BodyJson(p) != []
  {
    hide Claim, Quoted, SignedDecimal;
    assert Header()[0] == '{';
  }

  /** A signed token is verified by reading its payload. */
  lemma SignedIsRead(p: Payload, secret: Text, now: int, mac: Mac, other: Text -> F64)
    requires forall k: Text, m: Text :: mac(k, m) != []
    ensures JwtVerify(JwtSign(p, secret, mac), secret, now, mac, other) == ReadPayload(BodyJson(p), now, other)
  {
    HeadAndBodyNotEmpty(p);
    hide Split, Lacks, Url64, Decoded64, BodyJson, Header, ReadPayload, SigningInput;
    var head, body := Url64(Header()), Url64(BodyJson(p));
    var input := SigningInput(head, body);
    var sig := Url64(mac(secret, input));
    Url64Part(Header());
    Url64Part(BodyJson(p));
    Url64Part(mac(secret, input));
    TokenSplits(head, body, sig);
  }

  /** The claim of an integer is that integer below 2^53, and malformed from there on. */
  lemma ExpIsRead(exp: Option<int>, other: Text -> F64)
    ensures ExpOf(ExpClaim(exp), other) ==
      if exp.Some? && !(-SAFE_INT < exp.value < SAFE_INT) then Err(Malformed) else Ok(exp)
  {
    hide Magnitude, Rounded, TwoTo, IsNegative;
    if exp.Some? {
      PrintedMagnitude(exp.value);
      RoundingKeepsRange(if exp.value < 0 then -exp.value else exp.value);
    }
  }

  /** What reading the payload of `p` gives. */
  lemma PayloadIsRead(p: Payload, now: int, other: Text -> F64)
    requires IsUtf8(p.user)
    ensures ReadPayload(BodyJson(p), now, other) ==
      match ExpOf(ExpClaim(p.exp), other)
      case Err(e) => Err(e)
      case Ok(exp) => if exp.Some? && exp.value != 0 && now > exp.value then Err(Expired) else Ok(Payload(p.user, exp))
  {
    hide BodyJson, Parsed, IsUtf8, Get, ExpOf, ExpClaim;
    BodyParses(p);
  }

  /** Verifying a signed token, for every user id, expiry and time: malformed when the expiry is
      2^53 or more in magnitude, expired when it is past, and else the payload that was signed. */
  lemma TokenRoundTrip(p: Payload, secret: Text, now: int, mac: Mac, other: Text -> F64)
    requires IsUtf8(p.user) && (forall k: Text, m: Text :: mac(k, m) != [])
    ensures JwtVerify(JwtSign(p, secret, mac), secret, now, mac, other) ==
      if p.exp.Some? && !(-SAFE_INT < p.exp.value < SAFE_INT) then Err(Malformed)
      else if p.exp.Some? && p.exp.value != 0 && now > p.exp.value then Err(Expired)
      else Ok(p)
  {
    hide JwtVerify, JwtSign, BodyJson, ReadPayload, IsUtf8, ExpOf, ExpClaim;
    SignedIsRead(p, secret, now, mac, other);
    PayloadIsRead(p, now, other);
    ExpIsRead(p.exp, other);
  }

  // ==== every accepted token ====

  lemma SplitTwice(s: Text, c: Byte)
    requires |Split(s, c)| == 3
    ensures var parts := Split(s, c);
      && s == (parts[0] + ([c] + parts[1])) + ([c] + parts[2])
      && Lacks(parts[0], c) && Lacks(parts[1], c) && Lacks(parts[2], c)
  {
    hide Find, Lacks;
    var i := Find(s, c).value;
    var t := s[i + 1..];
    assert Split(s, c)[1..] == Split(t, c);
    var j := Find(t, c).value;
    assert Split(t, c)[1..] == Split(t[j + 1..], c);
    CutAt(s, i);
    CutAt(t, j);
    Assoc(s[..i], [c] + t[..j], [c] + t[j + 1..]);
    Assoc([c], t[..j], [c] + t[j + 1..]);
  }

  /** The claims of a payload that is valid at the time `now`. */
  predicate HasClaims(doc: Json, p: Payload, now: int, other: Text -> F64) {
    && AsStr(Get(doc, "userID")) == Some(p.user)
    && match Get(doc, "exp")
       case None => p.exp == None
       case Some(Null) => p.exp == None
       case Some(Num(number)) =>
         && p.exp.Some? && ValueOf(number, other) == Whole(p.exp.value)
         && -SAFE_INT < p.exp.value < SAFE_INT && (p.exp.value == 0 || now <= p.exp.value)
       case _ => false
  }

  /** `body` is signed for `head`, and encodes a JSON text of the grammar with the claims of `p`. */
  ghost predicate IsSigned(
    head: Text, body: Text, raw: Text, doc: Json,
    token: Text, secret: Text, now: int, mac: Mac, other: Text -> F64, p: Payload) {
    var input := SigningInput(head, body);
    var sig := Url64(mac(secret, input));
    && head != [] && body != [] && sig != [] && Lacks(head, '.') && Lacks(body, '.')
    && token == input + (['.'] + sig)
    && Decoded64(body) == Some(raw) && IsJsonText(raw, doc, MAX_DEPTH) && HasClaims(doc, p, now, other)
  }

  lemma PayloadExactly(raw: Text, now: int, other: Text -> F64, p: Payload)
    ensures ReadPayload(raw, now, other) == Ok(p)
      <==> Parsed(raw).Ok? && HasClaims(Parsed(raw).value, p, now, other)
  {
    hide Parsed, Get, ValueOf;
  }

  /** Exactly these tokens are accepted, each with the payload that its claims name. */
  lemma AcceptedExactly(token: Text, secret: Text, now: int, mac: Mac, other: Text -> F64, p: Payload)
    ensures JwtVerify(token, secret, now, mac, other) == Ok(p)
      <==> exists head, body, raw, doc :: IsSigned(head, body, raw, doc, token, secret, now, mac, other, p)
  {
    hide Split, Url64, Decoded64, Parsed, ReadPayload, HasClaims, IsJsonText, Lacks;
    if JwtVerify(token, secret, now, mac, other) == Ok(p) {
      var parts := Split(token, '.');
      var raw := Decoded64(parts[1]).value;
      SplitTwice(token, '.');
      PayloadExactly(raw, now, other, p);
      ParseIsGrammar(raw, Parsed(raw).value);
      assert IsSigned(parts[0], parts[1], raw, Parsed(raw).value, token, secret, now, mac, other, p);
    }
    if exists head, body, raw, doc :: IsSigned(head, body, raw, doc, token, secret, now, mac, other, p) {
      var head, body, raw, doc :| IsSigned(head, body, raw, doc, token, secret, now, mac, other, p);
      var sig := Url64(mac(secret, SigningInput(head, body)));
      Url64Part(mac(secret, SigningInput(head, body)));
      TokenSplits(head, body, sig);
      ParseIsGrammar(raw, doc);
      PayloadExactly(raw, now, other, p);
    }
  }
}
