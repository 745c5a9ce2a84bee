/** The grammar of RFC 8259, sections 2 to 7, as concrete syntax trees.

    A tree records every character of a document, so `Doc` is the text it derives and
    `Denote` the value it stands for. Nothing here follows the parser.
 */
module JsonGrammar {
  import opened Bytes
  import opened Utf8
  import opened Numerals
  import opened JsonValue

  /** One `char` of section 7. */
  datatype Chr = Raw(scalar: Text) | Esc(code: Byte) | Uni(hex: Text)

  datatype Exponent = Exponent(e: Byte, sign: Text, digits: Text)

  /** Section 6. */
  datatype Numeric = Numeric(minus: bool, whole: Text, frac: Option<Text>, exp: Option<Exponent>)

  datatype Cst =
    | CNull
    | CTrue
    | CFalse
    | CNum(num: Numeric)
    | CStr(chars: seq<Chr>)
    | CEmptyArr(ws: Text)
    | CArr(items: Items)
    | CEmptyObj(ws: Text)
    | CObj(members: Members)

  /** `value *( "," value )` with the whitespace around each value. */
  datatype Items =
    | LastItem(before: Text, value: Cst, after: Text)
    | ThenItem(before: Text, value: Cst, after: Text, rest: Items)

  datatype Member = Member(before: Text, key: seq<Chr>, beforeColon: Text, afterColon: Text, value: Cst, after: Text)

  datatype Members = LastMember(m: Member) | ThenMember(m: Member, tail: Members)

  // ---- well-formedness ----

  predicate IsWsByte(c: Byte) {
    c == ' ' || c == '\t' || c == '\n' || c == '\r'
  }

  predicate IsWs(s: Text) {
    forall i :: 0 <= i < |s| ==> IsWsByte(s[i])
  }

  predicate IsHex(s: Text) {
    forall i :: 0 <= i < |s| ==> HexVal(s[i]).Some?
  }

  /** The character a two-character escape stands for. */
  function EscapeValue(code: Byte): Option<Byte> {
    match code
    case '\"' => Some('\"')
    case '\\' => Some('\\')
    case '/' => Some('/')
    case 'b' => Some('\U{8}')
    case 'f' => Some('\U{C}')
    case 'n' => Some('\n')
    case 'r' => Some('\r')
    case 't' => Some('\t')
    case _ => None
  }

  predicate IsChr(c: Chr) {
    match c
    case Raw(s) => IsScalar(s) && s[0] >= ' ' && s[0] != '\"' && s[0] != '\\'
    case Esc(code) => EscapeValue(code).Some?
    case Uni(hex) => |hex| == 4 && IsHex(hex)
  }

  predicate AreChrs(cs: seq<Chr>) {
    forall i :: 0 <= i < |cs| ==> IsChr(cs[i])
  }

  predicate IsDigits(s: Text) {
    s != [] && AllDigits(s)
  }

  predicate IsNumeric(n: Numeric) {
    && IsDigits(n.whole)
    && (n.whole[0] == '0' ==> |n.whole| == 1)
    && (n.frac.Some? ==> IsDigits(n.frac.value))
    && (n.exp.Some? ==>
          && (n.exp.value.e == 'e' || n.exp.value.e == 'E')
          && (n.exp.value.sign == "" || n.exp.value.sign == "+" || n.exp.value.sign == "-")
          && IsDigits(n.exp.value.digits))
  }

  predicate IsCst(c: Cst) {
    match c
    case CNum(n) => IsNumeric(n)
    case CStr(cs) => AreChrs(cs)
    case CEmptyArr(ws) => IsWs(ws)
    case CArr(items) => AreItems(items)
    case CEmptyObj(ws) => IsWs(ws)
    case CObj(members) => AreMembers(members)
    case _ => true
  }

  predicate AreItems(items: Items) {
    IsWs(items.before) && IsCst(items.value) && IsWs(items.after) && (items.ThenItem? ==> AreItems(items.rest))
  }

  /** The parts of a member besides its value. */
  predicate IsFrame(m: Member) {
    IsWs(m.before) && AreChrs(m.key) && IsWs(m.beforeColon) && IsWs(m.afterColon) && IsWs(m.after)
  }

  predicate AreMembers(ms: Members) {
    IsFrame(ms.m) && IsCst(ms.m.value) && (ms.ThenMember? ==> AreMembers(ms.tail))
  }

  // ---- the text a tree derives ----

  function ChrDoc(c: Chr): Text {
    match c
    case Raw(s) => s
    case Esc(code) => ['\\', code]
    case Uni(hex) => "\\u" + hex
  }

  function ChrsDoc(cs: seq<Chr>): Text {
    if cs == [] then [] else ChrDoc(cs[0]) + ChrsDoc(cs[1..])
  }

  function StringDoc(cs: seq<Chr>): Text {
    "\"" + (ChrsDoc(cs) + "\"")
  }

  function FracDoc(frac: Option<Text>): Text {
    if frac.None? then [] else "." + frac.value
  }

  function ExpDoc(exp: Option<Exponent>): Text {
    if exp.None? then [] else [exp.value.e] + (exp.value.sign + exp.value.digits)
  }

  function NumericDoc(n: Numeric): Text {
    (if n.minus then "-" else "") + (n.whole + (FracDoc(n.frac) + ExpDoc(n.exp)))
  }

  function Doc(c: Cst): Text {
    match c
    case CNull => "null"
    case CTrue => "true"
    case CFalse => "false"
    case CNum(n) => NumericDoc(n)
    case CStr(cs) => StringDoc(cs)
    case CEmptyArr(ws) => "[" + (ws + "]")
    case CArr(items) => "[" + ItemsDoc(items)
    case CEmptyObj(ws) => "{" + (ws + "}")
    case CObj(members) => "{" + MembersDoc(members)
  }

  function ItemsDoc(items: Items): Text {
    items.before + (Doc(items.value) + (items.after + (
      if items.ThenItem? then "," + ItemsDoc(items.rest) else "]")))
  }

  function MembersDoc(ms: Members): Text {
    ms.m.before + (StringDoc(ms.m.key) + (ms.m.beforeColon + (":" + (ms.m.afterColon + (
      Doc(ms.m.value) + (ms.m.after + (if ms.ThenMember? then "," + MembersDoc(ms.tail) else "}")))))))
  }

  // ---- the value a tree stands for ----

  function HexValue(s: Text): int
    requires |s| == 4 && IsHex(s)
    ensures 0 <= HexValue(s) < 0x10000
  {
    HexVal(s[0]).value * 4096 + HexVal(s[1]).value * 256 + HexVal(s[2]).value * 16 + HexVal(s[3]).value
  }

  predicate IsHigh(u: int) {
    0xD800 <= u < 0xDC00
  }

  predicate IsLow(u: int) {
    0xDC00 <= u < 0xE000
  }

  /** The scalar a surrogate pair encodes. */
  function Pair(hi: int, lo: int): int
    requires IsHigh(hi) && IsLow(lo)
    ensures IsCodePoint(Pair(hi, lo)) && Pair(hi, lo) >= 0x10000
  {
    0x10000 + (hi - 0xD800) * 1024 + (lo - 0xDC00)
  }

  /** Escapes name UTF-16 code units: a high one followed by a low one is one scalar, and a
      surrogate without its partner is U+FFFD. */
  function DenoteChrs(cs: seq<Chr>): Text
    requires AreChrs(cs)
  {
    if cs == [] then []
    else match cs[0]
      case Raw(s) => s + DenoteChrs(cs[1..])
      case Esc(code) => [EscapeValue(code).value] + DenoteChrs(cs[1..])
      case Uni(hex) =>
        var u := HexValue(hex);
        if IsHigh(u) then
          if |cs| > 1 && cs[1].Uni? && IsLow(HexValue(cs[1].hex)) then
            EncodeScalar(Pair(u, HexValue(cs[1].hex))) + DenoteChrs(cs[2..])
          else
            REPLACEMENT + DenoteChrs(cs[1..])
        else if IsLow(u) then REPLACEMENT + DenoteChrs(cs[1..])
        else EncodeScalar(u) + DenoteChrs(cs[1..])
  }

  predicate IsNegative(lexeme: Text) {
    lexeme != [] && lexeme[0] == '-'
  }

  /** The digits of an integer numeral as a number; None when there is a fraction or an exponent. */
  function Magnitude(lexeme: Text): Option<nat> {
    var digits := if IsNegative(lexeme) then lexeme[1..] else lexeme;
    if digits != [] && AllDigits(digits) then DigitsValue(digits, 10) else None
  }

  /** An integer numeral below 2^53 in magnitude is that integer; "-0" is zero. */
  function NumberOf(lexeme: Text): Number {
    match Magnitude(lexeme)
    case Some(m) => if m < SAFE_INT then Int(if IsNegative(lexeme) then 0 - m else m) else Other(lexeme)
    case None => Other(lexeme)
  }

  function Denote(c: Cst): Json
    requires IsCst(c)
  {
    match c
    case CNull => Null
    case CTrue => Bool(true)
    case CFalse => Bool(false)
    case CNum(n) => Num(NumberOf(NumericDoc(n)))
    case CStr(cs) => Str(DenoteChrs(cs))
    case CEmptyArr(_) => Arr([])
    case CArr(items) => Arr(DenoteItems(items))
    case CEmptyObj(_) => Obj([])
    case CObj(members) => Obj(DenoteMembers(members, []))
  }

  function DenoteItems(items: Items): seq<Json>
    requires AreItems(items)
  {
    [Denote(items.value)] + if items.ThenItem? then DenoteItems(items.rest) else []
  }

  /** Members are inserted from left to right, so a repeated key keeps its last value. */
  function DenoteMembers(ms: Members, known: seq<Entry>): seq<Entry>
    requires AreMembers(ms)
  {
    var more := Insert(known, DenoteChrs(ms.m.key), Denote(ms.m.value));
    if ms.ThenMember? then DenoteMembers(ms.tail, more) else more
  }

  // ---- nesting ----

  function CstDepth(c: Cst): nat {
    match c
    case CArr(items) => 1 + CstItemsDepth(items)
    case CObj(members) => 1 + CstMembersDepth(members)
    case _ => 0
  }

  function CstItemsDepth(items: Items): nat {
    Max(CstDepth(items.value), if items.ThenItem? then CstItemsDepth(items.rest) else 0)
  }

  function CstMembersDepth(ms: Members): nat {
    Max(CstDepth(ms.m.value), if ms.ThenMember? then CstMembersDepth(ms.tail) else 0)
  }

  // ---- what a value is made of ----

  lemma {:induction false} DenoteChrsIsUtf8(cs: seq<Chr>)
    requires AreChrs(cs)
    ensures IsUtf8(DenoteChrs(cs))
  {
    hide IsUtf8, FirstScalar, DenoteChrs;
    if cs == [] {
      NothingDenoted();
    } else {
      var k := FirstUnits(cs);
      FirstIsScalar(cs);
      FirstDenotes(cs);
      DenoteChrsIsUtf8(cs[k..]);
      ScalarIsUtf8(FirstScalar(cs));
      Utf8Concat(FirstScalar(cs), DenoteChrs(cs[k..]));
    }
  }

  lemma NothingDenoted()
    ensures DenoteChrs([]) == [] && IsUtf8([])
  {
  }

  /** How many characters the first scalar takes: two for a surrogate pair. */
  function FirstUnits(cs: seq<Chr>): (k: nat)
    requires cs != [] && AreChrs(cs)
    ensures 1 <= k <= |cs|
  {
    if cs[0].Uni? && IsHigh(HexValue(cs[0].hex)) && |cs| > 1 && cs[1].Uni? && IsLow(HexValue(cs[1].hex)) then 2 else 1
  }

  function FirstScalar(cs: seq<Chr>): Text
    requires cs != [] && AreChrs(cs)
  {
    if FirstUnits(cs) == 2 then EncodeScalar(Pair(HexValue(cs[0].hex), HexValue(cs[1].hex)))
    else match cs[0]
      case Raw(s) => s
      case Esc(code) => [EscapeValue(code).value]
      case Uni(hex) =>
        if IsHigh(HexValue(hex)) || IsLow(HexValue(hex)) then REPLACEMENT else EncodeScalar(HexValue(hex))
  }

  lemma FirstIsScalar(cs: seq<Chr>)
    requires cs != [] && AreChrs(cs)
    ensures IsScalar(FirstScalar(cs))
  {
    hide EncodeScalar;
  }

  lemma FirstDenotes(cs: seq<Chr>)
    requires cs != [] && AreChrs(cs)
    ensures DenoteChrs(cs) == FirstScalar(cs) + DenoteChrs(cs[FirstUnits(cs)..])
  {
    hide EncodeScalar, HexValue, EscapeValue;
  }

  /** Every tree denotes a value that Rust's types allow. */
  lemma {:induction false} DenoteProper(c: Cst)
    requires IsCst(c)
    ensures Proper(Denote(c))
    decreases c
  {
    match c
    case CStr(cs) => DenoteChrsIsUtf8(cs);
    case CArr(items) => DenoteItemsProper(items);
    case CObj(members) => DenoteMembersProper(members, []);
    case _ =>
  }

  lemma {:induction false} DenoteItemsProper(items: Items)
    requires AreItems(items)
    ensures forall i :: 0 <= i < |DenoteItems(items)| ==> Proper(DenoteItems(items)[i])
    decreases items
  {
    DenoteProper(items.value);
    if items.ThenItem? {
      DenoteItemsProper(items.rest);
    }
  }

  lemma {:induction false} DenoteMembersProper(ms: Members, known: seq<Entry>)
    requires AreMembers(ms) && Proper(Obj(known))
    ensures Proper(Obj(DenoteMembers(ms, known)))
    decreases ms
  {
    var k, v := DenoteChrs(ms.m.key), Denote(ms.m.value);
    DenoteProper(ms.m.value);
    DenoteChrsIsUtf8(ms.m.key);
    InsertProper(known, k, v);
    if ms.ThenMember? {
      DenoteMembersProper(ms.tail, Insert(known, k, v));
    }
  }

  lemma {:induction false} InsertProper(known: seq<Entry>, k: Text, v: Json)
    requires Proper(Obj(known)) && IsUtf8(k) && Proper(v)
    ensures Proper(Obj(Insert(known, k, v)))
  {
    InsertSorted(known, k, v);
    var r := Insert(known, k, v);
    InsertEntries(known, k, v);
    forall j | 0 <= j < |r| ensures IsUtf8(r[j].key) && Proper(r[j].value) {
      if r[j] != Entry(k, v) {
        var i :| 0 <= i < |known| && known[i] == r[j];
      }
    }
  }

  /** The last member with a key gives its value. */
  function LastValue(ms: Members, q: Text, before: Option<Json>): Option<Json>
    requires AreMembers(ms)
  {
    var here := if DenoteChrs(ms.m.key) == q then Some(Denote(ms.m.value)) else before;
    if ms.ThenMember? then LastValue(ms.tail, q, here) else here
  }

  lemma {:induction false} DuplicatesKeepLast(ms: Members, known: seq<Entry>, q: Text)
    requires AreMembers(ms) && Sorted(known)
    ensures Lookup(DenoteMembers(ms, known), q) == LastValue(ms, q, Lookup(known, q))
    decreases ms
  {
    var k, v := DenoteChrs(ms.m.key), Denote(ms.m.value);
    InsertSorted(known, k, v);
    InsertLookup(known, k, v, q);
    if ms.ThenMember? {
      DuplicatesKeepLast(ms.tail, Insert(known, k, v), q);
    }
  }
}
