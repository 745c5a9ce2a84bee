/** `Session` of backend/src/hrana.rs on the documents it sends and receives, and why the rules
    of `HranaProtocol` are what it does with them. */
module HranaSession {
  import opened Bytes
  import opened Utf8
  import opened Numerals
  import opened Trim
  import opened JsonValue
  import opened JsonParser
  import opened JsonSound
  import opened JsonPrinter
  import G = JsonGrammar
  import P = HranaProtocol

  datatype Kind = Begin | End | Stmt

  /** The first `n` characters of a text. */
  function TakeChars(s: Text, n: nat): Text
    decreases n
  {
    if n == 0 || ScalarLen(s) == 0 then [] else s[..ScalarLen(s)] + TakeChars(s[ScalarLen(s)..], n - 1)
  }

  predicate StartsWith(s: Text, prefix: Text) {
    |prefix| <= |s| && forall i :: 0 <= i < |prefix| ==> s[i] == prefix[i]
  }

  /** `statement_kind` */
  function StatementKind(sql: Text): Kind {
    var head := UpperAll(TakeChars(TrimStart(sql), 8));
    if StartsWith(head, "BEGIN") then Begin
    else if StartsWith(head, "COMMIT") || StartsWith(head, "ROLLBACK") then End
    else Stmt
  }

  /** The column values a statement binds, without `Real`. */
  datatype Value = NullValue | IntValue(n: int) | TextValue(s: Text)

  function ArgJson(v: Value): Json {
    match v
    case NullValue => Obj([Entry("type", Str("null"))])
    case IntValue(n) => Obj([Entry("type", Str("integer")), Entry("value", Str(SignedDecimal(n)))])
    case TextValue(s) => Obj([Entry("type", Str("text")), Entry("value", Str(s))])
  }

  function ArgsJson(args: seq<Value>): seq<Json> {
    seq(|args|, i requires 0 <= i < |args| => ArgJson(args[i]))
  }

  function BatonJson(baton: Option<Text>): Json {
    if baton.Some? then Str(baton.value) else Null
  }

  function ExecuteJson(sql: Text, args: seq<Value>): Json {
    Obj([Entry("stmt", Obj([Entry("args", Arr(ArgsJson(args))), Entry("sql", Str(sql))])),
         Entry("type", Str("execute"))])
  }

  const CLOSE_JSON: Json := Obj([Entry("type", Str("close"))])

  /** `pipeline_body`, before it is printed. */
  function PipelineBody(baton: Option<Text>, sql: Text, args: seq<Value>, close: bool): Json {
    Obj([Entry("baton", BatonJson(baton)),
         Entry("requests", Arr([ExecuteJson(sql, args)] + if close then [CLOSE_JSON] else []))])
  }

  /** What a dropped session sends when it still owns a stream. */
  function CloseBody(baton: Text): Json {
    Obj([Entry("baton", Str(baton)), Entry("requests", Arr([CLOSE_JSON]))])
  }

  // ---- responses ----

  /** What `execute` can fail with. */
  datatype Failure =
    | NoResponse            // transport, status or JSON failure
    | Reported(msg: Text)   // an error item
    | MissingResults
    | MissingResult
    | NoBaton

  function Results(doc: Json): Option<seq<Json>> {
    match Get(doc, "results")
    case Some(Arr(items)) => Some(items)
    case _ => None
  }

  function ErrorMessage(item: Json): Text {
    match Get(item, "error")
    case Some(e) => (match AsStr(Get(e, "message")) case Some(m) => m case None => "hrana error")
    case None => "hrana error"
  }

  /** `first_error`: an item that is not an object ends the search. */
  function FirstErrorIn(items: seq<Json>): Option<Text> {
    if items == [] || !items[0].Obj? then None
    else if AsStr(Get(items[0], "type")) == Some("error") then Some(ErrorMessage(items[0]))
    else FirstErrorIn(items[1..])
  }

  function FirstError(doc: Json): Option<Text> {
    match Results(doc)
    case None => None
    case Some(items) => FirstErrorIn(items)
  }

  /** The first successful execute item, if any. */
  predicate IsExecuted(item: Json) {
    && item.Obj? && AsStr(Get(item, "type")) == Some("ok")
    && Get(item, "response").Some? && Get(item, "response").value.Obj?
    && AsStr(Get(Get(item, "response").value, "type")) == Some("execute")
  }

  function FirstExecuteIn(items: seq<Json>): Result<Option<Json>, Failure> {
    if items == [] then Ok(None)
    else if IsExecuted(items[0]) then
      match Get(Get(items[0], "response").value, "result")
      case Some(r) => if r.Obj? then Ok(Some(r)) else Err(MissingResult)
      case None => Err(MissingResult)
    else FirstExecuteIn(items[1..])
  }

  /** `first_execute`, up to decoding the rows of the result object it returns. */
  function FirstExecute(doc: Json): Result<Option<Json>, Failure> {
    match Results(doc)
    case None => Err(MissingResults)
    case Some(items) => FirstExecuteIn(items)
  }

  /** `next_baton` */
  function NextBaton(kind: Kind, close: bool, response: Option<Json>, failed: bool): Option<Text> {
    if close || kind.End? then None
    else if kind.Begin? && failed then None
    else if response.None? then None
    else AsStr(Get(response.value, "baton"))
  }

  function ClosesKind(kind: Kind, baton: Option<Text>): bool {
    match kind
    case Begin => false
    case End => true
    case Stmt => baton.None?
  }

  /** The baton and the outcome that `execute` is left with. */
  function Executed(kind: Kind, close: bool, response: Option<Json>): (Option<Text>, Result<Option<Json>, Failure>) {
    var error := if response.Some? then FirstError(response.value) else None;
    var next := NextBaton(kind, close, response, error.Some?);
    (next,
     if response.None? then Err(NoResponse)
     else if error.Some? then Err(Reported(error.value))
     else if FirstExecute(response.value).Err? then FirstExecute(response.value)
     else if kind.Begin? && next.None? then Err(NoBaton)
     else FirstExecute(response.value))
  }

  /** A response body that was 200, UTF-8 and JSON. */
  function Response(raw: Option<Text>): Option<Json> {
    if raw.Some? && Parsed(raw.value).Ok? then Some(Parsed(raw.value).value) else None
  }

  // ---- the session itself ----

  class Session {
    var baton: Option<Text>

    constructor ()
      ensures baton == None && Valid()
    {
      baton := None;
    }

    ghost predicate Valid()
      reads this
    {
      baton.Some? ==> IsUtf8(baton.value)
    }

    /** `execute`. `raw` is what the network brings back for `body`: a 200 text, or nothing. */
    method Execute(sql: Text, args: seq<Value>, raw: Option<Text>)
      returns (body: Text, r: Result<Option<Json>, Failure>)
      requires Valid() && IsUtf8(sql) && forall i :: 0 <= i < |args| && args[i].TextValue? ==> IsUtf8(args[i].s)
      modifies this
      ensures Valid()
      ensures var kind := StatementKind(sql);
        var close := ClosesKind(kind, old(baton));
        && Proper(PipelineBody(old(baton), sql, args, close)) && Integral(PipelineBody(old(baton), sql, args, close))
        && body == Stringified(PipelineBody(old(baton), sql, args, close))
        && (baton, r) == Executed(kind, close, Response(raw))
    {
      hide Parsed, Stringified, StatementKind, FirstError, FirstExecute, PipelineBody, IsUtf8, Proper, Integral;
      var kind := StatementKind(sql);
      var close := ClosesKind(kind, baton);
      BodyIsProper(baton, sql, args, close);
      body := Stringify(PipelineBody(baton, sql, args, close));
      var response: Option<Json> := None;
      if raw.Some? {
        var doc := ParseDocument(raw.value);
        response := if doc.Ok? then Some(doc.value) else None;
      }
      var error := if response.Some? then FirstError(response.value) else None;
      baton := NextBaton(kind, close, response, error.Some?);
      ResponseBaton(raw);
      if response.None? {
        return body, Err(NoResponse);
      }
      if error.Some? {
        return body, Err(Reported(error.value));
      }
      r := FirstExecute(response.value);
      if r.Ok? && kind == Begin && baton.None? {
        r := Err(NoBaton);
      }
    }

    /** `Drop for Session`: what it sends, if anything. */
    method Drop() returns (body: Option<Text>)
      requires Valid()
      modifies this
      ensures baton == None && Valid()
      ensures match old(baton)
        case None => body == None
        case Some(b) =>
          Proper(CloseBody(b)) && Integral(CloseBody(b)) && body == Some(Stringified(CloseBody(b)))
    {
      hide Stringified, CloseBody, IsUtf8, Proper, Integral;
      body := None;
      if baton.Some? {
        CloseBodyIsProper(baton.value);
        var text := Stringify(CloseBody(baton.value));
        body := Some(text);
      }
      baton := None;
    }
  }

  lemma ResponseBaton(raw: Option<Text>)
    ensures Response(raw).Some? ==>
      var b := AsStr(Get(Response(raw).value, "baton")); b.Some? ==> IsUtf8(b.value)
  {
    hide Parsed;
    if Response(raw).Some? {
      ParsedIsProper(raw.value);
      GetProper(Response(raw).value, "baton");
    }
  }

  lemma {:induction false} LookupProper(es: seq<Entry>, k: Text)
    requires forall i :: 0 <= i < |es| ==> Proper(es[i].value)
    ensures Lookup(es, k).Some? ==> Proper(Lookup(es, k).value)
  {
    if es != [] {
      LookupProper(es[1..], k);
    }
  }

  lemma GetProper(doc: Json, k: Text)
    requires Proper(doc)
    ensures Get(doc, k).Some? ==> Proper(Get(doc, k).value)
  {
    if doc.Obj? {
      LookupProper(doc.entries, k);
    }
  }

  /** Members of objects with one or two keys. */
  lemma LookupOne(k: Text, v: Json, q: Text)
    ensures Lookup([Entry(k, v)], q) == if k == q then Some(v) else None
  {
    var es := [Entry(k, v)];
    assert es[1..] == [] && Lookup([], q) == None;
  }

  lemma LookupTwo(k1: Text, v1: Json, k2: Text, v2: Json, q: Text)
    ensures Lookup([Entry(k1, v1), Entry(k2, v2)], q) ==
      if k1 == q then Some(v1) else if k2 == q then Some(v2) else None
  {
    var es := [Entry(k1, v1), Entry(k2, v2)];
    assert es[1..] == [Entry(k2, v2)];
    LookupOne(k2, v2, q);
  }

  /** An object of one or two members in key order. */
  lemma OneIsProper(k: Text, v: Json, d: nat)
    requires IsUtf8(k) && Proper(v) && Integral(v) && Depth(v) <= d
    ensures var o := Obj([Entry(k, v)]); Proper(o) && Integral(o) && Depth(o) <= d + 1
  {
    hide IsUtf8, Before;
    var es := [Entry(k, v)];
    assert es[1..] == [] && EntriesDepth([]) == 0;
  }

  lemma PairIsProper(k1: Text, v1: Json, k2: Text, v2: Json, d: nat)
    requires Before(k1, k2) && IsUtf8(k1) && IsUtf8(k2) && Proper(v1) && Integral(v1) && Proper(v2) && Integral(v2)
    requires Depth(v1) <= d && Depth(v2) <= d
    ensures var o := Obj([Entry(k1, v1), Entry(k2, v2)]); Proper(o) && Integral(o) && Depth(o) <= d + 1
  {
    hide IsUtf8, Before;
    var es := [Entry(k1, v1), Entry(k2, v2)];
    assert es[1..] == [Entry(k2, v2)] && es[1..][1..] == [] && EntriesDepth([]) == 0;
    assert EntriesDepth(es[1..]) <= d;
  }

  lemma ArgIsProper(v: Value)
    requires v.TextValue? ==> IsUtf8(v.s)
    ensures Proper(ArgJson(v)) && Integral(ArgJson(v)) && Depth(ArgJson(v)) <= 1
  {
    hide IsUtf8, Proper, Integral, Depth;
    AsciiKeys();
    assert Before("type", "value");
    match v
    case NullValue =>
      StrIsProper("null");
      OneIsProper("type", Str("null"), 0);
    case IntValue(n) =>
      SignedIsAscii(n);
      StrIsProper("integer");
      StrIsProper(SignedDecimal(n));
      PairIsProper("type", Str("integer"), "value", Str(SignedDecimal(n)), 0);
    case TextValue(s) =>
      StrIsProper("text");
      StrIsProper(s);
      PairIsProper("type", Str("text"), "value", Str(s), 0);
  }

  lemma SignedIsAscii(n: int)
    ensures IsUtf8(SignedDecimal(n))
  {
    var m := if n < 0 then -n else n;
    DecimalShape(m);
    var s := SignedDecimal(n);
    assert forall i :: 0 <= i < |s| ==> s[i] < '\U{80}' by {
      assert n >= 0 ==> s == Decimal(m);
      assert n < 0 ==> forall i :: 1 <= i < |s| ==> s[i] == Decimal(m)[i - 1];
    }
    AsciiIsUtf8(s);
  }

  lemma {:induction false} ArgsAreProper(args: seq<Value>)
    requires forall i :: 0 <= i < |args| && args[i].TextValue? ==> IsUtf8(args[i].s)
    ensures Proper(Arr(ArgsJson(args))) && Integral(Arr(ArgsJson(args))) && Depth(Arr(ArgsJson(args))) <= 2
  {
    hide ArgJson, Proper, Integral, Depth;
    forall i | 0 <= i < |args|
      ensures Proper(ArgsJson(args)[i]) && Integral(ArgsJson(args)[i]) && Depth(ArgsJson(args)[i]) <= 1
    {
      ArgIsProper(args[i]);
    }
    ShallowItems(ArgsJson(args), 1);
  }

  lemma {:induction false} ShallowItems(items: seq<Json>, d: nat)
    requires forall i :: 0 <= i < |items| ==> Proper(items[i]) && Integral(items[i]) && Depth(items[i]) <= d
    ensures Proper(Arr(items)) && Integral(Arr(items)) && ItemsDepth(items) <= d && Depth(Arr(items)) <= d + 1
  {
    if items != [] {
      ShallowItems(items[1..], d);
    }
  }

  // ==== the request arrives as it was meant ====

  lemma AsciiKeys()
    ensures forall k | k in {"args", "baton", "close", "execute", "integer", "null"} :: IsUtf8(k)
    ensures forall k | k in {"requests", "sql", "stmt", "text", "type", "value"} :: IsUtf8(k)
  {
    hide IsUtf8;
    AsciiIsUtf8("args");
    AsciiIsUtf8("baton");
    AsciiIsUtf8("close");
    AsciiIsUtf8("execute");
    AsciiIsUtf8("integer");
    AsciiIsUtf8("null");
    AsciiIsUtf8("requests");
    AsciiIsUtf8("sql");
    AsciiIsUtf8("stmt");
    AsciiIsUtf8("text");
    AsciiIsUtf8("type");
    AsciiIsUtf8("value");
  }

  lemma StmtIsProper(sql: Text, args: seq<Value>)
    requires IsUtf8(sql) && forall i :: 0 <= i < |args| && args[i].TextValue? ==> IsUtf8(args[i].s)
    ensures Proper(ExecuteJson(sql, args)) && Integral(ExecuteJson(sql, args)) && Depth(ExecuteJson(sql, args)) <= 4
  {
    hide IsUtf8, Proper, Integral, Depth;
    AsciiKeys();
    ArgsAreProper(args);
    assert Before("args", "sql") && Before("stmt", "type");
    StrIsProper(sql);
    StrIsProper("execute");
    PairIsProper("args", Arr(ArgsJson(args)), "sql", Str(sql), 2);
    PairIsProper("stmt", Obj([Entry("args", Arr(ArgsJson(args))), Entry("sql", Str(sql))]), "type", Str("execute"), 3);
  }

  lemma StrIsProper(s: Text)
    requires IsUtf8(s)
    ensures Proper(Str(s)) && Integral(Str(s)) && Depth(Str(s)) == 0
  {
  }

  lemma CloseIsProper()
    ensures Proper(CLOSE_JSON) && Integral(CLOSE_JSON) && Depth(CLOSE_JSON) <= 4
  {
    hide IsUtf8, Proper, Integral, Depth;
    AsciiKeys();
    StrIsProper("close");
    OneIsProper("type", Str("close"), 0);
  }

  lemma BodyIsProper(baton: Option<Text>, sql: Text, args: seq<Value>, close: bool)
    requires (baton.Some? ==> IsUtf8(baton.value)) && IsUtf8(sql)
    requires forall i :: 0 <= i < |args| && args[i].TextValue? ==> IsUtf8(args[i].s)
    ensures var body := PipelineBody(baton, sql, args, close);
      Proper(body) && Integral(body) && Depth(body) <= 6
  {
    hide IsUtf8, Proper, Integral, Depth, ExecuteJson, CLOSE_JSON;
    AsciiKeys();
    StmtIsProper(sql, args);
    CloseIsProper();
    ShallowItems([ExecuteJson(sql, args)] + if close then [CLOSE_JSON] else [], 4);
    assert Before("baton", "requests");
    BatonIsProper(baton);
    PairIsProper("baton", BatonJson(baton), "requests",
      Arr([ExecuteJson(sql, args)] + if close then [CLOSE_JSON] else []), 5);
  }

  lemma CloseBodyIsProper(baton: Text)
    requires IsUtf8(baton)
    ensures Proper(CloseBody(baton)) && Integral(CloseBody(baton)) && Depth(CloseBody(baton)) <= 6
  {
    hide IsUtf8, Proper, Integral, Depth, CLOSE_JSON;
    AsciiKeys();
    CloseIsProper();
    ShallowItems([CLOSE_JSON], 4);
    assert Before("baton", "requests");
    StrIsProper(baton);
    PairIsProper("baton", Str(baton), "requests", Arr([CLOSE_JSON]), 5);
  }

  lemma BatonIsProper(baton: Option<Text>)
    requires baton.Some? ==> IsUtf8(baton.value)
    ensures Proper(BatonJson(baton)) && Integral(BatonJson(baton)) && Depth(BatonJson(baton)) == 0
  {
  }

  /** What a server reads in a request document: baton, statement, arguments, and whether to close. */
  datatype Received = Received(baton: Option<Text>, sql: Option<Text>, args: seq<Option<Value>>, close: bool)

  /** A decimal integer with an optional minus sign. */
  function ReadInteger(s: Text): Option<int> {
    match G.Magnitude(s)
    case None => None
    case Some(m) => Some(if G.IsNegative(s) then 0 - m else m)
  }

  /** A value by its type tag: integers are sent as text, so that none is rounded. */
  function ReadValue(cell: Json): Option<Value> {
    match (AsStr(Get(cell, "type")), AsStr(Get(cell, "value")))
    case (Some(tag), Some(s)) =>
      if tag == "text" then Some(TextValue(s))
      else if tag == "integer" && ReadInteger(s).Some? then Some(IntValue(ReadInteger(s).value))
      else None
    case (Some(tag), None) => if tag == "null" then Some(NullValue) else None
    case _ => None
  }

  function ReadValues(cells: seq<Json>): (r: seq<Option<Value>>)
    ensures |r| == |cells|
  {
    seq(|cells|, i requires 0 <= i < |cells| => ReadValue(cells[i]))
  }

  function ReadArgs(stmt: Json): seq<Option<Value>> {
    match Get(stmt, "args") case Some(Arr(cells)) => ReadValues(cells) case _ => []
  }

  function RequestItems(doc: Json): seq<Json> {
    match Get(doc, "requests") case Some(Arr(items)) => items case _ => []
  }

  predicate HasClose(requests: seq<Json>) {
    exists i :: 0 <= i < |requests| && AsStr(Get(requests[i], "type")) == Some("close")
  }

  function ReadRequest(doc: Json): Received {
    var requests := RequestItems(doc);
    Received(
      AsStr(Get(doc, "baton")),
      if requests == [] then None
      else match Get(requests[0], "stmt") case Some(stmt) => AsStr(Get(stmt, "sql")) case None => None,
      if requests == [] then []
      else match Get(requests[0], "stmt") case Some(stmt) => ReadArgs(stmt) case None => [],
      HasClose(requests))
  }

  function Sent(args: seq<Value>): (r: seq<Option<Value>>)
    ensures |r| == |args|
  {
    seq(|args|, i requires 0 <= i < |args| => Some(args[i]))
  }

  lemma ArgIsRead(v: Value)
    ensures ReadValue(ArgJson(v)) == Some(v)
  {
    hide G.Magnitude, G.IsNegative;
    match v
    case NullValue =>
      LookupOne("type", Str("null"), "type");
      LookupOne("type", Str("null"), "value");
    case IntValue(n) =>
      var text := SignedDecimal(n);
      LookupTwo("type", Str("integer"), "value", Str(text), "type");
      LookupTwo("type", Str("integer"), "value", Str(text), "value");
      PrintedMagnitude(n);
    case TextValue(s) =>
      LookupTwo("type", Str("text"), "value", Str(s), "type");
      LookupTwo("type", Str("text"), "value", Str(s), "value");
  }

  lemma ArgsAreRead(args: seq<Value>)
    ensures ReadValues(ArgsJson(args)) == Sent(args)
  {
    hide ReadValue, ArgJson;
    forall i | 0 <= i < |args|
      ensures ReadValues(ArgsJson(args))[i] == Sent(args)[i]
    {
      ArgIsRead(args[i]);
    }
  }

  /** Any baton, statement and arguments survive printing and parsing: the server reads exactly
      what the session meant. */
  lemma RequestArrives(baton: Option<Text>, sql: Text, args: seq<Value>, close: bool)
    requires (baton.Some? ==> IsUtf8(baton.value)) && IsUtf8(sql)
    requires forall i :: 0 <= i < |args| && args[i].TextValue? ==> IsUtf8(args[i].s)
    ensures var body := PipelineBody(baton, sql, args, close);
      && Proper(body) && Integral(body)
      && Parsed(Stringified(body)) == Ok(body) && ReadRequest(body) == Received(baton, Some(sql), Sent(args), close)
  {
    hide IsUtf8, Proper, Integral, Depth, Parsed, Stringified;
    var body := PipelineBody(baton, sql, args, close);
    BodyIsProper(baton, sql, args, close);
    RoundTrip(body);
    BodyIsRead(baton, sql, args, close);
  }

  lemma StmtIsRead(sql: Text, args: seq<Value>) returns (stmt: Json)
    ensures Get(ExecuteJson(sql, args), "stmt") == Some(stmt) && ReadArgs(stmt) == Sent(args)
    ensures AsStr(Get(stmt, "sql")) == Some(sql) && AsStr(Get(ExecuteJson(sql, args), "type")) == Some("execute")
  {
    hide ArgsJson, ReadValues;
    stmt := Obj([Entry("args", Arr(ArgsJson(args))), Entry("sql", Str(sql))]);
    LookupTwo("stmt", stmt, "type", Str("execute"), "stmt");
    LookupTwo("stmt", stmt, "type", Str("execute"), "type");
    LookupTwo("args", Arr(ArgsJson(args)), "sql", Str(sql), "sql");
    LookupTwo("args", Arr(ArgsJson(args)), "sql", Str(sql), "args");
    ArgsAreRead(args);
  }

  lemma BodyIsRead(baton: Option<Text>, sql: Text, args: seq<Value>, close: bool)
    ensures ReadRequest(PipelineBody(baton, sql, args, close)) == Received(baton, Some(sql), Sent(args), close)
  {
    hide ExecuteJson, ReadArgs;
    var rs := [ExecuteJson(sql, args)] + if close then [CLOSE_JSON] else [];
    LookupTwo("baton", BatonJson(baton), "requests", Arr(rs), "requests");
    LookupTwo("baton", BatonJson(baton), "requests", Arr(rs), "baton");
    var stmt := StmtIsRead(sql, args);
    LookupOne("type", Str("close"), "type");
    assert RequestItems(PipelineBody(baton, sql, args, close)) == rs && rs[0] == ExecuteJson(sql, args);
    assert AsStr(Get(rs[0], "type")) == Some("execute") && "execute" != "close";
    if close {
      assert rs[1] == CLOSE_JSON && AsStr(Get(rs[1], "type")) == Some("close");
    }
  }

  /** A dropped session gives its stream up: the server reads its baton, no statement, and a close. */
  lemma CloseArrives(baton: Text)
    requires IsUtf8(baton)
    ensures var body := CloseBody(baton);
      && Proper(body) && Integral(body)
      && Parsed(Stringified(body)) == Ok(body) && ReadRequest(body) == Received(Some(baton), None, [], true)
  {
    hide IsUtf8, Proper, Integral, Depth, Parsed, Stringified;
    CloseBodyIsProper(baton);
    RoundTrip(CloseBody(baton));
    CloseIsRead(baton);
  }

  lemma CloseIsRead(baton: Text)
    ensures ReadRequest(CloseBody(baton)) == Received(Some(baton), None, [], true)
  {
    var rs := [CLOSE_JSON];
    LookupTwo("baton", Str(baton), "requests", Arr(rs), "requests");
    LookupTwo("baton", Str(baton), "requests", Arr(rs), "baton");
    LookupOne("type", Str("close"), "type");
    LookupOne("type", Str("close"), "stmt");
    assert RequestItems(CloseBody(baton)) == rs;
    assert rs[0] == CLOSE_JSON && AsStr(Get(rs[0], "type")) == Some("close") && Get(rs[0], "stmt") == None;
  }

  // ==== replies, and the protocol's rules ====

  /** The documents of the intended server: a new baton or null, and one result. */
  function ReplyDoc(baton: Option<Text>, item: Json): Json {
    Obj([Entry("baton", BatonJson(baton)), Entry("results", Arr([item]))])
  }

  function OkItem(result: seq<Entry>): Json {
    Obj([Entry("response", Obj([Entry("result", Obj(result)), Entry("type", Str("execute"))])),
         Entry("type", Str("ok"))])
  }

  function ErrorItem(message: Text): Json {
    Obj([Entry("error", Obj([Entry("message", Str(message))])), Entry("type", Str("error"))])
  }

  /** `doc` is what the intended server sends for the protocol's reply `r`. */
  ghost predicate Renders(doc: Option<Json>, r: Option<P.Reply>) {
    match r
    case None => doc == None
    case Some(Refused) => doc == None
    case Some(Answered(b, failed)) =>
      if failed then exists message :: doc == Some(ReplyDoc(b, ErrorItem(message)))
      else exists result :: doc == Some(ReplyDoc(b, OkItem(result)))
  }

  function KindOf(sql: P.Sql): Kind {
    match sql
    case Begin => Begin
    case Commit => End
    case Rollback => End
    case Write(_) => Stmt
  }

  lemma ReplyParts(baton: Option<Text>, item: Json)
    ensures AsStr(Get(ReplyDoc(baton, item), "baton")) == baton && Results(ReplyDoc(baton, item)) == Some([item])
  {
    LookupTwo("baton", BatonJson(baton), "results", Arr([item]), "baton");
    LookupTwo("baton", BatonJson(baton), "results", Arr([item]), "results");
  }

  lemma OkParts(result: seq<Entry>)
    ensures FirstErrorIn([OkItem(result)]) == None && FirstExecuteIn([OkItem(result)]) == Ok(Some(Obj(result)))
  {
    var item, resp := OkItem(result), Obj([Entry("result", Obj(result)), Entry("type", Str("execute"))]);
    LookupTwo("response", resp, "type", Str("ok"), "type");
    LookupTwo("response", resp, "type", Str("ok"), "response");
    LookupTwo("result", Obj(result), "type", Str("execute"), "type");
    LookupTwo("result", Obj(result), "type", Str("execute"), "result");
    assert [item][1..] == [] && FirstErrorIn([]) == None;
  }

  lemma ErrorParts(message: Text)
    ensures FirstErrorIn([ErrorItem(message)]) == Some(message)
  {
    var e := Obj([Entry("message", Str(message))]);
    LookupTwo("error", e, "type", Str("error"), "type");
    LookupTwo("error", e, "type", Str("error"), "error");
    LookupOne("message", Str(message), "message");
  }

  /** On the documents of the intended server, and on no response, `execute` follows the rules of
      the protocol model: the next baton and the outcome are its `NextBaton` and `Succeeds`. */
  lemma ExecuteFollowsProtocol(sql: P.Sql, close: bool, doc: Option<Json>, r: Option<P.Reply>)
    requires Renders(doc, r)
    ensures Executed(KindOf(sql), close, doc).0 == P.NextBaton(sql, close, r)
    ensures Executed(KindOf(sql), close, doc).1.Ok? <==> P.Succeeds(sql, close, r)
  {
    hide ReplyDoc, OkItem, ErrorItem, FirstErrorIn, FirstExecuteIn, Results, Get;
    if r.Some? && r.value.Answered? {
      var b := r.value.baton;
      if r.value.failed {
        var message :| doc == Some(ReplyDoc(b, ErrorItem(message)));
        ReplyParts(b, ErrorItem(message));
        ErrorParts(message);
      } else {
        var result :| doc == Some(ReplyDoc(b, OkItem(result)));
        ReplyParts(b, OkItem(result));
        OkParts(result);
      }
    }
  }

  // ==== what a statement is answered with ====

  /** A document with any results. */
  function ListDoc(baton: Option<Text>, items: seq<Json>): Json {
    Obj([Entry("baton", BatonJson(baton)), Entry("results", Arr(items))])
  }

  /** The type of a result item. */
  function TypeOf(item: Json): Option<Text> {
    AsStr(Get(item, "type"))
  }

  /** An answer to some other request, such as a close. */
  predicate IsOther(item: Json) {
    && item.Obj? && TypeOf(item) != Some("error")
    && (TypeOf(item) == Some("ok") ==>
        Get(item, "response").None? || TypeOf(Get(item, "response").value) != Some("execute"))
  }

  predicate HasNoError(item: Json) {
    item.Obj? && TypeOf(item) != Some("error")
  }

  lemma ListParts(baton: Option<Text>, items: seq<Json>)
    ensures AsStr(Get(ListDoc(baton, items), "baton")) == baton && Results(ListDoc(baton, items)) == Some(items)
  {
    LookupTwo("baton", BatonJson(baton), "results", Arr(items), "baton");
    LookupTwo("baton", BatonJson(baton), "results", Arr(items), "results");
  }

  lemma {:induction false} NoErrorIn(items: seq<Json>)
    requires forall i :: 0 <= i < |items| ==> HasNoError(items[i])
    ensures FirstErrorIn(items) == None
  {
    hide Get;
    if items != [] {
      NoErrorIn(items[1..]);
    }
  }

  lemma {:induction false} ErrorAfter(before: seq<Json>, item: Json, after: seq<Json>)
    requires forall i :: 0 <= i < |before| ==> HasNoError(before[i])
    requires item.Obj? && TypeOf(item) == Some("error")
    ensures FirstErrorIn(before + ([item] + after)) == Some(ErrorMessage(item))
  {
    hide Get, ErrorMessage;
    if before != [] {
      assert (before + ([item] + after))[1..] == before[1..] + ([item] + after);
      ErrorAfter(before[1..], item, after);
    }
  }

  lemma {:induction false} ExecuteAfter(before: seq<Json>, item: Json, after: seq<Json>)
    requires (forall i :: 0 <= i < |before| ==> IsOther(before[i])) && IsExecuted(item)
    ensures FirstExecuteIn(before + ([item] + after)) == FirstExecuteIn([item])
  {
    hide Get;
    if before == [] {
      assert [] + ([item] + after) == [item] + after;
    } else {
      assert (before + ([item] + after))[1..] == before[1..] + ([item] + after);
      ExecuteAfter(before[1..], item, after);
    }
  }

  lemma {:induction false} NoExecuteIn(items: seq<Json>)
    requires forall i :: 0 <= i < |items| ==> IsOther(items[i])
    ensures FirstExecuteIn(items) == Ok(None)
  {
    hide Get;
    if items != [] {
      NoExecuteIn(items[1..]);
    }
  }

  lemma OkIsExecuted(result: seq<Entry>)
    ensures IsExecuted(OkItem(result)) && HasNoError(OkItem(result))
  {
    var resp := Obj([Entry("result", Obj(result)), Entry("type", Str("execute"))]);
    LookupTwo("response", resp, "type", Str("ok"), "type");
    LookupTwo("response", resp, "type", Str("ok"), "response");
    LookupTwo("result", Obj(result), "type", Str("execute"), "type");
  }

  /** An error without a message text gets a fixed one. */
  lemma NamelessError(item: Json)
    requires item.Obj? && TypeOf(item) == Some("error")
    requires Get(item, "error").None? || AsStr(Get(Get(item, "error").value, "message")) == None
    ensures FirstErrorIn([item]) == Some("hrana error")
  {
    hide Get;
  }

  /** The baton that a document leaves: none when the stream ends with the statement. */
  function Left(kind: Kind, close: bool, baton: Option<Text>): Option<Text> {
    if close || kind == End then None else baton
  }

  /** A result is handed over as it came, whatever other answers come before and after it. Only a
      BEGIN that is left without a baton fails in spite of it. */
  lemma ExecuteGivesResult(
    kind: Kind, close: bool, baton: Option<Text>, before: seq<Json>, result: seq<Entry>, after: seq<Json>)
    requires forall i :: 0 <= i < |before| ==> IsOther(before[i])
    requires forall i :: 0 <= i < |after| ==> HasNoError(after[i])
    ensures var doc := ListDoc(baton, before + ([OkItem(result)] + after));
      Executed(kind, close, Some(doc)) ==
        (Left(kind, close, baton),
         if kind == Begin && Left(kind, close, baton) == None then Err(NoBaton) else Ok(Some(Obj(result))))
  {
    hide ListDoc, Results, Get, FirstErrorIn, FirstExecuteIn, OkItem, IsExecuted;
    var items := before + ([OkItem(result)] + after);
    ListParts(baton, items);
    OkIsExecuted(result);
    NoErrorIn(items);
    ExecuteAfter(before, OkItem(result), after);
    OkParts(result);
  }

  /** The first error item is what fails, with its message, whatever else there is. */
  lemma ExecuteReportsError(
    kind: Kind, close: bool, baton: Option<Text>, before: seq<Json>, message: Text, after: seq<Json>)
    requires forall i :: 0 <= i < |before| ==> HasNoError(before[i])
    ensures var doc := ListDoc(baton, before + ([ErrorItem(message)] + after));
      Executed(kind, close, Some(doc)) ==
        (if kind == Begin then None else Left(kind, close, baton), Err(Reported(message)))
  {
    hide ListDoc, Results, Get, FirstErrorIn, ErrorItem, ErrorMessage;
    ListParts(baton, before + ([ErrorItem(message)] + after));
    ErrorIsError(message);
    ErrorAfter(before, ErrorItem(message), after);
  }

  lemma ErrorIsError(message: Text)
    ensures ErrorItem(message).Obj? && TypeOf(ErrorItem(message)) == Some("error")
    ensures ErrorMessage(ErrorItem(message)) == message
  {
    var e := Obj([Entry("message", Str(message))]);
    LookupTwo("error", e, "type", Str("error"), "type");
    LookupTwo("error", e, "type", Str("error"), "error");
    LookupOne("message", Str(message), "message");
  }

  /** Without an answer to the statement there is no result; without results, or without any
      response, the call fails. */
  lemma ExecuteWithoutResult(kind: Kind, close: bool, baton: Option<Text>, items: seq<Json>)
    requires forall i :: 0 <= i < |items| ==> IsOther(items[i])
    ensures Executed(kind, close, Some(ListDoc(baton, items))).1
      == if kind == Begin && Left(kind, close, baton) == None then Err(NoBaton) else Ok(None)
    ensures Executed(kind, close, Some(Obj([Entry("baton", BatonJson(baton))]))).1 == Err(MissingResults)
    ensures Executed(kind, close, None) == (None, Err(NoResponse))
  {
    hide ListDoc, FirstErrorIn, FirstExecuteIn, IsOther;
    ListParts(baton, items);
    OthersHaveNoError(items);
    NoErrorIn(items);
    NoExecuteIn(items);
    LookupOne("baton", BatonJson(baton), "results");
  }

  lemma OthersHaveNoError(items: seq<Json>)
    requires forall i :: 0 <= i < |items| ==> IsOther(items[i])
    ensures forall i :: 0 <= i < |items| ==> HasNoError(items[i])
  {
    hide Get;
  }

  /** A response is a JSON text of the grammar, and stands for its value. */
  lemma ResponseExactly(raw: Option<Text>, doc: Json)
    ensures Response(raw) == Some(doc) <==> raw.Some? && IsJsonText(raw.value, doc, MAX_DEPTH)
  {
    hide Parsed, IsJsonText;
    if raw.Some? {
      ParseIsGrammar(raw.value, doc);
    }
  }

  lemma ClosesFollowsProtocol(sql: P.Sql, baton: Option<Text>)
    ensures ClosesKind(KindOf(sql), baton) == P.Closes(sql, baton)
  {
  }

  /** A response that names a baton, reports no error, and has no usable result. */
  predicate KeepsBaton(response: Option<Json>) {
    && response.Some? && AsStr(Get(response.value, "baton")).Some?
    && FirstError(response.value).None? && FirstExecute(response.value).Err?
  }

  /** Outside the intended server the slot can keep a baton although BEGIN failed: exactly on such
      a response. */
  lemma FailedBeginKeepsBaton(response: Option<Json>)
    requires Executed(Begin, false, response).1.Err?
    ensures Executed(Begin, false, response).0.Some? <==> KeepsBaton(response)
  {
  }

  /** Such a response exists. */
  lemma BatonWithoutResults()
    ensures var doc := Obj([Entry("baton", Str("b"))]);
      Executed(Begin, false, Some(doc)).1 == Err(MissingResults) && Executed(Begin, false, Some(doc)).0 == Some("b")
  {
    LookupOne("baton", Str("b"), "baton");
    LookupOne("baton", Str("b"), "results");
  }

  /** In any letter case. */
  predicate BeginsWith(s: Text, word: Text) {
    |word| <= |s| && UpperAll(s[..|word|]) == word
  }

  lemma SpaceIsScalar(s: Text)
    requires SpaceLen(s) > 0
    ensures ScalarLen(s) == SpaceLen(s)
  {
  }

  lemma {:induction false} TrimmedIsUtf8(s: Text)
    requires IsUtf8(s)
    ensures IsUtf8(TrimStart(s))
    decreases |s|
  {
    hide SpaceLen, ScalarLen;
    if SpaceLen(s) > 0 {
      SpaceIsScalar(s);
      TrimmedIsUtf8(s[SpaceLen(s)..]);
    }
  }

  /** Eight characters are eight bytes or more, if there are so many. */
  lemma {:induction false} TakesEnough(s: Text, n: nat)
    requires IsUtf8(s)
    ensures TakeChars(s, n) <= s && |TakeChars(s, n)| >= if |s| < n then |s| else n
    decreases n
  {
    hide ScalarLen;
    if n > 0 && s != [] {
      var k := ScalarLen(s);
      TakesEnough(s[k..], n - 1);
      assert s == s[..k] + s[k..];
    }
  }

  lemma StartIsSame(s: Text, head: Text, word: Text)
    requires head <= s && |head| >= (if |s| < 8 then |s| else 8) && |word| <= 8
    ensures StartsWith(UpperAll(head), word) <==> BeginsWith(s, word)
  {
    if |word| <= |s| {
      assert s[..|word|] == head[..|word|];
      if BeginsWith(s, word) {
        forall i | 0 <= i < |word| ensures UpperAll(head)[i] == word[i] {
          assert UpperAll(s[..|word|])[i] == word[i];
        }
      }
    }
  }

  /** What decides is the first word after white space, in any letter case; anything else is a plain
      statement. */
  lemma StatementExactly(sql: Text)
    requires IsUtf8(sql)
    ensures var t := TrimStart(sql);
      StatementKind(sql) ==
      if BeginsWith(t, "BEGIN") then Begin
      else if BeginsWith(t, "COMMIT") || BeginsWith(t, "ROLLBACK") then End
      else Stmt
  {
    hide TakeChars, TrimStart, UpperAll, StartsWith, BeginsWith, IsUtf8;
    var t := TrimStart(sql);
    TrimmedIsUtf8(sql);
    TakesEnough(t, 8);
    StartIsSame(t, TakeChars(t, 8), "BEGIN");
    StartIsSame(t, TakeChars(t, 8), "COMMIT");
    StartIsSame(t, TakeChars(t, 8), "ROLLBACK");
  }

  /** The three statements the pool sends, in any letter case and after any white space. */
  lemma PoolStatements(text: Text)
    ensures UpperAll(TrimStart(text)) == "BEGIN IMMEDIATE" ==> StatementKind(text) == Begin
    ensures UpperAll(TrimStart(text)) == "COMMIT" || UpperAll(TrimStart(text)) == "ROLLBACK" ==>
      StatementKind(text) == End
  {
    hide TakeChars, TrimStart;
    var sql := TrimStart(text);
    if UpperAll(sql) == "BEGIN IMMEDIATE" || UpperAll(sql) == "COMMIT" || UpperAll(sql) == "ROLLBACK" {
      UpperIsAscii(sql);
      TakeAscii(sql, 8);
      var n := if |sql| < 8 then |sql| else 8;
      assert UpperAll(sql[..n]) == UpperAll(sql)[..n];
      assert UpperAll(sql[..n])[0] == UpperAll(sql)[0];
    }
  }

  lemma UpperIsAscii(s: Text)
    requires UpperAll(s) == "BEGIN IMMEDIATE" || UpperAll(s) == "COMMIT" || UpperAll(s) == "ROLLBACK"
    ensures forall i :: 0 <= i < |s| ==> s[i] < '\U{80}'
  {
    forall i | 0 <= i < |s| ensures s[i] < '\U{80}' {
      assert UpperAll(s)[i] < '\U{80}' && UpperAll(s)[i] == Upper(s[i]);
    }
  }

  lemma {:induction false} TakeAscii(s: Text, n: nat)
    requires forall i :: 0 <= i < |s| ==> s[i] < '\U{80}'
    ensures TakeChars(s, n) == s[..if |s| < n then |s| else n]
    decreases n
  {
    if n > 0 && s != [] {
      TakeAscii(s[1..], n - 1);
      var k := if |s| < n then |s| else n;
      assert s[..k] == s[..1] + s[1..][..k - 1];
    }
  }
}
