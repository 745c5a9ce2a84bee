/** The pure parts of reading a request head: `parse_target`, `trim_eol`, `Headers` and the
    tests on the request line and the fields (backend/src/http.rs). */
module HttpHead {
  import opened Bytes
  import opened Utf8
  import opened Trim
  import opened Splitting
  import opened Percent

  /** `HttpError`: status 0 closes without an answer. */
  datatype Fail = Close | Status(code: nat)

  datatype Config = Config(maxBody: nat, maxHeader: nat)

  datatype Field = Field(name: Text, value: Text)

  datatype Request = Request(
    verb: Text, path: Text, rawPath: Text, query: Text, headers: seq<Field>, body: Text)

  const BAD_REQUEST := Status(400)
  const TOO_LARGE := Status(413)
  const HEADERS_TOO_LARGE := Status(431)

  predicate IsAlphanumeric(c: Byte) {
    '0' <= c <= '9' || 'A' <= c <= 'Z' || 'a' <= c <= 'z'
  }

  predicate IsTokenByte(c: Byte) {
    || IsAlphanumeric(c) || c == '!' || c == '#' || c == '$' || c == '%' || c == '&' || c == '\'' || c == '*'
    || c == '+' || c == '-' || c == '.' || c == '^' || c == '_' || c == '`' || c == '|' || c == '~'
  }

  predicate IsToken(s: Text) {
    s != [] && forall i :: 0 <= i < |s| ==> IsTokenByte(s[i])
  }

  predicate AllAlphanumeric(s: Text) {
    forall i :: 0 <= i < |s| ==> IsAlphanumeric(s[i])
  }

  /** `trim_eol` */
  function TrimEol(line: Text): Text {
    var cut := if line != [] && line[|line| - 1] == '\n' then line[..|line| - 1] else line;
    if cut != [] && cut[|cut| - 1] == '\r' then cut[..|cut| - 1] else cut
  }

  // ==== the request line ====

  datatype Target = Target(rawPath: Text, path: Text, query: Text)

  /** Whether a decoded path may be handed on: no NUL and no ".." segment. */
  predicate IsSafePath(path: Text) {
    '\0' !in path && ".." !in Split(path, '/')
  }

  /** A target without the scheme and authority of its absolute form. */
  function LocalPart(target: Text): Text {
    match FindWord(target, "://")
    case Some(i) =>
      if AllAlphanumeric(target[..i]) then
        var after := target[i + 3..];
        match Find(after, '/')
        case Some(j) => after[j..]
        case None => "/"
      else target
    case None => target
  }

  function SplitQuery(s: Text): (Text, Text) {
    match SplitOnce(s, '?')
    case Some(pq) => pq
    case None => (s, [])
  }

  function PathTarget(s: Text): Result<Target, Fail> {
    var pq := SplitQuery(s);
    if pq.0 == [] || pq.0[0] != '/' then Err(BAD_REQUEST)
    else
      var path := PercentDecoded(pq.0, false);
      if IsSafePath(path) then Ok(Target(pq.0, path, pq.1)) else Err(BAD_REQUEST)
  }

  /** `parse_target` */
  function ParseTarget(target: Text): Result<Target, Fail> {
    if target == "*" then Ok(Target("*", "*", [])) else PathTarget(LocalPart(target))
  }

  function ParseVersion(version: Text): Result<bool, Fail> {
    if version == "HTTP/1.1" then Ok(true)
    else if version == "HTTP/1.0" then Ok(false)
    else Err(Status(505))
  }

  datatype Start = Start(verb: Text, target: Target, http11: bool)

  /** The request line, without its line end. */
  function ParseStart(line: Text): Result<Start, Fail> {
    if !IsUtf8(line) then Err(BAD_REQUEST)
    else
      var parts := Split(line, ' ');
      if |parts| != 3 || parts[0] == [] || parts[1] == [] then Err(BAD_REQUEST)
      else if !IsToken(parts[0]) then Err(BAD_REQUEST)
      else match ParseVersion(parts[2])
        case Err(e) => Err(e)
        case Ok(http11) =>
          match ParseTarget(parts[1])
          case Err(e) => Err(e)
          case Ok(target) => Ok(Start(parts[0], target, http11))
  }

  // ==== fields ====

  /** One field line, not empty and without its line end. */
  function ParseField(line: Text): Result<Field, Fail>
    requires line != []
  {
    if line[0] == ' ' || line[0] == '\t' then Err(BAD_REQUEST)
    else if !IsUtf8(line) then Err(BAD_REQUEST)
    else match SplitOnce(line, ':')
      case None => Err(BAD_REQUEST)
      case Some(nv) => if IsToken(nv.0) then Ok(Field(nv.0, TrimBoth(nv.1))) else Err(BAD_REQUEST)
  }

  /** `eq_ignore_ascii_case` */
  predicate SameIgnoringCase(a: Text, b: Text) {
    LowerAll(a) == LowerAll(b)
  }

  /** `Headers::get_all` */
  function GetAll(fields: seq<Field>, name: Text): seq<Text> {
    if fields == [] then []
    else if SameIgnoringCase(fields[0].name, name) then [fields[0].value] + GetAll(fields[1..], name)
    else GetAll(fields[1..], name)
  }

  /** `Headers::get` */
  function First(fields: seq<Field>, name: Text): Option<Text> {
    if fields == [] then None
    else if SameIgnoringCase(fields[0].name, name) then Some(fields[0].value)
    else First(fields[1..], name)
  }

  /** `Headers::get` is the head of `Headers::get_all`. */
  lemma {:induction false} FirstOfAll(fields: seq<Field>, name: Text)
    ensures First(fields, name) == if GetAll(fields, name) == [] then None else Some(GetAll(fields, name)[0])
  {
    if fields != [] {
      FirstOfAll(fields[1..], name);
    }
  }

  predicate HasToken(list: seq<Text>, word: Text) {
    exists i :: 0 <= i < |list| && TrimBoth(list[i]) == word
  }

  /** Whether the connection stays open after this request. */
  predicate KeepsAlive(fields: seq<Field>, http11: bool) {
    var value := match First(fields, "connection") case Some(v) => v case None => [];
    var words := Split(LowerAll(value), ',');
    !HasToken(words, "close") && (http11 || HasToken(words, "keep-alive"))
  }
}
