/** What one connection delivers, as a function of the bytes that arrive on it: the framing rules
    of backend/src/http.rs:768-1223 without any buffer. */
module HttpFraming {
  import opened Bytes
  import opened Utf8
  import opened Numerals
  import opened Trim
  import opened Splitting
  import opened HttpHead

  const MAX_CHUNK_LINE := 1024

  datatype Line = Line(text: Text, rest: Text) | Eof | Bad(fail: Fail)

  /** The next line with its '\n', when the bytes already counted and its own stay within `max`. */
  function ReadLine(bytes: Text, used: nat, max: nat): (r: Line)
    ensures r.Line? ==> r.text != [] && |r.text| + |r.rest| == |bytes|
  {
    match Find(bytes, '\n')
    case Some(i) =>
      if used + i + 1 > max then Bad(HEADERS_TOO_LARGE) else Line(bytes[..i + 1], bytes[i + 1..])
    case None =>
      if bytes == [] then Eof else if used + |bytes| > max then Bad(HEADERS_TOO_LARGE) else Bad(Close)
  }

  // ==== head ====

  datatype Opening = Opening(line: Text, used: nat, rest: Text) | NoMore | Broken(fail: Fail)

  /** Blank lines before the request line are skipped but counted. */
  function SkipBlank(bytes: Text, used: nat, max: nat): (r: Opening)
    ensures r.Opening? ==> |r.rest| < |bytes|
    decreases |bytes|
  {
    match ReadLine(bytes, used, max)
    case Eof => NoMore
    case Bad(f) => Broken(f)
    case Line(text, rest) =>
      if TrimEol(text) == [] then SkipBlank(rest, used + |text|, max) else Opening(text, used + |text|, rest)
  }

  datatype Block = Block(fields: seq<Field>, used: nat, rest: Text)

  /** The field lines up to the empty line, after the fields in `before`. */
  function ReadFields(bytes: Text, used: nat, max: nat, before: seq<Field>): (r: Result<Block, Fail>)
    ensures r.Ok? ==> |r.value.rest| <= |bytes|
    decreases |bytes|
  {
    match ReadLine(bytes, used, max)
    case Eof => Err(Close)
    case Bad(f) => Err(f)
    case Line(text, rest) =>
      var raw := TrimEol(text);
      if raw == [] then Ok(Block(before, used + |text|, rest))
      else match ParseField(raw)
        case Err(f) => Err(f)
        case Ok(field) => ReadFields(rest, used + |text|, max, before + [field])
  }

  // ==== body ====

  datatype Body = Body(data: Text, rest: Text)

  /** The number before the first ';' of a chunk line. */
  function ChunkSize(head: Text): Option<nat> {
    var text := match Find(head, ';') case Some(i) => head[..i] case None => head;
    if IsUtf8(text) then ParseUnsigned(TrimBoth(text), 16, USIZE_LIMIT) else None
  }

  /** Trailer lines, up to the empty one, count against the head limit. */
  function ReadTrailers(bytes: Text, used: nat, max: nat): (r: Result<Text, Fail>)
    ensures r.Ok? ==> |r.value| <= |bytes|
    decreases |bytes|
  {
    match ReadLine(bytes, used, max)
    case Eof => Err(Close)
    case Bad(f) => Err(f)
    case Line(text, rest) => if TrimEol(text) == [] then Ok(rest) else ReadTrailers(rest, used + |text|, max)
  }

  function ReadChunks(bytes: Text, used: nat, cfg: Config, before: Text): (r: Result<Body, Fail>)
    ensures r.Ok? ==> |r.value.rest| <= |bytes|
    decreases |bytes|
  {
    match ReadLine(bytes, 0, MAX_CHUNK_LINE)
    case Eof => Err(Close)
    case Bad(f) => Err(f)
    case Line(text, rest) =>
      match ChunkSize(TrimEol(text))
      case None => Err(BAD_REQUEST)
      case Some(size) =>
        if size == 0 then
          match ReadTrailers(rest, used, cfg.maxHeader)
          case Err(f) => Err(f)
          case Ok(after) => Ok(Body(before, after))
        else if |before| + size > cfg.maxBody then Err(TOO_LARGE)
        else if |rest| < size + 2 then Err(Close)
        else if rest[size..size + 2] != "\r\n" then Err(BAD_REQUEST)
        else ReadChunks(rest[size + 2..], used, cfg, before + rest[..size])
  }

  function ReadSized(bytes: Text, lens: seq<Text>, cfg: Config): (r: Result<Body, Fail>)
    requires lens != []
    ensures r.Ok? ==> |r.value.rest| <= |bytes|
  {
    if exists i :: 0 <= i < |lens| && lens[i] != lens[0] then Err(BAD_REQUEST)
    else match ParseUnsigned(TrimBoth(lens[0]), 10, USIZE_LIMIT)
      case None => Err(BAD_REQUEST)
      case Some(n) =>
        if n > cfg.maxBody then Err(TOO_LARGE)
        else if |bytes| < n then Err(Close)
        else Ok(Body(bytes[..n], bytes[n..]))
  }

  /** `read_body`. `HttpStrict` says when this is what section 3.3.3 of RFC 7230 requires. */
  function ReadBody(bytes: Text, fields: seq<Field>, used: nat, cfg: Config): (r: Result<Body, Fail>)
    ensures r.Ok? ==> |r.value.rest| <= |bytes|
  {
    var coding := First(fields, "transfer-encoding");
    var lens := GetAll(fields, "content-length");
    if coding.Some? && lens != [] then Err(BAD_REQUEST)
    else if coding.Some? then
      if SameIgnoringCase(TrimBoth(coding.value), "chunked") then ReadChunks(bytes, used, cfg, [])
      else Err(Status(501))
    else if lens == [] then Ok(Body([], bytes))
    else ReadSized(bytes, lens, cfg)
  }

  // ==== requests and connections ====

  datatype Outcome = Got(request: Request, keepAlive: bool, rest: Text) | Done | Failed(fail: Fail)

  function ReadAfterStart(start: Start, bytes: Text, used: nat, cfg: Config): (r: Outcome)
    ensures r.Got? ==> |r.rest| <= |bytes|
  {
    match ReadFields(bytes, used, cfg.maxHeader, [])
    case Err(f) => Failed(f)
    case Ok(block) =>
      match ReadBody(block.rest, block.fields, block.used, cfg)
      case Err(f) => Failed(f)
      case Ok(body) =>
        var t := start.target;
        Got(Request(UpperAll(start.verb), t.path, t.rawPath, t.query, block.fields, body.data),
            KeepsAlive(block.fields, start.http11), body.rest)
  }

  /** `read_request` */
  function ReadRequest(bytes: Text, cfg: Config): (r: Outcome)
    ensures r.Got? ==> |r.rest| < |bytes|
  {
    match SkipBlank(bytes, 0, cfg.maxHeader)
    case NoMore => Done
    case Broken(f) => Failed(f)
    case Opening(line, used, rest) =>
      match ParseStart(TrimEol(line))
      case Err(f) => Failed(f)
      case Ok(start) => ReadAfterStart(start, rest, used, cfg)
  }

  /** Why a connection ended: the peer closed between requests, a request asked for it, or an
      error, answered with its status unless it closes silently. */
  datatype End = PeerClosed | NotKept | Erred(fail: Fail)

  datatype Served = Served(requests: seq<Request>, end: End)

  /** `handle_connection`: the requests handed to the handler, in order, and the end. */
  function Serve(bytes: Text, cfg: Config, before: seq<Request>): Served
    decreases |bytes|
  {
    match ReadRequest(bytes, cfg)
    case Done => Served(before, PeerClosed)
    case Failed(f) => Served(before, Erred(f))
    case Got(request, keepAlive, rest) =>
      if keepAlive then Serve(rest, cfg, before + [request]) else Served(before + [request], NotKept)
  }
}
