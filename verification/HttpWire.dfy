/** Requests as a client writes them, with what each of them means. Their field values, chunk
    extensions and trailers are freer than in sections 3 and 4.1 of RFC 7230: any text on one line.
    The grammar of the standard itself is in `HttpSyntax` and `HttpStrict`. */
module HttpWire {
  import opened Bytes
  import opened Utf8
  import opened Numerals
  import opened Trim
  import opened Splitting
  import opened Percent
  import opened HttpHead
  import opened HttpFraming

  datatype WireTarget =
    | Asterisk
    | Origin(path: Text, query: Option<Text>)
    | Absolute(scheme: Text, authority: Text, path: Text, query: Option<Text>)

  /** A field line; `raw` is everything after the colon. */
  datatype WireField = WireField(name: Text, raw: Text)

  /** The size in hexadecimal, in any case and with any leading zeros. */
  datatype Chunk = Chunk(size: Text, extension: Text, data: Text)

  datatype Framing =
    | NoBody
    | Sized(body: Text)
    | Chunked(chunks: seq<Chunk>, zero: Chunk, trailers: seq<Text>)

  datatype Wire = Wire(
    blanks: nat, verb: Text, target: WireTarget, http11: bool, fields: seq<WireField>, framing: Framing)

  // ==== text on the wire; each encoder is given the bytes that follow ====

  function QueryText(query: Option<Text>): Text {
    match query case None => [] case Some(q) => "?" + q
  }

  function TargetText(t: WireTarget): Text {
    match t
    case Asterisk => "*"
    case Origin(path, query) => path + QueryText(query)
    case Absolute(scheme, authority, path, query) => scheme + ("://" + (authority + (path + QueryText(query))))
  }

  function VersionText(http11: bool): Text {
    if http11 then "HTTP/1.1" else "HTTP/1.0"
  }

  function StartText(w: Wire): Text {
    w.verb + ([' '] + (TargetText(w.target) + ([' '] + VersionText(w.http11))))
  }

  /** A line with its CRLF. */
  function EncodeLine(line: Text, more: Text): Text {
    line + ("\r\n" + more)
  }

  function EncodeBlanks(n: nat, more: Text): Text {
    if n == 0 then more else EncodeLine([], EncodeBlanks(n - 1, more))
  }

  function FieldText(f: WireField): Text {
    f.name + ([':'] + f.raw)
  }

  function EncodeFields(fields: seq<WireField>, more: Text): Text {
    if fields == [] then EncodeLine([], more) else EncodeLine(FieldText(fields[0]), EncodeFields(fields[1..], more))
  }

  function EncodeTrailers(trailers: seq<Text>, more: Text): Text {
    if trailers == [] then EncodeLine([], more) else EncodeLine(trailers[0], EncodeTrailers(trailers[1..], more))
  }

  function EncodeChunks(chunks: seq<Chunk>, zero: Chunk, trailers: seq<Text>, more: Text): Text {
    if chunks == [] then EncodeLine(zero.size + zero.extension, EncodeTrailers(trailers, more))
    else
      EncodeLine(chunks[0].size + chunks[0].extension,
                 EncodeLine(chunks[0].data, EncodeChunks(chunks[1..], zero, trailers, more)))
  }

  function EncodeBody(framing: Framing, more: Text): Text {
    match framing
    case NoBody => more
    case Sized(body) => body + more
    case Chunked(chunks, zero, trailers) => EncodeChunks(chunks, zero, trailers, more)
  }

  function Encode(w: Wire, more: Text): Text {
    EncodeBlanks(w.blanks, EncodeLine(StartText(w), EncodeFields(w.fields, EncodeBody(w.framing, more))))
  }

  function EncodeAll(ws: seq<Wire>, more: Text): Text {
    if ws == [] then more else Encode(ws[0], EncodeAll(ws[1..], more))
  }

  // ==== meaning ====

  function QueryValue(query: Option<Text>): Text {
    match query case None => [] case Some(q) => q
  }

  function TargetMeaning(t: WireTarget): Target {
    match t
    case Asterisk => Target("*", "*", [])
    case Origin(path, query) => Target(path, PercentDecoded(path, false), QueryValue(query))
    case Absolute(_, _, path, query) =>
      if path == [] then Target("/", "/", []) else Target(path, PercentDecoded(path, false), QueryValue(query))
  }

  function FieldsOf(fields: seq<WireField>): seq<Field> {
    if fields == [] then [] else [Field(fields[0].name, TrimBoth(fields[0].raw))] + FieldsOf(fields[1..])
  }

  function DataOf(chunks: seq<Chunk>): Text {
    if chunks == [] then [] else chunks[0].data + DataOf(chunks[1..])
  }

  function BodyOf(framing: Framing): Text {
    match framing
    case NoBody => []
    case Sized(body) => body
    case Chunked(chunks, _, _) => DataOf(chunks)
  }

  function Meaning(w: Wire): Request {
    var t := TargetMeaning(w.target);
    Request(UpperAll(w.verb), t.path, t.rawPath, t.query, FieldsOf(w.fields), BodyOf(w.framing))
  }

  function Meanings(ws: seq<Wire>): seq<Request> {
    if ws == [] then [] else [Meaning(ws[0])] + Meanings(ws[1..])
  }

  predicate StaysOpen(w: Wire) {
    KeepsAlive(FieldsOf(w.fields), w.http11)
  }

  // ==== well-formed requests ====

  predicate IsOneLine(s: Text) {
    IsUtf8(s) && Lacks(s, '\n')
  }

  predicate IsPath(path: Text) {
    path != [] && path[0] == '/' && Lacks(path, '?') && IsSafePath(PercentDecoded(path, false))
  }

  /** An absolute target without a path must have no query: the code drops it. */
  predicate IsTarget(t: WireTarget) {
    && IsOneLine(TargetText(t)) && Lacks(TargetText(t), ' ')
    && match t
       case Asterisk => true
       case Origin(path, _) => IsPath(path)
       case Absolute(scheme, authority, path, query) =>
         && AllAlphanumeric(scheme) && Lacks(authority, '/') && Lacks(authority, '?')
         && (IsPath(path) || (path == [] && query.None?))
  }

  predicate AreFields(fields: seq<WireField>) {
    forall i :: 0 <= i < |fields| ==> IsToken(fields[i].name) && IsOneLine(fields[i].raw)
  }

  /** A size of hexadecimal digits, and after a semicolon any text. */
  predicate IsChunkText(c: Chunk) {
    && c.size != [] && DigitsValue(c.size, 16) == Some(|c.data|)
    && Lacks(c.extension, '\n') && (c.extension == [] || c.extension[0] == ';')
  }

  predicate IsChunk(c: Chunk) {
    IsChunkText(c) && |c.data| < USIZE_LIMIT && |c.size + c.extension| + 2 <= 1024
  }

  predicate AreChunks(chunks: seq<Chunk>) {
    forall i :: 0 <= i < |chunks| ==> IsChunk(chunks[i]) && chunks[i].data != []
  }

  predicate AreTrailers(trailers: seq<Text>) {
    forall i :: 0 <= i < |trailers| ==> Lacks(trailers[i], '\n') && trailers[i] != []
  }

  /** The trimmed fields announce the body that follows. */
  predicate Announced(fields: seq<Field>, framing: Framing) {
    var coding := First(fields, "transfer-encoding");
    var lens := GetAll(fields, "content-length");
    match framing
    case NoBody => coding.None? && lens == []
    case Sized(body) =>
      && coding.None? && lens != [] && (forall i :: 0 <= i < |lens| ==> lens[i] == lens[0])
      && AllDigits(lens[0]) && lens[0] != [] && DigitsValue(lens[0], 10) == Some(|body|) && |body| < USIZE_LIMIT
    case Chunked(chunks, zero, trailers) =>
      && lens == [] && |GetAll(fields, "transfer-encoding")| == 1
      && coding.Some? && SameIgnoringCase(TrimBoth(coding.value), "chunked")
      && AreChunks(chunks) && IsChunk(zero) && zero.data == [] && AreTrailers(trailers)
  }

  predicate IsWire(w: Wire) {
    IsToken(w.verb) && IsTarget(w.target) && AreFields(w.fields) && Announced(FieldsOf(w.fields), w.framing)
  }

  // ==== limits ====

  function FieldBytes(fields: seq<WireField>): nat {
    if fields == [] then 2 else |FieldText(fields[0])| + 2 + FieldBytes(fields[1..])
  }

  function TrailerBytes(trailers: seq<Text>): nat {
    if trailers == [] then 2 else |trailers[0]| + 2 + TrailerBytes(trailers[1..])
  }

  function StartBytes(w: Wire): nat {
    2 * w.blanks + |StartText(w)| + 2
  }

  function HeadBytes(w: Wire): nat {
    StartBytes(w) + FieldBytes(w.fields)
  }

  /** What the body adds to the header count: at least 2 for a chunked one. */
  function SpareBytes(framing: Framing): nat {
    if framing.Chunked? then TrailerBytes(framing.trailers) else 0
  }

  predicate WithinLimits(w: Wire, cfg: Config) {
    HeadBytes(w) + SpareBytes(w.framing) <= cfg.maxHeader && |BodyOf(w.framing)| <= cfg.maxBody
  }

  /** What reading `w` must give: the head is checked first, then the body, then the trailers. */
  function Expected(w: Wire, more: Text, cfg: Config): Outcome {
    if HeadBytes(w) > cfg.maxHeader then Failed(Status(431))
    else if |BodyOf(w.framing)| > cfg.maxBody then Failed(Status(413))
    else if HeadBytes(w) + SpareBytes(w.framing) > cfg.maxHeader then Failed(Status(431))
    else Got(Meaning(w), StaysOpen(w), more)
  }

  // ==== each encoder writes its own bytes and then what follows ====

  lemma LineTail(line: Text, a: Text, b: Text)
    ensures EncodeLine(line, a + b) == EncodeLine(line, a) + b
  {
    Assoc("\r\n", a, b);
    Assoc(line, "\r\n" + a, b);
  }

  lemma {:induction false} BlanksTail(n: nat, a: Text, b: Text)
    ensures EncodeBlanks(n, a + b) == EncodeBlanks(n, a) + b
  {
    hide EncodeLine;
    if n > 0 {
      BlanksTail(n - 1, a, b);
      LineTail([], EncodeBlanks(n - 1, a), b);
    }
  }

  lemma {:induction false} FieldsTail(fields: seq<WireField>, a: Text, b: Text)
    ensures EncodeFields(fields, a + b) == EncodeFields(fields, a) + b
  {
    hide EncodeLine, FieldText;
    if fields == [] {
      LineTail([], a, b);
    } else {
      FieldsTail(fields[1..], a, b);
      LineTail(FieldText(fields[0]), EncodeFields(fields[1..], a), b);
    }
  }

  lemma {:induction false} TrailersTail(trailers: seq<Text>, a: Text, b: Text)
    ensures EncodeTrailers(trailers, a + b) == EncodeTrailers(trailers, a) + b
  {
    hide EncodeLine;
    if trailers == [] {
      LineTail([], a, b);
    } else {
      TrailersTail(trailers[1..], a, b);
      LineTail(trailers[0], EncodeTrailers(trailers[1..], a), b);
    }
  }

  lemma {:induction false} ChunksTail(chunks: seq<Chunk>, zero: Chunk, trailers: seq<Text>, a: Text, b: Text)
    ensures EncodeChunks(chunks, zero, trailers, a + b) == EncodeChunks(chunks, zero, trailers, a) + b
  {
    hide EncodeLine, EncodeTrailers;
    if chunks == [] {
      TrailersTail(trailers, a, b);
      LineTail(zero.size + zero.extension, EncodeTrailers(trailers, a), b);
    } else {
      ChunksTail(chunks[1..], zero, trailers, a, b);
      var tail := EncodeChunks(chunks[1..], zero, trailers, a);
      LineTail(chunks[0].data, tail, b);
      LineTail(chunks[0].size + chunks[0].extension, EncodeLine(chunks[0].data, tail), b);
    }
  }

  lemma BodyTail(framing: Framing, a: Text, b: Text)
    ensures EncodeBody(framing, a + b) == EncodeBody(framing, a) + b
  {
    hide EncodeChunks;
    match framing
    case NoBody =>
    case Sized(body) => Assoc(body, a, b);
    case Chunked(chunks, zero, trailers) => ChunksTail(chunks, zero, trailers, a, b);
  }

  lemma EncodeTail(w: Wire, a: Text, b: Text)
    ensures Encode(w, a + b) == Encode(w, a) + b
  {
    hide EncodeBlanks, EncodeLine, EncodeFields, EncodeBody, StartText;
    BodyTail(w.framing, a, b);
    FieldsTail(w.fields, EncodeBody(w.framing, a), b);
    LineTail(StartText(w), EncodeFields(w.fields, EncodeBody(w.framing, a)), b);
    BlanksTail(w.blanks, EncodeLine(StartText(w), EncodeFields(w.fields, EncodeBody(w.framing, a))), b);
  }

  /** The bytes of each request alone. */
  function Encodings(ws: seq<Wire>): seq<Text> {
    if ws == [] then [] else [Encode(ws[0], [])] + Encodings(ws[1..])
  }

  /** Writing the requests one after another is concatenating their encodings. */
  lemma {:induction false} EncodeAllConcat(ws: seq<Wire>, more: Text)
    ensures EncodeAll(ws, more) == Flatten(Encodings(ws)) + more
  {
    hide Encode;
    if ws == [] {
      NilLeft(more);
    } else {
      EncodeAllConcat(ws[1..], more);
      var one, tail := Encode(ws[0], []), Flatten(Encodings(ws[1..]));
      EncodeTail(ws[0], [], tail + more);
      NilLeft(tail + more);
      Assoc(one, tail, more);
      assert Encodings(ws)[1..] == Encodings(ws[1..]);
    }
  }
}
