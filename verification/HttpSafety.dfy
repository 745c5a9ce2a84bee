/** What holds of every byte stream: what a request that reaches the handler has been checked for,
    and that no request depends on the bytes that follow it. `HttpStrict` says which of these
    requests the standard frames the same way. */
module HttpSafety {
  import opened Bytes
  import opened Utf8
  import opened Numerals
  import opened Trim
  import opened Splitting
  import opened HttpHead
  import opened HttpFraming

  // ==== what the handler is given ====

  /** Never a length beside a transfer coding; the first coding is chunked; equal lengths, whose
      number is that of the body; and no body without either. */
  predicate IsFramed(fields: seq<Field>, body: Text) {
    var coding := First(fields, "transfer-encoding");
    var lens := GetAll(fields, "content-length");
    if coding.Some? then lens == [] && SameIgnoringCase(TrimBoth(coding.value), "chunked")
    else if lens == [] then body == []
    else
      && (forall i :: 0 <= i < |lens| ==> lens[i] == lens[0])
      && ParseUnsigned(TrimBoth(lens[0]), 10, USIZE_LIMIT) == Some(|body|)
  }

  predicate AreNamed(fields: seq<Field>) {
    forall i :: 0 <= i < |fields| ==> IsToken(fields[i].name)
  }

  predicate IsClean(request: Request, cfg: Config) {
    && IsFramed(request.headers, request.body) && |request.body| <= cfg.maxBody
    && AreNamed(request.headers)
    && (request.path == "*" || IsSafePath(request.path))
  }

  lemma {:induction false} ChunksWithin(bytes: Text, used: nat, cfg: Config, before: Text)
    requires |before| <= cfg.maxBody
    ensures var r := ReadChunks(bytes, used, cfg, before); r.Ok? ==> |r.value.data| <= cfg.maxBody
    decreases |bytes|
  {
    hide ReadLine, ChunkSize, ReadTrailers, TrimEol;
    match ReadLine(bytes, 0, MAX_CHUNK_LINE)
    case Line(text, rest) =>
      var size := ChunkSize(TrimEol(text));
      if size.Some? && size.value > 0 && |before| + size.value <= cfg.maxBody && |rest| >= size.value + 2 {
        ChunksWithin(rest[size.value + 2..], used, cfg, before + rest[..size.value]);
      }
    case _ =>
  }

  lemma BodyIsFramed(bytes: Text, fields: seq<Field>, used: nat, cfg: Config)
    requires ReadBody(bytes, fields, used, cfg).Ok?
    ensures var body := ReadBody(bytes, fields, used, cfg).value.data; IsFramed(fields, body) && |body| <= cfg.maxBody
  {
    hide ReadChunks, First, GetAll, SameIgnoringCase, TrimBoth, ParseUnsigned;
    ChunksWithin(bytes, used, cfg, []);
  }

  lemma {:induction false} FieldsAreNamed(bytes: Text, used: nat, max: nat, before: seq<Field>)
    requires AreNamed(before)
    ensures var r := ReadFields(bytes, used, max, before); r.Ok? ==> AreNamed(r.value.fields)
    decreases |bytes|
  {
    hide ReadLine, TrimEol, IsToken, ParseField;
    match ReadLine(bytes, used, max)
    case Line(text, rest) =>
      if TrimEol(text) != [] && ParseField(TrimEol(text)).Ok? {
        FieldIsNamed(TrimEol(text));
        FieldsAreNamed(rest, used + |text|, max, before + [ParseField(TrimEol(text)).value]);
      }
    case _ =>
  }

  lemma FieldIsNamed(line: Text)
    requires line != [] && ParseField(line).Ok?
    ensures IsToken(ParseField(line).value.name)
  {
    hide IsToken, SplitOnce, IsUtf8;
  }

  lemma StartIsSafe(line: Text)
    requires ParseStart(line).Ok?
    ensures var path := ParseStart(line).value.target.path; path == "*" || IsSafePath(path)
  {
    hide IsUtf8, Split, LocalPart, SplitQuery, IsSafePath, Percent.PercentDecoded;
  }

  /** A request that is read is clean, whatever the bytes. */
  lemma GotIsClean(bytes: Text, cfg: Config)
    requires ReadRequest(bytes, cfg).Got?
    ensures IsClean(ReadRequest(bytes, cfg).request, cfg)
  {
    hide SkipBlank, ParseStart, TrimEol, ReadFields, ReadBody, IsFramed, IsSafePath, IsToken, KeepsAlive, UpperAll;
    var o := SkipBlank(bytes, 0, cfg.maxHeader);
    var start := ParseStart(TrimEol(o.line));
    StartIsSafe(TrimEol(o.line));
    FieldsAreNamed(o.rest, o.used, cfg.maxHeader, []);
    var block := ReadFields(o.rest, o.used, cfg.maxHeader, []).value;
    BodyIsFramed(block.rest, block.fields, block.used, cfg);
    var request := ReadRequest(bytes, cfg).request;
    assert request.headers == block.fields;
    assert request.body == ReadBody(block.rest, block.fields, block.used, cfg).value.data;
    assert request.path == start.value.target.path;
  }

  predicate AreClean(requests: seq<Request>, cfg: Config) {
    forall i :: 0 <= i < |requests| ==> IsClean(requests[i], cfg)
  }

  /** Every request of every connection is clean. */
  lemma {:induction false} ServedAreClean(bytes: Text, cfg: Config, before: seq<Request>)
    requires AreClean(before, cfg)
    ensures AreClean(Serve(bytes, cfg, before).requests, cfg)
    decreases |bytes|
  {
    hide ReadRequest, IsClean;
    match ReadRequest(bytes, cfg)
    case Got(request, keepAlive, rest) =>
      GotIsClean(bytes, cfg);
      assert AreClean(before + [request], cfg);
      if keepAlive {
        ServedAreClean(rest, cfg, before + [request]);
      }
    case _ =>
  }

  // ==== what follows a request does not matter to it ====

  lemma LineThen(bytes: Text, used: nat, max: nat, more: Text)
    requires ReadLine(bytes, used, max).Line?
    ensures var r := ReadLine(bytes, used, max); ReadLine(bytes + more, used, max) == Line(r.text, r.rest + more)
  {
    hide Find, Lacks;
    var i := Find(bytes, '\n').value;
    CutAt(bytes, i);
    Assoc(bytes[..i], ['\n'] + bytes[i + 1..], more);
    Assoc(['\n'], bytes[i + 1..], more);
    FindIn(bytes[..i], '\n', bytes[i + 1..] + more);
    assert (bytes + more)[..i + 1] == bytes[..i + 1] && (bytes + more)[i + 1..] == bytes[i + 1..] + more;
  }

  lemma {:induction false} BlankThen(bytes: Text, used: nat, max: nat, more: Text)
    requires SkipBlank(bytes, used, max).Opening?
    ensures var r := SkipBlank(bytes, used, max);
      SkipBlank(bytes + more, used, max) == Opening(r.line, r.used, r.rest + more)
    decreases |bytes|
  {
    hide ReadLine, TrimEol;
    LineThen(bytes, used, max, more);
    var l := ReadLine(bytes, used, max);
    if TrimEol(l.text) == [] {
      BlankThen(l.rest, used + |l.text|, max, more);
    }
  }

  lemma {:induction false} FieldsThen(bytes: Text, used: nat, max: nat, before: seq<Field>, more: Text)
    requires ReadFields(bytes, used, max, before).Ok?
    ensures var r := ReadFields(bytes, used, max, before).value;
      ReadFields(bytes + more, used, max, before) == Ok(Block(r.fields, r.used, r.rest + more))
    decreases |bytes|
  {
    hide ReadLine, TrimEol, ParseField;
    LineThen(bytes, used, max, more);
    var l := ReadLine(bytes, used, max);
    if TrimEol(l.text) != [] {
      FieldsThen(l.rest, used + |l.text|, max, before + [ParseField(TrimEol(l.text)).value], more);
    }
  }

  lemma {:induction false} TrailersThen(bytes: Text, used: nat, max: nat, more: Text)
    requires ReadTrailers(bytes, used, max).Ok?
    ensures ReadTrailers(bytes + more, used, max) == Ok(ReadTrailers(bytes, used, max).value + more)
    decreases |bytes|
  {
    hide ReadLine, TrimEol;
    LineThen(bytes, used, max, more);
    var l := ReadLine(bytes, used, max);
    if TrimEol(l.text) != [] {
      TrailersThen(l.rest, used + |l.text|, max, more);
    }
  }

  lemma CutThen(rest: Text, more: Text, n: nat)
    requires |rest| >= n + 2
    ensures (rest + more)[..n] == rest[..n] && (rest + more)[n..n + 2] == rest[n..n + 2]
    ensures (rest + more)[n + 2..] == rest[n + 2..] + more
  {
  }

  lemma {:induction false} ChunksThen(bytes: Text, used: nat, cfg: Config, before: Text, more: Text)
    requires ReadChunks(bytes, used, cfg, before).Ok?
    ensures var r := ReadChunks(bytes, used, cfg, before).value;
      ReadChunks(bytes + more, used, cfg, before) == Ok(Body(r.data, r.rest + more))
    decreases |bytes|
  {
    hide ReadLine, TrimEol, ChunkSize, ReadTrailers;
    LineThen(bytes, 0, MAX_CHUNK_LINE, more);
    var l := ReadLine(bytes, 0, MAX_CHUNK_LINE);
    var size := ChunkSize(TrimEol(l.text)).value;
    if size == 0 {
      TrailersThen(l.rest, used, cfg.maxHeader, more);
    } else {
      CutThen(l.rest, more, size);
      ChunksThen(l.rest[size + 2..], used, cfg, before + l.rest[..size], more);
    }
  }

  lemma SizedThen(bytes: Text, lens: seq<Text>, cfg: Config, more: Text)
    requires lens != [] && ReadSized(bytes, lens, cfg).Ok?
    ensures var r := ReadSized(bytes, lens, cfg).value;
      ReadSized(bytes + more, lens, cfg) == Ok(Body(r.data, r.rest + more))
  {
    hide ParseUnsigned, TrimBoth;
    var n := ParseUnsigned(TrimBoth(lens[0]), 10, USIZE_LIMIT).value;
    assert (bytes + more)[..n] == bytes[..n] && (bytes + more)[n..] == bytes[n..] + more;
  }

  lemma BodyThen(bytes: Text, fields: seq<Field>, used: nat, cfg: Config, more: Text)
    requires ReadBody(bytes, fields, used, cfg).Ok?
    ensures var r := ReadBody(bytes, fields, used, cfg).value;
      ReadBody(bytes + more, fields, used, cfg) == Ok(Body(r.data, r.rest + more))
  {
    hide ReadChunks, ReadSized, First, GetAll, SameIgnoringCase, TrimBoth;
    if First(fields, "transfer-encoding").Some? {
      ChunksThen(bytes, used, cfg, [], more);
    } else if GetAll(fields, "content-length") != [] {
      SizedThen(bytes, GetAll(fields, "content-length"), cfg, more);
    }
  }

  /** A request that has arrived is read the same whatever follows it, and what follows is left. */
  lemma LaterBytesDoNotMatter(bytes: Text, cfg: Config, more: Text)
    requires ReadRequest(bytes, cfg).Got?
    ensures var r := ReadRequest(bytes, cfg);
      ReadRequest(bytes + more, cfg) == Got(r.request, r.keepAlive, r.rest + more)
  {
    hide SkipBlank, ParseStart, TrimEol, ReadFields, ReadBody, KeepsAlive, UpperAll;
    var o := SkipBlank(bytes, 0, cfg.maxHeader);
    BlankThen(bytes, 0, cfg.maxHeader, more);
    FieldsThen(o.rest, o.used, cfg.maxHeader, [], more);
    var block := ReadFields(o.rest, o.used, cfg.maxHeader, []).value;
    BodyThen(block.rest, block.fields, block.used, cfg, more);
  }
}
