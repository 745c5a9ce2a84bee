/** The buffered reader of backend/src/http.rs and the loops that read requests through it. Each
    method is proved equal to its rule in `HttpFraming`, which sees the remaining bytes only, so
    nothing depends on how the bytes were cut into socket reads. */
module HttpReader {
  import opened Bytes
  import opened Utf8
  import opened Numerals
  import opened Trim
  import opened Splitting
  import opened HttpHead
  import opened HttpFraming

  // ==== lines found in pieces ====

  lemma ChunkHolds(chunk: Text, more: Text, c: Byte)
    requires Find(chunk, c).Some?
    ensures Find(chunk + more, c) == Find(chunk, c)
  {
    hide Find, Lacks;
    var i := Find(chunk, c).value;
    CutAt(chunk, i);
    Assoc(chunk[..i], [c] + chunk[i + 1..], more);
    Assoc([c], chunk[i + 1..], more);
    FindIn(chunk[..i], c, chunk[i + 1..] + more);
  }

  lemma LineFound(line: Text, tail: Text, used: nat, max: nat)
    requires Lacks(line, '\n') && Find(tail, '\n').Some?
    ensures var n := Find(tail, '\n').value + 1;
      ReadLine(line + tail, used, max) ==
        if used + |line| + n > max then Bad(HEADERS_TOO_LARGE) else Line(line + tail[..n], tail[n..])
  {
    hide Find, Lacks;
    FindAfter(line, '\n', tail);
    var n := Find(tail, '\n').value + 1;
    assert (line + tail)[..|line| + n] == line + tail[..n];
    assert (line + tail)[|line| + n..] == tail[n..];
  }

  lemma LineTooLong(line: Text, tail: Text, used: nat, max: nat)
    requires Lacks(line, '\n') && line != [] && used + |line| > max
    ensures ReadLine(line + tail, used, max) == Bad(HEADERS_TOO_LARGE)
  {
    hide Find, Lacks;
    FindAfter(line, '\n', tail);
  }

  lemma LineMissing(line: Text, used: nat, max: nat)
    requires Lacks(line, '\n') && (line == [] || used + |line| <= max)
    ensures ReadLine(line, used, max) == if line == [] then Eof else Bad(Close)
  {
    hide Find;
  }

  class Reader {
    /** What the socket's next reads will return; after them, end of file. */
    var incoming: seq<Text>
    var buf: Text
    /** The bytes not yet consumed. */
    ghost var rest: Text

    ghost predicate Valid()
      reads this
    {
      rest == buf + Flatten(incoming) && forall i :: 0 <= i < |incoming| ==> incoming[i] != []
    }

    constructor (incoming: seq<Text>)
      requires forall i :: 0 <= i < |incoming| ==> incoming[i] != []
      ensures Valid() && rest == Flatten(incoming)
    {
      this.incoming := incoming;
      buf := [];
      rest := Flatten(incoming);
      new;
      NilLeft(rest);
    }

    /** `BufRead::fill_buf` */
    method FillBuf() returns (chunk: Text)
      requires Valid()
      modifies `incoming, `buf
      ensures Valid() && chunk == buf && rest == chunk + Flatten(incoming)
      ensures chunk == [] ==> rest == []
    {
      if buf == [] && incoming != [] {
        NilLeft(Flatten(incoming));
        buf := incoming[0];
        incoming := incoming[1..];
      }
      chunk := buf;
    }

    /** `BufRead::consume` */
    method Consume(n: nat)
      requires Valid() && n <= |buf|
      modifies `buf, `rest
      ensures Valid() && rest == old(rest)[n..] && old(rest) == old(buf)[..n] + rest
    {
      buf := buf[n..];
      rest := rest[n..];
    }

    /** `read_line_limited`: the line with its '\n', empty at end of file, and the new count. */
    method ReadLineLimited(used: nat, max: nat) returns (r: Result<Text, Fail>, count: nat)
      requires Valid()
      modifies this
      ensures Valid()
      ensures match ReadLine(old(rest), used, max)
        case Eof => r == Ok([]) && rest == old(rest) && count == used
        case Bad(f) => r == Err(f)
        case Line(text, after) => r == Ok(text) && rest == after && count == used + |text|
    {
      hide Find, Lacks, ReadLine, Flatten;
      var line: Text := [];
      count := used;
      NilLeft(rest);
      assert Lacks([], '\n') by { NothingLacks('\n'); }
      while true
        invariant Valid() && old(rest) == line + rest && Lacks(line, '\n')
        invariant line == [] || used + |line| <= max
        decreases |rest|
      {
        ghost var before := rest;
        var chunk := FillBuf();
        if chunk == [] {
          NilLeft(line);
          LineMissing(line, used, max);
          return if line == [] then Ok([]) else Err(Close), count;
        }
        var found := Find(chunk, '\n');
        var take := match found case Some(i) => i + 1 case None => |chunk|;
        ghost var more := Flatten(incoming);
        if used + |line| + take > max {
          TakeTooLong(line, chunk, more, used, max);
          return Err(HEADERS_TOO_LARGE), count;
        }
        Consume(take);
        if found.Some? {
          TakeLine(line, chunk, more, used, max);
          line := line + chunk[..take];
          return Ok(line), used + |line|;
        }
        LacksBoth(line, chunk, '\n');
        Assoc(line, chunk, rest);
        line := line + chunk[..take];
      }
    }

    /** `read_exact_timed` */
    method ReadExact(n: nat) returns (r: Result<Text, Fail>)
      requires Valid()
      modifies this
      ensures Valid()
      ensures |old(rest)| < n ==> r == Err(Close)
      ensures |old(rest)| >= n ==> r == Ok(old(rest)[..n]) && rest == old(rest)[n..]
    {
      hide Flatten;
      var out: Text := [];
      NilLeft(rest);
      while |out| < n
        invariant Valid() && |out| <= n && old(rest) == out + rest
        decreases n - |out|
      {
        var chunk := FillBuf();
        if chunk == [] {
          NilLeft(out);
          return Err(Close);
        }
        var take := if |chunk| < n - |out| then |chunk| else n - |out|;
        Consume(take);
        Assoc(out, chunk[..take], rest);
        out := out + chunk[..take];
      }
      Parts(out, rest);
      r := Ok(out);
    }

    /** The trailer loop of `read_chunked`. */
    method ReadTrailerLines(used: nat, max: nat) returns (r: Result<(), Fail>)
      requires Valid()
      modifies this
      ensures Valid()
      ensures match ReadTrailers(old(rest), used, max)
        case Err(f) => r == Err(f)
        case Ok(after) => r == Ok(()) && rest == after
    {
      hide ReadLine, Flatten, TrimEol;
      var count := used;
      while true
        invariant Valid() && ReadTrailers(old(rest), used, max) == ReadTrailers(rest, count, max)
        decreases |rest|
      {
        var line, now := ReadLineLimited(count, max);
        if line.Err? {
          return Err(line.error);
        }
        if line.value == [] {
          return Err(Close);
        }
        count := now;
        if TrimEol(line.value) == [] {
          return Ok(());
        }
      }
    }

    /** `read_chunked` */
    method ReadChunked(used: nat, cfg: Config) returns (r: Result<Text, Fail>)
      requires Valid()
      modifies this
      ensures Valid()
      ensures match ReadChunks(old(rest), used, cfg, [])
        case Err(f) => r == Err(f)
        case Ok(body) => r == Ok(body.data) && rest == body.rest
    {
      hide ReadLine, Flatten, TrimEol, ChunkSize, ReadTrailers;
      var out: Text := [];
      while true
        invariant Valid() && ReadChunks(old(rest), used, cfg, []) == ReadChunks(rest, used, cfg, out)
        decreases |rest|
      {
        ghost var before := rest;
        var line, now := ReadLineLimited(0, MAX_CHUNK_LINE);
        if line.Err? {
          return Err(line.error);
        }
        if line.value == [] {
          return Err(Close);
        }
        var size := ChunkSize(TrimEol(line.value));
        if size.None? {
          return Err(BAD_REQUEST);
        }
        if size.value == 0 {
          var ended := ReadTrailerLines(used, cfg.maxHeader);
          return match ended case Ok(_) => Ok(out) case Err(f) => Err(f);
        }
        if size.value > cfg.maxBody || |out| + size.value > cfg.maxBody {
          return Err(TOO_LARGE);
        }
        ghost var after := rest;
        var data := ReadExact(size.value);
        if data.Err? {
          return Err(data.error);
        }
        var crlf := ReadExact(2);
        if crlf.Err? {
          return Err(crlf.error);
        }
        DataThenEnd(after, size.value);
        if crlf.value != "\r\n" {
          return Err(BAD_REQUEST);
        }
        out := out + data.value;
      }
    }

    /** `read_body` */
    method ReadRequestBody(fields: seq<Field>, used: nat, cfg: Config) returns (r: Result<Text, Fail>)
      requires Valid()
      modifies this
      ensures Valid()
      ensures match ReadBody(old(rest), fields, used, cfg)
        case Err(f) => r == Err(f)
        case Ok(body) => r == Ok(body.data) && rest == body.rest
    {
      hide ReadChunks, First, GetAll, TrimBoth, SameIgnoringCase, ParseUnsigned, Flatten;
      var coding := First(fields, "transfer-encoding");
      var lens := GetAll(fields, "content-length");
      if coding.Some? && lens != [] {
        return Err(BAD_REQUEST);
      }
      if coding.Some? {
        if !SameIgnoringCase(TrimBoth(coding.value), "chunked") {
          return Err(Status(501));
        }
        r := ReadChunked(used, cfg);
        return;
      }
      if lens == [] {
        return Ok([]);
      }
      if exists i :: 0 <= i < |lens| && lens[i] != lens[0] {
        return Err(BAD_REQUEST);
      }
      var len := ParseUnsigned(TrimBoth(lens[0]), 10, USIZE_LIMIT);
      if len.None? {
        return Err(BAD_REQUEST);
      }
      if len.value > cfg.maxBody {
        return Err(TOO_LARGE);
      }
      r := ReadExact(len.value);
    }

    /** The header loop of `read_request`. */
    method ReadHeaderBlock(used: nat, cfg: Config) returns (r: Result<seq<Field>, Fail>, count: nat)
      requires Valid()
      modifies this
      ensures Valid()
      ensures match ReadFields(old(rest), used, cfg.maxHeader, [])
        case Err(f) => r == Err(f)
        case Ok(block) => r == Ok(block.fields) && count == block.used && rest == block.rest
    {
      hide ReadLine, Flatten, TrimEol, ParseField;
      var fields: seq<Field> := [];
      count := used;
      while true
        invariant Valid()
        invariant ReadFields(old(rest), used, cfg.maxHeader, []) == ReadFields(rest, count, cfg.maxHeader, fields)
        decreases |rest|
      {
        var line, now := ReadLineLimited(count, cfg.maxHeader);
        if line.Err? {
          return Err(line.error), count;
        }
        if line.value == [] {
          return Err(Close), count;
        }
        count := now;
        var raw := TrimEol(line.value);
        if raw == [] {
          return Ok(fields), count;
        }
        var field := ParseField(raw);
        if field.Err? {
          return Err(field.error), count;
        }
        fields := fields + [field.value];
      }
    }

    /** The blank-line loop of `read_request`: the request line, None when the peer closed. */
    method ReadRequestLine(cfg: Config) returns (r: Result<Option<Text>, Fail>, count: nat)
      requires Valid()
      modifies this
      ensures Valid()
      ensures match SkipBlank(old(rest), 0, cfg.maxHeader)
        case NoMore => r == Ok(None)
        case Broken(f) => r == Err(f)
        case Opening(line, used, after) => r == Ok(Some(line)) && count == used && rest == after
    {
      hide ReadLine, Flatten, TrimEol;
      count := 0;
      while true
        invariant Valid() && SkipBlank(old(rest), 0, cfg.maxHeader) == SkipBlank(rest, count, cfg.maxHeader)
        decreases |rest|
      {
        var line, now := ReadLineLimited(count, cfg.maxHeader);
        if line.Err? {
          return Err(line.error), count;
        }
        if line.value == [] {
          return Ok(None), count;
        }
        count := now;
        if TrimEol(line.value) != [] {
          return Ok(Some(line.value)), count;
        }
      }
    }

    /** `read_request`: the request and whether it keeps the connection, None when the peer closed. */
    method ReadOne(cfg: Config) returns (r: Result<Option<(Request, bool)>, Fail>)
      requires Valid()
      modifies this
      ensures Valid()
      ensures match ReadRequest(old(rest), cfg)
        case Done => r == Ok(None)
        case Failed(f) => r == Err(f)
        case Got(request, keepAlive, after) => r == Ok(Some((request, keepAlive))) && rest == after
    {
      hide SkipBlank, ReadFields, ReadBody, TrimEol, ParseStart, KeepsAlive, Flatten, UpperAll;
      var line, used := ReadRequestLine(cfg);
      if line.Err? {
        return Err(line.error);
      }
      if line.value.None? {
        return Ok(None);
      }
      var start := ParseStart(TrimEol(line.value.value));
      if start.Err? {
        return Err(start.error);
      }
      var fields, count := ReadHeaderBlock(used, cfg);
      if fields.Err? {
        return Err(fields.error);
      }
      var keepAlive := KeepsAlive(fields.value, start.value.http11);
      var body := ReadRequestBody(fields.value, count, cfg);
      if body.Err? {
        return Err(body.error);
      }
      var t := start.value.target;
      var request := Request(UpperAll(start.value.verb), t.path, t.rawPath, t.query, fields.value, body.value);
      r := Ok(Some((request, keepAlive)));
    }
  }

  /** `handle_connection`: what the handler is given, in order, and why the connection ends. The
      answer is a function of the bytes alone, however the socket reads cut them. */
  method HandleConnection(incoming: seq<Text>, cfg: Config) returns (served: Served)
    requires forall i :: 0 <= i < |incoming| ==> incoming[i] != []
    ensures served == Serve(Flatten(incoming), cfg, [])
  {
    hide ReadRequest, Flatten;
    var reader := new Reader(incoming);
    var requests: seq<Request> := [];
    while true
      invariant reader.Valid() && fresh(reader)
      invariant Serve(Flatten(incoming), cfg, []) == Serve(reader.rest, cfg, requests)
      decreases |reader.rest|
    {
      var next := reader.ReadOne(cfg);
      match next {
        case Err(f) => return Served(requests, Erred(f));
        case Ok(None) => return Served(requests, PeerClosed);
        case Ok(Some(got)) =>
          requests := requests + [got.0];
          if !got.1 {
            return Served(requests, NotKept);
          }
      }
    }
  }

  lemma TakeTooLong(line: Text, chunk: Text, more: Text, used: nat, max: nat)
    requires Lacks(line, '\n') && chunk != []
    requires used + |line| + (match Find(chunk, '\n') case Some(i) => i + 1 case None => |chunk|) > max
    ensures ReadLine(line + (chunk + more), used, max) == Bad(HEADERS_TOO_LARGE)
  {
    hide Find, Lacks, ReadLine;
    if Find(chunk, '\n').Some? {
      ChunkHolds(chunk, more, '\n');
      LineFound(line, chunk + more, used, max);
    } else {
      LacksBoth(line, chunk, '\n');
      Assoc(line, chunk, more);
      LineTooLong(line + chunk, more, used, max);
    }
  }

  lemma TakeLine(line: Text, chunk: Text, more: Text, used: nat, max: nat)
    requires Lacks(line, '\n') && Find(chunk, '\n').Some?
    requires used + |line| + Find(chunk, '\n').value + 1 <= max
    ensures var n := Find(chunk, '\n').value + 1;
      ReadLine(line + (chunk + more), used, max) == Line(line + chunk[..n], (chunk + more)[n..])
  {
    hide Find, Lacks, ReadLine;
    var n := Find(chunk, '\n').value + 1;
    ChunkHolds(chunk, more, '\n');
    LineFound(line, chunk + more, used, max);
    assert (chunk + more)[..n] == chunk[..n];
  }

  /** Reading `n` bytes and then two is cutting at `n` and `n + 2`. */
  lemma DataThenEnd(bytes: Text, n: nat)
    requires n + 2 <= |bytes|
    ensures bytes[n..][..2] == bytes[n..n + 2] && bytes[n..][2..] == bytes[n + 2..]
  {
  }
}
