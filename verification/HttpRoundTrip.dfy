/** Keep-alive framing: the connection loop reads back exactly the requests that were written,
    and a request over a limit gets exactly the error that its limit calls for. */
module HttpRoundTrip {
  import opened Bytes
  import opened Utf8
  import opened Numerals
  import opened Trim
  import opened Splitting
  import opened Percent
  import opened HttpHead
  import opened HttpFraming
  import opened HttpWire

  // ==== lines ====

  lemma TrimLine(line: Text)
    ensures TrimEol(line + "\r\n") == line
  {
    var s := line + "\r\n";
    assert s[..|s| - 1] == line + "\r";
    assert (line + "\r")[..|line|] == line;
  }

  lemma LineBack(line: Text, more: Text, used: nat, max: nat)
    requires Lacks(line, '\n')
    ensures ReadLine(EncodeLine(line, more), used, max)
      == if used + |line| + 2 > max then Bad(HEADERS_TOO_LARGE) else Line(line + "\r\n", more)
  {
    hide Find, Lacks;
    var front := line + ['\r'];
    SingleLacks('\r', '\n');
    LacksBoth(line, ['\r'], '\n');
    assert "\r\n" + more == ['\r'] + (['\n'] + more);
    Assoc(line, ['\r'], ['\n'] + more);
    FindIn(front, '\n', more);
    var s := EncodeLine(line, more);
    Assoc(line, "\r\n", more);
    Parts(line + "\r\n", more);
  }

  // ==== the request line ====

  lemma {:induction false} TokenBytes(s: Text, c: Byte)
    requires forall i :: 0 <= i < |s| ==> IsTokenByte(s[i])
    requires !IsTokenByte(c)
    ensures Lacks(s, c) && IsUtf8(s)
  {
    AsciiIsUtf8(s);
  }

  lemma {:induction false} SchemeFound(scheme: Text, after: Text)
    requires AllAlphanumeric(scheme)
    ensures FindWord(scheme + ("://" + after), "://") == Some(|scheme|)
  {
    var s := scheme + ("://" + after);
    if scheme == [] {
      assert s[..3] == "://";
    } else {
      assert s[..3][0] == scheme[0] && "://"[0] == ':';
      assert s[1..] == scheme[1..] + ("://" + after);
      SchemeFound(scheme[1..], after);
    }
  }

  lemma SlashIsLocal(target: Text)
    requires target != [] && target[0] == '/'
    ensures LocalPart(target) == target
  {
    hide FindWord;
    match FindWord(target, "://")
    case None =>
    case Some(i) =>
      assert target[i..i + 3][0] == ':';
      assert target[..i][0] == '/' && !IsAlphanumeric('/');
  }

  lemma AfterScheme(scheme: Text, after: Text)
    ensures (scheme + ("://" + after))[|scheme| + 3..] == after
  {
  }

  lemma SchemeDropped(scheme: Text, after: Text)
    requires AllAlphanumeric(scheme)
    ensures LocalPart(scheme + ("://" + after)) == match Find(after, '/') case Some(j) => after[j..] case None => "/"
  {
    hide FindWord, Find;
    SchemeFound(scheme, after);
    Parts(scheme, "://" + after);
    AfterScheme(scheme, after);
  }

  lemma AuthorityDropped(scheme: Text, authority: Text, local: Text)
    requires AllAlphanumeric(scheme) && Lacks(authority, '/')
    requires local != [] && local[0] == '/'
    ensures LocalPart(scheme + ("://" + (authority + local))) == local
  {
    hide LocalPart, Find, Lacks, AllAlphanumeric;
    SchemeDropped(scheme, authority + local);
    assert local == ['/'] + local[1..];
    FindIn(authority, '/', local[1..]);
    Parts(authority, local);
  }

  lemma QueryBack(path: Text, query: Option<Text>)
    requires Lacks(path, '?')
    ensures SplitQuery(path + QueryText(query)) == (path, QueryValue(query))
  {
    hide Find, Lacks, SplitOnce;
    match query
    case None =>
      NilLeft(path);
      NoneToSplit(path, '?');
    case Some(q) =>
      assert "?" + q == ['?'] + q;
      SplitOnceIn(path, '?', q);
  }

  lemma NoneToSplit(s: Text, c: Byte)
    requires Lacks(s, c)
    ensures SplitOnce(s, c).None?
  {
    hide Find;
  }

  lemma PathBack(path: Text, query: Option<Text>)
    requires IsPath(path)
    ensures PathTarget(path + QueryText(query)) == Ok(Target(path, PercentDecoded(path, false), QueryValue(query)))
    ensures path + QueryText(query) != [] && (path + QueryText(query))[0] == '/'
  {
    hide SplitQuery, PercentDecoded, IsSafePath, Lacks, QueryText;
    QueryBack(path, query);
  }

  lemma RootBack()
    ensures PathTarget("/") == Ok(Target("/", "/", []))
  {
    hide Find, Lossy, Split;
    SingleLacks('/', '?');
    NoneToSplit("/", '?');
    assert Decoded("/", false) == "/" by { assert "/"[1..] == []; }
    AsciiIsUtf8("/");
    SplitIn([], '/', []);
    SplitNone([], '/');
    NilLeft("/");
  }

  /** `parse_target` reads back every form of target. */
  lemma TargetBack(t: WireTarget)
    requires IsTarget(t)
    ensures ParseTarget(TargetText(t)) == Ok(TargetMeaning(t))
  {
    hide PathTarget, LocalPart, IsPath, IsUtf8, Lacks, QueryText, PercentDecoded, AllAlphanumeric;
    match t
    case Asterisk =>
    case Origin(path, query) =>
      PathBack(path, query);
      SlashIsLocal(path + QueryText(query));
    case Absolute(scheme, authority, path, query) =>
      hide Find;
      NotStar(scheme, authority + (path + QueryText(query)));
      if !IsPath(path) {
        QueryNone();
        NilLeft(authority);
        SchemeDropped(scheme, authority);
        RootBack();
      } else {
        PathNotEmpty(path);
        PathBack(path, query);
        AuthorityDropped(scheme, authority, path + QueryText(query));
      }
  }

  lemma PathNotEmpty(path: Text)
    requires IsPath(path)
    ensures path != [] && path[0] == '/'
  {
  }

  lemma QueryNone()
    ensures [] + QueryText(None) == []
  {
  }

  lemma NotStar(scheme: Text, after: Text)
    ensures scheme + ("://" + after) != "*"
  {
    assert |scheme + ("://" + after)| >= 3;
  }

  lemma EmptyPathText(scheme: Text, authority: Text, query: Text)
    ensures TargetText(Absolute(scheme, authority, [], Some(query))) == scheme + ("://" + (authority + ("?" + query)))
  {
    NilLeft("?" + query);
  }

  lemma QueryFound(query: Text)
    ensures Find("?" + query, '/') == match Find(query, '/') case None => None case Some(i) => Some(i + 1)
  {
    hide Find;
    SingleLacks('?', '/');
    FindAfter(['?'], '/', query);
    assert "?" + query == ['?'] + query;
  }

  /** Section 3 of RFC 3986 lets a query follow an empty path, but the text after the authority is
      only searched for a '/'. So the query is dropped, or, from its first '/' on, taken for the
      path and what follows it. */
  lemma EmptyPathTarget(scheme: Text, authority: Text, query: Text)
    requires AllAlphanumeric(scheme) && Lacks(authority, '/')
    ensures ParseTarget(TargetText(Absolute(scheme, authority, [], Some(query)))) ==
      match Find(query, '/') case None => Ok(Target("/", "/", [])) case Some(i) => PathTarget(query[i..])
  {
    hide PathTarget, LocalPart, Lacks, AllAlphanumeric, Find, TargetText;
    var tail := "?" + query;
    EmptyPathText(scheme, authority, query);
    NotStar(scheme, authority + tail);
    SchemeDropped(scheme, authority + tail);
    FindAfter(authority, '/', tail);
    QueryFound(query);
    RootBack();
    if Find(query, '/').Some? {
      var i := Find(query, '/').value;
      SchemeRest(authority, tail, i + 1);
      assert tail[i + 1..] == query[i..];
    }
  }

  /** Such a target keeps its query if and only if the query is empty. */
  lemma EmptyPathLosesQuery(scheme: Text, authority: Text, query: Text)
    requires AllAlphanumeric(scheme) && Lacks(authority, '/')
    ensures ParseTarget(TargetText(Absolute(scheme, authority, [], Some(query)))) == Ok(Target("/", "/", query))
      <==> query == []
  {
    hide PathTarget, ParseTarget, TargetText, Lacks, AllAlphanumeric;
    EmptyPathTarget(scheme, authority, query);
    match Find(query, '/')
    case None =>
    case Some(i) => QueryIsShorter(query[i..]);
  }

  /** The end of such a query is routed as a path: "http://h?x/y" as "/y". */
  lemma QueryBecomesPath(scheme: Text, authority: Text, before: Text, path: Text)
    requires AllAlphanumeric(scheme) && Lacks(authority, '/') && Lacks(before, '/') && IsPath(path)
    ensures ParseTarget(TargetText(Absolute(scheme, authority, [], Some(before + path))))
      == Ok(Target(path, PercentDecoded(path, false), []))
  {
    hide PathTarget, ParseTarget, TargetText, Lacks, AllAlphanumeric, Find, IsPath, PercentDecoded;
    EmptyPathTarget(scheme, authority, before + path);
    PathNotEmpty(path);
    FindIn(before, '/', path[1..]);
    assert path == ['/'] + path[1..];
    Parts(before, path);
    PathBack(path, None);
    NilLeft(path);
  }

  lemma SchemeRest(a: Text, b: Text, j: nat)
    requires j <= |b|
    ensures (a + b)[|a| + j..] == b[j..]
  {
  }

  lemma QueryIsShorter(s: Text)
    ensures PathTarget(s).Ok? ==> |PathTarget(s).value.query| < |s|
  {
    hide Find, PercentDecoded, IsSafePath;
  }

  lemma VersionBack(http11: bool)
    ensures ParseVersion(VersionText(http11)) == Ok(http11)
    ensures Lacks(VersionText(http11), ' ') && Lacks(VersionText(http11), '\n')
    ensures IsUtf8([' '] + VersionText(http11)) && IsUtf8(VersionText(http11))
  {
    hide IsUtf8;
    assert "HTTP/1.1"[7] != "HTTP/1.0"[7];
    AsciiIsUtf8(VersionText(http11));
    AsciiIsUtf8([' '] + VersionText(http11));
  }

  lemma StartIsLine(verb: Text, target: Text, http11: bool)
    requires IsToken(verb) && IsOneLine(target)
    ensures IsOneLine(verb + ([' '] + (target + ([' '] + VersionText(http11)))))
  {
    hide IsUtf8, Lacks, IsTokenByte, VersionText;
    var end := [' '] + VersionText(http11);
    var tail := target + end;
    SpaceIsNone();
    TokenBytes(verb, '\n');
    VersionBack(http11);
    SingleLacks(' ', '\n');
    LacksBoth([' '], VersionText(http11), '\n');
    LacksBoth(target, end, '\n');
    LacksBoth([' '], tail, '\n');
    LacksBoth(verb, [' '] + tail, '\n');
    AsciiIsUtf8([' ']);
    Utf8Concat(target, end);
    Utf8Concat([' '], tail);
    Utf8Concat(verb, [' '] + tail);
  }

  lemma SpaceIsNone()
    ensures !IsTokenByte(' ') && !IsTokenByte('\n') && !IsTokenByte(':') && !IsTokenByte('\t')
  {
  }

  lemma StartSplit(verb: Text, target: Text, version: Text)
    requires Lacks(verb, ' ') && Lacks(target, ' ') && Lacks(version, ' ')
    ensures Split(verb + ([' '] + (target + ([' '] + version))), ' ') == [verb, target, version]
  {
    hide Split, Lacks;
    SplitIn(verb, ' ', target + ([' '] + version));
    SplitIn(target, ' ', version);
    SplitNone(version, ' ');
  }

  lemma TargetNotEmpty(t: WireTarget)
    requires IsTarget(t)
    ensures TargetText(t) != []
  {
    hide IsUtf8, Lacks, QueryText, PercentDecoded, IsSafePath;
  }

  lemma StartBack(w: Wire)
    requires IsToken(w.verb) && IsTarget(w.target)
    ensures ParseStart(StartText(w)) == Ok(Start(w.verb, TargetMeaning(w.target), w.http11))
    ensures Lacks(StartText(w), '\n') && StartText(w) != []
  {
    hide IsUtf8, Lacks, IsTokenByte, Split, ParseVersion, ParseTarget, TargetText, TargetMeaning, VersionText;
    SpaceIsNone();
    TokenBytes(w.verb, ' ');
    VersionBack(w.http11);
    TargetNotEmpty(w.target);
    StartIsLine(w.verb, TargetText(w.target), w.http11);
    StartSplit(w.verb, TargetText(w.target), VersionText(w.http11));
    TargetBack(w.target);
  }

  /** Blank lines are skipped, and a request line that goes over the limit is refused. */
  lemma {:induction false} BlanksBack(n: nat, line: Text, more: Text, used: nat, max: nat)
    requires Lacks(line, '\n') && line != []
    ensures var total := used + 2 * n + |line| + 2;
      SkipBlank(EncodeBlanks(n, EncodeLine(line, more)), used, max) ==
        if total > max then Broken(HEADERS_TOO_LARGE) else Opening(line + "\r\n", total, more)
    decreases n
  {
    hide EncodeLine, ReadLine, TrimEol, Lacks;
    if n == 0 {
      LineBack(line, more, used, max);
      TrimLine(line);
    } else {
      NothingLacks('\n');
      LineBack([], EncodeBlanks(n - 1, EncodeLine(line, more)), used, max);
      TrimLine([]);
      if used + 2 <= max {
        BlanksBack(n - 1, line, more, used + 2, max);
      }
    }
  }

  // ==== fields ====

  lemma FieldBack(f: WireField)
    requires IsToken(f.name) && IsOneLine(f.raw)
    ensures Lacks(FieldText(f), '\n') && FieldText(f) != []
    ensures ParseField(FieldText(f)) == Ok(Field(f.name, TrimBoth(f.raw)))
  {
    hide IsUtf8, Lacks, IsTokenByte, SplitOnce, TrimBoth;
    SpaceIsNone();
    TokenBytes(f.name, ':');
    TokenBytes(f.name, '\n');
    SingleLacks(':', '\n');
    LacksBoth([':'], f.raw, '\n');
    LacksBoth(f.name, [':'] + f.raw, '\n');
    AsciiIsUtf8([':']);
    Utf8Concat([':'], f.raw);
    Utf8Concat(f.name, [':'] + f.raw);
    SplitOnceIn(f.name, ':', f.raw);
    assert FieldText(f)[0] == f.name[0];
  }

  lemma {:induction false} FieldsBack(fields: seq<WireField>, more: Text, used: nat, max: nat, before: seq<Field>)
    requires AreFields(fields)
    ensures var total := used + FieldBytes(fields);
      ReadFields(EncodeFields(fields, more), used, max, before) ==
        if total > max then Err(HEADERS_TOO_LARGE) else Ok(Block(before + FieldsOf(fields), total, more))
    decreases |fields|
  {
    hide EncodeLine, ReadLine, TrimEol, Lacks, IsToken, IsOneLine, FieldText, ParseField, TrimBoth;
    if fields == [] {
      NothingLacks('\n');
      LineBack([], more, used, max);
      TrimLine([]);
      assert before + [] == before;
    } else {
      var line := FieldText(fields[0]);
      FieldBack(fields[0]);
      LineBack(line, EncodeFields(fields[1..], more), used, max);
      TrimLine(line);
      var one := Field(fields[0].name, TrimBoth(fields[0].raw));
      var count := used + |line| + 2;
      if count <= max {
        FieldsBack(fields[1..], more, count, max, before + [one]);
        assert (before + [one]) + FieldsOf(fields[1..]) == before + ([one] + FieldsOf(fields[1..]));
      }
    }
  }

  // ==== bodies ====

  lemma {:induction false} HexDigits(s: Text, radix: int)
    requires (radix == 10 || radix == 16) && DigitsValue(s, radix).Some?
    ensures forall i :: 0 <= i < |s| ==> HexVal(s[i]).Some?
  {
    if s != [] {
      HexDigits(s[..|s| - 1], radix);
    }
  }

  predicate IsVisible(c: Byte) {
    '!' <= c <= '~'
  }

  lemma VisibleIsNoSpace(s: Text)
    requires s != [] && IsVisible(s[0])
    ensures SpaceLen(s) == 0
  {
  }

  /** Visible ASCII text has nothing to trim. */
  lemma VisibleTrimmed(s: Text)
    requires s != [] && forall i :: 0 <= i < |s| ==> IsVisible(s[i])
    ensures TrimBoth(s) == s
  {
    hide IsVisible, SpaceLen, SpaceEndLen;
    VisibleIsNoSpace(s);
    VisibleEnd(s);
  }

  lemma VisibleEnd(s: Text)
    requires s != [] && forall i :: 0 <= i < |s| ==> IsVisible(s[i])
    ensures SpaceEndLen(s) == 0
  {
    hide IsVisible, SpaceLen;
    VisibleIsNoSpace(s[|s| - 1..]);
    if |s| >= 2 {
      VisibleIsNoSpace(s[|s| - 2..]);
    }
    if |s| >= 3 {
      VisibleIsNoSpace(s[|s| - 3..]);
    }
  }

  lemma DigitsTrimmed(s: Text)
    requires s != [] && forall i :: 0 <= i < |s| ==> HexVal(s[i]).Some?
    ensures TrimBoth(s) == s
  {
    VisibleTrimmed(s);
  }

  lemma NumberBack(s: Text, radix: int, n: nat)
    requires (radix == 10 || radix == 16) && s != [] && DigitsValue(s, radix) == Some(n) && n < USIZE_LIMIT
    ensures ParseUnsigned(TrimBoth(s), radix, USIZE_LIMIT) == Some(n)
  {
    hide DigitsValue, TrimBoth;
    HexDigits(s, radix);
    DigitsTrimmed(s);
    assert HexVal(s[0]).Some? && HexVal('+').None?;
  }

  lemma HexLacks(s: Text, c: Byte)
    requires DigitsValue(s, 16).Some? && HexVal(c).None?
    ensures Lacks(s, c) && IsUtf8(s)
  {
    hide DigitsValue, IsUtf8;
    HexDigits(s, 16);
    AsciiIsUtf8(s);
  }

  lemma ChunkSizeBack(c: Chunk)
    requires IsChunk(c)
    ensures ChunkSize(c.size + c.extension) == Some(|c.data|)
    ensures Lacks(c.size + c.extension, '\n')
  {
    hide DigitsValue, IsUtf8, Find, Lacks, TrimBoth, ParseUnsigned;
    HexLacks(c.size, '\n');
    HexLacks(c.size, ';');
    LacksBoth(c.size, c.extension, '\n');
    NumberBack(c.size, 16, |c.data|);
    if c.extension == [] {
      NilLeft(c.size);
    } else {
      assert c.extension == [';'] + c.extension[1..];
      FindIn(c.size, ';', c.extension[1..]);
      Parts(c.size, c.extension);
    }
  }

  lemma {:induction false} TrailersBack(trailers: seq<Text>, more: Text, used: nat, max: nat)
    requires AreTrailers(trailers)
    ensures ReadTrailers(EncodeTrailers(trailers, more), used, max) ==
      if used + TrailerBytes(trailers) > max then Err(HEADERS_TOO_LARGE) else Ok(more)
    decreases |trailers|
  {
    hide EncodeLine, ReadLine, TrimEol, Lacks;
    if trailers == [] {
      NothingLacks('\n');
      LineBack([], more, used, max);
      TrimLine([]);
    } else {
      LineBack(trailers[0], EncodeTrailers(trailers[1..], more), used, max);
      TrimLine(trailers[0]);
      if used + |trailers[0]| + 2 <= max {
        TrailersBack(trailers[1..], more, used + |trailers[0]| + 2, max);
      }
    }
  }

  /** What reading chunks gives after the data in `before`. */
  function ChunksExpected(data: Text, trailers: seq<Text>, more: Text, used: nat, cfg: Config): Result<Body, Fail> {
    if |data| > cfg.maxBody then Err(TOO_LARGE)
    else if used + TrailerBytes(trailers) > cfg.maxHeader then Err(HEADERS_TOO_LARGE)
    else Ok(Body(data, more))
  }

  lemma DataLine(data: Text, more: Text)
    ensures var s := EncodeLine(data, more); var n := |data|;
      |s| >= n + 2 && s[..n] == data && s[n..n + 2] == "\r\n" && s[n + 2..] == more
  {
  }

  lemma {:induction false} ChunksBack(
    chunks: seq<Chunk>, zero: Chunk, trailers: seq<Text>, more: Text, used: nat, cfg: Config, before: Text)
    requires AreChunks(chunks) && IsChunk(zero) && zero.data == [] && AreTrailers(trailers)
    requires |before| <= cfg.maxBody
    ensures ReadChunks(EncodeChunks(chunks, zero, trailers, more), used, cfg, before)
      == ChunksExpected(before + DataOf(chunks), trailers, more, used, cfg)
    decreases |chunks|
  {
    hide EncodeLine, ReadLine, TrimEol, Lacks, IsChunk, ChunkSize, ReadTrailers, EncodeTrailers, AreTrailers;
    hide TrailerBytes;
    var head := if chunks == [] then zero else chunks[0];
    var line := head.size + head.extension;
    ChunkSizeBack(head);
    ChunkLineFits(head);
    TrimLine(line);
    if chunks == [] {
      LineBack(line, EncodeTrailers(trailers, more), 0, MAX_CHUNK_LINE);
      TrailersBack(trailers, more, used, cfg.maxHeader);
      NilLeft(before);
    } else {
      var tail := EncodeChunks(chunks[1..], zero, trailers, more);
      LineBack(line, EncodeLine(head.data, tail), 0, MAX_CHUNK_LINE);
      DataLine(head.data, tail);
      Assoc(before, head.data, DataOf(chunks[1..]));
      if |before| + |head.data| <= cfg.maxBody {
        ChunksBack(chunks[1..], zero, trailers, more, used, cfg, before + head.data);
      }
    }
  }

  lemma ChunkLineFits(c: Chunk)
    requires IsChunk(c)
    ensures |c.size + c.extension| + 2 <= 1024
  {
  }

  function BodyExpected(framing: Framing, more: Text, used: nat, cfg: Config): Result<Body, Fail> {
    if |BodyOf(framing)| > cfg.maxBody then Err(TOO_LARGE)
    else if used + SpareBytes(framing) > cfg.maxHeader then Err(HEADERS_TOO_LARGE)
    else Ok(Body(BodyOf(framing), more))
  }

  lemma SizedBack(body: Text, lens: seq<Text>, more: Text, cfg: Config)
    requires lens != [] && (forall i :: 0 <= i < |lens| ==> lens[i] == lens[0])
    requires lens[0] != [] && DigitsValue(lens[0], 10) == Some(|body|) && |body| < USIZE_LIMIT
    ensures ReadSized(body + more, lens, cfg) == if |body| > cfg.maxBody then Err(TOO_LARGE) else Ok(Body(body, more))
  {
    hide DigitsValue, TrimBoth, ParseUnsigned;
    NumberBack(lens[0], 10, |body|);
    Parts(body, more);
  }

  lemma BodyBack(framing: Framing, fields: seq<Field>, more: Text, used: nat, cfg: Config)
    requires Announced(fields, framing) && used <= cfg.maxHeader
    ensures ReadBody(EncodeBody(framing, more), fields, used, cfg) == BodyExpected(framing, more, used, cfg)
  {
    hide First, GetAll, TrimBoth, SameIgnoringCase, ReadChunks, ReadSized, EncodeChunks;
    hide AreChunks, IsChunk, AreTrailers, DataOf, TrailerBytes, DigitsValue;
    match framing
    case NoBody =>
    case Sized(body) =>
      SizedBack(body, GetAll(fields, "content-length"), more, cfg);
    case Chunked(chunks, zero, trailers) =>
      ChunksBack(chunks, zero, trailers, more, used, cfg, []);
      NilLeft(DataOf(chunks));
  }

  // ==== requests ====

  /** Reading a request gives back its meaning, or exactly the error of the limit it breaks. */
  lemma RequestBack(w: Wire, more: Text, cfg: Config)
    requires IsWire(w)
    ensures ReadRequest(Encode(w, more), cfg) == Expected(w, more, cfg)
  {
    hide SkipBlank, EncodeBlanks, EncodeLine, TrimEol, ParseStart, ReadFields, EncodeFields, ReadBody, EncodeBody;
    hide StartText, Lacks, IsTarget, IsToken, AreFields, Announced, FieldBytes, FieldsOf, BodyOf, TargetMeaning;
    hide KeepsAlive, UpperAll;
    var line := StartText(w);
    var body := EncodeBody(w.framing, more);
    StartBack(w);
    BlanksBack(w.blanks, line, EncodeFields(w.fields, body), 0, cfg.maxHeader);
    TrimLine(line);
    if StartBytes(w) <= cfg.maxHeader {
      FieldsBack(w.fields, body, StartBytes(w), cfg.maxHeader, []);
      assert [] + FieldsOf(w.fields) == FieldsOf(w.fields);
      if HeadBytes(w) <= cfg.maxHeader {
        BodyBack(w.framing, FieldsOf(w.fields), more, HeadBytes(w), cfg);
      }
    }
  }

  /** A well-formed request is read back if and only if it is within the limits. */
  lemma ReadBackExactly(w: Wire, more: Text, cfg: Config)
    requires IsWire(w)
    ensures ReadRequest(Encode(w, more), cfg).Got? <==> WithinLimits(w, cfg)
    ensures WithinLimits(w, cfg) ==> ReadRequest(Encode(w, more), cfg) == Got(Meaning(w), StaysOpen(w), more)
  {
    hide ReadRequest, Encode, IsWire;
    RequestBack(w, more, cfg);
  }

  // ==== connections ====

  predicate Reusable(ws: seq<Wire>, cfg: Config) {
    forall i :: 0 <= i < |ws| ==> IsWire(ws[i]) && WithinLimits(ws[i], cfg) && StaysOpen(ws[i])
  }

  /** Requests that keep the connection are read one after another, and then what follows. */
  lemma {:induction false} ServeBack(ws: seq<Wire>, more: Text, cfg: Config, before: seq<Request>)
    requires Reusable(ws, cfg)
    ensures Serve(EncodeAll(ws, more), cfg, before) == Serve(more, cfg, before + Meanings(ws))
    decreases |ws|
  {
    hide ReadRequest, Encode, IsWire, WithinLimits, StaysOpen, Meaning;
    if ws == [] {
      assert before + [] == before;
    } else {
      ReadBackExactly(ws[0], EncodeAll(ws[1..], more), cfg);
      ServeBack(ws[1..], more, cfg, before + [Meaning(ws[0])]);
      assert (before + [Meaning(ws[0])]) + Meanings(ws[1..]) == before + ([Meaning(ws[0])] + Meanings(ws[1..]));
    }
  }

  lemma NothingToRead(cfg: Config, before: seq<Request>)
    ensures Serve([], cfg, before) == Served(before, PeerClosed)
  {
    hide ParseStart;
    NothingLacks('\n');
  }

  /** Keep-alive framing: the concatenated encodings of requests that keep the connection are read
      back as exactly those requests, and the connection ends because the peer closes it. */
  lemma KeepAliveFraming(ws: seq<Wire>, cfg: Config)
    requires Reusable(ws, cfg)
    ensures Serve(Flatten(Encodings(ws)), cfg, []) == Served(Meanings(ws), PeerClosed)
  {
    hide Serve, EncodeAll, Encodings, Reusable, Flatten;
    EncodeAllConcat(ws, []);
    NilLeft(Flatten(Encodings(ws)));
    ServeBack(ws, [], cfg, []);
    assert [] + Meanings(ws) == Meanings(ws);
    NothingToRead(cfg, Meanings(ws));
  }

  /** The same with a last request that does not keep the connection or breaks a limit: nothing
      after it is ever read as a request. */
  lemma LastRequestEnds(ws: seq<Wire>, last: Wire, more: Text, cfg: Config)
    requires Reusable(ws, cfg) && IsWire(last) && !(WithinLimits(last, cfg) && StaysOpen(last))
    ensures Serve(Flatten(Encodings(ws)) + Encode(last, more), cfg, []) ==
      if WithinLimits(last, cfg) then Served(Meanings(ws) + [Meaning(last)], NotKept)
      else Served(Meanings(ws), Erred(Expected(last, more, cfg).fail))
  {
    hide EncodeAll, Encodings, Reusable, Flatten, ReadRequest, Encode, IsWire, StaysOpen, Meaning, HeadBytes;
    hide SpareBytes, BodyOf;
    EncodeAllConcat(ws, Encode(last, more));
    ServeBack(ws, Encode(last, more), cfg, []);
    assert [] + Meanings(ws) == Meanings(ws);
    RequestBack(last, more, cfg);
  }
}
