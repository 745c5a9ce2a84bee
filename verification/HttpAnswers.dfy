/** Which bad requests are answered, and with which status: the exact conditions on the request line, the
    field lines and the bodies, stated on the bytes and with the tables of RFC 7230. */
module HttpAnswers {
  import opened Alphabet
  import opened Bytes
  import opened Utf8
  import opened Numerals
  import opened Trim
  import opened Splitting
  import opened HttpHead
  import opened HttpFraming

  // ==== tokens ====

  /** Letters and digits, and with the signs the token characters of section 3.2.6. */
  lemma TokensExactly(c: Byte)
    ensures IsAlphanumeric(c) <==> c in CAPITALS || c in SMALL || c in DIGITS
    ensures IsTokenByte(c) <==> IsAlphanumeric(c) || c in "!#$%&'*+-.^_`|~"
  {
    hide CAPITALS, SMALL, DIGITS;
    CapitalsExactly(c);
    SmallExactly(c);
    DigitsExactly(c);
  }

  // ==== the request line ====

  /** Three pieces between two single spaces. */
  predicate IsThree(line: Text, verb: Text, target: Text, version: Text) {
    && line == verb + ([' '] + (target + ([' '] + version)))
    && Lacks(verb, ' ') && Lacks(target, ' ') && Lacks(version, ' ')
  }

  predicate HasStart(line: Text, verb: Text, target: Text, version: Text) {
    IsUtf8(line) && IsThree(line, verb, target, version) && IsToken(verb) && target != []
  }

  lemma ThreePieces(line: Text, verb: Text, target: Text, version: Text)
    requires IsThree(line, verb, target, version)
    ensures Split(line, ' ') == [verb, target, version]
  {
    hide Split, Lacks;
    SplitIn(verb, ' ', target + ([' '] + version));
    SplitIn(target, ' ', version);
    SplitNone(version, ' ');
  }

  lemma PiecesAreThree(line: Text)
    requires |Split(line, ' ')| == 3
    ensures var parts := Split(line, ' '); IsThree(line, parts[0], parts[1], parts[2])
  {
    hide Split, Lacks;
    var rest := SplitHead(line, ' ');
    var last := SplitHead(rest, ' ');
    SplitAlone(last, ' ');
  }

  /** A request line that is one gives its version and then its target a say; an unknown version is
      answered 505 before a bad target 400. */
  lemma StartExactly(line: Text, verb: Text, target: Text, version: Text)
    requires HasStart(line, verb, target, version)
    ensures ParseStart(line) ==
      if version != "HTTP/1.1" && version != "HTTP/1.0" then Err(Status(505))
      else match ParseTarget(target)
        case Ok(t) => Ok(Start(verb, t, version == "HTTP/1.1"))
        case Err(_) => Err(Status(400))
  {
    hide Split, ParseTarget, IsToken, IsUtf8, Lacks;
    ThreePieces(line, verb, target, version);
    TokenIsSome(verb);
    TargetFails(target);
  }

  lemma TokenIsSome(verb: Text)
    requires IsToken(verb)
    ensures verb != []
  {
  }

  lemma TargetFails(target: Text)
    ensures ParseTarget(target).Err? ==> ParseTarget(target) == Err(Status(400))
  {
  }

  /** Any other line is answered 400. */
  lemma NoStart(line: Text)
    requires forall verb, target, version :: !HasStart(line, verb, target, version)
    ensures ParseStart(line) == Err(Status(400))
  {
    hide Split, ParseTarget, IsToken, IsUtf8, Lacks, IsThree;
    var parts := Split(line, ' ');
    if |parts| == 3 {
      PiecesAreThree(line);
      assert !HasStart(line, parts[0], parts[1], parts[2]);
    }
  }

  /** The text before, the dots and the text after are whole segments. */
  predicate IsDots(path: Text, before: Text, after: Text) {
    && path == before + (".." + after)
    && (before == [] || before[|before| - 1] == '/') && (after == [] || after[0] == '/')
  }

  lemma {:induction false} PieceIsDots(path: Text, i: nat) returns (before: Text, after: Text)
    requires i < |Split(path, '/')| && Split(path, '/')[i] == ".."
    ensures IsDots(path, before, after)
    decreases |path|
  {
    hide Split, Lacks, IsDots;
    if |Split(path, '/')| == 1 {
      SplitAlone(path, '/');
      before, after := [], [];
      FirstDots([]);
      assert path == ".." + [];
    } else {
      var first := Split(path, '/')[0];
      var rest := SplitHead(path, '/');
      if i == 0 {
        before, after := [], ['/'] + rest;
        FirstDots(['/'] + rest);
      } else {
        before, after := PieceIsDots(rest, i - 1);
        LaterDots(first, rest, before, after);
        before := first + (['/'] + before);
      }
    }
  }

  lemma FirstDots(after: Text)
    requires after == [] || after[0] == '/'
    ensures IsDots(".." + after, [], after)
  {
    NilLeft(".." + after);
  }

  lemma LaterDots(first: Text, rest: Text, before: Text, after: Text)
    requires IsDots(rest, before, after)
    ensures IsDots(first + (['/'] + rest), first + (['/'] + before), after)
  {
    Assoc(['/'], before, ".." + after);
    Assoc(first, ['/'] + before, ".." + after);
  }

  lemma FirstPiece(after: Text)
    requires after == [] || after[0] == '/'
    ensures Split(".." + after, '/')[0] == ".."
  {
    hide Split, Find;
    assert Lacks("..", '/');
    if after == [] {
      SplitNone("..", '/');
      assert ".." + after == "..";
    } else {
      assert after == ['/'] + after[1..];
      SplitIn("..", '/', after[1..]);
    }
  }

  lemma FirstSlash(before: Text) returns (first: Text, more: Text)
    requires before != [] && before[|before| - 1] == '/'
    ensures before == first + (['/'] + more) && Lacks(first, '/') && |more| < |before|
    ensures more == [] || more[|more| - 1] == '/'
  {
    SlashIn(before);
    hide Find, Lacks;
    var k := Find(before, '/').value;
    CutAt(before, k);
    first, more := before[..k], before[k + 1..];
  }

  /** What remains of the text before the dots after its first segment. */
  lemma NextSegment(path: Text, before: Text, after: Text) returns (first: Text, more: Text)
    requires IsDots(path, before, after) && before != []
    ensures Lacks(first, '/') && |more| < |before|
    ensures path == first + (['/'] + (more + (".." + after))) && IsDots(more + (".." + after), more, after)
  {
    hide Lacks;
    first, more := FirstSlash(before);
    Assoc(['/'], more, ".." + after);
    Assoc(first, ['/'] + more, ".." + after);
  }

  lemma {:induction false} DotsArePiece(path: Text, before: Text, after: Text)
    requires IsDots(path, before, after)
    ensures ".." in Split(path, '/')
    decreases |before|
  {
    hide Split, Lacks, Find;
    if before == [] {
      NilLeft(".." + after);
      FirstPiece(after);
    } else {
      hide IsDots;
      var first, more := NextSegment(path, before, after);
      SplitIn(first, '/', more + (".." + after));
      DotsArePiece(more + (".." + after), more, after);
    }
  }

  lemma SlashIn(s: Text)
    requires s != [] && s[|s| - 1] == '/'
    ensures Find(s, '/').Some?
  {
    assert s[|s| - 1] == '/' && !Lacks(s, '/');
  }

  /** A safe path has no NUL, and no two dots that are a segment of their own. */
  lemma SafeExactly(path: Text)
    ensures IsSafePath(path) <==> '\0' !in path && forall before, after :: !IsDots(path, before, after)
  {
    hide Split, IsDots;
    var pieces := Split(path, '/');
    if ".." in pieces {
      var i :| 0 <= i < |pieces| && pieces[i] == "..";
      var before, after := PieceIsDots(path, i);
    }
    forall before, after | IsDots(path, before, after)
      ensures ".." in pieces
    {
      DotsArePiece(path, before, after);
    }
  }

  // ==== field lines ====

  predicate IsField(line: Text, name: Text, raw: Text) {
    line == name + ([':'] + raw) && IsToken(name)
  }

  /** A field line is a token, a colon and a value, which is trimmed; every other line is answered
      400, one that begins with white space too. */
  lemma FieldExactly(line: Text, field: Field)
    requires line != []
    ensures ParseField(line) == Ok(field) <==>
      IsUtf8(line) && exists raw :: IsField(line, field.name, raw) && field.value == TrimBoth(raw)
    ensures ParseField(line).Err? ==> ParseField(line) == Err(Status(400))
  {
    hide IsUtf8, TrimBoth, Find, IsToken;
    if ParseField(line) == Ok(field) {
      var i := Find(line, ':').value;
      CutAt(line, i);
      assert IsField(line, field.name, line[i + 1..]);
    }
    if IsUtf8(line) && exists raw :: IsField(line, field.name, raw) && field.value == TrimBoth(raw) {
      var raw :| IsField(line, field.name, raw) && field.value == TrimBoth(raw);
      TokenLacksColon(field.name);
      SplitOnceIn(field.name, ':', raw);
      assert line[0] == field.name[0];
    }
  }

  lemma TokenLacksColon(name: Text)
    requires IsToken(name)
    ensures name != [] && Lacks(name, ':') && name[0] != ' ' && name[0] != '\t'
  {
    assert IsTokenByte(name[0]);
  }

  // ==== lines ====

  /** A line end is a line feed with or without a carriage return before it. */
  lemma EolExactly(line: Text)
    ensures TrimEol(line + "\r\n") == line
    ensures line == [] || line[|line| - 1] != '\r' ==> TrimEol(line + "\n") == line
    ensures line == [] || (line[|line| - 1] != '\r' && line[|line| - 1] != '\n') ==> TrimEol(line) == line
  {
    hide TrimEol;
    assert line + "\r\n" == (line + "\r") + "\n";
    FeedIsCut(line + "\r");
    FeedIsCut(line);
    ReturnIsCut(line);
    PlainIsKept(line);
  }

  function CutReturn(s: Text): Text {
    if s != [] && s[|s| - 1] == '\r' then s[..|s| - 1] else s
  }

  lemma FeedIsCut(s: Text)
    ensures TrimEol(s + "\n") == CutReturn(s)
  {
    assert (s + "\n")[..|s|] == s;
  }

  lemma ReturnIsCut(s: Text)
    ensures CutReturn(s + "\r") == s
  {
    assert (s + "\r")[..|s|] == s;
  }

  lemma PlainIsKept(s: Text)
    ensures s == [] || (s[|s| - 1] != '\r' && s[|s| - 1] != '\n') ==> TrimEol(s) == s
  {
  }

  /** A line that does not end within the limit is answered 431, once the limit is passed; one that just
      stops is closed without an answer. */
  lemma LineExactly(bytes: Text, used: nat, max: nat)
    ensures ReadLine(bytes, used, max) == Bad(Status(431)) <==>
      used + |bytes| > max && (used >= max || Lacks(bytes[..max - used], '\n')) && bytes != []
    ensures ReadLine(bytes, used, max) == Bad(Close) <==> bytes != [] && used + |bytes| <= max && Lacks(bytes, '\n')
    ensures ReadLine(bytes, used, max) == Eof <==> bytes == []
  {
    hide Find;
    match Find(bytes, '\n')
    case Some(i) =>
      assert used + |bytes| > max && used < max && i < max - used ==> bytes[..max - used][i] == '\n';
    case None =>
  }

  // ==== bodies ====

  /** A body that is not read: two ways of framing, or lengths that differ or are none, are answered 400, an
      unknown coding 501, too long a body 413, and one that stops is closed without an answer. */
  lemma BodyExactly(bytes: Text, fields: seq<Field>, used: nat, cfg: Config)
    ensures var codings, lens := GetAll(fields, "transfer-encoding"), GetAll(fields, "content-length");
      ReadBody(bytes, fields, used, cfg) ==
      if codings != [] then
        if lens != [] then Err(Status(400))
        else if SameIgnoringCase(TrimBoth(codings[0]), "chunked") then ReadChunks(bytes, used, cfg, [])
        else Err(Status(501))
      else if lens == [] then Ok(Body([], bytes))
      else if exists i, j :: 0 <= i < |lens| && 0 <= j < |lens| && lens[i] != lens[j] then Err(Status(400))
      else match ParseUnsigned(TrimBoth(lens[0]), 10, 0x1_0000_0000_0000_0000)
        case None => Err(Status(400))
        case Some(n) =>
          if n > cfg.maxBody then Err(Status(413))
          else if |bytes| < n then Err(Close)
          else Ok(Body(bytes[..n], bytes[n..]))
  {
    hide GetAll, First, ReadChunks, TrimBoth, ParseUnsigned, SameIgnoringCase;
    FirstOfAll(fields, "transfer-encoding");
  }

  /** A chunk line has up to 1024 bytes with its end. */
  lemma LongChunkLine(bytes: Text, used: nat, cfg: Config, before: Text)
    ensures |bytes| > 1024 && Lacks(bytes[..1024], '\n') ==> ReadChunks(bytes, used, cfg, before) == Err(Status(431))
    ensures |bytes| <= 1024 && Lacks(bytes, '\n') ==> ReadChunks(bytes, used, cfg, before) == Err(Close)
  {
    hide ReadLine, ChunkSize, ReadTrailers, Lacks;
    LineExactly(bytes, 0, 1024);
  }

  /** What follows a chunk line that is not the last: its data and a line end. */
  lemma ChunkExactly(line: Text, rest: Text, used: nat, cfg: Config, before: Text)
    requires Lacks(line, '\n') && |line| < 1024 && !(ChunkSize(TrimEol(line + "\n")) == Some(0))
    ensures ReadChunks(line + (['\n'] + rest), used, cfg, before) ==
      match ChunkSize(TrimEol(line + "\n"))
      case None => Err(Status(400))
      case Some(size) =>
        if |before| + size > cfg.maxBody then Err(Status(413))
        else if |rest| < size + 2 then Err(Close)
        else if rest[size] != '\r' || rest[size + 1] != '\n' then Err(Status(400))
        else ReadChunks(rest[size + 2..], used, cfg, before + rest[..size])
  {
    hide ChunkSize, TrimEol, ReadTrailers, ReadLine, Lacks;
    ChunkLine(line, rest);
    match ChunkSize(TrimEol(line + "\n"))
    case None =>
    case Some(size) =>
      if |rest| >= size + 2 {
        IsCrlf(rest, size);
      }
  }

  lemma ChunkLine(line: Text, rest: Text)
    requires Lacks(line, '\n') && |line| < 1024
    ensures ReadLine(line + (['\n'] + rest), 0, 1024) == Line(line + "\n", rest)
  {
    hide Find, Lacks;
    FindIn(line, '\n', rest);
    Assoc(line, ['\n'], rest);
    var bytes := (line + ['\n']) + rest;
    assert bytes[..|line| + 1] == line + ['\n'] && bytes[|line| + 1..] == rest;
  }

  lemma IsCrlf(s: Text, i: nat)
    requires i + 2 <= |s|
    ensures s[i..i + 2] == "\r\n" <==> s[i] == '\r' && s[i + 1] == '\n'
  {
    assert s[i..i + 2] == [s[i], s[i + 1]];
  }
}
