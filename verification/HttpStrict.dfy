/** When a request that is read is framed as sections 3.3.3 and 4.1 of RFC 7230 require. The reader
    is more lenient than the standard, and this says exactly where. The standard is stated on the
    field values as they were sent. Line folds occur in trailers only, where white space before a
    fold is allowed, as RFC 9112 writes the rule. */
module HttpStrict {
  import opened Bytes
  import opened Utf8
  import opened Numerals
  import opened Trim
  import opened Splitting
  import opened HttpHead
  import opened HttpFraming
  import opened HttpWire
  import opened HttpRoundTrip
  import opened HttpSyntax

  // ==== the standard ====

  ghost predicate IsStandardChunk(c: Chunk) {
    c.size != [] && DigitsValue(c.size, 16) == Some(|c.data|) && IsDerivedExtension(c.extension)
  }

  /** `chunk`s, `last-chunk` and `trailer-part`. */
  ghost predicate AreStandard(chunks: seq<Chunk>, zero: Chunk, trailers: seq<Text>) {
    && (forall i :: 0 <= i < |chunks| ==> IsStandardChunk(chunks[i]) && chunks[i].data != [])
    && IsStandardChunk(zero) && zero.data == [] && AreFieldLines(trailers, false)
  }

  ghost predicate ChunkedAs(
    chunks: seq<Chunk>, zero: Chunk, trailers: seq<Text>, bytes: Text, data: Text, rest: Text) {
    && AreStandard(chunks, zero, trailers)
    && bytes == EncodeChunks(chunks, zero, trailers, rest) && data == DataOf(chunks)
  }

  /** `bytes` are a `chunked-body` for `data`, and then `rest`. */
  ghost predicate IsChunked(bytes: Text, data: Text, rest: Text) {
    exists chunks, zero, trailers :: ChunkedAs(chunks, zero, trailers, bytes, data, rest)
  }

  /** `Content-Length` for `n` bytes. */
  predicate IsLength(value: Text, n: nat) {
    TrimOws(value) != [] && DigitsValue(TrimOws(value), 10) == Some(n)
  }

  /** All transfer codings are one, chunked. Others are not known to this server, none may follow
      chunked, and chunked may not be applied twice. */
  predicate IsChunkedOnly(values: seq<Text>)
    requires values != []
  {
    var codings := Elements(Combined(values));
    |codings| == 1 && SameIgnoringCase(codings[0], "chunked")
  }

  /** Of the fields `raw`, whose values are all that follows the colon, the body is `body` and then
      comes `rest`. */
  ghost predicate IsStrict(raw: seq<Field>, bytes: Text, body: Text, rest: Text) {
    var codings, lens := GetAll(raw, "transfer-encoding"), GetAll(raw, "content-length");
    if codings != [] then lens == [] && IsChunkedOnly(codings) && IsChunked(bytes, body, rest)
    else if lens == [] then body == [] && bytes == rest
    else bytes == body + rest && forall i :: 0 <= i < |lens| ==> IsLength(lens[i], |body|)
  }

  // ==== where the reader is lenient ====

  /** A number without what `trim` and `parse` let pass around the digits. */
  predicate IsBare(s: Text) {
    TrimBoth(s) == s && s != [] && s[0] != '+'
  }

  function NextLine(bytes: Text): Option<(Text, Text)> {
    match Find(bytes, '\n')
    case None => None
    case Some(i) => Some((bytes[..i + 1], bytes[i + 1..]))
  }

  /** A line that ends in CRLF and not in a bare LF. */
  predicate EndsInCrLf(line: Text) {
    |line| >= 2 && line[|line| - 2..] == "\r\n"
  }

  /** The lines up to the empty one end in CRLF and are those of header fields. */
  predicate AreBareTrailers(bytes: Text, folds: bool)
    decreases |bytes|
  {
    match NextLine(bytes)
    case None => false
    case Some(l) =>
      var line := TrimEol(l.0);
      && EndsInCrLf(l.0)
      && (line == [] || ((IsFieldLine(line) || (folds && IsFoldLine(line))) && AreBareTrailers(l.1, true)))
  }

  function SizeText(head: Text): Text {
    match Find(head, ';') case Some(i) => head[..i] case None => head
  }

  function ExtensionText(head: Text): Text {
    match Find(head, ';') case Some(i) => head[i..] case None => []
  }

  /** Every size is bare, every extension is one, every line ends in CRLF, and trailers are fields. */
  predicate AreBareChunks(bytes: Text)
    decreases |bytes|
  {
    match NextLine(bytes)
    case None => false
    case Some(l) =>
      && EndsInCrLf(l.0) && IsBare(SizeText(TrimEol(l.0))) && IsExtensionText(ExtensionText(TrimEol(l.0)))
      && match ChunkSize(TrimEol(l.0))
         case None => false
         case Some(size) =>
           if size == 0 then AreBareTrailers(l.1, false) else |l.1| >= size + 2 && AreBareChunks(l.1[size + 2..])
  }

  /** A length without a sign, and around it only white space that the standard knows. */
  predicate IsBareLength(value: Text) {
    TrimBoth(value) == TrimOws(value) && (TrimOws(value) == [] || TrimOws(value)[0] != '+')
  }

  /** The first value has only such white space around it, and the others have no element. */
  predicate AreBareCodings(values: seq<Text>)
    requires values != []
  {
    TrimBoth(values[0]) == TrimOws(values[0]) && forall i :: 1 <= i < |values| ==> IsBlankList(values[i])
  }

  /** What the reader does not ask, and the standard does. */
  predicate IsPlain(raw: seq<Field>, bytes: Text) {
    var codings, lens := GetAll(raw, "transfer-encoding"), GetAll(raw, "content-length");
    && (codings != [] ==> AreBareCodings(codings) && AreBareChunks(bytes))
    && forall i :: 0 <= i < |lens| ==> IsBareLength(lens[i])
  }

  // ==== lines and numbers ====

  lemma LineIsNext(bytes: Text, used: nat, max: nat)
    requires ReadLine(bytes, used, max).Line?
    ensures var l := ReadLine(bytes, used, max);
      && NextLine(bytes) == Some((l.text, l.rest)) && bytes == l.text + l.rest
      && l.text != [] && l.text[|l.text| - 1] == '\n' && Lacks(l.text[..|l.text| - 1], '\n')
  {
    hide Find, Lacks;
    var i := Find(bytes, '\n').value;
    assert bytes[..i + 1][..i] == bytes[..i];
  }

  lemma EncodedIsNext(line: Text, more: Text)
    requires Lacks(line, '\n')
    ensures NextLine(EncodeLine(line, more)) == Some((line + "\r\n", more))
    ensures EndsInCrLf(line + "\r\n") && TrimEol(line + "\r\n") == line
  {
    hide Find, Lacks;
    LineBack(line, more, 0, |line| + 2);
    LineIsNext(EncodeLine(line, more), 0, |line| + 2);
    TrimLine(line);
  }

  /** A line that ends in CRLF is its trimming and that. */
  lemma CrLfLine(text: Text)
    requires EndsInCrLf(text)
    ensures text == TrimEol(text) + "\r\n"
  {
    assert text == text[..|text| - 2] + text[|text| - 2..];
    TrimLine(text[..|text| - 2]);
  }

  lemma LineEncodes(bytes: Text, used: nat, max: nat)
    requires ReadLine(bytes, used, max).Line? && EndsInCrLf(ReadLine(bytes, used, max).text)
    ensures var l := ReadLine(bytes, used, max);
      bytes == EncodeLine(TrimEol(l.text), l.rest) && Lacks(TrimEol(l.text), '\n')
  {
    hide ReadLine, TrimEol, EndsInCrLf;
    var l := ReadLine(bytes, used, max);
    LineIsNext(bytes, used, max);
    CrLfLine(l.text);
    Assoc(TrimEol(l.text), "\r\n", l.rest);
    assert l.text[..|TrimEol(l.text)|] == TrimEol(l.text);
    assert TrimEol(l.text) == l.text[..|l.text| - 1][..|TrimEol(l.text)|];
  }

  /** Of the numbers that are parsed, the bare ones are exactly those of digits only. */
  lemma BareIsDigits(s: Text, radix: int, v: nat)
    requires (radix == 10 || radix == 16) && ParseUnsigned(TrimBoth(s), radix, USIZE_LIMIT) == Some(v)
    ensures IsBare(s) <==> s != [] && DigitsValue(s, radix).Some?
    ensures IsBare(s) ==> DigitsValue(s, radix) == Some(v)
  {
    hide DigitsValue, TrimBoth;
    if s != [] && DigitsValue(s, radix).Some? {
      HexDigits(s, radix);
      DigitsTrimmed(s);
      assert HexVal('+').None?;
    }
  }

  // ==== chunked bodies ====

  lemma {:induction false} BareTrailersParse(bytes: Text, used: nat, max: nat, folds: bool)
    returns (trailers: seq<Text>)
    requires ReadTrailers(bytes, used, max).Ok? && AreBareTrailers(bytes, folds)
    ensures AreFieldLines(trailers, folds)
    ensures bytes == EncodeTrailers(trailers, ReadTrailers(bytes, used, max).value)
    decreases |bytes|
  {
    hide ReadLine, TrimEol, Lacks, NextLine, EndsInCrLf, EncodeLine, IsFieldLine, IsFoldLine;
    var l := ReadLine(bytes, used, max);
    LineIsNext(bytes, used, max);
    LineEncodes(bytes, used, max);
    if TrimEol(l.text) == [] {
      trailers := [];
    } else {
      var more := BareTrailersParse(l.rest, used + |l.text|, max, true);
      trailers := [TrimEol(l.text)] + more;
      assert trailers[1..] == more;
    }
  }

  lemma {:induction false} FieldLinesAreTrailers(lines: seq<Text>, folds: bool)
    requires AreFieldLines(lines, folds)
    ensures AreTrailers(lines)
  {
    hide IsFieldLine, IsFoldLine, Lacks;
    if lines != [] {
      FieldLineBytes(lines[0]);
      FieldLinesAreTrailers(lines[1..], true);
      assert forall i :: 1 <= i < |lines| ==> lines[i] == lines[1..][i - 1];
    }
  }

  lemma {:induction false} TrailersExactly(trailers: seq<Text>, folds: bool, more: Text)
    requires AreTrailers(trailers)
    ensures AreBareTrailers(EncodeTrailers(trailers, more), folds) <==> AreFieldLines(trailers, folds)
  {
    hide TrimEol, Lacks, NextLine, EndsInCrLf, EncodeLine, IsFieldLine, IsFoldLine;
    NothingLacks('\n');
    if trailers == [] {
      EncodedIsNext([], more);
    } else {
      EncodedIsNext(trailers[0], EncodeTrailers(trailers[1..], more));
      TrailersExactly(trailers[1..], true, more);
    }
  }

  /** The chunk line splits into its size and its extension. */
  lemma HeadSplits(head: Text)
    ensures head == SizeText(head) + ExtensionText(head)
  {
    hide Find;
    NilLeft(head);
  }

  lemma SizeOfHead(size: Text, extension: Text)
    requires DigitsValue(size, 16).Some? && (extension == [] || extension[0] == ';')
    ensures SizeText(size + extension) == size && ExtensionText(size + extension) == extension
  {
    hide DigitsValue, Find, Lacks;
    HexLacks(size, ';');
    if extension == [] {
      NilLeft(size);
    } else {
      assert extension == [';'] + extension[1..];
      FindIn(size, ';', extension[1..]);
      Parts(size, extension);
    }
  }

  lemma SizeIsParsed(head: Text)
    requires ChunkSize(head).Some?
    ensures ParseUnsigned(TrimBoth(SizeText(head)), 16, USIZE_LIMIT) == ChunkSize(head)
  {
    hide Find, TrimBoth, ParseUnsigned, IsUtf8;
  }

  /** What a successful turn of the chunk loop went through. */
  lemma ChunkDone(bytes: Text, used: nat, cfg: Config, before: Text)
    requires ReadChunks(bytes, used, cfg, before).Ok?
    ensures var l := ReadLine(bytes, 0, MAX_CHUNK_LINE); l.Line? && ChunkSize(TrimEol(l.text)).Some?
    ensures var l := ReadLine(bytes, 0, MAX_CHUNK_LINE); var size := ChunkSize(TrimEol(l.text)).value;
      if size == 0 then
        && ReadTrailers(l.rest, used, cfg.maxHeader).Ok?
        && ReadChunks(bytes, used, cfg, before) == Ok(Body(before, ReadTrailers(l.rest, used, cfg.maxHeader).value))
      else
        && |l.rest| >= size + 2 && l.rest[size..size + 2] == "\r\n"
        && ReadChunks(bytes, used, cfg, before) == ReadChunks(l.rest[size + 2..], used, cfg, before + l.rest[..size])
  {
    hide ReadLine, ChunkSize, TrimEol, ReadTrailers;
  }

  /** The first chunk of bare bytes. */
  lemma BareHead(text: Text, size: nat, data: Text) returns (c: Chunk)
    requires EndsInCrLf(text) && IsBare(SizeText(TrimEol(text))) && IsExtensionText(ExtensionText(TrimEol(text)))
    requires ChunkSize(TrimEol(text)) == Some(size) && |data| == size
    ensures IsStandardChunk(c) && c.data == data && c.size + c.extension == TrimEol(text)
  {
    hide ChunkSize, TrimEol, SizeText, ExtensionText, IsBare, DigitsValue, TrimBoth, ParseUnsigned, EndsInCrLf;
    hide IsExtensionText, IsDerivedExtension;
    var head := TrimEol(text);
    HeadSplits(head);
    SizeIsParsed(head);
    BareIsDigits(SizeText(head), 16, size);
    ExtensionsExactly(ExtensionText(head));
    c := Chunk(SizeText(head), ExtensionText(head), data);
  }

  lemma DataEncodes(rest: Text, size: nat)
    requires |rest| >= size + 2 && rest[size..size + 2] == "\r\n"
    ensures rest == EncodeLine(rest[..size], rest[size + 2..])
  {
    assert rest == rest[..size] + (rest[size..size + 2] + rest[size + 2..]);
  }

  lemma {:induction false} BareChunksParse(bytes: Text, used: nat, cfg: Config, before: Text)
    returns (chunks: seq<Chunk>, zero: Chunk, trailers: seq<Text>)
    requires ReadChunks(bytes, used, cfg, before).Ok? && AreBareChunks(bytes)
    ensures var r := ReadChunks(bytes, used, cfg, before).value;
      ChunkedAs(chunks, zero, trailers, bytes, DataOf(chunks), r.rest) && r.data == before + DataOf(chunks)
    decreases |bytes|
  {
    hide ReadLine, ReadChunks, TrimEol, Lacks, NextLine, EndsInCrLf, EncodeLine, ChunkSize, IsBare, SizeText;
    hide IsStandardChunk, AreFieldLines, EncodeTrailers, ReadTrailers, AreBareTrailers, IsExtensionText, ExtensionText;
    ChunkDone(bytes, used, cfg, before);
    var l := ReadLine(bytes, 0, MAX_CHUNK_LINE);
    LineIsNext(bytes, 0, MAX_CHUNK_LINE);
    LineEncodes(bytes, 0, MAX_CHUNK_LINE);
    var size := ChunkSize(TrimEol(l.text)).value;
    if size == 0 {
      chunks := [];
      zero := BareHead(l.text, 0, []);
      trailers := BareTrailersParse(l.rest, used, cfg.maxHeader, false);
      NilLeft(before);
    } else {
      var head := BareHead(l.text, size, l.rest[..size]);
      var more: seq<Chunk>;
      more, zero, trailers := BareChunksParse(l.rest[size + 2..], used, cfg, before + l.rest[..size]);
      DataEncodes(l.rest, size);
      chunks := [head] + more;
      assert chunks[1..] == more;
      Assoc(before, l.rest[..size], DataOf(more));
    }
  }

  lemma {:induction false} ChunksAreBare(
    chunks: seq<Chunk>, zero: Chunk, trailers: seq<Text>, rest: Text, used: nat, cfg: Config, before: Text)
    requires AreStandard(chunks, zero, trailers)
    requires ReadChunks(EncodeChunks(chunks, zero, trailers, rest), used, cfg, before).Ok?
    ensures AreBareChunks(EncodeChunks(chunks, zero, trailers, rest))
    decreases |chunks|
  {
    hide ReadLine, ReadChunks, TrimEol, Lacks, NextLine, EndsInCrLf, EncodeLine, ChunkSize, IsBare, SizeText;
    hide IsStandardChunk, AreFieldLines, EncodeTrailers, ReadTrailers, AreBareTrailers, IsExtensionText, ExtensionText;
    var bytes := EncodeChunks(chunks, zero, trailers, rest);
    ChunkDone(bytes, used, cfg, before);
    var head := if chunks == [] then zero else chunks[0];
    LineIsNext(bytes, 0, MAX_CHUNK_LINE);
    HeadIsBare(head);
    if chunks == [] {
      EncodedIsNext(head.size + head.extension, EncodeTrailers(trailers, rest));
      FieldLinesAreTrailers(trailers, false);
      TrailersExactly(trailers, false, rest);
    } else {
      var tail := EncodeChunks(chunks[1..], zero, trailers, rest);
      EncodedIsNext(head.size + head.extension, EncodeLine(head.data, tail));
      DataLine(head.data, tail);
      ChunksAreBare(chunks[1..], zero, trailers, rest, used, cfg, before + head.data);
    }
  }

  lemma HeadIsBare(c: Chunk)
    requires IsStandardChunk(c)
    ensures Lacks(c.size + c.extension, '\n') && SizeText(c.size + c.extension) == c.size
    ensures IsExtensionText(ExtensionText(c.size + c.extension))
    ensures ChunkSize(c.size + c.extension).Some? ==>
      ChunkSize(c.size + c.extension) == Some(|c.data|) && IsBare(SizeText(c.size + c.extension))
  {
    hide ChunkSize, SizeText, ExtensionText, Lacks, IsBare, DigitsValue, TrimBoth, ParseUnsigned;
    hide IsExtensionText, IsDerivedExtension;
    ExtensionsExactly(c.extension);
    ExtensionBytes(c.extension);
    HexLacks(c.size, '\n');
    LacksBoth(c.size, c.extension, '\n');
    SizeOfHead(c.size, c.extension);
    if ChunkSize(c.size + c.extension).Some? {
      SizeIsParsed(c.size + c.extension);
      BareIsDigits(c.size, 16, ChunkSize(c.size + c.extension).value);
    }
  }

  /** A chunked body that is read is one that section 4.1 derives exactly when its bytes are bare. */
  lemma ChunkedExactly(bytes: Text, used: nat, cfg: Config)
    requires ReadChunks(bytes, used, cfg, []).Ok?
    ensures var r := ReadChunks(bytes, used, cfg, []).value; IsChunked(bytes, r.data, r.rest) <==> AreBareChunks(bytes)
  {
    hide ReadChunks, AreBareChunks, EncodeChunks, IsStandardChunk, AreFieldLines;
    var r := ReadChunks(bytes, used, cfg, []).value;
    if AreBareChunks(bytes) {
      var chunks, zero, trailers := BareChunksParse(bytes, used, cfg, []);
      NilLeft(DataOf(chunks));
      assert ChunkedAs(chunks, zero, trailers, bytes, r.data, r.rest);
    }
    if IsChunked(bytes, r.data, r.rest) {
      var chunks, zero, trailers :| ChunkedAs(chunks, zero, trailers, bytes, r.data, r.rest);
      ChunksAreBare(chunks, zero, trailers, r.rest, used, cfg, []);
    }
  }

  // ==== the standard gives one body ====

  lemma {:induction false} TrailersAreUnique(
    a: seq<Text>, restA: Text, foldsA: bool, b: seq<Text>, restB: Text, foldsB: bool)
    requires AreFieldLines(a, foldsA) && AreFieldLines(b, foldsB)
    requires EncodeTrailers(a, restA) == EncodeTrailers(b, restB)
    ensures restA == restB
  {
    hide TrimEol, Lacks, NextLine, EndsInCrLf, EncodeLine, IsFieldLine, IsFoldLine;
    NothingLacks('\n');
    if a != [] {
      FieldLineBytes(a[0]);
    }
    if b != [] {
      FieldLineBytes(b[0]);
    }
    EncodedIsNext(if a == [] then [] else a[0], if a == [] then restA else EncodeTrailers(a[1..], restA));
    EncodedIsNext(if b == [] then [] else b[0], if b == [] then restB else EncodeTrailers(b[1..], restB));
    if a != [] && b != [] {
      TrailersAreUnique(a[1..], restA, true, b[1..], restB, true);
    }
  }

  /** The size and what follows the line of a chunk are those of its bytes. */
  lemma HeadIsUnique(a: Chunk, moreA: Text, b: Chunk, moreB: Text)
    requires IsStandardChunk(a) && IsStandardChunk(b)
    requires EncodeLine(a.size + a.extension, moreA) == EncodeLine(b.size + b.extension, moreB)
    ensures |a.data| == |b.data| && moreA == moreB
  {
    hide DigitsValue, Lacks, NextLine, EncodeLine, SizeText, TrimEol, EndsInCrLf, IsDerivedExtension;
    HeadIsBare(a);
    HeadIsBare(b);
    EncodedIsNext(a.size + a.extension, moreA);
    EncodedIsNext(b.size + b.extension, moreB);
  }

  lemma {:induction false} ChunksAreUnique(
    a: seq<Chunk>, zeroA: Chunk, trailersA: seq<Text>, restA: Text,
    b: seq<Chunk>, zeroB: Chunk, trailersB: seq<Text>, restB: Text)
    requires AreStandard(a, zeroA, trailersA) && AreStandard(b, zeroB, trailersB)
    requires EncodeChunks(a, zeroA, trailersA, restA) == EncodeChunks(b, zeroB, trailersB, restB)
    ensures DataOf(a) == DataOf(b) && restA == restB
    decreases |a|
  {
    hide IsStandardChunk, AreFieldLines, EncodeTrailers, EncodeLine;
    var headA, headB := if a == [] then zeroA else a[0], if b == [] then zeroB else b[0];
    var moreA := if a == [] then EncodeTrailers(trailersA, restA)
      else EncodeLine(headA.data, EncodeChunks(a[1..], zeroA, trailersA, restA));
    var moreB := if b == [] then EncodeTrailers(trailersB, restB)
      else EncodeLine(headB.data, EncodeChunks(b[1..], zeroB, trailersB, restB));
    HeadIsUnique(headA, moreA, headB, moreB);
    if a == [] {
      TrailersAreUnique(trailersA, restA, false, trailersB, restB, false);
    } else {
      DataLine(headA.data, EncodeChunks(a[1..], zeroA, trailersA, restA));
      DataLine(headB.data, EncodeChunks(b[1..], zeroB, trailersB, restB));
      ChunksAreUnique(a[1..], zeroA, trailersA, restA, b[1..], zeroB, trailersB, restB);
    }
  }

  /** The standard gives a request at most one body. */
  lemma StrictIsUnique(raw: seq<Field>, bytes: Text, body: Text, rest: Text, other: Text, after: Text)
    requires IsStrict(raw, bytes, body, rest) && IsStrict(raw, bytes, other, after)
    ensures body == other && rest == after
  {
    hide GetAll, IsChunkedOnly, DigitsValue, TrimOws, EncodeChunks, AreStandard;
    var lens := GetAll(raw, "content-length");
    if GetAll(raw, "transfer-encoding") != [] {
      var a, zeroA, trailersA :| ChunkedAs(a, zeroA, trailersA, bytes, body, rest);
      var b, zeroB, trailersB :| ChunkedAs(b, zeroB, trailersB, bytes, other, after);
      ChunksAreUnique(a, zeroA, trailersA, rest, b, zeroB, trailersB, after);
    } else if lens != [] {
      assert IsLength(lens[0], |body|) && IsLength(lens[0], |other|);
      Parts(body, rest);
      Parts(other, after);
    }
  }

  // ==== fields as sent and as read ====

  function Trimmed(raw: seq<Field>): seq<Field> {
    if raw == [] then [] else [Field(raw[0].name, TrimBoth(raw[0].value))] + Trimmed(raw[1..])
  }

  lemma {:induction false} ValuesTrimmed(raw: seq<Field>, name: Text)
    ensures |GetAll(Trimmed(raw), name)| == |GetAll(raw, name)|
    ensures forall i :: 0 <= i < |GetAll(raw, name)| ==> GetAll(Trimmed(raw), name)[i] == TrimBoth(GetAll(raw, name)[i])
  {
    hide TrimBoth, SameIgnoringCase;
    if raw != [] {
      ValuesTrimmed(raw[1..], name);
      assert Trimmed(raw)[1..] == Trimmed(raw[1..]);
    }
  }

  /** The field lines up to the empty one, with all that follows each colon. */
  function RawFields(bytes: Text): seq<Field>
    decreases |bytes|
  {
    match NextLine(bytes)
    case None => []
    case Some(l) =>
      if TrimEol(l.0) == [] then []
      else match SplitOnce(TrimEol(l.0), ':')
        case None => []
        case Some(nv) => [Field(nv.0, nv.1)] + RawFields(l.1)
  }

  lemma {:induction false} RawIsRead(bytes: Text, used: nat, max: nat, before: seq<Field>)
    requires ReadFields(bytes, used, max, before).Ok?
    ensures ReadFields(bytes, used, max, before).value.fields == before + Trimmed(RawFields(bytes))
    decreases |bytes|
  {
    hide ReadLine, TrimEol, NextLine, ParseField, TrimBoth, SplitOnce;
    var l := ReadLine(bytes, used, max);
    LineIsNext(bytes, used, max);
    var line := TrimEol(l.text);
    if line == [] {
      assert before + [] == before;
    } else {
      LineIsField(line);
      RawIsRead(l.rest, used + |l.text|, max, before + [ParseField(line).value]);
      var nv := SplitOnce(line, ':').value;
      assert ([Field(nv.0, nv.1)] + RawFields(l.rest))[1..] == RawFields(l.rest);
      assert before + [ParseField(line).value] + Trimmed(RawFields(l.rest))
        == before + ([ParseField(line).value] + Trimmed(RawFields(l.rest)));
    }
  }

  lemma LineIsField(line: Text)
    requires line != [] && ParseField(line).Ok?
    ensures SplitOnce(line, ':').Some?
    ensures var nv := SplitOnce(line, ':').value; ParseField(line) == Ok(Field(nv.0, TrimBoth(nv.1)))
  {
    hide SplitOnce, IsUtf8, TrimBoth, IsToken;
  }

  // ==== codings and lengths ====

  lemma LetterOnly(c: Byte)
    requires 'a' <= Lower(c) <= 'z'
    ensures IsVisible(c) && c != ','
  {
  }

  lemma LikeChunked(s: Text)
    requires SameIgnoringCase(s, "chunked")
    ensures s != [] && Lacks(s, ',') && TrimBoth(s) == s
  {
    hide TrimBoth, Lower, IsVisible;
    var word: Text := "chunked";
    ChunkedIsLower(word);
    assert |s| == |LowerAll(s)| == |word|;
    forall i | 0 <= i < |s|
      ensures IsVisible(s[i]) && s[i] != ','
    {
      assert LowerAll(s)[i] == LowerAll(word)[i];
      LetterOnly(s[i]);
    }
    VisibleTrimmed(s);
  }

  lemma ChunkedIsLower(word: Text)
    requires word == "chunked"
    ensures |word| == 7 && forall i :: 0 <= i < |word| ==> 'a' <= Lower(word[i]) <= 'z'
  {
  }

  lemma {:induction false} StartLacks(s: Text)
    requires Lacks(TrimStart(s), ',')
    ensures Lacks(s, ',')
    decreases |s|
  {
    var n := SpaceLen(s);
    if n > 0 {
      StartLacks(s[n..]);
      assert forall i :: n <= i < |s| ==> s[i] == s[n..][i - n];
    }
  }

  lemma {:induction false} EndLacks(s: Text)
    requires Lacks(TrimEnd(s), ',')
    ensures Lacks(s, ',')
    decreases |s|
  {
    hide SpaceLen;
    var n := SpaceEndLen(s);
    if n > 0 {
      var k := |s| - n;
      EndLacks(s[..k]);
      SpaceLacks(s[k..]);
      assert forall i :: 0 <= i < k ==> s[i] == s[..k][i];
      assert forall i :: k <= i < |s| ==> s[i] == s[k..][i - k];
    }
  }

  lemma SpaceLacks(s: Text)
    requires SpaceLen(s) == |s|
    ensures Lacks(s, ',')
  {
  }

  /** The codings of a body that is read as chunked. */
  lemma CodingsExactly(values: seq<Text>)
    requires values != [] && SameIgnoringCase(TrimBoth(values[0]), "chunked")
    ensures IsChunkedOnly(values) <==> AreBareCodings(values)
  {
    hide TrimBoth, TrimStart, TrimEnd, TrimOws, SameIgnoringCase, Elements, IsBlankList, Lacks;
    var first := values[0];
    LikeChunked(TrimBoth(first));
    TrimLacks(first);
    TrimOfOws(first);
    NothingToTrim();
    OneElement(first);
    if |values| > 1 {
      ElementsOfFirst(values);
      BlankCombined(values[1..]);
      assert forall i :: 1 <= i < |values| ==> values[i] == values[1..][i - 1];
    }
    if SameIgnoringCase(TrimOws(first), "chunked") {
      LikeChunked(TrimOws(first));
    }
  }

  lemma TrimLacks(s: Text)
    requires Lacks(TrimBoth(s), ',')
    ensures Lacks(s, ',')
  {
    hide TrimStart, TrimEnd, Lacks;
    EndLacks(TrimStart(s));
    StartLacks(s);
  }

  /** A length that is read. */
  lemma LengthExactly(value: Text, n: nat)
    requires ParseUnsigned(TrimBoth(value), 10, USIZE_LIMIT) == Some(n)
    ensures IsLength(value, n) <==> IsBareLength(value)
  {
    hide TrimBoth, TrimOws, DigitsValue;
    TrimOfOws(value);
    if IsLength(value, n) {
      HexDigits(TrimOws(value), 10);
      DigitsTrimmed(TrimOws(value));
      assert HexVal('+').None?;
    }
  }

  // ==== bodies and requests ====

  lemma SizedExactly(bytes: Text, lens: seq<Text>, cfg: Config)
    requires lens != [] && ReadSized(bytes, lens, cfg).Ok?
    ensures var r := ReadSized(bytes, lens, cfg).value;
      && bytes == r.data + r.rest
      && forall i :: 0 <= i < |lens| ==> ParseUnsigned(TrimBoth(lens[i]), 10, USIZE_LIMIT) == Some(|r.data|)
  {
    hide ParseUnsigned, TrimBoth;
  }

  lemma LengthsExactly(lens: seq<Text>, trimmed: seq<Text>, n: nat)
    requires |lens| == |trimmed| && forall i :: 0 <= i < |lens| ==> trimmed[i] == TrimBoth(lens[i])
    requires forall i :: 0 <= i < |lens| ==> ParseUnsigned(TrimBoth(trimmed[i]), 10, USIZE_LIMIT) == Some(n)
    ensures (forall i :: 0 <= i < |lens| ==> IsLength(lens[i], n))
      <==> forall i :: 0 <= i < |lens| ==> IsBareLength(lens[i])
  {
    hide ParseUnsigned, TrimBoth, IsLength, IsBareLength;
    forall i | 0 <= i < |lens|
      ensures IsLength(lens[i], n) <==> IsBareLength(lens[i])
    {
      TrimmedOnce(lens[i]);
      LengthExactly(lens[i], n);
    }
  }

  /** A body that is read is framed as the standard requires if and only if its framing is plain. */
  lemma BodyFramedExactly(bytes: Text, raw: seq<Field>, used: nat, cfg: Config, body: Body)
    requires ReadBody(bytes, Trimmed(raw), used, cfg) == Ok(body)
    ensures IsStrict(raw, bytes, body.data, body.rest) <==> IsPlain(raw, bytes)
  {
    hide ReadChunks, ReadSized, AreBareChunks, IsChunked, IsChunkedOnly, AreBareCodings, IsLength, IsBareLength;
    hide GetAll, First, TrimBoth, SameIgnoringCase, ParseUnsigned;
    var codings, lens := GetAll(raw, "transfer-encoding"), GetAll(raw, "content-length");
    FirstOfAll(Trimmed(raw), "transfer-encoding");
    ValuesTrimmed(raw, "transfer-encoding");
    ValuesTrimmed(raw, "content-length");
    if codings != [] {
      TrimmedOnce(codings[0]);
      CodingsExactly(codings);
      ChunkedExactly(bytes, used, cfg);
    } else if lens != [] {
      SizedExactly(bytes, GetAll(Trimmed(raw), "content-length"), cfg);
      LengthsExactly(lens, GetAll(Trimmed(raw), "content-length"), |body.data|);
    } else {
      NilLeft(bytes);
    }
  }

  /** The fields and the bytes after the head of a request. */
  function HeadFields(bytes: Text, cfg: Config): seq<Field> {
    match SkipBlank(bytes, 0, cfg.maxHeader) case Opening(_, _, rest) => RawFields(rest) case _ => []
  }

  function AfterHead(bytes: Text, cfg: Config): Text {
    match SkipBlank(bytes, 0, cfg.maxHeader)
    case Opening(_, used, rest) =>
      (match ReadFields(rest, used, cfg.maxHeader, []) case Ok(block) => block.rest case Err(_) => [])
    case _ => []
  }

  /** Of the requests that are read, exactly those of plain framing have the framing, and so the
      body, that the standard gives them. */
  lemma RequestFramedExactly(bytes: Text, cfg: Config, request: Request, keepAlive: bool, rest: Text)
    requires ReadRequest(bytes, cfg) == Got(request, keepAlive, rest)
    ensures request.headers == Trimmed(HeadFields(bytes, cfg))
    ensures IsStrict(HeadFields(bytes, cfg), AfterHead(bytes, cfg), request.body, rest)
      <==> IsPlain(HeadFields(bytes, cfg), AfterHead(bytes, cfg))
  {
    hide SkipBlank, ParseStart, TrimEol, ReadFields, ReadBody, IsStrict, IsPlain, KeepsAlive, UpperAll, RawFields;
    var o := SkipBlank(bytes, 0, cfg.maxHeader);
    RawIsRead(o.rest, o.used, cfg.maxHeader, []);
    var block := ReadFields(o.rest, o.used, cfg.maxHeader, []).value;
    var raw := RawFields(o.rest);
    assert [] + Trimmed(raw) == Trimmed(raw);
    BodyFramedExactly(block.rest, raw, block.used, cfg, ReadBody(block.rest, block.fields, block.used, cfg).value);
  }

  // ==== requests that are read and are not framed as the standard requires ====

  lemma FieldOnce(name: Text, value: Text, other: Text)
    requires !SameIgnoringCase(name, other)
    ensures var fields := [Field(name, value)];
      GetAll(fields, name) == [value] && GetAll(fields, other) == [] && First(fields, other) == None
  {
    hide LowerAll;
    assert [Field(name, value)][1..] == [];
  }

  lemma FieldTwice(name: Text, value: Text, second: Text, other: Text)
    requires !SameIgnoringCase(name, other)
    ensures var fields := [Field(name, value), Field(name, second)];
      GetAll(fields, name) == [value, second] && GetAll(fields, other) == [] && First(fields, name) == Some(value)
  {
    hide LowerAll;
    FieldOnce(name, second, other);
    assert [Field(name, value), Field(name, second)][1..] == [Field(name, second)];
  }

  lemma NamesDiffer(a: Text, b: Text)
    requires a != [] && b != [] && Lower(a[0]) != Lower(b[0])
    ensures !SameIgnoringCase(a, b) && !SameIgnoringCase(b, a)
  {
    assert LowerAll(a)[0] != LowerAll(b)[0];
  }

  /** The last chunk alone, with any extension and any trailers. */
  function LastOnly(extension: Text, trailers: seq<Text>, more: Text): Text {
    EncodeChunks([], Chunk("0", extension, []), trailers, more)
  }

  lemma LastIsChunk(extension: Text)
    requires |extension| <= 1021 && Lacks(extension, '\n') && (extension == [] || extension[0] == ';')
    ensures IsChunk(Chunk("0", extension, [])) && DigitsValue("0", 16) == Some(0)
  {
    hide DigitsValue, Lacks;
    NumeralValue(0, 16);
    assert Numeral(0, 16) == "0";
  }

  /** Any text is read as an extension, and any lines as trailers. The standard derives those of its
      own grammar only. */
  lemma LastOnlyExactly(extension: Text, trailers: seq<Text>, more: Text, used: nat, cfg: Config)
    requires |extension| <= 1021 && Lacks(extension, '\n') && (extension == [] || extension[0] == ';')
    requires AreTrailers(trailers) && used + TrailerBytes(trailers) <= cfg.maxHeader
    ensures ReadChunks(LastOnly(extension, trailers, more), used, cfg, []) == Ok(Body([], more))
    ensures IsChunked(LastOnly(extension, trailers, more), [], more)
      <==> IsDerivedExtension(extension) && AreFieldLines(trailers, false)
  {
    hide ReadChunks, IsChunk, AreBareChunks, IsDerivedExtension, IsExtensionText, AreFieldLines, Lacks, AreTrailers;
    hide IsChunked, TrailerBytes;
    LastIsChunk(extension);
    ChunksBack([], Chunk("0", extension, []), trailers, more, used, cfg, []);
    ChunkedExactly(LastOnly(extension, trailers, more), used, cfg);
    ExtensionsExactly(extension);
    LastOnlyScans(extension, trailers, more);
  }

  lemma LastOnlyScans(extension: Text, trailers: seq<Text>, more: Text)
    requires |extension| <= 1021 && Lacks(extension, '\n') && (extension == [] || extension[0] == ';')
    requires AreTrailers(trailers)
    ensures AreBareChunks(LastOnly(extension, trailers, more))
      <==> IsExtensionText(extension) && AreFieldLines(trailers, false)
  {
    hide EncodeLine, EncodeTrailers, NextLine, EndsInCrLf, TrimEol, SizeText, ExtensionText, ChunkSize, IsBare, Lacks;
    hide IsExtensionText, AreFieldLines, AreBareTrailers, DigitsValue, AreTrailers, IsUtf8;
    LastIsChunk(extension);
    ChunkSizeBack(Chunk("0", extension, []));
    SizeOfHead("0", extension);
    EncodedIsNext("0" + extension, EncodeTrailers(trailers, more));
    ZeroIsBare();
    TrailersExactly(trailers, false, more);
  }

  lemma ZeroIsBare()
    ensures IsBare("0")
  {
    VisibleTrimmed("0");
  }

  const ODD_EXTENSION: Text := ";= \0;"
  const ODD_TRAILER: Text := " garbage without a colon"

  /** Such an extension and such a trailer. */
  lemma OddChunksAreRead(more: Text, used: nat, cfg: Config)
    requires used + 30 <= cfg.maxHeader
    ensures ReadChunks(LastOnly(ODD_EXTENSION, [], more), used, cfg, []) == Ok(Body([], more))
    ensures !IsChunked(LastOnly(ODD_EXTENSION, [], more), [], more)
    ensures ReadChunks(LastOnly([], [ODD_TRAILER], more), used, cfg, []) == Ok(Body([], more))
    ensures !IsChunked(LastOnly([], [ODD_TRAILER], more), [], more)
  {
    hide ReadChunks, LastOnly, IsDerivedExtension, AreFieldLines, IsChunked;
    OddTexts();
    LastOnlyExactly(ODD_EXTENSION, [], more, used, cfg);
    LastOnlyExactly([], [ODD_TRAILER], more, used, cfg);
  }

  lemma OddTexts()
    ensures |ODD_EXTENSION| == 5 && Lacks(ODD_EXTENSION, '\n') && ODD_EXTENSION[0] == ';'
    ensures !IsDerivedExtension(ODD_EXTENSION)
    ensures AreTrailers([ODD_TRAILER]) && TrailerBytes([ODD_TRAILER]) == 28 && TrailerBytes([]) == 2
    ensures !AreFieldLines([ODD_TRAILER], false)
  {
    hide IsDerivedExtension, IsExtensionText, IsFieldLine, IsFoldLine;
    ExtensionsExactly(ODD_EXTENSION);
    NoName(ODD_EXTENSION);
    SpaceFirst(ODD_TRAILER);
    assert [ODD_TRAILER][1..] == [];
  }

  lemma NoName(s: Text)
    requires |s| > 1 && s[0] == ';' && s[1] == '='
    ensures !IsExtensionText(s)
  {
    hide IsTokenByte, IsValueText;
    Delimiters();
    assert s[1..][0] == s[1];
  }

  lemma SpaceFirst(line: Text)
    requires line != [] && line[0] == ' '
    ensures !IsFieldLine(line)
  {
    hide AreFieldBytes;
    if SplitOnce(line, ':').Some? && SplitOnce(line, ':').value.0 != [] {
      assert SplitOnce(line, ':').value.0[0] == ' ' && !IsTokenByte(' ');
    }
  }

  /** Only the first Transfer-Encoding is looked at. The body is still that of the standard when the
      second has no element, and only then. */
  lemma SecondCodingIsIgnored(second: Text, more: Text, used: nat, cfg: Config)
    requires used + 2 <= cfg.maxHeader
    ensures var raw := [Field("transfer-encoding", "chunked"), Field("transfer-encoding", second)];
      var bytes := LastOnly([], [], more);
      && ReadBody(bytes, Trimmed(raw), used, cfg) == Ok(Body([], more))
      && (IsStrict(raw, bytes, [], more) <==> Elements(second) == [])
  {
    hide ReadChunks, LastOnly, TrimBoth, TrimOws, GetAll, First, LowerAll, IsChunked, IsDerivedExtension, Elements;
    hide IsBlankList, Combined;
    var raw := [Field("transfer-encoding", "chunked"), Field("transfer-encoding", second)];
    NothingLacks('\n');
    NothingOdd();
    LastOnlyExactly([], [], more, used, cfg);
    ChunkedWord();
    NamesDiffer("transfer-encoding", "content-length");
    FieldTwice("transfer-encoding", "chunked", second, "content-length");
    FieldTwice("transfer-encoding", "chunked", TrimBoth(second), "content-length");
    TwoTrimmed("transfer-encoding", "chunked", second);
    var values: seq<Text> := ["chunked", second];
    assert GetAll(raw, "transfer-encoding") == values && values[0] == "chunked" && values[1] == second;
    CodingsExactly(values);
    BlankIsEmpty(second);
  }

  lemma NothingOdd()
    ensures IsDerivedExtension([]) && AreFieldLines([], false) && TrailerBytes([]) == 2
  {
    hide IsDerivedExtension;
    ExtensionsExactly([]);
  }

  lemma ChunkedWord()
    ensures TrimBoth("chunked") == "chunked" == TrimOws("chunked") && SameIgnoringCase("chunked", "chunked")
  {
    hide TrimBoth, LowerAll;
    VisibleTrimmed("chunked");
  }

  lemma TwoTrimmed(name: Text, value: Text, second: Text)
    ensures Trimmed([Field(name, value), Field(name, second)])
      == [Field(name, TrimBoth(value)), Field(name, TrimBoth(second))]
  {
    hide TrimBoth;
    OneTrimmed(name, second);
    assert [Field(name, value), Field(name, second)][1..] == [Field(name, second)];
  }

  lemma OneTrimmed(name: Text, value: Text)
    ensures Trimmed([Field(name, value)]) == [Field(name, TrimBoth(value))]
  {
    hide TrimBoth;
    assert [Field(name, value)][1..] == [] && Trimmed([]) == [];
  }

  /** A single length. */
  lemma LengthIsRead(value: Text, c: Byte, more: Text, used: nat, cfg: Config)
    requires 1 <= cfg.maxBody && ParseUnsigned(TrimBoth(value), 10, USIZE_LIMIT) == Some(1)
    ensures var raw := [Field("content-length", value)];
      && ReadBody([c] + more, Trimmed(raw), used, cfg) == Ok(Body([c], more))
      && (IsStrict(raw, [c] + more, [c], more) <==> IsBareLength(value))
  {
    hide TrimBoth, ParseUnsigned, GetAll, First, LowerAll, IsBareLength, IsLength;
    var raw := [Field("content-length", value)];
    NamesDiffer("transfer-encoding", "content-length");
    FieldOnce("content-length", value, "transfer-encoding");
    FieldOnce("content-length", TrimBoth(value), "transfer-encoding");
    FirstOfAll(Trimmed(raw), "transfer-encoding");
    OneTrimmed("content-length", value);
    TrimmedOnce(value);
    assert GetAll(raw, "content-length")[0] == value && |[c]| == 1;
    Parts([c], more);
    LengthExactly(value, 1);
  }

  lemma OneIsParsed()
    ensures ParseUnsigned("1", 10, USIZE_LIMIT) == Some(1) && ParseUnsigned("+1", 10, USIZE_LIMIT) == Some(1)
  {
    hide DigitsValue;
    NumeralValue(1, 10);
    assert Numeral(1, 10) == "1" == "+1"[1..];
  }

  /** A signed length is read as the number it is. */
  lemma SignedLengthIsRead(c: Byte, more: Text, used: nat, cfg: Config)
    requires 1 <= cfg.maxBody
    ensures var raw := [Field("content-length", "+1")];
      && ReadBody([c] + more, Trimmed(raw), used, cfg) == Ok(Body([c], more))
      && !IsStrict(raw, [c] + more, [c], more)
  {
    hide ParseUnsigned, IsStrict, ReadBody, Trimmed, TrimBoth;
    OneIsParsed();
    VisibleTrimmed("+1");
    LengthIsRead("+1", c, more, used, cfg);
  }

  /** A length after a no-break space: U+00A0 is white space to `trim` and not to the standard. */
  lemma OddSpaceIsTrimmed(c: Byte, more: Text, used: nat, cfg: Config)
    requires 1 <= cfg.maxBody
    ensures var raw := [Field("content-length", "\U{C2}\U{A0}1")];
      && ReadBody([c] + more, Trimmed(raw), used, cfg) == Ok(Body([c], more))
      && !IsStrict(raw, [c] + more, [c], more)
  {
    hide ParseUnsigned, IsStrict, ReadBody, Trimmed, TrimBoth;
    OneIsParsed();
    NoBreakSpace();
    LengthIsRead("\U{C2}\U{A0}1", c, more, used, cfg);
  }

  lemma NoBreakSpace()
    ensures TrimBoth("\U{C2}\U{A0}1") == "1" && TrimOws("\U{C2}\U{A0}1") == "\U{C2}\U{A0}1"
  {
    hide TrimBoth, TrimOws;
    SpaceBefore('\U{C2}', '\U{A0}', '1');
    assert "\U{C2}\U{A0}1" == ['\U{C2}', '\U{A0}', '1'] && "1" == ['1'];
  }

  lemma SpaceBefore(a: Byte, b: Byte, c: Byte)
    requires a == '\U{C2}' && b == '\U{A0}' && IsVisible(c)
    ensures TrimBoth([a, b, c]) == [c] && TrimOws([a, b, c]) == [a, b, c]
  {
    hide TrimEnd, SpaceEndLen;
    var s := [a, b, c];
    assert s[2..] == [c] && SpaceLen(s) == 2 && SpaceLen([c]) == 0;
    assert TrimStart([c]) == [c];
    VisibleTrimmed([c]);
  }
}
