/** Grammar of RFC 7230 that the framing of a request rests on: optional white space and lists
    (sections 3.2.3 and 7), chunk extensions (section 4.1, as published, without white space around
    their parts) and header fields (section 3.2), with scans that decide them. */
module HttpSyntax {
  import opened Bytes
  import opened Trim
  import opened Splitting
  import opened HttpHead
  import opened HttpRoundTrip

  // ==== optional white space ====

  /** SP and HTAB, and no other white space. */
  predicate IsOws(c: Byte) {
    c == ' ' || c == '\t'
  }

  function OwsStart(s: Text): Text {
    if s != [] && IsOws(s[0]) then OwsStart(s[1..]) else s
  }

  function OwsEnd(s: Text): Text {
    if s != [] && IsOws(s[|s| - 1]) then OwsEnd(s[..|s| - 1]) else s
  }

  function TrimOws(s: Text): Text {
    OwsEnd(OwsStart(s))
  }

  lemma {:induction false} StartOfOws(s: Text)
    ensures TrimStart(OwsStart(s)) == TrimStart(s)
  {
    if s != [] && IsOws(s[0]) {
      StartOfOws(s[1..]);
    }
  }

  lemma SpaceThen(s: Text, c: Byte)
    requires s != [] && IsOws(c)
    ensures SpaceLen(s + [c]) == SpaceLen(s)
  {
  }

  lemma {:induction false} StartThen(s: Text, c: Byte)
    requires IsOws(c)
    ensures TrimStart(s + [c]) == if TrimStart(s) == [] then [] else TrimStart(s) + [c]
    decreases |s|
  {
    if s == [] {
      assert SpaceLen([c]) == 1 && [c][1..] == [];
      assert [] + [c] == [c];
    } else {
      SpaceThen(s, c);
      var n := SpaceLen(s);
      if n > 0 {
        assert (s + [c])[n..] == s[n..] + [c];
        StartThen(s[n..], c);
      }
    }
  }

  lemma EndThen(s: Text, c: Byte)
    requires IsOws(c)
    ensures TrimEnd(s + [c]) == TrimEnd(s)
  {
    assert (s + [c])[|s|..] == [c] && (s + [c])[..|s|] == s;
    assert SpaceLen([c]) == 1;
  }

  lemma {:induction false} EndOfOws(s: Text)
    ensures TrimBoth(OwsEnd(s)) == TrimBoth(s)
  {
    hide SpaceLen, SpaceEndLen, TrimStart, TrimEnd;
    if s != [] && IsOws(s[|s| - 1]) {
      var front := s[..|s| - 1];
      EndOfOws(front);
      assert s == front + [s[|s| - 1]];
      StartThen(front, s[|s| - 1]);
      EndThen(TrimStart(front), s[|s| - 1]);
      NothingToTrim();
    }
  }

  lemma NothingToTrim()
    ensures TrimEnd([]) == [] && TrimBoth([]) == []
  {
  }

  /** `trim` removes what OWS allows, and perhaps more. */
  lemma TrimOfOws(s: Text)
    ensures TrimBoth(TrimOws(s)) == TrimBoth(s)
  {
    hide TrimStart, TrimEnd;
    StartOfOws(s);
    EndOfOws(OwsStart(s));
  }

  lemma {:induction false} OwsOnly(s: Text)
    ensures TrimOws(s) == [] <==> forall i :: 0 <= i < |s| ==> IsOws(s[i])
  {
    if s != [] {
      if IsOws(s[0]) {
        OwsOnly(s[1..]);
        assert forall i :: 1 <= i < |s| ==> s[i] == s[1..][i - 1];
      } else {
        OwsEndKeeps(s);
      }
    }
  }

  lemma {:induction false} OwsEndKeeps(s: Text)
    requires s != [] && !IsOws(s[0])
    ensures OwsEnd(s) != []
  {
    if IsOws(s[|s| - 1]) {
      OwsEndKeeps(s[..|s| - 1]);
    }
  }

  predicate AreBlanks(s: Text) {
    forall i :: 0 <= i < |s| ==> s[i] in " \t"
  }

  lemma {:induction false} OwsStartCut(a: Text, t: Text)
    requires AreBlanks(a)
    ensures OwsStart(a + t) == OwsStart(t)
  {
    if a == [] {
      NilLeft(t);
    } else {
      assert a[0] in " \t";
      assert (a + t)[1..] == a[1..] + t;
      OwsStartCut(a[1..], t);
    }
  }

  lemma {:induction false} OwsEndCut(t: Text, b: Text)
    requires AreBlanks(b)
    ensures OwsEnd(t + b) == OwsEnd(t)
    decreases |b|
  {
    if b == [] {
      assert t + b == t;
    } else {
      assert b[|b| - 1] in " \t";
      assert (t + b)[..|t + b| - 1] == t + b[..|b| - 1];
      OwsEndCut(t, b[..|b| - 1]);
    }
  }

  /** Spaces and tabs at the ends go, and nothing else does. */
  lemma OwsExactly(a: Text, t: Text, b: Text)
    requires AreBlanks(a) && AreBlanks(b)
    requires t != [] ==> t[0] !in " \t" && t[|t| - 1] !in " \t"
    ensures TrimOws(a + (t + b)) == t
  {
    OwsStartCut(a, t + b);
    if t == [] {
      NilLeft(b);
      OwsStartCut(b, []);
      assert b + [] == b;
    } else {
      assert OwsStart(t + b) == t + b;
      OwsEndCut(t, b);
    }
  }

  // ==== lists ====

  function NotEmpty(pieces: seq<Text>): seq<Text> {
    if pieces == [] then []
    else
      var e := TrimOws(pieces[0]);
      (if e == [] then [] else [e]) + NotEmpty(pieces[1..])
  }

  /** The elements of a comma-separated list; empty ones do not count. A comma in a quoted string
      would separate two elements here, neither of which is a bare word. */
  function Elements(value: Text): seq<Text> {
    NotEmpty(Split(value, ','))
  }

  /** Several values of one name are one value, in order, separated by commas: section 3.2.2. */
  function Combined(values: seq<Text>): Text
    requires values != []
  {
    if |values| == 1 then values[0] else values[0] + ([','] + Combined(values[1..]))
  }

  lemma {:induction false} SplitBetween(a: Text, c: Byte, b: Text)
    ensures Split(a + ([c] + b), c) == Split(a, c) + Split(b, c)
    decreases |a|
  {
    hide Find;
    match Find(a, c)
    case None =>
      SplitIn(a, c, b);
    case Some(i) =>
      CutAt(a, i);
      Assoc(a[..i], [c] + a[i + 1..], [c] + b);
      Assoc([c], a[i + 1..], [c] + b);
      SplitIn(a[..i], c, a[i + 1..] + ([c] + b));
      SplitBetween(a[i + 1..], c, b);
  }

  lemma {:induction false} NotEmptyBoth(a: seq<Text>, b: seq<Text>)
    ensures NotEmpty(a + b) == NotEmpty(a) + NotEmpty(b)
  {
    hide TrimOws;
    if a == [] {
      assert [] + b == b;
    } else {
      assert (a + b)[1..] == a[1..] + b;
      NotEmptyBoth(a[1..], b);
    }
  }

  /** The elements of the first value come before those of the others. */
  lemma ElementsOfFirst(values: seq<Text>)
    requires |values| > 1
    ensures Elements(Combined(values)) == Elements(values[0]) + Elements(Combined(values[1..]))
  {
    hide Split, NotEmpty;
    SplitBetween(values[0], ',', Combined(values[1..]));
    NotEmptyBoth(Split(values[0], ','), Split(Combined(values[1..]), ','));
  }

  /** Text without any element. */
  predicate IsBlankList(value: Text) {
    forall i :: 0 <= i < |value| ==> IsOws(value[i]) || value[i] == ','
  }

  lemma {:induction false} BlankIsEmpty(value: Text)
    ensures Elements(value) == [] <==> IsBlankList(value)
    decreases |value|
  {
    hide Find, TrimOws;
    match Find(value, ',')
    case None =>
      OwsOnly(value);
      assert NotEmpty([]) == [] && [value][1..] == [];
    case Some(i) =>
      var front, back := value[..i], value[i + 1..];
      OwsOnly(front);
      BlankIsEmpty(back);
      assert Split(value, ',')[1..] == Split(back, ',');
      assert forall j :: 0 <= j < |back| ==> back[j] == value[i + 1 + j];
      assert forall j :: 0 <= j < i ==> front[j] == value[j];
  }

  lemma {:induction false} BlankCombined(values: seq<Text>)
    requires values != []
    ensures Elements(Combined(values)) == [] <==> forall i :: 0 <= i < |values| ==> IsBlankList(values[i])
  {
    hide Elements, IsBlankList;
    BlankIsEmpty(values[0]);
    if |values| > 1 {
      ElementsOfFirst(values);
      BlankCombined(values[1..]);
      assert forall i :: 1 <= i < |values| ==> values[i] == values[1..][i - 1];
    }
  }

  lemma OneElement(value: Text)
    requires Lacks(value, ',') && TrimOws(value) != []
    ensures Elements(value) == [TrimOws(value)]
  {
    hide Find, TrimOws;
    assert [value][1..] == [] && NotEmpty([]) == [];
  }

  // ==== chunk extensions ====

  datatype Quoted = Plain(c: Byte) | Escaped(c: Byte)

  datatype ExtensionValue = Absent | Word(word: Text) | Quotation(chars: seq<Quoted>)

  datatype Extension = Extension(name: Text, value: ExtensionValue)

  /** HTAB, SP, VCHAR and obs-text, which may follow a backslash and stand in a field value. */
  predicate IsFieldByte(c: Byte) {
    IsOws(c) || IsVisible(c) || c >= '\U{80}'
  }

  /** By number: VCHAR of RFC 5234, and with blanks and bytes above ASCII what a field value may hold. */
  lemma BytesExactly(c: Byte)
    ensures IsVisible(c) <==> 0x21 <= c as int <= 0x7E
    ensures IsFieldByte(c) <==> c as int == 9 || (c as int >= 0x20 && c as int != 0x7F)
  {
  }

  /** `qdtext` */
  predicate IsQuotable(c: Byte) {
    IsFieldByte(c) && c != '"' && c != '\\'
  }

  predicate AreQuoted(chars: seq<Quoted>) {
    forall i :: 0 <= i < |chars| ==>
      match chars[i] case Plain(c) => IsQuotable(c) case Escaped(c) => IsFieldByte(c)
  }

  predicate AreExtensions(es: seq<Extension>) {
    forall i :: 0 <= i < |es| ==> IsToken(es[i].name) && IsExtensionValue(es[i].value)
  }

  predicate IsExtensionValue(v: ExtensionValue) {
    match v case Absent => true case Word(word) => IsToken(word) case Quotation(chars) => AreQuoted(chars)
  }

  function QuotedDoc(chars: seq<Quoted>, more: Text): Text {
    if chars == [] then ['"'] + more
    else match chars[0]
      case Plain(c) => [c] + QuotedDoc(chars[1..], more)
      case Escaped(c) => ['\\'] + ([c] + QuotedDoc(chars[1..], more))
  }

  function ValueDoc(v: ExtensionValue, more: Text): Text {
    match v
    case Absent => more
    case Word(word) => ['='] + (word + more)
    case Quotation(chars) => ['='] + (['"'] + QuotedDoc(chars, more))
  }

  function ExtensionsDoc(es: seq<Extension>): Text {
    if es == [] then [] else [';'] + (es[0].name + ValueDoc(es[0].value, ExtensionsDoc(es[1..])))
  }

  /** `chunk-ext` derives the text. */
  ghost predicate IsDerivedExtension(s: Text) {
    exists es :: AreExtensions(es) && s == ExtensionsDoc(es)
  }

  /** Length of the token at the front. */
  function TokenLen(s: Text): (n: nat)
    ensures n <= |s| && forall i :: 0 <= i < n ==> IsTokenByte(s[i])
    ensures n < |s| ==> !IsTokenByte(s[n])
  {
    if s != [] && IsTokenByte(s[0]) then 1 + TokenLen(s[1..]) else 0
  }

  /** What follows the closing quote. */
  function AfterQuoted(s: Text): (r: Option<Text>)
    ensures r.Some? ==> |r.value| < |s|
  {
    if s == [] then None
    else if s[0] == '"' then Some(s[1..])
    else if s[0] == '\\' then if |s| > 1 && IsFieldByte(s[1]) then AfterQuoted(s[2..]) else None
    else if IsQuotable(s[0]) then AfterQuoted(s[1..])
    else None
  }

  /** The scan for chunk extensions. */
  predicate IsExtensionText(s: Text)
    decreases |s|, 0
  {
    s == [] || (s[0] == ';' && TokenLen(s[1..]) > 0 && IsValueText(s[1..][TokenLen(s[1..])..]))
  }

  predicate IsValueText(s: Text)
    decreases |s|, 1
  {
    if s == [] || s[0] != '=' then IsExtensionText(s)
    else if |s| > 1 && s[1] == '"' then AfterQuoted(s[2..]).Some? && IsExtensionText(AfterQuoted(s[2..]).value)
    else TokenLen(s[1..]) > 0 && IsExtensionText(s[1..][TokenLen(s[1..])..])
  }

  lemma {:induction false} TokenFound(word: Text, more: Text)
    requires (forall i :: 0 <= i < |word| ==> IsTokenByte(word[i])) && (more == [] || !IsTokenByte(more[0]))
    ensures TokenLen(word + more) == |word|
  {
    hide IsTokenByte;
    if word == [] {
      NilLeft(more);
    } else {
      assert (word + more)[1..] == word[1..] + more;
      TokenFound(word[1..], more);
    }
  }

  /** What a token may be followed by in extensions. */
  lemma Delimiters()
    ensures !IsTokenByte(';') && !IsTokenByte('=') && !IsTokenByte('"')
  {
  }

  lemma {:induction false} QuotedScans(chars: seq<Quoted>, more: Text)
    requires AreQuoted(chars)
    ensures AfterQuoted(QuotedDoc(chars, more)) == Some(more)
  {
    hide IsFieldByte;
    if chars == [] {
      assert (['"'] + more)[1..] == more;
    } else {
      var tail := QuotedDoc(chars[1..], more);
      QuotedScans(chars[1..], more);
      match chars[0]
      case Plain(c) =>
        assert ([c] + tail)[1..] == tail;
      case Escaped(c) =>
        assert (['\\'] + ([c] + tail))[2..] == tail;
    }
  }

  lemma {:induction false} QuotedParses(s: Text) returns (chars: seq<Quoted>)
    requires AfterQuoted(s).Some?
    ensures AreQuoted(chars) && s == QuotedDoc(chars, AfterQuoted(s).value)
  {
    hide IsFieldByte;
    if s[0] == '"' {
      chars := [];
      assert s == ['"'] + s[1..];
    } else if s[0] == '\\' {
      var tail := QuotedParses(s[2..]);
      chars := [Escaped(s[1])] + tail;
      assert chars[1..] == tail && s == ['\\'] + ([s[1]] + s[2..]);
    } else {
      var tail := QuotedParses(s[1..]);
      chars := [Plain(s[0])] + tail;
      assert chars[1..] == tail && s == [s[0]] + s[1..];
    }
  }

  lemma ValueScans(v: ExtensionValue, more: Text)
    requires IsExtensionValue(v) && IsExtensionText(more)
    ensures IsValueText(ValueDoc(v, more)) && (v.Absent? || ValueDoc(v, more)[0] == '=')
  {
    hide IsTokenByte, AreQuoted, IsFieldByte, TokenLen, QuotedDoc;
    Delimiters();
    match v
    case Absent =>
    case Word(word) =>
      var s := ValueDoc(v, more);
      assert s[1..] == word + more && s[1] == word[0];
      TokenFound(word, more);
      Parts(word, more);
    case Quotation(chars) =>
      var s := ValueDoc(v, more);
      assert s[2..] == QuotedDoc(chars, more);
      QuotedScans(chars, more);
  }

  lemma {:induction false} DerivedScans(es: seq<Extension>)
    requires AreExtensions(es)
    ensures IsExtensionText(ExtensionsDoc(es))
  {
    hide IsTokenByte, IsValueText, ValueDoc, IsExtensionValue, TokenLen;
    if es != [] {
      var more := ExtensionsDoc(es[1..]);
      DerivedScans(es[1..]);
      ValueScans(es[0].value, more);
      var v := ValueDoc(es[0].value, more);
      var s := ExtensionsDoc(es);
      assert s[1..] == es[0].name + v;
      ValueStops(es[0].value, more);
      TokenFound(es[0].name, v);
      Parts(es[0].name, v);
    }
  }

  lemma ValueStops(v: ExtensionValue, more: Text)
    requires more == [] || more[0] == ';'
    ensures ValueDoc(v, more) == [] || !IsTokenByte(ValueDoc(v, more)[0])
  {
    Delimiters();
  }

  lemma {:induction false} ScanDerives(s: Text) returns (es: seq<Extension>)
    requires IsExtensionText(s)
    ensures AreExtensions(es) && s == ExtensionsDoc(es)
    decreases |s|, 0
  {
    hide IsTokenByte, IsValueText, ValueDoc, IsExtensionValue;
    if s == [] {
      es := [];
    } else {
      var t := s[1..];
      var n := TokenLen(t);
      var v, tail := ValueDerives(t[n..]);
      es := [Extension(t[..n], v)] + tail;
      assert es[1..] == tail;
      assert t == t[..n] + t[n..] && s == [';'] + t;
    }
  }

  lemma {:induction false} ValueDerives(s: Text) returns (v: ExtensionValue, es: seq<Extension>)
    requires IsValueText(s)
    ensures IsExtensionValue(v) && AreExtensions(es) && s == ValueDoc(v, ExtensionsDoc(es))
    decreases |s|, 1
  {
    hide IsTokenByte, IsExtensionText, AreQuoted, QuotedDoc, ExtensionsDoc, AreExtensions;
    if s == [] || s[0] != '=' {
      v := Absent;
      es := ScanDerives(s);
    } else if |s| > 1 && s[1] == '"' {
      var chars := QuotedParses(s[2..]);
      v := Quotation(chars);
      es := ScanDerives(AfterQuoted(s[2..]).value);
      assert s == ['='] + (['"'] + s[2..]);
    } else {
      var t := s[1..];
      var n := TokenLen(t);
      v := Word(t[..n]);
      es := ScanDerives(t[n..]);
      assert t == t[..n] + t[n..] && s == ['='] + t;
    }
  }

  /** The scan accepts exactly what the grammar derives. */
  lemma ExtensionsExactly(s: Text)
    ensures IsDerivedExtension(s) <==> IsExtensionText(s)
  {
    hide IsExtensionText, ExtensionsDoc, AreExtensions;
    if IsExtensionText(s) {
      var es := ScanDerives(s);
    }
    if IsDerivedExtension(s) {
      var es :| AreExtensions(es) && s == ExtensionsDoc(es);
      DerivedScans(es);
    }
  }

  lemma {:induction false} ExtensionBytes(s: Text)
    requires IsExtensionText(s)
    ensures Lacks(s, '\n') && (s == [] || s[0] == ';')
    decreases |s|, 0
  {
    if s != [] {
      var t := s[1..];
      var n := TokenLen(t);
      ValueBytes(t[n..]);
      assert forall i :: n <= i < |t| ==> t[i] == t[n..][i - n];
      assert forall i :: 1 <= i < |s| ==> s[i] == t[i - 1];
    }
  }

  lemma {:induction false} ValueBytes(s: Text)
    requires IsValueText(s)
    ensures Lacks(s, '\n')
    decreases |s|, 1
  {
    hide IsExtensionText;
    if s == [] || s[0] != '=' {
      ExtensionBytes(s);
    } else if |s| > 1 && s[1] == '"' {
      var rest := AfterQuoted(s[2..]).value;
      ExtensionBytes(rest);
      QuotedBytes(s[2..]);
      assert forall i :: 2 <= i < |s| ==> s[i] == s[2..][i - 2];
    } else {
      var t := s[1..];
      var n := TokenLen(t);
      ExtensionBytes(t[n..]);
      assert forall i :: n <= i < |t| ==> t[i] == t[n..][i - n];
      assert forall i :: 1 <= i < |s| ==> s[i] == t[i - 1];
    }
  }

  lemma {:induction false} QuotedBytes(s: Text)
    requires AfterQuoted(s).Some? && Lacks(AfterQuoted(s).value, '\n')
    ensures Lacks(s, '\n')
  {
    if s[0] == '"' {
      assert forall i :: 1 <= i < |s| ==> s[i] == s[1..][i - 1];
    } else if s[0] == '\\' {
      QuotedBytes(s[2..]);
      assert forall i :: 2 <= i < |s| ==> s[i] == s[2..][i - 2];
    } else {
      QuotedBytes(s[1..]);
      assert forall i :: 1 <= i < |s| ==> s[i] == s[1..][i - 1];
    }
  }

  // ==== header fields ====

  predicate AreFieldBytes(s: Text) {
    forall i :: 0 <= i < |s| ==> IsFieldByte(s[i])
  }

  /** The first line of a `header-field`, without its line end. */
  predicate IsFieldLine(line: Text) {
    match SplitOnce(line, ':') case None => false case Some(nv) => IsToken(nv.0) && AreFieldBytes(nv.1)
  }

  /** A further line of a field value: `obs-fold` and what it folds. */
  predicate IsFoldLine(line: Text) {
    line != [] && IsOws(line[0]) && AreFieldBytes(line)
  }

  /** `trailer-part`, line by line; `folds` tells whether a field line came before. */
  predicate AreFieldLines(lines: seq<Text>, folds: bool) {
    lines == [] || ((IsFieldLine(lines[0]) || (folds && IsFoldLine(lines[0]))) && AreFieldLines(lines[1..], true))
  }

  lemma FieldLineBytes(line: Text)
    requires IsFieldLine(line) || IsFoldLine(line)
    ensures line != [] && Lacks(line, '\n')
  {
    if IsFieldLine(line) {
      var i := Find(line, ':').value;
      CutAt(line, i);
      assert forall j :: 0 <= j < i ==> line[j] == line[..i][j];
      assert forall j :: i < j < |line| ==> line[j] == line[i + 1..][j - i - 1];
    }
  }
}
