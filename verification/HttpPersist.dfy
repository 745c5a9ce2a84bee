/** When a connection is kept open: section 6.3 of RFC 7230 against the code. */
module HttpPersist {
  import opened Bytes
  import opened Trim
  import opened Splitting
  import opened HttpHead
  import opened HttpFraming
  import opened HttpWire
  import opened HttpRoundTrip
  import opened HttpSyntax
  import opened HttpStrict

  // ==== the standard ====

  /** The list names the option `word`, in any case. */
  predicate Lists(value: Text, word: Text) {
    exists i :: 0 <= i < |Elements(value)| && SameIgnoringCase(Elements(value)[i], word)
  }

  /** `close` ends the connection; HTTP/1.1 keeps it otherwise; HTTP/1.0 only with `keep-alive`. */
  predicate Persists(value: Text, http11: bool) {
    !Lists(value, "close") && (http11 || Lists(value, "keep-alive"))
  }

  /** The first Connection value as sent, or nothing. */
  function ConnectionOf(raw: seq<Field>): Text {
    if GetAll(raw, "connection") == [] then [] else GetAll(raw, "connection")[0]
  }

  // ==== the code ====

  /** The list names the option once other white space than the standard's is removed as well. */
  predicate ListsTrimmed(value: Text, word: Text) {
    exists i :: 0 <= i < |Split(value, ',')| && SameIgnoringCase(TrimBoth(Split(value, ',')[i]), word)
  }

  lemma LowerSpace(s: Text)
    ensures SpaceLen(LowerAll(s)) == SpaceLen(s)
  {
  }

  lemma LowerSlice(s: Text, i: nat, j: nat)
    requires i <= j <= |s|
    ensures LowerAll(s)[i..j] == LowerAll(s[i..j])
  {
  }

  lemma LowerTail(s: Text, k: nat) returns (n: nat)
    requires k <= |s|
    ensures n == SpaceLen(s[|s| - k..]) == SpaceLen(LowerAll(s)[|s| - k..])
  {
    hide SpaceLen, LowerAll;
    LowerSlice(s, |s| - k, |s|);
    assert s[|s| - k..|s|] == s[|s| - k..] && LowerAll(s)[|s| - k..|s|] == LowerAll(s)[|s| - k..];
    LowerSpace(s[|s| - k..]);
    n := SpaceLen(s[|s| - k..]);
  }

  /** The white space at the end, from that of the last bytes. */
  lemma EndFrom(s: Text, one: nat, two: nat, three: nat)
    requires |s| >= 1 ==> SpaceLen(s[|s| - 1..]) == one
    requires |s| >= 2 ==> SpaceLen(s[|s| - 2..]) == two
    requires |s| >= 3 ==> SpaceLen(s[|s| - 3..]) == three
    ensures SpaceEndLen(s) ==
      if |s| >= 1 && one == 1 then 1 else if |s| >= 2 && two == 2 then 2 else if |s| >= 3 && three == 3 then 3 else 0
  {
    hide SpaceLen;
  }

  lemma LowerSpaceEnd(s: Text)
    ensures SpaceEndLen(LowerAll(s)) == SpaceEndLen(s)
  {
    hide SpaceLen, SpaceEndLen, LowerAll, Lower;
    if |s| >= 3 {
      var one := LowerTail(s, 1);
      var two := LowerTail(s, 2);
      var three := LowerTail(s, 3);
      EndFrom(s, one, two, three);
      EndFrom(LowerAll(s), one, two, three);
    } else if |s| == 2 {
      var one := LowerTail(s, 1);
      var two := LowerTail(s, 2);
      EndFrom(s, one, two, 0);
      EndFrom(LowerAll(s), one, two, 0);
    } else if |s| == 1 {
      var one := LowerTail(s, 1);
      EndFrom(s, one, 0, 0);
      EndFrom(LowerAll(s), one, 0, 0);
    }
  }

  lemma {:induction false} LowerTrimStart(s: Text)
    ensures TrimStart(LowerAll(s)) == LowerAll(TrimStart(s))
    decreases |s|
  {
    hide SpaceLen, LowerAll;
    LowerSpace(s);
    var n := SpaceLen(s);
    if n > 0 {
      LowerSlice(s, n, |s|);
      assert s[n..|s|] == s[n..] && LowerAll(s)[n..|s|] == LowerAll(s)[n..];
      LowerTrimStart(s[n..]);
    }
  }

  lemma {:induction false} LowerTrimEnd(s: Text)
    ensures TrimEnd(LowerAll(s)) == LowerAll(TrimEnd(s))
    decreases |s|
  {
    hide SpaceEndLen, LowerAll;
    LowerSpaceEnd(s);
    var n := |s| - SpaceEndLen(s);
    if n < |s| {
      LowerSlice(s, 0, n);
      assert s[0..n] == s[..n] && LowerAll(s)[0..n] == LowerAll(s)[..n];
      LowerTrimEnd(s[..n]);
    }
  }

  /** Trimming and changing case commute. */
  lemma LowerTrim(s: Text)
    ensures TrimBoth(LowerAll(s)) == LowerAll(TrimBoth(s))
  {
    hide TrimStart, TrimEnd, LowerAll;
    LowerTrimStart(s);
    LowerTrimEnd(TrimStart(s));
  }

  lemma {:induction false} LowerSplit(s: Text)
    ensures |Split(LowerAll(s), ',')| == |Split(s, ',')|
    ensures forall i :: 0 <= i < |Split(s, ',')| ==> Split(LowerAll(s), ',')[i] == LowerAll(Split(s, ',')[i])
    decreases |s|
  {
    hide Find, LowerAll, Split, Lacks;
    match Find(s, ',')
    case None =>
      LowerLacks(s);
      SplitNone(s, ',');
      SplitNone(LowerAll(s), ',');
    case Some(i) =>
      LowerPieces(s, i);
      LowerSplit(s[i + 1..]);
  }

  lemma LowerPieces(s: Text, i: nat)
    requires Find(s, ',') == Some(i)
    ensures Split(s, ',') == [s[..i]] + Split(s[i + 1..], ',')
    ensures Split(LowerAll(s), ',') == [LowerAll(s[..i])] + Split(LowerAll(s[i + 1..]), ',')
  {
    LowerLacks(s[..i]);
    hide Find, LowerAll, Lacks;
    LowerCut(s, i);
    SplitIn(LowerAll(s[..i]), ',', LowerAll(s[i + 1..]));
  }

  lemma LowerLacks(s: Text)
    requires Lacks(s, ',')
    ensures Lacks(LowerAll(s), ',')
  {
  }

  lemma LowerCut(s: Text, i: nat)
    requires i < |s| && s[i] == ','
    ensures LowerAll(s) == LowerAll(s[..i]) + ([','] + LowerAll(s[i + 1..]))
  {
  }

  lemma LowerTwice(s: Text)
    ensures LowerAll(LowerAll(s)) == LowerAll(s)
  {
  }

  /** What the code finds among the words of a lower-case list. */
  lemma TokenIsListed(value: Text, word: Text)
    requires LowerAll(word) == word
    ensures HasToken(Split(LowerAll(value), ','), word) <==> ListsTrimmed(value, word)
  {
    hide LowerAll, TrimBoth, Split;
    LowerSplit(value);
    var pieces := Split(value, ',');
    forall i | 0 <= i < |pieces|
      ensures TrimBoth(Split(LowerAll(value), ',')[i]) == LowerAll(TrimBoth(pieces[i]))
    {
      LowerTrim(pieces[i]);
    }
  }

  /** The option stands in the list with such other white space around it. */
  predicate ListsOddly(value: Text, word: Text) {
    exists i :: 0 <= i < |Split(value, ',')| && IsOdd(Split(value, ',')[i], word)
  }

  predicate IsOdd(piece: Text, word: Text) {
    SameIgnoringCase(TrimBoth(piece), word) && TrimOws(piece) != TrimBoth(piece)
  }

  lemma {:induction false} ElementIsPiece(pieces: seq<Text>, i: nat) returns (j: nat)
    requires i < |NotEmpty(pieces)|
    ensures j < |pieces| && TrimOws(pieces[j]) == NotEmpty(pieces)[i]
  {
    hide TrimOws;
    var own := if TrimOws(pieces[0]) == [] then 0 else 1;
    if i < own {
      j := 0;
    } else {
      var k := ElementIsPiece(pieces[1..], i - own);
      j := k + 1;
    }
  }

  lemma {:induction false} PieceIsElement(pieces: seq<Text>, j: nat) returns (i: nat)
    requires j < |pieces| && TrimOws(pieces[j]) != []
    ensures i < |NotEmpty(pieces)| && NotEmpty(pieces)[i] == TrimOws(pieces[j])
  {
    hide TrimOws;
    if j == 0 {
      i := 0;
    } else {
      var k := PieceIsElement(pieces[1..], j - 1);
      i := k + if TrimOws(pieces[0]) == [] then 0 else 1;
    }
  }

  /** The words are those of the standard's list and those with other white space around them. */
  lemma ListedExactly(value: Text, word: Text)
    requires IsWord(word)
    ensures ListsTrimmed(value, word) <==> Lists(value, word) || ListsOddly(value, word)
  {
    hide TrimOws, TrimBoth, SameIgnoringCase, Split, NotEmpty;
    var pieces := Split(value, ',');
    if Lists(value, word) {
      var i :| 0 <= i < |Elements(value)| && SameIgnoringCase(Elements(value)[i], word);
      var j := ElementIsPiece(pieces, i);
      LikeWord(TrimOws(pieces[j]), word);
      TrimOfOws(pieces[j]);
      assert SameIgnoringCase(TrimBoth(pieces[j]), word);
    }
    if ListsTrimmed(value, word) && !ListsOddly(value, word) {
      var j :| 0 <= j < |pieces| && SameIgnoringCase(TrimBoth(pieces[j]), word);
      assert !IsOdd(pieces[j], word);
      LikeWord(TrimBoth(pieces[j]), word);
      var i := PieceIsElement(pieces, j);
      assert SameIgnoringCase(Elements(value)[i], word);
    }
  }

  /** A word of visible characters without upper case. */
  predicate IsWord(word: Text) {
    word != [] && forall i :: 0 <= i < |word| ==> IsVisible(word[i]) && Lower(word[i]) == word[i]
  }

  lemma LikeWord(s: Text, word: Text)
    requires IsWord(word) && SameIgnoringCase(s, word)
    ensures s != [] && TrimBoth(s) == s
  {
    hide TrimBoth, Lower, IsVisible;
    assert |s| == |LowerAll(s)| == |word|;
    forall i | 0 <= i < |s|
      ensures IsVisible(s[i])
    {
      assert LowerAll(s)[i] == LowerAll(word)[i];
      LowerVisible(s[i]);
    }
    VisibleTrimmed(s);
  }

  lemma LowerVisible(c: Byte)
    requires IsVisible(Lower(c))
    ensures IsVisible(c)
  {
  }

  lemma Options()
    ensures IsWord("close") && IsWord("keep-alive")
    ensures LowerAll("close") == "close" && LowerAll("keep-alive") == "keep-alive"
  {
    WordIsLower("close");
    WordIsLower("keep-alive");
  }

  lemma WordIsLower(word: Text)
    requires IsWord(word)
    ensures LowerAll(word) == word
  {
  }

  // ==== the ends of the value, which are trimmed first ====

  lemma {:induction false} SplitPrefix(a: Text, s: Text)
    requires Lacks(a, ',')
    ensures Split(a + s, ',') == [a + Split(s, ',')[0]] + Split(s, ',')[1..]
  {
    hide Find, Lacks;
    FindAfter(a, ',', s);
    match Find(s, ',')
    case None =>
      assert [s][1..] == [];
    case Some(i) =>
      assert (a + s)[..|a| + i] == a + s[..i] && (a + s)[|a| + i + 1..] == s[i + 1..];
      assert Split(s, ',')[1..] == Split(s[i + 1..], ',');
  }

  lemma {:induction false} SplitSuffix(s: Text, b: Text)
    requires Lacks(b, ',')
    ensures var pieces := Split(s, ','); var k := |pieces| - 1;
      Split(s + b, ',') == pieces[..k] + [pieces[k] + b]
    decreases |s|
  {
    hide Find, Lacks;
    match Find(s, ',')
    case None =>
      LacksBoth(s, b, ',');
      SplitNone(s + b, ',');
      assert [s][..0] == [];
    case Some(i) =>
      CutAt(s, i);
      var rest := s[i + 1..];
      Assoc(s[..i], [','] + rest, b);
      Assoc([','], rest, b);
      SplitIn(s[..i], ',', rest + b);
      SplitSuffix(rest, b);
      var pieces := Split(rest, ',');
      assert Split(s, ',') == [s[..i]] + pieces;
      assert ([s[..i]] + pieces)[..|pieces|] == [s[..i]] + pieces[..|pieces| - 1];
  }

  lemma SpaceFront(ws: Text, s: Text)
    requires ws != [] && SpaceLen(ws) == |ws|
    ensures SpaceLen(ws + s) == |ws|
  {
  }

  lemma TrimAfter(ws: Text, s: Text)
    requires ws != [] && SpaceLen(ws) == |ws|
    ensures TrimBoth(ws + s) == TrimBoth(s)
  {
    hide SpaceLen, TrimEnd;
    SpaceFront(ws, s);
    assert (ws + s)[|ws|..] == s;
  }

  /** White space begins with no continuation byte, so it does not complete what is before it. */
  lemma SpaceBefore(s: Text, ws: Text)
    requires s != [] && ws != [] && SpaceLen(ws) == |ws|
    ensures SpaceLen(s + ws) == SpaceLen(s)
  {
  }

  lemma SpaceAtEnd(s: Text, ws: Text)
    requires ws != [] && SpaceLen(ws) == |ws|
    ensures SpaceEndLen(s + ws) == |ws|
  {
    var t := s + ws;
    assert t[|s|..] == ws;
    assert forall i :: 0 <= i < |ws| ==> t[|s| + i] == ws[i];
  }

  lemma {:induction false} StartBefore(s: Text, ws: Text)
    requires ws != [] && SpaceLen(ws) == |ws|
    ensures TrimStart(s + ws) == if TrimStart(s) == [] then [] else TrimStart(s) + ws
    decreases |s|
  {
    hide SpaceLen;
    if s == [] {
      NilLeft(ws);
      assert ws[|ws|..] == [];
      NothingStarts();
    } else {
      SpaceBefore(s, ws);
      var n := SpaceLen(s);
      if n > 0 {
        assert (s + ws)[n..] == s[n..] + ws;
        StartBefore(s[n..], ws);
      }
    }
  }

  lemma NothingStarts()
    ensures TrimStart([]) == [] && TrimEnd([]) == []
  {
  }

  lemma TrimBefore(s: Text, ws: Text)
    requires ws != [] && SpaceLen(ws) == |ws|
    ensures TrimBoth(s + ws) == TrimBoth(s)
  {
    hide SpaceLen, SpaceEndLen, TrimStart;
    StartBefore(s, ws);
    NothingStarts();
    var t := TrimStart(s);
    SpaceAtEnd(t, ws);
    assert (t + ws)[..|t|] == t;
  }

  lemma SpaceLacksComma(ws: Text)
    requires ws != [] && SpaceLen(ws) == |ws|
    ensures Lacks(ws, ',')
  {
  }

  lemma SpaceItself(s: Text)
    requires SpaceLen(s) > 0
    ensures SpaceLen(s[..SpaceLen(s)]) == SpaceLen(s)
  {
  }

  lemma EndItself(s: Text)
    requires SpaceEndLen(s) > 0
    ensures SpaceLen(s[|s| - SpaceEndLen(s)..]) == SpaceEndLen(s)
  {
  }

  lemma {:induction false} StartLists(value: Text, word: Text)
    ensures ListsTrimmed(TrimStart(value), word) <==> ListsTrimmed(value, word)
    decreases |value|
  {
    hide SpaceLen, TrimBoth, SameIgnoringCase, Split, Lacks;
    var n := SpaceLen(value);
    if n > 0 {
      var ws, rest := value[..n], value[n..];
      assert value == ws + rest;
      SpaceItself(value);
      SpaceLacksComma(ws);
      SplitPrefix(ws, rest);
      TrimAfter(ws, Split(rest, ',')[0]);
      StartLists(rest, word);
      SameLists(Split(value, ','), Split(rest, ','), word);
    }
  }

  lemma {:induction false} EndLists(value: Text, word: Text)
    ensures ListsTrimmed(TrimEnd(value), word) <==> ListsTrimmed(value, word)
    decreases |value|
  {
    hide SpaceLen, SpaceEndLen, TrimBoth, SameIgnoringCase, Split, Lacks;
    var n := |value| - SpaceEndLen(value);
    if n < |value| {
      var rest, ws := value[..n], value[n..];
      assert value == rest + ws;
      EndItself(value);
      SpaceLacksComma(ws);
      SplitSuffix(rest, ws);
      TrimBefore(Split(rest, ',')[|Split(rest, ',')| - 1], ws);
      EndLists(rest, word);
      SameLists(Split(value, ','), Split(rest, ','), word);
    }
  }

  /** Pieces that trim to the same. */
  lemma SameLists(a: seq<Text>, b: seq<Text>, word: Text)
    requires |a| == |b| && forall i :: 0 <= i < |a| ==> TrimBoth(a[i]) == TrimBoth(b[i])
    ensures (exists i :: 0 <= i < |a| && SameIgnoringCase(TrimBoth(a[i]), word))
      <==> exists i :: 0 <= i < |b| && SameIgnoringCase(TrimBoth(b[i]), word)
  {
    hide TrimBoth, SameIgnoringCase;
  }

  lemma TrimmedLists(value: Text, word: Text)
    ensures ListsTrimmed(TrimBoth(value), word) <==> ListsTrimmed(value, word)
  {
    hide TrimStart, TrimEnd, ListsTrimmed;
    StartLists(value, word);
    EndLists(TrimStart(value), word);
  }

  // ==== the answer ====

  predicate Names(value: Text, word: Text) {
    Lists(value, word) || ListsOddly(value, word)
  }

  lemma TokenIsNamed(value: Text, word: Text)
    requires IsWord(word)
    ensures HasToken(Split(LowerAll(TrimBoth(value)), ','), word) <==> Names(value, word)
  {
    hide HasToken, TrimBoth, LowerAll, Split, ListsTrimmed, Lists, ListsOddly;
    WordIsLower(word);
    TokenIsListed(TrimBoth(value), word);
    TrimmedLists(value, word);
    ListedExactly(value, word);
  }

  /** What the code answers for the fields `raw`: only the first Connection value counts, and an
      option counts with any white space around it. */
  lemma KeepsExactly(raw: seq<Field>, http11: bool)
    ensures KeepsAlive(Trimmed(raw), http11) <==>
      !Names(ConnectionOf(raw), "close") && (http11 || Names(ConnectionOf(raw), "keep-alive"))
  {
    hide HasToken, TrimBoth, LowerAll, Split, Names, GetAll, First;
    FirstOfAll(Trimmed(raw), "connection");
    ValuesTrimmed(raw, "connection");
    Options();
    NothingToTrim();
    TokenIsNamed(ConnectionOf(raw), "close");
    TokenIsNamed(ConnectionOf(raw), "keep-alive");
  }

  /** The code and the standard agree on a value, unless white space that the standard does not know
      makes the difference. */
  lemma PersistsExactly(raw: seq<Field>, http11: bool)
    ensures var v := ConnectionOf(raw);
      (KeepsAlive(Trimmed(raw), http11) <==> Persists(v, http11))
      <==>
      || Lists(v, "close")
      || (if ListsOddly(v, "close") then !http11 && !Lists(v, "keep-alive")
          else http11 || Lists(v, "keep-alive") || !ListsOddly(v, "keep-alive"))
  {
    hide KeepsAlive, Lists, ListsOddly, ConnectionOf;
    KeepsExactly(raw, http11);
  }

  /** In particular they agree when no option has such white space around it. */
  predicate IsEven(value: Text) {
    !ListsOddly(value, "close") && !ListsOddly(value, "keep-alive")
  }

  // ==== connections ====

  function RawOf(fields: seq<WireField>): seq<Field> {
    if fields == [] then [] else [Field(fields[0].name, fields[0].raw)] + RawOf(fields[1..])
  }

  lemma {:induction false} RawTrimmed(fields: seq<WireField>)
    ensures Trimmed(RawOf(fields)) == FieldsOf(fields)
  {
    hide TrimBoth;
    if fields != [] {
      RawTrimmed(fields[1..]);
      assert RawOf(fields)[1..] == RawOf(fields[1..]);
    }
  }

  /** What the standard says of a written request. */
  predicate IsKept(w: Wire) {
    Persists(ConnectionOf(RawOf(w.fields)), w.http11)
  }

  predicate IsPlainWire(w: Wire, cfg: Config) {
    IsWire(w) && WithinLimits(w, cfg) && IsEven(ConnectionOf(RawOf(w.fields)))
  }

  lemma StaysExactly(w: Wire)
    requires IsEven(ConnectionOf(RawOf(w.fields)))
    ensures StaysOpen(w) <==> IsKept(w)
  {
    hide KeepsAlive, Lists, ListsOddly, ConnectionOf;
    RawTrimmed(w.fields);
    PersistsExactly(RawOf(w.fields), w.http11);
  }

  /** Requests that the standard keeps the connection for are served one after another, and the
      first that it does not ends it: nothing after it is read. */
  lemma ServedToTheFirstClose(ws: seq<Wire>, last: Wire, more: Text, cfg: Config)
    requires forall i :: 0 <= i < |ws| ==> IsPlainWire(ws[i], cfg) && IsKept(ws[i])
    requires IsPlainWire(last, cfg) && !IsKept(last)
    ensures Serve(Flatten(Encodings(ws)), cfg, []) == Served(Meanings(ws), PeerClosed)
    ensures Serve(Flatten(Encodings(ws)) + Encode(last, more), cfg, []) ==
      Served(Meanings(ws) + [Meaning(last)], NotKept)
  {
    hide Serve, EncodeAll, Encodings, Flatten, IsWire, WithinLimits, StaysOpen, IsKept, IsEven, Encode;
    forall i | 0 <= i < |ws|
      ensures StaysOpen(ws[i])
    {
      StaysExactly(ws[i]);
    }
    StaysExactly(last);
    KeepAliveFraming(ws, cfg);
    LastRequestEnds(ws, last, more, cfg);
  }

  // ==== a second Connection field ====

  /** Section 3.2.2 of RFC 7230 makes one list of several values. The code looks at the first only,
      so a `close` in the second is missed. */
  lemma SecondConnectionIsIgnored(first: Text, second: Text)
    requires first == "keep-alive" && second == "close"
    ensures var raw := [Field("connection", first), Field("connection", second)];
      && KeepsAlive(Trimmed(raw), true)
      && GetAll(raw, "connection") == [first, second] && !Persists(Combined([first, second]), true)
  {
    hide KeepsAlive, LowerAll, GetAll, First, Elements, TrimOws, TrimBoth, Split;
    var raw := [Field("connection", first), Field("connection", second)];
    NamesDiffer("connection", "transfer-encoding");
    FieldTwice("connection", first, second, "transfer-encoding");
    KeepsExactly(raw, true);
    CloseIsSecond(first, second);
  }

  lemma CloseIsSecond(first: Text, second: Text)
    requires first == "keep-alive" && second == "close"
    ensures !Names(first, "close") && Lists(Combined([first, second]), "close")
  {
    hide LowerAll, Elements, TrimOws, TrimBoth, Split;
    Options();
    WordElement(first);
    WordElement(second);
    DifferentLengths(first, "close");
    ElementsOfFirst([first, second]);
    assert [first, second][1..] == [second];
    assert Elements(Combined([first, second]))[1] == second;
  }

  lemma DifferentLengths(a: Text, b: Text)
    requires |a| != |b|
    ensures !SameIgnoringCase(a, b)
  {
    assert |LowerAll(a)| != |LowerAll(b)|;
  }

  lemma WordElement(word: Text)
    requires IsWord(word) && Lacks(word, ',')
    ensures Elements(word) == [word] && Split(word, ',') == [word] && TrimOws(word) == TrimBoth(word) == word
  {
    hide TrimBoth, LowerAll, Elements;
    VisibleTrimmed(word);
    SplitNone(word, ',');
    OneElement(word);
  }
}
