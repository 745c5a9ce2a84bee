/** What trimming, letter case and the replacement of bad bytes come to, told by code points and tables. */
module Unicode {
  import opened Alphabet
  import opened Bytes
  import opened Utf8
  import opened Trim
  import opened JsonEscapes

  // ==== white space ====

  /** The White_Space property of the Unicode Standard. */
  predicate IsWhiteSpace(u: int) {
    || 9 <= u <= 13 || u == 0x20 || u == 0x85 || u == 0xA0 || u == 0x1680 || 0x2000 <= u <= 0x200A
    || u == 0x2028 || u == 0x2029 || u == 0x202F || u == 0x205F || u == 0x3000
  }

  /** Text begins with white space exactly when its first code point has the property, and then by
      that character. */
  lemma SpaceExactly(s: Text)
    requires ScalarLen(s) > 0
    ensures CodePoint(s[..ScalarLen(s)]).Some?
    ensures SpaceLen(s) == if IsWhiteSpace(CodePoint(s[..ScalarLen(s)]).value) then ScalarLen(s) else 0
  {
    if ScalarLen(s) == 3 {
      WideExactly(s[0], s[1], s[2]);
    }
  }

  lemma WideExactly(a: Byte, b: Byte, c: Byte)
    requires IsLead3(a, b) && IsContinuation(c)
    ensures IsWideSpace(a, b, c) <==>
      IsWhiteSpace(((a as int - 0xE0) * 64 + (b as int - 0x80)) * 64 + (c as int - 0x80))
  {
  }

  /** White space only. */
  predicate AllSpaces(s: Text)
    decreases |s|
  {
    s == [] || (SpaceLen(s) > 0 && AllSpaces(s[SpaceLen(s)..]))
  }

  lemma {:induction false} SpacesThen(a: Text, b: Text)
    requires AllSpaces(a) && SpaceLen(b) == |b| > 0
    ensures AllSpaces(a + b)
    decreases |a|
  {
    if a == [] {
      assert a + b == b && b[|b|..] == [];
    } else {
      var n := SpaceLen(a);
      SpaceStays(a, b);
      assert (a + b)[n..] == a[n..] + b;
      SpacesThen(a[n..], b);
    }
  }

  lemma SpaceStays(a: Text, b: Text)
    requires SpaceLen(a) > 0
    ensures SpaceLen(a + b) == SpaceLen(a)
  {
  }

  lemma {:induction false} StartCut(s: Text) returns (before: Text)
    ensures s == before + TrimStart(s) && AllSpaces(before)
    decreases |s|
  {
    hide SpaceLen;
    before := [];
    if SpaceLen(s) > 0 {
      var n := SpaceLen(s);
      var more := StartCut(s[n..]);
      before := s[..n] + more;
      FrontIsSpace(s);
      SpaceStays(s[..n], more);
      SpacesBefore(s[..n], more);
      assert s == s[..n] + s[n..];
    }
  }

  lemma FrontIsSpace(s: Text)
    requires SpaceLen(s) > 0
    ensures SpaceLen(s[..SpaceLen(s)]) == SpaceLen(s)
  {
  }

  lemma SpacesBefore(a: Text, b: Text)
    requires SpaceLen(a + b) == |a| > 0 && AllSpaces(b)
    ensures AllSpaces(a + b)
  {
    assert (a + b)[|a|..] == b;
  }

  lemma {:induction false} EndCut(s: Text) returns (after: Text)
    ensures s == TrimEnd(s) + after && AllSpaces(after)
    decreases |s|
  {
    hide SpaceLen, SpaceEndLen, AllSpaces;
    after := [];
    NothingIsSpace();
    var n := SpaceEndLen(s);
    if n > 0 {
      var more := EndCut(s[..|s| - n]);
      after := more + s[|s| - n..];
      EndIsSpace(s);
      SpacesThen(more, s[|s| - n..]);
      assert s[..|s| - n] == TrimEnd(s) + more;
      assert s == s[..|s| - n] + s[|s| - n..];
    }
  }

  lemma EndIsSpace(s: Text)
    requires SpaceEndLen(s) > 0
    ensures SpaceLen(s[|s| - SpaceEndLen(s)..]) == SpaceEndLen(s)
  {
    hide SpaceLen;
  }

  lemma NothingIsSpace()
    ensures AllSpaces([])
  {
  }

  /** Trimming takes white space off both ends, all of it, and nothing else. */
  lemma TrimExactly(s: Text) returns (before: Text, after: Text)
    ensures s == before + TrimBoth(s) + after && AllSpaces(before) && AllSpaces(after)
    ensures SpaceLen(TrimBoth(s)) == 0 && SpaceEndLen(TrimBoth(s)) == 0
  {
    hide SpaceLen, SpaceEndLen, AllSpaces, TrimStart, TrimEnd;
    before := StartCut(s);
    after := EndCut(TrimStart(s));
    StartTrimmed(s);
    EndTrimmed(TrimStart(s));
  }

  // ==== letter case ====

  /** Each letter has its counterpart, and every other byte stays. */
  lemma CaseExactly(c: Byte, i: nat)
    requires i < 26
    ensures Lower(CAPITALS[i]) == SMALL[i] && Upper(SMALL[i]) == CAPITALS[i]
    ensures c !in CAPITALS ==> Lower(c) == c
    ensures c !in SMALL ==> Upper(c) == c
  {
    hide CAPITALS, SMALL;
    CapitalCodes(i);
    SmallCodes(i);
    CapitalsExactly(c);
    SmallExactly(c);
  }

  // ==== bytes that are no text ====

  /** The front of some scalar that goes on. */
  ghost predicate IsStart(s: Text) {
    exists more :: IsScalarWith(s, more)
  }

  predicate IsScalarWith(s: Text, more: Text) {
    more != [] && IsScalar(s + more)
  }

  lemma StartIs(s: Text, more: Text)
    requires IsScalarWith(s, more)
    ensures IsStart(s)
  {
  }

  /** What is replaced at once: as many bytes as begin a scalar, and one if none do. */
  lemma BadExactly(s: Text, k: nat)
    requires s != [] && ScalarLen(s) == 0 && 1 < k <= |s|
    ensures k <= BadLen(s) <==> IsStart(s[..k])
  {
    hide IsStart;
    var a, b := s[0], s[1];
    if k == 2 {
      if IsLead3(a, b) {
        assert IsScalarWith(s[..2], ['\U{80}']);
        StartIs(s[..2], ['\U{80}']);
      } else if IsLead4(a, b) {
        assert IsScalarWith(s[..2], ['\U{80}', '\U{80}']);
        StartIs(s[..2], ['\U{80}', '\U{80}']);
      } else {
        forall more
          ensures !IsScalarWith(s[..2], more)
        {
        }
        NoStart(s[..2]);
      }
    } else {
      LongStart(s, k);
    }
  }

  lemma NoStart(s: Text)
    requires forall more :: !IsScalarWith(s, more)
    ensures !IsStart(s)
  {
  }

  lemma LongStart(s: Text, k: nat)
    requires s != [] && ScalarLen(s) == 0 && 2 < k <= |s|
    ensures k <= BadLen(s) <==> IsStart(s[..k])
  {
    hide IsStart;
    if k == 3 && IsLead4(s[0], s[1]) && IsContinuation(s[2]) {
      assert IsScalarWith(s[..3], ['\U{80}']);
      StartIs(s[..3], ['\U{80}']);
    } else {
      forall more
        ensures !IsScalarWith(s[..k], more)
      {
      }
      NoStart(s[..k]);
    }
  }

  /** Each such run becomes U+FFFD, and text stays. */
  lemma LossyExactly(s: Text)
    ensures CodePoint(REPLACEMENT) == Some(0xFFFD) && Lossy([]) == []
    ensures ScalarLen(s) > 0 ==> Lossy(s) == s[..ScalarLen(s)] + Lossy(s[ScalarLen(s)..])
    ensures s != [] && ScalarLen(s) == 0 ==> Lossy(s) == "\U{EF}\U{BF}\U{BD}" + Lossy(s[BadLen(s)..])
  {
    hide ScalarLen, BadLen;
  }
}
