/** Searching and splitting text at a byte, as `str::split`, `split_once` and `find` do. */
module Splitting {
  import opened Bytes

  predicate Lacks(s: Text, c: Byte) {
    forall i :: 0 <= i < |s| ==> s[i] != c
  }

  lemma NothingLacks(c: Byte)
    ensures Lacks([], c)
  {
  }

  /** Position of the first `c`. */
  function Find(s: Text, c: Byte): (r: Option<nat>)
    ensures r.Some? ==> r.value < |s| && s[r.value] == c && Lacks(s[..r.value], c)
    ensures r.None? <==> Lacks(s, c)
  {
    if s == [] then None
    else if s[0] == c then Some(0)
    else match Find(s[1..], c)
      case None => None
      case Some(i) =>
        assert s[..i + 1] == [s[0]] + s[1..][..i];
        Some(i + 1)
  }

  lemma {:induction false} FindIn(a: Text, c: Byte, b: Text)
    requires Lacks(a, c)
    ensures Find(a + ([c] + b), c) == Some(|a|)
  {
    var s := a + ([c] + b);
    if a != [] {
      assert s[1..] == a[1..] + ([c] + b);
      FindIn(a[1..], c, b);
    }
  }

  lemma LacksBoth(a: Text, b: Text, c: Byte)
    requires Lacks(a, c) && Lacks(b, c)
    ensures Lacks(a + b, c)
  {
  }

  lemma CutAt(s: Text, i: nat)
    requires i < |s|
    ensures s == s[..i] + ([s[i]] + s[i + 1..])
  {
  }

  /** A prefix without `c` only moves the first `c` along. */
  lemma FindAfter(a: Text, c: Byte, b: Text)
    requires Lacks(a, c)
    ensures Find(a + b, c) == match Find(b, c) case None => None case Some(i) => Some(|a| + i)
  {
    hide Find, Lacks;
    match Find(b, c)
    case None =>
      LacksBoth(a, b, c);
    case Some(i) =>
      CutAt(b, i);
      Assoc(a, b[..i], [c] + b[i + 1..]);
      LacksBoth(a, b[..i], c);
      FindIn(a + b[..i], c, b[i + 1..]);
  }

  /** `split(c)`: the pieces between the `c`s, at least one. */
  function Split(s: Text, c: Byte): (r: seq<Text>)
    ensures r != []
  {
    match Find(s, c)
    case None => [s]
    case Some(i) => [s[..i]] + Split(s[i + 1..], c)
  }

  lemma SplitIn(a: Text, c: Byte, b: Text)
    requires Lacks(a, c)
    ensures Split(a + ([c] + b), c) == [a] + Split(b, c)
  {
    FindIn(a, c, b);
    var s := a + ([c] + b);
    assert s[..|a|] == a && s[|a| + 1..] == b;
  }

  lemma SplitNone(a: Text, c: Byte)
    requires Lacks(a, c)
    ensures Split(a, c) == [a]
  {
  }

  /** The first of several pieces, and what the others are the pieces of. */
  lemma SplitHead(s: Text, c: Byte) returns (rest: Text)
    requires |Split(s, c)| > 1
    ensures s == Split(s, c)[0] + ([c] + rest) && Lacks(Split(s, c)[0], c) && Split(rest, c) == Split(s, c)[1..]
  {
    hide Find, Lacks;
    var i := Find(s, c).value;
    rest := s[i + 1..];
    CutAt(s, i);
  }

  lemma SplitAlone(s: Text, c: Byte)
    requires |Split(s, c)| == 1
    ensures Split(s, c) == [s] && Lacks(s, c)
  {
    hide Lacks;
  }

  /** `split_once(c)` */
  function SplitOnce(s: Text, c: Byte): Option<(Text, Text)> {
    match Find(s, c)
    case None => None
    case Some(i) => Some((s[..i], s[i + 1..]))
  }

  lemma SplitOnceIn(a: Text, c: Byte, b: Text)
    requires Lacks(a, c)
    ensures SplitOnce(a + ([c] + b), c) == Some((a, b))
  {
    FindIn(a, c, b);
    var s := a + ([c] + b);
    assert s[..|a|] == a && s[|a| + 1..] == b;
  }

  /** Position of the first occurrence of `word`. */
  function FindWord(s: Text, word: Text): (r: Option<nat>)
    requires word != []
    ensures r.Some? ==> r.value + |word| <= |s| && s[r.value..r.value + |word|] == word
  {
    if |s| < |word| then None
    else if s[..|word|] == word then Some(0)
    else match FindWord(s[1..], word)
      case None => None
      case Some(i) => Some(i + 1)
  }
}
