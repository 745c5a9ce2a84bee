/** scrypt of backend/src/kdf.rs:211-384: the same, in place over flattened word arrays. */
module Scrypt {
  import opened Bytes
  import opened Division
  import opened Sha256
  import opened Hmac
  import opened Numerals
  import opened ScryptSpec

  // ==== salsa20_8 ====

  /** Four lines of `salsa20_8`. */
  method QuarterInPlace(t: array<Word>, a: nat, b: nat, c: nat, d: nat)
    requires t.Length == 16 && a < 16 && b < 16 && c < 16 && d < 16
    modifies t
    ensures t[..] == Quarter(old(t[..]), a, b, c, d)
  {
    hide Mix;
    t[b] := Mix(t[b], t[a], t[d], 7);
    t[c] := Mix(t[c], t[b], t[a], 9);
    t[d] := Mix(t[d], t[c], t[b], 13);
    t[a] := Mix(t[a], t[d], t[c], 18);
  }

  /** `salsa20_8` */
  method SalsaInPlace(x: array<Word>)
    requires x.Length == 16
    modifies x
    ensures x[..] == Salsa(old(x[..]))
  {
    hide Quarter, Plus;
    ghost var input := x[..];
    var t := new Word[16](i requires 0 <= i < 16 reads x => x[i]);
    assert t[..] == input;
    for k := 0 to 4
      invariant x[..] == input && t[..] == DoubleRounds(input, k)
    {
      QuarterInPlace(t, 0, 4, 8, 12);
      QuarterInPlace(t, 5, 9, 13, 1);
      QuarterInPlace(t, 10, 14, 2, 6);
      QuarterInPlace(t, 15, 3, 7, 11);
      QuarterInPlace(t, 0, 1, 2, 3);
      QuarterInPlace(t, 5, 6, 7, 4);
      QuarterInPlace(t, 10, 11, 8, 9);
      QuarterInPlace(t, 15, 12, 13, 14);
    }
    hide DoubleRounds;
    ghost var y := t[..];
    for i := 0 to 16
      invariant t[..] == y && x[i..] == input[i..]
      invariant forall j :: 0 <= j < i ==> x[j] == Plus(input[j], y[j])
    {
      assert x[i] == input[i] && t[i] == y[i];
      x[i] := Plus(x[i], t[i]);
    }
    assert x[..] == Salsa(input);
  }

  // ==== copies and sums of stretches ====

  /** `copy_from_slice` between two arrays. */
  method CopyWords(src: array<Word>, from: nat, dst: array<Word>, to: nat, n: nat)
    requires src != dst && from + n <= src.Length && to + n <= dst.Length
    modifies dst
    ensures dst[to..to + n] == old(src[from..from + n])
    ensures dst[..to] == old(dst[..to]) && dst[to + n..] == old(dst[to + n..])
  {
    for i := 0 to n
      invariant dst[to..to + i] == src[from..from + i]
      invariant dst[..to] == old(dst[..to]) && dst[to + i..] == old(dst[to + i..])
    {
      dst[to + i] := src[from + i];
    }
  }

  /** `b[k] ^= v[j * block_words + k]` over a stretch. */
  method XorIn(dst: array<Word>, to: nat, src: array<Word>, from: nat, n: nat)
    requires src != dst && from + n <= src.Length && to + n <= dst.Length
    modifies dst
    ensures dst[to..to + n] == XorWords(old(dst[to..to + n]), old(src[from..from + n]))
    ensures dst[..to] == old(dst[..to]) && dst[to + n..] == old(dst[to + n..])
  {
    hide XorWord;
    ghost var a, b := dst[to..to + n], src[from..from + n];
    for i := 0 to n
      invariant forall k :: 0 <= k < i ==> dst[to + k] == XorWord(a[k], b[k])
      invariant dst[..to] == old(dst[..to]) && dst[to + i..] == old(dst[to + i..])
    {
      assert dst[to + i] == a[i] && src[from + i] == b[i];
      dst[to + i] := XorWord(dst[to + i], src[from + i]);
    }
    assert dst[to..to + n] == XorWords(a, b);
  }

  // ==== block_mix ====

  /** Where `block_mix` writes its result of step `i`. */
  function Place(i: nat, r: nat): nat {
    if i % 2 == 0 then i / 2 else r + i / 2
  }

  lemma PlaceShuffles(i: nat, r: nat)
    requires i < 2 * r
    ensures Place(i, r) < 2 * r && Shuffled(Place(i, r), r) == i
  {
  }

  lemma ShuffledPlaces(d: nat, r: nat)
    requires d < 2 * r
    ensures Shuffled(d, r) < 2 * r && Place(Shuffled(d, r), r) == d
  {
  }

  /** The blocks of `out` that the first `i` steps wrote. */
  ghost predicate Written(out: Words, b: Words, r: nat, i: nat)
    requires IsBlocks(b, r) && |out| == 32 * r
  {
    forall d: nat :: d < 2 * r && Shuffled(d, r) < i ==> Block(out, d) == Y(b, r, Shuffled(d, r))
  }

  lemma BlockBefore(out: Words, next: Words, at: nat, d: nat)
    requires |out| == |next| && 16 * d + 16 <= at <= |out| && next[..at] == out[..at]
    ensures Block(next, d) == Block(out, d)
  {
    assert next[..at][16 * d..16 * d + 16] == out[..at][16 * d..16 * d + 16];
  }

  lemma BlockAfter(out: Words, next: Words, at: nat, d: nat)
    requires |out| == |next| && at <= 16 * d && 16 * d + 16 <= |out| && next[at..] == out[at..]
    ensures Block(next, d) == Block(out, d)
  {
    var k := 16 * d - at;
    assert next[at..][k..k + 16] == out[at..][k..k + 16];
  }

  lemma WroteNext(out: Words, next: Words, b: Words, r: nat, i: nat)
    requires IsBlocks(b, r) && |out| == 32 * r && |next| == 32 * r && i < 2 * r
    requires Written(out, b, r, i)
    requires var at := 16 * Place(i, r); at + 16 <= 32 * r && next[at..at + 16] == Y(b, r, i)
    requires var at := 16 * Place(i, r); next[..at] == out[..at] && next[at + 16..] == out[at + 16..]
    ensures Written(next, b, r, i + 1)
  {
    hide Y, Block;
    PlaceShuffles(i, r);
    var p := Place(i, r);
    forall d: nat | d < 2 * r && Shuffled(d, r) < i + 1
      ensures Block(next, d) == Y(b, r, Shuffled(d, r))
    {
      ShuffledPlaces(d, r);
      hide Place, Shuffled;
      if d < p {
        BlockBefore(out, next, 16 * p, d);
      } else if d > p {
        BlockAfter(out, next, 16 * p + 16, d);
      } else {
        BlockIs(next, p);
      }
    }
  }

  lemma BlockIs(s: Words, d: nat)
    requires 16 * d + 16 <= |s|
    ensures Block(s, d) == s[16 * d..16 * d + 16]
  {
  }

  lemma AllWritten(out: Words, b: Words, r: nat)
    requires IsBlocks(b, r) && |out| == 32 * r && Written(out, b, r, 2 * r)
    ensures out == Mixed(b, r)
  {
    hide Y, Written;
    forall k: nat | k < 32 * r
      ensures out[k] == Mixed(b, r)[k]
    {
      BlockWritten(out, b, r, k / 16);
      assert Block(out, k / 16)[k % 16] == out[k];
    }
  }

  lemma BlockWritten(out: Words, b: Words, r: nat, d: nat)
    requires IsBlocks(b, r) && |out| == 32 * r && Written(out, b, r, 2 * r) && d < 2 * r
    ensures Block(out, d) == Y(b, r, Shuffled(d, r))
  {
    ShuffledPlaces(d, r);
  }

  lemma SliceOfSlice(s: Words, at: nat, n: nat, k: nat)
    requires at + n <= |s| && k + 16 <= n
    ensures s[at..at + n][k..k + 16] == s[at + k..at + k + 16]
  {
    var a, b := s[at..at + n][k..k + 16], s[at + k..at + k + 16];
    forall i | 0 <= i < 16
      ensures a[i] == b[i]
    {
      assert a[i] == s[at..at + n][k + i];
    }
  }

  /** Combining the next input block into `x`. */
  method MixBlock(x: array<Word>, input: array<Word>, at: nat, i: nat, r: nat)
    requires x != input && x.Length == 16 && i < 2 * r && at + 32 * r <= input.Length
    modifies x
    ensures x[..] == Salsa(XorWords(old(x[..]), Block(old(input[at..at + 32 * r]), i)))
  {
    hide Salsa, XorWords;
    ghost var b, before := input[at..at + 32 * r], x[..];
    assert before == x[0..16];
    SliceOfSlice(input[..], at, 32 * r, 16 * i);
    assert input[at + i * 16..at + i * 16 + 16] == Block(b, i);
    XorIn(x, 0, input, at + i * 16, 16);
    assert x[..] == x[0..16];
    SalsaInPlace(x);
  }

  /** Writing `x` as the result of step `i`. */
  method WriteBlock(x: array<Word>, output: array<Word>, r: nat, i: nat, ghost b: Words)
    requires x != output && x.Length == 16 && IsBlocks(b, r) && output.Length == 32 * r && i < 2 * r
    requires x[..] == Y(b, r, i) && Written(output[..], b, r, i)
    modifies output
    ensures Written(output[..], b, r, i + 1)
  {
    hide Written, Y;
    PlaceShuffles(i, r);
    ghost var out := output[..];
    var dst := (if i % 2 == 0 then i / 2 else r + i / 2) * 16;
    assert out[..dst] == output[..dst] && out[dst + 16..] == output[dst + 16..];
    assert x[0..16] == x[..];
    CopyWords(x, 0, output, dst, 16);
    SameEnds(output, output[..], dst);
    WroteNext(out, output[..], b, r, i);
  }

  /** `block_mix`, from the stretch of `input` at `at` into `output`. */
  method BlockMix(input: array<Word>, at: nat, output: array<Word>, r: nat)
    requires r > 0 && input != output && at + 32 * r <= input.Length && output.Length == 32 * r
    modifies output
    ensures output[..] == Mixed(old(input[at..at + 32 * r]), r)
  {
    hide Salsa, Mixed, XorWords, Written, Y;
    ghost var b := input[at..at + 32 * r];
    var x := new Word[16](_ => 0);
    SliceOfSlice(input[..], at, 32 * r, 16 * (2 * r - 1));
    assert input[at + (2 * r - 1) * 16..at + (2 * r - 1) * 16 + 16] == Block(b, 2 * r - 1);
    CopyWords(input, at + (2 * r - 1) * 16, x, 0, 16);
    assert x[..] == x[0..16];
    NothingWritten(output[..], b, r);
    for i := 0 to 2 * r
      invariant input[at..at + 32 * r] == b
      invariant x[..] == if i == 0 then Block(b, 2 * r - 1) else Y(b, r, i - 1)
      invariant Written(output[..], b, r, i)
    {
      MixBlock(x, input, at, i, r);
      NextY(b, r, i);
      WriteBlock(x, output, r, i, b);
    }
    AllWritten(output[..], b, r);
  }

  lemma NothingWritten(out: Words, b: Words, r: nat)
    requires IsBlocks(b, r) && |out| == 32 * r
    ensures Written(out, b, r, 0)
  {
  }

  lemma NextY(b: Words, r: nat, i: nat)
    requires IsBlocks(b, r) && i < 2 * r
    ensures Y(b, r, i) == Salsa(XorWords(if i == 0 then Block(b, 2 * r - 1) else Y(b, r, i - 1), Block(b, i)))
  {
  }

  /** Slices of an array are slices of its contents. */
  lemma SameEnds(a: array<Word>, out: Words, at: nat)
    requires at + 16 <= a.Length == |out|
    ensures a[..][..at] == a[..at] && a[..][at + 16..] == a[at + 16..] && a[..][at..at + 16] == a[at..at + 16]
  {
  }

  // ==== ro_mix ====

  /** Row `j` of a table of rows of `w` words. */
  function Row(s: Words, w: nat, j: nat): (row: Words)
    requires w * j + w <= |s|
    ensures |row| == w
  {
    s[w * j..w * j + w]
  }

  lemma RowsFit(w: nat, j: nat, n: nat)
    requires j < n
    ensures w * j + w <= w * n
  {
    assert w * n == w * j + w * (n - j);
    Scaled(w, 1, n - j);
  }

  /** The first `i` rows of the table are V[0] to V[i - 1]. */
  ghost predicate Tabled(v: Words, b: Words, r: nat, n: nat, i: nat)
    requires IsBlocks(b, r) && |v| >= 32 * r * n && i <= n
  {
    forall j: nat :: j < i ==> RowIs(v, b, r, n, j)
  }

  ghost predicate RowIs(v: Words, b: Words, r: nat, n: nat, j: nat)
    requires IsBlocks(b, r) && |v| >= 32 * r * n && j < n
  {
    RowsFit(32 * r, j, n);
    Row(v, 32 * r, j) == V(b, r, j)
  }

  lemma TabledNext(v: Words, next: Words, b: Words, r: nat, n: nat, i: nat)
    requires IsBlocks(b, r) && |v| >= 32 * r * n && |next| == |v| && i < n && Tabled(v, b, r, n, i)
    requires 32 * r * i + 32 * r <= |v| && Row(next, 32 * r, i) == V(b, r, i)
    requires next[..32 * r * i] == v[..32 * r * i]
    ensures Tabled(next, b, r, n, i + 1)
  {
    hide V;
    var w := 32 * r;
    forall j: nat | j < i + 1
      ensures RowIs(next, b, r, n, j)
    {
      if j < i {
        RowsFit(w, j, i);
        RowsFit(w, j, n);
        assert RowIs(v, b, r, n, j);
        EarlierRow(v, next, w, j, w * i);
      }
    }
  }

  lemma EarlierRow(v: Words, next: Words, w: nat, j: nat, at: nat)
    requires |next| == |v| && w * j + w <= at <= |v| && next[..at] == v[..at]
    ensures Row(next, w, j) == Row(v, w, j)
  {
    var from := w * j;
    PrefixSlice(v, at, from, w);
    PrefixSlice(next, at, from, w);
  }

  lemma PrefixSlice(s: Words, at: nat, from: nat, n: nat)
    requires from + n <= at <= |s|
    ensures s[..at][from..from + n] == s[from..from + n]
  {
  }

  /** `block_mix(b, scratch)` and `b.copy_from_slice(scratch)`. */
  method MixBack(b: array<Word>, at: nat, scratch: array<Word>, r: nat)
    requires r > 0 && b != scratch && at + 32 * r <= b.Length && scratch.Length == 32 * r
    modifies b, scratch
    ensures b[at..at + 32 * r] == Mixed(old(b[at..at + 32 * r]), r)
    ensures b[..at] == old(b[..at]) && b[at + 32 * r..] == old(b[at + 32 * r..])
  {
    hide Mixed;
    BlockMix(b, at, scratch, r);
    assert scratch[0..32 * r] == scratch[..];
    CopyWords(scratch, 0, b, at, 32 * r);
  }

  /** The first loop of `ro_mix` fills the table. */
  method FillTable(b: array<Word>, at: nat, n: nat, r: nat, v: array<Word>, scratch: array<Word>)
    requires r > 0 && b != scratch && b != v && v != scratch
    requires at + 32 * r <= b.Length && scratch.Length == 32 * r && v.Length >= 32 * r * n
    modifies b, v, scratch
    ensures b[at..at + 32 * r] == V(old(b[at..at + 32 * r]), r, n)
    ensures Tabled(v[..], old(b[at..at + 32 * r]), r, n, n)
    ensures b[..at] == old(b[..at]) && b[at + 32 * r..] == old(b[at + 32 * r..])
  {
    hide Mixed, V, Tabled, RowIs;
    ghost var b0 := b[at..at + 32 * r];
    FirstRow(v[..], b0, r, n);
    for i := 0 to n
      invariant b[at..at + 32 * r] == V(b0, r, i) && Tabled(v[..], b0, r, n, i)
      invariant b[..at] == old(b[..at]) && b[at + 32 * r..] == old(b[at + 32 * r..])
    {
      RowsFit(32 * r, i, n);
      ghost var table := v[..];
      CopyWords(b, at, v, 32 * r * i, 32 * r);
      TabledNext(table, v[..], b0, r, n, i);
      MixBack(b, at, scratch, r);
      NextV(b0, r, i + 1);
    }
  }

  lemma FirstRow(v: Words, b: Words, r: nat, n: nat)
    requires IsBlocks(b, r) && |v| >= 32 * r * n
    ensures Tabled(v, b, r, n, 0) && V(b, r, 0) == b
  {
  }

  lemma NextV(b: Words, r: nat, i: nat)
    requires IsBlocks(b, r) && i > 0
    ensures V(b, r, i) == Mixed(V(b, r, i - 1), r)
  {
  }

  /** One step of the second loop of `ro_mix`. */
  method LookupStep(b: array<Word>, at: nat, n: nat, r: nat, v: array<Word>, scratch: array<Word>, ghost b0: Words)
    requires r > 0 && IsPowerOfTwo(n) && n <= U32_LIMIT && IsBlocks(b0, r) && b != scratch && b != v && v != scratch
    requires at + 32 * r <= b.Length && scratch.Length == 32 * r && v.Length >= 32 * r * n
    requires Tabled(v[..], b0, r, n, n)
    modifies b, scratch
    ensures n > 0
    ensures var x := old(b[at..at + 32 * r]);
      b[at..at + 32 * r] == Mixed(XorWords(x, V(b0, r, Integerify(x, r) % n)), r)
    ensures b[..at] == old(b[..at]) && b[at + 32 * r..] == old(b[at + 32 * r..])
  {
    hide Mixed, V, XorWords, Integerify, IsPowerOfTwo, And, Tabled, RowIs;
    ghost var x := b[at..at + 32 * r];
    MaskIsIntegerify(x, n, r);
    assert b[at + 32 * r - 16] == x[32 * r - 16];
    var j := And(b[at + 32 * r - 16] as nat, n - 1);
    TableAt(v[..], b0, r, n, j);
    XorIn(b, at, v, 32 * r * j, 32 * r);
    MixBack(b, at, scratch, r);
  }

  lemma TableAt(v: Words, b: Words, r: nat, n: nat, j: nat)
    requires IsBlocks(b, r) && |v| >= 32 * r * n && j < n && Tabled(v, b, r, n, n)
    ensures 32 * r * j + 32 * r <= 32 * r * n && v[32 * r * j..32 * r * j + 32 * r] == V(b, r, j)
  {
    hide V;
    RowsFit(32 * r, j, n);
    assert RowIs(v, b, r, n, j);
  }

  /** `ro_mix` on the stretch of `b` at `at`; nothing depends on what `v` and `scratch` held. */
  method RoMix(b: array<Word>, at: nat, n: nat, r: nat, v: array<Word>, scratch: array<Word>)
    requires r > 0 && IsPowerOfTwo(n) && n <= U32_LIMIT && b != scratch && b != v && v != scratch
    requires at + 32 * r <= b.Length && scratch.Length == 32 * r && v.Length >= 32 * r * n
    modifies b, v, scratch
    ensures n > 0 && b[at..at + 32 * r] == RoMixed(old(b[at..at + 32 * r]), n, r)
    ensures b[..at] == old(b[..at]) && b[at + 32 * r..] == old(b[at + 32 * r..])
  {
    hide Mixed, V, XorWords, Integerify, IsPowerOfTwo, Tabled, X;
    PowerPositive(n);
    ghost var b0 := b[at..at + 32 * r];
    FillTable(b, at, n, r, v, scratch);
    FirstX(b0, n, r);
    for i := 0 to n
      invariant b[at..at + 32 * r] == X(b0, n, r, i) && Tabled(v[..], b0, r, n, n)
      invariant b[..at] == old(b[..at]) && b[at + 32 * r..] == old(b[at + 32 * r..])
    {
      LookupStep(b, at, n, r, v, scratch, b0);
      NextX(b0, n, r, i + 1);
    }
  }

  lemma FirstX(b: Words, n: nat, r: nat)
    requires IsBlocks(b, r) && n > 0
    ensures X(b, n, r, 0) == V(b, r, n)
  {
    hide V;
  }

  lemma NextX(b: Words, n: nat, r: nat, i: nat)
    requires IsBlocks(b, r) && n > 0 && i > 0
    ensures var x := X(b, n, r, i - 1);
      X(b, n, r, i) == Mixed(XorWords(x, V(b, r, Integerify(x, r) % n)), r)
  {
    hide V, Mixed, XorWords, Integerify;
  }

  // ==== scrypt ====

  datatype ScryptError = InvalidN | InvalidBlockOrParallelism | InvalidKeyLength | Overflow

  /** What a call comes to: a `Vec` of more than isize::MAX bytes panics. */
  datatype Run<+T> = Returns(value: T) | Panics

  /** Every product that `scrypt` checks stays below the limit of `usize`. */
  predicate Fits(n: nat, r: nat, p: nat, limit: nat) {
    && 32 * r < limit && 32 * r * p < limit && 32 * r * n < limit
    && 32 * r * p * 4 < limit && 32 * r * n * 4 < limit
  }

  /** At most isize::MAX, where `usize` holds the numbers below `limit`. */
  predicate CanHold(bytes: nat, limit: nat) {
    2 * bytes < limit
  }

  /** The buffers of `pbkdf2_hmac_sha256`: its output and one message. */
  predicate DeriveFits(salt: nat, len: nat, limit: nat) {
    CanHold(len, limit) && CanHold(salt + 4, limit)
  }

  /** Every buffer of `scrypt`: both derivations, the lanes as words and as bytes, the table and the
      scratch block. */
  predicate BuffersFit(salt: nat, n: nat, r: nat, p: nat, len: nat, limit: nat) {
    var lanes := 4 * (32 * r * p);
    && DeriveFits(salt, lanes, limit) && CanHold(lanes, limit)
    && CanHold(4 * (32 * r * n), limit) && CanHold(4 * (32 * r), limit)
    && DeriveFits(lanes, len, limit)
  }

  function ScryptRun(password: Octets, salt: Octets, n: nat, r: nat, p: nat, len: nat, limit: nat)
    : Run<Result<Octets, ScryptError>>
  {
    if n < 2 || !IsPowerOfTwo(n) then Returns(Err(InvalidN))
    else if r == 0 || p == 0 then Returns(Err(InvalidBlockOrParallelism))
    else if len == 0 then Returns(Err(InvalidKeyLength))
    else if !Fits(n, r, p, limit) then Returns(Err(Overflow))
    else if !BuffersFit(|salt|, n, r, p, len, limit) then Panics
    else Returns(Ok(Scrypted(password, salt, n, r, p, len)))
  }

  /** What `scrypt` comes to, in bytes: with lanes of 128*r*p and a table of 128*r*N, either of them too much
      for `usize` is an error, and anything above half of that a panic. */
  lemma ScryptOutcome(password: Octets, salt: Octets, n: nat, r: nat, p: nat, len: nat, limit: nat)
    ensures ScryptRun(password, salt, n, r, p, len, limit) ==
      if n < 2 || !IsPowerOfTwo(n) then Returns(Err(InvalidN))
      else if r < 1 || p < 1 then Returns(Err(InvalidBlockOrParallelism))
      else if len < 1 then Returns(Err(InvalidKeyLength))
      else if 128 * (r * p) >= limit || 128 * (r * n) >= limit then Returns(Err(Overflow))
      else if 256 * (r * p) + 8 >= limit || 256 * (r * n) >= limit || 2 * len >= limit || 2 * |salt| + 8 >= limit then
        Panics
      else Returns(Ok(Scrypted(password, salt, n, r, p, len)))
  {
    hide IsPowerOfTwo, Scrypted;
    if n >= 2 && r > 0 && p > 0 {
      Products(n, r, p);
    }
  }

  lemma Products(n: nat, r: nat, p: nat)
    requires n >= 2 && p > 0
    ensures 32 * r * p == 32 * (r * p) && 32 * r * n == 32 * (r * n) && r <= r * p && 2 * r <= r * n
  {
    Scaled(r, 1, p);
    Scaled(r, 2, n);
  }

  /** The lanes of `scrypt`, which share one table and one scratch block. */
  method MixLanes(b: array<Word>, n: nat, r: nat, p: nat)
    requires r > 0 && IsPowerOfTwo(n) && n <= U32_LIMIT && b.Length == 32 * r * p
    modifies b
    ensures n > 0 && b[..] == Lanes(old(b[..]), n, r, p)
  {
    hide IsPowerOfTwo, Lanes, RoMixed;
    PowerPositive(n);
    ghost var b0 := b[..];
    var w := 32 * r;
    var v := new Word[32 * r * n](_ => 0);
    var scratch := new Word[w](_ => 0);
    NoLanes(b0, n, r);
    assert b[0..] == b0;
    for i := 0 to p
      invariant 32 * r * i <= b.Length && b[..32 * r * i] == Lanes(b0, n, r, i) && b[32 * r * i..] == b0[32 * r * i..]
    {
      RowsFit(w, i, p);
      ghost var front, lane := b[..w * i], b[w * i..w * i + w];
      LaneOf(b0, b[..], w, i);
      RoMix(b, w * i, n, r, v, scratch);
      NextLane(b0, n, r, i);
      Joins(b[..], w * i, w);
      Ends(b0, w * i, w);
    }
    assert b[..32 * r * p] == b[..];
  }

  lemma NoLanes(b: Words, n: nat, r: nat)
    requires r > 0 && n > 0
    ensures Lanes(b, n, r, 0) == []
  {
  }

  lemma NextLane(b: Words, n: nat, r: nat, i: nat)
    requires r > 0 && n > 0 && 32 * r * i + 32 * r <= |b|
    ensures 32 * r * (i + 1) == 32 * r * i + 32 * r
    ensures Lanes(b, n, r, i + 1) == Lanes(b, n, r, i) + RoMixed(b[32 * r * i..32 * r * i + 32 * r], n, r)
  {
    hide RoMixed;
    assert 32 * r * (i + 1) == 32 * r * i + 32 * r;
  }

  lemma LaneOf(b0: Words, b: Words, w: nat, i: nat)
    requires |b| == |b0| && w * i + w <= |b| && b[w * i..] == b0[w * i..]
    ensures b[w * i..w * i + w] == b0[w * i..w * i + w]
    ensures b[w * i + w..] == b0[w * i + w..]
  {
    assert b[w * i..][..w] == b0[w * i..][..w];
    assert b[w * i..][w..] == b0[w * i..][w..];
  }

  lemma Joins(b: Words, at: nat, w: nat)
    requires at + w <= |b|
    ensures b[..at + w] == b[..at] + b[at..at + w]
  {
  }

  lemma Ends(b: Words, at: nat, w: nat)
    requires at + w <= |b|
    ensures b[at..][w..] == b[at + w..]
  {
  }

  /** `scrypt`, on a machine whose `usize` holds the numbers below `limit`. */
  method ScryptKey(password: Octets, salt: Octets, n: nat, r: nat, p: nat, len: nat, limit: nat)
    returns (key: Run<Result<Octets, ScryptError>>)
    requires n < U32_LIMIT
    ensures key == ScryptRun(password, salt, n, r, p, len, limit)
  {
    hide IsPowerOfTwo, Lanes, Derived, LittleWords, AllLittleOctets;
    if n < 2 || !IsPowerOfTwo(n) {
      return Returns(Err(InvalidN));
    }
    if r == 0 || p == 0 {
      return Returns(Err(InvalidBlockOrParallelism));
    }
    if len == 0 {
      return Returns(Err(InvalidKeyLength));
    }
    var blockWords := 32 * r;
    var bWords := blockWords * p;
    var vWords := blockWords * n;
    if blockWords >= limit || bWords >= limit || vWords >= limit || bWords * 4 >= limit || vWords * 4 >= limit {
      return Returns(Err(Overflow));
    }
    if !DeriveFits(|salt|, bWords * 4, limit) {
      return Panics;
    }
    var initial := Pbkdf2(password, salt, 1, bWords * 4);
    var words := LittleWords(initial);
    if !CanHold(4 * bWords, limit) || !CanHold(4 * vWords, limit) || !CanHold(4 * blockWords, limit) {
      return Panics;
    }
    var b := new Word[bWords](i requires 0 <= i < |words| => words[i]);
    assert b[..] == words;
    MixLanes(b, n, r, p);
    var bytes := AllLittleOctets(b[..]);
    if !DeriveFits(|bytes|, len, limit) {
      return Panics;
    }
    var out := Pbkdf2(password, bytes, 1, len);
    key := Returns(Ok(out));
  }
}
