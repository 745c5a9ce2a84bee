/** scrypt as RFC 7914 defines it, over words. */
module ScryptSpec {
  import opened Division
  import opened Sha256
  import opened Hmac
  import opened Numerals

  type Words = seq<Word>

  function XorWord(a: Word, b: Word): Word {
    a ^ b
  }

  function XorWords(a: Words, b: Words): (r: Words)
    requires |a| == |b|
    ensures |r| == |a|
  {
    seq(|a|, i requires 0 <= i < |a| => XorWord(a[i], b[i]))
  }

  // ==== section 3: Salsa20/8 ====

  function Mix(target: Word, x: Word, y: Word, k: nat): Word
    requires k <= 32
  {
    target ^ (x + y).RotateLeft(k)
  }

  /** The quarter round on four positions. */
  function Quarter(s: Words, a: nat, b: nat, c: nat, d: nat): (t: Words)
    requires a < |s| && b < |s| && c < |s| && d < |s|
    ensures |t| == |s|
  {
    var s1 := s[b := Mix(s[b], s[a], s[d], 7)];
    var s2 := s1[c := Mix(s1[c], s1[b], s1[a], 9)];
    var s3 := s2[d := Mix(s2[d], s2[c], s2[b], 13)];
    s3[a := Mix(s3[a], s3[d], s3[c], 18)]
  }

  function Columns(s: Words): (t: Words)
    requires |s| == 16
    ensures |t| == 16
  {
    Quarter(Quarter(Quarter(Quarter(s, 0, 4, 8, 12), 5, 9, 13, 1), 10, 14, 2, 6), 15, 3, 7, 11)
  }

  function Rows(s: Words): (t: Words)
    requires |s| == 16
    ensures |t| == 16
  {
    Quarter(Quarter(Quarter(Quarter(s, 0, 1, 2, 3), 5, 6, 7, 4), 10, 11, 8, 9), 15, 12, 13, 14)
  }

  function DoubleRounds(s: Words, k: nat): (t: Words)
    requires |s| == 16
    ensures |t| == 16
  {
    if k == 0 then s else Rows(Columns(DoubleRounds(s, k - 1)))
  }

  function Salsa(x: Words): (t: Words)
    requires |x| == 16
    ensures |t| == 16
  {
    var y := DoubleRounds(x, 4);
    seq(16, i requires 0 <= i < 16 => Plus(x[i], y[i]))
  }

  // ==== section 4: scryptBlockMix ====

  /** 64-byte block `i`. */
  function Block(b: Words, i: nat): (r: Words)
    requires 16 * i + 16 <= |b|
    ensures |r| == 16
  {
    b[16 * i..16 * i + 16]
  }

  predicate IsBlocks(b: Words, r: nat) {
    r > 0 && |b| == 32 * r
  }

  /** Y[i] of the RFC. */
  function Y(b: Words, r: nat, i: nat): (y: Words)
    requires IsBlocks(b, r) && i < 2 * r
    ensures |y| == 16
  {
    Salsa(XorWords(if i == 0 then Block(b, 2 * r - 1) else Y(b, r, i - 1), Block(b, i)))
  }

  /** Which Y the output block `d` is: Y[0], Y[2], ... and then Y[1], Y[3], ... */
  function Shuffled(d: nat, r: nat): nat
    requires d < 2 * r
  {
    if d < r then 2 * d else 2 * (d - r) + 1
  }

  function Mixed(b: Words, r: nat): (m: Words)
    requires IsBlocks(b, r)
    ensures |m| == |b|
  {
    seq(32 * r, k requires 0 <= k < 32 * r => Y(b, r, Shuffled(k / 16, r))[k % 16])
  }

  // ==== section 5: scryptROMix ====

  /** V[i] of the RFC, and X after the first loop for `i` = N. */
  function V(b: Words, r: nat, i: nat): (x: Words)
    requires IsBlocks(b, r)
    ensures |x| == |b|
  {
    if i == 0 then b else Mixed(V(b, r, i - 1), r)
  }

  /** A little-endian integer. */
  function LittleEndian(words: Words): nat {
    if words == [] then 0 else words[0] as nat + U32_LIMIT * LittleEndian(words[1..])
  }

  function Integerify(x: Words, r: nat): nat
    requires IsBlocks(x, r)
  {
    LittleEndian(Block(x, 2 * r - 1))
  }

  /** X after `i` steps of the second loop. */
  function X(b: Words, n: nat, r: nat, i: nat): (x: Words)
    requires IsBlocks(b, r) && n > 0
    ensures |x| == |b|
  {
    if i == 0 then V(b, r, n)
    else
      var x := X(b, n, r, i - 1);
      Mixed(XorWords(x, V(b, r, Integerify(x, r) % n)), r)
  }

  function RoMixed(b: Words, n: nat, r: nat): (x: Words)
    requires IsBlocks(b, r) && n > 0
    ensures |x| == |b|
  {
    X(b, n, r, n)
  }

  // ==== section 6: scrypt ====

  function LittleWord(a: Octet, b: Octet, c: Octet, d: Octet): Word {
    BigEndian(d, c, b, a)
  }

  function LittleWords(s: Octets): (w: Words)
    ensures |w| == |s| / 4
  {
    if |s| < 4 then [] else [LittleWord(s[0], s[1], s[2], s[3])] + LittleWords(s[4..])
  }

  function LittleOctets(w: Word): (r: Octets)
    ensures |r| == 4
  {
    var s := WordOctets(w);
    [s[3], s[2], s[1], s[0]]
  }

  function AllLittleOctets(words: Words): (r: Octets)
    ensures |r| == 4 * |words|
  {
    if words == [] then [] else AllLittleOctets(words[..|words| - 1]) + LittleOctets(words[|words| - 1])
  }

  /** The first `i` of the `p` lanes, each mixed by itself. */
  function Lanes(b: Words, n: nat, r: nat, i: nat): (x: Words)
    requires r > 0 && n > 0 && 32 * r * i <= |b|
    ensures |x| == 32 * r * i
  {
    if i == 0 then []
    else
      assert 32 * r * (i - 1) + 32 * r == 32 * r * i;
      Lanes(b, n, r, i - 1) + RoMixed(b[32 * r * (i - 1)..32 * r * i], n, r)
  }

  function Scrypted(password: Octets, salt: Octets, n: nat, r: nat, p: nat, len: nat): (key: Octets)
    requires n > 0 && r > 0
    ensures |key| == len
  {
    var b := LittleWords(Derived(password, salt, 1, 4 * (32 * r * p)));
    Derived(password, AllLittleOctets(Lanes(b, n, r, p)), 1, len)
  }

  // ==== powers of two ====

  predicate IsPowerOfTwo(n: nat) {
    n == 1 || (n > 1 && n % 2 == 0 && IsPowerOfTwo(n / 2))
  }

  /** Bitwise and of two naturals. */
  function And(x: nat, y: nat): nat {
    if x == 0 || y == 0 then 0 else 2 * And(x / 2, y / 2) + (if x % 2 == 1 && y % 2 == 1 then 1 else 0)
  }

  /** Masking with a power of two less one is the remainder. */
  lemma {:induction false} MaskIsRemainder(x: nat, n: nat)
    requires IsPowerOfTwo(n)
    ensures And(x, n - 1) == x % n
    decreases n
  {
    if n > 1 {
      MaskIsRemainder(x / 2, n / 2);
      HalfRemainder(x, n / 2);
    }
  }

  lemma HalfRemainder(x: nat, half: nat)
    requires half > 0
    ensures x % (2 * half) == 2 * (x / 2 % half) + x % 2
  {
    var q, m := x / 2 / half, x / 2 % half;
    Divided(x / 2, half);
    assert x == 2 * (half * q) + (2 * m + x % 2);
    assert 2 * (half * q) == (2 * half) * q;
    QuotientIs(x, 2 * half, q, 2 * m + x % 2);
  }

  lemma Divided(x: nat, n: nat)
    requires n > 0
    ensures x == n * (x / n) + x % n
  {
  }

  lemma MultipleAdded(x: nat, n: nat, q: nat)
    requires n > 0
    ensures (x + n * q) % n == x % n
  {
    Divided(x, n);
    assert n * (x / n) + n * q == n * (x / n + q);
    QuotientIs(x + n * q, n, x / n + q, x % n);
  }

  /** A power of two divides every power of two that is not smaller. */
  lemma {:induction false} PowersDivide(n: nat, m: nat) returns (q: nat)
    requires IsPowerOfTwo(n) && IsPowerOfTwo(m) && n <= m
    ensures m == n * q
    decreases n
  {
    if n == 1 {
      q := m;
    } else {
      q := PowersDivide(n / 2, m / 2);
      assert m == 2 * (n / 2 * q);
      assert n == 2 * (n / 2);
      assert n * q == 2 * (n / 2 * q);
    }
  }

  lemma {:induction false} PowerTimes(n: nat, m: nat)
    requires IsPowerOfTwo(n) && IsPowerOfTwo(m)
    ensures IsPowerOfTwo(n * m)
    decreases n
  {
    if n > 1 {
      PowerTimes(n / 2, m);
      assert n * m == 2 * (n / 2 * m);
    }
  }

  lemma LimitIsPower()
    ensures IsPowerOfTwo(U32_LIMIT)
  {
    PowerTimes(2, 2);
    PowerTimes(4, 4);
    PowerTimes(16, 16);
    PowerTimes(256, 256);
    PowerTimes(65536, 65536);
  }

  lemma PowerPositive(n: nat)
    requires IsPowerOfTwo(n)
    ensures n > 0
  {
  }

  lemma HighWordsDrop(first: nat, high: nat, n: nat)
    requires IsPowerOfTwo(n) && n <= U32_LIMIT
    ensures n > 0 && (first + U32_LIMIT * high) % n == first % n
  {
    hide IsPowerOfTwo;
    LimitIsPower();
    PowerPositive(n);
    var q := PowersDivide(n, U32_LIMIT);
    MultipleTwice(n, q, high);
    MultipleAdded(first, n, q * high);
  }

  lemma MultipleTwice(n: nat, q: nat, high: nat)
    ensures (n * q) * high == n * (q * high)
  {
  }

  /** The first word of the last block, masked, is Integerify mod N. */
  lemma MaskIsIntegerify(x: Words, n: nat, r: nat)
    requires IsBlocks(x, r) && IsPowerOfTwo(n) && n <= U32_LIMIT
    ensures n > 0 && And(x[32 * r - 16] as nat, n - 1) == Integerify(x, r) % n
  {
    hide And, IsPowerOfTwo, Block;
    var block := Block(x, 2 * r - 1);
    FirstOfBlock(x, 2 * r - 1);
    PowerPositive(n);
    MaskIsRemainder(x[32 * r - 16] as nat, n);
    HighWordsDrop(x[32 * r - 16] as nat, LittleEndian(block[1..]), n);
  }

  lemma FirstOfBlock(x: Words, i: nat)
    requires 16 * i + 16 <= |x|
    ensures Block(x, i)[0] == x[16 * i]
  {
  }
}
