/** SHA-256 of backend/src/crypto.rs:18-219 against FIPS 180-4. Octets and words are bit vectors,
    whose `+` wraps as `wrapping_add` does. */
module Sha256 {
  import opened Division

  type Octet = bv8
  type Word = bv32
  type Octets = seq<Octet>

  const BLOCK: nat := 64
  const DIGEST: nat := 32
  const U64_LIMIT: nat := 0x1_0000_0000_0000_0000

  // ==== words and octets ====

  function BigEndian(a: Octet, b: Octet, c: Octet, d: Octet): Word {
    ((a as Word) << 24) | ((b as Word) << 16) | ((c as Word) << 8) | (d as Word)
  }

  function WordOctets(w: Word): (r: Octets)
    ensures |r| == 4
  {
    [((w >> 24) & 0xff) as Octet, ((w >> 16) & 0xff) as Octet, ((w >> 8) & 0xff) as Octet, (w & 0xff) as Octet]
  }

  function AllOctets(words: seq<Word>): (r: Octets)
    ensures |r| == 4 * |words|
  {
    if words == [] then [] else AllOctets(words[..|words| - 1]) + WordOctets(words[|words| - 1])
  }

  /** `u64::to_be_bytes` */
  function LengthOctets(n: nat): (r: Octets)
    ensures |r| == 8
  {
    seq(8, i requires 0 <= i < 8 => LengthOctet(n, i))
  }

  function LengthOctet(n: nat, i: nat): Octet
    requires i < 8
  {
    (n / Power256(7 - i) % 256) as Octet
  }

  function Power256(i: nat): (p: nat)
    ensures p > 0
  {
    if i == 0 then 1 else 256 * Power256(i - 1)
  }

  function Zeros(n: nat): (r: Octets)
    ensures |r| == n
  {
    seq(n, _ => 0)
  }

  // ==== FIPS 180-4, section 6.2.2 ====

  /** The constants of section 4.2.2, eight to a row. */
  function Constants(row: nat): (r: seq<Word>)
    ensures |r| == 8
  {
    match row
    case 0 => [0x428a2f98, 0x71374491, 0xb5c0fbcf, 0xe9b5dba5, 0x3956c25b, 0x59f111f1, 0x923f82a4, 0xab1c5ed5]
    case 1 => [0xd807aa98, 0x12835b01, 0x243185be, 0x550c7dc3, 0x72be5d74, 0x80deb1fe, 0x9bdc06a7, 0xc19bf174]
    case 2 => [0xe49b69c1, 0xefbe4786, 0x0fc19dc6, 0x240ca1cc, 0x2de92c6f, 0x4a7484aa, 0x5cb0a9dc, 0x76f988da]
    case 3 => [0x983e5152, 0xa831c66d, 0xb00327c8, 0xbf597fc7, 0xc6e00bf3, 0xd5a79147, 0x06ca6351, 0x14292967]
    case 4 => [0x27b70a85, 0x2e1b2138, 0x4d2c6dfc, 0x53380d13, 0x650a7354, 0x766a0abb, 0x81c2c92e, 0x92722c85]
    case 5 => [0xa2bfe8a1, 0xa81a664b, 0xc24b8b70, 0xc76c51a3, 0xd192e819, 0xd6990624, 0xf40e3585, 0x106aa070]
    case 6 => [0x19a4c116, 0x1e376c08, 0x2748774c, 0x34b0bcb5, 0x391c0cb3, 0x4ed8aa4a, 0x5b9cca4f, 0x682e6ff3]
    case _ => [0x748f82ee, 0x78a5636f, 0x84c87814, 0x8cc70208, 0x90befffa, 0xa4506ceb, 0xbef9a3f7, 0xc67178f2]
  }

  function K(t: nat): Word
    requires t < 64
  {
    Constants(t / 8)[t % 8]
  }

  datatype Vars = Vars(a: Word, b: Word, c: Word, d: Word, e: Word, f: Word, g: Word, h: Word)

  const INIT := Vars(0x6a09e667, 0xbb67ae85, 0x3c6ef372, 0xa54ff53a, 0x510e527f, 0x9b05688c, 0x1f83d9ab, 0x5be0cd19)

  /** Addition modulo 2^32. */
  function Plus(x: Word, y: Word): Word {
    x + y
  }

  function SmallSigma0(x: Word): Word {
    x.RotateRight(7) ^ x.RotateRight(18) ^ (x >> 3)
  }

  function SmallSigma1(x: Word): Word {
    x.RotateRight(17) ^ x.RotateRight(19) ^ (x >> 10)
  }

  function BigSigma0(x: Word): Word {
    x.RotateRight(2) ^ x.RotateRight(13) ^ x.RotateRight(22)
  }

  function BigSigma1(x: Word): Word {
    x.RotateRight(6) ^ x.RotateRight(11) ^ x.RotateRight(25)
  }

  function Ch(x: Word, y: Word, z: Word): Word {
    (x & y) ^ (!x & z)
  }

  function Maj(x: Word, y: Word, z: Word): Word {
    (x & y) ^ (x & z) ^ (y & z)
  }

  /** The message schedule. */
  function W(block: Octets, t: nat): Word
    requires |block| == BLOCK
  {
    if t < 16 then BigEndian(block[4 * t], block[4 * t + 1], block[4 * t + 2], block[4 * t + 3])
    else Plus(Plus(Plus(W(block, t - 16), SmallSigma0(W(block, t - 15))), W(block, t - 7)),
           SmallSigma1(W(block, t - 2)))
  }

  function Round(v: Vars, k: Word, w: Word): Vars {
    var t1 := Plus(Plus(Plus(Plus(v.h, BigSigma1(v.e)), Ch(v.e, v.f, v.g)), k), w);
    var t2 := Plus(BigSigma0(v.a), Maj(v.a, v.b, v.c));
    Vars(Plus(t1, t2), v.a, v.b, v.c, Plus(v.d, t1), v.e, v.f, v.g)
  }

  function Rounds(v: Vars, block: Octets, t: nat): Vars
    requires |block| == BLOCK && t <= 64
  {
    if t == 0 then v else Round(Rounds(v, block, t - 1), K(t - 1), W(block, t - 1))
  }

  function Added(x: Vars, y: Vars): Vars {
    Vars(Plus(x.a, y.a), Plus(x.b, y.b), Plus(x.c, y.c), Plus(x.d, y.d),
         Plus(x.e, y.e), Plus(x.f, y.f), Plus(x.g, y.g), Plus(x.h, y.h))
  }

  function Compressed(v: Vars, block: Octets): Vars
    requires |block| == BLOCK
  {
    Added(v, Rounds(v, block, 64))
  }

  /** Folding the compression over the whole blocks of `s`. */
  function Fold(v: Vars, s: Octets): Vars
    decreases |s|
  {
    if |s| < BLOCK then v else Fold(Compressed(v, s[..BLOCK]), s[BLOCK..])
  }

  // ==== FIPS 180-4, section 5.1.1 ====

  /** The zeros between the 1 bit and the length: the least number that fills a block. */
  function PadZeros(n: nat): (k: nat)
    ensures (n + 1 + k + 8) % BLOCK == 0 && k < BLOCK
  {
    if n % BLOCK < 56 then 55 - n % BLOCK else 119 - n % BLOCK
  }

  function Padding(n: nat): Octets {
    [0x80] + Zeros(PadZeros(n)) + LengthOctets(8 * n % U64_LIMIT)
  }

  /** Section 5.1.1 counts the message in bits; below 2^61 bytes the count is exact. */
  lemma LengthIsExact(m: Octets)
    requires |m| < 0x2000_0000_0000_0000
    ensures Padding(|m|) == [0x80] + Zeros(PadZeros(|m|)) + LengthOctets(8 * |m|)
  {
    hide LengthOctets;
  }

  /** The number that octets spell, the most significant first. */
  function Spelled(s: Octets): nat {
    if s == [] then 0 else 256 * Spelled(s[..|s| - 1]) + s[|s| - 1] as nat
  }

  /** The length field spells the length. */
  lemma LengthIsSpelled(n: nat)
    requires n < U64_LIMIT
    ensures Spelled(LengthOctets(n)) == n
  {
    hide LengthOctets;
    PrefixIsSpelled(n, 8);
    assert LengthOctets(n)[..8] == LengthOctets(n);
    assert Power256(0) == 1;
  }

  lemma {:induction false} PrefixIsSpelled(n: nat, i: nat)
    requires n < U64_LIMIT && i <= 8
    ensures Spelled(LengthOctets(n)[..i]) == n / Power256(8 - i)
  {
    hide Power256, LengthOctet, Spelled;
    var s := LengthOctets(n);
    if i == 0 {
      LimitIsPower();
      QuotientIs(n, U64_LIMIT, 0, n);
      NothingIsSpelled();
    } else {
      PrefixIsSpelled(n, i - 1);
      SpelledSnoc(s[..i]);
      assert s[..i][..i - 1] == s[..i - 1];
      NextPower(8 - i);
      NextOctet(n, i - 1);
    }
  }

  lemma NothingIsSpelled()
    ensures Spelled([]) == 0
  {
  }

  lemma SpelledSnoc(s: Octets)
    requires s != []
    ensures Spelled(s) == 256 * Spelled(s[..|s| - 1]) + s[|s| - 1] as nat
  {
  }

  lemma NextOctet(n: nat, i: nat)
    requires i < 8
    ensures n / Power256(7 - i) == 256 * (n / (Power256(7 - i) * 256)) + LengthOctet(n, i) as nat
  {
    hide Power256;
    var p := Power256(7 - i);
    Twice(n, p, 256);
    OctetOf(n / p);
  }

  lemma OctetOf(x: nat)
    ensures x == 256 * (x / 256) + ((x % 256) as Octet) as nat
  {
  }

  lemma NextPower(i: nat)
    ensures Power256(i + 1) == Power256(i) * 256
  {
  }

  lemma LimitIsPower()
    ensures Power256(8) == U64_LIMIT
  {
    assert Power256(2) == 0x1_0000;
    assert Power256(4) == 256 * (256 * Power256(2));
    assert Power256(6) == 256 * (256 * Power256(4));
  }

  function VarsWords(v: Vars): (r: seq<Word>)
    ensures |r| == 8
  {
    [v.a, v.b, v.c, v.d, v.e, v.f, v.g, v.h]
  }

  /** SHA-256 of a whole message. */
  function Digest(m: Octets): (r: Octets)
    ensures |r| == DIGEST
  {
    AllOctets(VarsWords(Fold(INIT, m + Padding(|m|))))
  }

  lemma {:induction false} FoldConcat(v: Vars, a: Octets, b: Octets)
    requires |a| % BLOCK == 0
    ensures Fold(v, a + b) == Fold(Fold(v, a), b)
    decreases |a|
  {
    hide Compressed;
    if a == [] {
      assert a + b == b;
    } else {
      assert (a + b)[..BLOCK] == a[..BLOCK] && (a + b)[BLOCK..] == a[BLOCK..] + b;
      FoldConcat(Compressed(v, a[..BLOCK]), a[BLOCK..], b);
    }
  }

  lemma FoldBlock(v: Vars, block: Octets)
    requires |block| == BLOCK
    ensures Fold(v, block) == Compressed(v, block)
  {
    hide Compressed;
    assert block[..BLOCK] == block && block[BLOCK..] == [];
    assert Fold(Compressed(v, block), []) == Compressed(v, block);
  }

  // ==== the implementation ====

  function ArrayVars(state: array<Word>): Vars
    requires state.Length == 8
    reads state
  {
    Vars(state[0], state[1], state[2], state[3], state[4], state[5], state[6], state[7])
  }

  lemma LateWord(block: Octets, t: nat)
    requires |block| == BLOCK && t >= 16
    ensures W(block, t) == Plus(Plus(Plus(W(block, t - 16), SmallSigma0(W(block, t - 15))), W(block, t - 7)),
                                SmallSigma1(W(block, t - 2)))
  {
  }

  lemma EarlyWord(block: Octets, t: nat)
    requires |block| == BLOCK && t < 16
    ensures W(block, t) == BigEndian(block[t * 4], block[t * 4 + 1], block[t * 4 + 2], block[t * 4 + 3])
  {
    hide BigEndian;
  }

  /** The schedule loops of `compress`. */
  method Schedule(block: Octets) returns (w: array<Word>)
    requires |block| == BLOCK
    ensures fresh(w) && w.Length == 64 && forall t :: 0 <= t < 64 ==> w[t] == W(block, t)
  {
    hide W, BigEndian, SmallSigma0, SmallSigma1, Plus;
    w := new Word[64];
    for i := 0 to 16
      invariant forall t :: 0 <= t < i ==> w[t] == W(block, t)
    {
      EarlyWord(block, i);
      w[i] := BigEndian(block[i * 4], block[i * 4 + 1], block[i * 4 + 2], block[i * 4 + 3]);
    }
    for i := 16 to 64
      invariant forall t :: 0 <= t < i ==> w[t] == W(block, t)
    {
      LateWord(block, i);
      var s0 := SmallSigma0(w[i - 15]);
      var s1 := SmallSigma1(w[i - 2]);
      w[i] := Plus(Plus(Plus(w[i - 16], s0), w[i - 7]), s1);
    }
  }

  /** The round loop of `compress`. */
  method RunRounds(v0: Vars, block: Octets, schedule: array<Word>) returns (v: Vars)
    requires |block| == BLOCK && schedule.Length == 64 && forall t :: 0 <= t < 64 ==> schedule[t] == W(block, t)
    ensures v == Rounds(v0, block, 64)
  {
    hide W, K, BigSigma0, BigSigma1, Ch, Maj, Plus;
    var a, b, c, d := v0.a, v0.b, v0.c, v0.d;
    var e, f, g, h := v0.e, v0.f, v0.g, v0.h;
    for i := 0 to 64
      invariant Vars(a, b, c, d, e, f, g, h) == Rounds(v0, block, i)
    {
      var t1 := Plus(Plus(Plus(Plus(h, BigSigma1(e)), Ch(e, f, g)), K(i)), schedule[i]);
      var t2 := Plus(BigSigma0(a), Maj(a, b, c));
      h := g;
      g := f;
      f := e;
      e := Plus(d, t1);
      d := c;
      c := b;
      b := a;
      a := Plus(t1, t2);
    }
    v := Vars(a, b, c, d, e, f, g, h);
  }

  /** `compress` */
  method Compress(state: array<Word>, block: Octets)
    requires state.Length == 8 && |block| == BLOCK
    modifies state
    ensures ArrayVars(state) == Compressed(old(ArrayVars(state)), block)
  {
    hide W, Rounds, Plus;
    var w := Schedule(block);
    var v := RunRounds(ArrayVars(state), block, w);
    state[0] := Plus(state[0], v.a);
    state[1] := Plus(state[1], v.b);
    state[2] := Plus(state[2], v.c);
    state[3] := Plus(state[3], v.d);
    state[4] := Plus(state[4], v.e);
    state[5] := Plus(state[5], v.f);
    state[6] := Plus(state[6], v.g);
    state[7] := Plus(state[7], v.h);
  }

  /** Whole blocks. */
  predicate IsWhole(s: Octets) {
    |s| % BLOCK == 0
  }

  class Hasher {
    const state: array<Word>
    const buf: array<Octet>
    var bufLen: nat
    var totalLen: nat
    /** Everything absorbed so far, and the whole blocks of it that the state covers. */
    ghost var msg: Octets
    ghost var done: Octets

    ghost predicate Holds()
      reads this, state, buf
    {
      && state.Length == 8 && buf.Length == BLOCK && bufLen < BLOCK
      && IsWhole(done) && ArrayVars(state) == Fold(INIT, done)
      && msg == done + buf[..bufLen]
    }

    ghost predicate Valid()
      reads this, state, buf
    {
      Holds() && totalLen == |msg| % U64_LIMIT
    }

    /** `Sha256::new` */
    constructor ()
      ensures Valid() && fresh(state) && fresh(buf) && msg == []
    {
      hide Compressed;
      state := new Word[8](i => 0);
      buf := new Octet[BLOCK](i => 0);
      bufLen, totalLen, msg, done := 0, 0, [], [];
      new;
      StartState();
    }

    /** Writes the initial hash value. */
    method StartState()
      requires state.Length == 8
      modifies state
      ensures ArrayVars(state) == INIT
    {
      state[0], state[1], state[2], state[3] := INIT.a, INIT.b, INIT.c, INIT.d;
      state[4], state[5], state[6], state[7] := INIT.e, INIT.f, INIT.g, INIT.h;
    }

    /** Copying octets into the buffer. */
    method Copy(at: nat, data: Octets)
      requires buf.Length == BLOCK && at + |data| <= BLOCK
      modifies buf
      ensures buf[..at + |data|] == old(buf[..at]) + data
    {
      for i := 0 to |data|
        invariant buf[..at + i] == old(buf[..at]) + data[..i]
      {
        buf[at + i] := data[i];
      }
    }

    /** The first part of `update`: top up a partial block. */
    method TopUp(data: Octets) returns (rest: Octets)
      requires Holds() && bufLen > 0
      modifies this`bufLen, this`msg, this`done, state, buf
      ensures Holds() && |rest| <= |data| && data == data[..|data| - |rest|] + rest
      ensures msg == old(msg) + data[..|data| - |rest|] && (bufLen > 0 ==> rest == [])
    {
      hide Compressed, Fold, IsWhole, INIT;
      var take := if |data| < BLOCK - bufLen then |data| else BLOCK - bufLen;
      rest := data[take..];
      Copy(bufLen, data[..take]);
      Regroup(done, old(buf[..bufLen]), data[..take]);
      msg := msg + data[..take];
      bufLen := bufLen + take;
      if bufLen == BLOCK {
        var block := buf[..];
        assert block == buf[..BLOCK];
        FoldOne(INIT, done, block);
        Compress(state, block);
        done := msg;
        bufLen := 0;
        assert msg == done + buf[..0];
      }
    }

    /** The second part of `update`: whole blocks straight from the input. */
    method TakeBlocks(data: Octets) returns (rest: Octets)
      requires Holds() && (bufLen > 0 ==> data == [])
      modifies this`msg, this`done, state
      ensures Holds() && |rest| < BLOCK && |rest| <= |data| && data == data[..|data| - |rest|] + rest
      ensures msg == old(msg) + data[..|data| - |rest|]
    {
      hide Compressed, Fold, IsWhole, INIT;
      rest := data;
      assert msg == old(msg) + [];
      while |rest| >= BLOCK
        invariant Holds() && |rest| <= |data| && rest == data[|data| - |rest|..]
        invariant (bufLen > 0 ==> rest == []) && msg == old(msg) + data[..|data| - |rest|]
      {
        var block := rest[..BLOCK];
        assert msg == done;
        FoldOne(INIT, done, block);
        Compress(state, block);
        NextBlock(old(msg), data, |data| - |rest|);
        rest := rest[BLOCK..];
        msg := msg + block;
        done := msg;
        assert msg == done + buf[..0];
      }
    }

    /** `update`: any chunk, of any length. */
    method Update(data: Octets)
      requires Holds()
      modifies this, state, buf
      ensures Holds() && msg == old(msg) + data
      ensures old(Valid()) ==> Valid()
    {
      hide Compressed, Fold, IsWhole, INIT, ArrayVars;
      LengthWraps(|msg|, |data|);
      totalLen := (totalLen + |data|) % U64_LIMIT;
      var rest := data;
      if bufLen > 0 {
        rest := TopUp(data);
      } else {
        assert msg == msg + data[..0];
      }
      ghost var n := |data| - |rest|;
      var last := TakeBlocks(rest);
      Thrice(old(msg), data, n, rest, last);
      KeepRest(last);
    }

    /** The third part of `update`: whatever is left becomes the new partial block. */
    method KeepRest(data: Octets)
      requires Holds() && |data| < BLOCK && (bufLen > 0 ==> data == [])
      modifies this`bufLen, this`msg, buf
      ensures Holds() && msg == old(msg) + data
    {
      hide Compressed, Fold, IsWhole, INIT, ArrayVars;
      if data != [] {
        Copy(0, data);
        bufLen := |data|;
      }
      Regroup(done, old(buf[..bufLen]), data);
      msg := msg + data;
    }

    /** `finalize`: the digest of everything absorbed. */
    method Finalize() returns (digest: Octets)
      requires Valid()
      modifies this, state, buf
      ensures digest == Digest(old(msg))
    {
      hide Compressed, Fold, LengthOctets, AllOctets, Zeros, INIT;
      BitLength(|msg|);
      PadLength(done, buf[..bufLen]);
      var bitLen := totalLen * 8 % U64_LIMIT;
      var padLen := if bufLen < 56 then 56 - bufLen else 120 - bufLen;
      var padding := [0x80] + Zeros(padLen - 1) + LengthOctets(bitLen);
      totalLen := 0;
      Update(padding);
      NothingHeld(done, buf[..bufLen]);
      var words: seq<Word> := [state[0], state[1], state[2], state[3], state[4], state[5], state[6], state[7]];
      digest := AllOctets(words);
    }
  }

  lemma LengthWraps(n: nat, more: nat)
    ensures (n % U64_LIMIT + more) % U64_LIMIT == (n + more) % U64_LIMIT
  {
  }

  lemma BitLength(n: nat)
    ensures n % U64_LIMIT * 8 % U64_LIMIT == 8 * n % U64_LIMIT
  {
    var q, r := n / U64_LIMIT, n % U64_LIMIT;
    assert n == q * U64_LIMIT + r;
    ModPlus(8 * r, 8 * q);
  }

  lemma {:induction false} ModPlus(a: nat, q: nat)
    ensures (a + q * U64_LIMIT) % U64_LIMIT == a % U64_LIMIT
    decreases q
  {
    if q > 0 {
      ModPlus(a, q - 1);
      var b := a + (q - 1) * U64_LIMIT;
      assert (b + U64_LIMIT) % U64_LIMIT == b % U64_LIMIT;
    }
  }

  lemma PadLength(done: Octets, held: Octets)
    requires IsWhole(done) && |held| < BLOCK
    ensures PadZeros(|done + held|) + 1 == if |held| < 56 then 56 - |held| else 120 - |held|
    ensures IsWhole(done + held + Padding(|done + held|))
  {
    hide Zeros, LengthOctets;
    assert |done + held| % BLOCK == |held|;
  }

  lemma NothingHeld(done: Octets, held: Octets)
    requires IsWhole(done) && |held| < BLOCK && IsWhole(done + held)
    ensures done + held == done
  {
  }

  lemma FoldOne(v: Vars, done: Octets, block: Octets)
    requires IsWhole(done) && |block| == BLOCK
    ensures Fold(v, done + block) == Compressed(Fold(v, done), block) && IsWhole(done + block)
  {
    hide Compressed, Fold;
    FoldConcat(v, done, block);
    FoldBlock(Fold(v, done), block);
  }

  lemma Regroup(a: Octets, b: Octets, c: Octets)
    ensures (a + b) + c == a + (b + c)
  {
  }

  lemma NextBlock(m: Octets, data: Octets, n: nat)
    requires n + BLOCK <= |data|
    ensures (m + data[..n]) + data[n..][..BLOCK] == m + data[..n + BLOCK]
    ensures data[n..][BLOCK..] == data[n + BLOCK..]
  {
  }

  lemma Thrice(m: Octets, data: Octets, n: nat, rest: Octets, last: Octets)
    requires n <= |data| && data == data[..n] + rest
    requires |last| <= |rest| && rest == rest[..|rest| - |last|] + last
    ensures ((m + data[..n]) + rest[..|rest| - |last|]) + last == m + data
  {
  }

  // ==== chunks do not matter ====

  function Joined(chunks: seq<Octets>): Octets {
    if chunks == [] then [] else Joined(chunks[..|chunks| - 1]) + chunks[|chunks| - 1]
  }

  /** Every way of cutting a message into `update` calls gives the digest of the message. */
  method HashChunks(chunks: seq<Octets>) returns (digest: Octets)
    ensures digest == Digest(Joined(chunks))
  {
    hide Digest, Fold, IsWhole, INIT, ArrayVars;
    var hasher := new Hasher();
    for i := 0 to |chunks|
      invariant hasher.Valid() && fresh(hasher) && fresh(hasher.state) && fresh(hasher.buf)
      invariant hasher.msg == Joined(chunks[..i])
    {
      hasher.Update(chunks[i]);
      assert chunks[..i + 1][..i] == chunks[..i];
    }
    assert chunks[..|chunks|] == chunks;
    digest := hasher.Finalize();
  }

  /** `sha256` */
  method Hash(data: Octets) returns (digest: Octets)
    ensures digest == Digest(data)
  {
    hide Digest;
    var hasher := new Hasher();
    hasher.Update(data);
    assert [] + data == data;
    digest := hasher.Finalize();
  }
}
