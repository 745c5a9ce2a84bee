/** HMAC-SHA-256 and PBKDF2 of backend/src/crypto.rs:222-260 and backend/src/kdf.rs:138-179. */
module Hmac {
  import opened Numerals
  import opened Sha256

  // ==== section 2 of RFC 2104 ====

  function Xor(a: Octets, b: Octets): (r: Octets)
    requires |a| == |b|
    ensures |r| == |a|
  {
    seq(|a|, i requires 0 <= i < |a| => a[i] ^ b[i])
  }

  function Repeated(x: Octet, n: nat): (r: Octets)
    ensures |r| == n
  {
    seq(n, _ => x)
  }

  /** The key as one block: hashed first when it is longer, then filled with zeros. */
  function BlockKey(key: Octets): (r: Octets)
    ensures |r| == BLOCK
  {
    var short := if |key| > BLOCK then Digest(key) else key;
    short + Zeros(BLOCK - |short|)
  }

  function Mac(key: Octets, msg: Octets): (r: Octets)
    ensures |r| == DIGEST
  {
    var k := BlockKey(key);
    Digest(Xor(k, Repeated(0x5c, BLOCK)) + Digest(Xor(k, Repeated(0x36, BLOCK)) + msg))
  }

  /** The key block of `hmac_sha256`. */
  method FillKey(key: Octets) returns (k: Octets)
    ensures k == BlockKey(key)
  {
    hide Digest;
    var short := key;
    if |key| > BLOCK {
      short := Hash(key);
    }
    var block := new Octet[BLOCK](_ => 0);
    for i := 0 to |short|
      invariant block[..] == short[..i] + Zeros(BLOCK - i)
    {
      block[i] := short[i];
    }
    k := block[..];
  }

  /** A pad of `hmac_sha256`, filled with `x` and then combined with the key in place. */
  method Pad(k: Octets, x: Octet) returns (pad: Octets)
    requires |k| == BLOCK
    ensures pad == Xor(k, Repeated(x, BLOCK))
  {
    var a := new Octet[BLOCK](_ => x);
    for i := 0 to BLOCK
      invariant forall j :: 0 <= j < i ==> a[j] == k[j] ^ x
      invariant forall j :: i <= j < BLOCK ==> a[j] == x
    {
      XorCommutes(a[i], k[i]);
      a[i] := a[i] ^ k[i];
    }
    pad := a[..];
  }

  lemma XorCommutes(a: Octet, b: Octet)
    ensures a ^ b == b ^ a
  {
  }

  /** `hmac_sha256`, for keys and messages of any length. */
  method HmacSha256(key: Octets, msg: Octets) returns (tag: Octets)
    ensures tag == Mac(key, msg)
  {
    hide Digest, Xor, Repeated, BlockKey;
    var k := FillKey(key);
    var ipad := Pad(k, 0x36);
    var opad := Pad(k, 0x5c);
    var inner := Hash2(ipad, msg);
    tag := Hash2(opad, inner);
  }

  /** One hasher fed twice. */
  method Hash2(first: Octets, second: Octets) returns (digest: Octets)
    ensures digest == Digest(first + second)
  {
    hide Digest, Sha256.Fold, Sha256.ArrayVars, Sha256.IsWhole;
    var hasher := new Hasher();
    hasher.Update(first);
    assert [] + first == first;
    hasher.Update(second);
    digest := hasher.Finalize();
  }

  /** The key, octet by octet, under the inner and the outer pad. */
  lemma MacExactly(key: Octets, msg: Octets, inner: Octets, outer: Octets)
    requires |key| <= 64 && |inner| == 64 && |outer| == 64
    requires forall i :: 0 <= i < |key| ==> inner[i] == key[i] ^ 0x36 && outer[i] == key[i] ^ 0x5c
    requires forall i :: |key| <= i < 64 ==> inner[i] == 0x36 && outer[i] == 0x5c
    ensures Mac(key, msg) == Digest(outer + Digest(inner + msg))
  {
    hide Digest;
    var k := BlockKey(key);
    forall i | 0 <= i < 64
      ensures Xor(k, Repeated(0x36, BLOCK))[i] == inner[i] && Xor(k, Repeated(0x5c, BLOCK))[i] == outer[i]
    {
      if i >= |key| {
        assert k[i] == 0;
      }
    }
    assert Xor(k, Repeated(0x36, BLOCK)) == inner && Xor(k, Repeated(0x5c, BLOCK)) == outer;
  }

  /** A longer key stands for its digest. */
  lemma LongKey(key: Octets, msg: Octets)
    requires |key| > 64
    ensures Mac(key, msg) == Mac(Digest(key), msg)
  {
    hide Digest;
  }

  // ==== section 5.2 of RFC 2898 ====

  /** `u32::to_be_bytes` */
  function IndexOctets(n: nat): (r: Octets)
    ensures |r| == 4
  {
    LengthOctets(n % U32_LIMIT)[4..]
  }

  /** U_j of block `i`. */
  function U(password: Octets, salt: Octets, i: nat, j: nat): (r: Octets)
    requires j > 0
    ensures |r| == DIGEST
    decreases j
  {
    Mac(password, if j == 1 then salt + IndexOctets(i) else U(password, salt, i, j - 1))
  }

  /** T_i: the sum of U_1 to U_c. */
  function T(password: Octets, salt: Octets, i: nat, c: nat): (r: Octets)
    requires c > 0
    ensures |r| == DIGEST
    decreases c
  {
    if c == 1 then U(password, salt, i, 1) else Xor(T(password, salt, i, c - 1), U(password, salt, i, c))
  }

  /** T_1 to T_n, one after another. */
  function Blocks(password: Octets, salt: Octets, c: nat, n: nat): (r: Octets)
    requires c > 0
    ensures |r| == DIGEST * n
  {
    if n == 0 then [] else Blocks(password, salt, c, n - 1) + T(password, salt, n, c)
  }

  /** The first octets of T_1, T_2, ...; an iteration count of 0 is taken as 1. */
  function Derived(password: Octets, salt: Octets, iterations: nat, len: nat): (r: Octets)
    ensures |r| == len
  {
    Blocks(password, salt, if iterations == 0 then 1 else iterations, (len + DIGEST - 1) / DIGEST)[..len]
  }

  /** Two blocks of one iteration. */
  lemma TwoBlocks(password: Octets, salt: Octets)
    ensures Derived(password, salt, 1, 64) == Mac(password, salt + [0, 0, 0, 1]) + Mac(password, salt + [0, 0, 0, 2])
    ensures Derived(password, salt, 0, 64) == Derived(password, salt, 1, 64)
  {
    hide Mac;
    BlockIndex();
    var c: nat := 1;
    assert Blocks(password, salt, c, 0) == [];
    assert Blocks(password, salt, c, 1) == T(password, salt, 1, c);
    assert Blocks(password, salt, c, 2) == T(password, salt, 1, c) + T(password, salt, 2, c);
  }

  /** One block of three iterations. */
  lemma ThreeIterations(password: Octets, salt: Octets, k: nat)
    requires k < 32
    ensures var u1 := Mac(password, salt + [0, 0, 0, 1]);
      var u2 := Mac(password, u1);
      Derived(password, salt, 3, 32)[k] == u1[k] ^ u2[k] ^ Mac(password, u2)[k]
  {
    hide Mac;
    BlockIndex();
    assert Blocks(password, salt, 3, 0) == [];
    assert Blocks(password, salt, 3, 1) == T(password, salt, 1, 3);
    assert T(password, salt, 1, 2) == Xor(U(password, salt, 1, 1), U(password, salt, 1, 2));
    assert T(password, salt, 1, 3) == Xor(T(password, salt, 1, 2), U(password, salt, 1, 3));
  }

  lemma BlockIndex()
    ensures IndexOctets(1) == [0, 0, 0, 1] && IndexOctets(2) == [0, 0, 0, 2]
  {
    hide IndexOctets;
    IndexExactly(1);
    IndexExactly(2);
  }

  /** Four octets, the most significant first. */
  lemma IndexExactly(n: nat)
    requires n < 0x1_0000_0000
    ensures IndexOctets(n) == [(n / 0x100_0000 % 256) as Octet, (n / 0x1_0000 % 256) as Octet,
                               (n / 0x100 % 256) as Octet, (n % 256) as Octet]
  {
    hide Power256;
    Powers();
    assert n % U32_LIMIT == n;
    assert LengthOctets(n)[4] == LengthOctet(n, 4) && LengthOctets(n)[5] == LengthOctet(n, 5);
    assert LengthOctets(n)[6] == LengthOctet(n, 6) && LengthOctets(n)[7] == LengthOctet(n, 7);
  }

  lemma Powers()
    ensures Power256(0) == 1 && Power256(1) == 0x100 && Power256(2) == 0x1_0000 && Power256(3) == 0x100_0000
  {
    assert Power256(0) == 1 && Power256(1) == 256 * Power256(0) && Power256(2) == 256 * Power256(1);
  }

  /** The first octets of more blocks are the same. */
  lemma {:induction false} BlocksPrefix(password: Octets, salt: Octets, c: nat, m: nat, n: nat)
    requires c > 0 && m <= n
    ensures |Blocks(password, salt, c, m)| == DIGEST * m && |Blocks(password, salt, c, n)| == DIGEST * n
    ensures Blocks(password, salt, c, n)[..DIGEST * m] == Blocks(password, salt, c, m)
  {
    hide T;
    if m < n {
      BlocksPrefix(password, salt, c, m, n - 1);
    }
  }

  /** A shorter key is the beginning of a longer one. */
  lemma DerivedPrefix(password: Octets, salt: Octets, iterations: nat, len: nat, more: nat)
    requires len <= more
    ensures Derived(password, salt, iterations, more)[..len] == Derived(password, salt, iterations, len)
  {
    hide Blocks;
    var c := if iterations == 0 then 1 else iterations;
    var m, n := (len + DIGEST - 1) / DIGEST, (more + DIGEST - 1) / DIGEST;
    BlocksPrefix(password, salt, c, m, n);
    var all := Blocks(password, salt, c, n);
    assert all[..more][..len] == all[..DIGEST * m][..len];
  }

  /** The inner loop of `pbkdf2_hmac_sha256`. */
  method OneBlock(password: Octets, salt: Octets, i: nat, c: nat) returns (t: Octets)
    requires c > 0
    ensures t == T(password, salt, i, c)
  {
    hide Mac;
    var u := HmacSha256(password, salt + IndexOctets(i));
    t := u;
    for j := 1 to c
      invariant u == U(password, salt, i, j) && t == T(password, salt, i, j)
    {
      u := HmacSha256(password, u);
      t := Xor(t, u);
    }
  }

  /** `pbkdf2_hmac_sha256` */
  method Pbkdf2(password: Octets, salt: Octets, iterations: nat, len: nat) returns (out: Octets)
    ensures out == Derived(password, salt, iterations, len)
  {
    hide T, Derived, Blocks;
    var c := if iterations == 0 then 1 else iterations;
    out := [];
    var index := 1;
    NoBlocks(password, salt, c);
    while |out| < len
      invariant index >= 1 && |out| <= len
      invariant |out| == if DIGEST * (index - 1) < len then DIGEST * (index - 1) else len
      invariant |out| <= |Blocks(password, salt, c, index - 1)|
      invariant out == Blocks(password, salt, c, index - 1)[..|out|]
      decreases len - |out|
    {
      var t := OneBlock(password, salt, index, c);
      var take := if len - |out| < |t| then len - |out| else |t|;
      OneMore(password, salt, c, index, take);
      out := out + t[..take];
      index := index + 1;
    }
    Enough(password, salt, iterations, len, index - 1);
  }

  lemma NoBlocks(password: Octets, salt: Octets, c: nat)
    requires c > 0
    ensures Blocks(password, salt, c, 0) == []
  {
  }

  lemma OneMore(password: Octets, salt: Octets, c: nat, n: nat, take: nat)
    requires c > 0 && n > 0 && take <= DIGEST
    ensures |Blocks(password, salt, c, n - 1)| == DIGEST * (n - 1) && |Blocks(password, salt, c, n)| == DIGEST * n
    ensures Blocks(password, salt, c, n - 1) + T(password, salt, n, c)[..take] ==
      Blocks(password, salt, c, n)[..DIGEST * (n - 1) + take]
  {
    hide T;
  }

  lemma Enough(password: Octets, salt: Octets, iterations: nat, len: nat, n: nat)
    requires len <= DIGEST * n
    ensures var c := if iterations == 0 then 1 else iterations;
      |Blocks(password, salt, c, n)| >= len &&
      Blocks(password, salt, c, n)[..len] == Derived(password, salt, iterations, len)
  {
    hide Blocks;
    var c := if iterations == 0 then 1 else iterations;
    var m := (len + DIGEST - 1) / DIGEST;
    BlocksPrefix(password, salt, c, m, n);
    var all := Blocks(password, salt, c, n);
    assert all[..len] == all[..DIGEST * m][..len];
  }
}
