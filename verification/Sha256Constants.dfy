/** Where the constants of SHA-256 come from: FIPS 180-4, sections 4.2.2 and 5.3.3, takes the first 32
    bits of the fractional parts of the cube roots of the first 64 primes, and of the square roots of
    the first eight. */
module Sha256Constants {
  import opened Division
  import opened Sha256

  const WORD: nat := 0x1_0000_0000

  predicate IsPrime(n: nat) {
    n > 1 && forall d :: 2 <= d < n ==> n % d != 0
  }

  /** The first primes, eight to a row. */
  function Primes(row: nat): (r: seq<nat>)
    ensures |r| == 8
  {
    match row
    case 0 => [2, 3, 5, 7, 11, 13, 17, 19]
    case 1 => [23, 29, 31, 37, 41, 43, 47, 53]
    case 2 => [59, 61, 67, 71, 73, 79, 83, 89]
    case 3 => [97, 101, 103, 107, 109, 113, 127, 131]
    case 4 => [137, 139, 149, 151, 157, 163, 167, 173]
    case 5 => [179, 181, 191, 193, 197, 199, 211, 223]
    case 6 => [227, 229, 233, 239, 241, 251, 257, 263]
    case _ => [269, 271, 277, 281, 283, 293, 307, 311]
  }

  function Prime(t: nat): nat
    requires t < 64
  {
    Primes(t / 8)[t % 8]
  }

  function Square(x: nat): nat {
    x * x
  }

  function Cube(x: nat): nat {
    x * x * x
  }

  /** The fraction of the square root of `p` begins with the bits of `w`. */
  predicate StartsSquareRoot(w: Word, p: nat, whole: nat) {
    Square(whole * WORD + w as nat) <= p * Square(WORD) < Square(whole * WORD + w as nat + 1)
  }

  /** The fraction of the cube root of `p` begins with the bits of `w`. */
  predicate StartsCubeRoot(w: Word, p: nat, whole: nat) {
    Cube(whole * WORD + w as nat) <= p * Cube(WORD) < Cube(whole * WORD + w as nat + 1)
  }

  function WholeCubeRoot(p: nat): nat {
    if p < 8 then 1 else if p < 27 then 2 else if p < 64 then 3 else if p < 125 then 4 else if p < 216 then 5 else 6
  }

  lemma InitIsSquareRoots()
    ensures StartsSquareRoot(INIT.a, 2, 1) && StartsSquareRoot(INIT.b, 3, 1)
    ensures StartsSquareRoot(INIT.c, 5, 2) && StartsSquareRoot(INIT.d, 7, 2)
    ensures StartsSquareRoot(INIT.e, 11, 3) && StartsSquareRoot(INIT.f, 13, 3)
    ensures StartsSquareRoot(INIT.g, 17, 4) && StartsSquareRoot(INIT.h, 19, 4)
  {
    hide StartsSquareRoot;
    LowRoots();
    HighRoots();
  }

  lemma LowRoots()
    ensures StartsSquareRoot(INIT.a, 2, 1) && StartsSquareRoot(INIT.b, 3, 1)
    ensures StartsSquareRoot(INIT.c, 5, 2) && StartsSquareRoot(INIT.d, 7, 2)
  {
  }

  lemma HighRoots()
    ensures StartsSquareRoot(INIT.e, 11, 3) && StartsSquareRoot(INIT.f, 13, 3)
    ensures StartsSquareRoot(INIT.g, 17, 4) && StartsSquareRoot(INIT.h, 19, 4)
  {
  }

  lemma Row0(t: nat)
    requires t / 8 == 0 && t < 64
    ensures StartsCubeRoot(K(t), Prime(t), WholeCubeRoot(Prime(t)))
  {
  }

  lemma Row1(t: nat)
    requires t / 8 == 1 && t < 64
    ensures StartsCubeRoot(K(t), Prime(t), WholeCubeRoot(Prime(t)))
  {
  }

  lemma Row2(t: nat)
    requires t / 8 == 2 && t < 64
    ensures StartsCubeRoot(K(t), Prime(t), WholeCubeRoot(Prime(t)))
  {
  }

  lemma Row3(t: nat)
    requires t / 8 == 3 && t < 64
    ensures StartsCubeRoot(K(t), Prime(t), WholeCubeRoot(Prime(t)))
  {
  }

  lemma Row4(t: nat)
    requires t / 8 == 4 && t < 64
    ensures StartsCubeRoot(K(t), Prime(t), WholeCubeRoot(Prime(t)))
  {
  }

  lemma Row5(t: nat)
    requires t / 8 == 5 && t < 64
    ensures StartsCubeRoot(K(t), Prime(t), WholeCubeRoot(Prime(t)))
  {
  }

  lemma Row6(t: nat)
    requires t / 8 == 6 && t < 64
    ensures StartsCubeRoot(K(t), Prime(t), WholeCubeRoot(Prime(t)))
  {
  }

  lemma Row7(t: nat)
    requires t / 8 == 7 && t < 64
    ensures StartsCubeRoot(K(t), Prime(t), WholeCubeRoot(Prime(t)))
  {
  }

  /** Every round constant. */
  lemma ConstantsAreCubeRoots(t: nat)
    requires t < 64
    ensures StartsCubeRoot(K(t), Prime(t), WholeCubeRoot(Prime(t)))
  {
    hide StartsCubeRoot, K, Prime, WholeCubeRoot;
    match t / 8
    case 0 => Row0(t);
    case 1 => Row1(t);
    case 2 => Row2(t);
    case 3 => Row3(t);
    case 4 => Row4(t);
    case 5 => Row5(t);
    case 6 => Row6(t);
    case _ => Row7(t);
  }

  // ==== the table holds the first primes ====

  /** No prime below 19 divides `n`. */
  predicate IsSieved(n: nat) {
    && n % 2 != 0 && n % 3 != 0 && n % 5 != 0 && n % 7 != 0 && n % 11 != 0 && n % 13 != 0 && n % 17 != 0
  }

  predicate IsSmallPrime(n: nat) {
    n == 2 || n == 3 || n == 5 || n == 7 || n == 11 || n == 13 || n == 17
  }

  predicate IsListed(n: nat) {
    exists t :: 0 <= t < 64 && Prime(t) == n
  }

  /** The table is in order, and up to its last entry the primes are its entries. */
  lemma PrimesAreListed(n: nat)
    requires n <= 311
    ensures IsPrime(n) <==> IsListed(n)
  {
    hide IsPrime, IsListed, Prime, IsSieved;
    if IsListed(n) {
      ListedIsSieved(n);
      SievedIsPrime(n);
    }
    if IsPrime(n) {
      PrimeIsSieved(n);
      SievedIsListed(n);
    }
  }

  lemma PrimesRise(t: nat)
    requires t < 63
    ensures Prime(t) < Prime(t + 1)
  {
    hide Primes, Rises;
    var row := Primes(t / 8);
    if t % 8 < 7 {
      assert (t + 1) / 8 == t / 8;
      RowRises(t / 8);
      RisesAt(row, t % 8);
    } else {
      assert (t + 1) / 8 == t / 8 + 1;
      RowsRise(t / 8);
    }
  }

  predicate Rises(s: seq<nat>) {
    && |s| == 8 && s[0] < s[1] && s[1] < s[2] && s[2] < s[3] && s[3] < s[4] && s[4] < s[5] && s[5] < s[6] && s[6] < s[7]
  }

  lemma RisesAt(s: seq<nat>, i: nat)
    requires Rises(s) && i < 7
    ensures s[i] < s[i + 1]
  {
  }

  lemma RowRises(row: nat)
    requires row < 8
    ensures Rises(Primes(row))
  {
  }

  lemma RowsRise(row: nat)
    requires row < 7
    ensures Primes(row)[7] < Primes(row + 1)[0]
  {
  }

  lemma ListedIsSieved(n: nat)
    requires IsListed(n)
    ensures 1 < n <= 311 && (IsSieved(n) || IsSmallPrime(n))
  {
    hide IsSieved, IsSmallPrime, Primes;
    var t :| 0 <= t < 64 && Prime(t) == n;
    RowIsSieved(t / 8, t % 8);
  }

  lemma RowIsSieved(row: nat, i: nat)
    requires row < 8 && i < 8
    ensures 1 < Primes(row)[i] <= 311 && (IsSieved(Primes(row)[i]) || IsSmallPrime(Primes(row)[i]))
  {
    if row < 4 {
      LowRowIsSieved(row, i);
    } else {
      HighRowIsSieved(row, i);
    }
  }

  lemma LowRowIsSieved(row: nat, i: nat)
    requires row < 4 && i < 8
    ensures 1 < Primes(row)[i] <= 311 && (IsSieved(Primes(row)[i]) || IsSmallPrime(Primes(row)[i]))
  {
  }

  lemma HighRowIsSieved(row: nat, i: nat)
    requires 4 <= row < 8 && i < 8
    ensures 1 < Primes(row)[i] <= 311 && IsSieved(Primes(row)[i])
  {
  }

  lemma PrimeIsSieved(n: nat)
    requires IsPrime(n)
    ensures n > 1 && (IsSieved(n) || IsSmallPrime(n))
  {
  }

  lemma SievedIsPrime(n: nat)
    requires 1 < n < 361 && (IsSieved(n) || IsSmallPrime(n))
    ensures IsPrime(n)
  {
    if !IsSmallPrime(n) {
      forall d | 2 <= d < n ensures n % d != 0 {
        if n % d == 0 {
          Divided(n, d);
        }
      }
    }
  }

  /** Of two factors one is below 19. */
  lemma Divided(n: nat, d: nat)
    requires 2 <= d < n < 361 && n % d == 0
    ensures !IsSieved(n)
  {
    hide IsSieved;
    var e := n / d;
    assert n == d * e;
    if d < 19 {
      SmallFactor(n, d, e);
    } else if e < 19 {
      assert n == e * d;
      SmallFactor(n, e, d);
    } else {
      Product(d, e);
    }
  }

  lemma Product(d: nat, e: nat)
    requires d >= 19 && e >= 19
    ensures d * e >= 361
  {
    assert (d - 19) * (e - 19) >= 0;
  }

  lemma SmallFactor(n: nat, d: nat, e: nat)
    requires 2 <= d < 19 && n == d * e
    ensures !IsSieved(n)
  {
    match d
    case 2 => Multiple(n, 2, e);
    case 3 => Multiple(n, 3, e);
    case 4 => Multiple(n, 2, 2 * e);
    case 5 => Multiple(n, 5, e);
    case 6 => Multiple(n, 2, 3 * e);
    case 7 => Multiple(n, 7, e);
    case 8 => Multiple(n, 2, 4 * e);
    case 9 => Multiple(n, 3, 3 * e);
    case 10 => Multiple(n, 2, 5 * e);
    case 11 => Multiple(n, 11, e);
    case 12 => Multiple(n, 2, 6 * e);
    case 13 => Multiple(n, 13, e);
    case 14 => Multiple(n, 2, 7 * e);
    case 15 => Multiple(n, 3, 5 * e);
    case 16 => Multiple(n, 2, 8 * e);
    case 17 => Multiple(n, 17, e);
    case _ => Multiple(n, 2, 9 * e);
  }

  lemma Multiple(n: nat, p: nat, q: nat)
    requires p > 0 && n == p * q
    ensures n % p == 0
  {
    QuotientIs(n, p, q, 0);
  }

  lemma SievedIsListed(n: nat)
    requires 1 < n <= 311 && (IsSieved(n) || IsSmallPrime(n))
    ensures IsListed(n)
  {
    hide IsListed, Primes;
    if n <= 19 {
      Listed0(n);
      Entry(n, 0);
    } else if n <= 53 {
      Listed1(n);
      Entry(n, 1);
    } else if n <= 89 {
      Listed2(n);
      Entry(n, 2);
    } else if n <= 131 {
      Listed3(n);
      Entry(n, 3);
    } else if n <= 173 {
      Listed4(n);
      Entry(n, 4);
    } else if n <= 223 {
      Listed5(n);
      Entry(n, 5);
    } else if n <= 263 {
      Listed6(n);
      Entry(n, 6);
    } else {
      Listed7(n);
      Entry(n, 7);
    }
  }

  lemma Listed0(n: nat)
    requires 1 < n <= 19 && (IsSieved(n) || IsSmallPrime(n))
    ensures n in Primes(0)
  {
    var row := Primes(0);
    assert n == row[0] || n == row[1] || n == row[2] || n == row[3]
        || n == row[4] || n == row[5] || n == row[6] || n == row[7];
  }

  lemma Listed1(n: nat)
    requires 19 < n <= 53 && IsSieved(n)
    ensures n in Primes(1)
  {
    var k := Wheel(n);
    if k == 3 {
      assert n == 23;
    } else if k == 4 {
      assert n == 29;
    } else if k == 5 {
      assert n == 31;
    } else if k == 6 {
      assert n == 37 || n == 41;
    } else if k == 7 {
      assert n == 43 || n == 47;
    } else {
      assert n == 53;
    }
  }

  lemma Listed2(n: nat)
    requires 53 < n <= 89 && IsSieved(n)
    ensures n in Primes(2)
  {
    var k := Wheel(n);
    if k == 9 {
      assert n == 59;
    } else if k == 10 {
      assert n == 61;
    } else if k == 11 {
      assert n == 67 || n == 71;
    } else if k == 12 {
      assert n == 73;
    } else if k == 13 {
      assert n == 79 || n == 83;
    } else {
      assert n == 89;
    }
  }

  lemma Listed3(n: nat)
    requires 89 < n <= 131 && IsSieved(n)
    ensures n in Primes(3)
  {
    var k := Wheel(n);
    if k == 15 {
      assert false;
    } else if k == 16 {
      assert n == 97 || n == 101;
    } else if k == 17 {
      assert n == 103 || n == 107;
    } else if k == 18 {
      assert n == 109 || n == 113;
    } else if k == 19 {
      assert false;
    } else if k == 20 {
      assert false;
    } else {
      assert n == 127 || n == 131;
    }
  }

  lemma Listed4(n: nat)
    requires 131 < n <= 173 && IsSieved(n)
    ensures n in Primes(4)
  {
    var k := Wheel(n);
    if k == 22 {
      assert n == 137;
    } else if k == 23 {
      assert n == 139;
    } else if k == 24 {
      assert n == 149;
    } else if k == 25 {
      assert n == 151;
    } else if k == 26 {
      assert n == 157;
    } else if k == 27 {
      assert n == 163 || n == 167;
    } else {
      assert n == 173;
    }
  }

  lemma Listed5(n: nat)
    requires 173 < n <= 223 && IsSieved(n)
    ensures n in Primes(5)
  {
    var k := Wheel(n);
    if k == 29 {
      assert n == 179;
    } else if k == 30 {
      assert n == 181;
    } else if k == 31 {
      assert n == 191;
    } else if k == 32 {
      assert n == 193 || n == 197;
    } else if k == 33 {
      assert n == 199;
    } else if k == 34 {
      assert false;
    } else if k == 35 {
      assert n == 211;
    } else if k == 36 {
      assert false;
    } else {
      assert n == 223;
    }
  }

  lemma Listed6(n: nat)
    requires 223 < n <= 263 && IsSieved(n)
    ensures n in Primes(6)
  {
    var k := Wheel(n);
    if k == 37 {
      assert n == 227;
    } else if k == 38 {
      assert n == 229 || n == 233;
    } else if k == 39 {
      assert n == 239;
    } else if k == 40 {
      assert n == 241;
    } else if k == 41 {
      assert n == 251;
    } else if k == 42 {
      assert n == 257;
    } else {
      assert n == 263;
    }
  }

  lemma Listed7(n: nat)
    requires 263 < n <= 311 && IsSieved(n)
    ensures n in Primes(7)
  {
    var k := Wheel(n);
    if k == 44 {
      assert n == 269;
    } else if k == 45 {
      assert n == 271;
    } else if k == 46 {
      assert n == 277 || n == 281;
    } else if k == 47 {
      assert n == 283;
    } else if k == 48 {
      assert n == 293;
    } else if k == 49 {
      assert false;
    } else if k == 50 {
      assert false;
    } else {
      assert n == 307 || n == 311;
    }
  }

  /** Without the factors 2 and 3. */
  lemma Wheel(n: nat) returns (k: nat)
    requires n % 2 != 0 && n % 3 != 0
    ensures n == 6 * k + 1 || n == 6 * k + 5
  {
    k := n / 6;
  }

  lemma Entry(n: nat, row: nat)
    requires row < 8 && n in Primes(row)
    ensures IsListed(n)
  {
    hide Primes;
    var i :| 0 <= i < 8 && Primes(row)[i] == n;
    assert (8 * row + i) / 8 == row && (8 * row + i) % 8 == i;
    assert Prime(8 * row + i) == n;
  }
}
