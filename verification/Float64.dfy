/** How the numerals of a JSON document read as f64: `str::parse` rounds to the nearest value with
    53 significant bits, ties to even. */
module Float64 {
  import opened Bytes
  import opened Division
  import opened Numerals
  import opened JsonValue
  import opened JsonGrammar

  datatype F64 = Whole(n: int) | Fractional | Infinite

  /** From 2^1024 on, numbers read as infinite. */
  const EXPONENTS: nat := 1024

  function TwoTo(k: nat): nat {
    if k == 0 then 1 else 2 * TwoTo(k - 1)
  }

  /** Distance between neighbouring values at the magnitude of `m`. */
  function Ulp(m: nat): (u: nat)
    ensures u > 0
  {
    if m < SAFE_INT then 1 else 2 * Ulp(m / 2)
  }

  /** The nearest multiple of that distance, and of two the even one. */
  function Rounded(m: nat): nat {
    var u := Ulp(m);
    var q, r := m / u, m % u;
    if 2 * r < u || (2 * r == u && q % 2 == 0) then u * q else u * (q + 1)
  }

  /** The value of a number. `other` stands for the reading of fractions and exponents. */
  function ValueOf(number: Number, other: Text -> F64): F64 {
    match number
    case Int(n) => Whole(n)
    case Other(lexeme) =>
      match Magnitude(lexeme)
      case None => other(lexeme)
      case Some(m) =>
        if Rounded(m) >= TwoTo(EXPONENTS) then Infinite
        else Whole(if IsNegative(lexeme) then 0 - Rounded(m) else Rounded(m))
  }

  /** From 2^53 on, 53 bits are kept. */
  lemma {:induction false} SignificantBits(m: nat)
    requires m >= SAFE_INT
    ensures SAFE_INT / 2 <= m / Ulp(m) < SAFE_INT && Ulp(m) % 2 == 0
    decreases m
  {
    var half := m / 2;
    if half < SAFE_INT {
      assert Ulp(half) == 1;
    } else {
      SignificantBits(half);
      HalfQuotient(m, Ulp(half));
    }
  }

  lemma HalfQuotient(m: nat, u: nat)
    requires u > 0
    ensures m / (2 * u) == m / 2 / u
  {
    var q, r := m / 2 / u, m / 2 % u;
    assert m / 2 == u * q + r;
    assert m == (2 * u) * q + (2 * r + m % 2);
    QuotientIs(m, 2 * u, q, 2 * r + m % 2);
  }

  /** Rounding fixes the integers below 2^53, and never leads from the others to below it. */
  lemma RoundingKeepsRange(m: nat)
    ensures m < SAFE_INT ==> Rounded(m) == m
    ensures m >= SAFE_INT ==> Rounded(m) >= SAFE_INT
  {
    if m >= SAFE_INT {
      SignificantBits(m);
      var u, q := Ulp(m), m / Ulp(m);
      Scaled(u, SAFE_INT / 2, q);
      Scaled(SAFE_INT / 2, 2, u);
      Scaled(u, q, q + 1);
    }
  }

  function Distance(a: int, b: int): nat {
    if a < b then b - a else a - b
  }

  /** The distance between neighbours is a power of two that leaves 53 significant bits. */
  lemma {:induction false} UlpIsPower(m: nat) returns (k: nat)
    ensures Ulp(m) == TwoTo(k) && (m < SAFE_INT <==> k == 0)
    ensures m >= SAFE_INT ==> 0x10_0000_0000_0000 <= m / Ulp(m) < 0x20_0000_0000_0000
    decreases m
  {
    k := 0;
    if m >= SAFE_INT {
      SignificantBits(m);
      k := UlpIsPower(m / 2);
      k := k + 1;
    }
  }

  /** `k` times the distance is at most half of it away from `m`, and with an even `k` if exactly half. */
  predicate IsNearest(m: nat, k: nat) {
    var off := 2 * Distance(Ulp(m) * k, m);
    off <= Ulp(m) && (off == Ulp(m) ==> k % 2 == 0)
  }

  /** Rounding is to the nearest multiple of the distance, ties to the even one. */
  lemma RoundsExactly(m: nat, k: nat)
    ensures Rounded(m) == Ulp(m) * k <==> IsNearest(m, k)
  {
    hide Ulp;
    var u, q := Ulp(m), m / Ulp(m);
    NextMultiple(m, u);
    if k < q {
      Scaled(u, k + 1, q);
      assert u * (k + 1) == u * k + u;
    } else if k > q + 1 {
      Scaled(u, q + 2, k);
      assert u * (q + 2) == u * q + 2 * u;
    }
  }

  lemma NextMultiple(m: nat, u: nat)
    requires u > 0
    ensures m == u * (m / u) + m % u && u * (m / u + 1) == u * (m / u) + u
  {
  }

  // ==== the largest values ====

  /** Squaring `n` times. */
  function Squared(x: nat, n: nat): nat
    decreases n
  {
    if n == 0 then x else Squared(x * x, n - 1)
  }

  lemma {:induction false} TwoToSum(a: nat, b: nat)
    ensures TwoTo(a + b) == TwoTo(a) * TwoTo(b)
  {
    if a > 0 {
      TwoToSum(a - 1, b);
      assert 2 * (TwoTo(a - 1) * TwoTo(b)) == 2 * TwoTo(a - 1) * TwoTo(b);
    }
  }

  lemma {:induction false} TwoToSquared(k: nat, e: nat, n: nat)
    requires e == k * TwoTo(n)
    ensures TwoTo(e) == Squared(TwoTo(k), n)
    decreases n
  {
    if n > 0 {
      TwoToSum(k, k);
      assert k * (2 * TwoTo(n - 1)) == (k + k) * TwoTo(n - 1);
      TwoToSquared(k + k, e, n - 1);
    }
  }

  /** The value of an integer numeral has its sign, and is infinite from 2^1024 on: two, squared ten times. */
  lemma IntegerIsRead(lexeme: Text, m: nat, other: Text -> F64)
    requires Magnitude(lexeme) == Some(m)
    ensures ValueOf(Other(lexeme), other) ==
      if Rounded(m) >= Squared(2, 10) then Infinite
      else Whole(if "-" <= lexeme then 0 - Rounded(m) else Rounded(m))
  {
    hide Rounded, Magnitude, Squared;
    assert IsNegative(lexeme) <==> "-" <= lexeme;
    TenIsExponent();
    TwoToSquared(1, 1024, 10);
    assert TwoTo(1) == 2 * TwoTo(0);
  }

  lemma TenIsExponent()
    ensures TwoTo(10) == 1024
  {
    assert TwoTo(5) == 32;
    TwoToSum(5, 5);
  }
}
