/** Round-to-nearest binary64 (section 4.3.1 of IEEE 754-2019) over the non-negative
    amounts that an invoice can hold. */
module Float64 {

  function Pow2(e: int): (p: real)
    ensures p > 0.0
    decreases if e < 0 then -e else e
  {
    if e == 0 then 1.0 else if e > 0 then 2.0 * Pow2(e - 1) else Pow2(e + 1) / 2.0
  }

  // m * u, as repeated addition: proofs below stay linear.
  ghost function Times(m: int, u: real): real
    decreases if m < 0 then -m else m, u
  {
    if m == 0 then 0.0 else if m > 0 then Times(m - 1, u) + u else Times(m + 1, u) - u
  }

  lemma Distribute(a: real, b: real, u: real)
    ensures (a + b) * u == a * u + b * u
  {
  }

  lemma {:induction false} TimesIsProduct(m: int, u: real)
    ensures Times(m, u) == m as real * u
    decreases if m < 0 then -m else m
  {
    if m > 0 {
      TimesIsProduct(m - 1, u);
      Distribute((m - 1) as real, 1.0, u);
    } else if m < 0 {
      TimesIsProduct(m + 1, u);
      Distribute(m as real, 1.0, u);
    }
  }

  lemma {:induction false} TimesMonotone(a: int, b: int, u: real)
    requires a <= b && u >= 0.0
    ensures Times(a, u) <= Times(b, u)
    decreases b - a
  {
    if a < b { TimesMonotone(a + 1, b, u); }
  }

  lemma {:induction false} TimesDouble(m: int, u: real)
    ensures Times(m, 2.0 * u) == Times(2 * m, u)
    decreases if m < 0 then -m else m
  {
    if m > 0 {
      TimesDouble(m - 1, u);
      assert Times(2 * m, u) == Times(2 * m - 1, u) + u;
    } else if m < 0 {
      TimesDouble(m + 1, u);
      assert Times(2 * m, u) == Times(2 * m + 1, u) - u;
    }
  }

  ghost function Scaled(m: int, e: int): real { Times(m, Pow2(e)) }

  // The same value, as the product it is.
  function Product(m: int, e: int): (r: real)
    ensures r == Scaled(m, e)
  {
    TimesIsProduct(m, Pow2(e));
    m as real * Pow2(e)
  }

  ghost function NatPow2(n: nat): (p: nat)
    ensures p > 0
  {
    if n == 0 then 1 else 2 * NatPow2(n - 1)
  }

  // Multiples of a larger power of two are multiples of a smaller one.
  lemma {:induction false} FinerScale(m: int, e: int, n: nat)
    ensures Scaled(m, e + n) == Scaled(m * NatPow2(n), e)
    decreases n
  {
    if n > 0 {
      assert Pow2(e + n) == 2.0 * Pow2(e + n - 1);
      TimesDouble(m, Pow2(e + n - 1));
      FinerScale(2 * m, e, n - 1);
      assert 2 * m * NatPow2(n - 1) == m * NatPow2(n);
    }
  }

  lemma NatPow2Of53()
    ensures NatPow2(52) == 0x10_0000_0000_0000 && NatPow2(53) == 0x20_0000_0000_0000
  {
    assert NatPow2(10) == 1024;
    assert NatPow2(20) == 0x10_0000;
    assert NatPow2(30) == 0x4000_0000;
    assert NatPow2(40) == 0x100_0000_0000;
    assert NatPow2(50) == 0x4_0000_0000_0000;
  }

  lemma FullSignificand(e: int)
    ensures Scaled(0x10_0000_0000_0000, e) == Pow2(e + 52)
    ensures Scaled(0x20_0000_0000_0000, e) == Pow2(e + 53)
  {
    NatPow2Of53();
    FinerScale(1, e, 52);
    FinerScale(1, e, 53);
    assert forall u: real {:trigger Times(1, u)} :: Times(1, u) == Times(0, u) + u;
  }

  lemma {:induction false} Pow2Monotone(a: int, b: int)
    requires a <= b
    ensures Pow2(a) <= Pow2(b)
    decreases b - a
  {
    if a < b {
      assert Pow2(a + 1) == 2.0 * Pow2(a);
      Pow2Monotone(a + 1, b);
    }
  }

  // The finite binary64 values.
  ghost predicate IsFloat(y: real) {
    exists m: int, e: int ::
      -1074 <= e <= 971 && -0x20_0000_0000_0000 < m < 0x20_0000_0000_0000 && y == Scaled(m, e)
  }

  // Zero, or a magnitude between 2^-7 and 2^64.
  predicate InScope(x: real) { x == 0.0 || 0.0078125 <= x < 18446744073709551616.0 }

  lemma Pow2Of64()
    ensures Pow2(64) == 18446744073709551616.0
  {
    assert Pow2(10) == 1024.0;
    assert Pow2(20) == 1048576.0;
    assert Pow2(30) == 1073741824.0;
    assert Pow2(40) == 1099511627776.0;
    assert Pow2(50) == 1125899906842624.0;
    assert Pow2(60) == 1152921504606846976.0;
  }

  function BinadeFrom(x: real, k: int): (r: int)
    requires k <= 63 && Pow2(k) <= x < 18446744073709551616.0
    ensures k <= r <= 63 && Pow2(r) <= x < Pow2(r + 1)
    decreases 64 - k, x
  {
    if x < Pow2(k + 1) then k else
      assert k < 63 by { Pow2Of64(); }
      BinadeFrom(x, k + 1)
  }

  // The exponent of the last place of the significand.
  function Exponent(x: real): (e: int)
    requires InScope(x) && x != 0.0
    ensures -59 <= e <= 11 && Pow2(e + 52) <= x < Pow2(e + 53)
  {
    assert Pow2(-7) == 0.0078125;
    BinadeFrom(x, -7) - 52
  }

  lemma SignOfProduct(a: real, u: real)
    requires u > 0.0
    ensures a >= 0.0 <==> a * u >= 0.0
    ensures a > 0.0 <==> a * u > 0.0
  {
  }

  lemma TimesCompared(n: int, q: real, u: real)
    requires u > 0.0
    ensures n as real <= q ==> Times(n, u) <= q * u
    ensures q < n as real ==> q * u < Times(n, u)
  {
    TimesIsProduct(n, u);
    SignOfProduct(q - n as real, u);
    SignOfProduct(n as real - q, u);
    Distribute(q, -(n as real), u);
    Distribute(n as real, -q, u);
  }

  // The quotient rounded down counts the multiples of u up to x.
  lemma FloorBrackets(x: real, u: real)
    requires u > 0.0
    ensures Times((x / u).Floor, u) <= x < Times((x / u).Floor + 1, u)
  {
    TimesCompared((x / u).Floor, x / u, u);
    TimesCompared((x / u).Floor + 1, x / u, u);
  }

  lemma FullFloor(x: real, e: int, n: int)
    requires Pow2(e + 52) <= x < Pow2(e + 53) && Scaled(n, e) <= x < Scaled(n + 1, e)
    ensures 0x10_0000_0000_0000 <= n < 0x20_0000_0000_0000
  {
    FullSignificand(e);
    if n < 0x10_0000_0000_0000 { TimesMonotone(n + 1, 0x10_0000_0000_0000, Pow2(e)); }
    if n >= 0x20_0000_0000_0000 { TimesMonotone(0x20_0000_0000_0000, n, Pow2(e)); }
  }

  // The significand rounded down.
  function Truncated(x: real): (n: int)
    requires InScope(x) && x != 0.0
    ensures 0x10_0000_0000_0000 <= n < 0x20_0000_0000_0000
    ensures Scaled(n, Exponent(x)) <= x < Scaled(n + 1, Exponent(x))
  {
    var e := Exponent(x);
    FloorBrackets(x, Pow2(e));
    FullFloor(x, e, (x / Pow2(e)).Floor);
    (x / Pow2(e)).Floor
  }

  // The integral significand: nearest, and even in a tie.
  function Significand(x: real): int
    requires InScope(x) && x != 0.0
  {
    var n, e := Truncated(x), Exponent(x);
    var twice := 2.0 * (x - Product(n, e));
    if twice < Pow2(e) || (twice == Pow2(e) && n % 2 == 0) then n else n + 1
  }

  function Round(x: real): real
    requires InScope(x)
  {
    if x == 0.0 then 0.0 else Product(Significand(x), Exponent(x))
  }

  function Abs(x: real): real { if x < 0.0 then -x else x }

  /** The rounded value is a binary64 value no more than half a last place away. */
  lemma RoundIsFloat(x: real)
    requires InScope(x)
    ensures IsFloat(Round(x))
    ensures x != 0.0 ==> Abs(Round(x) - x) * 2.0 <= Pow2(Exponent(x))
  {
    if x == 0.0 {
      assert Scaled(0, 0) == 0.0;
    } else {
      var e, m := Exponent(x), Significand(x);
      assert Scaled(Truncated(x) + 1, Exponent(x)) == Scaled(Truncated(x), Exponent(x)) + Pow2(Exponent(x));
      if m == 0x20_0000_0000_0000 {
        FullSignificand(e);
        FullSignificand(e + 1);
        assert Scaled(0x10_0000_0000_0000, e + 1) == Scaled(m, e);
      }
    }
  }

  // No binary64 value lies strictly between two neighbours with 53-bit significands.
  lemma NoFloatBetween(n: int, e: int, z: real)
    requires 0x10_0000_0000_0000 <= n && IsFloat(z)
    ensures z <= Scaled(n, e) || Scaled(n + 1, e) <= z
  {
    var m, e' :| -1074 <= e' <= 971 && -0x20_0000_0000_0000 < m < 0x20_0000_0000_0000 && z == Scaled(m, e');
    if e' >= e {
      FinerScale(m, e, e' - e);
      var k := m * NatPow2(e' - e);
      if k <= n { TimesMonotone(k, n, Pow2(e)); } else { TimesMonotone(n + 1, k, Pow2(e)); }
    } else {
      TimesMonotone(m, 0x20_0000_0000_0000, Pow2(e'));
      FullSignificand(e');
      Pow2Monotone(e' + 53, e + 52);
      FullSignificand(e);
      TimesMonotone(0x10_0000_0000_0000, n, Pow2(e));
    }
  }

  // Of two neighbours lo and lo + u, the one chosen by halves is nearest to x.
  lemma NearerNeighbour(x: real, lo: real, u: real, r: real, z: real)
    requires u > 0.0 && lo <= x < lo + u && (r == lo || r == lo + u)
    requires 2.0 * (x - lo) < u ==> r == lo
    requires 2.0 * (x - lo) > u ==> r == lo + u
    requires z <= lo || lo + u <= z
    ensures Abs(r - x) <= Abs(z - x)
    ensures z != r && Abs(r - x) == Abs(z - x) ==> 2.0 * (x - lo) == u
  {
  }

  lemma NearestFloat(x: real, n: int, e: int, r: real, z: real)
    requires 0x10_0000_0000_0000 <= n && IsFloat(z) && Scaled(n, e) <= x < Scaled(n + 1, e)
    requires r == Scaled(n, e) || r == Scaled(n + 1, e)
    requires 2.0 * (x - Scaled(n, e)) < Pow2(e) ==> r == Scaled(n, e)
    requires 2.0 * (x - Scaled(n, e)) > Pow2(e) ==> r == Scaled(n + 1, e)
    ensures Abs(r - x) <= Abs(z - x)
    ensures z != r && Abs(r - x) == Abs(z - x) ==> 2.0 * (x - Scaled(n, e)) == Pow2(e)
  {
    assert Scaled(n + 1, e) == Scaled(n, e) + Pow2(e);
    NoFloatBetween(n, e, z);
    NearerNeighbour(x, Scaled(n, e), Pow2(e), r, z);
  }

  /** No binary64 value is nearer, and an equally near one loses only to an even significand. */
  lemma RoundIsNearest(x: real, z: real)
    requires InScope(x) && IsFloat(z)
    ensures Abs(Round(x) - x) <= Abs(z - x)
    ensures x != 0.0 && z != Round(x) && Abs(Round(x) - x) == Abs(z - x) ==> Significand(x) % 2 == 0
  {
    if x != 0.0 { NearestFloat(x, Truncated(x), Exponent(x), Round(x), z); }
  }

  lemma LastPlace(e: int)
    ensures Pow2(e + 52) == 4503599627370496.0 * Pow2(e)
  {
    FullSignificand(e);
    var m := 0x10_0000_0000_0000;
    TimesIsProduct(m, Pow2(e));
  }

  /** The relative error is at most 2^-53. */
  lemma RelativeError(x: real)
    requires InScope(x)
    ensures Abs(Round(x) - x) * 9007199254740992.0 <= x
  {
    if x != 0.0 {
      RoundIsFloat(x);
      LastPlace(Exponent(x));
    }
  }

  /** Values that are binary64 already are kept. */
  lemma FloatsAreExact(x: real)
    requires InScope(x) && IsFloat(x)
    ensures Round(x) == x
  {
    RoundIsNearest(x, x);
  }

  lemma ScopeOfIntegers(n: int)
    requires 0 <= n < 0x8000_0000_0000_0000
    ensures InScope(n as real)
  {
  }

  // float64(n) for a non-negative 64-bit integer
  function FromInt(n: int): real
    requires 0 <= n < 0x8000_0000_0000_0000
  {
    ScopeOfIntegers(n);
    Round(n as real)
  }

  /** Integers below 2^53 convert exactly. */
  lemma SmallIntegersExact(n: int)
    requires 0 <= n < 0x20_0000_0000_0000
    ensures FromInt(n) == n as real
  {
    ScopeOfIntegers(n);
    TimesIsProduct(n, 1.0);
    assert Scaled(n, 0) == n as real;
    FloatsAreExact(n as real);
  }

  lemma ScopeOfHundredths(cents: int)
    requires 0 <= cents < 0x8000_0000_0000_0000
    ensures InScope(FromInt(cents) / 100.0)
  {
    ScopeOfIntegers(cents);
    if cents < 0x20_0000_0000_0000 {
      SmallIntegersExact(cents);
    } else {
      RelativeError(cents as real);
    }
  }

  // float64(cents) / 100.0
  function Hundredth(cents: int): real
    requires 0 <= cents < 0x8000_0000_0000_0000
  {
    ScopeOfHundredths(cents);
    Round(FromInt(cents) / 100.0)
  }

  // A binary64 value closer to x than half its own last place is what x rounds to.
  lemma RoundsTo(x: real, n: int, e: int)
    requires InScope(x) && 0x10_0000_0000_0000 < n < 0x20_0000_0000_0000 && -1074 <= e <= 971
    requires Abs(x - Scaled(n, e)) * 2.0 < Pow2(e)
    ensures Round(x) == Scaled(n, e)
  {
    var u, y, r := Pow2(e), Scaled(n, e), Round(x);
    assert IsFloat(y);
    RoundIsFloat(x);
    RoundIsNearest(x, y);
    NoFloatBetween(n, e, r);
    NoFloatBetween(n - 1, e, r);
    assert Scaled(n + 1, e) == y + u && Scaled(n - 1, e) == y - u;
  }

  /** Whatever its size, a 64-bit integer converts to a nearest binary64 value, and a price in cents to a
      nearest one to the hundredth part of that. */
  lemma ConversionsAreNearest(n: int, z: real)
    requires 0 <= n < 0x8000_0000_0000_0000 && IsFloat(z)
    ensures IsFloat(FromInt(n)) && Abs(FromInt(n) - n as real) <= Abs(z - n as real)
    ensures IsFloat(Hundredth(n)) && Abs(Hundredth(n) - FromInt(n) / 100.0) <= Abs(z - FromInt(n) / 100.0)
  {
    ScopeOfIntegers(n);
    ScopeOfHundredths(n);
    RoundIsFloat(n as real);
    RoundIsFloat(FromInt(n) / 100.0);
    RoundIsNearest(n as real, z);
    RoundIsNearest(FromInt(n) / 100.0, z);
  }

  // ---- Unit prices: hundredths of an integer ----

  // In a last place of at most a quarter, a hundredth of an integer is a multiple of its 25th part.
  lemma TwentyFifths(cents: int, e: int)
    requires e <= -2
    ensures Scaled(cents * NatPow2(-2 - e), e) == 25.0 * (cents as real / 100.0)
  {
    FinerScale(cents, e, -2 - e);
    TimesIsProduct(cents, Pow2(-2));
    assert Pow2(-2) == 0.25;
  }

  lemma TimesAdd(a: int, b: int, u: real)
    ensures Times(a + b, u) == Times(a, u) + Times(b, u)
  {
    TimesIsProduct(a, u);
    TimesIsProduct(b, u);
    TimesIsProduct(a + b, u);
    Distribute(a as real, b as real, u);
  }

  lemma TimesOf25(m: int, u: real)
    ensures Times(25 * m, u) == 25.0 * Times(m, u)
  {
    TimesAdd(m, m, u);
    TimesAdd(2 * m, m, u);
    TimesAdd(3 * m, 3 * m, u);
    TimesAdd(6 * m, 6 * m, u);
    TimesAdd(12 * m, 12 * m, u);
    TimesAdd(24 * m, m, u);
  }

  lemma AtMostTwelve(d: int, u: real)
    requires u > 0.0 && Abs(Times(d, u)) * 2.0 <= 25.0 * u
    ensures Abs(Times(d, u)) <= 12.0 * u
  {
    TimesIsProduct(12, u);
    TimesIsProduct(-12, u);
    TimesIsProduct(13, u);
    TimesIsProduct(-13, u);
    if d > 12 {
      TimesMonotone(13, d, u);
    } else if d < -12 {
      TimesMonotone(d, -13, u);
    } else {
      TimesMonotone(d, 12, u);
      TimesMonotone(-12, d, u);
    }
  }

  // A multiple of a 25th of u no more than half of u away from a multiple of u is 12 of them away.
  lemma TwelveOf25(k: int, m: int, x: real, u: real)
    requires u > 0.0 && Times(k, u) == 25.0 * x && Abs(Times(m, u) - x) * 2.0 <= u
    ensures Abs(Times(m, u) - x) * 25.0 <= 12.0 * u
  {
    TimesOf25(m, u);
    TimesAdd(25 * m - k, k, u);
    AtMostTwelve(25 * m - k, u);
  }

  lemma ExponentBelow(x: real, k: int)
    requires InScope(x) && x != 0.0 && x < Pow2(k)
    ensures Exponent(x) + 52 < k
  {
    if Exponent(x) + 52 >= k { Pow2Monotone(k, Exponent(x) + 52); }
  }

  lemma ExponentOfHundredth(cents: int)
    requires 0 < cents < 0x20_0000_0000_0000
    ensures InScope(cents as real / 100.0) && Exponent(cents as real / 100.0) <= -3
  {
    ScopeOfHundredths(cents);
    SmallIntegersExact(cents);
    assert Pow2(10) == 1024.0;
    assert Pow2(20) == 1048576.0;
    assert Pow2(30) == 1073741824.0;
    assert Pow2(40) == 1099511627776.0;
    assert Pow2(50) == 1125899906842624.0;
    ExponentBelow(cents as real / 100.0, 50);
  }

  lemma RoundedWithin(x: real, k: int)
    requires InScope(x) && x != 0.0 && Times(k, Pow2(Exponent(x))) == 25.0 * x
    ensures Abs(Round(x) - x) * 225179981368524800.0 <= 24.0 * x
  {
    RoundIsFloat(x);
    TwelveOf25(k, Significand(x), x, Pow2(Exponent(x)));
    LastPlace(Exponent(x));
  }

  /** Because hundredths fall on 25th parts of a last place, a unit price below 2^53 cents is sent with a
      relative error of at most 24/25 of 2^-53. */
  lemma HundredthError(cents: int)
    requires 0 <= cents < 0x20_0000_0000_0000
    ensures Abs(Hundredth(cents) - cents as real / 100.0) * 225179981368524800.0 <= 24.0 * (cents as real / 100.0)
  {
    var x := cents as real / 100.0;
    ScopeOfHundredths(cents);
    SmallIntegersExact(cents);
    if cents != 0 {
      ExponentOfHundredth(cents);
      TwentyFifths(cents, Exponent(x));
      RoundedWithin(x, cents * NatPow2(-2 - Exponent(x)));
    }
  }

  // The whole number of cents nearest to an amount.
  function NearestCents(amount: real): int { (amount * 100.0 + 0.5).Floor }

  lemma NearestCentsWithin(amount: real, cents: int)
    requires Abs(amount - cents as real / 100.0) * 200.0 < 1.0
    ensures NearestCents(amount) == cents
  {
  }

  // 100 * 2^46: from here on binary64 amounts are more than a cent apart.
  const READABLE: int := 7036874417766400

  lemma Pow2Of46()
    ensures Pow2(46) == 70368744177664.0 && Pow2(-6) == 0.015625 && Pow2(-7) == 0.0078125
  {
    assert Pow2(10) == 1024.0;
    assert Pow2(20) == 1048576.0;
    assert Pow2(30) == 1073741824.0;
    assert Pow2(40) == 1099511627776.0;
  }

  /** A unit price of at most 100 * 2^46 cents is the nearest cent to the float that is sent. */
  lemma UnitPriceRecoverable(cents: int)
    requires 0 <= cents <= READABLE
    ensures NearestCents(Hundredth(cents)) == cents
  {
    var x := cents as real / 100.0;
    ScopeOfHundredths(cents);
    SmallIntegersExact(cents);
    Pow2Of46();
    if cents == READABLE {
      SmallIntegersExact(70368744177664);
    } else if cents != 0 {
      ExponentBelow(x, 46);
      Pow2Monotone(Exponent(x), -7);
      RoundIsFloat(x);
      NearestCentsWithin(Hundredth(cents), cents);
    }
  }

  // The next two prices share one float, which reads as the second of them.
  lemma FirstUnreadable()
    ensures Hundredth(READABLE + 1) == Hundredth(READABLE + 2) == 70368744177664.015625
    ensures NearestCents(Hundredth(READABLE + 1)) == READABLE + 2
  {
    Pow2Of46();
    var n := 0x10_0000_0000_0001;
    TimesIsProduct(n, Pow2(-6));
    assert Scaled(n, -6) == 70368744177664.015625;
    forall c | READABLE < c <= READABLE + 2 ensures Hundredth(c) == Scaled(n, -6) {
      ScopeOfHundredths(c);
      SmallIntegersExact(c);
      RoundsTo(c as real / 100.0, n, -6);
    }
  }

  /** Up to which price the float that is sent can be read back, exactly. */
  lemma PricesReadableExactly(limit: int)
    requires 0 <= limit < 0x8000_0000_0000_0000
    ensures (forall c :: 0 <= c <= limit ==> NearestCents(Hundredth(c)) == c) <==> limit <= READABLE
  {
    if limit <= READABLE {
      forall c | 0 <= c <= limit ensures NearestCents(Hundredth(c)) == c { UnitPriceRecoverable(c); }
    } else {
      FirstUnreadable();
      assert NearestCents(Hundredth(READABLE + 1)) != READABLE + 1;
    }
  }

  lemma SmallPricesDistinct(a: int, b: int)
    requires 0 <= a < b <= READABLE + 1
    ensures Hundredth(a) != Hundredth(b)
  {
    UnitPriceRecoverable(a);
    if b <= READABLE { UnitPriceRecoverable(b); } else { FirstUnreadable(); }
  }

  /** Up to which price all prices are sent as different floats, exactly. */
  lemma PricesDistinctExactly(limit: int)
    requires 0 <= limit < 0x8000_0000_0000_0000
    ensures (forall a, b :: 0 <= a < b <= limit ==> Hundredth(a) != Hundredth(b)) <==> limit <= READABLE + 1
  {
    if limit <= READABLE + 1 {
      forall a, b | 0 <= a < b <= limit ensures Hundredth(a) != Hundredth(b) { SmallPricesDistinct(a, b); }
    } else {
      FirstUnreadable();
      assert Hundredth(READABLE + 1) == Hundredth(READABLE + 2);
    }
  }
}
