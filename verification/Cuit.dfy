/** The modulo-11 check digit of an Argentine CUIT, and the errors it catches. */
module Cuit {

  const WEIGHTS: seq<int> := [5, 4, 3, 2, 7, 6, 5, 4, 3, 2]

  predicate IsDigit(c: char) { '0' <= c <= '9' }

  // The text matches ^\d{11}$.
  predicate WellFormed(cuit: string) {
    |cuit| == 11 && forall i :: 0 <= i < 11 ==> IsDigit(cuit[i])
  }

  function Digit(cuit: string, i: nat): (d: int)
    requires WellFormed(cuit) && i < 11
    ensures 0 <= d <= 9
  {
    cuit[i] as int - '0' as int
  }

  function WeightedSum(cuit: string, n: nat): int
    requires WellFormed(cuit) && n <= 10
  {
    if n == 0 then 0 else WeightedSum(cuit, n - 1) + Digit(cuit, n - 1) * WEIGHTS[n - 1]
  }

  function Remainder(cuit: string): (r: int)
    requires WellFormed(cuit)
    ensures 0 <= r < 11
  {
    WeightedSum(cuit, 10) % 11
  }

  // The digit that the program demands for a remainder: 1 would need a tenth digit and gets 9.
  function CheckDigit(remainder: int): int
    requires 0 <= remainder < 11
  {
    if remainder == 0 then 0 else if remainder == 1 then 9 else 11 - remainder
  }

  predicate Accepts(cuit: string) {
    WellFormed(cuit) && CheckDigit(Remainder(cuit)) == Digit(cuit, 10)
  }

  method ValidateChecksum(cuit: string) returns (ok: bool)
    requires WellFormed(cuit)
    ensures ok <==> Accepts(cuit)
  {
    var sum := 0;
    for i := 0 to |WEIGHTS|
      invariant sum == WeightedSum(cuit, i)
    {
      sum := sum + (cuit[i] as int - '0' as int) * WEIGHTS[i];
    }
    var remainder := sum % 11;
    var checkDigit := 11 - remainder;
    if checkDigit == 11 {
      checkDigit := 0;
    } else if checkDigit == 10 {
      checkDigit := 9;
    }
    ok := checkDigit == cuit[10] as int - '0' as int;
  }

  method IsValid(cuit: string) returns (ok: bool)
    ensures ok <==> Accepts(cuit)
  {
    if !(|cuit| == 11 && forall i :: 0 <= i < 11 ==> IsDigit(cuit[i])) {
      return false;
    }
    ok := ValidateChecksum(cuit);
  }

  /** Acceptance as a linear code: with weight 1 on the check digit the sum is 0 modulo 11,
      except that a check digit 9 also stands in for the missing digit 10. */
  lemma AcceptsAsCode(cuit: string)
    requires WellFormed(cuit)
    ensures var s := (WeightedSum(cuit, 10) + Digit(cuit, 10)) % 11;
            Accepts(cuit) <==> s == 0 || (s == 10 && Digit(cuit, 10) == 9)
  {
    var w := WeightedSum(cuit, 10);
    assert w == 11 * (w / 11) + Remainder(cuit);
  }

  lemma {:induction false} SumDependsOnPrefix(a: string, b: string, n: nat)
    requires WellFormed(a) && WellFormed(b) && n <= 10 && a[..n] == b[..n]
    ensures WeightedSum(a, n) == WeightedSum(b, n)
  {
    if n == 0 {
    } else {
      assert a[n-1] == a[..n][n-1] == b[..n][n-1] == b[n-1];
      assert a[..n-1] == a[..n][..n-1] == b[..n][..n-1] == b[..n-1];
      SumDependsOnPrefix(a, b, n - 1);
    }
  }

  lemma DigitByDigit(cuit: string)
    requires WellFormed(cuit)
    ensures WeightedSum(cuit, 10) ==
      5 * Digit(cuit, 0) + 4 * Digit(cuit, 1) + 3 * Digit(cuit, 2) + 2 * Digit(cuit, 3) + 7 * Digit(cuit, 4)
      + 6 * Digit(cuit, 5) + 5 * Digit(cuit, 6) + 4 * Digit(cuit, 7) + 3 * Digit(cuit, 8) + 2 * Digit(cuit, 9)
  {
    assert WeightedSum(cuit, 1) == 5 * Digit(cuit, 0);
    assert WeightedSum(cuit, 2) == WeightedSum(cuit, 1) + 4 * Digit(cuit, 1);
    assert WeightedSum(cuit, 3) == WeightedSum(cuit, 2) + 3 * Digit(cuit, 2);
    assert WeightedSum(cuit, 4) == WeightedSum(cuit, 3) + 2 * Digit(cuit, 3);
    assert WeightedSum(cuit, 5) == WeightedSum(cuit, 4) + 7 * Digit(cuit, 4);
    assert WeightedSum(cuit, 6) == WeightedSum(cuit, 5) + 6 * Digit(cuit, 5);
    assert WeightedSum(cuit, 7) == WeightedSum(cuit, 6) + 5 * Digit(cuit, 6);
    assert WeightedSum(cuit, 8) == WeightedSum(cuit, 7) + 4 * Digit(cuit, 7);
    assert WeightedSum(cuit, 9) == WeightedSum(cuit, 8) + 3 * Digit(cuit, 8);
    assert WeightedSum(cuit, 10) == WeightedSum(cuit, 9) + 2 * Digit(cuit, 9);
  }

  /** Acceptance in the characters themselves: eleven digits whose sum under the weights
      5, 4, 3, 2, 7, 6, 5, 4, 3, 2 and 1 is 0 modulo 11, or 10 modulo 11 with a last digit 9. */
  lemma AcceptsExactly(c: string)
    ensures Accepts(c) <==>
      && |c| == 11 && (forall i :: 0 <= i < 11 ==> '0' <= c[i] <= '9')
      && var s := 5 * (c[0] - '0') as int + 4 * (c[1] - '0') as int + 3 * (c[2] - '0') as int + 2 * (c[3] - '0') as int
                  + 7 * (c[4] - '0') as int + 6 * (c[5] - '0') as int + 5 * (c[6] - '0') as int + 4 * (c[7] - '0') as int
                  + 3 * (c[8] - '0') as int + 2 * (c[9] - '0') as int + (c[10] - '0') as int;
         s % 11 == 0 || (s % 11 == 10 && c[10] == '9')
  {
    if WellFormed(c) {
      DigitByDigit(c);
      AcceptsAsCode(c);
    }
  }

  /** The weights run from 2 to 7 and over again, from the right. */
  lemma WeightRule(k: nat)
    requires k < 10
    ensures |WEIGHTS| == 10 && WEIGHTS[9 - k] == 2 + k % 6
  {
  }

  lemma CheckDigitIsUnique(a: string, b: string)
    requires Accepts(a) && Accepts(b) && a[..10] == b[..10]
    ensures a == b
  {
    SumDependsOnPrefix(a, b, 10);
    assert a[10] as int == b[10] as int;
    assert a == a[..10] + [a[10]] && b == b[..10] + [b[10]];
  }

  // Two remainders that the program cannot tell apart: both demand the digit 9.
  predicate Confused(r: int, r': int) {
    (r == 1 && r' == 2) || (r == 2 && r' == 1)
  }

  lemma CheckDigitCollisions(r: int, r': int)
    requires 0 <= r < 11 && 0 <= r' < 11
    ensures CheckDigit(r) == CheckDigit(r') <==> r == r' || Confused(r, r')
  {
  }

  lemma {:induction false} SumAfterChange(cuit: string, i: nat, d: char, n: nat)
    requires WellFormed(cuit) && i < 10 && IsDigit(d) && n <= 10
    ensures WellFormed(cuit[i := d])
    ensures WeightedSum(cuit[i := d], n)
         == WeightedSum(cuit, n) + if i < n then (d as int - cuit[i] as int) * WEIGHTS[i] else 0
  {
    if n == 0 {
    } else {
      SumAfterChange(cuit, i, d, n - 1);
    }
  }

  lemma NoSmallMultipleOf11(w: int, delta: int)
    requires 1 <= w <= 7 && -9 <= delta <= 9 && delta != 0
    ensures (delta * w) % 11 != 0
  {
    if w == 1 {} else if w == 2 {} else if w == 3 {} else if w == 4 {} else if w == 5 {} else if w == 6 {} else {}
  }

  lemma NotMultipleOf11(w: int, delta: int)
    requires -7 <= w <= 7 && -9 <= delta <= 9 && delta != 0
    ensures (delta * w) % 11 == 0 <==> w == 0
  {
    if w == 0 {
    } else if w > 0 {
      NoSmallMultipleOf11(w, delta);
    } else {
      NoSmallMultipleOf11(-w, delta);
      assert delta * w == -(delta * -w);
    }
  }

  lemma RemainderShift(s: int, shift: int)
    ensures (s + shift) % 11 == s % 11 <==> shift % 11 == 0
  {
  }

  /** Changing one of the first ten digits of an accepted CUIT is missed exactly when the
      remainder moves between 1 and 2. */
  lemma SingleDigitError(cuit: string, i: nat, d: char)
    requires Accepts(cuit) && i < 10 && IsDigit(d) && d != cuit[i]
    ensures WellFormed(cuit[i := d])
    ensures Accepts(cuit[i := d]) <==> Confused(Remainder(cuit), Remainder(cuit[i := d]))
  {
    SumAfterChange(cuit, i, d, 10);
    var delta := d as int - cuit[i] as int;
    NotMultipleOf11(WEIGHTS[i], delta);
    RemainderShift(WeightedSum(cuit, 10), delta * WEIGHTS[i]);
    CheckDigitCollisions(Remainder(cuit), Remainder(cuit[i := d]));
  }

  /** A wrong check digit is always caught. */
  lemma CheckDigitError(cuit: string, d: char)
    requires Accepts(cuit) && IsDigit(d) && d != cuit[10]
    ensures !Accepts(cuit[10 := d])
  {
    if Accepts(cuit[10 := d]) { CheckDigitIsUnique(cuit, cuit[10 := d]); }
  }

  /** Unless the check digit is 9, every change of one digit is caught. */
  lemma SingleDigitErrorCaught(cuit: string, i: nat, d: char)
    requires Accepts(cuit) && cuit[10] != '9' && i < 11 && IsDigit(d) && d != cuit[i]
    ensures !Accepts(cuit[i := d])
  {
    if i == 10 { CheckDigitError(cuit, d); } else { SingleDigitError(cuit, i, d); }
  }

  function Swap(cuit: string, i: nat, j: nat): string
    requires i < |cuit| && j < |cuit|
  {
    cuit[i := cuit[j]][j := cuit[i]]
  }

  lemma SumAfterSwap(cuit: string, i: nat, j: nat)
    requires WellFormed(cuit) && i < j < 10
    ensures WellFormed(Swap(cuit, i, j))
    ensures WeightedSum(Swap(cuit, i, j), 10)
         == WeightedSum(cuit, 10) + (Digit(cuit, j) - Digit(cuit, i)) * (WEIGHTS[i] - WEIGHTS[j])
  {
    SumAfterChange(cuit, i, cuit[j], 10);
    SumAfterChange(cuit[i := cuit[j]], j, cuit[i], 10);
    assert (Digit(cuit, j) - Digit(cuit, i)) * (WEIGHTS[i] - WEIGHTS[j])
        == (Digit(cuit, j) - Digit(cuit, i)) * WEIGHTS[i] + (Digit(cuit, i) - Digit(cuit, j)) * WEIGHTS[j];
  }

  lemma EqualWeights(i: nat, j: nat)
    requires i < j < 10
    ensures WEIGHTS[i] == WEIGHTS[j] <==> j == i + 6
    ensures -5 <= WEIGHTS[i] - WEIGHTS[j] <= 5
  {
  }

  /** Swapping two unequal digits among the first ten of an accepted CUIT is missed exactly when
      they stand six places apart or the remainder moves between 1 and 2. */
  lemma Transposition(cuit: string, i: nat, j: nat)
    requires Accepts(cuit) && i < j < 10 && cuit[i] != cuit[j]
    ensures WellFormed(Swap(cuit, i, j))
    ensures Accepts(Swap(cuit, i, j))
       <==> j == i + 6 || Confused(Remainder(cuit), Remainder(Swap(cuit, i, j)))
  {
    SumAfterSwap(cuit, i, j);
    EqualWeights(i, j);
    var delta, w := Digit(cuit, j) - Digit(cuit, i), WEIGHTS[i] - WEIGHTS[j];
    NotMultipleOf11(w, delta);
    RemainderShift(WeightedSum(cuit, 10), delta * w);
    CheckDigitCollisions(Remainder(cuit), Remainder(Swap(cuit, i, j)));
  }

  /** Adjacent transpositions are always caught when the check digit, moved or not, is not 9:
      the last pair of digits included. */
  lemma AdjacentTranspositionCaught(cuit: string, i: nat)
    requires Accepts(cuit) && i < 10 && cuit[i] != cuit[i+1]
    requires cuit[10] != '9' && Swap(cuit, i, i + 1)[10] != '9'
    ensures !Accepts(Swap(cuit, i, i + 1))
  {
    if i < 9 {
      Transposition(cuit, i, i + 1);
    } else {
      var swapped := Swap(cuit, 9, 10);
      SumAfterChange(cuit, 9, cuit[10], 10);
      SumDependsOnPrefix(swapped, cuit[9 := cuit[10]], 10);
      AcceptsAsCode(cuit);
      AcceptsAsCode(swapped);
      var delta := Digit(cuit, 10) - Digit(cuit, 9);
      NotMultipleOf11(1, delta);
      RemainderShift(WeightedSum(cuit, 10) + Digit(cuit, 10), delta);
    }
  }

  /** Swapping digits six places apart never changes the verdict, accepted or not. */
  lemma SixApartNeverNoticed(cuit: string, i: nat)
    requires WellFormed(cuit) && i < 4
    ensures Accepts(Swap(cuit, i, i + 6)) <==> Accepts(cuit)
  {
    SumAfterSwap(cuit, i, i + 6);
  }
}
