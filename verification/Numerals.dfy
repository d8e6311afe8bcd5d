/** Positional numerals: Horner evaluation and printing, in any base from 2 up. */
module Numerals {

  const TWO64: int := 0x1_0000_0000_0000_0000

  function Pow(b: nat, e: nat): nat {
    if e == 0 then 1 else b * Pow(b, e - 1)
  }

  /** Every element is a digit of base b. */
  predicate Digits(ds: seq<int>, b: nat) {
    forall k :: 0 <= k < |ds| ==> 0 <= ds[k] < b
  }

  /** The left-to-right value of a digit sequence, most significant digit first. */
  function Horner(ds: seq<int>, b: nat): int {
    if ds == [] then 0 else Horner(ds[..|ds| - 1], b) * b + ds[|ds| - 1]
  }

  lemma LessFactor(p: int, q: int, b: int)
    requires b > 0 && p * b < q * b
    ensures p < q
  {
  }

  lemma MulMonotone(k: nat, p: int, q: int)
    requires p <= q
    ensures k * p <= k * q
  {
  }

  lemma Shrinks(n: nat, b: nat)
    requires b >= 2 && n >= b
    ensures 0 < n / b < n && 0 <= n % b < b && n == n / b * b + n % b
  {
    var q := n / b;
    assert n == q * b + n % b && 0 <= n % b < b;
    LessFactor(0, q, b);
    MulMonotone(q, 2, b);
  }

  /** The digits of n in base b, most significant first, without leading zeros. */
  function DigitsOf(n: nat, b: nat): (ds: seq<int>)
    requires b >= 2
    ensures ds != [] && Digits(ds, b)
    ensures n > 0 ==> ds[0] > 0
    decreases n
  {
    if n < b then [n] else
      Shrinks(n, b);
      DigitsOf(n / b, b) + [n % b]
  }

  /** Printing and evaluating are inverse. */
  lemma {:induction false} HornerOfDigits(n: nat, b: nat)
    requires b >= 2
    ensures Horner(DigitsOf(n, b), b) == n
    decreases n
  {
    var ds := DigitsOf(n, b);
    if n < b {
      assert ds[..|ds| - 1] == [];
    } else {
      Shrinks(n, b);
      HornerOfDigits(n / b, b);
      assert ds[..|ds| - 1] == DigitsOf(n / b, b);
    }
  }

  lemma DivMonotone(m: nat, n: nat, b: nat)
    requires b >= 2 && m <= n
    ensures m / b <= n / b
  {
    var p, q := m / b, n / b;
    assert m == p * b + m % b && n == q * b + n % b;
    assert (q + 1) * b == q * b + b;
    LessFactor(p, q + 1, b);
  }

  /** Numerals never get shorter as the number grows. */
  lemma {:induction false} WidthMonotone(m: nat, n: nat, b: nat)
    requires b >= 2 && m <= n
    ensures |DigitsOf(m, b)| <= |DigitsOf(n, b)|
    decreases n
  {
    if m >= b {
      Shrinks(m, b);
      Shrinks(n, b);
      DivMonotone(m, n, b);
      WidthMonotone(m / b, n / b, b);
    }
  }

  lemma {:induction false} HornerNonNegative(ds: seq<int>, b: nat)
    requires Digits(ds, b)
    ensures Horner(ds, b) >= 0
  {
    if ds != [] {
      HornerNonNegative(ds[..|ds| - 1], b);
      assert Horner(ds[..|ds| - 1], b) * b >= 0;
    }
  }

  lemma Distribute(d: int, p: int, h: int, b: int)
    ensures (d * p + h) * b == d * (b * p) + h * b
  {
  }

  /** Splitting off the leading digit: it weighs b to the number of digits after it. */
  lemma {:induction false} HornerFront(d: int, ds: seq<int>, b: nat)
    ensures Horner([d] + ds, b) == d * Pow(b, |ds|) + Horner(ds, b)
  {
    var all := [d] + ds;
    if ds == [] {
      assert all[..0] == [];
    } else {
      var init := ds[..|ds| - 1];
      assert all[..|all| - 1] == [d] + init;
      HornerFront(d, init, b);
      Distribute(d, Pow(b, |init|), Horner(init, b), b);
    }
  }

  lemma DigitsInjective(m: nat, n: nat, b: nat)
    requires b >= 2 && DigitsOf(m, b) == DigitsOf(n, b)
    ensures m == n
  {
    HornerOfDigits(m, b);
    HornerOfDigits(n, b);
  }
}
