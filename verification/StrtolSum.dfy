/** The summing loops of my_strtol on any digits: what they return, and exactly when they report ERANGE. */
module StrtolSum {
  import opened Numerals
  import opened Strtol

  /** What each digit is worth modulo 2^64, added up without any wrapping. */
  function Residues(ds: seq<int>, base: nat): nat {
    if ds == [] then 0 else ds[0] * Pow(base, |ds| - 1) % TWO64 + Residues(ds[1..], base)
  }

  /** The largest magnitude a long holds on this side of zero. */
  function Limit(negative: bool): nat { if negative then -LONG_MIN else LONG_MAX }

  /** The residues miss the number by a multiple of 2^64. */
  lemma {:induction false} ResiduesCongruent(ds: seq<int>, base: nat) returns (m: int)
    ensures Horner(ds, base) == Residues(ds, base) + m * TWO64
  {
    if ds == [] {
      m := 0;
    } else {
      var rest, term := ds[1..], ds[0] * Pow(base, |ds| - 1);
      assert ds == [ds[0]] + rest;
      HornerFront(ds[0], rest, base);
      var m' := ResiduesCongruent(rest, base);
      m := term / TWO64 + m';
    }
  }

  lemma TermNonNegative(d: int, b: nat, e: nat)
    requires d >= 0
    ensures d * Pow(b, e) >= 0
  {
  }

  /** They do not miss it at all below 2^64. */
  lemma {:induction false} ResiduesBelow(ds: seq<int>, base: nat)
    requires Digits(ds, base) && Horner(ds, base) < TWO64
    ensures Residues(ds, base) == Horner(ds, base)
  {
    if ds != [] {
      var rest := ds[1..];
      assert ds == [ds[0]] + rest;
      HornerFront(ds[0], rest, base);
      HornerNonNegative(rest, base);
      TermNonNegative(ds[0], base, |rest|);
      ResiduesBelow(rest, base);
    }
  }

  /** The residues of the k rightmost digits. */
  function Right(ds: seq<int>, base: nat, k: nat): nat
    requires k <= |ds|
  {
    Residues(ds[|ds| - k..], base)
  }

  lemma RightStep(ds: seq<int>, base: nat, k: nat)
    requires k < |ds|
    ensures Right(ds, base, k + 1) == ds[|ds| - k - 1] * Pow(base, k) % TWO64 + Right(ds, base, k)
  {
    assert ds[|ds| - k - 1..][1..] == ds[|ds| - k..];
  }

  lemma PartialIsResidues(ds: seq<int>, base: nat, negative: bool, k: nat)
    requires k <= |ds|
    ensures Partial(ds, base, negative, k) == Wrap(Signed(negative, Right(ds, base, k)))
  {
    hide Wrap;
    var m := ResiduesCongruent(ds[|ds| - k..], base);
    WrapShift(Signed(negative, Right(ds, base, k)), Signed(negative, m));
  }

  /** One more residue moves the wrapped sum the wrong way exactly when the unwrapped one passes the limit. */
  lemma StepTrips(negative: bool, sum: nat, residue: nat)
    requires sum <= Limit(negative) && residue < TWO64
    ensures var p, q := Wrap(Signed(negative, sum)), Wrap(Signed(negative, sum + residue));
            (if negative then q > p else q < p) <==> sum + residue > Limit(negative)
  {
    hide Wrap;
    var x := Signed(negative, sum + residue);
    WrapShift(x, if negative then 1 else -1);
    assert LONG_MIN <= Signed(negative, sum) <= LONG_MAX;
    if sum + residue > Limit(negative) {
      assert LONG_MIN <= x + (if negative then 1 else -1) * TWO64 <= LONG_MAX;
    }
  }

  lemma {:induction false} TripsBeyond(ds: seq<int>, base: nat, negative: bool, k: nat)
    requires k <= |ds|
    ensures (exists j :: 0 < j <= k && TripsAt(ds, base, negative, j)) <==> Right(ds, base, k) > Limit(negative)
  {
    hide Wrap, Partial;
    if k == 0 {
      assert ds[|ds|..] == [];
    } else {
      TripsBeyond(ds, base, negative, k - 1);
      RightStep(ds, base, k - 1);
      if Right(ds, base, k - 1) <= Limit(negative) {
        PartialIsResidues(ds, base, negative, k - 1);
        PartialIsResidues(ds, base, negative, k);
        StepTrips(negative, Right(ds, base, k - 1), ds[|ds| - k] * Pow(base, k - 1) % TWO64);
        assert Right(ds, base, k) > Limit(negative) ==> TripsAt(ds, base, negative, k);
      }
    }
  }

  /**
   The exact overflow condition, for every digit sequence, base and sign: ERANGE if and only if the residues
   add up to more than a long holds; otherwise the sum of the residues, whatever the number itself is.
   */
  lemma SumIsResidues(ds: seq<int>, base: nat, negative: bool)
    ensures SumUp(ds, base, negative) ==
            if Residues(ds, base) > Limit(negative) then Outcome(0, ERANGE)
            else Outcome(Signed(negative, Residues(ds, base)), Zero)
  {
    hide Wrap, Partial;
    assert ds[|ds| - |ds|..] == ds;
    TripsBeyond(ds, base, negative, |ds|);
    if Residues(ds, base) <= Limit(negative) {
      WholeSum(ds, base, negative);
    }
  }

  lemma WholeSum(ds: seq<int>, base: nat, negative: bool)
    requires Residues(ds, base) <= Limit(negative)
    ensures Wrap(Signed(negative, Horner(ds, base))) == Signed(negative, Residues(ds, base))
  {
    hide Wrap;
    var m := ResiduesCongruent(ds, base);
    WrapShift(Signed(negative, Residues(ds, base)), Signed(negative, m));
  }

  /**
   So the wraparound test is exact below 2^64: a representable number is returned as it is, any other is
   reported as out of range.
   */
  lemma SumIsExact(ds: seq<int>, base: nat, negative: bool)
    requires Digits(ds, base)
    ensures var v := Signed(negative, Horner(ds, base));
            && (LONG_MIN <= v <= LONG_MAX ==> SumUp(ds, base, negative) == Outcome(v, Zero))
            && (!(LONG_MIN <= v <= LONG_MAX) && Horner(ds, base) < TWO64 ==>
                  SumUp(ds, base, negative) == Outcome(0, ERANGE))
  {
    hide SumUp, Horner, Residues;
    HornerNonNegative(ds, base);
    SumIsResidues(ds, base, negative);
    if Horner(ds, base) < TWO64 {
      ResiduesBelow(ds, base);
    }
  }

  // ----- a one and zeros -----

  lemma {:induction false} ZerosResidue(base: nat, e: nat)
    ensures Residues(seq(e, _ => 0), base) == 0 && Horner(seq(e, _ => 0), base) == 0
  {
    var zs := seq(e, _ => 0);
    if e > 0 {
      assert zs[1..] == seq(e - 1, _ => 0) && zs[..e - 1] == seq(e - 1, _ => 0);
      ZerosResidue(base, e - 1);
    }
  }

  /** A power of the base, written as a one and zeros: what counts is the power modulo 2^64. */
  lemma PowerOfBase(base: nat, e: nat)
    ensures var ds := [1] + seq(e, _ => 0);
            && Horner(ds, base) == Pow(base, e)
            && Residues(ds, base) == Pow(base, e) % TWO64
            && SumUp(ds, base, false) == if Pow(base, e) % TWO64 > LONG_MAX then Outcome(0, ERANGE)
                                         else Outcome(Pow(base, e) % TWO64, Zero)
  {
    hide Pow, Horner;
    var zs := seq(e, _ => 0);
    var ds := [1] + zs;
    HornerFront(1, zs, base);
    ZerosResidue(base, e);
    assert ds[1..] == zs && ds[0] == 1;
    SumIsResidues(ds, base, false);
  }

  /** When the power is a multiple of 2^64, it comes back as 0 as if all were well. */
  lemma LargePowerGoesUnnoticed(base: nat, e: nat, m: nat)
    requires Pow(base, e) == m * TWO64 && m >= 1
    ensures var ds := [1] + seq(e, _ => 0);
            && Horner(ds, base) == Pow(base, e) > LONG_MAX
            && SumUp(ds, base, false) == Outcome(0, Zero)
  {
    hide Pow, Horner, Residues, SumUp;
    PowerOfBase(base, e);
    assert m * TWO64 % TWO64 == 0 && m * TWO64 >= TWO64;
  }

  lemma HexPower()
    ensures Pow(16, 16) == TWO64
  {
    assert Pow(16, 4) == 0x1_0000 by {
      assert Pow(16, 1) == 16 && Pow(16, 2) == 0x100 && Pow(16, 3) == 0x1000;
    }
    assert Pow(16, 8) == 0x1_0000_0000 by {
      assert Pow(16, 5) == 0x10_0000 && Pow(16, 6) == 0x100_0000 && Pow(16, 7) == 0x1000_0000;
    }
    assert Pow(16, 12) == 0x1_0000_0000_0000 by {
      assert Pow(16, 9) == 0x10_0000_0000 && Pow(16, 10) == 0x100_0000_0000 && Pow(16, 11) == 0x1000_0000_0000;
    }
    assert Pow(16, 13) == 0x10_0000_0000_0000 && Pow(16, 14) == 0x100_0000_0000_0000;
    assert Pow(16, 15) == 0x1000_0000_0000_0000;
  }
}
