/**
 my_strtol on any text, by plain ranges of character codes: which characters the scan takes, what each is
 worth, and what becomes of a number with punctuation in it.
 */
module StrtolRanges {
  import opened Numerals
  import opened Options
  import opened Strtol
  import opened StrtolSum
  import opened StrtolClaims

  /** Up to base 10 everything below the first digit too many, punctuation and bytes above 127 included. */
  predicate Taken(x: int, base: int) {
    x != 0 && if base <= 10 then x < 48 + base else !(55 + base <= x <= 90) && !(87 + base <= x <= 122)
  }

  /** The distance from '0', or for a letter its place in the alphabet and ten. */
  function Worth(x: int, base: int): int {
    if base > 10 && 65 <= x <= 90 then x - 55 else if base > 10 && 97 <= x <= 122 then x - 87 else x - 48
  }

  function Worths(run: string, base: int): (ds: seq<int>)
    ensures |ds| == |run| && forall k :: 0 <= k < |ds| ==> ds[k] == Worth(Code(run[k]), base)
  {
    seq(|run|, k requires 0 <= k < |run| => Worth(Code(run[k]), base))
  }

  lemma AcceptsRanges(x: int, base: int)
    requires 2 <= base <= 36
    ensures x != 0 && Accepts(x, base) <==> Taken(x, base)
    ensures Taken(x, base) ==> DigitOf(x, base) == Worth(x, base)
  {
  }

  /** The scan stops at the first character outside the ranges, from any place in any text. */
  lemma ScanByRanges(str: string, k: nat, base: int)
    requires k <= |str| && 2 <= base <= 36
    ensures var r := Stop(str, k, base);
            && k <= r <= |str|
            && (forall j :: k <= j < r ==> Taken(At(str, j), base))
            && !Taken(At(str, r), base)
  {
    hide Accepts, Code;
    var r := Stop(str, k, base);
    forall j | k <= j < r ensures Taken(At(str, j), base) {
      NoNulInScan(str, k, base, j);
      AcceptsRanges(At(str, j), base);
    }
    AcceptsRanges(At(str, r), base);
  }

  lemma {:induction false} NoNulInScan(str: string, k: nat, base: int, j: nat)
    requires k <= |str| && k <= j < Stop(str, k, base)
    ensures At(str, j) != 0
    decreases |str| - k
  {
    StopStep(str, k, base);
    if k < j {
      NoNulInScan(str, k + 1, base, j);
    }
  }

  lemma {:induction false} StopAtRunEnd(str: string, k: nat, r: nat, base: int)
    requires k <= r <= |str| && 2 <= base <= 36
    requires (forall j :: k <= j < r ==> Taken(At(str, j), base)) && !Taken(At(str, r), base)
    ensures Stop(str, k, base) == r
    decreases r - k
  {
    hide Accepts, Code;
    StopStep(str, k, base);
    AcceptsRanges(At(str, k), base);
    if k < r {
      StopAtRunEnd(str, k + 1, r, base);
    }
  }

  /** The number starts right behind blanks and sign, in base radix. */
  predicate Starts(sign: string, s: string, base: int, radix: nat) {
    && s != "" && 2 <= radix <= 36
    && (sign == "" ==> Code(s[0]) != 32 && Code(s[0]) != 43 && Code(s[0]) != 45)
    && (if base == 0 then radix == 10 && 49 <= Code(s[0]) <= 57
        else base == radix && (base == 2 ==> 48 <= Code(s[0]) <= 49)
             && (base == 8 || base == 16 ==> Code(s[0]) != 48))
  }

  lemma HeaderAtStart(sign: string, s: string, base: int, radix: nat)
    requires Starts(sign, s, base, radix)
    ensures Prefix(s, 0, base) == Header(radix, 0)
  {
    hide Code;
  }

  lemma StartsAt(str: string, sign: string, s: string, base: int, radix: nat)
    requires Framed(str, sign, s) && Starts(sign, s, base, radix)
    ensures var b := Blanks(str, 0);
            && Behind(str, |str| - |s|, s)
            && |str| - |s| == (if At(str, b) == 45 || At(str, b) == 43 then b + 1 else b)
            && (At(str, b) == 45 <==> sign == "-")
            && Prefix(str, |str| - |s|, base) == Header(radix, |str| - |s|)
  {
    hide Blanks, Prefix, Framed, Behind, Code;
    var n := FramedParts(str, sign, s);
    SignCodes();
    BlanksEnd(str, n, 0);
    HeaderAtStart(sign, s, base, radix);
    PrefixBehind(str, |str| - |s|, s, base);
  }

  lemma SignCodes()
    ensures Code('-') == 45 && Code('+') == 43
  {
  }

  /**
   Any number in a text, by the ranges: what follows it begins with a character outside them, or nothing. The
   value is the sum of what the characters are worth, in the sense of StrtolSum, and endptr is set behind them,
   or a NUL is written at the end of the text.
   */
  lemma NumberInText(str: string, sign: string, run: string, tail: string, base: int, radix: nat)
    requires run != "" && Framed(str, sign, run + tail) && Starts(sign, run + tail, base, radix)
    requires forall k :: 0 <= k < |run| ==> Taken(Code(run[k]), radix)
    requires tail != "" ==> !Taken(Code(tail[0]), radix)
    ensures var r := Residues(Worths(run, radix), radix);
            Result(str, base) == if r > Limit(sign == "-") then Outcome(0, ERANGE)
                                 else Outcome(Signed(sign == "-", r), Zero)
    ensures EndOf(str, base) == if tail == "" || Code(tail[0]) == 0 then NulWritten else Moved(|str| - |tail|)
  {
    hide Blanks, Stop, Prefix, Taken, Worth, Starts, Framed, SumUp, Residues, Limit, Code, Accepts, DigitOf;
    var s := run + tail;
    var at := |str| - |s|;
    StartsAt(str, sign, s, base, radix);
    RadixOk(sign, s, base, radix);
    var end := at + |run|;
    forall j | at <= j < end ensures Taken(At(str, j), radix) {
      AtBehind(str, at, s, j - at);
    }
    AtBehind(str, at, s, |run|);
    NulNotTaken(radix);
    StopAtRunEnd(str, at, end, radix);
    var ds := DigitValues(str, at, end, radix);
    forall k | 0 <= k < |run| ensures ds[k] == Worths(run, radix)[k] {
      AtBehind(str, at, s, k);
      AcceptsRanges(Code(run[k]), radix);
    }
    assert ds == Worths(run, radix);
    SumIsResidues(ds, radix, sign == "-");
  }

  lemma RadixOk(sign: string, s: string, base: int, radix: nat)
    requires Starts(sign, s, base, radix)
    ensures 2 <= radix <= 36
  {
  }

  lemma NulNotTaken(base: int)
    ensures !Taken(0, base)
  {
  }

  // ----- punctuation in a number -----

  lemma {:induction false} OneResidue(ds: seq<int>, base: nat, k: nat)
    requires k < |ds|
    ensures Residues(ds, base) >= ds[k] * Pow(base, |ds| - 1 - k) % TWO64
  {
    if k > 0 {
      OneResidue(ds[1..], base, k - 1);
    }
  }

  lemma BelowZero(w: int, p: int)
    requires -176 <= w <= -1 && p >= 1 && 176 * p < 0x8000_0000_0000_0000
    ensures w * p % TWO64 > 0x8000_0000_0000_0000
  {
    assert -176 * p <= w * p <= -p by { MulBetween(w, p); }
    assert (w * p + TWO64) % TWO64 == w * p % TWO64;
  }

  lemma MulBetween(w: int, p: int)
    requires -176 <= w <= -1 && p >= 1
    ensures -176 * p <= w * p <= -p
  {
  }

  lemma {:induction false} PowPositive(b: nat, e: nat)
    requires b >= 1
    ensures Pow(b, e) >= 1
  {
    if e > 0 {
      PowPositive(b, e - 1);
    }
  }

  /**
   A character below '0' (or a byte above 127) does not end the number: behind it the text is read on, and it
   counts as a negative digit, so the sum goes the wrong way there: ERANGE, with either sign, where the
   digits in front of it are a number for the standard.
   */
  lemma PunctuationIsRange(str: string, sign: string, front: string, c: char, back: string, tail: string,
                           base: int, radix: nat)
    requires var s := front + [c] + back; Framed(str, sign, s + tail) && Starts(sign, s + tail, base, radix)
    requires Code(c) != 0 && Code(c) < 48
    requires forall k :: 0 <= k < |front| ==> Taken(Code(front[k]), radix)
    requires forall k :: 0 <= k < |back| ==> Taken(Code(back[k]), radix)
    requires tail != "" ==> !Taken(Code(tail[0]), radix)
    requires 176 * Pow(radix, |back|) < 0x8000_0000_0000_0000
    ensures Result(str, base) == Outcome(0, ERANGE)
    ensures EndOf(str, base) == if tail == "" || Code(tail[0]) == 0 then NulWritten else Moved(|str| - |tail|)
  {
    hide Result, EndOf, Framed, Starts, Pow, Residues;
    var run, k := front + [c] + back, |front|;
    RadixOk(sign, run + tail, base, radix);
    forall j | 0 <= j < |run| ensures Taken(Code(run[j]), radix) {
      assert run[j] == if j < k then front[j] else if j == k then c else back[j - k - 1];
    }
    NumberInText(str, sign, run, tail, base, radix);
    var ds := Worths(run, radix);
    assert run[k] == c && ds[k] == Code(c) - 48;
    OneResidue(ds, radix, k);
    PowPositive(radix, |back|);
    BelowZero(ds[k], Pow(radix, |back|));
  }

  lemma {:induction false} PowMonotone(b: nat, e: nat, f: nat)
    requires b >= 1 && e <= f
    ensures Pow(b, e) <= Pow(b, f)
    decreases f
  {
    if e < f {
      PowMonotone(b, e, f - 1);
      MulMonotone(Pow(b, f - 1), 1, b);
    }
  }

  lemma TenToSixteen()
    ensures Pow(10, 16) == 1_0000_0000_0000_0000
  {
    assert Pow(10, 4) == 1_0000 by { assert Pow(10, 2) == 100; }
    assert Pow(10, 8) == 1_0000_0000 by { assert Pow(10, 6) == 100_0000; }
    assert Pow(10, 12) == 1_0000_0000_0000 by { assert Pow(10, 10) == 100_0000_0000; }
    assert Pow(10, 14) == 100_0000_0000_0000;
  }

  predicate AllDecimal(s: string) { forall k :: 0 <= k < |s| ==> '0' <= s[k] <= '9' }

  /** In decimal, with at most 16 digits behind the character; a char is signed. */
  lemma DecimalPunctuation(str: string, sign: string, front: string, c: char, back: string, base: int)
    requires str == sign + front + [c] + back && (sign == "" || sign == "-" || sign == "+")
    requires front != "" && front[0] != '0' && AllDecimal(front) && AllDecimal(back) && |back| <= 16
    requires ('\0' < c < '0' || 128 <= c as int <= 255) && (base == 0 || base == 10)
    ensures Result(str, base) == Outcome(0, ERANGE) && EndOf(str, base) == NulWritten
  {
    hide Result, EndOf, Pow;
    assert str[0..] == sign + (front + [c] + back + "");
    assert (front + [c] + back + "")[0] == front[0];
    TenToSixteen();
    PowMonotone(10, |back|, 16);
    PunctuationIsRange(str, sign, front, c, back, "", base, 10);
  }

  /** The driver's base is 0. */
  lemma ThreePointOneFour()
    ensures Result("3.14", 0) == Outcome(0, ERANGE) && EndOf("3.14", 0) == NulWritten
    ensures Result("-3.14", 0) == Outcome(0, ERANGE)
    ensures Result("12 34", 10) == Outcome(0, ERANGE)
    ensures Result("1,000", 0) == Outcome(0, ERANGE)
    ensures Result("5 ", 0) == Outcome(0, ERANGE)
  {
    hide Result, EndOf;
    DecimalPunctuation("3.14", "", "3", '.', "14", 0);
    DecimalPunctuation("-3.14", "-", "3", '.', "14", 0);
    DecimalPunctuation("12 34", "", "12", ' ', "34", 10);
    DecimalPunctuation("1,000", "", "1", ',', "000", 0);
    DecimalPunctuation("5 ", "", "5", ' ', "", 0);
  }
}
