/** my_strtol against section 7.22.1.4 of ISO C11: value, refusals, overflow, and printing back. */
module StrtolClaims {
  import opened Numerals
  import opened Options
  import opened Strtol
  import opened StrtolSum

  // ----- the standard's reading of a text of letters and digits -----

  predicate IsAlnum(x: int) { IsAlpha(x) || '0' as int <= x <= '9' as int }

  predicate AllAlnum(s: string) { forall k :: 0 <= k < |s| ==> IsAlnum(Code(s[k])) }

  /** 0..35 for 0-9 and the letters in either case. */
  function Value(x: int): (v: int)
    requires IsAlnum(x)
    ensures 0 <= v < 36
  {
    if '0' as int <= x <= '9' as int then x - '0' as int
    else if 'a' as int <= x <= 'z' as int then x - 'a' as int + 10
    else x - 'A' as int + 10
  }

  predicate DigitAt(s: string, k: nat, base: int)
    requires AllAlnum(s)
  {
    k < |s| && Value(Code(s[k])) < base
  }

  /** Behind the longest run of digits. */
  function RunEnd(s: string, k: nat, base: int): (r: nat)
    requires AllAlnum(s) && k <= |s|
    ensures k <= r <= |s| && (forall j :: k <= j < r ==> DigitAt(s, j, base)) && !DigitAt(s, r, base)
    decreases |s| - k
  {
    if DigitAt(s, k, base) then RunEnd(s, k + 1, base) else k
  }

  function Values(s: string, from: nat, to: nat): (ds: seq<int>)
    requires AllAlnum(s) && from <= to <= |s|
    ensures |ds| == to - from && forall k :: 0 <= k < |ds| ==> ds[k] == Value(Code(s[from + k]))
  {
    seq(to - from, k requires 0 <= k < to - from => Value(Code(s[from + k])))
  }

  predicate StartsWith0(s: string) { At(s, 0) == '0' as int }

  predicate HasX(s: string) { StartsWith0(s) && IsX(At(s, 1)) }

  /** The subject sequence's digits and their base. */
  datatype Reading = NoConversion | Number(digits: seq<int>, base: nat) {
    function Amount(): int
      requires Number?
    {
      Horner(digits, base)
    }
  }

  /** The subject sequence behind blanks and sign, evaluated from the left: 0x counts only before a hex digit. */
  function Standard(s: string, base: int): Reading
    requires AllAlnum(s)
  {
    var hex := HasX(s) && DigitAt(s, 2, 16) && (base == 0 || base == 16);
    var b := if hex then 16 else if base != 0 then base else if StartsWith0(s) then 8 else 10;
    var from := if hex then 2 else 0;
    var to := RunEnd(s, from, b);
    if to == from then NoConversion else Number(Values(s, from, to), if b >= 0 then b else 0)
  }

  /** The text is a zero whose digit my_strtol takes for a prefix and then finds nothing behind it. */
  predicate ZeroEaten(s: string, base: int)
    requires AllAlnum(s)
  {
    if HasX(s) && (base == 0 || base == 16) then !DigitAt(s, 2, 16)
    else StartsWith0(s) && (base == 0 || base == 8) && !DigitAt(s, 1, 8)
  }

  // ----- reading a text inside the whole argument -----

  /** str is s behind some blanks and a sign. */
  predicate Behind(str: string, at: nat, s: string) {
    at <= |str| && str[at..] == s
  }

  lemma AtBehind(str: string, at: nat, s: string, k: nat)
    requires Behind(str, at, s)
    ensures At(str, at + k) == At(s, k) && |str| == at + |s|
  {
    if k < |s| {
      assert str[at..][k] == str[at + k];
    }
  }

  lemma AcceptsDigits(x: int, base: int)
    requires IsAlnum(x) && 2 <= base <= 36
    ensures Accepts(x, base) <==> Value(x) < base
    ensures Value(x) < base ==> DigitOf(x, base) == Value(x)
  {
  }

  lemma {:induction false} StopIsRunEnd(str: string, at: nat, s: string, k: nat, base: int)
    requires Behind(str, at, s) && AllAlnum(s) && k <= |s| && 2 <= base <= 36
    ensures |str| == at + |s| && Stop(str, at + k, base) == at + RunEnd(s, k, base)
    decreases |s| - k
  {
    AtBehind(str, at, s, k);
    StopStep(str, at + k, base);
    if k < |s| {
      assert IsAlnum(Code(s[k]));
      AcceptsDigits(At(s, k), base);
      if DigitAt(s, k, base) {
        StopIsRunEnd(str, at, s, k + 1, base);
      }
    }
  }

  lemma ValuesAgree(str: string, at: nat, s: string, from: nat, to: nat, base: int)
    requires Behind(str, at, s) && AllAlnum(s) && from <= to <= |s| && 2 <= base <= 36
    requires forall j :: from <= j < to ==> DigitAt(s, j, base)
    ensures |str| == at + |s| && DigitValues(str, at + from, at + to, base) == Values(s, from, to)
    ensures Digits(Values(s, from, to), base)
  {
    AtBehind(str, at, s, 0);
    var ds, vs := DigitValues(str, at + from, at + to, base), Values(s, from, to);
    forall k | 0 <= k < to - from ensures ds[k] == vs[k] && 0 <= vs[k] < base {
      assert DigitAt(s, from + k, base);
      AtBehind(str, at, s, from + k);
      AcceptsDigits(At(s, from + k), base);
    }
  }

  /** What follows the header: the sum of the run of digits, or a refusal. */
  function FromRun(s: string, from: nat, base: int, negative: bool): Outcome
    requires AllAlnum(s) && from <= |s| && 2 <= base <= 36
  {
    var to := RunEnd(s, from, base);
    if to == from then Outcome(0, EINVAL) else SumUp(Values(s, from, to), base, negative)
  }

  lemma {:induction false} BlanksEnd(str: string, n: nat, k: nat)
    requires k <= n <= |str| && (forall j :: 0 <= j < n ==> str[j] == ' ') && At(str, n) != ' ' as int
    ensures Blanks(str, k) == n
    decreases n - k
  {
    BlankStep(str, k);
    if k < n {
      BlanksEnd(str, n, k + 1);
    }
  }

  /** Blanks, a sign or none, then the text. */
  predicate Framed(str: string, sign: string, s: string) {
    && (sign == "" || sign == "+" || sign == "-")
    && |sign| + |s| <= |str|
    && var n := |str| - |sign| - |s|;
       (forall j :: 0 <= j < n ==> str[j] == ' ') && str[n..] == sign + s
  }

  /** The header rules look at the text only. */
  lemma PrefixBehind(str: string, at: nat, s: string, base: int)
    requires Behind(str, at, s)
    ensures var h := Prefix(s, 0, base);
            Prefix(str, at, base) == if h.Refused? then Refused else Header(h.base, at + h.at)
  {
    hide Code;
    AtBehind(str, at, s, 0);
    AtBehind(str, at, s, 1);
  }

  /** Behind the header: the scan and the sum. */
  function AfterHeader(str: string, h: Header, negative: bool): Outcome
    requires h.Header? ==> h.at <= |str| && 2 <= h.base <= 36
  {
    if h.Refused? then Outcome(0, EINVAL)
    else
      var end := Stop(str, h.at, h.base);
      if end == h.at then Outcome(0, EINVAL)
      else SumUp(DigitValues(str, h.at, end, h.base), h.base, negative)
  }

  /** The first character behind the blanks. */
  lemma SignFirst(str: string, n: nat, sign: string, s: string)
    requires n <= |str| && str[n..] == sign + s && (sign == "" || sign == "+" || sign == "-")
    ensures At(str, n) == if sign == "" then At(s, 0) else Code(sign[0])
  {
    hide Code;
    if n < |str| {
      assert At(str, n) == Code(str[n..][0]);
    }
  }

  lemma TailBehindSign(str: string, n: nat, sign: string, s: string)
    requires n <= |str| && str[n..] == sign + s
    ensures |str| == n + |sign| + |s| && str[n + |sign|..] == s
  {
    assert str[n + |sign|..] == str[n..][|sign|..];
  }

  /** The parts of a framed text. */
  lemma FramedParts(str: string, sign: string, s: string) returns (n: nat)
    requires Framed(str, sign, s)
    ensures n == |str| - |sign| - |s| && Behind(str, |str| - |s|, s)
    ensures forall j :: 0 <= j < n ==> str[j] == ' '
    ensures sign == "" || sign == "+" || sign == "-"
    ensures At(str, n) == if sign == "" then At(s, 0) else Code(sign[0])
  {
    n := |str| - |sign| - |s|;
    hide At, Code;
    TailBehindSign(str, n, sign, s);
    SignFirst(str, n, sign, s);
  }

  /** Where the blanks end. */
  lemma BlanksOfFramed(str: string, sign: string, s: string)
    requires Framed(str, sign, s) && AllAlnum(s)
    ensures Behind(str, |str| - |s|, s) && Blanks(str, 0) == |str| - |sign| - |s|
    ensures At(str, Blanks(str, 0)) == if sign == "" then At(s, 0) else Code(sign[0])
  {
    hide Blanks, Code, At, AllAlnum, Framed, Behind;
    var n := FramedParts(str, sign, s);
    FirstIsNoSign(s);
    NoBlank(sign);
    BlanksEnd(str, n, 0);
  }

  lemma NoBlank(sign: string)
    ensures sign == "+" || sign == "-" ==> Code(sign[0]) == sign[0] as int != ' ' as int
  {
  }

  /** The sign is seen behind them. */
  lemma SignAt(str: string, sign: string, s: string)
    requires Framed(str, sign, s) && AllAlnum(s)
    ensures Behind(str, |str| - |s|, s)
    ensures var b := Blanks(str, 0);
            && (At(str, b) == '-' as int <==> sign == "-")
            && |str| - |s| == if At(str, b) == '-' as int || At(str, b) == '+' as int then b + 1 else b
  {
    hide Blanks, At, Code, AllAlnum, Behind;
    BlanksOfFramed(str, sign, s);
    FirstIsNoSign(s);
    NoBlank(sign);
  }

  lemma ResultAt(str: string, sign: string, s: string, base: int)
    requires Framed(str, sign, s) && AllAlnum(s)
    ensures var at := |str| - |s|;
            at >= 0 && Behind(str, at, s) && Result(str, base) == AfterHeader(str, Prefix(str, at, base), sign == "-")
  {
    hide SumUp, DigitValues, Stop, Prefix, Blanks, At, Framed;
    SignAt(str, sign, s);
  }

  /** The header rules read off the text alone. */
  lemma ResultOfFramed(str: string, sign: string, s: string, base: int)
    requires Framed(str, sign, s) && AllAlnum(s) && 0 <= base <= 36 && base != 1
    ensures var h := Prefix(s, 0, base);
            Result(str, base) == if h.Refused? then Outcome(0, EINVAL) else FromRun(s, h.at, h.base, sign == "-")
  {
    hide SumUp, Result, Prefix, Stop, DigitValues, RunEnd, Framed;
    ResultAt(str, sign, s, base);
    var at := |str| - |s|;
    PrefixBehind(str, at, s, base);
    var h := Prefix(s, 0, base);
    if h.Header? {
      StopIsRunEnd(str, at, s, h.at, h.base);
      ValuesAgree(str, at, s, h.at, RunEnd(s, h.at, h.base), h.base);
    }
  }

  lemma FirstIsNoSign(s: string)
    requires AllAlnum(s)
    ensures At(s, 0) != '+' as int && At(s, 0) != '-' as int && At(s, 0) != ' ' as int
  {
    if s != "" {
      assert IsAlnum(Code(s[0]));
    }
  }

  /** What the two readings have to do with each other. */
  predicate Related(s: string, base: int)
    requires AllAlnum(s) && 0 <= base <= 36 && base != 1
  {
    var h, st := Prefix(s, 0, base), Standard(s, base);
    if h.Refused? || RunEnd(s, h.at, h.base) == h.at then st.NoConversion? || ZeroEaten(s, base)
    else
      var ds := Values(s, h.at, RunEnd(s, h.at, h.base));
      && st.Number? && st.Amount() == Horner(ds, h.base) && Residues(st.digits, st.base) == Residues(ds, h.base)
      && !ZeroEaten(s, base)
  }

  /** One zero in front: the same number, or the lone zero. */
  lemma ZeroInFront(s: string)
    requires AllAlnum(s) && StartsWith0(s)
    ensures RunEnd(s, 0, 8) == RunEnd(s, 1, 8)
    ensures Horner(Values(s, 0, RunEnd(s, 0, 8)), 8) == Horner(Values(s, 1, RunEnd(s, 1, 8)), 8)
    ensures Residues(Values(s, 0, RunEnd(s, 0, 8)), 8) == Residues(Values(s, 1, RunEnd(s, 1, 8)), 8)
  {
    hide Horner;
    var to := RunEnd(s, 1, 8);
    assert Values(s, 0, to)[1..] == Values(s, 1, to);
    assert RunEnd(s, 0, 8) == to;
    assert Values(s, 0, to) == [0] + Values(s, 1, to);
    HornerFront(0, Values(s, 1, to), 8);
  }

  lemma FirstChars(s: string)
    requires AllAlnum(s)
    ensures s == "" <==> At(s, 0) == 0
    ensures forall b: int :: DigitAt(s, 0, b) <==> s != "" && IsAlnum(At(s, 0)) && Value(At(s, 0)) < b
    ensures s != "" ==> IsAlnum(At(s, 0))
    ensures HasX(s) ==> !DigitAt(s, 1, 8)
  {
    if |s| > 0 { assert IsAlnum(Code(s[0])); }
    if |s| > 1 { assert IsAlnum(Code(s[1])); }
  }

  lemma SameNumber(s: string, base: int)
    requires AllAlnum(s) && 0 <= base <= 36 && base != 1
    ensures Related(s, base)
  {
    hide Horner, Residues, RunEnd, At, DigitAt;
    FirstChars(s);
    assert DigitAt(s, 0, 10) ==> '0' as int <= At(s, 0) <= '9' as int;
    assert DigitAt(s, 0, 2) ==> '0' as int <= At(s, 0) <= '1' as int;
    if StartsWith0(s) {
      ZeroInFront(s);
    }
  }

  /** A zero that is eaten is a number for the standard: there the two differ. */
  lemma EatenIsNumber(s: string, base: int)
    requires AllAlnum(s) && ZeroEaten(s, base)
    ensures Standard(s, base).Number? && Standard(s, base).Amount() == 0
  {
    var b := if base != 0 then base else 8;
    assert Code(s[0]) == '0' as int;
    assert RunEnd(s, 1, b) == 1 by {
      if HasX(s) {
        assert Value(Code(s[1])) == 33;
      }
    }
    assert RunEnd(s, 0, b) == 1;
    assert Values(s, 0, 1) == [0];
    assert [0][..0] == [];
    assert Horner([0], b) == 0;
  }

  predicate Fits(v: int) { LONG_MIN <= v <= LONG_MAX }

  /**
   On blanks, a sign and letters and digits: my_strtol refuses exactly what the standard does not convert,
   and a lone zero taken for a prefix.  Otherwise a number that fits a long is returned; one that does not
   is reported if and only if its digits' residues modulo 2^64 add up to more than a long holds, which
   below 2^64 they always do; unreported, their sum is returned instead.
   */
  lemma AgreesWithStandard(str: string, sign: string, s: string, base: int)
    requires Framed(str, sign, s) && AllAlnum(s) && 0 <= base <= 36 && base != 1
    ensures var r, st := Result(str, base), Standard(s, base);
            && (r.errno == EINVAL <==> st.NoConversion? || ZeroEaten(s, base))
            && (r.errno != EINVAL ==>
                  var negative := sign == "-";
                  var v, x := Signed(negative, st.Amount()), Residues(st.digits, st.base);
                  && (Fits(v) ==> r == Outcome(v, Zero))
                  && (!Fits(v) ==> (r == Outcome(0, ERANGE) <==> x > Limit(negative)))
                  && (!Fits(v) && x <= Limit(negative) ==> r == Outcome(Signed(negative, x), Zero))
                  && (!Fits(v) && st.Amount() < TWO64 ==> x > Limit(negative)))
  {
    hide Result, Standard, RunEnd, ZeroEaten, Prefix, SumUp, Residues, Horner;
    ResultOfFramed(str, sign, s, base);
    SameNumber(s, base);
    var h := Prefix(s, 0, base);
    if h.Header? && RunEnd(s, h.at, h.base) != h.at {
      var ds := Values(s, h.at, RunEnd(s, h.at, h.base));
      RunIsDigits(s, h.at, h.base);
      SumIsExact(ds, h.base, sign == "-");
      SumIsResidues(ds, h.base, sign == "-");
      SumIsNoRefusal(ds, h.base, sign == "-");
    }
  }

  lemma SumIsNoRefusal(ds: seq<int>, base: nat, negative: bool)
    ensures SumUp(ds, base, negative).errno != EINVAL
  {
  }

  lemma RunIsDigits(s: string, from: nat, base: nat)
    requires AllAlnum(s) && from <= |s|
    ensures Digits(Values(s, from, RunEnd(s, from, base)), base)
  {
    var vs := Values(s, from, RunEnd(s, from, base));
    forall k | 0 <= k < |vs| ensures 0 <= vs[k] < base {
      assert DigitAt(s, from + k, base);
    }
  }

  // ----- the end pointer -----

  /** Where the standard puts endptr: behind the subject sequence, or at the very start without one. */
  function StandardEnd(str: string, s: string, base: int): int
    requires AllAlnum(s)
  {
    var st := Standard(s, base);
    var hex := HasX(s) && DigitAt(s, 2, 16) && (base == 0 || base == 16);
    if st.NoConversion? then 0 else |str| - |s| + (if hex then 2 else 0) + |st.digits|
  }

  lemma EndAt(str: string, sign: string, s: string, base: int)
    requires Framed(str, sign, s) && AllAlnum(s)
    ensures var at := |str| - |s|;
            && at >= 0 && Behind(str, at, s)
            && var h := Prefix(str, at, base);
            && (h.Refused? ==> EndOf(str, base) == if base == 0 || base == 2 then Moved(at) else Kept)
            && (h.Header? ==>
                  var end := Stop(str, h.at, h.base);
                  EndOf(str, base) == if end > h.at && At(str, end) == 0 then NulWritten else Moved(end))
  {
    hide Stop, Prefix, Blanks, At, Framed;
    SignAt(str, sign, s);
  }

  /** What my_strtol does with endptr, read off the text alone. */
  function EndOfText(at: nat, s: string, base: int): End
    requires AllAlnum(s) && 0 <= base <= 36 && base != 1
  {
    var h := Prefix(s, 0, base);
    if h.Refused? then Moved(at)
    else
      var to := RunEnd(s, h.at, h.base);
      if to > h.at && to == |s| then NulWritten else Moved(at + to)
  }

  lemma EndOfFramed(str: string, sign: string, s: string, base: int)
    requires Framed(str, sign, s) && AllAlnum(s) && 0 <= base <= 36 && base != 1
    ensures |str| >= |s| && EndOf(str, base) == EndOfText(|str| - |s|, s, base)
  {
    hide EndOf, Stop, RunEnd, Framed, At;
    EndAt(str, sign, s, base);
    var at := |str| - |s|;
    PrefixBehind(str, at, s, base);
    var h := Prefix(s, 0, base);
    if h.Header? {
      StopIsRunEnd(str, at, s, h.at, h.base);
      var to := RunEnd(s, h.at, h.base);
      AtBehind(str, at, s, to);
      NulAtEnd(s, to);
    }
  }

  lemma NulAtEnd(s: string, k: nat)
    requires AllAlnum(s) && k <= |s|
    ensures At(s, k) == 0 <==> k == |s|
  {
    if k < |s| {
      assert IsAlnum(Code(s[k]));
    }
  }

  /**
   my_strtol sets endptr as the standard says exactly when the text goes on behind the number; when the
   whole of it is the number it writes a NUL through the pointer instead, when there is no number it points
   behind blanks and sign, and an 0x it has taken for a prefix in vain stays skipped.
   */
  lemma EndAgreesWithStandard(str: string, sign: string, s: string, base: int)
    requires Framed(str, sign, s) && AllAlnum(s) && 0 <= base <= 36 && base != 1
    ensures var agree := EndOf(str, base) == Moved(StandardEnd(str, s, base));
            if Standard(s, base).NoConversion? then agree <==> str == s
            else if ZeroEaten(s, base) then agree <==> !(HasX(s) && (base == 0 || base == 16))
            else agree <==> StandardEnd(str, s, base) != |str|
  {
    hide EndOf, Framed, ZeroEaten, Standard, EndOfText, HasX;
    EndOfFramed(str, sign, s, base);
    FramedTail(str, sign, s);
    if HasX(s) && (base == 0 || base == 16) {
      HexEnd(|str| - |s|, s, base);
    } else if StartsWith0(s) && (base == 0 || base == 8) {
      OctalEnd(|str| - |s|, s, base);
    } else {
      PlainEnd(|str| - |s|, s, base);
    }
  }

  /** So it does not on a plain 5, nor on an 0x with nothing behind it. */
  lemma EndMisplaced()
    ensures EndOf("5", 10) == NulWritten && StandardEnd("5", "5", 10) == 1
    ensures EndOf("0x", 16) == Moved(2) && StandardEnd("0x", "0x", 16) == 1
  {
    hide EndOf, StandardEnd;
    EndOnDigit();
    EndOnHex();
  }

  lemma EndOnDigit()
    ensures EndOf("5", 10) == NulWritten && StandardEnd("5", "5", 10) == 1
  {
    assert Stop("5", 0, 10) == 1;
  }

  lemma EndOnHex()
    ensures EndOf("0x", 16) == Moved(2) && StandardEnd("0x", "0x", 16) == 1
  {
    assert At("0x", 1) == 'x' as int;
  }

  /** A call without an endptr, which the standard allows, comes back exactly when there is nothing to convert. */
  lemma NullEndptrReturns(str: string, base: int)
    ensures Called(str, base, false).Some? <==> Result(str, base).errno == EINVAL
  {
    hide Prefix, Stop, Blanks, At, DigitValues;
  }

  lemma NullEndptrStops()
    ensures Called("5", 10, false).None? && Called("5", 10, true) == Some(Outcome(5, Zero))
  {
    assert Stop("5", 0, 10) == 1;
    assert DigitValues("5", 0, 1, 10) == [5];
    var ds := [5];
    assert ds[1..] == [] && ds[0..] == ds && ds[..0] == [];
    assert Partial(ds, 10, false, 1) == 5 && Partial(ds, 10, false, 0) == 0;
    assert !TripsAt(ds, 10, false, 1);
  }

  lemma HexEnd(at: nat, s: string, base: int)
    requires AllAlnum(s) && HasX(s) && (base == 0 || base == 16)
    ensures ZeroEaten(s, base) <==> !DigitAt(s, 2, 16)
    ensures var to, st := RunEnd(s, 2, 16), Standard(s, base);
            && st.Number? && EndOfText(at, s, base) == (if to > 2 && to == |s| then NulWritten else Moved(at + to))
            && |st.digits| == if DigitAt(s, 2, 16) then to - 2 else 1
  {
    hide At, Horner;
    FirstChars(s);
    XIsNoDigit(s);
  }

  lemma XIsNoDigit(s: string)
    requires AllAlnum(s) && HasX(s)
    ensures RunEnd(s, 0, 16) == RunEnd(s, 0, 8) == 1
  {
    assert IsAlnum(Code(s[0])) && IsAlnum(Code(s[1]));
    assert RunEnd(s, 1, 16) == RunEnd(s, 1, 8) == 1;
  }

  lemma OctalEnd(at: nat, s: string, base: int)
    requires AllAlnum(s) && StartsWith0(s) && (base == 0 || base == 8) && !(HasX(s) && base == 0)
    ensures ZeroEaten(s, base) <==> !DigitAt(s, 1, 8)
    ensures var to, st := RunEnd(s, 1, 8), Standard(s, base);
            && st.Number? && |st.digits| == to
            && EndOfText(at, s, base) == if to > 1 && to == |s| then NulWritten else Moved(at + to)
  {
    hide At, Horner;
    FirstChars(s);
    ZeroInFront(s);
  }

  lemma PlainEnd(at: nat, s: string, base: int)
    requires AllAlnum(s) && 0 <= base <= 36 && base != 1
    requires !(HasX(s) && (base == 0 || base == 16)) && !(StartsWith0(s) && (base == 0 || base == 8))
    ensures !ZeroEaten(s, base)
    ensures var to, st := RunEnd(s, 0, if base == 0 then 10 else base), Standard(s, base);
            && (st.NoConversion? <==> to == 0) && (st.Number? ==> |st.digits| == to)
            && EndOfText(at, s, base) == if to > 0 && to == |s| then NulWritten else Moved(at + to)
  {
    hide At, Horner;
    FirstChars(s);
    assert DigitAt(s, 0, 10) ==> '0' as int <= At(s, 0) <= '9' as int;
    assert DigitAt(s, 0, 2) ==> '0' as int <= At(s, 0) <= '1' as int;
  }

  lemma FramedTail(str: string, sign: string, s: string)
    requires Framed(str, sign, s)
    ensures |str| == |s| ==> str == s
  {
  }

  // ----- printing and reading back -----

  function Letter(d: int): (c: char)
    requires 0 <= d < 36
    ensures IsAlnum(Code(c)) && Value(Code(c)) == d
  {
    if d < 10 then '0' + d as char else 'a' + (d - 10) as char
  }

  /** The numeral of n in a base up to 36, lower-case. */
  function Print(n: nat, base: nat): (s: string)
    requires 2 <= base <= 36
    ensures |s| == |DigitsOf(n, base)| && AllAlnum(s)
    ensures forall k :: 0 <= k < |s| ==> Value(Code(s[k])) == DigitsOf(n, base)[k]
  {
    var ds := DigitsOf(n, base);
    seq(|ds|, k requires 0 <= k < |ds| => Letter(ds[k]))
  }

  lemma PrintedRun(lead: string, n: nat, base: nat)
    requires 2 <= base <= 36 && AllAlnum(lead)
    ensures var s := lead + Print(n, base);
            && AllAlnum(s) && RunEnd(s, |lead|, base) == |s| > |lead|
            && Values(s, |lead|, |s|) == DigitsOf(n, base) && Horner(Values(s, |lead|, |s|), base) == n
  {
    var p := Print(n, base);
    var s := lead + p;
    var ds := DigitsOf(n, base);
    HornerOfDigits(n, base);
    forall k | |lead| <= k < |s| ensures DigitAt(s, k, base) && s[k] == p[k - |lead|] {
      assert 0 <= ds[k - |lead|] < base;
    }
  }

  /** The printed form a base admits: plain, or with the prefix that base 0 and the base itself accept. */
  predicate FormOk(form: string, printed: nat, base: int) {
    || (form == "" && (base == printed || (base == 0 && printed == 10)))
    || ((form == "0x" || form == "0X") && printed == 16 && (base == 0 || base == 16))
    || (form == "0" && printed == 8 && (base == 0 || base == 8))
  }

  /** The first digit of a positive numeral is not zero. */
  lemma LeadDigit(n: nat, base: nat)
    requires 2 <= base <= 36 && n >= 1
    ensures var p := Print(n, base);
            p != "" && Code(p[0]) != '0' as int && 1 <= Value(Code(p[0])) < base
  {
  }

  lemma FormPrefix(form: string, n: nat, printed: nat, base: int)
    requires 2 <= printed <= 36 && n >= 1 && FormOk(form, printed, base)
    ensures AllAlnum(form)
    ensures Prefix(form + Print(n, printed), 0, base) == Header(printed, |form|)
  {
    LeadDigit(n, printed);
    var p := Print(n, printed);
    var s := form + p;
    if form == "" {
      assert s == p && At(s, 0) == Code(p[0]);
    } else if form == "0" {
      assert s[0] == '0' && s[1] == p[0];
    } else {
      assert s[0] == '0' && s[1] == form[1];
    }
  }

  /** Printing a positive number in any base and parsing it back gives the number, with either sign. */
  lemma PrintThenParse(str: string, sign: string, form: string, n: nat, printed: nat, base: int)
    requires 2 <= printed <= 36 && 1 <= n && LONG_MIN <= Signed(sign == "-", n) <= LONG_MAX
    requires FormOk(form, printed, base) && 0 <= base <= 36 && base != 1
    requires Framed(str, sign, form + Print(n, printed))
    ensures Result(str, base) == Outcome(Signed(sign == "-", n), Zero)
  {
    hide Result, RunEnd, Prefix, Print, FormOk;
    var s := form + Print(n, printed);
    FormPrefix(form, n, printed, base);
    PrintedRun(form, n, printed);
    ResultOfFramed(str, sign, s, base);
    RunIsDigits(s, |form|, printed);
    SumIsExact(Values(s, |form|, |s|), printed, sign == "-");
  }

  // ----- the failures, on concrete texts -----

  /** A lone zero in base 0, 8 and 16: refused, although each is the number 0. */
  lemma LoneZeros()
    ensures Result("0", 0).errno == EINVAL && ZeroEaten("0", 0)
    ensures Result("0", 8).errno == EINVAL && ZeroEaten("0", 8)
    ensures Result("0x", 16).errno == EINVAL && ZeroEaten("0x", 16)
  {
    hide Result, Standard;
    assert "0"[0..] == "" + "0" && "0x"[0..] == "" + "0x";
    AgreesWithStandard("0", "", "0", 0);
    AgreesWithStandard("0", "", "0", 8);
    AgreesWithStandard("0x", "", "0x", 16);
  }

  const HEX_TWO64 := "10000000000000000"

  lemma HexText()
    ensures AllAlnum(HEX_TWO64) && forall j :: 0 <= j < |HEX_TWO64| ==> DigitAt(HEX_TWO64, j, 16)
    ensures Values(HEX_TWO64, 0, |HEX_TWO64|) == [1] + seq(16, _ => 0)
  {
    var s := HEX_TWO64;
    assert s[0] == '1' && forall j :: 0 < j < |s| ==> s[j] == '0';
  }

  lemma HexReading()
    ensures AllAlnum(HEX_TWO64) && Standard(HEX_TWO64, 16) == Number([1] + seq(16, _ => 0), 16)
    ensures Prefix(HEX_TWO64, 0, 16) == Header(16, 0) && RunEnd(HEX_TWO64, 0, 16) == |HEX_TWO64|
  {
    hide Values, DigitAt;
    HexText();
    assert HEX_TWO64[0] == '1';
  }

  /** 2^64 in base 16: my_strtol returns 0 and reports nothing. */
  lemma HexTwo64()
    ensures AllAlnum(HEX_TWO64)
    ensures Standard(HEX_TWO64, 16).Number? && Standard(HEX_TWO64, 16).Amount() == TWO64
    ensures Result(HEX_TWO64, 16) == Outcome(0, Zero)
  {
    hide Result, Standard, Framed, FromRun, Prefix;
    HexReading();
    WholeText(HEX_TWO64);
    ResultOfFramed(HEX_TWO64, "", HEX_TWO64, 16);
    HexAmount();
  }

  lemma HexAmount()
    ensures AllAlnum(HEX_TWO64)
    ensures Standard(HEX_TWO64, 16).Number? && Standard(HEX_TWO64, 16).Amount() == TWO64
    ensures FromRun(HEX_TWO64, 0, 16, false) == Outcome(0, Zero)
  {
    hide Standard, SumUp, Horner, Residues, Pow, RunEnd, Values;
    HexText();
    HexReading();
    HexPower();
    PowerOfBase(16, 16);
    assert |HEX_TWO64| == 17;
  }

  lemma WholeText(s: string)
    ensures Framed(s, "", s)
  {
    assert s[0..] == "" + s;
  }
}
