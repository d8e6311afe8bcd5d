/** my_strtol with a 64-bit long that wraps around, as a program and as a function of its arguments. */
module Strtol {
  import opened Numerals
  import opened Options

  const LONG_MAX: int := 0x7fff_ffff_ffff_ffff
  const LONG_MIN: int := -0x8000_0000_0000_0000

  /** Two's complement wrap-around into a long. */
  function Wrap(x: int): (r: int)
    ensures LONG_MIN <= r <= LONG_MAX
    ensures LONG_MIN <= x <= LONG_MAX ==> r == x
  {
    (x - LONG_MIN) % TWO64 + LONG_MIN
  }

  lemma WrapShift(x: int, m: int)
    ensures Wrap(x + m * TWO64) == Wrap(x)
  {
    var y := x - LONG_MIN;
    var q := y / TWO64;
    assert y + m * TWO64 == (q + m) * TWO64 + y % TWO64;
  }

  /** How far a wrapped value is off. */
  lemma WrapOff(x: int) returns (m: int)
    ensures Wrap(x) == x + m * TWO64
  {
    m := -((x - LONG_MIN) / TWO64);
  }

  lemma WrapPlus(x: int, y: int)
    ensures Wrap(Wrap(x) + y) == Wrap(x + y)
  {
    var m := WrapOff(x);
    WrapShift(x + y, m);
  }

  lemma WrapTimes(x: int, y: int)
    ensures Wrap(Wrap(x) * y) == Wrap(x * y)
  {
    var m := WrapOff(x);
    MovesOut(x, m, y);
    WrapShift(x * y, m * y);
  }

  lemma MovesOut(x: int, m: int, y: int)
    ensures (x + m * TWO64) * y == x * y + m * y * TWO64
  {
    assert m * TWO64 * y == m * y * TWO64;
  }

  // ----- characters -----

  /** A char of the program: signed, eight bits. */
  function Code(c: char): int {
    var b := c as int % 256;
    if b < 128 then b else b - 256
  }

  /** The character at an index of a C string; the terminating NUL behind its end. */
  function At(str: string, k: nat): int {
    if k < |str| then Code(str[k]) else 0
  }

  predicate IsAlpha(x: int) { 'A' as int <= x <= 'Z' as int || 'a' as int <= x <= 'z' as int }

  function ToLower(x: int): int { if 'A' as int <= x <= 'Z' as int then x + 32 else x }

  /** The loop over valid characters goes on past this one. */
  predicate Accepts(x: int, base: int) {
    if base > 10 then !(IsAlpha(x) && ToLower(x) - 'a' as int >= base - 10)
    else !IsAlpha(x) && x - '0' as int <= base - 1
  }

  /** The value given to a character. */
  function DigitOf(x: int, base: int): int {
    if base > 10 && IsAlpha(x) then ToLower(x) - 'a' as int + 10 else x - '0' as int
  }

  // ----- the parts of the text -----

  function Blanks(str: string, k: nat): (r: nat)
    requires k <= |str|
    ensures k <= r <= |str|
    decreases |str| - k
  {
    if k < |str| && At(str, k) == ' ' as int then Blanks(str, k + 1) else k
  }

  /** Where the digits start, and in which base; or a refusal. */
  datatype Header = Refused | Header(base: int, at: nat)

  predicate IsX(x: int) { x == 'x' as int || x == 'X' as int }

  /** The base and prefix rules, applied behind blanks and sign. */
  function Prefix(str: string, at: nat, base: int): (h: Header)
    requires at <= |str|
    ensures h.Header? ==> at <= h.at <= |str| && 2 <= h.base <= 36
  {
    var c := At(str, at);
    if base == 0 then
      if c == '0' as int then
        if IsX(At(str, at + 1)) then Header(16, at + 2) else Header(8, at + 1)
      else if '1' as int <= c <= '9' as int then Header(10, at)
      else Refused
    else if base == 2 then
      if c == '1' as int || c == '0' as int then Header(2, at) else Refused
    else if base <= 1 || base > 36 then Refused
    else if base == 8 && c == '0' as int then Header(8, at + 1)
    else if base == 16 && c == '0' as int && IsX(At(str, at + 1)) then Header(16, at + 2)
    else Header(base, at)
  }

  /** First index at which the scan stops. */
  function Stop(str: string, k: nat, base: int): (r: nat)
    requires k <= |str|
    ensures k <= r <= |str|
    ensures forall j :: k <= j < r ==> Accepts(At(str, j), base)
    ensures r < |str| ==> At(str, r) == 0 || !Accepts(At(str, r), base)
    decreases |str| - k
  {
    if k < |str| && At(str, k) != 0 && Accepts(At(str, k), base) then Stop(str, k + 1, base) else k
  }

  function DigitValues(str: string, from: nat, to: nat, base: int): (ds: seq<int>)
    requires from <= to <= |str|
    ensures |ds| == to - from && forall k :: 0 <= k < |ds| ==> ds[k] == DigitOf(At(str, from + k), base)
  {
    seq(to - from, k requires 0 <= k < to - from => DigitOf(At(str, from + k), base))
  }

  // ----- the sum -----

  function Signed(negative: bool, x: int): int { if negative then -x else x }

  /** The sum after the k rightmost digits, as the program holds it. */
  function Partial(ds: seq<int>, base: nat, negative: bool, k: nat): int
    requires k <= |ds|
  {
    Wrap(Signed(negative, Horner(ds[|ds| - k..], base)))
  }

  /** The comparison with the previous sum that makes the program report ERANGE. */
  predicate TripsAt(ds: seq<int>, base: nat, negative: bool, k: nat)
    requires 0 < k <= |ds|
  {
    if negative then Partial(ds, base, negative, k) > Partial(ds, base, negative, k - 1)
    else Partial(ds, base, negative, k) < Partial(ds, base, negative, k - 1)
  }

  datatype Errno = Zero | EINVAL | ERANGE

  datatype Outcome = Outcome(value: int, errno: Errno)

  /** What becomes of the caller's pointer: left alone, set to an index, or a NUL written where it points. */
  datatype End = Kept | Moved(at: nat) | NulWritten

  /** Where my_strtol leaves a caller's endptr. */
  function EndOf(str: string, base: int): End {
    var b := Blanks(str, 0);
    var at := if At(str, b) == '-' as int || At(str, b) == '+' as int then b + 1 else b;
    var h := Prefix(str, at, base);
    if h.Refused? then if base == 0 || base == 2 then Moved(at) else Kept
    else
      var end := Stop(str, h.at, h.base);
      if end > h.at && At(str, end) == 0 then NulWritten else Moved(end)
  }

  /** There is something to convert. */
  predicate HasDigits(str: string, base: int) {
    var b := Blanks(str, 0);
    var h := Prefix(str, if At(str, b) == '-' as int || At(str, b) == '+' as int then b + 1 else b, base);
    h.Header? && Stop(str, h.at, h.base) > h.at
  }

  /** A call with or without an endptr: with digits, one of the log lines reads through it, given or not. */
  function Called(str: string, base: int, given: bool): Option<Outcome> {
    if !given && HasDigits(str, base) then None else Some(Result(str, base))
  }

  /** What my_strtol returns. */
  function Result(str: string, base: int): Outcome {
    var b := Blanks(str, 0);
    var negative := At(str, b) == '-' as int;
    var h := Prefix(str, if negative || At(str, b) == '+' as int then b + 1 else b, base);
    if h.Refused? then Outcome(0, EINVAL)
    else
      var end := Stop(str, h.at, h.base);
      if end == h.at then Outcome(0, EINVAL)
      else SumUp(DigitValues(str, h.at, end, h.base), h.base, negative)
  }

  function SumUp(ds: seq<int>, base: nat, negative: bool): Outcome {
    if exists k :: 0 < k <= |ds| && TripsAt(ds, base, negative, k) then Outcome(0, ERANGE)
    else Outcome(Wrap(Signed(negative, Horner(ds, base))), Zero)
  }

  // ----- the program -----

  /** power: repeated multiplication, wrapping. */
  method Power(number: nat, exponent: nat) returns (res: int)
    ensures res == Wrap(Pow(number, exponent))
  {
    res := 1;
    var left := exponent;
    while left != 0
      invariant 0 <= left <= exponent
      invariant res == Wrap(Pow(number, exponent - left))
    {
      left := left - 1;
      WrapTimes(Pow(number, exponent - left - 1), number);
      assert Pow(number, exponent - left) == Pow(number, exponent - left - 1) * number;
      res := Wrap(res * number);
    }
  }

  /** One more digit on the left of the sum. */
  lemma PartialStep(ds: seq<int>, base: nat, negative: bool, k: nat)
    requires k < |ds|
    ensures var d := ds[|ds| - k - 1];
            Partial(ds, base, negative, k + 1)
            == Wrap(Partial(ds, base, negative, k) + Signed(negative, Wrap(Wrap(Pow(base, k)) * d)))
  {
    var d, rest := ds[|ds| - k - 1], ds[|ds| - k..];
    assert ds[|ds| - k - 1..] == [d] + rest;
    HornerFront(d, rest, base);
    var p := Pow(base, k);
    WrapTimes(p, d);
    var h := Horner(rest, base);
    var m := WrapOff(d * p);
    WrapPlus(Signed(negative, h), Signed(negative, Wrap(d * p)));
    WrapShift(Signed(negative, h + d * p), Signed(negative, m));
  }

  lemma EmptySum(base: nat, negative: bool)
    ensures Wrap(Signed(negative, Horner([], base))) == 0
  {
  }

  /** The summing loops: right to left, stopping at the first sum that moves the wrong way. */
  method Sum(str: string, at: nat, end: nat, base: nat, negative: bool) returns (r: Outcome)
    requires at < end <= |str|
    ensures r == SumUp(DigitValues(str, at, end, base), base, negative)
  {
    hide Wrap, Horner, DigitOf, At;
    ghost var ds := DigitValues(str, at, end, base);
    assert ds[|ds|..] == [];
    EmptySum(base, negative);
    var result, prev, exponent, i := 0, 0, 0, end - 1;
    while i >= at
      invariant at - 1 <= i < end && exponent == end - 1 - i
      invariant result == prev == Partial(ds, base, negative, exponent)
      invariant forall k :: 0 < k <= exponent ==> !TripsAt(ds, base, negative, k)
    {
      var digit := DigitOf(At(str, i), base);
      assert digit == ds[|ds| - exponent - 1];
      PartialStep(ds, base, negative, exponent);
      var baseNPower := Power(base, exponent);
      var term := Wrap(baseNPower * digit);
      if negative {
        result := Wrap(result - term);
        if result > prev {
          assert TripsAt(ds, base, negative, exponent + 1);
          return Outcome(0, ERANGE);
        }
      } else {
        result := Wrap(result + term);
        if result < prev {
          assert TripsAt(ds, base, negative, exponent + 1);
          return Outcome(0, ERANGE);
        }
      }
      exponent := exponent + 1;
      i := i - 1;
      prev := result;
    }
    assert ds[|ds| - exponent..] == ds;
    r := Outcome(result, Zero);
  }

  lemma BlankStep(str: string, k: nat)
    requires k <= |str|
    ensures Blanks(str, k) == if At(str, k) == ' ' as int then Blanks(str, k + 1) else k
  {
  }

  lemma StopStep(str: string, k: nat, base: int)
    requires k <= |str|
    ensures Stop(str, k, base) == if At(str, k) != 0 && Accepts(At(str, k), base) then Stop(str, k + 1, base) else k
  {
  }

  /** The base and prefix block of my_strtol: it moves on in the text and settles the base. */
  method ReadPrefix(str: string, from: nat, base: int, given: bool) returns (h: Header, end: End)
    requires from <= |str|
    ensures h == Prefix(str, from, base)
    ensures h.Refused? ==> end == if given && (base == 0 || base == 2) then Moved(from) else Kept
    ensures h.Header? ==> end == Kept
  {
    hide Code;
    var at, radix := from, base;
    end := Kept;
    if base == 8 {
      if At(str, at) == '0' as int {
        at := at + 1;
      }
    }
    if base == 16 {
      if At(str, at) == '0' as int && IsX(At(str, at + 1)) {
        at := at + 2;
      }
    }
    if base == 0 {
      if At(str, at) == '0' as int {
        at := at + 1;
        if IsX(At(str, at)) {
          at := at + 1;
          radix := 16;
        } else {
          radix := 8;
        }
      } else if '1' as int <= At(str, at) <= '9' as int {
        radix := 10;
      } else {
        return Refused, if given then Moved(at) else Kept;
      }
    } else if base == 2 {
      if !(At(str, at) == '1' as int || At(str, at) == '0' as int) {
        return Refused, if given then Moved(at) else Kept;
      }
    } else if base <= 1 || base > 36 {
      return Refused, end;
    }
    return Header(radix, at), end;
  }

  /** The whole function; given: the caller's endptr is not null.  None: the program reads through the null one. */
  method MyStrtol(str: string, base: int, given: bool) returns (r: Option<Outcome>, end: End)
    ensures r == Called(str, base, given)
    ensures end == if given then EndOf(str, base) else Kept
  {
    hide SumUp, DigitValues, DigitOf, Accepts, Code, IsAlpha, ToLower, Blanks, Stop;
    var at := 0;
    while At(str, at) == ' ' as int
      invariant at <= |str| && Blanks(str, 0) == Blanks(str, at)
      decreases |str| - at
    {
      BlankStep(str, at);
      at := at + 1;
    }
    BlankStep(str, at);
    var sign := false;
    if At(str, at) == '+' as int {
      at := at + 1;
    } else if At(str, at) == '-' as int {
      sign := true;
      at := at + 1;
    }
    var h;
    h, end := ReadPrefix(str, at, base, given);
    if h.Refused? {
      return Some(Outcome(0, EINVAL)), end;
    }
    at := h.at;
    var radix := h.base;
    var i := at;
    while At(str, i) != 0 && Accepts(At(str, i), radix)
      invariant at <= i <= |str| && Stop(str, at, radix) == Stop(str, i, radix)
      decreases |str| - i
    {
      StopStep(str, i, radix);
      i := i + 1;
    }
    StopStep(str, i, radix);
    if i == at {
      return Some(Outcome(0, EINVAL)), if given then Moved(at) else Kept;
    }
    if given {
      end := if At(str, i) == 0 then NulWritten else Moved(i);
    }
    if !given {   // the log line prints *endptr
      return None, Kept;
    }
    var sum := Sum(str, at, i, radix, sign);
    r := Some(sum);
  }
}
