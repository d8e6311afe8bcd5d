/** The sequence-number file: its text, the scan, and the overwrite without truncation. */
module SeqFile {
  import opened Options
  import opened Numerals

  const MAXBUFF: nat := 100
  const INT_MAX: int := 0x7fff_ffff
  const INT_MIN: int := -0x8000_0000
  const ROUNDS: nat := 20

  predicate IsDigit(c: char) { '0' <= c <= '9' }

  predicate AllDigits(s: string) { forall k :: 0 <= k < |s| ==> IsDigit(s[k]) }

  predicate IsSpace(c: char) { c == ' ' || '\t' <= c <= '\r' }

  function DigitChar(d: int): (c: char)
    requires 0 <= d < 10
    ensures IsDigit(c) && c as int == '0' as int + d
  {
    '0' + d as char
  }

  function Chars(ds: seq<int>): (s: string)
    requires Digits(ds, 10)
    ensures |s| == |ds| && forall k :: 0 <= k < |s| ==> s[k] == DigitChar(ds[k])
  {
    seq(|ds|, k requires 0 <= k < |ds| => DigitChar(ds[k]))
  }

  function Values(s: string): (ds: seq<int>)
    requires AllDigits(s)
    ensures |ds| == |s| && forall k :: 0 <= k < |s| ==> ds[k] == s[k] as int - '0' as int
  {
    seq(|s|, k requires 0 <= k < |s| => s[k] as int - '0' as int)
  }

  /** The decimal text of n ("%d"). */
  function Decimal(n: nat): (s: string)
    ensures s != [] && AllDigits(s)
  {
    Chars(DigitsOf(n, 10))
  }

  function Pad(s: string, w: nat): string
    decreases w - |s|
  {
    if |s| >= w then s else Pad("0" + s, w)
  }

  /** The text sprintf makes of "%03d\n": the sign counts in the width. */
  function Format(n: int): string {
    if n >= 0 then Pad(Decimal(n), 3) + "\n" else "-" + Pad(Decimal(-n), 2) + "\n"
  }

  function SkipSpace(s: string): string {
    if s != [] && IsSpace(s[0]) then SkipSpace(s[1..]) else s
  }

  function DigitRun(s: string): (r: string)
    ensures r <= s && AllDigits(r)
  {
    if s != [] && IsDigit(s[0]) then [s[0]] + DigitRun(s[1..]) else []
  }

  /** What sscanf "%d" stores: blanks, an optional sign, then at least one digit. */
  function ScanInt(s: string): Option<int> {
    var t := SkipSpace(s);
    var neg := t != [] && t[0] == '-';
    var u := if t != [] && (t[0] == '-' || t[0] == '+') then t[1..] else t;
    var run := DigitRun(u);
    if run == [] then None
    else
      var v := Horner(Values(run), 10);
      Some(if neg then -v else v)
  }

  /** Rewind, read at most MAXBUFF bytes, scan.  None is the program's error exit. */
  function ReadNumber(file: string): Option<int> {
    var buff := if |file| <= MAXBUFF then file else file[..MAXBUFF];
    if buff == [] then None else ScanInt(buff)
  }

  /** Rewind and write: the text lands over the old bytes; the file is not truncated. */
  function Overwrite(file: string, text: string): string {
    text + if |file| > |text| then file[|text|..] else []
  }

  lemma {:induction false} PadFacts(s: string, w: nat)
    requires AllDigits(s)
    ensures AllDigits(Pad(s, w))
    ensures |Pad(s, w)| == (if |s| >= w then |s| else w)
    ensures Horner(Values(Pad(s, w)), 10) == Horner(Values(s), 10)
    decreases w - |s|
  {
    if |s| < w {
      PadFacts("0" + s, w);
      HornerFront(0, Values(s), 10);
      assert Values("0" + s) == [0] + Values(s);
    }
  }

  lemma {:induction false} DigitRunStops(s: string, rest: string)
    requires AllDigits(s)
    requires rest == [] || !IsDigit(rest[0])
    ensures DigitRun(s + rest) == s
  {
    if s == [] {
      assert s + rest == rest;
    } else {
      assert (s + rest)[1..] == s[1..] + rest;
      DigitRunStops(s[1..], rest);
    }
  }

  lemma DecimalValue(n: nat)
    ensures Horner(Values(Decimal(n)), 10) == n
  {
    HornerOfDigits(n, 10);
    assert Values(Decimal(n)) == DigitsOf(n, 10);
  }

  /** The part of the text that carries the digits. */
  function DigitsText(n: int): string { if n >= 0 then Pad(Decimal(n), 3) else Pad(Decimal(-n), 2) }

  lemma DigitsTextFacts(n: int)
    ensures DigitsText(n) != "" && AllDigits(DigitsText(n))
    ensures Horner(Values(DigitsText(n)), 10) == if n >= 0 then n else -n
    ensures Format(n) == (if n >= 0 then "" else "-") + DigitsText(n) + "\n"
    ensures |Format(n)| == Width(n) + 1
  {
    PadFacts(Decimal(if n >= 0 then n else -n), if n >= 0 then 3 else 2);
    DecimalValue(if n >= 0 then n else -n);
  }

  /** How many characters "%03d" makes of n. */
  function Width(n: int): (w: nat) {
    var w := if n >= 0 then |DigitsOf(n, 10)| else 1 + |DigitsOf(-n, 10)|;
    if w < 3 then 3 else w
  }

  /** Text that starts with a digit is scanned from its first character, unsigned. */
  lemma ScanUnsigned(t: string)
    requires t != [] && IsDigit(t[0])
    ensures ScanInt(t) == Some(Horner(Values(DigitRun(t)), 10))
  {
    hide Horner, Values;
    assert SkipSpace(t) == t;
    assert DigitRun(t) != [];
  }

  /** And text that starts with a minus and a digit is negated. */
  lemma ScanNegative(t: string)
    requires |t| >= 2 && t[0] == '-' && IsDigit(t[1])
    ensures ScanInt(t) == Some(-Horner(Values(DigitRun(t[1..])), 10))
  {
    hide Horner, Values;
    assert SkipSpace(t) == t;
    assert DigitRun(t[1..]) != [];
  }

  /** Scanning the canonical text of any number gives it back, whatever is left behind its newline. */
  lemma ScanFormat(n: int, stale: string)
    ensures ScanInt(Format(n) + stale) == Some(n)
  {
    hide Format, ScanInt, DigitsText, Horner, Values;
    DigitsTextFacts(n);
    var ds, rest := DigitsText(n), "\n" + stale;
    DigitRunStops(ds, rest);
    var t := Format(n) + stale;
    if n >= 0 {
      assert t == ds + rest && t[0] == ds[0];
      ScanUnsigned(t);
    } else {
      assert t == "-" + (ds + rest) && t[1..] == ds + rest && t[1] == ds[0];
      ScanNegative(t);
    }
  }

  /** Blank, tab, newline, vertical tab, form feed, carriage return. */
  predicate AllBlank(s: string) { forall k :: 0 <= k < |s| ==> s[k] as int == 32 || 9 <= s[k] as int <= 13 }

  lemma {:induction false} SkipsBlanks(blanks: string, rest: string)
    requires AllBlank(blanks)
    requires rest != "" ==> rest[0] as int != 32 && !(9 <= rest[0] as int <= 13)
    ensures SkipSpace(blanks + rest) == rest
  {
    if blanks == "" {
      assert blanks + rest == rest;
    } else {
      assert (blanks + rest)[1..] == blanks[1..] + rest;
      SkipsBlanks(blanks[1..], rest);
    }
  }

  /** "%d" on any text: white space, a sign or none, and then at least one digit, or nothing is stored. */
  lemma ScanParts(blanks: string, sign: string, digits: string, rest: string)
    requires AllBlank(blanks) && AllDigits(digits) && (sign == "" || sign == "-" || sign == "+")
    requires rest != "" ==> !IsDigit(rest[0])
    requires sign == "" && digits == "" && rest != "" ==> !AllBlank([rest[0]]) && rest[0] != '-' && rest[0] != '+'
    ensures ScanInt(blanks + sign + digits + rest) ==
            if digits == "" then None
            else Some(if sign == "-" then -Horner(Values(digits), 10) else Horner(Values(digits), 10))
  {
    hide Horner, Values, DigitRun, SkipSpace;
    var u := digits + rest;
    var t := sign + u;
    assert blanks + sign + digits + rest == blanks + t;
    assert sign != "" ==> t[0] == sign[0] && t[1..] == u;
    assert sign == "" ==> t == u;
    assert digits != "" ==> u[0] == digits[0];
    if sign == "" && digits == "" && rest != "" {
      assert t[0] == rest[0] == [rest[0]][0];
    }
    SkipsBlanks(blanks, t);
    DigitRunStops(digits, rest);
  }

  lemma {:induction false} WidthBound(n: nat, k: nat)
    requires n < Pow(10, k) && k >= 1
    ensures |DigitsOf(n, 10)| <= k
  {
    if n >= 10 {
      assert k >= 2 by { assert Pow(10, 1) == 10 by { assert Pow(10, 0) == 1; } }
      WidthBound(n / 10, k - 1);
    }
  }

  /** An int's text fits the read buffer with room to spare. */
  lemma FormatFits(n: int)
    requires INT_MIN <= n <= INT_MAX
    ensures 4 <= |Format(n)| <= 12
  {
    DigitsTextFacts(n);
    assert -INT_MIN < Pow(10, 10) by {
      assert Pow(10, 2) == 100 by { assert Pow(10, 1) == 10; }
      assert Pow(10, 4) == 10000 by { assert Pow(10, 3) == 1000; }
      assert Pow(10, 6) == 1000000 by { assert Pow(10, 5) == 100000; }
      assert Pow(10, 8) == 100000000 by { assert Pow(10, 7) == 10000000; }
      assert Pow(10, 9) == 1000000000;
    }
    WidthBound(if n >= 0 then n else -n, 10);
  }

  /** Reading the canonical file of any int recovers it. */
  lemma ReadCanonical(n: int)
    requires INT_MIN <= n <= INT_MAX
    ensures ReadNumber(Format(n)) == Some(n)
  {
    FormatFits(n);
    ScanFormat(n, "");
    assert Format(n) + "" == Format(n);
  }

  /** No more than the first 100 bytes are looked at. */
  lemma ReadsHundred(front: string, back: string)
    requires |front| == 100
    ensures ReadNumber(front + back) == ScanInt(front)
  {
    hide ScanInt;
    if back == "" {
      assert front + back == front;
    } else {
      assert (front + back)[..100] == front;
    }
  }

  /**
   The un-truncated overwrite leaves exactly the new canonical text if and only if that is no narrower than
   the old one; so always when a number that is not negative goes up.
   */
  lemma OverwriteCanonical(m: int, n: int)
    ensures Overwrite(Format(m), Format(n)) == Format(n) <==> Width(m) <= Width(n)
    ensures 0 <= m <= n ==> Width(m) <= Width(n)
  {
    hide Format, Width;
    DigitsTextFacts(m);
    DigitsTextFacts(n);
    if 0 <= m <= n {
      WidthGrows(m, n);
    }
  }

  lemma WidthGrows(m: nat, n: nat)
    requires m <= n
    ensures Width(m) <= Width(n)
  {
    WidthMonotone(m, n, 10);
  }

  predicate PowerOfTen(k: nat) { k == 1 || (k >= 10 && k % 10 == 0 && PowerOfTen(k / 10)) }

  /** Counting down, a numeral gets shorter exactly below a power of ten. */
  lemma {:induction false} WidthDrops(k: nat)
    requires k >= 2
    ensures |DigitsOf(k, 10)| == |DigitsOf(k - 1, 10)| + if PowerOfTen(k) then 1 else 0
  {
    if k >= 20 && k % 10 == 0 {
      assert (k - 1) / 10 == k / 10 - 1;
      WidthDrops(k / 10);
    } else if k >= 10 && k % 10 != 0 {
      assert (k - 1) / 10 == k / 10;
    }
  }

  lemma ThreeDigits(k: nat)
    ensures |DigitsOf(k, 10)| >= 3 <==> k >= 100
  {
    if k >= 10 {
      assert DigitsOf(k, 10) == DigitsOf(k / 10, 10) + [k % 10];
    }
  }

  /** Only from -100, -1000 and so on does adding one make the text narrower. */
  lemma StepWidth(n: int)
    ensures Width(n) <= Width(n + 1) <==> !(n <= -100 && PowerOfTen(-n))
  {
    if n >= 0 {
      WidthMonotone(n, n + 1, 10);
    } else if n <= -2 {
      WidthDrops(-n);
      ThreeDigits(-n);
    }
  }

  /**
   One pass: the file of n is read as n, and the text that replaces it is canonical unless n is -100, -1000
   and so on; there a byte of the old one stays behind, but the number still reads as n + 1.
   */
  lemma StepCanonical(n: int)
    requires INT_MIN <= n < INT_MAX
    ensures ReadNumber(Format(n)) == Some(n)
    ensures Overwrite(Format(n), Format(n + 1)) == Format(n + 1) <==> !(n <= -100 && PowerOfTen(-n))
    ensures ReadNumber(Overwrite(Format(n), Format(n + 1))) == Some(n + 1)
  {
    hide Format, Width, PowerOfTen, ScanInt;
    ReadCanonical(n);
    OverwriteCanonical(n, n + 1);
    StepWidth(n);
    FormatFits(n);
    FormatFits(n + 1);
    var stale := if |Format(n)| > |Format(n + 1)| then Format(n)[|Format(n + 1)|..] else "";
    assert Overwrite(Format(n), Format(n + 1)) == Format(n + 1) + stale;
    ScanFormat(n + 1, stale);
  }

  /**
   Where the text gets narrower a stale tail stays: behind -99 written over -100, and behind 999 over 1000,
   had the program ever counted down.
   */
  lemma OverwriteShrinkingKeepsTail()
    ensures Overwrite(Format(-100), Format(-99)) == Format(-99) + "\n"
    ensures Overwrite(Format(-100), Format(-99)) != Format(-99)
    ensures Overwrite(Format(1000), Format(999)) == Format(999) + "\n"
    ensures Overwrite(Format(1000), Format(999)) != Format(999)
  {
    assert DigitsOf(1000, 10) == [1, 0, 0, 0] by {
      assert DigitsOf(1, 10) == [1];
      assert DigitsOf(10, 10) == [1, 0];
      assert DigitsOf(100, 10) == [1, 0, 0];
    }
    assert DigitsOf(999, 10) == [9, 9, 9] by {
      assert DigitsOf(9, 10) == [9];
      assert DigitsOf(99, 10) == [9, 9];
    }
    LastByteStays(1000, 999);
    assert DigitsOf(100, 10) == [1, 0, 0] by {
      assert DigitsOf(1, 10) == [1];
      assert DigitsOf(10, 10) == [1, 0];
    }
    assert DigitsOf(99, 10) == [9, 9] by {
      assert DigitsOf(9, 10) == [9];
    }
    LastByteStays(-100, -99);
  }

  lemma LastByteStays(m: int, n: int)
    requires Width(m) == Width(n) + 1
    ensures Overwrite(Format(m), Format(n)) == Format(n) + "\n"
    ensures Overwrite(Format(m), Format(n)) != Format(n)
  {
    hide Format, Width, Horner, Values;
    DigitsTextFacts(m);
    DigitsTextFacts(n);
    assert Format(m)[|Format(n)|..] == "\n";
  }

  // ----- any file to start from -----

  /** The number the program reads from a text; 0 where it reads none. */
  function First(text: string): int {
    match ReadNumber(text)
    case Some(n) => n
    case None => 0
  }

  /** "%d" means something only for a number that fits an int. */
  predicate InRange(text: string) { ReadNumber(text).Some? ==> INT_MIN <= First(text) <= INT_MAX }

  predicate Readable(text: string) { ReadNumber(text).Some? && InRange(text) }

  /** What should be read when k has been added; where nothing could be read, still nothing. */
  function Grown(text: string, k: int): Option<int> {
    match ReadNumber(text)
    case Some(n) => Some(n + k)
    case None => None
  }

  /** The file after k passes of read, add one, overwrite. */
  function FileText(start: string, k: nat): string {
    if k == 0 then start else Overwrite(FileText(start, k - 1), Format(First(start) + k))
  }

  /**
   What that is worth: it reads as the first number plus k and starts with the canonical text of that, and is
   just that text if the first number was not negative and its text no longer than the canonical one.
   */
  predicate FileAfter(start: string, file: string, k: nat) {
    && ReadNumber(file) == Grown(start, k)
    && (k == 0 ==> file == start)
    && (k > 0 ==> Format(First(start) + k) <= file)
    && (k > 0 && First(start) >= 0 && |start| <= |Format(First(start))| ==> file == Format(First(start) + k))
  }

  /** Whatever the file held, the number written over it is the number read next. */
  lemma OverwriteReads(file: string, n: int)
    requires INT_MIN <= n <= INT_MAX
    ensures ReadNumber(Overwrite(file, Format(n))) == Some(n)
  {
    hide Format, ScanInt;
    FormatFits(n);
    var all, stale := Overwrite(file, Format(n)), if |file| > |Format(n)| then file[|Format(n)|..] else "";
    assert all == Format(n) + stale;
    if |all| <= MAXBUFF {
      ScanFormat(n, stale);
    } else {
      assert all[..MAXBUFF] == Format(n) + stale[..MAXBUFF - |Format(n)|];
      ScanFormat(n, stale[..MAXBUFF - |Format(n)|]);
    }
  }

  /** Any number of passes, from any file. */
  lemma {:induction false} PassesAddUp(start: string, k: nat)
    requires k > 0 ==> Readable(start) && First(start) + k <= INT_MAX
    ensures FileAfter(start, FileText(start, k), k)
  {
    hide Format, ReadNumber, Width;
    if k > 0 {
      var n := First(start) + k;
      PassesAddUp(start, k - 1);
      OverwriteReads(FileText(start, k - 1), n);
      if First(start) >= 0 {
        DigitsTextFacts(n - 1);
        DigitsTextFacts(n);
        WidthGrows(n - 1, n);
      }
    }
  }

  /** One process's open file, updated in place by the loop body of the two main programs. */
  class Counter {
    var text: string

    constructor (text: string)
      ensures this.text == text
    {
      this.text := text;
    }

    /**
     One pass of the loop body between the lock and the unlock: read, scan, print, add one, overwrite.
     A file that reads as n comes out as one that reads as n + 1, and the canonical file of n as the canonical
     one of n + 1 unless n is -100, -1000 and so on; nothing is written when nothing can be scanned, nor where
     the addition would overflow.
     */
    method Increment() returns (printed: Option<int>)
      modifies this
      ensures printed == ReadNumber(old(text))
      ensures text == if printed.Some? && printed.value < INT_MAX
                      then Overwrite(old(text), Format(printed.value + 1)) else old(text)
      ensures printed.Some? && INT_MIN <= printed.value < INT_MAX ==> ReadNumber(text) == Some(printed.value + 1)
      ensures forall n: int :: INT_MIN <= n < INT_MAX && old(text) == Format(n) ==>
                && printed == Some(n)
                && (text == Format(n + 1) <==> !(n <= -100 && PowerOfTen(-n)))
    {
      hide Format, ReadNumber, Overwrite;
      printed := ReadNumber(text);
      if printed.Some? && printed.value < INT_MAX {
        var seqno := printed.value + 1;
        if seqno > INT_MIN { OverwriteReads(text, seqno); }
        text := Overwrite(text, Format(seqno));
      }
      forall n: int | INT_MIN <= n < INT_MAX && old(text) == Format(n)
        ensures printed == Some(n)
        ensures text == Format(n + 1) <==> !(n <= -100 && PowerOfTen(-n))
      {
        StepCanonical(n);
      }
    }

    /** The whole loop of one undisturbed process: it prints ROUNDS consecutive numbers. */
    method Loop() returns (printed: seq<int>)
      requires Readable(text) && First(text) + ROUNDS <= INT_MAX
      modifies this
      ensures FileAfter(old(text), text, ROUNDS)
      ensures |printed| == ROUNDS && forall k :: 0 <= k < ROUNDS ==> printed[k] == First(old(text)) + k
    {
      hide Format, ReadNumber, Overwrite;
      printed := [];
      for i := 0 to ROUNDS
        invariant text == FileText(old(text), i)
        invariant |printed| == i && forall k :: 0 <= k < i ==> printed[k] == First(old(text)) + k
      {
        PassesAddUp(old(text), i);
        var p := Increment();
        printed := printed + [p.value];
      }
      PassesAddUp(old(text), ROUNDS);
    }
  }
}
