/** readline and writen: one byte at a time in, short writes out. */
module LineIo {

  const MAXLINE: nat := 512
  const NUL: char := '\0'

  // ----- readline -----

  /** The bytes stored (without the final NUL) and the count returned: 0 at end of file, -1 on an error. */
  datatype Line = Line(text: string, count: int)

  /** How a connection ends behind the bytes that are still to come. */
  datatype Ending = Closed | Failing

  /** readline on what is still to come. */
  function LineOf(coming: string, end: Ending, maxlen: nat, got: string): Line
    requires |got| + 1 <= maxlen
    decreases maxlen - |got|
  {
    if |got| + 1 == maxlen then Line(got, |got| + 1)
    else if coming == "" then Line(got, if end.Failing? then -1 else if got == "" then 0 else |got| + 1)
    else if coming[0] == '\n' then Line(got + "\n", |got| + 1)
    else LineOf(coming[1..], end, maxlen, got + [coming[0]])
  }

  /** s is one line that fits: a newline at its end and nowhere before. */
  predicate OneLine(s: string, maxlen: nat) {
    && 0 < |s| < maxlen
    && s[|s| - 1] == '\n'
    && forall k :: 0 <= k < |s| - 1 ==> s[k] != '\n'
  }

  /** A line that fits is read whole and counted right, whatever follows. */
  lemma {:induction false} ReadLineWhole(line: string, rest: string, end: Ending, maxlen: nat, got: string)
    requires OneLine(got + line, maxlen) && line != ""
    ensures LineOf(line + rest, end, maxlen, got) == Line(got + line, |got + line|)
    decreases |line|
  {
    assert (line + rest)[0] == line[0] == (got + line)[|got|];
    if |line| > 1 {
      assert got + line == got + [line[0]] + line[1..];
      assert (line + rest)[1..] == line[1..] + rest;
      ReadLineWhole(line[1..], rest, end, maxlen, got + [line[0]]);
    } else {
      assert (got + line)[|got + line| - 1] == '\n';
      assert line == "\n";
    }
  }

  /** A newline comes before the buffer is full. */
  predicate NewlineInReach(coming: string, maxlen: nat, have: nat) {
    exists k :: 0 <= k < |coming| && coming[k] == '\n' && k + have + 1 < maxlen
  }

  /** Nothing but the end of the connection stops the reading. */
  predicate RunsOut(coming: string, maxlen: nat, have: nat) {
    '\n' !in coming && |coming| + have + 1 < maxlen
  }

  lemma OneByteOn(coming: string, maxlen: nat, have: nat)
    requires coming != "" && coming[0] != '\n'
    ensures NewlineInReach(coming, maxlen, have) <==> NewlineInReach(coming[1..], maxlen, have + 1)
    ensures RunsOut(coming, maxlen, have) <==> RunsOut(coming[1..], maxlen, have + 1)
  {
    if NewlineInReach(coming, maxlen, have) {
      var k :| 0 <= k < |coming| && coming[k] == '\n' && k + have + 1 < maxlen;
      assert coming[1..][k - 1] == '\n';
    }
    if NewlineInReach(coming[1..], maxlen, have + 1) {
      var k :| 0 <= k < |coming| - 1 && coming[1..][k] == '\n' && k + have + 2 < maxlen;
      assert coming[k + 1] == '\n';
    }
    assert coming == [coming[0]] + coming[1..];
  }

  /**
   What the count is worth, by the input alone: it is the number of bytes stored exactly when a newline comes
   before the buffer is full or the connection closes at once; it is -1 exactly when the connection fails
   first; in every other case it is one more than was stored.
   */
  lemma {:induction false} ReadLineCount(coming: string, end: Ending, maxlen: nat, got: string)
    requires |got| + 1 <= maxlen
    ensures var r := LineOf(coming, end, maxlen, got);
            && got <= r.text
            && (r.count == |r.text| <==>
                  NewlineInReach(coming, maxlen, |got|)
                  || (got == "" && coming == "" && end.Closed? && maxlen > 1))
            && (r.count == -1 <==> end.Failing? && RunsOut(coming, maxlen, |got|))
            && (r.count != |r.text| && r.count != -1 ==> r.count == |r.text| + 1)
    decreases maxlen - |got|
  {
    if |got| + 1 < maxlen && coming != "" {
      if coming[0] == '\n' {
        assert NewlineInReach(coming, maxlen, |got|);
      } else {
        ReadLineCount(coming[1..], end, maxlen, got + [coming[0]]);
        OneByteOn(coming, maxlen, |got|);
      }
    }
  }

  /** One byte and then end of file: the count says two. */
  lemma CountTooHigh()
    ensures LineOf("a", Closed, MAXLINE, "") == Line("a", 2)
  {
    assert LineOf("", Closed, MAXLINE, "" + "a") == Line("a", 2);
    assert "a"[1..] == "";
  }

  /** The reading end of a connection whose peer will send coming and then close, or that then fails. */
  class Reader {
    var coming: string
    const end: Ending

    /** read of one byte: 1 with the byte, 0 at end of file, -1 on an error. */
    method Read1() returns (rc: int, c: char)
      modifies this
      ensures old(coming) == "" ==> rc == (if end.Closed? then 0 else -1) && coming == ""
      ensures old(coming) != "" ==> rc == 1 && c == old(coming)[0] && coming == old(coming)[1..]
    {
      if coming == "" {
        return if end.Closed? then 0 else -1, NUL;
      }
      rc, c := 1, coming[0];
      coming := coming[1..];
    }

    method ReadLine(maxlen: nat) returns (text: string, n: int)
      requires maxlen >= 1
      modifies this
      ensures Line(text, n) == LineOf(old(coming), end, maxlen, "")
      ensures |coming| <= |old(coming)| && coming == old(coming)[|old(coming)| - |coming|..]
      ensures |old(coming)| - |coming| == |text|
    {
      text, n := "", 1;
      while n < maxlen
        invariant 1 <= n <= maxlen && n == |text| + 1
        invariant LineOf(old(coming), end, maxlen, "") == LineOf(coming, end, maxlen, text)
        invariant |coming| + |text| == |old(coming)| && coming == old(coming)[|text|..]
        decreases maxlen - n
      {
        var rc, c := Read1();
        if rc == 1 {
          text := text + [c];
          if c == '\n' {
            return;
          }
        } else if rc == 0 {
          if n == 1 {
            return "", 0;
          } else {
            return;
          }
        } else {
          return text, -1;
        }
        n := n + 1;
      }
    }
  }

  // ----- writen -----

  /** The writing end: each write takes some of what it is given, or fails. */
  class Writer {
    var written: string

    method Write(s: string) returns (k: int)
      modifies this
      ensures k <= |s|
      ensures written == old(written) + if k > 0 then s[..k] else ""
    {
      k :| k <= |s|;
      if k > 0 {
        written := written + s[..k];
      }
    }

    /** All of it, or the failing write's result and a part. */
    method Writen(s: string) returns (r: int)
      modifies this
      ensures r == |s| ==> written == old(written) + s
      ensures r != |s| ==> r <= 0 && exists k :: 0 <= k < |s| && written == old(written) + s[..k]
    {
      var left := |s|;
      while left > 0
        invariant 0 <= left <= |s| && written == old(written) + s[..|s| - left]
        decreases left
      {
        var done := |s| - left;
        var k := Write(s[done..]);
        if k <= 0 {
          assert written == old(written) + s[..done];
          return k;
        }
        assert s[..done] + s[done..][..k] == s[..done + k];
        left := left - k;
      }
      assert s[..|s| - left] == s;
      r := |s| - left;
    }
  }
}
