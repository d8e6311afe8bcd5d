/**
 The line echo: str_cli against str_echo over two bounded channels that may take or deliver as little as
 one byte at a time.
 */
module Echo {
  import opened LineIo

  // ----- the pair -----

  datatype ClientPc =
    | Fgets                    // read a line from standard input
    | CWrite(rest: string)     // writen: what is left to write
    | CRead(buf: string)       // readline: what has been stored
    | CDone                    // returned; the connection is closed

  datatype ServerPc =
    | SRead(buf: string)
    | SWrite(rest: string)
    | SDone

  datatype Sys = Sys(
    cap: nat,                  // room in each channel
    stdin: string, out: string,
    up: string, down: string,  // bytes on their way to the server, and back
    client: ClientPc, server: ServerPc,
    line: string)              // history: the line being echoed

  /** fgets with a buffer of MAXLINE: through the first newline, at most MAXLINE - 1 characters. */
  function FgetsLen(s: string, k: nat): (n: nat)
    requires k <= |s| && k < MAXLINE
    ensures k <= n <= |s| && n < MAXLINE
    decreases |s| - k
  {
    if k == |s| || k == MAXLINE - 1 then k
    else if s[k] == '\n' then k + 1
    else FgetsLen(s, k + 1)
  }

  /** NUL-free text whose lines all end in a newline and fit the buffers. */
  predicate GoodText(s: string)
    decreases |s|
  {
    s == "" ||
    (var n := FgetsLen(s, 0);
     n > 0 && s[n - 1] == '\n' && (forall k :: 0 <= k < n ==> s[k] != NUL) && GoodText(s[n..]))
  }

  function Begin(cap: nat, text: string): Sys {
    Sys(cap, text, "", "", "", Fgets, SRead(""), "")
  }

  function Upto(s: string, room: nat, want: nat): (k: nat)
    requires s != "" && room > 0
    ensures 0 < k <= |s| && k <= room
  {
    var m := if |s| <= room then |s| else room;
    if want == 0 then 1 else if want < m then want else m
  }

  /** What fputs prints of a buffer: up to the first NUL. */
  function Fputs(s: string): string {
    if s == "" || s[0] == NUL then "" else [s[0]] + Fputs(s[1..])
  }

  predicate ClientStuck(s: Sys) {
    match s.client
    case CWrite(rest) => rest != "" && |s.up| >= s.cap
    case CRead(_) => s.down == "" && !s.server.SDone?
    case _ => false
  }

  predicate ServerStuck(s: Sys) {
    match s.server
    case SRead(_) => s.up == "" && !s.client.CDone?
    case SWrite(rest) => rest != "" && |s.down| >= s.cap
    case SDone => false
  }

  /** str_cli's next call; want is how much a write would like to take. */
  function ClientRun(s: Sys, want: nat): Sys {
    if ClientStuck(s) then s
    else match s.client
      case Fgets =>
        if s.stdin == "" then s.(client := CDone)
        else
          var n := FgetsLen(s.stdin, 0);
          s.(client := CWrite(s.stdin[..n]), stdin := s.stdin[n..], line := s.stdin[..n])
      case CWrite(rest) =>
        if rest == "" then s.(client := CRead(""))
        else
          var k := Upto(rest, s.cap - |s.up|, want);
          s.(client := CWrite(rest[k..]), up := s.up + rest[..k])
      case CRead(buf) =>
        if s.down == "" then s.(client := Fgets, out := s.out + Fputs(buf))
        else
          var got := buf + [s.down[0]];
          if s.down[0] == '\n' || |got| + 1 == MAXLINE
          then s.(client := Fgets, down := s.down[1..], out := s.out + Fputs(got))
          else s.(client := CRead(got), down := s.down[1..])
      case CDone => s
  }

  /** str_echo's next call: a line without a newline is counted, and so written, one byte too long. */
  function ServerRun(s: Sys, want: nat): Sys {
    if ServerStuck(s) then s
    else match s.server
      case SRead(buf) =>
        if s.up == "" then s.(server := if buf == "" then SDone else SWrite(buf + [NUL]))
        else
          var got := buf + [s.up[0]];
          if s.up[0] == '\n' then s.(server := SWrite(got), up := s.up[1..])
          else if |got| + 1 == MAXLINE then s.(server := SWrite(got + [NUL]), up := s.up[1..])
          else s.(server := SRead(got), up := s.up[1..])
      case SWrite(rest) =>
        if rest == "" then s.(server := SRead(""))
        else
          var k := Upto(rest, s.cap - |s.down|, want);
          s.(server := SWrite(rest[k..]), down := s.down + rest[..k])
      case SDone => s
  }

  datatype Turn = Client(want: nat) | Server(want: nat)

  function Take(s: Sys, t: Turn): Sys {
    match t
    case Client(want) => ClientRun(s, want)
    case Server(want) => ServerRun(s, want)
  }

  function Exec(s: Sys, turns: seq<Turn>): Sys {
    if turns == [] then s else Take(Exec(s, turns[..|turns| - 1]), turns[|turns| - 1])
  }

  /** A write may take any positive number of bytes up to what there is and what there is room for. */
  lemma WritesAny(s: Sys, n: nat)
    requires n > 0
    ensures s.client.CWrite? && |s.up| + n <= s.cap && n <= |s.client.rest| ==>
              var r := ClientRun(s, n);
              r.up == s.up + s.client.rest[..n] && r.client == CWrite(s.client.rest[n..])
    ensures s.server.SWrite? && |s.down| + n <= s.cap && n <= |s.server.rest| ==>
              var r := ServerRun(s, n);
              r.down == s.down + s.server.rest[..n] && r.server == SWrite(s.server.rest[n..])
  {
  }

  // ----- what every run keeps -----

  predicate LineOk(s: Sys) {
    && OneLine(s.line, MAXLINE)
    && forall k :: 0 <= k < |s.line| ==> s.line[k] != NUL
  }

  /** What the server has of the line; behind a finished write it is about to read the next. */
  predicate Reading(server: ServerPc) { server.SRead? || server == SWrite("") }

  function Stored(server: ServerPc): string { if server.SRead? then server.buf else "" }

  function Unwritten(server: ServerPc): string { if server.SWrite? then server.rest else "" }

  /** The line is on its way up: what the server has, the channel has and the client has make it. */
  predicate Rising(s: Sys, rest: string) {
    Reading(s.server) && s.down == "" && Stored(s.server) + s.up + rest == s.line && s.up + rest != ""
  }

  /** The line is on its way down: what the client has, the channel has and the server has make it. */
  predicate Falling(s: Sys, buf: string) {
    && s.up == "" && (s.server.SWrite? || s.server == SRead(""))
    && buf + s.down + Unwritten(s.server) == s.line && s.down + Unwritten(s.server) != ""
  }

  predicate Inv(s: Sys, text: string) {
    && s.cap >= 1 && GoodText(s.stdin) && |s.up| <= s.cap && |s.down| <= s.cap
    && match s.client
       case Fgets => s.out + s.stdin == text && s.up == "" && s.down == ""
                     && (s.server == SRead("") || s.server == SWrite(""))
       case CWrite(rest) => s.out + s.line + s.stdin == text && LineOk(s)
                     && (Rising(s, rest) || (rest == "" && Falling(s, "")))
       case CRead(buf) => s.out + s.line + s.stdin == text && LineOk(s) && |buf| < |s.line|
                     && ((buf == "" && Rising(s, "")) || Falling(s, buf))
       case CDone => s.out == text && s.stdin == "" && s.up == "" && s.down == ""
                     && (s.server == SRead("") || s.server == SWrite("") || s.server == SDone)
  }

  // ----- steps -----

  lemma FgetsTakesLine(s: string)
    requires GoodText(s) && s != ""
    ensures var n := FgetsLen(s, 0);
            n > 0 && OneLine(s[..n], MAXLINE) && GoodText(s[n..]) && forall k :: 0 <= k < n ==> s[k] != NUL
  {
    FgetsStops(s, 0);
  }

  lemma {:induction false} FgetsStops(s: string, k: nat)
    requires k <= |s| && k < MAXLINE && forall j :: 0 <= j < k ==> s[j] != '\n'
    ensures forall j :: 0 <= j < FgetsLen(s, k) - 1 ==> s[j] != '\n'
    decreases |s| - k
  {
    if k < |s| && k < MAXLINE - 1 && s[k] != '\n' {
      FgetsStops(s, k + 1);
    }
  }

  lemma {:induction false} FputsWhole(s: string)
    requires forall k :: 0 <= k < |s| ==> s[k] != NUL
    ensures Fputs(s) == s
  {
    if s != "" {
      FputsWhole(s[1..]);
    }
  }

  /** Behind a NUL nothing is printed. */
  lemma {:induction false} FputsToNul(s: string, rest: string)
    requires forall k :: 0 <= k < |s| ==> s[k] != NUL
    ensures Fputs(s + [NUL] + rest) == s
  {
    if s != "" {
      assert (s + [NUL] + rest)[1..] == s[1..] + [NUL] + rest;
      FputsToNul(s[1..], rest);
    }
  }

  lemma ClientFgets(s: Sys, text: string, want: nat)
    requires Inv(s, text) && s.client.Fgets?
    ensures Inv(ClientRun(s, want), text)
  {
    if s.stdin != "" {
      FgetsTakesLine(s.stdin);
      var s', n := ClientRun(s, want), FgetsLen(s.stdin, 0);
      assert s.stdin[..n] + s.stdin[n..] == s.stdin;
      assert s'.out + s'.line + s'.stdin == s.out + s.stdin;
      assert Stored(s'.server) + s'.up + s'.line == s'.line;
    }
  }

  lemma RisingWrite(s: Sys, rest: string, k: nat)
    requires Rising(s, rest) && k <= |rest|
    ensures Rising(s.(client := CWrite(rest[k..]), up := s.up + rest[..k]), rest[k..])
  {
    assert rest[..k] + rest[k..] == rest;
    assert Stored(s.server) + (s.up + rest[..k]) + rest[k..] == Stored(s.server) + s.up + rest;
    assert s.up + rest[..k] + rest[k..] == s.up + rest;
  }

  lemma FallingWrite(s: Sys, buf: string, k: nat)
    requires Falling(s, buf) && s.server.SWrite? && k <= |s.server.rest|
    ensures Falling(s.(server := SWrite(s.server.rest[k..]), down := s.down + s.server.rest[..k]), buf)
  {
    var rest := s.server.rest;
    assert rest[..k] + rest[k..] == rest;
    assert buf + (s.down + rest[..k]) + rest[k..] == buf + s.down + rest;
    assert s.down + rest[..k] + rest[k..] == s.down + rest;
  }

  lemma ClientWrites(s: Sys, text: string, want: nat)
    requires Inv(s, text) && s.client.CWrite?
    ensures Inv(ClientRun(s, want), text)
  {
    hide GoodText, FgetsLen, Fputs, Upto;
    var rest := s.client.rest;
    if rest == "" {
    } else if !ClientStuck(s) {
      hide Rising, Falling;
      RisingWrite(s, rest, Upto(rest, s.cap - |s.up|, want));
    }
  }

  /** Before the last byte has come there is no newline, and the buffer does not fill up. */
  lemma NextByte(line: string, buf: string, c: char, rest: string)
    requires OneLine(line, MAXLINE) && buf + [c] + rest == line
    ensures c == '\n' <==> rest == ""
    ensures |buf| + 1 < MAXLINE && (rest != "" ==> |buf| + 2 < MAXLINE)
  {
    assert line[|buf|] == c;
  }

  lemma ClientReads(s: Sys, text: string, want: nat)
    requires Inv(s, text) && s.client.CRead?
    ensures Inv(ClientRun(s, want), text)
  {
    var s', buf := ClientRun(s, want), s.client.buf;
    if s.down != "" {
      var c, more := s.down[0], s.down[1..] + Unwritten(s.server);
      assert buf + [c] + more == s.line;
      NextByte(s.line, buf, c, more);
      if more == "" {
        assert buf + [c] == s.line;
        FputsWhole(s.line);
        assert s'.out == s.out + s.line;
      } else {
        assert buf + [c] + s'.down + Unwritten(s'.server) == s.line;
      }
    }
  }

  lemma ServerReads(s: Sys, text: string, want: nat)
    requires Inv(s, text) && s.server.SRead?
    ensures Inv(ServerRun(s, want), text)
  {
    var s', buf := ServerRun(s, want), s.server.buf;
    if s.up != "" {
      var rest := if s.client.CWrite? then s.client.rest else "";
      assert Rising(s, rest);
      var c, more := s.up[0], s.up[1..] + rest;
      assert buf + [c] + more == s.line;
      NextByte(s.line, buf, c, more);
      if more == "" {
        assert buf + [c] == s.line;
        assert Falling(s', "");
      } else {
        assert buf + [c] + s'.up + rest == s.line;
      }
    }
  }

  lemma ServerWrites(s: Sys, text: string, want: nat)
    requires Inv(s, text) && s.server.SWrite?
    ensures Inv(ServerRun(s, want), text)
  {
    hide GoodText, FgetsLen, Fputs, Upto;
    var rest := s.server.rest;
    if rest == "" {
      DoneWriting(s, text);
    } else if !ServerStuck(s) {
      var buf := if s.client.CRead? then s.client.buf else "";
      assert Falling(s, buf);
      hide Rising, Falling;
      FallingWrite(s, buf, Upto(rest, s.cap - |s.down|, want));
    }
  }

  lemma DoneWriting(s: Sys, text: string)
    requires Inv(s, text) && s.server == SWrite("")
    ensures Inv(s.(server := SRead("")), text)
  {
    hide GoodText, FgetsLen, Fputs, Upto;
  }

  lemma TakeInv(s: Sys, text: string, t: Turn)
    requires Inv(s, text)
    ensures Inv(Take(s, t), text)
  {
    match t
    case Client(want) =>
      match s.client {
        case Fgets => ClientFgets(s, text, want);
        case CWrite(_) => ClientWrites(s, text, want);
        case CRead(_) => ClientReads(s, text, want);
        case CDone =>
      }
    case Server(want) =>
      match s.server {
        case SRead(_) => ServerReads(s, text, want);
        case SWrite(_) => ServerWrites(s, text, want);
        case SDone =>
      }
  }

  lemma {:induction false} ExecInv(cap: nat, text: string, turns: seq<Turn>)
    requires cap >= 1 && GoodText(text)
    ensures Inv(Exec(Begin(cap, text), turns), text)
  {
    if turns == [] {
    } else {
      ExecInv(cap, text, turns[..|turns| - 1]);
      TakeInv(Exec(Begin(cap, text), turns[..|turns| - 1]), text, turns[|turns| - 1]);
    }
  }

  /** Before position n there is no newline. */
  predicate NoNewline(s: string, n: nat) { forall k :: 0 <= k < n && k < |s| ==> s[k] != '\n' }

  /**
   What fgets takes, on any text: up to and with the first newline if it is among the first 511 characters,
   else 511 characters or all there are.
   */
  lemma FgetsByNewline(s: string, n: nat)
    requires NoNewline(s, n)
    ensures n < |s| && s[n] == '\n' && n < 511 ==> FgetsLen(s, 0) == n + 1
    ensures n == |s| && n <= 511 ==> FgetsLen(s, 0) == n
    ensures n == 511 <= |s| ==> FgetsLen(s, 0) == 511
  {
    if n <= 511 && n <= |s| {
      FgetsPasses(s, 0, n);
    }
  }

  lemma {:induction false} FgetsPasses(s: string, k: nat, n: nat)
    requires k <= n <= |s| && n < MAXLINE && NoNewline(s, n)
    ensures FgetsLen(s, k) == FgetsLen(s, n)
    decreases n - k
  {
    if k < n {
      FgetsPasses(s, k + 1, n);
    }
  }

  // ----- the claims -----

  /** Standard output is always a prefix of standard input, and all of it when the client returns. */
  lemma EchoIsFaithful(cap: nat, text: string, turns: seq<Turn>)
    requires cap >= 1 && GoodText(text)
    ensures var s := Exec(Begin(cap, text), turns);
            s.out <= text && (s.client.CDone? ==> s.out == text)
  {
    hide GoodText, FgetsLen, Rising, Falling, LineOk, Begin, Exec;
    ExecInv(cap, text, turns);
    var s := Exec(Begin(cap, text), turns);
    if s.client.CWrite? || s.client.CRead? {
      assert s.out + (s.line + s.stdin) == text;
    }
  }

  function ClientWork(c: ClientPc): int {
    match c
    case Fgets => 1
    case CWrite(rest) => 2 + 6 * |rest|
    case CRead(buf) => |buf|
    case CDone => 0
  }

  function ServerWork(p: ServerPc): int {
    match p
    case SRead(buf) => 1 + 4 * |buf|
    case SWrite(rest) => 2 + 3 * |rest|
    case SDone => 0
  }

  /** Every byte has so far to go. */
  function Measure(s: Sys): nat {
    9 * |s.stdin| + 5 * |s.up| + 2 * |s.down| + ClientWork(s.client) + ServerWork(s.server)
  }

  lemma ClientMeasure(s: Sys, text: string, want: nat)
    requires Inv(s, text) && !s.client.CDone? && !ClientStuck(s)
    ensures Measure(ClientRun(s, want)) < Measure(s)
  {
    if s.client.Fgets? && s.stdin != "" {
      FgetsTakesLine(s.stdin);
    }
  }

  lemma ServerMeasure(s: Sys, text: string, want: nat)
    requires Inv(s, text) && !s.server.SDone? && !ServerStuck(s)
    ensures Measure(ServerRun(s, want)) < Measure(s)
  {
    hide GoodText, FgetsLen, Fputs, Upto;
    if s.server.SRead? && s.up != "" {
      NoOverflow(s, text);
    }
    hide Inv;
  }

  /** A line that has not ended leaves room in the server's buffer. */
  lemma NoOverflow(s: Sys, text: string)
    requires Inv(s, text) && s.server.SRead? && s.up != ""
    ensures s.up[0] != '\n' ==> |s.server.buf| + 2 < MAXLINE
  {
    hide GoodText, FgetsLen, Fputs;
    var rest := if s.client.CWrite? then s.client.rest else "";
    assert Rising(s, rest);
    hide Inv;
    assert s.server.buf + [s.up[0]] + (s.up[1..] + rest) == s.line;
    NextByte(s.line, s.server.buf, s.up[0], s.up[1..] + rest);
  }

  lemma NotBothStuck(s: Sys, text: string)
    requires Inv(s, text) && !(s.client.CDone? && s.server.SDone?)
    ensures (!s.client.CDone? && !ClientStuck(s)) || (!s.server.SDone? && !ServerStuck(s))
  {
  }

  /**
   No deadlock whatever the channels hold and however short the writes are: until both have returned one
   of them can move, and every move brings the measure down; so both return.
   */
  lemma EchoTerminates(cap: nat, text: string, turns: seq<Turn>, want: nat)
    requires cap >= 1 && GoodText(text)
    ensures var s := Exec(Begin(cap, text), turns);
            && (!s.client.CDone? && !ClientStuck(s) ==> Measure(ClientRun(s, want)) < Measure(s))
            && (!s.server.SDone? && !ServerStuck(s) ==> Measure(ServerRun(s, want)) < Measure(s))
            && ((s.client.CDone? && s.server.SDone?)
                || (!s.client.CDone? && !ClientStuck(s)) || (!s.server.SDone? && !ServerStuck(s)))
  {
    hide Inv, Measure, ClientRun, ServerRun, GoodText, Begin;
    ExecInv(cap, text, turns);
    var s := Exec(Begin(cap, text), turns);
    if !s.client.CDone? && !ClientStuck(s) { ClientMeasure(s, text, want); }
    if !s.server.SDone? && !ServerStuck(s) { ServerMeasure(s, text, want); }
    if !(s.client.CDone? && s.server.SDone?) { NotBothStuck(s, text); }
  }

  // ----- the reading steps are readline -----

  /** One byte, or its end, of a readline whose result is told by LineOf, whatever is still to come. */
  lemma ByteOfLine(buf: string, coming: string, more: string)
    requires |buf| + 1 < MAXLINE
    ensures coming != "" ==>
              var got := buf + [coming[0]];
              var line := LineOf(coming + more, Closed, MAXLINE, buf);
              if coming[0] == '\n' then line == Line(got, |got|)
              else if |got| + 1 == MAXLINE then line == Line(got, |got| + 1)
              else line == LineOf(coming[1..] + more, Closed, MAXLINE, got)
    ensures LineOf("", Closed, MAXLINE, buf) == Line(buf, if buf == "" then 0 else |buf| + 1)
  {
    if coming != "" {
      assert (coming + more)[0] == coming[0] && (coming + more)[1..] == coming[1..] + more;
    }
  }

  /** What writen makes of readline's count: one byte too many when no newline was stored. */
  function Counted(line: Line): string {
    if line.count > |line.text| then line.text + [NUL] else line.text
  }

  /**
   A client step in its readline: either it goes on and the line to be read is still the same one, or the
   line is complete and its text, up to a NUL, is printed.
   */
  lemma ClientReadsLine(s: Sys, want: nat, more: string)
    requires s.client.CRead? && |s.client.buf| + 1 < MAXLINE && !ClientStuck(s) && (s.down == "" ==> more == "")
    ensures var r := ClientRun(s, want);
            var line := LineOf(s.down + more, Closed, MAXLINE, s.client.buf);
            if r.client.CRead? then
              && |r.client.buf| + 1 < MAXLINE && r.out == s.out
              && line == LineOf(r.down + more, Closed, MAXLINE, r.client.buf)
            else r.client.Fgets? && r.out == s.out + Fputs(line.text)
  {
    ByteOfLine(s.client.buf, s.down, more);
  }

  /** A server step in its readline: it goes on, or returns at a count of 0, or has the counted bytes to write. */
  lemma ServerReadsLine(s: Sys, want: nat, more: string)
    requires s.server.SRead? && |s.server.buf| + 1 < MAXLINE && !ServerStuck(s) && (s.up == "" ==> more == "")
    ensures var r := ServerRun(s, want);
            var line := LineOf(s.up + more, Closed, MAXLINE, s.server.buf);
            match r.server
            case SRead(buf) => |buf| + 1 < MAXLINE && line == LineOf(r.up + more, Closed, MAXLINE, buf)
            case SWrite(rest) => line.count > 0 && rest == Counted(line)
            case SDone => line.count == 0
  {
    ByteOfLine(s.server.buf, s.up, more);
  }
}
