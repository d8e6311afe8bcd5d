/**
 The message exchange over two bounded FIFOs, server and client interleaved: file name up, file or error
 message down, end marker.  A write of at most so many bytes is atomic, a longer one goes out in pieces.
 */
module FramingPipe {
  import opened Options
  import opened Sequences
  import opened Framing

  datatype Node = Text(bytes: seq<Byte>) | Directory

  /** What surrounds a run; the padding bytes travel with the structure, the message type is 1. */
  datatype Setup = Setup(cap: nat, atomic: nat, files: map<seq<Byte>, Node>, name: seq<Byte>, err: seq<Byte>,
                         pad: seq<Byte>) {
    predicate Ok() {
      && 1 <= cap && atomic <= cap && |pad| == 4 && err != [] && |name| <= MAXMESGDATA
      && (name != [] && name !in files ==> |name| + |err| <= MAXMESGDATA)
    }

    /** What the client is meant to print: nothing when the server refuses the name or finds a directory. */
    function Goal(): seq<Byte> {
      if name == [] then []
      else if name !in files then name + err
      else match files[name]
        case Text(t) => t
        case Directory => []
    }

    function Frame(data: seq<Byte>): (bs: seq<Byte>)
      requires Ok() && |data| <= MAXMESGDATA
      ensures |bs| == MESGHDRSIZE + |data|
    {
      Header(|data|, pad, 1) + data
    }
  }

  /** What comes after a message: more of the file, the end marker, or the return. */
  datatype Next = More(text: seq<Byte>, pos: nat) | End | Return

  datatype ServerPc =
    | SHead                                            // mesg_recv: the header of the name
    | SData(len: nat)                                  // its data
    | Open(name: seq<Byte>)                            // open, and the test for a directory
    | Read(text: seq<Byte>, pos: nat)                  // read the file
    | SSend(data: seq<Byte>, done: nat, next: Next)    // mesg_send; done bytes are out
    | SDone                                            // server() has returned
    | SFailed                                          // err_sys: a short read of header or data
    | SGone                                            // another err_sys, or killed

  datatype ClientPc =
    | CSend(done: nat)                                 // mesg_send of the name
    | CHead                                            // mesg_recv: header
    | CData(len: nat)                                  // data, and its write
    | CDone                                            // client() has returned
    | CFailed                                          // err_sys: a short read of header or data
    | CGone                                            // killed, or nobody to write to

  datatype Sys = Sys(
    up: seq<Byte>, down: seq<Byte>,
    server: ServerPc, client: ClientPc,
    out: seq<Byte>,
    pending: seq<seq<Byte>>)   // history: messages put into the down FIFO and not yet received in full

  const BEGIN := Sys([], [], SHead, CSend(0), [], [])

  predicate ServerOver(s: Sys) { s.server.SDone? || s.server.SFailed? || s.server.SGone? }

  predicate ClientOver(s: Sys) { s.client.CDone? || s.client.CFailed? || s.client.CGone? }

  function Min(a: nat, b: nat): nat { if a <= b then a else b }

  /** A positive length within the limit, as near to want as that allows. */
  function Length(want: nat, limit: nat): (n: nat)
    requires limit > 0
    ensures 0 < n <= limit
  {
    if want == 0 then 1 else Min(want, limit)
  }

  /** How many bytes of a frame a write puts out now; 0 when it sleeps. */
  function Written(c: Setup, frame: seq<Byte>, done: nat, pipe: seq<Byte>, want: nat): (k: nat)
    requires done < |frame|
    ensures done + k <= |frame| && (k > 0 ==> |pipe| + k <= c.cap)
  {
    var room := if |pipe| < c.cap then c.cap - |pipe| else 0;
    if |frame| <= c.atomic && done == 0 then if |frame| <= room then |frame| else 0
    else if room == 0 then 0 else Length(want, Min(room, |frame| - done))
  }

  predicate SendOk(data: seq<Byte>, done: nat) { |data| <= MAXMESGDATA && done < MESGHDRSIZE + |data| }

  predicate ServerAsleep(c: Setup, s: Sys)
    requires c.Ok()
  {
    match s.server
    case SHead => s.up == [] && !ClientOver(s)
    case SData(_) => s.up == [] && !ClientOver(s)
    case SSend(data, done, _) =>
      SendOk(data, done) && !ClientOver(s) && Written(c, c.Frame(data), done, s.down, 1) == 0
    case _ => false
  }

  predicate ClientAsleep(c: Setup, s: Sys)
    requires c.Ok()
  {
    match s.client
    case CSend(done) =>
      SendOk(c.name, done) && !ServerOver(s) && Written(c, c.Frame(c.name), done, s.up, 1) == 0
    case CHead => s.down == [] && !ServerOver(s)
    case CData(_) => s.down == [] && !ServerOver(s)
    case _ => false
  }

  /** The length a header carries. */
  function LenOf(head: seq<Byte>): int
    requires |head| == MESGHDRSIZE
  {
    Signed(Unsigned(head[..4]), TWO32)
  }

  function AfterSend(next: Next): ServerPc {
    match next
    case More(text, pos) => Read(text, pos)
    case End => SSend([], 0, Return)
    case Return => SDone
  }

  /** The server's next call; want is what a read or a write in pieces would like to move. */
  function ServerRun(c: Setup, s: Sys, want: nat): Sys
    requires c.Ok()
  {
    if ServerAsleep(c, s) then s
    else match s.server
      case SHead =>
        if s.up == [] then s.(server := SGone)               // end of file: filename read error
        else if |s.up| < MESGHDRSIZE then s.(up := [], server := SFailed)
        else
          var len := LenOf(s.up[..MESGHDRSIZE]);
          s.(up := s.up[MESGHDRSIZE..], server := if 0 < len <= MAXMESGDATA then SData(len) else SGone)
      case SData(len) =>
        if |s.up| < len then s.(up := [], server := SFailed)
        else s.(up := s.up[len..], server := Open(s.up[..len]))
      case Open(name) =>
        s.(server := if name !in c.files then SSend(name + c.err, 0, End)
                     else match c.files[name]
                       case Text(t) => Read(t, 0)
                       case Directory => SGone)
      case Read(text, pos) =>
        if pos >= |text| then s.(server := SSend([], 0, Return))
        else
          var n := Length(want, Min(|text| - pos, MAXMESGDATA));
          s.(server := SSend(text[pos..pos + n], 0, More(text, pos + n)))
      case SSend(data, done, next) =>
        if !SendOk(data, done) || ClientOver(s) then s.(server := SGone)   // SIGPIPE
        else
          var frame := c.Frame(data);
          var k := Written(c, frame, done, s.down, want);
          var down := s.down + frame[done..done + k];
          if done + k < |frame| then s.(down := down, server := SSend(data, done + k, next))
          else s.(down := down, server := AfterSend(next), pending := s.pending + [data])
      case SDone => s
      case SFailed => s
      case SGone => s
  }

  /** The client's next call. */
  function ClientRun(c: Setup, s: Sys, want: nat): Sys
    requires c.Ok()
  {
    if ClientAsleep(c, s) then s
    else match s.client
      case CSend(done) =>
        if !SendOk(c.name, done) || ServerOver(s) then s.(client := CGone)   // SIGPIPE
        else
          var frame := c.Frame(c.name);
          var k := Written(c, frame, done, s.up, want);
          s.(up := s.up + frame[done..done + k],
             client := if done + k < |frame| then CSend(done + k) else CHead)
      case CHead =>
        if s.down == [] then s.(client := CDone)             // end of file
        else if |s.down| < MESGHDRSIZE then s.(down := [], client := CFailed)
        else
          var len := LenOf(s.down[..MESGHDRSIZE]);
          var rest := s.down[MESGHDRSIZE..];
          if len > MAXMESGDATA then s.(down := rest, client := CGone)
          else if len > 0 then s.(down := rest, client := CData(len))
          else s.(down := rest, client := CDone, pending := if s.pending == [] then [] else s.pending[1..])
      case CData(len) =>
        if |s.down| < len then s.(down := [], client := CFailed)
        else s.(down := s.down[len..], client := CHead, out := s.out + s.down[..len],
                pending := if s.pending == [] then [] else s.pending[1..])
      case CDone => s
      case CFailed => s
      case CGone => s
  }

  /** ReadFails is an error of the server's read; a kill may come at any time. */
  datatype Turn = Server(want: nat) | Client(want: nat) | ReadFails | KillServer | KillClient

  function Take(c: Setup, s: Sys, t: Turn): Sys
    requires c.Ok()
  {
    match t
    case Server(want) => ServerRun(c, s, want)
    case Client(want) => ClientRun(c, s, want)
    case ReadFails => if s.server.Read? then s.(server := SGone) else s
    case KillServer => if ServerOver(s) then s else s.(server := SGone)
    case KillClient => if ClientOver(s) then s else s.(client := CGone)
  }

  function Exec(c: Setup, s: Sys, turns: seq<Turn>): Sys
    requires c.Ok()
  {
    if turns == [] then s else Take(c, Exec(c, s, turns[..|turns| - 1]), turns[|turns| - 1])
  }

  // ----- what every run keeps when all frames are atomic -----

  /** The largest data message of a run. */
  function Largest(c: Setup): nat {
    if c.name == [] then 0
    else if c.name !in c.files then |c.name| + |c.err|
    else match c.files[c.name]
      case Text(t) => Min(|t|, MAXMESGDATA)
      case Directory => 0
  }

  /** Every frame that can be written fits an atomic write. */
  predicate FramesFit(c: Setup) {
    MESGHDRSIZE + |c.name| <= c.atomic && MESGHDRSIZE + Largest(c) <= c.atomic
  }

  predicate Sized(pending: seq<seq<Byte>>) { forall k :: 0 <= k < |pending| ==> |pending[k]| <= MAXMESGDATA }

  /** Text the server still has to send. */
  function Unsent(c: Setup, p: ServerPc): seq<Byte> {
    match p
    case SHead => c.Goal()
    case SData(_) => c.Goal()
    case Open(_) => c.Goal()
    case Read(text, pos) => if pos <= |text| then text[pos..] else []
    case SSend(data, _, next) => data + if next.More? && next.pos <= |next.text| then next.text[next.pos..] else []
    case _ => []
  }

  predicate ServerOk(c: Setup, s: Sys) {
    match s.server
    case SHead => true
    case SData(len) => len == |c.name| > 0
    case Open(name) => name == c.name != []
    case Read(text, pos) => c.name != [] && c.name in c.files && c.files[c.name] == Text(text) && pos <= |text|
    case SSend(data, done, next) =>
      && done == 0 && |data| <= Largest(c) && |data| <= MAXMESGDATA
      && (match next
          case More(text, pos) => c.name in c.files && c.files[c.name] == Text(text) && pos <= |text| && data != []
                                  && c.name != []
          case End => data != []
          case Return => data == [])
    case SDone => true
    case SFailed => false
    case SGone => true
  }

  /** The name on its way up. */
  predicate UpOk(c: Setup, s: Sys)
    requires c.Ok()
  {
    match s.server
    case SHead => if s.client.CSend? then s.up == []
                  else if s.client.CGone? then s.up == [] || s.up == c.Frame(c.name) else s.up == c.Frame(c.name)
    case SData(_) => !s.client.CSend? && s.up == c.name
    case SGone => true
    case _ => !s.client.CSend? && s.up == []
  }

  /** The messages on their way down, the first one's header taken off or not. */
  predicate DownOk(c: Setup, s: Sys)
    requires c.Ok()
  {
    && Sized(s.pending)
    && (forall k :: 0 <= k < |s.pending| ==> (s.pending[k] == [] ==> s.server.SDone? && k == |s.pending| - 1))
    && match s.client
       case CSend(done) => done == 0 && s.pending == [] && s.down == [] && s.out == []
                           && (s.server.SHead? || s.server.SGone?)
       case CHead => s.down == Frames(s.pending, c.pad, 1)
                     && (s.server.SDone? ==> s.pending != [] && s.pending[|s.pending| - 1] == [])
       case CData(len) => s.pending != [] && len == |s.pending[0]| > 0
                          && s.down == s.pending[0] + Frames(s.pending[1..], c.pad, 1)
                          && (s.server.SDone? ==> s.pending[|s.pending| - 1] == [])
       case CDone => ServerOver(s) && (s.server.SDone? ==> s.pending == [])
       case CFailed => false
       case CGone => true
  }

  /** Printed, pending and unsent text make up the goal; behind a server that gave up, a part of it. */
  predicate TextOk(c: Setup, s: Sys) {
    var sent := s.out + Join(s.pending);
    if s.server.SGone? then sent <= c.Goal() else sent + Unsent(c, s.server) == c.Goal()
  }

  predicate Inv(c: Setup, s: Sys) {
    && c.Ok()
    && FramesFit(c)
    && ServerOk(c, s)
    && UpOk(c, s)
    && DownOk(c, s)
    && TextOk(c, s)
  }

  /** A whole frame in front: its header says how long the data behind it is. */
  lemma HeadOf(c: Setup, data: seq<Byte>, rest: seq<Byte>)
    requires c.Ok() && |data| <= MAXMESGDATA
    ensures var bs := c.Frame(data) + rest;
            LenOf(bs[..MESGHDRSIZE]) == |data| && bs[MESGHDRSIZE..] == data + rest
  {
    hide Unsigned, Bytes, Signed;
    var bs := c.Frame(data) + rest;
    assert bs[..MESGHDRSIZE][..4] == IntBytes(|data|);
    IntReadsBack(|data|);
  }

  // ----- steps of the server -----

  lemma ServerTakesHeader(c: Setup, s: Sys, want: nat)
    requires Inv(c, s) && s.server.SHead?
    ensures Inv(c, ServerRun(c, s, want))
  {
    hide Join, LenOf, Header, Frames;
    if s.up != [] {
      HeadOf(c, c.name, []);
      assert c.Frame(c.name) + [] == s.up && c.name + [] == c.name;
    }
  }

  lemma ServerTakesName(c: Setup, s: Sys, want: nat)
    requires Inv(c, s) && s.server.SData?
    ensures Inv(c, ServerRun(c, s, want))
  {
    hide Join, LenOf, Header, Frames;
    assert s.up[..|c.name|] == c.name && s.up[|c.name|..] == [];
  }

  lemma ServerOpens(c: Setup, s: Sys, want: nat)
    requires Inv(c, s) && s.server.Open?
    ensures Inv(c, ServerRun(c, s, want))
  {
    hide Join, Header, Frames;
    var r := ServerRun(c, s, want);
    if c.name !in c.files {
      assert Unsent(c, r.server) == c.Goal();
    } else if c.files[c.name].Text? {
      assert c.files[c.name].bytes[0..] == c.files[c.name].bytes;
    }
  }

  /** A server that only moves on, with as much to send as before. */
  lemma ServerMoves(c: Setup, s: Sys, p: ServerPc)
    requires Inv(c, s) && (s.server.Open? || s.server.Read?) && (p.Read? || p.SSend?)
    requires ServerOk(c, s.(server := p)) && Unsent(c, p) == Unsent(c, s.server)
    ensures Inv(c, s.(server := p))
  {
    hide Join, Frames, Unsent, ServerOk;
  }

  /** The next piece of the file, or the end marker behind the last. */
  lemma ReadPieces(text: seq<Byte>, pos: nat, n: nat)
    requires pos + n <= |text|
    ensures text[pos..] == text[pos..pos + n] + text[pos + n..]
  {
  }

  lemma ServerReads(c: Setup, s: Sys, want: nat)
    requires Inv(c, s) && s.server.Read?
    ensures Inv(c, ServerRun(c, s, want))
  {
    hide Join, Frames, UpOk, DownOk, TextOk;
    var p := ServerRun(c, s, want).server;
    var text, pos := s.server.text, s.server.pos;
    if pos < |text| {
      ReadPieces(text, pos, Length(want, Min(|text| - pos, MAXMESGDATA)));
    }
    assert ServerRun(c, s, want) == s.(server := p);
    ServerMoves(c, s, p);
  }

  /** A message behind the others. */
  lemma DownPush(c: Setup, s: Sys, data: seq<Byte>)
    requires c.Ok() && Sized(s.pending) && |data| <= MAXMESGDATA
    ensures Sized(s.pending + [data]) && Join(s.pending + [data]) == Join(s.pending) + data
    ensures Frames(s.pending + [data], c.pad, 1) == Frames(s.pending, c.pad, 1) + c.Frame(data)
    ensures s.pending != [] ==>
              Frames((s.pending + [data])[1..], c.pad, 1) == Frames(s.pending[1..], c.pad, 1) + c.Frame(data)
  {
    hide Header, Frames, Join;
    FramesPush(s.pending, data, c.pad, 1);
    if s.pending != [] {
      FramesPush(s.pending[1..], data, c.pad, 1);
      assert (s.pending + [data])[1..] == s.pending[1..] + [data];
    }
  }

  /** What a write of the server comes to: all of the frame, or sleep. */
  lemma SendEffect(c: Setup, s: Sys, want: nat)
    requires Inv(c, s) && s.server.SSend? && !ClientOver(s)
    ensures var frame := c.Frame(s.server.data);
            if ServerAsleep(c, s) then ServerRun(c, s, want) == s && |s.down| + |frame| > c.cap
            else ServerRun(c, s, want) == s.(down := s.down + frame, server := AfterSend(s.server.next),
                                             pending := s.pending + [s.server.data])
  {
    hide Header, Frames, Join;
    var frame := c.Frame(s.server.data);
    assert frame[0..|frame|] == frame;
  }

  lemma ServerSends(c: Setup, s: Sys, want: nat)
    requires Inv(c, s) && s.server.SSend?
    ensures Inv(c, ServerRun(c, s, want))
  {
    hide Header, Frames, Join, ServerRun, ServerAsleep;
    if ClientOver(s) {
      SendBroken(c, s, want);
    } else {
      SendEffect(c, s, want);
      if !ServerAsleep(c, s) {
        SendKeeps(c, s, want);
      }
    }
  }

  lemma SendBroken(c: Setup, s: Sys, want: nat)
    requires Inv(c, s) && s.server.SSend? && ClientOver(s)
    ensures Inv(c, ServerRun(c, s, want))
  {
    hide Header, Frames, Join;
    assert s.out + Join(s.pending) <= c.Goal();
  }

  /** The server's state, the FIFOs and the messages behind a whole frame. */
  function Sent(c: Setup, s: Sys): Sys
    requires c.Ok() && s.server.SSend? && |s.server.data| <= MAXMESGDATA
  {
    s.(down := s.down + c.Frame(s.server.data), server := AfterSend(s.server.next),
       pending := s.pending + [s.server.data])
  }

  lemma SendKeeps(c: Setup, s: Sys, want: nat)
    requires Inv(c, s) && s.server.SSend? && !ClientOver(s)
    ensures Inv(c, Sent(c, s))
  {
    hide Header, Frames, Join, DownOk, TextOk;
    SendKeepsDown(c, s);
    SendKeepsText(c, s);
  }

  lemma SendKeepsText(c: Setup, s: Sys)
    requires Inv(c, s) && s.server.SSend? && !ClientOver(s)
    ensures TextOk(c, Sent(c, s))
  {
    hide Header, Frames, Join, DownOk, UpOk;
    assert Sized(s.pending) by { PendingSized(c, s); }
    DownPush(c, s, s.server.data);
    var r := Sent(c, s);
    assert s.out + (Join(s.pending) + s.server.data) + Unsent(c, r.server)
        == s.out + Join(s.pending) + Unsent(c, s.server);
  }

  lemma PendingSized(c: Setup, s: Sys)
    requires c.Ok() && DownOk(c, s)
    ensures Sized(s.pending)
  {
  }

  lemma SendKeepsDown(c: Setup, s: Sys)
    requires Inv(c, s) && s.server.SSend? && !ClientOver(s)
    ensures DownOk(c, Sent(c, s))
  {
    hide Header, Frames, Join, TextOk, UpOk;
    DownPush(c, s, s.server.data);
    if s.client.CData? {
      var r := Sent(c, s);
      assert r.pending[0] == s.pending[0];
      assert r.down == s.pending[0] + (Frames(s.pending[1..], c.pad, 1) + c.Frame(s.server.data));
    }
  }

  // ----- steps of the client -----

  lemma ServerGivesUp(c: Setup, s: Sys)
    requires Inv(c, s) && !ServerOver(s)
    ensures Inv(c, s.(server := SGone))
  {
    hide Join, Frames, Unsent, FramesFit;
    var r := s.(server := SGone);
    assert s.out + Join(s.pending) <= c.Goal();
    assert DownOk(c, r) by { hide TextOk, UpOk; }
  }

  lemma ClientGivesUp(c: Setup, s: Sys)
    requires Inv(c, s) && !ClientOver(s)
    ensures Inv(c, s.(client := CGone))
  {
    hide Join, Frames, Unsent, FramesFit;
    var r := s.(client := CGone);
    assert ServerOk(c, r) by { hide DownOk, TextOk, UpOk; }
    assert DownOk(c, r) by { hide TextOk, UpOk; }
    assert UpOk(c, r) by { hide DownOk, TextOk; }
    assert TextOk(c, r) by { hide DownOk, UpOk; }
  }

  lemma NameSent(c: Setup, s: Sys, want: nat)
    requires Inv(c, s) && s.client.CSend? && !ServerOver(s)
    ensures ClientRun(c, s, want) == s.(up := c.Frame(c.name), client := CHead)
  {
    hide Header, Join, Frames, TextOk;
    var frame := c.Frame(c.name);
    assert frame[0..|frame|] == frame && [] + frame == frame;
  }

  lemma ClientSends(c: Setup, s: Sys, want: nat)
    requires Inv(c, s) && s.client.CSend?
    ensures Inv(c, ClientRun(c, s, want))
  {
    hide Header, Join, FramesFit, Written, Unsent;
    if ServerOver(s) {
      ClientGivesUp(c, s);
    } else {
      NameSent(c, s, want);
      hide ClientRun;
      assert Frames([], c.pad, 1) == [];
    }
  }

  lemma NoFramesEmpty(c: Setup, pending: seq<seq<Byte>>)
    requires c.Ok() && Sized(pending)
    ensures Frames(pending, c.pad, 1) == [] <==> pending == []
    ensures pending != [] ==>
              Frames(pending, c.pad, 1) == c.Frame(pending[0]) + Frames(pending[1..], c.pad, 1)
  {
    hide Header;
  }

  /** The first message leaves: it was an end marker, or its data is printed. */
  lemma Popped(c: Setup, s: Sys)
    requires Inv(c, s) && s.pending != []
    ensures Join(s.pending) == s.pending[0] + Join(s.pending[1..])
    ensures s.out + Join(s.pending) == s.out + s.pending[0] + Join(s.pending[1..])
    ensures s.pending[0] == [] ==> s.server.SDone? && s.pending[1..] == []
  {
    JoinFront(s.pending);
  }

  lemma ClientTakesHeader(c: Setup, s: Sys, want: nat)
    requires Inv(c, s) && s.client.CHead?
    ensures Inv(c, ClientRun(c, s, want))
  {
    hide Header, Join, Frames, LenOf;
    NoFramesEmpty(c, s.pending);
    if s.pending != [] {
      Popped(c, s);
      HeadOf(c, s.pending[0], Frames(s.pending[1..], c.pad, 1));
      JoinNothing<Byte>();
    }
  }

  lemma ClientTakesData(c: Setup, s: Sys, want: nat)
    requires Inv(c, s) && s.client.CData?
    ensures Inv(c, ClientRun(c, s, want))
  {
    hide Header, Join, Frames;
    Popped(c, s);
    var m := s.pending[0];
    assert s.down[..|m|] == m && s.down[|m|..] == Frames(s.pending[1..], c.pad, 1);
  }

  lemma KillInv(c: Setup, s: Sys, t: Turn)
    requires Inv(c, s) && !t.Server? && !t.Client?
    ensures Inv(c, Take(c, s, t))
  {
    hide ServerOk, UpOk, DownOk, TextOk, FramesFit;
    if !ServerOver(s) { ServerGivesUp(c, s); }
    if !ClientOver(s) { ClientGivesUp(c, s); }
  }

  lemma TakeInv(c: Setup, s: Sys, t: Turn)
    requires Inv(c, s)
    ensures Inv(c, Take(c, s, t))
  {
    hide Inv;
    match t
    case Server(want) =>
      match s.server {
        case SHead => ServerTakesHeader(c, s, want);
        case SData(_) => ServerTakesName(c, s, want);
        case Open(_) => ServerOpens(c, s, want);
        case Read(_, _) => ServerReads(c, s, want);
        case SSend(_, _, _) => ServerSends(c, s, want);
        case _ =>
      }
    case Client(want) =>
      match s.client {
        case CSend(_) => ClientSends(c, s, want);
        case CHead => ClientTakesHeader(c, s, want);
        case CData(_) => ClientTakesData(c, s, want);
        case _ =>
      }
    case _ => KillInv(c, s, t);
  }

  lemma {:induction false} ExecInv(c: Setup, turns: seq<Turn>)
    requires c.Ok() && FramesFit(c)
    ensures Inv(c, Exec(c, BEGIN, turns))
  {
    hide Take;
    if turns == [] {
      assert [] + c.Goal() == c.Goal();
    } else {
      ExecInv(c, turns[..|turns| - 1]);
      TakeInv(c, Exec(c, BEGIN, turns[..|turns| - 1]), turns[|turns| - 1]);
    }
  }

  // ----- the claims -----

  /**
   With atomic frames, the output is always a part of what it should be, and when both functions have
   returned by themselves it is all of it; no read of header or data ever comes up short.
   */
  lemma OutputIsGoal(c: Setup, turns: seq<Turn>)
    requires c.Ok() && FramesFit(c)
    ensures var s := Exec(c, BEGIN, turns);
            && s.out <= c.Goal() && !s.server.SFailed? && !s.client.CFailed?
            && (s.server.SDone? && s.client.CDone? ==> s.out == c.Goal())
  {
    hide Exec;
    ExecInv(c, turns);
    WhatInvMeans(c, Exec(c, BEGIN, turns));
  }

  lemma WhatInvMeans(c: Setup, s: Sys)
    requires Inv(c, s)
    ensures && s.out <= c.Goal() && !s.server.SFailed? && !s.client.CFailed?
            && (s.server.SDone? && s.client.CDone? ==> s.out == c.Goal())
  {
    hide Frames, UpOk;
    JoinNothing<Byte>();
    assert s.out <= s.out + Join(s.pending);
  }

  function ServerWork(c: Setup, p: ServerPc): int {
    match p
    case SHead => 5 * |c.Goal()| + 10
    case SData(_) => 5 * |c.Goal()| + 9
    case Open(_) => 5 * |c.Goal()| + 8
    case Read(text, pos) => 5 * (|text| - pos) + 4
    case SSend(_, _, More(text, pos)) => 5 * (|text| - pos) + 7
    case SSend(_, _, End) => 6
    case SSend(_, _, Return) => 3
    case _ => 0
  }

  function ClientWork(p: ClientPc): int {
    match p
    case CSend(_) => 2
    case CHead => 1
    case _ => 0
  }

  /** Calls still to be made, at most. */
  function Measure(c: Setup, s: Sys): int {
    ServerWork(c, s.server) + ClientWork(s.client) + 2 * |s.pending|
  }

  lemma ServerFalls(c: Setup, s: Sys, want: nat)
    requires Inv(c, s) && !ServerOver(s) && !ServerAsleep(c, s)
    ensures Measure(c, ServerRun(c, s, want)) < Measure(c, s)
  {
    hide Frames, Join, UpOk, DownOk, TextOk;
    if s.server.SSend? && !ClientOver(s) {
      SendEffect(c, s, want);
      hide ServerRun;
    }
  }

  lemma ClientFalls(c: Setup, s: Sys, want: nat)
    requires Inv(c, s) && !ClientOver(s) && !ClientAsleep(c, s)
    ensures Measure(c, ClientRun(c, s, want)) < Measure(c, s)
  {
    hide Frames, Join, UpOk, TextOk, ServerWork;
    if s.client.CHead? && s.pending != [] {
      NoFramesEmpty(c, s.pending);
    }
  }

  lemma SomebodyMoves(c: Setup, s: Sys)
    requires Inv(c, s) && !(ServerOver(s) && ClientOver(s))
    ensures (!ServerOver(s) && !ServerAsleep(c, s)) || (!ClientOver(s) && !ClientAsleep(c, s))
  {
    hide Frames, Join, TextOk, Header;
    NoFramesEmpty(c, s.pending);
  }

  lemma MeasureBounded(c: Setup, s: Sys)
    requires Inv(c, s)
    ensures Measure(c, s) >= 0
  {
    hide Frames, Join, TextOk, UpOk, DownOk, Header;
  }

  /** No deadlock, and both end: until then one of the two can move, and every move lowers the measure. */
  lemma BothEnd(c: Setup, turns: seq<Turn>, want: nat)
    requires c.Ok() && FramesFit(c)
    ensures var s := Exec(c, BEGIN, turns);
            && Measure(c, s) >= 0
            && (!ServerOver(s) && !ServerAsleep(c, s) ==> Measure(c, ServerRun(c, s, want)) < Measure(c, s))
            && (!ClientOver(s) && !ClientAsleep(c, s) ==> Measure(c, ClientRun(c, s, want)) < Measure(c, s))
            && ((ServerOver(s) && ClientOver(s))
                || (!ServerOver(s) && !ServerAsleep(c, s)) || (!ClientOver(s) && !ClientAsleep(c, s)))
  {
    hide Exec, Inv, Measure, ServerRun, ClientRun, ServerAsleep, ClientAsleep;
    ExecInv(c, turns);
    var s := Exec(c, BEGIN, turns);
    MeasureBounded(c, s);
    if !ServerOver(s) && !ServerAsleep(c, s) { ServerFalls(c, s, want); }
    if !ClientOver(s) && !ClientAsleep(c, s) { ClientFalls(c, s, want); }
    if !(ServerOver(s) && ClientOver(s)) { SomebodyMoves(c, s); }
  }

  // ----- frames that are not atomic -----

  /** No schedule makes a read of header or data come up short. */
  ghost predicate ReadsSafely(c: Setup)
    requires c.Ok()
  {
    forall turns: seq<Turn> :: !Exec(c, BEGIN, turns).server.SFailed? && !Exec(c, BEGIN, turns).client.CFailed?
  }

  lemma OneTurn(c: Setup, turns: seq<Turn>, t: Turn)
    requires c.Ok()
    ensures Exec(c, BEGIN, turns + [t]) == Take(c, Exec(c, BEGIN, turns), t)
  {
    assert (turns + [t])[..|turns + [t]| - 1] == turns;
  }

  /** One byte of a long name is out, and the server reads it. */
  lemma NameTorn(c: Setup)
    requires c.Ok() && MESGHDRSIZE + |c.name| > c.atomic
    ensures !ReadsSafely(c)
  {
    var t1 := [] + [Client(1)];
    OneTurn(c, [], Client(1));
    var s1 := Exec(c, BEGIN, t1);
    assert Exec(c, BEGIN, []) == BEGIN;
    assert |s1.up| == 1 && s1.server == SHead;
    OneTurn(c, t1, Server(1));
    assert Exec(c, BEGIN, t1 + [Server(1)]).server.SFailed?;
  }

  lemma ExecNothing(c: Setup)
    requires c.Ok()
    ensures Exec(c, BEGIN, []) == BEGIN
  {
  }

  /** The four states of an undisturbed hand-over of the name. */
  function Handed(c: Setup, k: nat): Sys
    requires c.Ok()
  {
    if k == 0 then Sys(c.Frame(c.name), [], SHead, CHead, [], [])
    else if k == 1 then Sys(c.name, [], SData(|c.name|), CHead, [], [])
    else if k == 2 then Sys([], [], Open(c.name), CHead, [], [])
    else if c.name in c.files && c.files[c.name].Text? then
      Sys([], [], Read(c.files[c.name].bytes, 0), CHead, [], [])
    else Sys([], [], SSend(c.name + c.err, 0, End), CHead, [], [])
  }

  lemma NameWritten(c: Setup)
    requires c.Ok() && MESGHDRSIZE + |c.name| <= c.atomic
    ensures Take(c, BEGIN, Client(1)) == Handed(c, 0)
  {
    hide Header;
    var frame := c.Frame(c.name);
    assert frame[0..|frame|] == frame && [] + frame == frame;
  }

  lemma NameRead(c: Setup)
    requires c.Ok() && Largest(c) > 0
    ensures Take(c, Handed(c, 0), Server(1)) == Handed(c, 1)
    ensures Take(c, Handed(c, 1), Server(1)) == Handed(c, 2)
    ensures Take(c, Handed(c, 2), Server(1)) == Handed(c, 3)
  {
    hide Header, LenOf;
    HeadOf(c, c.name, []);
    var frame := c.Frame(c.name);
    assert frame + [] == frame && c.name + [] == c.name;
    assert c.name[..|c.name|] == c.name && c.name[|c.name|..] == [];
  }

  /** The server has the name and makes its first message. */
  lemma FirstMessage(c: Setup) returns (turns: seq<Turn>)
    requires c.Ok() && MESGHDRSIZE + |c.name| <= c.atomic && Largest(c) > 0
    ensures var s := Exec(c, BEGIN, turns);
            && s.server.SSend?
            && s.server.done == 0
            && |s.server.data| == Largest(c) <= MAXMESGDATA
            && s.client == CHead
            && s.down == []
  {
    hide Take, Exec;
    var t1 := [] + [Client(1)];
    var t2 := t1 + [Server(1)];
    var t3 := t2 + [Server(1)];
    turns := t3 + [Server(1)];
    ExecNothing(c);
    OneTurn(c, [], Client(1));
    OneTurn(c, t1, Server(1));
    OneTurn(c, t2, Server(1));
    OneTurn(c, t3, Server(1));
    NameWritten(c);
    NameRead(c);
    if c.name in c.files {
      OneTurn(c, turns, Server(MAXMESGDATA));
      FirstPiece(c);
      turns := turns + [Server(MAXMESGDATA)];
    }
  }

  lemma FirstPiece(c: Setup)
    requires c.Ok() && Largest(c) > 0 && c.name in c.files
    ensures var s := Take(c, Handed(c, 3), Server(MAXMESGDATA));
            && s.server.SSend?
            && s.server.done == 0
            && |s.server.data| == Largest(c) <= MAXMESGDATA
            && s.client == CHead
            && s.down == []
  {
  }

  /** One byte of a message that is too long is out, and the client reads it. */
  lemma MessageTorn(c: Setup) returns (turns: seq<Turn>)
    requires c.Ok() && MESGHDRSIZE + |c.name| <= c.atomic < MESGHDRSIZE + Largest(c)
    ensures Exec(c, BEGIN, turns).client.CFailed?
  {
    hide Exec;
    var t1 := FirstMessage(c);
    var s := Exec(c, BEGIN, t1);
    OneTurn(c, t1, Server(1));
    var t2 := t1 + [Server(1)];
    OneTurn(c, t2, Client(1));
    OneByte(c, s);
    turns := t2 + [Client(1)];
  }

  /** So it can go on a system whose pipes hold 512 bytes, with a file of 600. */
  lemma TornOnSmallPipe() returns (c: Setup, turns: seq<Turn>)
    ensures c.Ok() && c.cap == c.atomic == 512
    ensures Exec(c, BEGIN, turns).client.CFailed?
  {
    var text: seq<Byte> := seq(600, _ => 65);
    c := Setup(512, 512, map[[102] := Text(text)], [102], [63], [0, 0, 0, 0]);
    turns := MessageTorn(c);
  }

  lemma OneByte(c: Setup, s: Sys)
    requires c.Ok() && s.server.SSend? && s.server.done == 0 && |s.server.data| <= MAXMESGDATA
    requires MESGHDRSIZE + |s.server.data| > c.atomic && s.client == CHead && s.down == []
    ensures Take(c, Take(c, s, Server(1)), Client(1)).client.CFailed?
  {
    hide Header;
    assert Written(c, c.Frame(s.server.data), 0, [], 1) == 1;
  }

  lemma LargestBounded(c: Setup)
    requires c.Ok()
    ensures Largest(c) <= MAXMESGDATA
  {
  }

  /**
   The exact condition: no read ever comes up short, under any schedule, if and only if the name's frame and
   the largest message's frame can be written atomically; an atomic write of 4096 bytes, the size of the whole
   structure, is always enough.
   */
  lemma SafeExactlyWhenFramesFit(c: Setup)
    requires c.Ok()
    ensures ReadsSafely(c) <==> FramesFit(c)
    ensures c.atomic >= MESGHDRSIZE + MAXMESGDATA ==> FramesFit(c)
  {
    LargestBounded(c);
    hide Exec, Largest;
    if FramesFit(c) {
      forall turns: seq<Turn>
        ensures !Exec(c, BEGIN, turns).server.SFailed? && !Exec(c, BEGIN, turns).client.CFailed?
      {
        OutputIsGoal(c, turns);
      }
    } else if MESGHDRSIZE + |c.name| > c.atomic {
      NameTorn(c);
    } else {
      var turns := MessageTorn(c);
    }
  }
}
