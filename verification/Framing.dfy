/** Length-prefixed messages over a byte stream: mesg_send, mesg_recv and the loops of server and client. */
module Framing {
  import opened Numerals
  import opened Options
  import opened Sequences

  type Byte = b: int | 0 <= b < 256

  const MAXMESGDATA: nat := 4096 - 16
  const MESGHDRSIZE: nat := 16

  // ----- integers as the structure stores them: little-endian two's complement -----

  function Bytes(x: nat, k: nat): (bs: seq<Byte>)
    ensures |bs| == k
  {
    if k == 0 then [] else [x % 256] + Bytes(x / 256, k - 1)
  }

  function Unsigned(bs: seq<Byte>): nat {
    if bs == [] then 0 else bs[0] + 256 * Unsigned(bs[1..])
  }

  function Power256(k: nat): nat {
    if k == 0 then 1 else 256 * Power256(k - 1)
  }

  lemma {:induction false} UnsignedOfBytes(x: nat, k: nat)
    requires x < Power256(k)
    ensures Unsigned(Bytes(x, k)) == x
    decreases k
  {
    if k > 0 {
      UnsignedOfBytes(x / 256, k - 1);
      assert Bytes(x, k)[1..] == Bytes(x / 256, k - 1);
    }
  }

  const TWO32: int := 0x1_0000_0000

  predicate IsInt(x: int) { -0x8000_0000 <= x < 0x8000_0000 }
  predicate IsLong(x: int) { -0x8000_0000_0000_0000 <= x < 0x8000_0000_0000_0000 }

  function Signed(u: int, modulus: int): int { if 2 * u >= modulus then u - modulus else u }

  function IntBytes(x: int): (bs: seq<Byte>)
    requires IsInt(x)
    ensures |bs| == 4
  {
    Bytes(if x < 0 then x + TWO32 else x, 4)
  }

  function LongBytes(x: int): (bs: seq<Byte>)
    requires IsLong(x)
    ensures |bs| == 8
  {
    Bytes(if x < 0 then x + TWO64 else x, 8)
  }

  lemma IntReadsBack(x: int)
    requires IsInt(x)
    ensures Signed(Unsigned(IntBytes(x)), TWO32) == x
  {
    assert Power256(2) == 0x1_0000 && Power256(4) == TWO32;
    UnsignedOfBytes(if x < 0 then x + TWO32 else x, 4);
  }

  lemma LongReadsBack(x: int)
    requires IsLong(x)
    ensures Signed(Unsigned(LongBytes(x)), TWO64) == x
  {
    assert Power256(2) == 0x1_0000 && Power256(4) == TWO32;
    assert Power256(6) == 0x1_0000_0000_0000 && Power256(8) == TWO64;
    UnsignedOfBytes(if x < 0 then x + TWO64 else x, 8);
  }

  // ----- one message on the wire -----

  /** The leading part of the structure in memory; the compiler leaves four bytes of padding in it. */
  function Header(len: int, pad: seq<Byte>, kind: int): (bs: seq<Byte>)
    requires IsInt(len) && IsLong(kind) && |pad| == 4
    ensures |bs| == MESGHDRSIZE
  {
    IntBytes(len) + pad + LongBytes(kind)
  }

  datatype Outcome =
    | Got(len: int, kind: int, data: seq<Byte>)   // mesg_recv returned len
    | EndOfFile                                   // it returned 0: nothing to read
    | BrokenHeader                                // err_sys: message header read error
    | BrokenData                                  // err_sys: data read error
    | TooLong                                     // the length exceeds the buffer: no meaning past here

  /** What mesg_recv makes of a stream, and how many bytes it takes. */
  function Receive(bs: seq<Byte>): (r: (Outcome, nat))
    ensures r.1 <= |bs|
    ensures r.0.Got? ==> r.1 >= MESGHDRSIZE && |r.0.data| <= MAXMESGDATA
  {
    if bs == [] then (EndOfFile, 0)
    else if |bs| < MESGHDRSIZE then (BrokenHeader, |bs|)
    else
      var len, kind := Signed(Unsigned(bs[..4]), TWO32), Signed(Unsigned(bs[8..16]), TWO64);
      var rest := bs[MESGHDRSIZE..];
      if len <= 0 then (Got(len, kind, []), MESGHDRSIZE)
      else if len > MAXMESGDATA then (TooLong, MESGHDRSIZE)
      else if |rest| < len then (BrokenData, |bs|)
      else (Got(len, kind, rest[..len]), MESGHDRSIZE + len)
  }

  /** Sending and receiving are inverse, and what follows on the stream is not touched. */
  lemma ReceiveSent(data: seq<Byte>, pad: seq<Byte>, kind: int, rest: seq<Byte>)
    requires |data| <= MAXMESGDATA && |pad| == 4 && IsLong(kind)
    ensures var bs := Header(|data|, pad, kind) + data + rest;
            Receive(bs) == (Got(|data|, kind, data), MESGHDRSIZE + |data|) && bs[MESGHDRSIZE + |data|..] == rest
  {
    hide Unsigned, Bytes;
    var bs := Header(|data|, pad, kind) + data + rest;
    IntReadsBack(|data|);
    LongReadsBack(kind);
    assert bs[..4] == IntBytes(|data|);
    assert bs[8..16] == LongBytes(kind);
    assert bs[MESGHDRSIZE..] == data + rest;
    assert (data + rest)[..|data|] == data;
  }

  /** A message cut short, anywhere: the three ways mesg_recv ends, and it takes all there is. */
  lemma ReceiveCut(data: seq<Byte>, pad: seq<Byte>, kind: int, cut: nat)
    requires |data| <= MAXMESGDATA && |pad| == 4 && IsLong(kind) && cut < 16 + |data|
    ensures cut <= |Header(|data|, pad, kind) + data|
    ensures Receive((Header(|data|, pad, kind) + data)[..cut]) ==
            if cut == 0 then (EndOfFile, 0) else if cut < 16 then (BrokenHeader, cut) else (BrokenData, cut)
  {
    hide Unsigned, Bytes;
    var bs := (Header(|data|, pad, kind) + data)[..cut];
    if cut >= 16 {
      IntReadsBack(|data|);
      assert bs[..4] == IntBytes(|data|);
    }
  }

  /** A header whose length is not one of data: none is read for 0 and below, and 4080 is the most there can be. */
  lemma ReceiveOddLength(len: int, pad: seq<Byte>, kind: int, rest: seq<Byte>)
    requires IsInt(len) && |pad| == 4 && IsLong(kind) && (len <= 0 || len > 4080)
    ensures Receive(Header(len, pad, kind) + rest) == (if len <= 0 then Got(len, kind, []) else TooLong, 16)
  {
    hide Unsigned, Bytes;
    var bs := Header(len, pad, kind) + rest;
    IntReadsBack(len);
    LongReadsBack(kind);
    assert bs[..4] == IntBytes(len);
    assert bs[8..16] == LongBytes(kind);
  }

  // ----- a file in messages -----

  /** What is written for a list of data messages (each with the same padding bytes and type). */
  function Frames(chunks: seq<seq<Byte>>, pad: seq<Byte>, kind: int): seq<Byte>
    requires |pad| == 4 && IsLong(kind) && forall k :: 0 <= k < |chunks| ==> |chunks[k]| <= MAXMESGDATA
  {
    if chunks == [] then []
    else Header(|chunks[0]|, pad, kind) + chunks[0] + Frames(chunks[1..], pad, kind)
  }

  lemma NoFrames(pad: seq<Byte>, kind: int)
    requires |pad| == 4 && IsLong(kind)
    ensures Frames([], pad, kind) == [] && Join<Byte>([]) == []
  {
  }

  lemma {:induction false} FramesPush(chunks: seq<seq<Byte>>, c: seq<Byte>, pad: seq<Byte>, kind: int)
    requires |pad| == 4 && IsLong(kind) && forall k :: 0 <= k < |chunks| ==> |chunks[k]| <= MAXMESGDATA
    requires |c| <= MAXMESGDATA
    ensures Frames(chunks + [c], pad, kind) == Frames(chunks, pad, kind) + (Header(|c|, pad, kind) + c)
    ensures Join(chunks + [c]) == Join(chunks) + c
  {
    hide Header;
    if chunks == [] {
      assert [] + [c] == [c] && [c][1..] == [];
    } else {
      FramesPush(chunks[1..], c, pad, kind);
      assert (chunks + [c])[1..] == chunks[1..] + [c];
    }
  }

  /** A number of mesg_recv calls in a row, and the stream they leave. */
  function ReceiveMany(bs: seq<Byte>, n: nat): (seq<Outcome>, seq<Byte>) {
    if n == 0 then ([], bs)
    else
      var (o, used) := Receive(bs);
      var (more, rest) := ReceiveMany(bs[used..], n - 1);
      ([o] + more, rest)
  }

  /** Any sequence of messages, empty ones included, comes back as it was sent; the rest stays on the stream. */
  lemma {:induction false} ReceiveManySent(chunks: seq<seq<Byte>>, pad: seq<Byte>, kind: int, rest: seq<Byte>)
    requires |pad| == 4 && IsLong(kind) && forall k :: 0 <= k < |chunks| ==> |chunks[k]| <= MAXMESGDATA
    ensures var (os, left) := ReceiveMany(Frames(chunks, pad, kind) + rest, |chunks|);
            left == rest && |os| == |chunks|
            && forall k :: 0 <= k < |chunks| ==> os[k] == Got(|chunks[k]|, kind, chunks[k])
  {
    hide Header, Receive;
    if chunks == [] {
      assert Frames(chunks, pad, kind) + rest == rest;
    } else {
      var c, cs := chunks[0], chunks[1..];
      var bs, more := Frames(chunks, pad, kind) + rest, Frames(cs, pad, kind) + rest;
      ReceiveManySent(cs, pad, kind, rest);
      assert bs == Header(|c|, pad, kind) + c + more;
      ReceiveSent(c, pad, kind, more);
    }
  }

  /** What the client's loop prints and leaves on the stream; Got(0) or EndOfFile end it cleanly. */
  function Drain(bs: seq<Byte>): (r: (seq<Byte>, Outcome, seq<Byte>))
    decreases |bs|
  {
    var (o, used) := Receive(bs);
    if o.Got? && o.len > 0 then
      var (more, last, rest) := Drain(bs[used..]);
      (o.data + more, last, rest)
    else ([], o, bs[used..])
  }

  lemma FramesFront(chunks: seq<seq<Byte>>, pad: seq<Byte>, kind: int, last: seq<Byte>, rest: seq<Byte>)
    requires |pad| == 4 && IsLong(kind) && chunks != []
    requires forall k :: 0 <= k < |chunks| ==> |chunks[k]| <= MAXMESGDATA
    ensures Frames(chunks, pad, kind) + last + rest
            == Header(|chunks[0]|, pad, kind) + chunks[0] + (Frames(chunks[1..], pad, kind) + last + rest)
  {
    hide Header;
  }

  /**
   Any list of non-empty messages, then an empty one: the client prints the text they carry, stops at
   the empty one, and leaves whatever comes behind it on the stream.
   */
  lemma {:induction false} DrainFrames(chunks: seq<seq<Byte>>, pad: seq<Byte>, kind: int, rest: seq<Byte>)
    requires |pad| == 4 && IsLong(kind)
    requires forall k :: 0 <= k < |chunks| ==> 0 < |chunks[k]| <= MAXMESGDATA
    ensures Drain(Frames(chunks, pad, kind) + Header(0, pad, kind) + rest)
            == (Join(chunks), Got(0, kind, []), rest)
  {
    hide Header, Receive;
    var bs := Frames(chunks, pad, kind) + Header(0, pad, kind) + rest;
    if chunks == [] {
      ReceiveSent([], pad, kind, rest);
      assert bs == Header(0, pad, kind) + [] + rest;
    } else {
      JoinFront(chunks);
      var c, cs := chunks[0], chunks[1..];
      DrainFrames(cs, pad, kind, rest);
      FramesFront(chunks, pad, kind, Header(0, pad, kind), rest);
      ReceiveSent(c, pad, kind, Frames(cs, pad, kind) + Header(0, pad, kind) + rest);
    }
  }

  // ----- the program -----

  /** A FIFO: written at the end, read from the front. */
  class Stream {
    var bytes: seq<Byte>

    /** read: up to n bytes, fewer only when no more are there. */
    method Read(n: nat) returns (got: seq<Byte>)
      modifies this
      ensures |got| == (if |old(bytes)| < n then |old(bytes)| else n)
      ensures old(bytes) == got + bytes
    {
      var k := if |bytes| < n then |bytes| else n;
      got, bytes := bytes[..k], bytes[k..];
    }

    method Write(bs: seq<Byte>)
      modifies this
      ensures bytes == old(bytes) + bs
    {
      bytes := bytes + bs;
    }
  }

  /** The message structure, filled in place. */
  class Mesg {
    var len: int
    var kind: int
    const pad: seq<Byte>
    const data: array<Byte>

    ghost predicate Valid()
    {
      |pad| == 4 && data.Length == MAXMESGDATA
    }

    /** mesg_send: one write of header and data; a mesg_recv of what it appends gives the message back. */
    method Send(fd: Stream)
      requires Valid() && 0 <= len <= MAXMESGDATA && IsLong(kind)
      modifies fd
      ensures fd.bytes == old(fd.bytes) + (Header(len, pad, kind) + data[..len])
      ensures Receive(fd.bytes[|old(fd.bytes)|..]) == (Got(len, kind, data[..len]), MESGHDRSIZE + len)
    {
      hide Receive, Header;
      fd.Write(Header(len, pad, kind) + data[..len]);
      ReceiveSent(data[..len], pad, kind, []);
      assert fd.bytes[|old(fd.bytes)|..] == Header(len, pad, kind) + data[..len] + [];
    }

    /** Copies bytes into the data buffer. */
    method Fill(bs: seq<Byte>)
      requires Valid() && |bs| <= MAXMESGDATA
      modifies data
      ensures data[..|bs|] == bs
    {
      for i := 0 to |bs|
        invariant data[..i] == bs[..i]
      {
        data[i] := bs[i];
      }
      assert bs[..|bs|] == bs;
    }

    /** mesg_recv: header first, then as much data as it says. */
    method Recv(fd: Stream) returns (r: Outcome)
      requires Valid()
      modifies this, data, fd
      ensures (r, |old(fd.bytes)| - |fd.bytes|) == Receive(old(fd.bytes))
      ensures fd.bytes == old(fd.bytes)[|old(fd.bytes)| - |fd.bytes|..]
      ensures r.Got? ==> len == r.len && kind == r.kind && data[..|r.data|] == r.data
    {
      ghost var was := fd.bytes;
      var head := fd.Read(MESGHDRSIZE);
      if head == [] {
        return EndOfFile;
      }
      if |head| != MESGHDRSIZE {
        return BrokenHeader;
      }
      assert head == was[..MESGHDRSIZE] && fd.bytes == was[MESGHDRSIZE..];
      assert head[..4] == was[..4] && head[8..16] == was[8..16];
      len, kind := Signed(Unsigned(head[..4]), TWO32), Signed(Unsigned(head[8..16]), TWO64);
      if len > MAXMESGDATA {
        return TooLong;
      }
      if len > 0 {
        var body := fd.Read(len);
        if |body| != len {
          return BrokenData;
        }
        assert body == was[MESGHDRSIZE..][..len];
        Fill(body);
        return Got(len, kind, body);
      }
      return Got(len, kind, []);
    }
  }

  /**
   The server's loop over the opened file, or its error message; then the empty message.  Each read may
   return any positive number of bytes up to the buffer's size, or fail; behind a failing read nothing
   more is sent.
   */
  method Server(fd: Stream, mesg: Mesg, file: Option<seq<Byte>>, err: seq<Byte>)
    returns (ok: bool, ghost chunks: seq<seq<Byte>>)
    requires mesg.Valid() && IsLong(mesg.kind) && 0 < |err| <= MAXMESGDATA
    modifies fd, mesg, mesg.data
    ensures forall k :: 0 <= k < |chunks| ==> 0 < |chunks[k]| <= MAXMESGDATA
    ensures if ok then Join(chunks) == (if file.Some? then file.value else err)
            else file.Some? && Join(chunks) <= file.value
    ensures mesg.kind == old(mesg.kind)
    ensures fd.bytes == old(fd.bytes) + (Frames(chunks, mesg.pad, mesg.kind)
                                         + if ok then Header(0, mesg.pad, mesg.kind) else [])
  {
    hide Header, Frames, Join, Receive, Bytes, Unsigned;
    NoFrames(mesg.pad, mesg.kind);
    chunks := [];
    if file.None? {
      mesg.Fill(err);
      mesg.len := |err|;
      FramesPush([], err, mesg.pad, mesg.kind);
      assert [] + [err] == [err];
      chunks := [err];
      mesg.Send(fd);
      assert fd.bytes == old(fd.bytes) + Frames(chunks, mesg.pad, mesg.kind);
    } else {
      var text, pos := file.value, 0;
      var fails: bool := *;
      while pos < |text| && !fails
        invariant pos <= |text| && mesg.kind == old(mesg.kind)
        invariant forall k :: 0 <= k < |chunks| ==> 0 < |chunks[k]| <= MAXMESGDATA
        invariant Join(chunks) == text[..pos]
        invariant fd.bytes == old(fd.bytes) + Frames(chunks, mesg.pad, mesg.kind)
        decreases |text| - pos
      {
        var n: nat :| 0 < n <= MAXMESGDATA && n <= |text| - pos;
        var c := text[pos..pos + n];
        mesg.Fill(c);
        mesg.len := n;
        FramesPush(chunks, c, mesg.pad, mesg.kind);
        chunks := chunks + [c];
        mesg.Send(fd);
        assert text[..pos] + c == text[..pos + n];
        pos := pos + n;
        fails := *;
      }
      if fails {
        return false, chunks;
      }
      assert text[..pos] == text;
    }
    mesg.len := 0;
    mesg.Send(fd);
    assert mesg.data[..0] == [];
    ok := true;
  }

  /** The client's loop: receive and write out until nothing more comes. */
  method Client(fd: Stream, mesg: Mesg) returns (out: seq<Byte>, last: Outcome)
    requires mesg.Valid()
    modifies fd, mesg, mesg.data
    ensures (out, last, fd.bytes) == Drain(old(fd.bytes))
  {
    hide Receive, Drain;
    out := [];
    last := mesg.Recv(fd);
    DrainStep(old(fd.bytes), last, fd.bytes);
    while last.Got? && last.len > 0
      invariant Drain(old(fd.bytes)) == Onward(out, last, fd.bytes)
      decreases |fd.bytes|, if last.Got? && last.len > 0 then 1 else 0
    {
      ghost var before, m, was := out, last, fd.bytes;
      out := out + last.data;
      last := mesg.Recv(fd);
      OnwardStep(before, m, was, last, fd.bytes);
    }
  }

  /** What is printed in the end, after out, with message last just received. */
  function Onward(out: seq<Byte>, last: Outcome, bs: seq<Byte>): (seq<Byte>, Outcome, seq<Byte>) {
    if last.Got? && last.len > 0 then
      var (more, end, rest) := Drain(bs);
      (out + (last.data + more), end, rest)
    else (out, last, bs)
  }

  lemma DrainStep(was: seq<Byte>, last: Outcome, bs: seq<Byte>)
    requires |bs| <= |was| && (last, |was| - |bs|) == Receive(was) && bs == was[|was| - |bs|..]
    ensures Drain(was) == Onward([], last, bs)
  {
    hide Receive;
    assert Receive(was).0 == last && was[Receive(was).1..] == bs;
    if last.Got? && last.len > 0 {
      var more := Drain(bs).0;
      assert [] + (last.data + more) == last.data + more;
    }
  }

  lemma OnwardStep(out: seq<Byte>, m: Outcome, was: seq<Byte>, last: Outcome, bs: seq<Byte>)
    requires m.Got? && m.len > 0
    requires |bs| <= |was| && (last, |was| - |bs|) == Receive(was) && bs == was[|was| - |bs|..]
    ensures Onward(out, m, was) == Onward(out + m.data, last, bs)
  {
    hide Receive, Drain;
    DrainStep(was, last, bs);
    if last.Got? && last.len > 0 {
      var more := Drain(bs).0;
      assert out + (m.data + ([] + (last.data + more))) == out + m.data + (last.data + more);
    } else {
      assert out + (m.data + []) == out + m.data;
    }
  }

  /** Without the empty message behind them, the client stops at the end of file. */
  lemma {:induction false} DrainCut(chunks: seq<seq<Byte>>, pad: seq<Byte>, kind: int)
    requires |pad| == 4 && IsLong(kind)
    requires forall k :: 0 <= k < |chunks| ==> 0 < |chunks[k]| <= MAXMESGDATA
    ensures Drain(Frames(chunks, pad, kind)) == (Join(chunks), EndOfFile, [])
  {
    hide Header;
    if chunks != [] {
      hide Receive;
      JoinFront(chunks);
      DrainCut(chunks[1..], pad, kind);
      ReceiveSent(chunks[0], pad, kind, Frames(chunks[1..], pad, kind));
    }
  }

  /**
   The two together, over a FIFO that had nothing in it: the client prints the file, or the error; if a read
   of the file fails, a part of the file, and its own end is the end of file.
   */
  method Transfer(fd: Stream, ours: Mesg, theirs: Mesg, file: Option<seq<Byte>>, err: seq<Byte>)
    returns (ok: bool, out: seq<Byte>, last: Outcome)
    requires ours.Valid() && theirs.Valid() && IsLong(ours.kind) && 0 < |err| <= MAXMESGDATA && fd.bytes == []
    modifies fd, ours, ours.data, theirs, theirs.data
    ensures if ok then out == (if file.Some? then file.value else err) && last == Got(0, old(ours.kind), [])
            else file.Some? && out <= file.value && last == EndOfFile
    ensures fd.bytes == []
  {
    ghost var chunks;
    ok, chunks := Server(fd, ours, file, err);
    if ok {
      DrainFrames(chunks, ours.pad, ours.kind, []);
      assert fd.bytes == Frames(chunks, ours.pad, ours.kind) + Header(0, ours.pad, ours.kind) + [];
    } else {
      DrainCut(chunks, ours.pad, ours.kind);
      assert fd.bytes == Frames(chunks, ours.pad, ours.kind);
    }
    out, last := Client(fd, theirs);
  }
}
