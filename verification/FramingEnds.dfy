/** How the two sides of the message exchange come to their ends, when every frame is written atomically. */
module FramingEnds {
  import opened Options
  import opened Sequences
  import opened Framing
  import opened FramingPipe

  /** The server gives up exactly on no name, an empty one, a directory, or a client that is gone. */
  lemma ServerStopsExactly(c: Setup, turns: seq<Turn>, want: nat)
    requires c.Ok() && FramesFit(c) && !ServerOver(Exec(c, BEGIN, turns))
    ensures var s := Exec(c, BEGIN, turns);
            Take(c, s, Server(want)).server.SGone? <==>
              || (s.server.SHead? && s.up == [] && ClientOver(s))
              || (s.server.SHead? && s.up != [] && c.name == [])
              || (s.server.Open? && c.name in c.files && c.files[c.name].Directory?)
              || (s.server.SSend? && ClientOver(s))
  {
    hide Exec;
    ExecInv(c, turns);
    ServerStops(c, Exec(c, BEGIN, turns), want);
  }

  lemma ServerStops(c: Setup, s: Sys, want: nat)
    requires Inv(c, s) && !ServerOver(s)
    ensures ServerRun(c, s, want).server.SGone? <==>
              || (s.server.SHead? && s.up == [] && ClientOver(s))
              || (s.server.SHead? && s.up != [] && c.name == [])
              || (s.server.Open? && c.name in c.files && c.files[c.name].Directory?)
              || (s.server.SSend? && ClientOver(s))
  {
    hide LenOf, Header, Frames, Join, DownOk, TextOk;
    if s.server.SHead? && s.up != [] {
      HeadOf(c, c.name, []);
      assert c.Frame(c.name) + [] == s.up;
    }
  }

  /** The client gives up exactly when there is nobody to write the name to. */
  lemma ClientStopsExactly(c: Setup, turns: seq<Turn>, want: nat)
    requires c.Ok() && FramesFit(c) && !ClientOver(Exec(c, BEGIN, turns))
    ensures var s := Exec(c, BEGIN, turns);
            && (Take(c, s, Client(want)).client.CGone? <==> s.client.CSend? && ServerOver(s))
            && (Take(c, s, Client(want)).client.CDone? <==>
                  s.client.CHead? && (if s.pending == [] then ServerOver(s) else s.pending[0] == []))
  {
    hide Exec;
    ExecInv(c, turns);
    ClientStops(c, Exec(c, BEGIN, turns), want);
  }

  lemma ClientStops(c: Setup, s: Sys, want: nat)
    requires Inv(c, s) && !ClientOver(s)
    ensures ClientRun(c, s, want).client.CGone? <==> s.client.CSend? && ServerOver(s)
    ensures ClientRun(c, s, want).client.CDone? <==>
              s.client.CHead? && if s.pending == [] then ServerOver(s) else s.pending[0] == []
  {
    hide LenOf, Header, Frames, Join, UpOk, TextOk;
    NoFramesEmpty(c, s.pending);
    if s.client.CHead? && s.pending != [] {
      FirstFrame(c, s);
      HeadOf(c, s.pending[0], Frames(s.pending[1..], c.pad, 1));
    }
  }

  lemma FirstFrame(c: Setup, s: Sys)
    requires c.Ok() && Sized(s.pending) && s.pending != []
    ensures |s.pending[0]| <= MAXMESGDATA
    ensures Frames(s.pending, c.pad, 1) == c.Frame(s.pending[0]) + Frames(s.pending[1..], c.pad, 1)
  {
  }

  // ----- the reading calls are mesg_recv -----

  /** What mesg_recv makes of bs on a FIFO nobody will write to any more, as the client's turns have it. */
  lemma ClientReceives(c: Setup, s: Sys, want: nat)
    requires c.Ok() && s.client.CHead? && !ClientAsleep(c, s)
    ensures var r := ClientRun(c, s, want);
            match Receive(s.down).0
            case EndOfFile => r.client.CDone?
            case BrokenHeader => r.client.CFailed?
            case TooLong => r.client.CGone?
            case BrokenData => r.client.CData? && |r.down| < r.client.len && r.down == s.down[16..]
            case Got(len, _, data) =>
              if len <= 0 then r.client.CDone? && r.down == s.down[16..]
              else r.client == CData(len) && |r.down| >= len && r.down[..len] == data
                   && r.down[len..] == s.down[Receive(s.down).1..]
  {
    hide Unsigned, Signed;
    if |s.down| >= 16 {
      assert s.down[..16][..4] == s.down[..4];
    }
  }

  lemma ClientReceivesData(c: Setup, s: Sys, want: nat)
    requires c.Ok() && s.client.CData? && !ClientAsleep(c, s)
    ensures var r, len := ClientRun(c, s, want), s.client.len;
            if |s.down| < len then r.client.CFailed? && r.out == s.out
            else r.client.CHead? && r.out == s.out + s.down[..len] && r.down == s.down[len..]
  {
  }

  /** And as the server's turns have it: the name must have a length. */
  lemma ServerReceives(c: Setup, s: Sys, want: nat)
    requires c.Ok() && s.server.SHead? && !ServerAsleep(c, s)
    ensures var r := ServerRun(c, s, want);
            match Receive(s.up).0
            case EndOfFile => r.server.SGone?
            case BrokenHeader => r.server.SFailed?
            case TooLong => r.server.SGone?
            case BrokenData => r.server.SData? && |r.up| < r.server.len && r.up == s.up[16..]
            case Got(len, _, data) =>
              if len <= 0 then r.server.SGone?
              else r.server == SData(len) && |r.up| >= len && r.up[..len] == data
                   && r.up[len..] == s.up[Receive(s.up).1..]
  {
    hide Unsigned, Signed;
    if |s.up| >= 16 {
      assert s.up[..16][..4] == s.up[..4];
    }
  }

  lemma ServerReceivesName(c: Setup, s: Sys, want: nat)
    requires c.Ok() && s.server.SData? && !ServerAsleep(c, s)
    ensures var r, len := ServerRun(c, s, want), s.server.len;
            if |s.up| < len then r.server.SFailed?
            else r.server == Open(s.up[..len]) && r.up == s.up[len..]
  {
  }

  /** The server opens the name it has received, and tells it back with the error text when there is no such file. */
  lemma OpensWhatItGot(c: Setup, s: Sys, want: nat)
    requires c.Ok() && s.server.Open?
    ensures var r, name := ServerRun(c, s, want), s.server.name;
            r == s.(server := r.server)
            && (name !in c.files ==> r.server == SSend(name + c.err, 0, End))
            && (name in c.files && c.files[name].Directory? ==> r.server.SGone?)
            && (name in c.files && c.files[name].Text? ==> r.server == Read(c.files[name].bytes, 0))
  {
  }

  // ----- what may come from outside -----

  /** A frame that is not atomic may go out in pieces of any length there is room for. */
  lemma PiecesOfAnyLength(c: Setup, s: Sys, n: nat)
    requires c.Ok() && s.server.SSend? && SendOk(s.server.data, s.server.done) && !ClientOver(s)
    requires 16 + |s.server.data| > c.atomic && 0 < n < 16 + |s.server.data| - s.server.done && |s.down| + n <= c.cap
    ensures var r, data, done := ServerRun(c, s, n), s.server.data, s.server.done;
            r.down == s.down + c.Frame(data)[done..done + n] && r.server == SSend(data, done + n, s.server.next)
  {
    hide Header;
  }

  /** A failing read, and a kill, stop a side at once and touch nothing else. */
  lemma StopsAtOnce(c: Setup, s: Sys)
    requires c.Ok()
    ensures s.server.Read? ==> Take(c, s, ReadFails) == s.(server := SGone)
    ensures !ServerOver(s) ==> Take(c, s, KillServer) == s.(server := SGone)
    ensures !ClientOver(s) ==> Take(c, s, KillClient) == s.(client := CGone)
  {
  }

  // ----- nothing to send -----

  predicate Mute(s: Sys) {
    && (s.server.SHead? || s.server.SData? || s.server.Open? || s.server.SGone?)
    && s.down == [] && s.pending == [] && s.out == [] && !s.client.CData?
  }

  lemma StaysMute(c: Setup, s: Sys, t: Turn)
    requires Inv(c, s) && Mute(s) && (c.name == [] || (c.name in c.files && c.files[c.name].Directory?))
    ensures Mute(Take(c, s, t))
  {
    hide LenOf, Header, Frames, Join, TextOk;
    TakeInv(c, s, t);
    WhatInvMeans(c, Take(c, s, t));
  }

  /** For an empty name, and for a directory, no message is ever sent and server() never returns. */
  lemma {:induction false} NothingForDirectory(c: Setup, turns: seq<Turn>)
    requires c.Ok() && FramesFit(c) && (c.name == [] || (c.name in c.files && c.files[c.name].Directory?))
    ensures var s := Exec(c, BEGIN, turns);
            !s.server.SDone? && s.down == [] && s.pending == [] && s.out == []
    ensures Mute(Exec(c, BEGIN, turns))
  {
    hide Take;
    if turns != [] {
      NothingForDirectory(c, turns[..|turns| - 1]);
      ExecInv(c, turns[..|turns| - 1]);
      StaysMute(c, Exec(c, BEGIN, turns[..|turns| - 1]), turns[|turns| - 1]);
    }
  }
}
