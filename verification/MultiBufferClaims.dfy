/** The claims of the multi-buffer transfer, for every interleaving and every split of the reads. */
module MultiBufferClaims {
  import opened MultiBuffer
  import opened MultiBufferProofs
  import opened Sequences

  /** Safety: the client has always printed a prefix of the file (or of the error message). */
  lemma OutputIsPrefix(c: Setup, turns: seq<Turn>)
    requires c.Ok()
    ensures c.Reached(turns).out <= c.Goal()
  {
    ExecInv(c, turns);
  }

  /** And all of it when client() returns. */
  lemma OutputIsWhole(c: Setup, turns: seq<Turn>)
    requires c.Ok() && c.Reached(turns).client.CDone?
    ensures c.Reached(turns).out == c.Goal()
  {
    ExecInv(c, turns);
    DoneIsWhole(c.Reached(turns));
  }

  lemma DoneIsWhole(s: Sys)
    requires Inv(s) && s.client.CDone?
    ensures s.out == Goal(s)
  {
    hide Slot, Join, ServerOk, SemOk;
    assert s.sent[..s.given + 1] == s.sent;
  }

  predicate Transferring(s: Sys) { s.server.SWait? || s.server.Read? || s.server.SSignal? }

  /** After priming: free tokens plus the buffers the two are in make the number of buffers. */
  lemma TokensConserved(c: Setup, turns: seq<Turn>)
    requires c.Ok()
    ensures var s := c.Reached(turns);
            Transferring(s) && !s.client.ClientGone? ==>
              s.clisem + s.servsem + One(s.server.Read? || s.server.SSignal?)
              + One(s.client.Take? || s.client.CSignal? || s.client.CDone?) == c.nbuff
  {
    ExecInv(c, turns);
    var s := c.Reached(turns);
    if Transferring(s) && !s.client.ClientGone? {
      MoreTokens(s);
    }
  }

  lemma MoreTokens(s: Sys)
    requires Inv(s) && Transferring(s) && !s.client.ClientGone?
    ensures s.clisem + s.servsem + One(s.server.Read? || s.server.SSignal?)
            + One(s.client.Take? || s.client.CSignal? || s.client.CDone?) == s.nbuff
  {
    hide Join, Slot, SentOk;
  }

  /** The buffer a process is in, between its wait and its signal. */
  function ServerIn(s: Sys): int {
    match s.server
    case ErrFill => 0
    case ErrSignal => 0
    case ErrEnd => 1
    case ErrSignalEnd => 1
    case Read(i) => i
    case SSignal(i, _) => i
    case _ => -1
  }

  function ClientIn(s: Sys): int {
    match s.client
    case Name => 0
    case CSignalName => 0
    case Take(i) => i
    case CSignal(i) => i
    case _ => -1
  }

  /** The two are never in the same buffer. */
  lemma NeverSameBuffer(c: Setup, turns: seq<Turn>)
    requires c.Ok()
    ensures var s := c.Reached(turns);
            !s.server.ServerGone? && !s.client.ClientGone? && ServerIn(s) >= 0 && ClientIn(s) >= 0 ==>
              ServerIn(s) != ClientIn(s)
  {
    ExecInv(c, turns);
    var s := c.Reached(turns);
    if !s.server.ServerGone? && !s.client.ClientGone? && ServerIn(s) >= 0 && ClientIn(s) >= 0 {
      BuffersApart(s);
    }
  }

  lemma BuffersApart(s: Sys)
    requires BothAlive(s) && ServerIn(s) >= 0 && ClientIn(s) >= 0
    ensures ServerIn(s) != ClientIn(s)
  {
    hide Join, SentOk;
    var k := |s.sent| - Unsignalled(s);
    if s.server.Read? || s.server.SSignal? {
      SlotsDiffer(s.given, k, s.nbuff);
    } else {
      assert Slot(0, s.nbuff) == 0 && Slot(1, s.nbuff) == 1;
    }
  }

  /** The ring holds exactly the pending messages, in order: message j in buffer j modulo their number. */
  lemma RingHoldsPending(c: Setup, turns: seq<Turn>, j: nat)
    requires c.Ok()
    ensures var s := c.Reached(turns);
            !s.client.ClientGone? ==>
              && |s.sent| <= s.given + c.nbuff
              && (s.given <= j < |s.sent| ==> s.buf[j % c.nbuff] == s.sent[j])
              && Join(s.sent) <= c.Goal()
  {
    ExecInv(c, turns);
    SlotIsModulo(j, c.nbuff);
  }

  /** While both live, value plus adjustments never moves on either semaphore. */
  lemma UndoConserved(c: Setup, turns: seq<Turn>)
    requires c.Ok()
    ensures var s := c.Reached(turns);
            !s.server.ServerGone? && !s.client.ClientGone? ==>
              s.clisem + s.sAdjC + s.cAdjC == 1 && s.servsem + s.sAdjS + s.cAdjS == 0
  {
    ExecInv(c, turns);
    BalancedUndo(c.Reached(turns));
  }

  lemma BalancedUndo(s: Sys)
    requires Inv(s)
    ensures BothAlive(s) ==> s.clisem + s.sAdjC + s.cAdjC == 1 && s.servsem + s.sAdjS + s.cAdjS == 0
  {
    hide Join, Slot, SentOk, ServerOk, ClientOk;
  }

  /** A kill takes effect at any point, and the client's gives clisem back: value plus the server's adjustment is 1. */
  lemma KillsStop(c: Setup, turns: seq<Turn>)
    requires c.Ok()
    ensures var s := c.Reached(turns);
            && Turned(s, KillServer).server.ServerGone? && Turned(s, KillServer).client == s.client
            && Turned(s, KillClient).client.ClientGone? && Turned(s, KillClient).server == s.server
            && (BothAlive(s) ==> Turned(s, KillClient).clisem + s.sAdjC == 1)
  {
    ExecInv(c, turns);
    BalancedUndo(c.Reached(turns));
    if BothAlive(c.Reached(turns)) {
      GivesBackAll(c.Reached(turns));
    }
  }

  // ----- what fits a buffer -----

  /** On the way of a file that opens, no message is longer than read was asked for: 4096 - 16 - 1 bytes. */
  predicate Bounded(s: Sys) {
    && (Opened(s) ==> forall j :: 0 <= j < |s.sent| ==> |s.sent[j]| <= 4079)
    && (s.server.ErrFill? || s.server.ErrSignal? || s.server.ErrWait? || s.server.ErrEnd? || s.server.ErrSignalEnd?
        ==> !Opened(s))
    && (s.server.OpenFile? ==> |s.buf| >= 2 && s.buf[0] == s.name)
    && (s.server.Start? && s.client.ClientGone? ==> s.servsem <= 0)
  }

  lemma StaysBounded(s: Sys, t: Turn)
    requires Inv(s) && Bounded(s)
    ensures Bounded(Turned(s, t))
  {
    hide Bounded, ServerOk, ClientOk, SentOk, SemOk;
    match t
    case Server(want) => ServerBounded(s, want);
    case Client => ClientBounded(s, ClientRun(s));
    case KillServer => ExitBounded(s);
    case KillClient => ClientBounded(s, ClientExit(s));
  }

  lemma ServerBounded(s: Sys, want: nat)
    requires Inv(s) && Bounded(s)
    ensures Bounded(ServerRun(s, want))
  {
    hide Join, Slot, SentOk, ClientOk, SemOk;
    ServerRunInv(s, want);
  }

  lemma ExitBounded(s: Sys)
    requires Bounded(s)
    ensures Bounded(ServerExit(s))
  {
  }

  lemma ClientBounded(s: Sys, r: Sys)
    requires Inv(s) && Bounded(s) && (r == ClientRun(s) || r == ClientExit(s))
    ensures Bounded(r)
  {
    hide Join, Slot, SentOk, ClientOk;
  }

  lemma {:induction false} ExecBounded(c: Setup, turns: seq<Turn>)
    requires c.Ok()
    ensures Bounded(c.Reached(turns)) && c.Reached(turns).files == c.files && c.Reached(turns).name == c.name
  {
    hide Turned, Bounded, Inv;
    if turns == [] {
      assert Bounded(c.Reached(turns)) by { BeginsBounded(c); }
    } else {
      ExecBounded(c, turns[..|turns| - 1]);
      ExecInv(c, turns[..|turns| - 1]);
      StaysBounded(c.Reached(turns[..|turns| - 1]), turns[|turns| - 1]);
    }
  }

  lemma BeginsBounded(c: Setup)
    requires c.Ok()
    ensures Bounded(c.Reached([]))
  {
  }

  /** In every run: each message of the file, and each buffer that holds one, has at most 4079 bytes. */
  lemma MessagesFit(c: Setup, turns: seq<Turn>, j: nat)
    requires c.Ok() && c.name in c.files
    ensures var s := c.Reached(turns);
            && (j < |s.sent| ==> |s.sent[j]| <= 4079)
            && (s.given <= j < |s.sent| && !s.client.ClientGone? ==> |s.buf[j % c.nbuff]| <= 4079)
  {
    ExecBounded(c, turns);
    RingHoldsPending(c, turns, j);
  }

  /** And any positive length up to that and to what is left can come; at the end of the file the end marker. */
  lemma ReadTakesAny(c: Setup, turns: seq<Turn>, n: nat)
    requires c.Ok() && c.Reached(turns).server.Read? && !c.Reached(turns).client.ClientGone?
    requires var s := c.Reached(turns);
             s.pos <= |s.content| && n <= |s.content| - s.pos && n <= 4079 && (n == 0 ==> s.pos == |s.content|)
    ensures var s := c.Reached(turns);
            ServerRun(s, n).sent == s.sent + [s.content[s.pos..s.pos + n]] && ServerRun(s, n).pos == s.pos + n
  {
    ExecInv(c, turns);
  }

  // ----- termination -----

  predicate ServerReturned(s: Sys) { s.server.Spin? || s.server.Closing? }

  /** Messages the server may still have to make. */
  function Unmade(s: Sys): int {
    match s.server
    case Start => if Opened(s) then |Goal(s)| + 1 else 2
    case OpenFile => if Opened(s) then |Goal(s)| + 1 else 2
    case ErrFill => 2
    case ErrSignal => 1
    case ErrWait => 1
    case ErrEnd => 1
    case Prime(_) => |Goal(s)| + 1
    case SWait(_) => |s.content| - s.pos + 1
    case Read(_) => |s.content| - s.pos + 1
    case SSignal(_, n) => if n == 0 then 0 else |s.content| - s.pos + 1
    case _ => 0
  }

  function ServerRank(s: Sys): int {
    match s.server
    case Start => s.nbuff + 6
    case OpenFile => s.nbuff + 5
    case ErrFill => 1
    case ErrSignal => 3
    case ErrWait => 2
    case ErrEnd => 1
    case ErrSignalEnd => 3
    case Prime(i) => 3 + s.nbuff - i
    case SWait(_) => 2
    case Read(_) => 1
    case SSignal(_, _) => 3
    case _ => 0
  }

  function ClientRank(s: Sys): int {
    match s.client
    case CStart => 5
    case Name => 4
    case CSignalName => 3
    case CWait(_) => 2
    case Take(_) => 1
    case _ => 0
  }

  /** Work left in server() and client() together. */
  function Measure(s: Sys): int {
    6 * Unmade(s) + 3 * (|s.sent| - s.given) + ServerRank(s) + ClientRank(s)
  }

  lemma MeasureBounded(s: Sys)
    requires BothAlive(s)
    ensures Measure(s) >= 0
  {
    hide Join, Slot, SentOk;
  }

  lemma ServerWorks(s: Sys, want: nat)
    requires BothAlive(s) && !ServerReturned(s)
    ensures if ServerAsleep(s) then ServerRun(s, want) == s else Measure(ServerRun(s, want)) < Measure(s)
  {
    hide Join, Slot, SentOk, SemOk, ClientOk;
  }

  lemma SameServerWork(s: Sys, r: Sys)
    requires SameSetup(s, r) && r.server == s.server && r.content == s.content && r.pos == s.pos
    ensures Unmade(r) == Unmade(s) && ServerRank(r) == ServerRank(s)
  {
  }

  lemma ClientWorks(s: Sys)
    requires BothAlive(s) && !s.client.CDone?
    ensures if ClientAsleep(s) then ClientRun(s) == s else Measure(ClientRun(s)) < Measure(s)
  {
    hide Join, Slot, SentOk, ServerOk, SemOk, Unmade, ServerRank;
    SameServerWork(s, ClientRun(s));
  }

  lemma NotBothAsleep(s: Sys)
    requires BothAlive(s) && !(ServerReturned(s) && s.client.CDone?)
    ensures (!ServerReturned(s) && !ServerAsleep(s)) || (!s.client.CDone? && !ClientAsleep(s))
  {
    hide Join, Slot;
  }

  /**
   Liveness: while either function is still running and neither process has died, one of the two can
   move, and every move of either brings the measure down; so both functions return.
   */
  lemma BothReturn(c: Setup, turns: seq<Turn>, want: nat)
    requires c.Ok()
    ensures var s := c.Reached(turns);
            !s.server.ServerGone? && !s.client.ClientGone? ==>
              && Measure(s) >= 0
              && (!ServerReturned(s) && !ServerAsleep(s) ==> Measure(ServerRun(s, want)) < Measure(s))
              && (!s.client.CDone? && !ClientAsleep(s) ==> Measure(ClientRun(s)) < Measure(s))
              && ((ServerReturned(s) && s.client.CDone?)
                  || (!ServerReturned(s) && !ServerAsleep(s)) || (!s.client.CDone? && !ClientAsleep(s)))
  {
    ExecInv(c, turns);
    var s := c.Reached(turns);
    if BothAlive(s) {
      MeasureBounded(s);
      if !ServerReturned(s) { ServerWorks(s, want); }
      if !s.client.CDone? { ClientWorks(s); }
      if !(ServerReturned(s) && s.client.CDone?) { NotBothAsleep(s); }
    }
  }

  // ----- the wait-for-zero loop -----

  /** Past the loop, the client has made its last wait on clisem, or is gone. */
  lemma LoopWaitsForClient(c: Setup, turns: seq<Turn>)
    requires c.Ok()
    ensures var s := c.Reached(turns);
            s.server.Closing? && !s.client.ClientGone? ==> PastLast(s)
  {
    ExecInv(c, turns);
  }

  /** What the loop tests is just that: clisem is 0 exactly when the client has made its last wait. */
  lemma SpinSeesLast(c: Setup, turns: seq<Turn>)
    requires c.Ok()
    ensures var s := c.Reached(turns);
            s.server.Spin? && !s.client.ClientGone? ==> (s.clisem == 0 <==> PastLast(s))
  {
    ExecInv(c, turns);
    SpinTest(c.Reached(turns));
  }

  lemma SpinTest(s: Sys)
    requires Inv(s)
    ensures s.server.Spin? && !s.client.ClientGone? ==> (s.clisem == 0 <==> PastLast(s))
  {
    hide Join, Slot;
    if s.server.Spin? && !s.client.ClientGone? && PastLast(s) {
      assert s.given == |s.sent| - 1;
    }
  }

  /** The client's exit gives its waits back: clisem is not 0 again. */
  lemma ExitRefills(s: Sys)
    requires Inv(s) && s.server.Spin? && s.client.CDone?
    ensures var x := ClientExit(s); x.server.Spin? && x.client.ClientGone? && x.clisem != 0
  {
    hide Join, Slot, SentOk;
  }

  /** Turns in which nobody kills the server. */
  predicate NoKill(turns: seq<Turn>) { forall k :: 0 <= k < |turns| ==> !turns[k].KillServer? }

  lemma {:induction false} Spinning(x: Sys, more: seq<Turn>)
    requires |x.buf| >= 2 && x.server.Spin? && x.client.ClientGone? && x.clisem != 0
    requires NoKill(more)
    ensures Exec(x, more) == x
  {
    if more != [] {
      Spinning(x, more[..|more| - 1]);
    }
  }

  /**
   The other side of the loop: a server still in it when the client has returned gets through if it looks
   before the client exits, and never if it does not, unless somebody kills it.
   */
  lemma LoopIsARace(c: Setup, turns: seq<Turn>, want: nat, more: seq<Turn>)
    requires c.Ok() && NoKill(more)
    requires var s := c.Reached(turns); s.server.Spin? && s.client.CDone?
    ensures var s := c.Reached(turns);
            && ServerRun(s, want).server.Closing?
            && ClientExit(s).clisem != 0 && Exec(ClientExit(s), more).server.Spin?
  {
    ExecInv(c, turns);
    var s := c.Reached(turns);
    SpinTest(s);
    ExitRefills(s);
    Spinning(ClientExit(s), more);
  }

  /** A client that is gone, returned or killed, has given all its waits back. */
  predicate Refilled(s: Sys) { s.client.ClientGone? && !s.server.ServerGone? ==> s.clisem >= 1 }

  lemma StaysRefilled(s: Sys, t: Turn)
    requires Inv(s) && Refilled(s)
    ensures Refilled(Turned(s, t))
  {
    hide Join, Slot, SentOk, Inv;
    if !s.server.ServerGone? && !s.client.ClientGone? {
      assert s.clisem + s.cAdjC >= 1 by { GivesBackAll(s); }
    }
  }

  lemma GivesBackAll(s: Sys)
    requires BothAlive(s)
    ensures s.clisem + s.cAdjC >= 1
  {
    hide Join, Slot, SentOk;
  }

  lemma {:induction false} GoneRefills(c: Setup, turns: seq<Turn>)
    requires c.Ok()
    ensures Refilled(c.Reached(turns))
  {
    if turns != [] {
      GoneRefills(c, turns[..|turns| - 1]);
      ExecInv(c, turns[..|turns| - 1]);
      StaysRefilled(c.Reached(turns[..|turns| - 1]), turns[|turns| - 1]);
    }
  }

  lemma {:induction false} ExecCons(s: Sys, t: Turn, more: seq<Turn>)
    requires |s.buf| >= 2
    ensures Exec(s, [t] + more) == Exec(Turned(s, t), more)
  {
    hide Turned;
    if more == [] {
      assert [t] + more == [] + [t];
      ExecSnoc(s, [], t);
    } else {
      var init, last := more[..|more| - 1], more[|more| - 1];
      ExecCons(s, t, init);
      assert [t] + more == ([t] + init) + [last];
      ExecSnoc(s, [t] + init, last);
    }
  }

  /** In the loop with a client that is not gone: the client runs on until the server sees 0. */
  lemma {:induction false} GetsOut(s: Sys) returns (more: seq<Turn>)
    requires BothAlive(s) && s.server.Spin?
    ensures NoKill(more) && Exec(s, more).server.Closing?
    decreases Measure(s)
  {
    hide Join, Slot, SentOk, ClientOk;
    SpinTest(s);
    more := [];
    var t := Server(1);
    if s.clisem != 0 {
      NotBothAsleep(s);
      ClientWorks(s);
      ClientRunInv(s);
      MeasureBounded(s);
      more := GetsOut(ClientRun(s));
      t := Client;
    }
    ExecCons(s, t, more);
    more := [t] + more;
  }

  /**
   When the loop ends: a server in it can never get out again, unless it is killed, exactly when the
   client is gone by then, whether it returned or was killed.
   */
  lemma StuckExactlyWhenClientGone(c: Setup, turns: seq<Turn>)
    requires c.Ok()
    ensures var s := c.Reached(turns);
            s.server.Spin? ==>
              (s.client.ClientGone? <==> forall more :: NoKill(more) ==> Exec(s, more).server.Spin?)
  {
    ExecInv(c, turns);
    GoneRefills(c, turns);
    var s := c.Reached(turns);
    if s.server.Spin? {
      if s.client.ClientGone? {
        forall more | NoKill(more) ensures Exec(s, more).server.Spin? {
          Spinning(s, more);
        }
      } else {
        var more := GetsOut(s);
      }
    }
  }

  /** And behind the loop both are gone after the server's exit and the client's. */
  lemma BothExit(c: Setup, turns: seq<Turn>)
    requires c.Ok()
    requires var s := c.Reached(turns); s.server.Spin? && s.client.CDone?
    ensures var r := c.Reached(turns + [Server(1)] + [Server(1)] + [Client]);
            r.server.ServerGone? && r.client.ClientGone? && r.out == c.Goal()
  {
    ExecInv(c, turns);
    OutputIsWhole(c, turns);
    var b := Begin(c.nbuff, c.files, c.name, c.err, c.junk);
    SpinTest(c.Reached(turns));
    ExecSnoc(b, turns, Server(1));
    ExecSnoc(b, turns + [Server(1)], Server(1));
    ExecSnoc(b, turns + [Server(1)] + [Server(1)], Client);
    hide Join, Slot, Inv;
  }

  /** Without the server, a client that has waits to make can only go to sleep. */
  predicate Doomed(s: Sys) {
    && Inv(s) && s.server.ServerGone?
    && !PastLast(s)
  }

  lemma StaysDoomed(s: Sys, t: Turn)
    requires Doomed(s)
    ensures Doomed(Turned(s, t)) && !Turned(s, t).client.CDone?
  {
    hide Join, Slot, SentOk;
    TurnedInv(s, t);
  }

  lemma {:induction false} DoomedForever(s: Sys, turns: seq<Turn>)
    requires Doomed(s)
    ensures Doomed(Exec(s, turns)) && !Exec(s, turns).client.CDone?
  {
    if turns != [] {
      DoomedForever(s, turns[..|turns| - 1]);
      StaysDoomed(Exec(s, turns[..|turns| - 1]), turns[|turns| - 1]);
    }
  }

  /**
   What the server's exit does to the client, whenever it comes: behind the last wait the client still
   finishes with the whole output; before it, the undo starves the client under every schedule.
   */
  lemma ExitStarvesUnlessPastLast(c: Setup, turns: seq<Turn>, more: seq<Turn>)
    requires c.Ok()
    requires var s := c.Reached(turns); !s.server.ServerGone? && !s.client.ClientGone?
    ensures var s := c.Reached(turns);
            var x := ServerExit(s);
            if PastLast(s) then
              var y := if s.client.CDone? then x else ClientRun(x);
              y.client.CDone? && y.out == c.Goal()
            else !Exec(x, more).client.CDone?
  {
    ExecInv(c, turns);
    var s := c.Reached(turns);
    var x := ServerExit(s);
    ServerExitInv(s);
    if PastLast(s) {
      ClientRunInv(x);
      LastTake(x);
    } else {
      assert Doomed(x);
      DoomedForever(x, more);
    }
  }

  lemma LastTake(x: Sys)
    requires Inv(x) && PastLast(x) && x.server.ServerGone?
    ensures var y := if x.client.CDone? then x else ClientRun(x);
            y.client.CDone? && y.out == Goal(x)
  {
    hide Slot, Join, SentOk, ServerOk;
    if x.client.Take? {
      ClientRunInv(x);
      DoneIsWhole(ClientRun(x));
    } else {
      DoneIsWhole(x);
    }
  }

  /**
   The loop is needed: without it the server could exit as soon as server() returns, and here it has
   returned (an empty file) while the client has not looked at the end marker yet.
   */
  lemma ReturnIsTooEarly() returns (c: Setup, turns: seq<Turn>)
    ensures c.Ok()
    ensures var s := c.Reached(turns);
            && s.server.Spin?
            && s.clisem != 0
            && !s.client.ClientGone?
            && !PastLast(s)
  {
    c, turns := EmptyRun(10);
    EmptyEnd(c.Reached(turns));
  }

  /** And the loop itself need not end: the same run goes on to the client's exit, and nobody was killed. */
  lemma SpinsForever() returns (c: Setup, turns: seq<Turn>)
    ensures c.Ok() && forall k :: 0 <= k < |turns| ==> turns[k].Server? || turns[k].Client?
    ensures var s := c.Reached(turns);
            s.server.Spin? && forall more :: NoKill(more) ==> Exec(s, more).server.Spin?
  {
    c, turns := EmptyRun(13);
    StuckExactlyWhenClientGone(c, turns);
  }

  lemma EmptyRun(n: nat) returns (c: Setup, turns: seq<Turn>)
    requires n <= 13
    ensures c.Ok() && EmptyFile(c.Reached(turns), n)
    ensures forall k :: 0 <= k < |turns| ==> turns[k].Server? || turns[k].Client?
  {
    c := Setup(2, map["f" := ""], "f", ": can't open", ["", ""]);
    turns := [];
    hide Turned, EmptyFile, Exec;
    var s := Begin(c.nbuff, c.files, c.name, c.err, c.junk);
    EmptyStart(s);
    for k := 0 to n
      invariant EmptyFile(c.Reached(turns), k)
      invariant forall k :: 0 <= k < |turns| ==> turns[k].Server? || turns[k].Client?
    {
      ExecSnoc(s, turns, TurnOf(k));
      EmptyNext(c.Reached(turns), k);
      turns := turns + [TurnOf(k)];
    }
  }

  /** An empty file: three turns of the client, the server's up to its return, and the client's to the end. */
  predicate EmptyFile(s: Sys, k: nat) {
    && |s.buf| == 2 && s.nbuff == 2 && s.files == map["f" := ""] && s.name == "f" && s.pos == 0
    && (2 <= k <= 8 ==> s.buf[0] == "f") && (k >= 9 ==> s.buf[0] == "")
    && (k >= 5 ==> s.content == "") && (k < 9 ==> s.sent == [])
    && s.server == (if k <= 3 then Start else if k == 4 then OpenFile else if k <= 6 then Prime(k - 5)
                    else if k == 7 then SWait(0) else if k == 8 then Read(0) else if k == 9 then SSignal(0, 0) else Spin)
    && s.client == (if k == 0 then CStart else if k == 1 then Name else if k == 2 then CSignalName
                    else if k <= 10 then CWait(0) else if k == 11 then Take(0) else if k == 12 then CDone
                    else ClientGone)
    && (k <= 12 ==> s.clisem == if k == 0 || k == 10 then 1 else 0)
    && (k <= 10 ==> s.servsem == if k <= 2 || k == 4 || k == 5 then 0 else if k == 7 then 2 else 1)
  }

  function TurnOf(k: nat): Turn { if k < 3 || k >= 10 then Client else Server(1) }

  lemma EmptyStart(s: Sys)
    requires s == Begin(2, map["f" := ""], "f", ": can't open", ["", ""])
    ensures Exec(s, []) == s && EmptyFile(s, 0)
  {
  }

  lemma EmptyNext(s: Sys, k: nat)
    requires EmptyFile(s, k) && k < 13
    ensures EmptyFile(Turned(s, TurnOf(k)), k + 1)
  {
  }

  lemma EmptyEnd(s: Sys)
    requires EmptyFile(s, 10)
    ensures s.server.Spin? && s.clisem != 0 && !s.client.ClientGone? && !PastLast(s)
  {
  }

  lemma ExecSnoc(s: Sys, turns: seq<Turn>, t: Turn)
    requires |s.buf| >= 2
    ensures Exec(s, turns + [t]) == Turned(Exec(s, turns), t)
  {
    assert (turns + [t])[..|turns + [t]| - 1] == turns;
  }
}
