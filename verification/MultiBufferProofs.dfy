/** What every run of the multi-buffer transfer keeps. */
module MultiBufferProofs {
  import opened MultiBuffer
  import opened Sequences

  // ----- counting signals and waits -----

  predicate Opened(s: Sys) { s.name in s.files }

  predicate ServerPast(s: Sys) { !s.server.Start? }

  predicate ClientPast(s: Sys) { !s.client.CStart? && !s.client.Name? && !s.client.CSignalName? }

  /** The last message is in its buffer, its signal still to come. */
  function Unsignalled(s: Sys): nat {
    if s.server.ErrSignal? || s.server.ErrSignalEnd? || s.server.SSignal? then 1 else 0
  }

  /** Signals the server has made on clisem. */
  function Signals(s: Sys): int { |s.sent| - Unsignalled(s) }

  /** Signals the server has made on servsem: one per buffer, when priming is through. */
  function Primed(s: Sys): int {
    match s.server
    case Prime(i) => i
    case SWait(_) => s.nbuff
    case Read(_) => s.nbuff
    case SSignal(_, _) => s.nbuff
    case Spin => if Opened(s) then s.nbuff else 0
    case Closing => if Opened(s) then s.nbuff else 0
    case _ => 0
  }

  /** Waits the server has made on servsem after the first. */
  function Waits(s: Sys): int {
    match s.server
    case SWait(_) => |s.sent|
    case Read(_) => |s.sent| + 1
    case SSignal(_, _) => |s.sent|
    case ErrEnd => 1
    case ErrSignalEnd => 1
    case Spin => if Opened(s) then |s.sent| else 1
    case Closing => if Opened(s) then |s.sent| else 1
    case _ => 0
  }

  function One(b: bool): int { if b then 1 else 0 }

  /** Both alive: the two values, and what each process would give back, are what the counts say. */
  predicate SemOk(s: Sys) {
    && s.clisem == One(s.client.CStart?) + Signals(s) - s.taken >= 0
    && s.servsem == One(ClientPast(s)) - One(ServerPast(s)) + Primed(s) + s.given - Waits(s) >= 0
    && s.sAdjC == -Signals(s)
    && s.sAdjS == One(ServerPast(s)) - Primed(s) + Waits(s)
    && s.cAdjC == One(!s.client.CStart?) + s.taken
    && s.cAdjS == -One(ClientPast(s)) - s.given
  }

  // ----- the messages -----

  predicate Ended(s: Sys) { s.sent != [] && s.sent[|s.sent| - 1] == "" }

  /** What has been sent spells out the goal, and an empty message comes last. */
  predicate SentOk(s: Sys) {
    && (forall j :: 0 <= j < |s.sent| - 1 ==> s.sent[j] != "")
    && Join(s.sent) <= Goal(s)
    && (Ended(s) ==> Join(s.sent) == Goal(s))
  }

  predicate ServerOk(s: Sys)
    requires Params(s)
  {
    match s.server
    case Start => s.sent == [] && s.pos == 0 && !s.client.Take? && !s.client.CSignal? && !s.client.CDone?
                  && (s.client.CSignalName? || s.client.CWait? ==> s.buf[0] == s.name)
    case OpenFile => s.sent == [] && s.pos == 0 && s.client == CWait(0) && s.buf[0] == s.name
    case ErrFill => !Opened(s) && s.sent == [] && s.client == CWait(0) && s.buf[0] == s.name
    case ErrSignal => !Opened(s) && s.sent == [Goal(s)] && ClientPast(s)
    case ErrWait => !Opened(s) && s.sent == [Goal(s)] && ClientPast(s)
    case ErrEnd => !Opened(s) && s.sent == [Goal(s)] && ClientPast(s)
    case ErrSignalEnd => !Opened(s) && s.sent == [Goal(s), ""] && ClientPast(s)
    case Prime(i) =>
      Opened(s) && i < s.nbuff && s.sent == [] && s.pos == 0 && s.content == Goal(s) && s.client == CWait(0)
    case SWait(i) => DataOk(s) && i == Slot(|s.sent|, s.nbuff) && !Ended(s)
    case Read(i) => DataOk(s) && i == Slot(|s.sent|, s.nbuff) && !Ended(s)
    case SSignal(i, n) =>
      && DataOk(s) && s.sent != [] && i == Slot(|s.sent| - 1, s.nbuff)
      && n == |s.sent[|s.sent| - 1]|
    case Spin => Ended(s) && ClientPast(s) && (!Opened(s) ==> |s.sent| == 2)
    case Closing => Ended(s) && ClientPast(s) && (!Opened(s) ==> |s.sent| == 2) && PastLast(s)
    case ServerGone => true
  }

  predicate DataOk(s: Sys) {
    && Opened(s) && ClientPast(s) && s.content == Goal(s)
    && s.pos <= |s.content| && Join(s.sent) == s.content[..s.pos]
  }

  /** The client has made its last wait on clisem: it looks at the end marker, or has returned. */
  predicate PastLast(s: Sys) {
    s.client.CDone? || (s.client.Take? && s.given < |s.sent| && s.sent[s.given] == "")
  }

  predicate ClientOk(s: Sys)
    requires Params(s)
  {
    && (forall j :: s.given <= j < |s.sent| ==> s.buf[Slot(j, s.nbuff)] == s.sent[j])
    && s.given <= s.taken <= |s.sent| <= s.given + s.nbuff
    && (forall j :: 0 <= j < s.given ==> s.sent[j] != "")
    && match s.client
       case CStart => s.sent == [] && s.out == ""
       case Name => s.sent == [] && s.out == ""
       case CSignalName => s.sent == [] && s.out == ""
       case CWait(i) => s.taken == s.given && i == Slot(s.given, s.nbuff) && s.out == Join(s.sent[..s.given])
       case Take(i) => s.taken == s.given + 1 && i == Slot(s.given, s.nbuff) && s.out == Join(s.sent[..s.given])
       case CSignal(i) => s.taken == s.given + 1 && i == Slot(s.given, s.nbuff)
                          && s.out == Join(s.sent[..s.given + 1]) && s.sent[s.given] != ""
       case CDone => s.taken == s.given + 1 && s.out == Join(s.sent[..s.given + 1]) && s.sent[s.given] == ""
       case ClientGone => true
  }

  predicate Inv(s: Sys) {
    && Params(s)
    && s.out <= Goal(s)
    && (!s.client.ClientGone? ==>
          && SentOk(s) && ServerOk(s) && ClientOk(s)
          && if s.server.ServerGone? then s.clisem == One(s.client.CStart?) else SemOk(s))
  }

  // ----- steps of the server, the client alive -----

  predicate BothAlive(s: Sys) { Inv(s) && !s.server.ServerGone? && !s.client.ClientGone? }

  lemma SlotNext(k: nat, n: nat)
    requires n > 0
    ensures Slot(k + 1, n) == Succ(Slot(k, n), n)
  {
  }

  /** Turns of the server that touch neither the buffers nor the messages. */
  lemma SameMessages(s: Sys, s': Sys)
    requires BothAlive(s) && s'.client == s.client
    requires s'.nbuff == s.nbuff && s'.files == s.files && s'.name == s.name && s'.err == s.err
    requires s'.buf == s.buf && s'.sent == s.sent && s'.out == s.out && s'.taken == s.taken && s'.given == s.given
    ensures Params(s') && s'.out <= Goal(s') && SentOk(s') && ClientOk(s')
  {
    hide Slot, Join;
  }

  lemma ServerSemaphore(s: Sys, want: nat)
    requires BothAlive(s) && (s.server.ErrSignal? || s.server.ErrWait? || s.server.ErrSignalEnd?
                              || s.server.SWait? || s.server.SSignal?)
    ensures Inv(ServerRun(s, want))
  {
    hide Slot, Join, ClientOk, SentOk;
    var s' := ServerRun(s, want);
    SameMessages(s, s');
    if s.server.SSignal? {
      SlotNext(|s.sent| - 1, s.nbuff);
    }
  }

  lemma ServerStart(s: Sys, want: nat)
    requires BothAlive(s) && s.server.Start?
    ensures Inv(ServerRun(s, want))
  {
    hide Join, SentOk;
    SameMessages(s, ServerRun(s, want));
    assert Slot(0, s.nbuff) == 0;
  }

  lemma ServerOpen(s: Sys, want: nat)
    requires BothAlive(s) && (s.server.OpenFile? || s.server.Prime?)
    ensures Inv(ServerRun(s, want))
  {
    hide Join, ClientOk, SentOk;
    var s' := ServerRun(s, want);
    SameMessages(s, s');
    JoinNothing<char>();
  }

  /** Putting a message into the next slot disturbs none of the pending ones. */
  lemma PutKeepsClient(s: Sys, m: string, s': Sys)
    requires Params(s) && ClientOk(s) && ClientPast(s) && !s.client.ClientGone?
    requires |s.sent| < s.given + s.nbuff && (forall j :: 0 <= j < |s.sent| ==> s.sent[j] != "")
    requires s'.buf == s.buf[Slot(|s.sent|, s.nbuff) := m] && s'.sent == s.sent + [m]
    requires s'.client == s.client && s'.given == s.given && s'.taken == s.taken && s'.out == s.out
    requires s'.nbuff == s.nbuff && s'.err == s.err
    ensures Params(s')
    ensures ClientOk(s')
    ensures (forall j :: 0 <= j < |s'.sent| - 1 ==> s'.sent[j] != "")
  {
    hide Slot, Join;
    forall j | s.given <= j < |s'.sent| ensures s'.buf[Slot(j, s.nbuff)] == s'.sent[j] {
      if j < |s.sent| {
        SlotsDiffer(j, |s.sent|, s.nbuff);
      }
    }
    assert s'.sent[..s.given] == s.sent[..s.given];
    if s.given < |s.sent| {
      assert s'.sent[..s.given + 1] == s.sent[..s.given + 1];
    }
  }

  /** A message that keeps the text on course keeps SentOk. */
  lemma PutKeepsSent(s: Sys, m: string, s': Sys)
    requires SentOk(s) && !Ended(s) && s'.sent == s.sent + [m]
    requires s'.files == s.files && s'.name == s.name && s'.err == s.err
    requires Join(s.sent) + m <= Goal(s) && (m == "" ==> Join(s.sent) == Goal(s))
    ensures SentOk(s') && Join(s'.sent) == Join(s.sent) + m
  {
    JoinPush(s.sent, m);
  }

  lemma ServerErrFill(s: Sys, want: nat)
    requires BothAlive(s) && s.server.ErrFill?
    ensures Inv(ServerRun(s, want))
  {
    hide Join, SentOk, ClientOk;
    var s' := ServerRun(s, want);
    assert Slot(0, s.nbuff) == 0;
    JoinNothing<char>();
    PutKeepsClient(s, Goal(s), s');
    PutKeepsSent(s, Goal(s), s');
  }

  lemma ServerErrEnd(s: Sys, want: nat)
    requires BothAlive(s) && s.server.ErrEnd?
    ensures Inv(ServerRun(s, want))
  {
    hide Join, SentOk, ClientOk;
    var s' := ServerRun(s, want);
    assert Slot(1, s.nbuff) == Succ(Slot(0, s.nbuff), s.nbuff) == 1;
    JoinNothing<char>();
    JoinPush([], Goal(s));
    assert [] + [Goal(s)] == [Goal(s)];
    PutKeepsClient(s, "", s');
    PutKeepsSent(s, "", s');
  }

  lemma ServerRead(s: Sys, want: nat)
    requires BothAlive(s) && s.server.Read?
    ensures Inv(ServerRun(s, want))
  {
    hide Join, SentOk, ClientOk, Slot;
    var s' := ServerRun(s, want);
    var n := ReadLen(|s.content| - s.pos, want);
    var m := s.content[s.pos..s.pos + n];
    assert s.content[..s.pos] + m == s.content[..s.pos + n];
    if n == 0 {
      assert s.content[..s.pos] == s.content;
    }
    Nonempties(s);
    PutKeepsClient(s, m, s');
    PutKeepsSent(s, m, s');
  }

  lemma Nonempties(s: Sys)
    requires SentOk(s) && !Ended(s)
    ensures forall j :: 0 <= j < |s.sent| ==> s.sent[j] != ""
  {
  }

  /** The loop of main ends only behind the client's last wait. */
  lemma ServerSpin(s: Sys, want: nat)
    requires BothAlive(s) && s.server.Spin?
    ensures Inv(ServerRun(s, want))
  {
    hide Join, Slot, SentOk;
    var s' := ServerRun(s, want);
    SameMessages(s, s');
    if s.clisem == 0 {
      assert s.taken == |s.sent|;
      assert PastLast(s);
    }
  }

  lemma ServerExitInv(s: Sys)
    requires Inv(s)
    ensures Inv(ServerExit(s))
  {
    hide Join, Slot, SentOk;
    if !s.client.ClientGone? {
      SentSame(s, ServerExit(s));
      NoServerOk(ServerExit(s));
    }
  }

  lemma ClientExitInv(s: Sys)
    requires Inv(s)
    ensures Inv(ClientExit(s))
  {
    hide Join, Slot, SentOk, ServerOk, ClientOk;
  }

  lemma ServerRunInv(s: Sys, want: nat)
    requires Inv(s)
    ensures Inv(ServerRun(s, want))
  {
    if !s.client.ClientGone? {
      match s.server {
        case ServerGone =>
        case Closing => ServerExitInv(s);
        case Spin => ServerSpin(s, want);
        case Read(_) => ServerRead(s, want);
        case ErrFill => ServerErrFill(s, want);
        case ErrEnd => ServerErrEnd(s, want);
        case OpenFile => ServerOpen(s, want);
        case Prime(_) => ServerOpen(s, want);
        case Start => ServerStart(s, want);
        case _ => ServerSemaphore(s, want);
      }
    }
  }

  // ----- steps of the client -----

  lemma ClientHandshake(s: Sys)
    requires Inv(s) && (s.client.CStart? || s.client.Name? || s.client.CSignalName?)
    ensures Inv(ClientRun(s))
  {
    hide SentOk;
    assert Slot(0, s.nbuff) == 0;
    JoinNothing<char>();
    assert s.sent[..0] == [];
    assert SentOk(ClientRun(s)) by { SentSame(s, ClientRun(s)); }
  }

  lemma SentSame(s: Sys, s': Sys)
    requires SentOk(s) && s'.sent == s.sent && s'.files == s.files && s'.name == s.name && s'.err == s.err
    ensures SentOk(s')
  {
  }

  /** In its loop the client moves only when the server is past the handshake, so the server's view holds. */
  lemma ClientLoopServerOk(s: Sys)
    requires Inv(s) && (s.client.CWait? || s.client.Take? || s.client.CSignal?)
    requires !s.server.ServerGone? && !ClientAsleep(s)
    ensures ServerOk(ClientRun(s))
  {
    hide Join, Slot, SentOk;
    var early := s.server.Start? || s.server.OpenFile? || s.server.ErrFill? || s.server.Prime?;
    if s.client.CWait? {
      assert Signals(s) > s.taken;
    }
    assert !early;
    var s' := ClientRun(s);
    assert ClientPast(s') && (PastLast(s) ==> PastLast(s'));
    LaterServerOk(s, s');
  }

  lemma NoServerOk(s: Sys)
    requires Params(s)
    ensures s.server.ServerGone? ==> ServerOk(s)
  {
  }

  lemma LaterServerOk(s: Sys, s': Sys)
    requires Params(s) && Params(s') && ServerOk(s) && s'.server == s.server
    requires !s.server.Start? && !s.server.OpenFile? && !s.server.ErrFill? && !s.server.Prime?
    requires s'.nbuff == s.nbuff && s'.files == s.files && s'.name == s.name && s'.err == s.err
    requires s'.sent == s.sent && s'.content == s.content && s'.pos == s.pos
    requires ClientPast(s') && (PastLast(s) ==> PastLast(s'))
    ensures ServerOk(s')
  {
    hide Join, Slot;
  }

  lemma ClientWaitClientOk(s: Sys)
    requires Inv(s) && (s.client.CWait? || s.client.CSignal?) && !ClientAsleep(s)
    ensures ClientOk(ClientRun(s))
  {
    hide Join, SentOk, Slot, ServerOk;
    SlotNext(s.given, s.nbuff);
  }

  lemma ClientWait(s: Sys)
    requires Inv(s) && (s.client.CWait? || s.client.CSignal?)
    ensures Inv(ClientRun(s))
  {
    hide Join, SentOk, Slot, ServerOk, ClientOk;
    if !ClientAsleep(s) {
      SentSame(s, ClientRun(s));
      ClientWaitClientOk(s);
      if !s.server.ServerGone? {
        ClientLoopServerOk(s);
      }
      NoServerOk(ClientRun(s));
    }
  }

  lemma ClientTakeClientOk(s: Sys)
    requires Inv(s) && s.client.Take?
    ensures ClientOk(ClientRun(s)) && ClientRun(s).out <= Goal(s)
  {
    hide Slot, Join, ServerOk, SemOk;
    var m := s.sent[s.given];
    assert s.sent[..s.given + 1] == s.sent[..s.given] + [m];
    JoinPush(s.sent[..s.given], m);
    JoinPrefix(s.sent, s.given + 1);
  }

  lemma ClientTake(s: Sys)
    requires Inv(s) && s.client.Take?
    ensures Inv(ClientRun(s))
  {
    hide Slot, Join, SentOk, ServerOk, ClientOk;
    var s' := ClientRun(s);
    ClientTakeClientOk(s);
    SentSame(s, s');
    if !s.server.ServerGone? {
      ClientLoopServerOk(s);
    }
    NoServerOk(ClientRun(s));
  }

  lemma ClientRunInv(s: Sys)
    requires Inv(s)
    ensures Inv(ClientRun(s))
  {
    hide Slot, Join, SentOk, ClientOk, ServerOk;
    match s.client {
      case CDone => ClientExitInv(s);
      case ClientGone =>
      case Take(_) => ClientTake(s);
      case CWait(_) => ClientWait(s);
      case CSignal(_) => ClientWait(s);
      case _ => ClientHandshake(s);
    }
  }

  lemma TurnedInv(s: Sys, t: Turn)
    requires Inv(s)
    ensures Inv(Turned(s, t))
  {
    match t
    case Server(want) => ServerRunInv(s, want);
    case Client => ClientRunInv(s);
    case KillServer => ServerExitInv(s);
    case KillClient => ClientExitInv(s);
  }

  // ----- every run -----

  /** A set-up: the buffers start with anything in them. */
  datatype Setup = Setup(nbuff: nat, files: map<string, string>, name: string, err: string, junk: seq<string>) {
    predicate Ok() { nbuff >= 2 && |junk| == nbuff && err != "" }

    function Goal(): string { if name in files then files[name] else name + err }

    function Reached(turns: seq<Turn>): Sys
      requires Ok()
    {
      Exec(Begin(nbuff, files, name, err, junk), turns)
    }
  }

  lemma {:induction false} ExecInv(c: Setup, turns: seq<Turn>)
    requires c.Ok()
    ensures var s := c.Reached(turns);
            && Inv(s)
            && Goal(s) == c.Goal()
            && s.nbuff == c.nbuff
  {
    if turns != [] {
      ExecInv(c, turns[..|turns| - 1]);
      TurnedInv(c.Reached(turns[..|turns| - 1]), turns[|turns| - 1]);
    }
  }
}
