/**
 The multi-buffer file transfer: a server and a client over a ring of shared buffers, two semaphores
 with SEM_UNDO, and the server's wait-for-zero loop before it exits.
 */
module MultiBuffer {
  import K = SemKernel

  /** The server reads at most one byte less than a buffer holds. */
  const MAXREAD: nat := 4096 - 16 - 1

  /** Where the server is. */
  datatype ServerPc =
    | Start                    // sem_wait(servsem): wait for the file name
    | OpenFile                 // open the named file
    | ErrFill                  // append the error text to buffer 0
    | ErrSignal                // sem_signal(clisem)
    | ErrWait                  // sem_wait(servsem)
    | ErrEnd                   // length 0 into buffer 1
    | ErrSignalEnd             // sem_signal(clisem)
    | Prime(i: nat)            // sem_signal(servsem), once per buffer
    | SWait(i: nat)            // sem_wait(servsem)
    | Read(i: nat)             // read the file into buffer i
    | SSignal(i: nat, n: nat)  // sem_signal(clisem); stop after n == 0
    | Spin                     // server() has returned: loop until clisem is 0
    | Closing                  // past the loop: sem_close twice, then exit
    | ServerGone

  /** Where the client is. */
  datatype ClientPc =
    | CStart                   // sem_wait(clisem)
    | Name                     // the file name into buffer 0
    | CSignalName              // sem_signal(servsem)
    | CWait(i: nat)            // sem_wait(clisem)
    | Take(i: nat)             // look at buffer i, write it out
    | CSignal(i: nat)          // sem_signal(servsem)
    | CDone                    // client() has returned
    | ClientGone

  datatype Sys = Sys(
    nbuff: nat, files: map<string, string>, name: string, err: string,
    clisem: int, servsem: int,
    sAdjC: int, sAdjS: int, cAdjC: int, cAdjS: int,   // adjustments: process, then semaphore
    buf: seq<string>,
    server: ServerPc, content: string, pos: nat,      // content: the opened file
    client: ClientPc, out: string,
    sent: seq<string>,         // history: every message the server put into a buffer
    taken: nat,                // history: the client's waits on clisem after the first
    given: nat)                // history: the client's signals on servsem after the first

  predicate Params(s: Sys) { s.nbuff >= 2 && |s.buf| == s.nbuff && s.err != "" }

  function Begin(nbuff: nat, files: map<string, string>, name: string, err: string, junk: seq<string>): Sys {
    Sys(nbuff, files, name, err, 1, 0, 0, 0, 0, 0, junk, Start, "", 0, CStart, "", [], 0, 0)
  }

  /** What the client is meant to print. */
  function Goal(s: Sys): string {
    if s.name in s.files then s.files[s.name] else s.name + s.err
  }

  /** Turns change neither the set-up nor the number of buffers. */
  predicate SameSetup(s: Sys, r: Sys) {
    r.nbuff == s.nbuff && r.files == s.files && r.name == s.name && r.err == s.err && |r.buf| == |s.buf|
  }

  function Succ(i: nat, n: nat): nat { if i + 1 < n then i + 1 else 0 }

  function Min(a: nat, b: nat): nat { if a <= b then a else b }

  /** What read returns: 0 at end of file, else any positive length it likes (want) within the limits. */
  function ReadLen(rest: nat, want: nat): nat {
    if rest == 0 then 0
    else if want == 0 then 1
    else Min(want, Min(rest, MAXREAD))
  }

  // sem_wait and sem_signal with SEM_UNDO, for each process on each semaphore; a wait needs a positive value.

  function ServerSignalsClient(s: Sys): Sys { s.(clisem := s.clisem + 1, sAdjC := s.sAdjC - 1) }
  function ServerSignalsServer(s: Sys): Sys { s.(servsem := s.servsem + 1, sAdjS := s.sAdjS - 1) }
  function ServerWaits(s: Sys): Sys { s.(servsem := s.servsem - 1, sAdjS := s.sAdjS + 1) }
  function ClientSignals(s: Sys): Sys { s.(servsem := s.servsem + 1, cAdjS := s.cAdjS - 1) }
  function ClientWaits(s: Sys): Sys { s.(clisem := s.clisem - 1, cAdjC := s.cAdjC + 1) }

  /** The server's exit, wanted or not: the kernel applies its adjustments. */
  function ServerExit(s: Sys): (r: Sys)
    ensures SameSetup(s, r)
  {
    if s.server.ServerGone? then s
    else s.(clisem := K.AtLeast0(s.clisem + s.sAdjC), servsem := K.AtLeast0(s.servsem + s.sAdjS),
            sAdjC := 0, sAdjS := 0, server := ServerGone)
  }

  function ClientExit(s: Sys): (r: Sys)
    ensures SameSetup(s, r)
  {
    if s.client.ClientGone? then s
    else s.(clisem := K.AtLeast0(s.clisem + s.cAdjC), servsem := K.AtLeast0(s.servsem + s.cAdjS),
            cAdjC := 0, cAdjS := 0, client := ClientGone)
  }

  /** A message is in place. */
  function Put(s: Sys, i: nat, m: string): Sys
    requires i < |s.buf|
  {
    s.(buf := s.buf[i := m], sent := s.sent + [m])
  }

  predicate ServerAsleep(s: Sys) {
    (s.server.Start? || s.server.ErrWait? || s.server.SWait?) && s.servsem <= 0
  }

  predicate ClientAsleep(s: Sys) {
    (s.client.CStart? || s.client.CWait?) && s.clisem <= 0
  }

  /** The server's next statement; want is the length read would like to return. */
  function ServerRun(s: Sys, want: nat): (r: Sys)
    requires |s.buf| >= 2
    ensures SameSetup(s, r)
  {
    if ServerAsleep(s) then s
    else match s.server
      case Start => ServerWaits(s).(server := OpenFile)
      case OpenFile =>
        if s.buf[0] in s.files then s.(content := s.files[s.buf[0]], server := Prime(0))
        else s.(server := ErrFill)
      case ErrFill => Put(s, 0, s.buf[0] + s.err).(server := ErrSignal)
      case ErrSignal => ServerSignalsClient(s).(server := ErrWait)
      case ErrWait => ServerWaits(s).(server := ErrEnd)
      case ErrEnd => Put(s, 1, "").(server := ErrSignalEnd)
      case ErrSignalEnd => ServerSignalsClient(s).(server := Spin)
      case Prime(i) => ServerSignalsServer(s).(server := if i + 1 < s.nbuff then Prime(i + 1) else SWait(0))
      case SWait(i) => ServerWaits(s).(server := Read(i))
      case Read(i) =>
        if i >= |s.buf| || s.pos > |s.content| then s
        else
          var n := ReadLen(|s.content| - s.pos, want);
          Put(s, i, s.content[s.pos..s.pos + n]).(pos := s.pos + n, server := SSignal(i, n))
      case SSignal(i, n) =>
        ServerSignalsClient(s).(server := if n == 0 then Spin else SWait(Succ(i, s.nbuff)))
      case Spin => if s.clisem == 0 then s.(server := Closing) else s
      case Closing => ServerExit(s)
      case ServerGone => s
  }

  /** The client's next statement. */
  function ClientRun(s: Sys): (r: Sys)
    requires |s.buf| >= 2
    ensures SameSetup(s, r)
  {
    if ClientAsleep(s) then s
    else match s.client
      case CStart => ClientWaits(s).(client := Name)
      case Name => s.(buf := s.buf[0 := s.name], client := CSignalName)
      case CSignalName => ClientSignals(s).(client := CWait(0))
      case CWait(i) => ClientWaits(s).(client := Take(i), taken := s.taken + 1)
      case Take(i) =>
        if i >= |s.buf| then s
        else if s.buf[i] == "" then s.(client := CDone)
        else s.(out := s.out + s.buf[i], client := CSignal(i))
      case CSignal(i) => ClientSignals(s).(client := CWait(Succ(i, s.nbuff)), given := s.given + 1)
      case CDone => ClientExit(s)
      case ClientGone => s
  }

  datatype Turn = Server(want: nat) | Client | KillServer | KillClient

  function Turned(s: Sys, t: Turn): (r: Sys)
    requires |s.buf| >= 2
    ensures SameSetup(s, r)
  {
    match t
    case Server(want) => ServerRun(s, want)
    case Client => ClientRun(s)
    case KillServer => ServerExit(s)
    case KillClient => ClientExit(s)
  }

  function Exec(s: Sys, turns: seq<Turn>): (r: Sys)
    requires |s.buf| >= 2
    ensures SameSetup(s, r)
  {
    if turns == [] then s else Turned(Exec(s, turns[..|turns| - 1]), turns[|turns| - 1])
  }

  // ----- the ring -----

  /** The buffer the k-th message goes through. */
  function Slot(k: nat, n: nat): (i: nat)
    requires n > 0
    ensures i < n
  {
    if k == 0 then 0 else Succ(Slot(k - 1, n), n)
  }

  lemma {:induction false} SlotAhead(k: nat, d: nat, n: nat)
    requires 0 < n && d < n
    ensures Slot(k + d, n) == Slot(k, n) + d || Slot(k + d, n) == Slot(k, n) + d - n
  {
    if d > 0 {
      SlotAhead(k, d - 1, n);
    }
  }

  /** Fewer than n messages apart means different buffers. */
  lemma SlotsDiffer(j: nat, k: nat, n: nat)
    requires j < k < j + n
    ensures Slot(j, n) != Slot(k, n)
  {
    SlotAhead(j, k - j, n);
  }

  /** The nested loops walk the buffers modulo their number. */
  lemma {:induction false} SlotIsModulo(k: nat, n: nat)
    requires n > 0
    ensures Slot(k, n) == k % n
  {
    if k > 0 {
      SlotIsModulo(k - 1, n);
      var q, r := (k - 1) / n, (k - 1) % n;
      assert k - 1 == q * n + r;
      if r + 1 < n {
        ModuloUnique(k, q, r + 1, n);
      } else {
        assert k == (q + 1) * n;
        ModuloUnique(k, q + 1, 0, n);
      }
    } else {
      ModuloUnique(0, 0, 0, n);
    }
  }

  lemma ModuloUnique(k: int, q: int, r: int, n: nat)
    requires 0 <= r < n && k == q * n + r
    ensures k % n == r
  {
    var d := k / n - q;
    assert k == k / n * n + k % n && 0 <= k % n < n;
    assert d * n == k / n * n - q * n;
    if d >= 1 {
      assert d * n >= n by { MulAtLeast(d, n); }
    } else if d <= -1 {
      assert -d * n >= n by { MulAtLeast(-d, n); }
    }
  }

  lemma MulAtLeast(d: int, n: nat)
    requires d >= 1
    ensures d * n >= n
  {
  }
}
