/**
 The semaphore library and its user program, run by any number of processes over one key.
 A turn lets one process make its next system call (or file access), or kills it.
 */
module SemLibrary {
  import opened Options
  import opened SemKernel
  import opened SeqFile

  const BIGCOUNT: nat := 10000

  const OP_LOCK := [SemBuf(2, 0, false), SemBuf(2, 1, true)]
  const OP_ENDCREATE := [SemBuf(1, -1, true), SemBuf(2, -1, true)]
  const OP_OPEN := [SemBuf(1, -1, true)]
  const OP_CLOSE := [SemBuf(2, 0, false), SemBuf(2, 1, true), SemBuf(1, 1, true)]
  const OP_UNLOCK := [SemBuf(2, -1, true)]

  /** sem_op with the amount stored in op_op[0]. */
  function OpOp(amount: int): seq<SemBuf> { [SemBuf(0, amount, true)] }

  /** Where a process is: the call it makes next. */
  datatype Pc =
    | Out                                 // no process in this slot
    | Get                                 // sem_create: semget with IPC_CREAT
    | Lock(id: nat, asleep: bool)         // sem_create: semop op_lock
    | Look(id: nat)                       // sem_create: GETVAL of the process counter
    | Set0(id: nat)                       // sem_create: SETVAL of the semaphore
    | Set1(id: nat)                       // sem_create: SETVAL of the process counter
    | EndCreate(id: nat)                  // sem_create: semop op_endcreate
    | OpenGet                             // sem_open: semget
    | OpenOp(id: nat)                     // sem_open: semop op_open
    | Wait(id: nat, i: nat)               // loop pass i: sem_wait
    | Rd(id: nat, i: nat)                 // rewind, read, scan, print
    | Wr(id: nat, i: nat, seqno: int)     // add one, rewind, write
    | Signal(id: nat, i: nat)             // sem_signal
    | Close(id: nat)                      // sem_close: semop op_close
    | CloseLook(id: nat)                  // sem_close: GETVAL of the process counter
    | Remove(id: nat)                     // sem_rm
    | Unlock(id: nat)                     // sem_close: semop op_unlock
    | Leaving                             // sem_close has returned
    | Dumped                              // err_dump
  {
    predicate InCrit() { Rd? || Wr? || Signal? }
    predicate Open() { Wait? || InCrit() || Close? }
    predicate Holder() { Look? || Set0? || Set1? || EndCreate? || CloseLook? || Remove? || Unlock? }
    predicate Attached() { Open() || Holder() }

    /** What the library owes the kernel at this point, if the set still exists. */
    function Owed(): Members {
      Members(if InCrit() then 1 else 0, if Open() then 1 else 0, if Holder() then -1 else 0)
    }
  }

  /** A process: its place, its adjustments, and how many writes it has completed. */
  datatype Proc = Proc(pc: Pc, adj: Members, writes: nat)

  const NOBODY := Proc(Out, ZERO, 0)

  datatype Set = Live(id: nat, val: Members)

  /** One printed number, and whether its printer got as far as writing the successor. */
  datatype Print = Print(value: int, written: bool)

  datatype Sys = Sys(
    initval: nat,            // second argument of every sem_create
    live: Option<Set>,       // the set the key names now
    nextId: nat,             // ids are never reused
    procs: seq<Proc>,
    file: string,            // the sequence-number file
    start: string,           // and what it held at the start
    prints: seq<Print>,      // standard outputs, merged in time order
    wrote: nat,              // completed writes
    finished: nat,           // processes that ran to their own exit
    strays: nat)             // completed writes of processes that did not

  function Begin(n: nat, initval: nat, text: string): Sys {
    Sys(initval, None, 0, seq(n, _ => NOBODY), text, text, [], 0, 0, 0)
  }

  /** Same parameters, same number of slots. */
  predicate SameShape(s: Sys, r: Sys) {
    |r.procs| == |s.procs| && r.initval == s.initval && r.start == s.start
  }

  /** And nobody but p has moved (the kernel may have cleared adjustments of others). */
  predicate MovesOnly(s: Sys, r: Sys, p: nat) {
    && SameShape(s, r)
    && forall q :: 0 <= q < |s.procs| && q != p ==>
         r.procs[q].pc == s.procs[q].pc && r.procs[q].writes == s.procs[q].writes
  }

  /** The key still names the set it named before, if it named one. */
  predicate SameName(s: Sys, r: Sys) {
    s.live.Some? ==> r.live.Some? && r.live.value.id == s.live.value.id
  }

  /** A turn that is neither output nor a finish: writes only pass from a dead process to the strays. */
  predicate Quiet(s: Sys, r: Sys, p: nat)
    requires p < |s.procs|
  {
    && MovesOnly(s, r, p)
    && r.file == s.file && r.prints == s.prints && r.wrote == s.wrote && r.finished == s.finished
    && r.strays + r.procs[p].writes == s.strays + s.procs[p].writes
  }

  predicate Names(s: Sys, id: nat) { s.live.Some? && s.live.value.id == id }

  function Goto(s: Sys, p: nat, pc: Pc): (r: Sys)
    requires p < |s.procs|
    ensures Quiet(s, r, p) && SameName(s, r)
  {
    s.(procs := s.procs[p := s.procs[p].(pc := pc)])
  }

  /** Process exit: the kernel applies the adjustments and the slot is free again. */
  function Exit(s: Sys, p: nat): (r: Sys)
    requires p < |s.procs|
    ensures MovesOnly(s, r, p) && SameName(s, r)
  {
    s.(procs := s.procs[p := NOBODY],
       live := if s.live.None? then None
               else Some(Live(s.live.value.id, Undone(s.live.value.val, s.procs[p].adj))))
  }

  /** Death, by a signal or by err_sys. */
  function Die(s: Sys, p: nat): (r: Sys)
    requires p < |s.procs|
    ensures Quiet(s, r, p) && SameName(s, r)
  {
    if s.procs[p].pc.Out? then s
    else Exit(s, p).(strays := s.strays + s.procs[p].writes)
  }

  /** A semop on an id: when the set is gone, retry or err_sys; else sleep, or go on. */
  function Call(s: Sys, p: nat, id: nat, ops: seq<SemBuf>, gone: Option<Pc>, sleep: Pc, next: Pc): (r: Sys)
    requires p < |s.procs|
    ensures Quiet(s, r, p) && SameName(s, r)
  {
    if !Names(s, id) then if gone.Some? then Goto(s, p, gone.value) else Die(s, p)
    else match Semop(ops, s.live.value.val, s.procs[p].adj)
      case Blocked => Goto(s, p, sleep)
      case Done(v, a) =>
        s.(live := Some(Live(id, v)), procs := s.procs[p := s.procs[p].(pc := next, adj := a)])
  }

  /** SETVAL clears the member's adjustment in every process. */
  function Cleared(procs: seq<Proc>, k: Member): (r: seq<Proc>)
    ensures |r| == |procs|
  {
    seq(|procs|, i requires 0 <= i < |procs| => procs[i].(adj := procs[i].adj.Put(k, 0)))
  }

  function SetVal(s: Sys, p: nat, id: nat, k: Member, x: nat, next: Pc): (r: Sys)
    requires p < |s.procs|
    ensures Quiet(s, r, p) && SameName(s, r)
  {
    if !Names(s, id) then Die(s, p)
    else Goto(s.(live := Some(Live(id, s.live.value.val.Put(k, x))), procs := Cleared(s.procs, k)), p, next)
  }

  /** IPC_RMID deletes the set and every adjustment for it. */
  function Rmid(s: Sys, p: nat, id: nat): (r: Sys)
    requires p < |s.procs|
    ensures Quiet(s, r, p)
  {
    if !Names(s, id) then Die(s, p)
    else
      var procs := seq(|s.procs|, i requires 0 <= i < |s.procs| => s.procs[i].(adj := ZERO));
      Goto(s.(live := None, procs := procs), p, Leaving)
  }

  function MarkWritten(ps: seq<Print>): seq<Print> {
    if ps == [] then ps else ps[|ps| - 1 := ps[|ps| - 1].(written := true)]
  }

  /** The next call of process p. */
  function Run(s: Sys, p: nat): (r: Sys)
    requires p < |s.procs|
    ensures MovesOnly(s, r, p)
    ensures !s.procs[p].pc.Remove? ==> SameName(s, r)
    ensures var pc := s.procs[p].pc;
            !pc.Out? && !pc.Rd? && !pc.Wr? && !pc.Leaving? ==> Quiet(s, r, p)
    ensures !s.procs[p].pc.Rd? && !s.procs[p].pc.Wr? ==>
              r.file == s.file && r.prints == s.prints && r.wrote == s.wrote && !r.procs[p].pc.Wr?
  {
    var pr := s.procs[p];
    match pr.pc
    case Out => s.(procs := s.procs[p := pr.(pc := Get, writes := 0)])
    case Get =>
      if s.live.Some? then Goto(s, p, Lock(s.live.value.id, false))
      else Goto(s.(live := Some(Live(s.nextId, ZERO)), nextId := s.nextId + 1), p, Lock(s.nextId, false))
    case Lock(id, asleep) =>
      Call(s, p, id, OP_LOCK, if asleep then None else Some(Get), Lock(id, true), Look(id))
    case Look(id) =>
      if !Names(s, id) then Die(s, p)
      else Goto(s, p, if s.live.value.val.m1 == 0 then Set0(id) else EndCreate(id))
    case Set0(id) => SetVal(s, p, id, 0, s.initval, Set1(id))
    case Set1(id) => SetVal(s, p, id, 1, BIGCOUNT, EndCreate(id))
    case EndCreate(id) => Call(s, p, id, OP_ENDCREATE, None, pr.pc, Wait(id, 0))
    case OpenGet => if s.live.Some? then Goto(s, p, OpenOp(s.live.value.id)) else Die(s, p)
    case OpenOp(id) => Call(s, p, id, OP_OPEN, None, pr.pc, Wait(id, 0))
    case Wait(id, i) => Call(s, p, id, OpOp(-1), None, pr.pc, Rd(id, i))
    case Rd(id, i) =>
      (match ReadNumber(s.file)
       case None => Die(s, p)
       case Some(n) => Goto(s.(prints := s.prints + [Print(n, false)]), p, Wr(id, i, n)))
    case Wr(id, i, n) =>
      if n >= INT_MAX then Die(s, p)   // signed overflow: the program has no meaning past here
      else s.(file := Overwrite(s.file, Format(n + 1)), prints := MarkWritten(s.prints), wrote := s.wrote + 1,
              procs := s.procs[p := pr.(pc := Signal(id, i), writes := pr.writes + 1)])
    case Signal(id, i) =>
      Call(s, p, id, OpOp(1), None, pr.pc, if i + 1 < ROUNDS then Wait(id, i + 1) else Close(id))
    case Close(id) => Call(s, p, id, OP_CLOSE, None, pr.pc, CloseLook(id))
    case CloseLook(id) =>
      if !Names(s, id) then Die(s, p)
      else
        var m1 := s.live.value.val.m1;
        Goto(s, p, if m1 > BIGCOUNT then Dumped else if m1 == BIGCOUNT then Remove(id) else Unlock(id))
    case Remove(id) => Rmid(s, p, id)
    case Unlock(id) => Call(s, p, id, OP_UNLOCK, None, pr.pc, Leaving)
    case Leaving => Exit(s, p).(finished := s.finished + 1)
    case Dumped => Die(s, p)
  }

  /** One scheduling choice. */
  datatype Turn = Step(p: nat) | Kill(p: nat) | StartOpen(p: nat)

  function Take(s: Sys, t: Turn): (r: Sys)
    ensures MovesOnly(s, r, t.p)
  {
    if t.p >= |s.procs| then s
    else match t
      case Step(p) => Run(s, p)
      case Kill(p) => Die(s, p)
      case StartOpen(p) =>
        if s.procs[p].pc.Out? then s.(procs := s.procs[p := Proc(OpenGet, ZERO, 0)]) else s
  }

  function Exec(s: Sys, turns: seq<Turn>): (r: Sys)
    ensures SameShape(s, r)
  {
    if turns == [] then s else Take(Exec(s, turns[..|turns| - 1]), turns[|turns| - 1])
  }

  /** The callers all enter by sem_create, as the user program does. */
  predicate CreateOnly(turns: seq<Turn>) {
    forall k :: 0 <= k < |turns| ==> !turns[k].StartOpen?
  }
}
