/** Concrete runs of the semaphore library: one that ends well, and those that show where it falls short. */
module SemRuns {
  import opened Options
  import opened SemKernel
  import opened SeqFile
  import opened SemLibrary
  import opened SemLibraryProofs
  import opened SemLibraryClaims
  import opened SemOpeners
  import opened SemCounter
  import opened SemPrints
  import opened SemCalls
  import opened SemEnds

  // ----- schedules, one call after the other -----

  lemma ExecOne(s: Sys, turns: seq<Turn>, t: Turn)
    ensures Exec(s, turns + [t]) == Take(Exec(s, turns), t)
  {
    assert (turns + [t])[..|turns + [t]| - 1] == turns;
  }

  lemma One(n: nat, text: string, turns: seq<Turn>, p: nat)
    requires p < n
    ensures Reached(n, 1, text, turns + [Step(p)]) == Run(Reached(n, 1, text, turns), p)
    ensures CreateOnly(turns) ==> CreateOnly(turns + [Step(p)])
  {
    hide Run;
    ExecOne(Begin(n, 1, text), turns, Step(p));
  }

  /** Nobody but p has moved. */
  predicate Others(s: Sys, r: Sys, p: nat) {
    |r.procs| == |s.procs| && forall q :: 0 <= q < |s.procs| && q != p ==> r.procs[q].pc == s.procs[q].pc
  }

  /** One such call at the end of a schedule. */
  lemma Go(n: nat, text: string, turns: seq<Turn>, p: nat, pc: Pc, val: Members) returns (more: seq<Turn>)
    requires p < n < BIGCOUNT && At(Reached(n, 1, text, turns), p, pc, val) && Goes(pc, val)
    requires pc.Rd? ==> Readable(text) && CreateOnly(turns)
    ensures more == turns + [Step(p)] && (CreateOnly(turns) ==> CreateOnly(more))
    ensures var s, r := Reached(n, 1, text, turns), Reached(n, 1, text, more);
            var to := Onto(pc, val, 1, First(text) + s.wrote);
            && At(r, p, to.0, to.1)
            && Besides(s, r, pc)
            && Others(s, r, p)
  {
    hide Run, Exec, Inv, Onto, Goes, Besides, ReadNumber, Format;
    more := turns + [Step(p)];
    ExecInv(n, 1, text, turns);
    if pc.Rd? {
      NoLostUpdates(n, text, turns);
    }
    OneCall(Reached(n, 1, text, turns), p, pc, val, First(text) + Reached(n, 1, text, turns).wrote);
    One(n, text, turns, p);
  }

  /** The beginning: a process starts and gets the id, of a new set if the key names none. */
  lemma Starts(s: Sys, p: nat)
    requires p < |s.procs| && s.procs[p] == NOBODY
    ensures var r := Run(Run(s, p), p);
            && r.live.Some? && r.live.value.id == (if s.live.Some? then s.live.value.id else s.nextId)
            && At(r, p, Lock(r.live.value.id, false), if s.live.Some? then s.live.value.val else ZERO)
            && Besides(s, r, Get)
  {
  }

  /** Calls up to the read. */
  function Calls(pc: Pc): nat {
    match pc
    case Lock(_, _) => 6
    case Look(_) => 5
    case Set0(_) => 4
    case Set1(_) => 3
    case EndCreate(_) => 2
    case Wait(_, _) => 1
    case _ => 0
  }

  /** Where an undisturbed newcomer is on its way to its first read. */
  predicate OnTheWay(pc: Pc, val: Members, id: nat) {
    || (pc == Lock(id, false) && (val == ZERO || val == Members(1, BIGCOUNT, 0)))
    || (pc == Look(id) && (val == Members(0, 0, 1) || val == Members(1, BIGCOUNT, 1)))
    || (pc == Set0(id) && val == Members(0, 0, 1)) || (pc == Set1(id) && val == Members(1, 0, 1))
    || (pc == EndCreate(id) && val == Members(1, BIGCOUNT, 1))
    || (pc == Wait(id, 0) && val == Members(1, BIGCOUNT - 1, 0))
    || (pc == Rd(id, 0) && val == Members(0, BIGCOUNT - 1, 0))
  }

  lemma OneOnTheWay(pc: Pc, val: Members, id: nat, number: int)
    requires OnTheWay(pc, val, id) && !pc.Rd?
    ensures Goes(pc, val) && !pc.Wr?
    ensures var to := Onto(pc, val, 1, number); OnTheWay(to.0, to.1, id) && Calls(to.0) < Calls(pc)
  {
  }

  lemma BesidesNothing(s: Sys, r: Sys, q: Sys, pc: Pc)
    requires Besides(s, r, Get) && Besides(r, q, pc) && !pc.Rd? && !pc.Wr?
    ensures Besides(s, q, Get)
  {
  }

  /** An undisturbed newcomer comes to its first read. */
  lemma Enters(n: nat, text: string, turns: seq<Turn>, p: nat) returns (more: seq<Turn>, id: nat)
    requires p < n < BIGCOUNT && Reached(n, 1, text, turns).procs[p].pc.Out?
    requires var s := Reached(n, 1, text, turns);
             s.live.Some? ==> s.live.value.val == Members(1, BIGCOUNT, 0)
    ensures |more| >= |turns| && more[..|turns|] == turns && (CreateOnly(turns) ==> CreateOnly(more))
    ensures var s, r := Reached(n, 1, text, turns), Reached(n, 1, text, more);
            && At(r, p, Rd(id, 0), Members(0, BIGCOUNT - 1, 0))
            && Besides(s, r, Get)
            && Others(s, r, p)
            && id == if s.live.Some? then s.live.value.id else s.nextId
  {
    hide Run, Reached, Exec, Format;
    var s := Reached(n, 1, text, turns);
    OutIsNobody(n, 1, text, turns, p);
    Starts(s, p);
    One(n, text, turns, p);
    One(n, text, turns + [Step(p)], p);
    more := turns + [Step(p)] + [Step(p)];
    id := if s.live.Some? then s.live.value.id else s.nextId;
    var pc, val := Lock(id, false), if s.live.Some? then s.live.value.val else ZERO;
    hide At, Onto, Goes, Besides, OnTheWay, CreateOnly;
    while !pc.Rd?
      invariant |more| >= |turns| && more[..|turns|] == turns && (CreateOnly(turns) ==> CreateOnly(more))
      invariant var r := Reached(n, 1, text, more);
                At(r, p, pc, val) && Besides(s, r, Get) && Others(s, r, p)
      invariant OnTheWay(pc, val, id)
      decreases Calls(pc)
    {
      var r := Reached(n, 1, text, more);
      OneOnTheWay(pc, val, id, First(text) + r.wrote);
      var to := Onto(pc, val, 1, First(text) + r.wrote);
      more := Go(n, text, more, p, pc, val);
      BesidesNothing(s, r, Reached(n, 1, text, more), pc);
      pc, val := to.0, to.1;
    }
    Arrived(pc, val, id);
  }

  lemma Arrived(pc: Pc, val: Members, id: nat)
    requires OnTheWay(pc, val, id) && pc.Rd?
    ensures pc == Rd(id, 0) && val == Members(0, BIGCOUNT - 1, 0)
  {
  }

  /** Where an undisturbed process is after i writes, on its way to the removal of its set. */
  predicate InTheRounds(pc: Pc, val: Members, id: nat, i: nat, first: int) {
    match pc
    case Rd(k, j) => k == id && j == i < ROUNDS && val == Members(0, BIGCOUNT - 1, 0)
    case Wr(k, j, n) => k == id && j == i < ROUNDS && n == first + i && val == Members(0, BIGCOUNT - 1, 0)
    case Signal(k, j) => k == id && j + 1 == i <= ROUNDS && val == Members(0, BIGCOUNT - 1, 0)
    case Wait(k, j) => k == id && j == i < ROUNDS && val == Members(1, BIGCOUNT - 1, 0)
    case Close(k) => k == id && i == ROUNDS && val == Members(1, BIGCOUNT - 1, 0)
    case CloseLook(k) => k == id && i == ROUNDS && val == Members(1, BIGCOUNT, 1)
    case Remove(k) => k == id && i == ROUNDS && val == Members(1, BIGCOUNT, 1)
    case _ => false
  }

  lemma OneInTheRounds(pc: Pc, val: Members, id: nat, i: nat, first: int) returns (to: (Pc, Members), k: nat)
    requires InTheRounds(pc, val, id, i, first) && !pc.Remove? && first + ROUNDS <= INT_MAX
    ensures Goes(pc, val) && to == Onto(pc, val, 1, first + i) && k == i + if pc.Wr? then 1 else 0
    ensures InTheRounds(to.0, to.1, id, k, first) && k <= ROUNDS
    ensures k > i || Stage(to.0) < Stage(pc)
    ensures to.0.Wr? == pc.Rd?
  {
    to, k := Onto(pc, val, 1, first + i), i + if pc.Wr? then 1 else 0;
  }

  /** The first process has done its rounds, and the file shows it. */
  predicate Counted(s: Sys, text: string) {
    s.wrote == ROUNDS && ReadNumber(s.file) == Some(First(text) + ROUNDS)
  }

  /** The rounds, up to the moment between the GETVAL of sem_close and its IPC_RMID. */
  lemma ToRemoval(text: string) returns (turns: seq<Turn>, id: nat)
    requires Readable(text) && First(text) + ROUNDS <= INT_MAX
    ensures CreateOnly(turns)
    ensures var s := Reached(2, 1, text, turns);
            && At(s, 0, Remove(id), Members(1, BIGCOUNT, 1))
            && s.procs[1].pc.Out?
            && s.finished == 0 && s.strays == 0 && Counted(s, text)
  {
    hide Run, Reached, Exec, Format;
    AtStart(text);
    turns, id := Enters(2, text, [], 0);
    var i, pc, val := 0, Rd(id, 0), Members(0, BIGCOUNT - 1, 0);
    hide At, Onto, Goes, InTheRounds, CreateOnly, Stage;
    while !pc.Remove?
      invariant i <= ROUNDS && CreateOnly(turns)
      invariant var s := Reached(2, 1, text, turns);
                && At(s, 0, pc, val) && s.procs[1].pc.Out? && s.finished == 0 && s.strays == 0
                && s.wrote == i && |s.prints| == i + if pc.Wr? then 1 else 0
      invariant InTheRounds(pc, val, id, i, First(text))
      decreases ROUNDS - i, Stage(pc)
    {
      var to, k := OneInTheRounds(pc, val, id, i, First(text));
      turns := Go(2, text, turns, 0, pc, val);
      i, pc, val := k, to.0, to.1;
    }
    AtRemoval(pc, val, id, i, First(text));
    NoLostUpdates(2, text, turns);
  }

  lemma AtRemoval(pc: Pc, val: Members, id: nat, i: nat, first: int)
    requires InTheRounds(pc, val, id, i, first) && pc.Remove?
    ensures pc == Remove(id) && val == Members(1, BIGCOUNT, 1) && i == ROUNDS
  {
  }

  /** How far a pass, or the closing, has to go to the next write or the removal. */
  function Stage(pc: Pc): nat {
    match pc
    case Signal(_, _) => 4
    case Wait(_, _) => 3
    case Close(_) => 3
    case Rd(_, _) => 2
    case CloseLook(_) => 2
    case _ => 1
  }

  lemma AtStart(text: string)
    ensures var s := Reached(2, 1, text, []);
            && s.prints == [] && s.live.None? && s.procs[0].pc.Out? && s.procs[1].pc.Out?
            && s.finished == 0 && s.strays == 0 && s.wrote == 0
  {
  }

  lemma LastTurns(s: Sys, id: nat)
    requires |s.procs| == 2 && At(s, 0, Remove(id), Members(1, BIGCOUNT, 1))
    ensures var r := Run(Run(s, 0), 0);
            && r.live.None? && r.procs[0] == NOBODY && r.procs[1].pc == s.procs[1].pc
            && r.finished == s.finished + 1 && r.strays == s.strays && r.wrote == s.wrote
  {
    hide Format, ReadNumber, Overwrite, Semop;
  }

  /** A process left to itself does its rounds, removes the set and leaves: the claims are not empty. */
  lemma SoloRun(text: string) returns (turns: seq<Turn>, s: Sys)
    requires Readable(text) && First(text) + ROUNDS <= INT_MAX
    ensures CreateOnly(turns) && s == Reached(2, 1, text, turns)
    ensures s.live.None? && s.procs == [NOBODY, NOBODY] && s.finished == 1 && s.strays == 0
    ensures ReadNumber(s.file) == Some(First(text) + 20)
  {
    hide Run, Exec, Format, ReadNumber;
    var before, id := ToRemoval(text);
    LastTurns(Reached(2, 1, text, before), id);
    One(2, text, before, 0);
    One(2, text, before + [Step(0)], 0);
    turns := before + [Step(0)] + [Step(0)];
    s := Reached(2, 1, text, turns);
    OutIsNobody(2, 1, text, turns, 1);
    FinishedProcessesAddUp(2, text, turns, s);
  }

  // ----- a removal while another sem_create is under way -----

  lemma GetsTheId(s: Sys, id: nat)
    requires |s.procs| == 2 && At(s, 0, Remove(id), Members(1, BIGCOUNT, 1)) && s.procs[1].pc.Out?
    ensures var r := Run(Run(s, 1), 1);
            && At(r, 0, Remove(id), Members(1, BIGCOUNT, 1)) && r.procs[1].pc == Lock(id, false)
            && Run(r, 1).procs[1].pc == Lock(id, true) && At(Run(r, 1), 0, Remove(id), Members(1, BIGCOUNT, 1))
  {
    hide Format, ReadNumber, Overwrite;
    OpLock(Members(1, BIGCOUNT, 1), ZERO);
    OpLock(Members(1, BIGCOUNT, 1), Run(Run(s, 1), 1).procs[1].adj);
  }

  lemma RemovesUnder(s: Sys, id: nat)
    requires |s.procs| == 2 && At(s, 0, Remove(id), Members(1, BIGCOUNT, 1))
    ensures Run(s, 0).live.None? && Run(s, 0).procs[1].pc == s.procs[1].pc
  {
  }

  /** With the id only: the process that comes too late starts again, and has a set of its own open. */
  lemma LatecomerStartsAgain(text: string) returns (turns: seq<Turn>, more: seq<Turn>)
    requires Readable(text) && First(text) + ROUNDS <= INT_MAX
    ensures CreateOnly(turns) && Reached(2, 1, text, turns).live.None?
    ensures Reached(2, 1, text, turns).procs[1].pc.Lock?
    ensures var s, r := Reached(2, 1, text, turns), Reached(2, 1, text, turns + more);
            r.procs[1].pc.Wait? && Names(r, r.procs[1].pc.id) && r.procs[1].pc.id != s.procs[1].pc.id
  {
    hide Run, Exec, Reached, Format, ReadNumber, CreateOnly;
    var before, id := ToRemoval(text);
    GetsTheId(Reached(2, 1, text, before), id);
    One(2, text, before, 1);
    One(2, text, before + [Step(1)], 1);
    RemovesUnder(Reached(2, 1, text, before + [Step(1)] + [Step(1)]), id);
    One(2, text, before + [Step(1)] + [Step(1)], 0);
    turns := before + [Step(1)] + [Step(1)] + [Step(0)];
    var k := RetryGetsIn(2, 1, text, turns, 1);
    more := Steps(1, k);
  }

  /** Asleep on it already: the same removal is the end of it. */
  lemma SleeperDies(text: string) returns (turns: seq<Turn>)
    requires Readable(text) && First(text) + ROUNDS <= INT_MAX
    ensures CreateOnly(turns)
    ensures var s := Reached(2, 1, text, turns);
            s.live.None? && s.procs[1].pc.Lock? && s.procs[1].pc.asleep && Take(s, Step(1)).procs[1].pc.Out?
  {
    hide Run, Exec, Reached, Format, ReadNumber, CreateOnly, Take;
    var before, id := ToRemoval(text);
    GetsTheId(Reached(2, 1, text, before), id);
    One(2, text, before, 1);
    One(2, text, before + [Step(1)], 1);
    One(2, text, before + [Step(1)] + [Step(1)], 1);
    RemovesUnder(Reached(2, 1, text, before + [Step(1)] + [Step(1)] + [Step(1)]), id);
    One(2, text, before + [Step(1)] + [Step(1)] + [Step(1)], 0);
    turns := before + [Step(1)] + [Step(1)] + [Step(1)] + [Step(0)];
    EndsExactly(2, 1, text, turns, 1);
  }

  // ----- what sem_open breaks -----

  /** An opener arrives, and opens before the removal. */
  lemma OpensInBetween(s: Sys, id: nat)
    requires |s.procs| == 2 && At(s, 0, Remove(id), Members(1, BIGCOUNT, 1)) && s.procs[1] == NOBODY
    ensures var r := Run(Run(Take(s, StartOpen(1)), 1), 1);
            && r.live == Some(Live(id, Members(1, BIGCOUNT - 1, 1))) && r.procs[0].pc == Remove(id)
            && r.procs[1] == Proc(Wait(id, 0), Members(0, 1, 0), 0) && r.file == s.file && r.wrote == s.wrote
  {
    OpOne(1, -1, Members(1, BIGCOUNT, 1), ZERO);
  }

  lemma Opener(text: string) returns (turns: seq<Turn>, id: nat)
    requires Readable(text) && First(text) + ROUNDS <= INT_MAX
    ensures var s := Reached(2, 1, text, turns);
            && s.live == Some(Live(id, Members(1, BIGCOUNT - 1, 1))) && s.procs[0].pc == Remove(id)
            && s.procs[1] == Proc(Wait(id, 0), Members(0, 1, 0), 0) && Counted(s, text)
  {
    hide Run, Exec, Format, ReadNumber;
    var before;
    before, id := ToRemoval(text);
    OutIsNobody(2, 1, text, before, 1);
    OpensInBetween(Reached(2, 1, text, before), id);
    ExecOne(Begin(2, 1, text), before, StartOpen(1));
    One(2, text, before + [StartOpen(1)], 1);
    One(2, text, before + [StartOpen(1)] + [Step(1)], 1);
    turns := before + [StartOpen(1)] + [Step(1)] + [Step(1)];
  }

  /**
   sem_open takes no lock: an opener that comes in between sem_close's GETVAL and its IPC_RMID holds a
   set that is then removed under it, and its first sem_wait ends in err_sys.
   */
  lemma OpenerLosesItsSet(text: string) returns (turns: seq<Turn>, s: Sys)
    requires Readable(text) && First(text) + ROUNDS <= INT_MAX
    ensures s == Reached(2, 1, text, turns)
    ensures s.live.None? && s.procs[1].pc.Wait?
    ensures Take(s, Step(1)).procs[1] == NOBODY
  {
    hide Exec, Format, ReadNumber;
    var before, id := Opener(text);
    One(2, text, before, 0);
    turns := before + [Step(0)];
    s := Reached(2, 1, text, turns);
  }

  lemma InsideRemovedSet(s: Sys, id: nat)
    requires |s.procs| == 2 && s.live == Some(Live(id, Members(1, BIGCOUNT - 1, 1))) && s.procs[0].pc == Remove(id)
    requires s.procs[1] == Proc(Wait(id, 0), Members(0, 1, 0), 0)
    ensures var r := Run(Run(Run(s, 1), 0), 0);
            && r.live.None? && r.procs[0].pc.Out? && r.procs[1].pc == Rd(id, 0)
            && r.file == s.file && r.wrote == s.wrote
  {
    OpOne(0, -1, Members(1, BIGCOUNT - 1, 1), Members(0, 1, 0));
  }

  /**
   And when it is past its sem_wait at the removal, a newcomer creates a set of its own: two processes
   between sem_wait and sem_signal, on two ids.
   */
  lemma TwoInside(text: string) returns (turns: seq<Turn>)
    requires Readable(text) && First(text) + ROUNDS <= INT_MAX
    ensures var s := Reached(2, 1, text, turns);
            && s.procs[0].pc.Rd? && s.procs[1].pc.Rd?
            && Names(s, s.procs[0].pc.id) && !Names(s, s.procs[1].pc.id)
            && Counted(s, text)
  {
    hide Run, Exec, Format, ReadNumber;
    var before, id := Opener(text);
    InsideRemovedSet(Reached(2, 1, text, before), id);
    One(2, text, before, 1);
    One(2, text, before + [Step(1)], 0);
    One(2, text, before + [Step(1)] + [Step(0)], 0);
    var alone := before + [Step(1)] + [Step(0)] + [Step(0)];
    ExecInv(2, 1, text, alone);
    assert ProcOk(Reached(2, 1, text, alone), 1);
    var newId;
    turns, newId := Enters(2, text, alone, 0);
  }

  /** A creator gets the id and is killed before it locks; an opener finds the id in between. */
  lemma OpensBeforeSetUp(s: Sys)
    requires |s.procs| == 2 && s.procs[0] == NOBODY && s.procs[1].pc.Out? && s.live.None?
    ensures var r := Die(Run(Take(Run(Run(s, 0), 0), StartOpen(1)), 1), 0);
            r.procs[0].pc.Out? && r.procs[1].pc == OpenOp(s.nextId) && Names(r, s.nextId) && !Initialised(r)
  {
    hide Format, ReadNumber, Overwrite, Semop;
  }

  /** Then the opener sleeps in its semop on a counter of 0, and nobody is left to wake it. */
  lemma OpenerSleepsAlone(text: string) returns (turns: seq<Turn>)
    ensures Deadlocked(Reached(2, 1, text, turns))
  {
    hide Run, Exec, Format, ReadNumber, Deadlocked;
    var s := Reached(2, 1, text, []);
    AtStart(text);
    OutIsNobody(2, 1, text, [], 0);
    OpensBeforeSetUp(s);
    One(2, text, [], 0);
    One(2, text, [] + [Step(0)], 0);
    ExecOne(Begin(2, 1, text), [] + [Step(0)] + [Step(0)], StartOpen(1));
    One(2, text, [] + [Step(0)] + [Step(0)] + [StartOpen(1)], 1);
    ExecOne(Begin(2, 1, text), [] + [Step(0)] + [Step(0)] + [StartOpen(1)] + [Step(1)], Kill(0));
    turns := [] + [Step(0)] + [Step(0)] + [StartOpen(1)] + [Step(1)] + [Kill(0)];
    assert !Reached(2, 1, text, turns).procs[1].pc.Out?;
    DeadlockExactly(2, 1, text, turns);
  }

  lemma BothWrite(s: Sys, m: int)
    requires |s.procs| == 2 && s.procs[0].pc.Rd? && s.procs[1].pc.Rd?
    requires ReadNumber(s.file) == Some(m) && INT_MIN <= m < INT_MAX
    ensures var r := Run(Run(Run(Run(s, 0), 1), 0), 1);
            r.wrote == s.wrote + 2 && ReadNumber(r.file) == Some(m + 1)
  {
    hide Run, Format, ReadNumber, Overwrite;
    var s1 := Run(s, 0);
    RdEffect(s, 0, m);
    var s2 := Run(s1, 1);
    RdEffect(s1, 1, m);
    var s3 := Run(s2, 0);
    WrEffect(s2, 0);
    WrEffect(s3, 1);
    OverwriteReads(s3.file, m + 1);
  }

  /** They read the same number, and one of their two additions is lost. */
  lemma LostUpdate(text: string) returns (turns: seq<Turn>)
    requires Readable(text) && First(text) + ROUNDS < INT_MAX
    ensures var s := Reached(2, 1, text, turns);
            s.wrote == ROUNDS + 2 && ReadNumber(s.file) == Some(First(text) + ROUNDS + 1)
  {
    hide Run, Exec, Reached, Format, ReadNumber;
    var before := TwoInside(text);
    BothWrite(Reached(2, 1, text, before), First(text) + ROUNDS);
    One(2, text, before, 0);
    One(2, text, before + [Step(0)], 1);
    One(2, text, before + [Step(0)] + [Step(1)], 0);
    One(2, text, before + [Step(0)] + [Step(1)] + [Step(0)], 1);
    turns := before + [Step(0)] + [Step(1)] + [Step(0)] + [Step(1)];
  }

  /** The remover starts again, and meets in the critical section the one it took the set from. */
  lemma HitInsideBreaksExclusion(n: nat, text: string, turns: seq<Turn>, t: Turn)
    returns (more: seq<Turn>, q: nat)
    requires n < BIGCOUNT && HitsInside(Reached(n, 1, text, turns), t)
    ensures |more| > |turns| && more[..|turns| + 1] == turns + [t]
    ensures q < n && q != t.p
    ensures var s := Reached(n, 1, text, more); s.procs[t.p].pc.InCrit() && s.procs[q].pc.InCrit()
  {
    hide Run, Exec, Reached, Take, Inv, HitsInside;
    var s, p := Reached(n, 1, text, turns), t.p;
    assert p < n by { RemoverIs(s, t); }
    ReachedInv(n, 1, text, turns);
    q := HitTakesFrom(s, t);
    ReachedOne(n, text, turns, t);
    One(n, text, turns + [t], p);
    RemoverLeaves(Take(s, t), p);
    var again := turns + [t] + [Step(p)];
    var id;
    more, id := Enters(n, text, again, p);
    assert more[..|turns| + 1] == more[..|again|][..|turns| + 1] == turns + [t];
    assert Reached(n, 1, text, again).procs[q].pc == s.procs[q].pc;
  }

  lemma RemoverIs(s: Sys, t: Turn)
    requires HitsInside(s, t)
    ensures t.p < |s.procs|
  {
  }

  lemma ReachedInv(n: nat, initval: nat, text: string, turns: seq<Turn>)
    requires n < BIGCOUNT
    ensures Inv(Reached(n, initval, text, turns))
  {
    ExecInv(n, initval, text, turns);
  }

  lemma ReachedOne(n: nat, text: string, turns: seq<Turn>, t: Turn)
    ensures Reached(n, 1, text, turns + [t]) == Take(Reached(n, 1, text, turns), t)
  {
    ExecOne(Begin(n, 1, text), turns, t);
  }

  lemma RemoverLeaves(s: Sys, p: nat)
    requires p < |s.procs| && s.procs[p].pc.Leaving? && s.live.None?
    ensures Run(s, p).procs[p].pc.Out? && Run(s, p).live.None? && Others(s, Run(s, p), p)
  {
  }

  // ----- a number printed twice -----

  lemma {:induction false} StoppedStays(n: nat, text: string, turns: seq<Turn>, m: nat, k: nat)
    requires m <= |turns| && StoppedAt(n, text, turns[..m], k)
    ensures StoppedAt(n, text, turns, k)
  {
    hide Reached;
    if m == |turns| {
      assert turns[..m] == turns;
    } else {
      assert turns[..|turns| - 1][..m] == turns[..m];
      StoppedStays(n, text, turns[..|turns| - 1], m, k);
    }
  }

  lemma KillWriter(s: Sys, id: nat, n: int)
    requires |s.procs| == 2 && Inv(s) && At(s, 0, Wr(id, 0, n), Members(0, BIGCOUNT - 1, 0))
    ensures var r := Take(s, Kill(0));
            && r.live == Some(Live(id, Members(1, BIGCOUNT, 0))) && r.prints == s.prints && |r.procs| == 2
            && r.procs[1].pc == s.procs[1].pc && StopsWriter(s, Kill(0))
  {
    hide SetOk, MovesOn, Trades;
    assert ProcOk(s, 0);
    ExitFair(s, 0);
  }

  /** A process prints and is killed before it writes; the next one prints the same number. */
  lemma PrintedTwice(text: string) returns (turns: seq<Turn>)
    requires Readable(text)
    ensures CreateOnly(turns)
    ensures var s := Reached(2, 1, text, turns);
            && |s.prints| == 2
            && s.prints[0].value == s.prints[1].value == First(text)
            && s.procs[1].pc.Wr?
    ensures StoppedAt(2, text, turns, 0)
  {
    hide Run, Exec, Take, Format, ReadNumber, FileOk;
    AtStart(text);
    var entered, id := Enters(2, text, [], 0);
    var printed := Go(2, text, entered, 0, Rd(id, 0), Members(0, BIGCOUNT - 1, 0));
    var s := Reached(2, 1, text, printed);
    ExecInv(2, 1, text, printed);
    KillWriter(s, id, First(text) + Reached(2, 1, text, entered).wrote);
    var killed := printed + [Kill(0)];
    ExecOne(Begin(2, 1, text), printed, Kill(0));
    assert killed[..|killed| - 1] == printed;
    assert StoppedAt(2, text, killed, 0);
    var second, id2 := Enters(2, text, killed, 1);
    turns := Go(2, text, second, 1, Rd(id2, 0), Members(0, BIGCOUNT - 1, 0));
    assert turns[..|killed|] == killed;
    StoppedStays(2, text, turns, |killed|, 0);
    RepeatsExactlyWhenStopped(2, text, turns, 0);
    PrintsConsecutive(2, text, turns, 0);
  }
}
