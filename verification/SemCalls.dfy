/**
 The calls of the semaphore library in place, each undisturbed by other processes: what a whole call does
 to the set the key names, and that the steps of SemLibrary add up to it.
 */
module SemCalls {
  import opened Options
  import opened SemKernel
  import opened SeqFile
  import opened SemLibrary
  import opened SemLibraryProofs

  /** How a call ends: it returns, it sleeps in a semop, or it stops the process. */
  datatype Answer = Returned | Asleep | ErrSys | Dump

  // ----- what whole calls mean -----

  /** sem_create on an unlocked set: set up if nobody was there before, then one more user. */
  function Created(v: Members, initval: nat): Members {
    if v.m1 == 0 then Members(initval, BIGCOUNT - 1, v.m2) else v.(m1 := v.m1 - 1)
  }

  /** Setting up clears the adjustments of everybody; the caller owes one on the counter. */
  function CreatedAdj(v: Members, adj: seq<Members>, p: nat): (r: seq<Members>)
    requires p < |adj|
    ensures |r| == |adj|
  {
    var base := if v.m1 == 0 then seq(|adj|, q requires 0 <= q < |adj| => Members(0, 0, adj[q].m2)) else adj;
    base[p := base[p].(m1 := base[p].m1 + 1)]
  }

  /** What the key names, changed in place. */
  class Library {
    const slots: nat          // processes
    var kern: SemSet?         // null: the key names nothing
    var opOp: SemBuf          // the array of sem_op, its amount overwritten by each call

    ghost predicate Valid()
      reads this, kern
    {
      kern != null ==> |kern.adj| == slots && kern.val.NonNegative()
    }

    ghost function Val(): Members
      reads this, kern
    {
      if kern == null then ZERO else kern.val
    }

    ghost function Adj(): seq<Members>
      reads this, kern
    {
      if kern == null then seq(slots, _ => ZERO) else kern.adj
    }

    constructor (slots: nat)
      ensures Valid() && kern == null && this.slots == slots
    {
      this.slots := slots;
      kern := null;
      opOp := SemBuf(0, 99, true);
    }

    method Create(p: nat, initval: nat) returns (r: Answer)
      requires Valid() && p < slots
      modifies this`kern, kern
      ensures Valid() && kern != null
      ensures old(kern) != null ==> kern == old(kern)
      ensures old(kern) == null ==> fresh(kern)
      ensures r == if old(Val()).m2 == 0 then Returned else Asleep
      ensures r == Asleep ==> Val() == old(Val()) && Adj() == old(Adj())
      ensures r == Returned ==> Val() == Created(old(Val()), initval)
      ensures r == Returned ==> Adj() == CreatedAdj(old(Val()), old(Adj()), p)
    {
      hide Total, AllUndo, Semop;
      if kern == null {
        kern := new SemSet(slots);
        assert kern.adj == old(Adj());
      }
      ghost var v, a := kern.val, kern.adj;
      OpLock(v, a[p]);
      var locked := kern.Op(p, OP_LOCK);
      if !locked {
        return Asleep;
      }
      if kern.val.m1 == 0 {
        kern.SetVal(0, initval);
        kern.SetVal(1, BIGCOUNT);
      }
      OpEndCreate(kern.val, kern.adj[p]);
      var done := kern.Op(p, OP_ENDCREATE);
      assert done;
      assert kern.adj == CreatedAdj(v, a, p);
      return Returned;
    }

    /** sem_op: the amount is stored in the array first. */
    method SemOp(p: nat, value: int) returns (r: Answer)
      requires Valid() && p < slots
      modifies this`opOp, kern
      ensures Valid() && kern == old(kern)
      ensures r == if value == 0 || kern == null then ErrSys
                   else if old(Val()).m0 + value < 0 then Asleep else Returned
      ensures r != Returned ==> Val() == old(Val()) && Adj() == old(Adj())
      ensures r == Returned ==> Val() == old(Val()).(m0 := old(Val()).m0 + value)
      ensures r == Returned ==> Adj() == old(Adj())[p := old(Adj())[p].(m0 := old(Adj())[p].m0 - value)]
    {
      opOp := opOp.(op := value, num := 0, undo := true);
      if opOp.op == 0 || kern == null {
        return ErrSys;
      }
      OpOne(0, value, kern.val, kern.adj[p]);
      var done := kern.Op(p, [opOp]);
      return if done then Returned else Asleep;
    }

    method Close(p: nat) returns (r: Answer)
      requires Valid() && p < slots
      modifies this`kern, kern
      ensures Valid()
      ensures var v := old(Val());
              r == if old(kern) == null then ErrSys
                   else if v.m2 != 0 then Asleep
                   else if v.m1 + 1 > BIGCOUNT then Dump else Returned
      ensures r == Asleep ==> kern == old(kern) && Val() == old(Val()) && Adj() == old(Adj())
      ensures r == Dump ==>
                && kern == old(kern) && Val() == Members(old(Val()).m0, old(Val()).m1 + 1, 1)
                && Adj() == old(Adj())[p := Members(old(Adj())[p].m0, old(Adj())[p].m1 - 1, old(Adj())[p].m2 - 1)]
      ensures r == Returned && old(Val()).m1 + 1 == BIGCOUNT ==> kern == null
      ensures r == Returned && old(Val()).m1 + 1 != BIGCOUNT ==>
                && kern == old(kern) && Val() == old(Val()).(m1 := old(Val()).m1 + 1)
                && Adj() == old(Adj())[p := old(Adj())[p].(m1 := old(Adj())[p].m1 - 1)]
    {
      if kern == null {
        return ErrSys;
      }
      ghost var v, a := kern.val, kern.adj;
      OpClose(v, a[p]);
      var locked := kern.Op(p, OP_CLOSE);
      if !locked {
        return Asleep;
      }
      if kern.val.m1 > BIGCOUNT {
        return Dump;
      } else if kern.val.m1 == BIGCOUNT {
        kern := null;
      } else {
        OpOne(2, -1, kern.val, kern.adj[p]);
        var done := kern.Op(p, OP_UNLOCK);
        assert done;
      }
      return Returned;
    }

    /**
     One user's visit, undisturbed: it leaves values and adjustments as they were, or removes the set when
     nobody else has it open.
     */
    method Visit(p: nat, initval: nat) returns (r: Answer)
      requires Valid() && p < slots && Val().m2 == 0 && Val().m1 <= BIGCOUNT
      requires if Val().m1 == 0 then initval >= 1 else Val().m0 >= 1
      modifies this, kern
      ensures Valid() && r == Returned
      ensures old(Val()).m1 == 0 || old(Val()).m1 == BIGCOUNT ==> kern == null
      ensures 0 < old(Val()).m1 < BIGCOUNT ==>
                kern == old(kern) && Val() == old(Val()) && Adj() == old(Adj())
    {
      ghost var a := Adj();
      r := Create(p, initval);
      r := SemOp(p, -1);
      r := SemOp(p, 1);
      r := Close(p);
      assert 0 < old(Val()).m1 < BIGCOUNT ==> Adj() == a;
    }

    /** Death: whatever the process still owes is given back. */
    method Die(p: nat)
      requires Valid() && p < slots
      modifies kern
      ensures Valid() && Adj() == old(Adj())[p := ZERO]
      ensures Val() == Undone(old(Val()), old(Adj())[p])
    {
      if kern != null {
        kern.Exit(p);
      } else {
        assert Adj() == old(Adj())[p := ZERO];
      }
    }

    /**
     A visit cut short by death inside the critical section: a set that was in use is exactly as before, the
     lock is free, and a set that was new is open nowhere and ready for use.
     */
    method VisitCutShort(p: nat, initval: nat)
      requires Valid() && p < slots && Val().m2 == 0 && Adj()[p] == ZERO
      requires if Val().m1 == 0 then initval >= 1 else Val().m0 >= 1
      modifies this, kern
      ensures Valid() && kern != null
      ensures old(Val()).m1 != 0 ==> Val() == old(Val()) && Adj() == old(Adj())
      ensures old(Val()).m1 == 0 ==> Val() == Members(initval, BIGCOUNT, 0) && Adj()[p] == ZERO
    {
      ghost var a := Adj();
      var r := Create(p, initval);
      r := SemOp(p, -1);
      Die(p);
      assert old(Val()).m1 != 0 ==> Adj() == a;
    }
  }

  // ----- a process of the machine that nobody disturbs -----

  /** Process p is here, on the set the key names, and these are the set's values. */
  predicate At(s: Sys, p: nat, pc: Pc, val: Members) {
    && p < |s.procs|
    && s.procs[p].pc == pc
    && s.live.Some?
    && s.live.value.val == val
    && (pc.Lock? || pc.Attached() ==> Names(s, pc.id))
  }

  /** The next call is one of sem_create behind its semget, of the loop, or of sem_close, and does not sleep. */
  predicate Goes(pc: Pc, val: Members) {
    match pc
    case Lock(_, _) => val.m2 == 0
    case Look(_) => true
    case Set0(_) => true
    case Set1(_) => true
    case EndCreate(_) => val.m1 >= 1 && val.m2 >= 1
    case Wait(_, _) => val.m0 >= 1
    case Rd(_, _) => true
    case Wr(_, _, n) => n < INT_MAX
    case Signal(_, _) => true
    case Close(_) => val.m2 == 0
    case CloseLook(_) => val.m1 <= BIGCOUNT
    case Unlock(_) => val.m2 >= 1
    case _ => false
  }

  /** Where that call leads; number is what the file says. */
  function Onto(pc: Pc, val: Members, initval: nat, number: int): (Pc, Members)
    requires Goes(pc, val)
  {
    match pc
    case Lock(id, _) => (Look(id), val.(m2 := 1))
    case Look(id) => (if val.m1 == 0 then Set0(id) else EndCreate(id), val)
    case Set0(id) => (Set1(id), val.(m0 := initval))
    case Set1(id) => (EndCreate(id), val.(m1 := BIGCOUNT))
    case EndCreate(id) => (Wait(id, 0), Members(val.m0, val.m1 - 1, val.m2 - 1))
    case Wait(id, i) => (Rd(id, i), val.(m0 := val.m0 - 1))
    case Rd(id, i) => (Wr(id, i, number), val)
    case Wr(id, i, _) => (Signal(id, i), val)
    case Signal(id, i) => (if i + 1 < ROUNDS then Wait(id, i + 1) else Close(id), val.(m0 := val.m0 + 1))
    case Close(id) => (CloseLook(id), Members(val.m0, val.m1 + 1, 1))
    case CloseLook(id) => (if val.m1 == BIGCOUNT then Remove(id) else Unlock(id), val)
    case Unlock(_) => (Leaving, val.(m2 := val.m2 - 1))
  }

  /** What else such a call changes: a print, a write, nothing; and the key names the same set. */
  predicate Besides(s: Sys, r: Sys, pc: Pc) {
    && SameName(s, r)
    && r.finished == s.finished
    && r.strays == s.strays
    && r.wrote == s.wrote + (if pc.Wr? then 1 else 0)
    && (!pc.Wr? ==> r.file == s.file)
    && |r.prints| == |s.prints| + if pc.Rd? then 1 else 0
  }

  lemma NoneBelow(s: Sys)
    requires Inv(s) && s.live.Some?
    ensures s.live.value.val.NonNegative()
  {
  }

  /** One such call of the machine. */
  lemma OneCall(s: Sys, p: nat, pc: Pc, val: Members, number: int)
    requires Inv(s) && At(s, p, pc, val) && Goes(pc, val)
    requires pc.Rd? ==> ReadNumber(s.file) == Some(number)
    ensures var r, to := Run(s, p), Onto(pc, val, s.initval, number);
            At(r, p, to.0, to.1) && Besides(s, r, pc)
  {
    hide Semop, Format, ReadNumber, Overwrite, ProcOk, SetOk;
    var a := s.procs[p].adj;
    match pc
    case Lock(_, _) => OpLock(val, a);
    case EndCreate(_) => OpEndCreate(val, a);
    case Wait(_, _) => OpOne(0, -1, val, a);
    case Signal(_, _) =>
      OpOne(0, 1, val, a);
      NoneBelow(s);
    case Close(_) =>
      NoneBelow(s);
      OpClose(val, a);
    case Unlock(_) => OpOne(2, -1, val, a);
    case _ =>
  }

  /** The adjustments of all processes. */
  function Adjs(procs: seq<Proc>): (r: seq<Members>)
    ensures |r| == |procs| && forall q :: 0 <= q < |procs| ==> r[q] == procs[q].adj
  {
    seq(|procs|, q requires 0 <= q < |procs| => procs[q].adj)
  }

  // ----- its turns add up to the calls -----

  /** k turns in a row for process p. */
  function Turns(s: Sys, p: nat, k: nat): (r: Sys)
    requires p < |s.procs|
    ensures MovesOnly(s, r, p)
  {
    if k == 0 then s else Run(Turns(s, p, k - 1), p)
  }

  lemma TurnsNext(s: Sys, p: nat, k: nat)
    requires Inv(s) && p < |s.procs| && (k > 0 ==> Inv(Turns(s, p, k)))
    ensures Turns(s, p, 0) == s && Turns(s, p, k + 1) == Run(Turns(s, p, k), p) && Inv(Turns(s, p, k + 1))
  {
    TakeInv(Turns(s, p, k), Step(p));
  }

  /** While a process goes through sem_create or sem_close, the adjustments of the others stay. */
  lemma OthersKeep(s: Sys, r: Sys, p: nat, q: nat)
    requires Inv(s) && Inv(r) && MovesOnly(s, r, p) && q < |s.procs| && q != p
    requires s.live.Some? ==> r.live.Some? && r.live.value.id == s.live.value.id
    requires s.live.None? ==> r.live.Some? && r.live.value.id == s.nextId
    ensures r.procs[q].adj == s.procs[q].adj
  {
    assert ProcOk(s, q) && ProcOk(r, q);
  }

  /** sem_create without interruption: the machine's four or six turns do what Library.Create does. */
  lemma CreateTurns(s: Sys, p: nat)
    requires Inv(s) && p < |s.procs| && s.procs[p].pc == Get
    requires s.live.Some? ==> s.live.value.val.m2 == 0
    ensures var v := if s.live.Some? then s.live.value.val else ZERO;
            var id := if s.live.Some? then s.live.value.id else s.nextId;
            var r := Turns(s, p, if v.m1 == 0 then 6 else 4);
            && At(r, p, Wait(id, 0), Created(v, s.initval))
            && Adjs(r.procs) == CreatedAdj(v, Adjs(s.procs), p)
  {
    hide Run, Turns, Inv, ProcOk, Adjs, CreatedAdj, Onto, Goes, At;
    var v := if s.live.Some? then s.live.value.val else ZERO;
    var id := if s.live.Some? then s.live.value.id else s.nextId;
    TurnsNext(s, p, 0);
    GetsId(s, p);
    var k := 1;
    assert v.m1 >= 0 by { if s.live.Some? { NoneBelow(s); } }
    while k < if v.m1 == 0 then 6 else 4
      invariant 1 <= k <= (if v.m1 == 0 then 6 else 4) && Inv(Turns(s, p, k))
      invariant At(Turns(s, p, k), p, Creating(v, s.initval, id, k).0, Creating(v, s.initval, id, k).1)
    {
      CreatingNext(v, s.initval, id, k);
      OneCall(Turns(s, p, k), p, Creating(v, s.initval, id, k).0, Creating(v, s.initval, id, k).1, 0);
      TurnsNext(s, p, k);
      k := k + 1;
    }
    CreatedAdjs(s, Turns(s, p, k), p, v);
  }

  /** Where sem_create is behind k turns, and the set's values then. */
  function Creating(v: Members, initval: nat, id: nat, k: nat): (Pc, Members) {
    var w := v.(m2 := 1);
    if k <= 1 then (Lock(id, false), v)
    else if k == 2 then (Look(id), w)
    else if v.m1 != 0 then if k == 3 then (EndCreate(id), w) else (Wait(id, 0), Created(v, initval))
    else if k == 3 then (Set0(id), w)
    else if k == 4 then (Set1(id), w.(m0 := initval))
    else if k == 5 then (EndCreate(id), Members(initval, BIGCOUNT, 1))
    else (Wait(id, 0), Created(v, initval))
  }

  lemma CreatingNext(v: Members, initval: nat, id: nat, k: nat)
    requires v.m1 >= 0 && v.m2 == 0 && 1 <= k < if v.m1 == 0 then 6 else 4
    ensures var (pc, val) := Creating(v, initval, id, k);
            Goes(pc, val) && !pc.Rd? && Onto(pc, val, initval, 0) == Creating(v, initval, id, k + 1)
  {
  }

  lemma GetsId(s: Sys, p: nat)
    requires p < |s.procs| && s.procs[p].pc == Get
    ensures var id := if s.live.Some? then s.live.value.id else s.nextId;
            At(Run(s, p), p, Lock(id, false), if s.live.Some? then s.live.value.val else ZERO)
  {
  }

  /** The adjustments then are as Library.Create leaves them: setting up had nothing to clear. */
  lemma CreatedAdjs(s: Sys, r: Sys, p: nat, v: Members)
    requires Inv(s) && Inv(r) && MovesOnly(s, r, p) && p < |s.procs| && s.procs[p].pc == Get
    requires v == if s.live.Some? then s.live.value.val else ZERO
    requires At(r, p, Wait(if s.live.Some? then s.live.value.id else s.nextId, 0), Created(v, s.initval))
    ensures Adjs(r.procs) == CreatedAdj(v, Adjs(s.procs), p)
  {
    hide Inv, ProcOk;
    Owing(s, p);
    Owing(r, p);
    forall q | 0 <= q < |s.procs|
      ensures Adjs(r.procs)[q] == CreatedAdj(v, Adjs(s.procs), p)[q]
    {
      if q != p { OthersKeep(s, r, p, q); }
      Owing(s, q);
      if v.m1 == 0 && s.live.Some? { NothingOwed(s); }
    }
  }

  lemma Owing(s: Sys, q: nat)
    requires Inv(s) && q < |s.procs|
    ensures s.procs[q].adj == Due(s, s.procs[q].pc)
  {
    assert ProcOk(s, q);
  }

  /** sem_close without interruption: three turns do what Library.Close does. */
  lemma CloseTurns(s: Sys, p: nat, id: nat, v: Members)
    requires Inv(s) && At(s, p, Close(id), v) && v.m2 == 0 && v.m1 < BIGCOUNT
    ensures var r := Turns(s, p, 3);
            if v.m1 + 1 == BIGCOUNT then r.procs[p].pc == Leaving && r.live.None?
            else At(r, p, Leaving, v.(m1 := v.m1 + 1))
                 && Adjs(r.procs) == Adjs(s.procs)[p := s.procs[p].adj.(m1 := s.procs[p].adj.m1 - 1)]
  {
    hide Run, Turns, Inv, ProcOk, Adjs, MovesOnly;
    TurnsNext(s, p, 0);
    OneCall(s, p, Close(id), v, 0);
    TurnsNext(s, p, 1);
    var w := Members(v.m0, v.m1 + 1, 1);
    OneCall(Turns(s, p, 1), p, CloseLook(id), w, 0);
    TurnsNext(s, p, 2);
    if w.m1 == BIGCOUNT {
      Removes(Turns(s, p, 2), p, id);
    } else {
      OneCall(Turns(s, p, 2), p, Unlock(id), w, 0);
      ClosedAdjs(s, Turns(s, p, 3), p);
    }
  }

  lemma ClosedAdjs(s: Sys, r: Sys, p: nat)
    requires Inv(s) && Inv(r) && MovesOnly(s, r, p) && p < |s.procs|
    requires s.procs[p].pc.Close? && Names(s, s.procs[p].pc.id) && SameName(s, r) && r.procs[p].pc == Leaving
    ensures Adjs(r.procs) == Adjs(s.procs)[p := s.procs[p].adj.(m1 := s.procs[p].adj.m1 - 1)]
  {
    hide Inv, ProcOk;
    Owing(s, p);
    Owing(r, p);
    forall q | 0 <= q < |s.procs| && q != p ensures r.procs[q].adj == s.procs[q].adj {
      OthersKeep(s, r, p, q);
    }
  }

  lemma Removes(s: Sys, p: nat, id: nat)
    requires p < |s.procs| && s.procs[p].pc == Remove(id) && Names(s, id)
    ensures var r := Run(s, p); r.procs[p].pc == Leaving && r.live.None?
  {
  }
}
