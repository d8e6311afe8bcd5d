/** What every run of the semaphore library keeps. */
module SemLibraryProofs {
  import opened Options
  import opened SemKernel
  import opened SeqFile
  import opened SemLibrary

  // ----- sums over the process table -----

  function Sum(ps: seq<Proc>, f: Proc -> int): int {
    if ps == [] then 0 else Sum(ps[..|ps| - 1], f) + f(ps[|ps| - 1])
  }

  lemma {:induction false} SumUpdate(ps: seq<Proc>, i: nat, x: Proc, f: Proc -> int)
    requires i < |ps|
    ensures Sum(ps[i := x], f) == Sum(ps, f) - f(ps[i]) + f(x)
  {
    var n := |ps| - 1;
    if i == n {
      assert ps[i := x][..n] == ps[..n];
    } else {
      assert ps[i := x][..n] == ps[..n][i := x];
      SumUpdate(ps[..n], i, x, f);
    }
  }

  /** Summands between 0 and 1: the sum is at least any two of them and at most their number. */
  lemma {:induction false} SumBounds(ps: seq<Proc>, f: Proc -> int)
    requires forall k :: 0 <= k < |ps| ==> 0 <= f(ps[k]) <= 1
    ensures 0 <= Sum(ps, f) <= |ps|
    ensures forall k :: 0 <= k < |ps| ==> f(ps[k]) <= Sum(ps, f)
    ensures forall j, k :: 0 <= j < k < |ps| ==> f(ps[j]) + f(ps[k]) <= Sum(ps, f)
  {
    if ps != [] {
      var n := |ps| - 1;
      SumBounds(ps[..n], f);
      assert forall k :: 0 <= k < n ==> ps[..n][k] == ps[k];
    }
  }

  lemma {:induction false} SumZero(ps: seq<Proc>, f: Proc -> int)
    requires forall k :: 0 <= k < |ps| ==> f(ps[k]) == 0
    ensures Sum(ps, f) == 0
  {
    if ps != [] {
      SumZero(ps[..|ps| - 1], f);
    }
  }

  /** A positive sum has a positive summand. */
  lemma {:induction false} SumWitness(ps: seq<Proc>, f: Proc -> int) returns (k: nat)
    requires Sum(ps, f) > 0
    ensures k < |ps| && f(ps[k]) > 0
  {
    var n := |ps| - 1;
    if f(ps[n]) > 0 {
      k := n;
    } else {
      k := SumWitness(ps[..n], f);
    }
  }

  function A0(pr: Proc): int { pr.adj.m0 }
  function A1(pr: Proc): int { pr.adj.m1 }
  function A2(pr: Proc): int { -pr.adj.m2 }
  function W(pr: Proc): int { pr.writes }

  /** The adjustments outstanding in the whole system. */
  function Adjustments(s: Sys): Members {
    Members(Sum(s.procs, A0), Sum(s.procs, A1), -Sum(s.procs, A2))
  }

  lemma AdjustmentsUpdate(s: Sys, s': Sys, p: nat, pr: Proc)
    requires p < |s.procs| && s'.procs == s.procs[p := pr]
    ensures Adjustments(s').m0 == Adjustments(s).m0 - s.procs[p].adj.m0 + pr.adj.m0
    ensures Adjustments(s').m1 == Adjustments(s).m1 - s.procs[p].adj.m1 + pr.adj.m1
    ensures Adjustments(s').m2 == Adjustments(s).m2 - s.procs[p].adj.m2 + pr.adj.m2
  {
    SumUpdate(s.procs, p, pr, A0);
    SumUpdate(s.procs, p, pr, A1);
    SumUpdate(s.procs, p, pr, A2);
  }

  // ----- the invariant of every run, sem_open included -----

  /** What the kernel should hold for a process: its dues to the live set, nothing for a dead one. */
  function Due(s: Sys, pc: Pc): Members {
    if pc.Attached() && Names(s, pc.id) then pc.Owed() else ZERO
  }

  /** The creator has run both SETVALs. */
  predicate Initialised(s: Sys) { s.live.Some? && s.live.value.val.m1 != 0 }

  predicate ProcOk(s: Sys, p: nat)
    requires p < |s.procs|
  {
    var pr := s.procs[p];
    && pr.adj == Due(s, pr.pc)
    && ((pr.pc.Lock? || pr.pc.OpenOp? || pr.pc.Attached()) ==> pr.pc.id < s.nextId)
    && (pr.pc.Holder() ==> Names(s, pr.pc.id))
    && (pr.pc.Set0? || pr.pc.Set1? ==> !Initialised(s))
    && (pr.pc.Set1? ==> s.live.value.val.m0 == s.initval)
    && (pr.pc.EndCreate? || pr.pc.CloseLook? || pr.pc.Remove? || pr.pc.Unlock? ==> Initialised(s))
    && !pr.pc.Dumped?
  }

  /** Conservation: value plus outstanding adjustments is what the library put there. */
  predicate SetOk(s: Sys) {
    s.live.Some? ==>
      var v, a := s.live.value.val, Adjustments(s);
      && s.live.value.id < s.nextId
      && v.NonNegative() && v.m2 <= 1
      && v.m2 + a.m2 == 0
      && (if Initialised(s)
          then v.m1 + a.m1 == BIGCOUNT && v.m0 + a.m0 == s.initval
          else a.m1 == 0 && a.m0 == 0)
  }

  predicate Inv(s: Sys) {
    && |s.procs| < BIGCOUNT
    && SetOk(s)
    && forall p :: 0 <= p < |s.procs| ==> ProcOk(s, p)
  }

  /** Counting: each process owes at most one of each member. */
  lemma Bounds(s: Sys, f: Proc -> int)
    requires Inv(s) && (f == A0 || f == A1 || f == A2)
    ensures 0 <= Sum(s.procs, f) <= |s.procs|
    ensures forall k :: 0 <= k < |s.procs| ==> 0 <= f(s.procs[k]) <= Sum(s.procs, f)
    ensures forall j, k :: 0 <= j < k < |s.procs| ==> f(s.procs[j]) + f(s.procs[k]) <= Sum(s.procs, f)
  {
    forall p | 0 <= p < |s.procs| ensures 0 <= f(s.procs[p]) <= 1 {
      assert ProcOk(s, p);
    }
    SumBounds(s.procs, f);
  }

  // The five fixed arrays, computed.

  lemma OpLock(v: Members, a: Members)
    ensures Semop(OP_LOCK, v, a) ==
            if v.m2 == 0 then Done(v.(m2 := 1), a.(m2 := a.m2 - 1)) else Blocked
  {
    assert OP_LOCK == [OP_LOCK[0]] + ([OP_LOCK[1]] + []);
    SemopHead(OP_LOCK[0], [OP_LOCK[1]] + [], v, a);
    SemopHead(OP_LOCK[1], [], v, a);
  }

  lemma OpEndCreate(v: Members, a: Members)
    ensures Semop(OP_ENDCREATE, v, a) ==
            if v.m1 >= 1 && v.m2 >= 1
            then Done(Members(v.m0, v.m1 - 1, v.m2 - 1), Members(a.m0, a.m1 + 1, a.m2 + 1)) else Blocked
  {
    var w, b := v.(m1 := v.m1 - 1), a.(m1 := a.m1 + 1);
    assert OP_ENDCREATE == [OP_ENDCREATE[0]] + ([OP_ENDCREATE[1]] + []);
    SemopHead(OP_ENDCREATE[0], [OP_ENDCREATE[1]] + [], v, a);
    SemopHead(OP_ENDCREATE[1], [], w, b);
  }

  lemma OpClose(v: Members, a: Members)
    requires v.NonNegative()
    ensures Semop(OP_CLOSE, v, a) ==
            if v.m2 == 0 then Done(Members(v.m0, v.m1 + 1, 1), Members(a.m0, a.m1 - 1, a.m2 - 1)) else Blocked
  {
    var w, b := v.(m2 := 1), a.(m2 := a.m2 - 1);
    var rest := [OP_CLOSE[2]] + [];
    assert OP_CLOSE == [OP_CLOSE[0]] + ([OP_CLOSE[1]] + rest);
    SemopHead(OP_CLOSE[0], [OP_CLOSE[1]] + rest, v, a);
    SemopHead(OP_CLOSE[1], rest, v, a);
    SemopHead(OP_CLOSE[2], [], w, b);
  }

  lemma OpOne(k: Member, d: int, v: Members, a: Members)
    requires d != 0
    ensures Semop([SemBuf(k, d, true)], v, a) ==
            if v.Get(k) + d < 0 then Blocked
            else Done(v.Put(k, v.Get(k) + d), a.Put(k, a.Get(k) - d))
  {
    var o := SemBuf(k, d, true);
    assert [o] == [o] + [];
    SemopHead(o, [], v, a);
  }

  // ----- one turn keeps the invariant -----

  /** A process moves on; the set and its own adjustments stay as they are. */
  predicate MovesOn(s: Sys, s': Sys, p: nat)
    requires p < |s.procs| == |s'.procs|
  {
    && s'.procs == s.procs[p := s'.procs[p]] && s'.procs[p].adj == s.procs[p].adj
    && s'.live == s.live && s'.nextId == s.nextId && s'.initval == s.initval
    && ProcOk(s', p)
  }

  /** A process and the set trade: what one gains, the other owes. */
  predicate Trades(s: Sys, s': Sys, p: nat)
    requires p < |s.procs| == |s'.procs|
  {
    && s.live.Some? && s'.live.Some?
    && var v, w, pr := s.live.value.val, s'.live.value.val, s'.procs[p];
    && s'.live.value.id == s.live.value.id && s'.procs == s.procs[p := pr]
    && s'.nextId == s.nextId && s'.initval == s.initval
    && w.Plus(pr.adj) == v.Plus(s.procs[p].adj)
    && w.NonNegative() && w.m2 <= 1 && 0 <= pr.adj.m1 <= 1
    && (!Initialised(s) ==> w.m0 == v.m0 && w.m1 == 0)
    && ((Initialised(s) && w.m1 == 0) || ProcOk(s', p))
  }

  /** Either way the books stay in order. */
  lemma FairInv(s: Sys, s': Sys, p: nat)
    requires Inv(s) && p < |s.procs| == |s'.procs| && (MovesOn(s, s', p) || Trades(s, s', p))
    ensures Inv(s')
  {
    AdjustmentsUpdate(s, s', p, s'.procs[p]);
    forall q | 0 <= q < |s'.procs| ensures 0 <= A1(s'.procs[q]) <= 1 {
      assert ProcOk(s, q);
    }
    SumBounds(s'.procs, A1);
    forall q | 0 <= q < |s'.procs| ensures ProcOk(s', q) {
      assert ProcOk(s, q);
    }
  }

  /** Exit at any point is fair: the kernel's undo puts the set back exactly. */
  lemma ExitFair(s: Sys, p: nat)
    requires Inv(s) && p < |s.procs|
    ensures MovesOn(s, Exit(s, p), p) || Trades(s, Exit(s, p), p)
    ensures s.live.Some? ==> Exit(s, p).live.value.val == s.live.value.val.Plus(s.procs[p].adj)
  {
    assert ProcOk(s, p);
    if s.live.Some? {
      Bounds(s, A0);
      Bounds(s, A1);
      Bounds(s, A2);
    }
  }

  lemma DieFair(s: Sys, p: nat)
    requires Inv(s) && p < |s.procs|
    ensures Die(s, p) == s || MovesOn(s, Die(s, p), p) || Trades(s, Die(s, p), p)
  {
    if !s.procs[p].pc.Out? {
      ExitFair(s, p);
    }
  }

  /** Almost every call is fair: it moves on, trades with the set, or ends the process. */
  predicate Fair(s: Sys, p: nat)
    requires p < |s.procs|
  {
    var r := Run(s, p);
    MovesOn(s, r, p) || Trades(s, r, p) || r == Die(s, p)
  }

  /** The others set the semaphore up or take it down as a whole. */
  predicate Orderly(s: Sys, p: nat)
    requires p < |s.procs|
  {
    Fair(s, p) || Inv(Run(s, p))
  }

  /** A new set: nobody owes it anything. */
  lemma RunGet(s: Sys, p: nat)
    requires Inv(s) && p < |s.procs| && s.procs[p].pc.Get? && s.live.None?
    ensures Orderly(s, p)
  {
    var s' := Run(s, p);
    assert ProcOk(s, p);
    forall q | 0 <= q < |s'.procs| ensures ProcOk(s', q) && s'.procs[q].adj == ZERO {
      assert ProcOk(s, q);
    }
    SumZero(s'.procs, A0);
    SumZero(s'.procs, A1);
    SumZero(s'.procs, A2);
  }

  /** Calls that only look. */
  lemma RunLooks(s: Sys, p: nat)
    requires Inv(s) && p < |s.procs|
    requires var pc := s.procs[p].pc;
             pc.Out? || (pc.Get? && s.live.Some?) || pc.Look? || pc.OpenGet? || pc.CloseLook? || pc.Dumped?
    ensures Fair(s, p)
  {
    hide Semop, Format, ReadNumber, Overwrite, SetVal, Rmid, Call;
    assert ProcOk(s, p);
    Bounds(s, A1);
  }

  lemma RunFile(s: Sys, p: nat)
    requires Inv(s) && p < |s.procs| && (s.procs[p].pc.Rd? || s.procs[p].pc.Wr?)
    ensures Fair(s, p)
  {
    hide Semop, Format, ReadNumber, Overwrite, SetVal, Rmid, Call;
    assert ProcOk(s, p);
  }

  lemma RunLock(s: Sys, p: nat)
    requires Inv(s) && p < |s.procs| && s.procs[p].pc.Lock?
    ensures Fair(s, p)
  {
    hide Semop;
    assert ProcOk(s, p);
    if Names(s, s.procs[p].pc.id) {
      OpLock(s.live.value.val, s.procs[p].adj);
    }
  }

  lemma RunOpens(s: Sys, p: nat)
    requires Inv(s) && p < |s.procs| && (s.procs[p].pc.EndCreate? || s.procs[p].pc.OpenOp?)
    ensures Fair(s, p)
  {
    hide Semop, Format, ReadNumber, Overwrite, SetVal, Rmid;
    assert ProcOk(s, p);
    if Names(s, s.procs[p].pc.id) {
      Bounds(s, A2);
      OpEndCreate(s.live.value.val, s.procs[p].adj);
      OpOne(1, -1, s.live.value.val, s.procs[p].adj);
    }
  }

  lemma ClearedIsSame(procs: seq<Proc>, k: Member)
    requires forall q :: 0 <= q < |procs| ==> procs[q].adj.Get(k) == 0
    ensures Cleared(procs, k) == procs
  {
    forall q | 0 <= q < |procs| ensures Cleared(procs, k)[q] == procs[q] {
      assert procs[q].adj.Put(k, 0) == procs[q].adj;
    }
  }

  /** Nobody owes anything on the members of a set that is not set up. */
  lemma NothingOwed(s: Sys)
    requires Inv(s) && s.live.Some? && !Initialised(s)
    ensures forall q :: 0 <= q < |s.procs| ==> s.procs[q].adj.m0 == 0 && s.procs[q].adj.m1 == 0
  {
    hide ProcOk;
    Bounds(s, A0);
    Bounds(s, A1);
    forall q | 0 <= q < |s.procs| ensures s.procs[q].adj.m0 == 0 && s.procs[q].adj.m1 == 0 {
      assert A0(s.procs[q]) == 0 && A1(s.procs[q]) == 0;
    }
  }

  /** At most one process holds member [2]. */
  lemma OneHolder(s: Sys, p: nat, q: nat)
    requires Inv(s) && p < |s.procs| && q < |s.procs| && p != q && s.procs[p].pc.Holder()
    ensures !s.procs[q].pc.Holder()
  {
    assert ProcOk(s, p) && ProcOk(s, q);
    Bounds(s, A2);
    if p < q {
      assert A2(s.procs[p]) + A2(s.procs[q]) <= Sum(s.procs, A2);
    } else {
      assert A2(s.procs[q]) + A2(s.procs[p]) <= Sum(s.procs, A2);
    }
  }

  /** What a SETVAL comes to: the value and the place; there is no adjustment it could throw away. */
  lemma SetValEffect(s: Sys, p: nat, k: Member, x: nat, next: Pc)
    requires Inv(s) && p < |s.procs| && (s.procs[p].pc.Set0? || s.procs[p].pc.Set1?) && k < 2
    ensures s.live.Some?
    ensures SetVal(s, p, s.procs[p].pc.id, k, x, next)
            == s.(live := Some(Live(s.procs[p].pc.id, s.live.value.val.Put(k, x))),
                  procs := s.procs[p := s.procs[p].(pc := next)])
  {
    assert ProcOk(s, p);
    NothingOwed(s);
    ClearedIsSame(s.procs, k);
  }

  lemma RunSet0(s: Sys, p: nat)
    requires Inv(s) && p < |s.procs| && s.procs[p].pc.Set0?
    ensures Orderly(s, p)
  {
    hide Semop, Format, ReadNumber, Overwrite, SetVal;
    var s', pr := Run(s, p), s.procs[p];
    assert ProcOk(s, p);
    SetValEffect(s, p, 0, s.initval, Set1(pr.pc.id));
    AdjustmentsUpdate(s, s', p, s'.procs[p]);
    forall q | 0 <= q < |s'.procs| ensures ProcOk(s', q) {
      assert ProcOk(s, q);
      if q != p { OneHolder(s, p, q); }
    }
  }

  lemma RunSet1(s: Sys, p: nat)
    requires Inv(s) && p < |s.procs| && s.procs[p].pc.Set1?
    ensures Orderly(s, p)
  {
    hide Semop, Format, ReadNumber, Overwrite, SetVal;
    var s', pr := Run(s, p), s.procs[p];
    assert ProcOk(s, p);
    SetValEffect(s, p, 1, BIGCOUNT, EndCreate(pr.pc.id));
    AdjustmentsUpdate(s, s', p, s'.procs[p]);
    forall q | 0 <= q < |s'.procs| ensures ProcOk(s', q) {
      assert ProcOk(s, q);
      if q != p { OneHolder(s, p, q); }
    }
  }

  lemma RunWaitSignal(s: Sys, p: nat)
    requires Inv(s) && p < |s.procs| && (s.procs[p].pc.Wait? || s.procs[p].pc.Signal?)
    ensures Fair(s, p)
  {
    hide Semop;
    assert ProcOk(s, p);
    if Names(s, s.procs[p].pc.id) {
      OpOne(0, if s.procs[p].pc.Wait? then -1 else 1, s.live.value.val, s.procs[p].adj);
      Bounds(s, A1);
    }
  }

  lemma RunClose(s: Sys, p: nat)
    requires Inv(s) && p < |s.procs| && (s.procs[p].pc.Close? || s.procs[p].pc.Unlock?)
    ensures Fair(s, p)
  {
    hide Semop;
    assert ProcOk(s, p);
    if Names(s, s.procs[p].pc.id) {
      Bounds(s, A1);
      Bounds(s, A2);
      OpClose(s.live.value.val, s.procs[p].adj);
      OpOne(2, -1, s.live.value.val, s.procs[p].adj);
    }
  }

  lemma RunRemove(s: Sys, p: nat)
    requires Inv(s) && p < |s.procs| && s.procs[p].pc.Remove?
    ensures Orderly(s, p)
  {
    var s' := Run(s, p);
    assert ProcOk(s, p);
    Bounds(s, A2);
    forall q | 0 <= q < |s'.procs| ensures ProcOk(s', q) {
      assert ProcOk(s, q);
      if q != p {
        assert A2(s.procs[q]) + A2(s.procs[p]) <= Sum(s.procs, A2);
      }
    }
  }

  lemma RunLeaving(s: Sys, p: nat)
    requires Inv(s) && p < |s.procs| && s.procs[p].pc.Leaving?
    ensures Fair(s, p)
  {
    ExitFair(s, p);
  }

  lemma RunOrderly(s: Sys, p: nat)
    requires Inv(s) && p < |s.procs|
    ensures Orderly(s, p)
  {
    hide Inv, Run, Fair;
    match s.procs[p].pc {
      case Get => if s.live.None? { RunGet(s, p); } else { RunLooks(s, p); }
      case Set0(_) => RunSet0(s, p);
      case Set1(_) => RunSet1(s, p);
      case Remove(_) => RunRemove(s, p);
      case Leaving => RunLeaving(s, p);
      case Lock(_, _) => RunLock(s, p);
      case EndCreate(_) => RunOpens(s, p);
      case OpenOp(_) => RunOpens(s, p);
      case Wait(_, _) => RunWaitSignal(s, p);
      case Signal(_, _) => RunWaitSignal(s, p);
      case Close(_) => RunClose(s, p);
      case Unlock(_) => RunClose(s, p);
      case Rd(_, _) => RunFile(s, p);
      case Wr(_, _, _) => RunFile(s, p);
      case _ => RunLooks(s, p);
    }
  }

  lemma TakeInv(s: Sys, t: Turn)
    requires Inv(s)
    ensures Inv(Take(s, t))
  {
    if t.p < |s.procs| {
      var p, r := t.p, Take(s, t);
      if t.Step? {
        RunOrderly(s, p);
      } else if t.StartOpen? {
        assert ProcOk(s, p);
      }
      DieFair(s, p);
      assert r == s || MovesOn(s, r, p) || Trades(s, r, p) || Inv(r) by { hide Inv, Run; }
      hide Take, MovesOn, Trades;
      if MovesOn(s, r, p) || Trades(s, r, p) {
        FairInv(s, r, p);
      }
    }
  }

  lemma BeginInv(n: nat, initval: nat, text: string)
    requires n < BIGCOUNT
    ensures Inv(Begin(n, initval, text))
  {
    var s := Begin(n, initval, text);
    forall q | 0 <= q < n ensures ProcOk(s, q) {}
  }

  /** The invariant holds in every reachable state, whatever the schedule, the deaths and the openers. */
  lemma {:induction false} ExecInv(n: nat, initval: nat, text: string, turns: seq<Turn>)
    requires n < BIGCOUNT
    ensures var s := Exec(Begin(n, initval, text), turns);
            Inv(s) && |s.procs| == n && s.initval == initval && s.start == text
  {
    if turns == [] {
      BeginInv(n, initval, text);
    } else {
      var before := turns[..|turns| - 1];
      ExecInv(n, initval, text, before);
      var s := Exec(Begin(n, initval, text), before);
      TakeInv(s, turns[|turns| - 1]);
    }
  }
}
