/** The claims of the semaphore library, for every schedule. */
module SemLibraryClaims {
  import opened Options
  import opened SemKernel
  import opened SeqFile
  import opened SemLibrary
  import opened SemLibraryProofs

  /** The state a schedule leads to. */
  function Reached(n: nat, initval: nat, text: string, turns: seq<Turn>): (s: Sys)
    ensures |s.procs| == n && s.initval == initval && s.start == text
  {
    Exec(Begin(n, initval, text), turns)
  }

  // ----- everybody on the set the key names -----

  predicate ProcHere(s: Sys, p: nat)
    requires p < |s.procs|
  {
    s.procs[p].pc.Attached() ==> Names(s, s.procs[p].pc.id)
  }

  predicate Here(s: Sys) { forall p :: 0 <= p < |s.procs| ==> ProcHere(s, p) }

  /** A removal whose counter is not what sem_close read any more: the guard of sem_close, looked at again. */
  predicate Hits(s: Sys, t: Turn) {
    && t.Step? && t.p < |s.procs| && s.procs[t.p].pc.Remove?
    && s.live.Some? && s.live.value.val.m1 != BIGCOUNT
  }

  /** A set whose counter is back at BIGCOUNT is open nowhere. */
  lemma FullCounterMeansUnused(s: Sys, q: nat)
    requires Inv(s) && q < |s.procs| && s.live.Some?
    requires s.live.value.val.m1 == BIGCOUNT || s.live.value.val.m1 == 0
    requires Names(s, if s.procs[q].pc.Attached() then s.procs[q].pc.id else s.live.value.id)
    ensures !s.procs[q].pc.Open()
  {
    assert ProcOk(s, q);
    Bounds(s, A1);
  }

  /** The key goes on naming the same set, unless this turn is the removal. */
  lemma NamesKept(s: Sys, t: Turn, id: nat)
    requires Names(s, id) && t.p < |s.procs| && !(t.Step? && s.procs[t.p].pc.Remove?)
    ensures Names(Take(s, t), id)
  {
  }

  lemma HereOther(s: Sys, t: Turn, q: nat)
    requires Inv(s) && Here(s) && !Hits(s, t) && t.p < |s.procs| && q < |s.procs| && q != t.p
    ensures |Take(s, t).procs| == |s.procs| && ProcHere(Take(s, t), q)
  {
    var p := t.p;
    assert ProcOk(s, p) && ProcHere(s, q);
    if s.procs[q].pc.Attached() {
      if t.Step? && s.procs[p].pc.Remove? {
        OneHolder(s, p, q);
        FullCounterMeansUnused(s, q);
      } else {
        NamesKept(s, t, s.procs[q].pc.id);
      }
    }
  }

  lemma HereSelf(s: Sys, t: Turn)
    requires Inv(s) && Here(s) && t.p < |s.procs|
    ensures |Take(s, t).procs| == |s.procs| && ProcHere(Take(s, t), t.p)
  {
    hide Semop, Format, ReadNumber, Overwrite;
    var p := t.p;
    assert ProcOk(s, p) && ProcHere(s, p);
    if s.live.Some? && !(t.Step? && s.procs[p].pc.Remove?) {
      NamesKept(s, t, s.live.value.id);
    }
  }

  lemma TakeHere(s: Sys, t: Turn)
    requires Inv(s) && Here(s) && !Hits(s, t)
    ensures Here(Take(s, t))
  {
    if t.p < |s.procs| {
      HereSelf(s, t);
      forall q | 0 <= q < |s.procs| && q != t.p ensures ProcHere(Take(s, t), q) {
        HereOther(s, t, q);
      }
    }
  }

  // ----- users that all enter by sem_create -----

  /** Nobody comes by sem_open, and a counter that let sem_close go on to the removal stays where it was. */
  predicate ProcTidy(s: Sys, p: nat)
    requires p < |s.procs|
  {
    var pc := s.procs[p].pc;
    && !pc.OpenGet? && !pc.OpenOp?
    && (pc.Remove? ==> s.live.Some? && s.live.value.val.m1 == BIGCOUNT)
  }

  predicate Tidy(s: Sys) {
    Inv(s) && Here(s) && forall p :: 0 <= p < |s.procs| ==> ProcTidy(s, p)
  }

  /** Only the holder of member [2], or an opener, changes the counter of a set nobody has open. */
  lemma CounterKept(s: Sys, t: Turn, q: nat)
    requires Tidy(s) && !t.StartOpen? && q < |s.procs| && t.p < |s.procs| && q != t.p
    requires s.procs[q].pc.Remove?
    ensures var s' := Take(s, t); s'.live.Some? && s'.live.value.val.m1 == BIGCOUNT
  {
    hide Semop, Format, ReadNumber, Overwrite;
    var p := t.p;
    assert ProcOk(s, p) && ProcHere(s, p) && ProcTidy(s, p) && ProcOk(s, q) && ProcTidy(s, q);
    OneHolder(s, q, p);
    FullCounterMeansUnused(s, p);
    Bounds(s, A2);
    var v := s.live.value.val;
    assert v.m2 == 1;
    OpLock(v, s.procs[p].adj);
    ExitFair(s, p);
  }

  lemma TidyOther(s: Sys, t: Turn, q: nat)
    requires Tidy(s) && !t.StartOpen? && t.p < |s.procs| && q < |s.procs| && q != t.p
    ensures |Take(s, t).procs| == |s.procs| && ProcTidy(Take(s, t), q)
  {
    assert ProcTidy(s, q);
    if s.procs[q].pc.Remove? {
      CounterKept(s, t, q);
    }
  }

  lemma TidySelf(s: Sys, t: Turn)
    requires Tidy(s) && !t.StartOpen? && t.p < |s.procs|
    ensures |Take(s, t).procs| == |s.procs| && ProcTidy(Take(s, t), t.p)
  {
    hide Semop, Format, ReadNumber, Overwrite;
    assert ProcOk(s, t.p) && ProcTidy(s, t.p);
  }

  lemma TakeTidy(s: Sys, t: Turn)
    requires Tidy(s) && !t.StartOpen?
    ensures Tidy(Take(s, t))
  {
    TakeInv(s, t);
    if t.p < |s.procs| {
      assert ProcTidy(s, t.p);
      TakeHere(s, t);
      TidySelf(s, t);
      forall q | 0 <= q < |s.procs| && q != t.p ensures ProcTidy(Take(s, t), q) {
        TidyOther(s, t, q);
      }
    }
  }

  lemma {:induction false} ExecTidy(n: nat, initval: nat, text: string, turns: seq<Turn>)
    requires n < BIGCOUNT && CreateOnly(turns)
    ensures Tidy(Reached(n, initval, text, turns))
  {
    if turns == [] {
      BeginInv(n, initval, text);
    } else {
      var before := turns[..|turns| - 1];
      ExecTidy(n, initval, text, before);
      TakeTidy(Reached(n, initval, text, before), turns[|turns| - 1]);
    }
  }

  // ----- runs in which no removal hits anybody -----

  /** No turn of the run is a removal that hits. */
  predicate NeverHits(n: nat, initval: nat, text: string, turns: seq<Turn>) {
    forall m :: 0 <= m < |turns| ==> !Hits(Reached(n, initval, text, turns[..m]), turns[m])
  }

  lemma NeverHitBefore(n: nat, initval: nat, text: string, turns: seq<Turn>)
    requires NeverHits(n, initval, text, turns) && turns != []
    ensures NeverHits(n, initval, text, turns[..|turns| - 1])
    ensures !Hits(Reached(n, initval, text, turns[..|turns| - 1]), turns[|turns| - 1])
  {
    hide Reached, Hits;
    var before := turns[..|turns| - 1];
    forall m | 0 <= m < |before| ensures !Hits(Reached(n, initval, text, before[..m]), before[m]) {
      assert before[..m] == turns[..m] && before[m] == turns[m];
    }
  }

  /** In such a run everybody attached to a set is attached to the one the key names. */
  lemma {:induction false} ExecHere(n: nat, initval: nat, text: string, turns: seq<Turn>)
    requires n < BIGCOUNT && NeverHits(n, initval, text, turns)
    ensures Here(Reached(n, initval, text, turns))
  {
    hide Hits, NeverHits;
    if turns != [] {
      var before := turns[..|turns| - 1];
      NeverHitBefore(n, initval, text, turns);
      ExecHere(n, initval, text, before);
      ExecInv(n, initval, text, before);
      TakeHere(Reached(n, initval, text, before), turns[|turns| - 1]);
    }
  }

  /** Users that all enter by sem_create never hit one another. */
  lemma CreateNeverHits(n: nat, initval: nat, text: string, turns: seq<Turn>)
    requires n < BIGCOUNT && CreateOnly(turns)
    ensures NeverHits(n, initval, text, turns)
  {
    forall m | 0 <= m < |turns| ensures !Hits(Reached(n, initval, text, turns[..m]), turns[m]) {
      ExecTidy(n, initval, text, turns[..m]);
      var s := Reached(n, initval, text, turns[..m]);
      if turns[m].p < |s.procs| {
        assert ProcTidy(s, turns[m].p);
      }
    }
  }

  /** All enter by sem_create; or some come by sem_open, but no removal hits anybody. */
  predicate Unhit(n: nat, initval: nat, text: string, turns: seq<Turn>) {
    CreateOnly(turns) || NeverHits(n, initval, text, turns)
  }

  lemma UnhitHere(n: nat, initval: nat, text: string, turns: seq<Turn>)
    requires n < BIGCOUNT && Unhit(n, initval, text, turns)
    ensures Inv(Reached(n, initval, text, turns)) && Here(Reached(n, initval, text, turns))
    ensures NeverHits(n, initval, text, turns)
  {
    hide Inv, Here, NeverHits;
    if CreateOnly(turns) {
      CreateNeverHits(n, initval, text, turns);
    }
    ExecInv(n, initval, text, turns);
    ExecHere(n, initval, text, turns);
  }

  // ----- conservation, removal and the lock -----

  /** Values plus outstanding adjustments never move, however processes run, open, close or die. */
  lemma Conservation(n: nat, initval: nat, text: string, turns: seq<Turn>)
    requires n < BIGCOUNT
    ensures var s := Reached(n, initval, text, turns);
            && (Initialised(s) ==>
                  s.live.value.val.Plus(Adjustments(s)) == Members(initval, 10000, 0))
            && (s.live.Some? ==> s.live.value.val.m2 + Adjustments(s).m2 == 0)
  {
    ExecInv(n, initval, text, turns);
  }

  /** Death at any point gives back the lock, the count and the critical section, and nothing else. */
  lemma DeathFrees(n: nat, initval: nat, text: string, turns: seq<Turn>, p: nat)
    requires p < n < BIGCOUNT
    ensures var s := Reached(n, initval, text, turns);
            var s' := Take(s, Kill(p));
            var pc := s.procs[p].pc;
            && s'.procs == s.procs[p := NOBODY]
            && (pc.Holder() ==> Names(s', pc.id) && s'.live.value.val.m2 == 0)
            && (s.live.Some? ==>
                  var mine := pc.Attached() && Names(s, pc.id);
                  && s'.live.Some? && s'.live.value.id == s.live.value.id
                  && s'.live.value.val.m0 == s.live.value.val.m0 + (if mine && pc.InCrit() then 1 else 0)
                  && s'.live.value.val.m1 == s.live.value.val.m1 + (if mine && pc.Open() then 1 else 0))
  {
    hide Semop, Format, ReadNumber, Overwrite;
    ExecInv(n, initval, text, turns);
    var s := Reached(n, initval, text, turns);
    var s' := Take(s, Kill(p));
    ExitFair(s, p);
    assert ProcOk(s, p);
    Bounds(s, A2);
    if s.procs[p].pc.Out? {
      OutIsNobody(n, initval, text, turns, p);
      assert s'.procs == s.procs[p := NOBODY];
    }
  }

  /** The dump "sem[1] > BIGCOUNT" is unreachable, whatever the schedule. */
  lemma DumpUnreachable(n: nat, initval: nat, text: string, turns: seq<Turn>, p: nat)
    requires p < n < BIGCOUNT
    ensures !Reached(n, initval, text, turns).procs[p].pc.Dumped?
  {
    ExecInv(n, initval, text, turns);
    assert ProcOk(Reached(n, initval, text, turns), p);
  }

  /** With sem_create users only, a turn that removes the set finds no process holding it open. */
  lemma RemovedOnlyWhenUnused(n: nat, initval: nat, text: string, turns: seq<Turn>, t: Turn, q: nat)
    requires q < n < BIGCOUNT && CreateOnly(turns)
    ensures var s := Reached(n, initval, text, turns);
            s.live.Some? && Take(s, t).live.None? ==>
              t.Step? && t.p < n && s.procs[t.p].pc.Remove? && !s.procs[q].pc.Open()
  {
    ExecInv(n, initval, text, turns);
    ExecTidy(n, initval, text, turns);
    var s := Reached(n, initval, text, turns);
    if s.live.Some? && Take(s, t).live.None? {
      if !s.procs[t.p].pc.Remove? {
        NamesKept(s, t, s.live.value.id);
      }
      assert ProcTidy(s, t.p) && ProcHere(s, q);
      FullCounterMeansUnused(s, q);
    }
  }

  /** The initialisation block never runs while anybody has the set open. */
  lemma InitialisedOnlyWhenUnused(n: nat, initval: nat, text: string, turns: seq<Turn>, p: nat, q: nat)
    requires p < n < BIGCOUNT && q < n && Unhit(n, initval, text, turns)
    ensures var s := Reached(n, initval, text, turns);
            s.procs[p].pc.Set0? || s.procs[p].pc.Set1? ==> !s.procs[q].pc.Open()
  {
    hide Reached, NeverHits;
    UnhitHere(n, initval, text, turns);
    var s := Reached(n, initval, text, turns);
    assert ProcHere(s, q) && ProcOk(s, p);
    if s.procs[p].pc.Set0? || s.procs[p].pc.Set1? {
      FullCounterMeansUnused(s, q);
    }
  }

  /** All processes attached to the semaphore hold one and the same id: the one the key names. */
  lemma SameId(n: nat, initval: nat, text: string, turns: seq<Turn>, p: nat)
    requires p < n < BIGCOUNT && Unhit(n, initval, text, turns)
    ensures var s := Reached(n, initval, text, turns);
            s.procs[p].pc.Attached() ==> Names(s, s.procs[p].pc.id)
  {
    hide Reached, NeverHits;
    UnhitHere(n, initval, text, turns);
    assert ProcHere(Reached(n, initval, text, turns), p);
  }

  /** The semop a process is about to make, if any. */
  function NextOps(pc: Pc): seq<SemBuf> {
    match pc
    case Lock(_, _) => OP_LOCK
    case EndCreate(_) => OP_ENDCREATE
    case OpenOp(_) => OP_OPEN
    case Wait(_, _) => OpOp(-1)
    case Signal(_, _) => OpOp(1)
    case Close(_) => OP_CLOSE
    case Unlock(_) => OP_UNLOCK
    case _ => []
  }

  /** The kernel would put the process to sleep now. */
  predicate Sleeps(s: Sys, p: nat)
    requires p < |s.procs|
  {
    var pc := s.procs[p].pc;
    NextOps(pc) != [] && Names(s, pc.id) && Semop(NextOps(pc), s.live.value.val, s.procs[p].adj).Blocked?
  }

  /** The holder of member [2] is never put to sleep: op_endcreate and op_unlock always go through. */
  lemma HolderNeverSleeps(n: nat, initval: nat, text: string, turns: seq<Turn>, p: nat)
    requires p < n < BIGCOUNT
    ensures var s := Reached(n, initval, text, turns);
            s.procs[p].pc.Holder() ==> !Sleeps(s, p)
  {
    ExecInv(n, initval, text, turns);
    if Reached(n, initval, text, turns).procs[p].pc.Holder() {
      HolderRuns(Reached(n, initval, text, turns), p);
    }
  }

  lemma HolderRuns(s: Sys, p: nat)
    requires Inv(s) && p < |s.procs| && s.procs[p].pc.Holder()
    ensures !Sleeps(s, p)
  {
    assert ProcOk(s, p);
    Bounds(s, A1);
    Bounds(s, A2);
    var v, a := s.live.value.val, s.procs[p].adj;
    if s.procs[p].pc.EndCreate? {
      OpEndCreate(v, a);
    } else if s.procs[p].pc.Unlock? {
      OpOne(2, -1, v, a);
    }
  }

  /** No deadlock: while any process is alive, one of them is not asleep. */
  lemma NoDeadlock(n: nat, initval: nat, text: string, turns: seq<Turn>, p: nat) returns (q: nat)
    requires p < n < BIGCOUNT && initval >= 1 && CreateOnly(turns)
    requires !Reached(n, initval, text, turns).procs[p].pc.Out?
    ensures q < n
    ensures var s := Reached(n, initval, text, turns); !s.procs[q].pc.Out? && !Sleeps(s, q)
  {
    ExecInv(n, initval, text, turns);
    ExecTidy(n, initval, text, turns);
    var s := Reached(n, initval, text, turns);
    q := p;
    assert ProcTidy(s, p);
    if Sleeps(s, p) {
      q := Awake(s, p);
    }
  }

  /** A sleeper has somebody to wake it, except an opener of a set that is not set up yet. */
  lemma Awake(s: Sys, p: nat) returns (q: nat)
    requires Inv(s) && s.initval >= 1 && p < |s.procs| && Sleeps(s, p)
    requires s.procs[p].pc.OpenOp? ==> Initialised(s)
    ensures q < |s.procs| && !s.procs[q].pc.Out? && !Sleeps(s, q)
  {
    assert ProcOk(s, p);
    Bounds(s, A0);
    Bounds(s, A1);
    var v, a, pc := s.live.value.val, s.procs[p].adj, s.procs[p].pc;
    if pc.Holder() {
      HolderRuns(s, p);
    }
    if v.m2 > 0 {
      q := SumWitness(s.procs, A2);
      assert ProcOk(s, q);
      HolderRuns(s, q);
    } else {
      OpLock(v, a);
      OpClose(v, a);
      OpOne(0, -1, v, a);
      OpOne(0, 1, v, a);
      OpOne(1, -1, v, a);
      q := SumWitness(s.procs, A0);
      assert ProcOk(s, q);
      OpOne(0, 1, v, s.procs[q].adj);
    }
  }

  // ----- mutual exclusion -----

  function C(pr: Proc): int { if pr.pc.InCrit() then 1 else 0 }

  lemma {:induction false} SumAtMost(ps: seq<Proc>, qs: seq<Proc>, f: Proc -> int, g: Proc -> int)
    requires |ps| == |qs| && forall k :: 0 <= k < |ps| ==> f(ps[k]) <= g(qs[k])
    ensures Sum(ps, f) <= Sum(qs, g)
  {
    if ps != [] {
      SumAtMost(ps[..|ps| - 1], qs[..|qs| - 1], f, g);
    }
  }

  /** At most initval processes are between sem_wait and sem_signal, across all removals and re-creations. */
  lemma AtMostInitval(n: nat, initval: nat, text: string, turns: seq<Turn>)
    requires n < BIGCOUNT && Unhit(n, initval, text, turns)
    ensures Sum(Reached(n, initval, text, turns).procs, C) <= initval
  {
    hide Reached, NeverHits;
    UnhitHere(n, initval, text, turns);
    var s := Reached(n, initval, text, turns);
    forall k | 0 <= k < |s.procs| ensures C(s.procs[k]) <= A0(s.procs[k]) {
      assert ProcOk(s, k) && ProcHere(s, k);
    }
    SumAtMost(s.procs, s.procs, C, A0);
    AdjustmentsBounded(s);
  }

  lemma AdjustmentsBounded(s: Sys)
    requires Inv(s)
    ensures Sum(s.procs, A0) <= s.initval
  {
    if Sum(s.procs, A0) > 0 {
      var k := SumWitness(s.procs, A0);
      assert ProcOk(s, k);
      Bounds(s, A1);
    }
  }

  /** Used as a mutex, the semaphore lets one process in. */
  lemma MutualExclusion(n: nat, text: string, turns: seq<Turn>, p: nat, q: nat)
    requires p < q < n < BIGCOUNT && Unhit(n, 1, text, turns)
    ensures var s := Reached(n, 1, text, turns);
            !(s.procs[p].pc.InCrit() && s.procs[q].pc.InCrit())
  {
    hide Reached, NeverHits;
    AtMostInitval(n, 1, text, turns);
    SumBounds(Reached(n, 1, text, turns).procs, C);
  }

  // ----- the books: who wrote how often -----

  predicate WritesOk(pr: Proc) {
    match pr.pc
    case Wait(_, i) => i < ROUNDS && pr.writes == i
    case Rd(_, i) => i < ROUNDS && pr.writes == i
    case Wr(_, i, _) => i < ROUNDS && pr.writes == i
    case Signal(_, i) => i < ROUNDS && pr.writes == i + 1
    case Close(_) => pr.writes == ROUNDS
    case CloseLook(_) => pr.writes == ROUNDS
    case Remove(_) => pr.writes == ROUNDS
    case Unlock(_) => pr.writes == ROUNDS
    case Leaving => pr.writes == ROUNDS
    case _ => pr.writes == 0
  }

  predicate Books(s: Sys) {
    && s.wrote == ROUNDS * s.finished + s.strays + Sum(s.procs, W)
    && forall p :: 0 <= p < |s.procs| ==> WritesOk(s.procs[p])
  }

  lemma {:induction false} SameWrites(ps: seq<Proc>, qs: seq<Proc>)
    requires |ps| == |qs| && forall k :: 0 <= k < |ps| ==> W(ps[k]) == W(qs[k])
    ensures Sum(ps, W) == Sum(qs, W)
  {
    if ps != [] {
      SameWrites(ps[..|ps| - 1], qs[..|qs| - 1]);
    }
  }

  /** So the books change by the one process's account. */
  lemma SumOthers(s: Sys, t: Turn)
    requires t.p < |s.procs|
    ensures |Take(s, t).procs| == |s.procs|
    ensures Sum(Take(s, t).procs, W) == Sum(s.procs, W) - W(s.procs[t.p]) + W(Take(s, t).procs[t.p])
  {
    var s' := Take(s, t);
    var mix := s.procs[t.p := s'.procs[t.p]];
    forall q | 0 <= q < |s.procs| ensures W(mix[q]) == W(s'.procs[q]) {
    }
    SameWrites(mix, s'.procs);
    SumUpdate(s.procs, t.p, s'.procs[t.p], W);
  }

  lemma SelfBooks(s: Sys, t: Turn)
    requires Inv(s) && Books(s) && t.p < |s.procs|
    ensures var s' := Take(s, t);
            && s'.wrote - ROUNDS * s'.finished - s'.strays - s'.procs[t.p].writes
               == s.wrote - ROUNDS * s.finished - s.strays - s.procs[t.p].writes
            && WritesOk(s'.procs[t.p])
  {
    hide Run;
    var p := t.p;
    assert WritesOk(s.procs[p]) && ProcOk(s, p);
    if t.Step? {
      SelfWrites(s, p);
      var pc := s.procs[p].pc;
      if pc.Out? || pc.Rd? || pc.Wr? || pc.Leaving? {
        LoudBooks(s, p);
      }
    }
  }

  /** The turns that are not quiet: a start, a print, a write, a finish. */
  lemma LoudBooks(s: Sys, p: nat)
    requires p < |s.procs| && WritesOk(s.procs[p])
    requires var pc := s.procs[p].pc; pc.Out? || pc.Rd? || pc.Wr? || pc.Leaving?
    ensures var s' := Run(s, p);
            s'.wrote - ROUNDS * s'.finished - s'.strays - s'.procs[p].writes
            == s.wrote - ROUNDS * s.finished - s.strays - s.procs[p].writes
  {
    hide Semop, Format, ReadNumber, Overwrite;
  }

  lemma SelfWrites(s: Sys, p: nat)
    requires Inv(s) && p < |s.procs| && WritesOk(s.procs[p])
    ensures WritesOk(Run(s, p).procs[p])
  {
    hide Run, WritesOk;
    var pc := s.procs[p].pc;
    if pc.Wait? || pc.InCrit() {
      LoopWrites(s, p);
    } else if pc.Close? || pc.CloseLook? || pc.Remove? || pc.Unlock? || pc.Leaving? || pc.Dumped? {
      CloseWrites(s, p);
    } else {
      EntryWrites(s, p);
    }
  }

  lemma EntryWrites(s: Sys, p: nat)
    requires Inv(s) && p < |s.procs| && WritesOk(s.procs[p])
    requires var pc := s.procs[p].pc;
             || pc.Out? || pc.Get? || pc.Lock? || pc.Look? || pc.Set0? || pc.Set1? || pc.EndCreate?
             || pc.OpenGet? || pc.OpenOp?
    ensures WritesOk(Run(s, p).procs[p])
  {
    hide Semop, Format, ReadNumber, Overwrite, Quiet;
  }

  lemma LoopWrites(s: Sys, p: nat)
    requires Inv(s) && p < |s.procs| && WritesOk(s.procs[p])
    requires s.procs[p].pc.Wait? || s.procs[p].pc.InCrit()
    ensures WritesOk(Run(s, p).procs[p])
  {
    hide Semop, Format, ReadNumber, Overwrite, Quiet;
  }

  lemma CloseWrites(s: Sys, p: nat)
    requires Inv(s) && p < |s.procs| && WritesOk(s.procs[p])
    requires var pc := s.procs[p].pc;
             pc.Close? || pc.CloseLook? || pc.Remove? || pc.Unlock? || pc.Leaving? || pc.Dumped?
    ensures WritesOk(Run(s, p).procs[p])
  {
    hide Semop, Format, ReadNumber, Overwrite, Quiet;
    TakeInv(s, Step(p));
    assert ProcOk(s, p) && ProcOk(Run(s, p), p);
  }

  lemma TakeBooks(s: Sys, t: Turn)
    requires Inv(s) && Books(s)
    ensures Books(Take(s, t))
  {
    if t.p < |s.procs| {
      var s' := Take(s, t);
      SumOthers(s, t);
      TakeInv(s, t);
      SelfBooks(s, t);
      forall q | 0 <= q < |s'.procs| ensures WritesOk(s'.procs[q]) {
        if q != t.p {
          assert WritesOk(s.procs[q]);
        }
      }
    }
  }

  lemma {:induction false} ExecBooks(n: nat, initval: nat, text: string, turns: seq<Turn>)
    requires n < BIGCOUNT
    ensures Books(Reached(n, initval, text, turns))
  {
    if turns == [] {
      SumZero(Begin(n, initval, text).procs, W);
    } else {
      var before := turns[..|turns| - 1];
      ExecInv(n, initval, text, before);
      ExecBooks(n, initval, text, before);
      TakeBooks(Reached(n, initval, text, before), turns[|turns| - 1]);
    }
  }

  lemma OutIsNobody(n: nat, initval: nat, text: string, turns: seq<Turn>, p: nat)
    requires p < n < BIGCOUNT
    ensures var s := Reached(n, initval, text, turns);
            |s.procs| == n && (s.procs[p].pc.Out? ==> s.procs[p] == NOBODY)
  {
    ExecInv(n, initval, text, turns);
    ExecBooks(n, initval, text, turns);
    assert WritesOk(Reached(n, initval, text, turns).procs[p]) && ProcOk(Reached(n, initval, text, turns), p);
  }
}
