/**
 Users that come by sem_open, which takes no lock: exactly which runs keep everybody on one set, and what
 is kept in the others.
 */
module SemOpeners {
  import opened Options
  import opened SemKernel
  import opened SeqFile
  import opened SemLibrary
  import opened SemLibraryProofs
  import opened SemLibraryClaims

  /** Whoever has the semaphore open has open the set the key names. */
  predicate OneId(s: Sys) {
    forall q :: 0 <= q < |s.procs| && s.procs[q].pc.Open() ==> Names(s, s.procs[q].pc.id)
  }

  /** A removal takes the set from somebody who has it open iff the counter moved off BIGCOUNT. */
  lemma RemovalHitsOpener(n: nat, initval: nat, text: string, turns: seq<Turn>, p: nat)
    requires p < n < BIGCOUNT && Reached(n, initval, text, turns).procs[p].pc.Remove?
    ensures var s := Reached(n, initval, text, turns);
            && Names(s, s.procs[p].pc.id)
            && (s.live.value.val.m1 != BIGCOUNT <==>
                  exists q :: 0 <= q < n && s.procs[q].pc.Open() && Names(s, s.procs[q].pc.id))
  {
    ExecInv(n, initval, text, turns);
    var s := Reached(n, initval, text, turns);
    assert ProcOk(s, p);
    Bounds(s, A1);
    if s.live.value.val.m1 != BIGCOUNT {
      var q := SumWitness(s.procs, A1);
      assert ProcOk(s, q);
    }
    forall q | 0 <= q < n && s.procs[q].pc.Open() && Names(s, s.procs[q].pc.id)
      ensures s.live.value.val.m1 != BIGCOUNT
    {
      assert ProcOk(s, q);
    }
  }

  /** A hit leaves somebody with a set open that the key does not name. */
  lemma HitLeavesOpener(s: Sys, t: Turn)
    requires Inv(s) && Hits(s, t)
    ensures !OneId(Take(s, t))
  {
    assert ProcOk(s, t.p);
    Bounds(s, A1);
    var q := SumWitness(s.procs, A1);
    assert ProcOk(s, q);
    assert Take(s, t).procs[q].pc == s.procs[q].pc;
  }

  /** At every point of the run. */
  predicate AlwaysOneId(n: nat, initval: nat, text: string, turns: seq<Turn>) {
    forall m :: 0 <= m <= |turns| ==> OneId(Reached(n, initval, text, turns[..m]))
  }

  /**
   Exactly the runs in which no removal hits keep one id throughout: the counter looked at again at each
   IPC_RMID decides, whoever came by sem_create or by sem_open.
   */
  lemma SameIdExactly(n: nat, initval: nat, text: string, turns: seq<Turn>)
    requires n < BIGCOUNT
    ensures AlwaysOneId(n, initval, text, turns) <==> NeverHits(n, initval, text, turns)
  {
    hide Reached, Hits, OneId;
    if NeverHits(n, initval, text, turns) {
      forall m | 0 <= m <= |turns| ensures OneId(Reached(n, initval, text, turns[..m])) {
        NeverHitsUpTo(n, initval, text, turns, m);
        ExecHere(n, initval, text, turns[..m]);
        HereIsOneId(Reached(n, initval, text, turns[..m]));
      }
    } else {
      var m :| 0 <= m < |turns| && Hits(Reached(n, initval, text, turns[..m]), turns[m]);
      var next := m + 1;
      HitBreaks(n, initval, text, turns, m);
      assert !OneId(Reached(n, initval, text, turns[..next]));
    }
  }

  lemma HereIsOneId(s: Sys)
    requires Here(s)
    ensures OneId(s)
  {
    forall q | 0 <= q < |s.procs| && s.procs[q].pc.Open() ensures Names(s, s.procs[q].pc.id) {
      assert ProcHere(s, q);
    }
  }

  lemma NeverHitsUpTo(n: nat, initval: nat, text: string, turns: seq<Turn>, m: nat)
    requires m <= |turns| && NeverHits(n, initval, text, turns)
    ensures NeverHits(n, initval, text, turns[..m])
  {
    hide Reached, Hits;
    forall k | 0 <= k < m ensures !Hits(Reached(n, initval, text, turns[..m][..k]), turns[..m][k]) {
      assert turns[..m][..k] == turns[..k] && turns[..m][k] == turns[k];
    }
  }

  lemma HitBreaks(n: nat, initval: nat, text: string, turns: seq<Turn>, m: nat)
    requires n < BIGCOUNT && m < |turns| && Hits(Reached(n, initval, text, turns[..m]), turns[m])
    ensures !OneId(Reached(n, initval, text, turns[..m + 1]))
  {
    hide Hits, OneId;
    ExecInv(n, initval, text, turns[..m]);
    HitLeavesOpener(Reached(n, initval, text, turns[..m]), turns[m]);
    assert turns[..m + 1][..m] == turns[..m];
  }

  // ----- what every run keeps, hits or not -----

  /** Inside the set with this id, live or removed. */
  function Inside(id: nat): Proc -> int {
    (pr: Proc) => if pr.pc.InCrit() && pr.pc.id == id then 1 else 0
  }

  /** Nobody gets inside but through the sem_wait on the live set. */
  lemma EntersLive(s: Sys, t: Turn, q: nat, id: nat)
    requires q < |s.procs|
    ensures |Take(s, t).procs| == |s.procs|
    ensures Names(Take(s, t), id) || Inside(id)(Take(s, t).procs[q]) <= Inside(id)(s.procs[q])
  {
    hide Run, Die;
    if t.Step? && q == t.p {
      RunsInside(s, q, id);
    } else if t.p < |s.procs| {
      assert t.Kill? && q == t.p ==> Die(s, q).procs[q].pc == Out by { DiesOut(s, q); }
    }
  }

  lemma DiesOut(s: Sys, p: nat)
    requires p < |s.procs|
    ensures Die(s, p).procs[p].pc == Out
  {
  }

  lemma RunsInside(s: Sys, p: nat, id: nat)
    requires p < |s.procs|
    ensures Names(Run(s, p), id) || Inside(id)(Run(s, p).procs[p]) <= Inside(id)(s.procs[p])
  {
    hide Semop, Format, ReadNumber, Overwrite;
    hide Quiet, MovesOnly, SameShape;
  }

  lemma LiveAtMostInitval(s: Sys, id: nat)
    requires Inv(s) && Names(s, id)
    ensures Sum(s.procs, Inside(id)) <= s.initval
  {
    forall q | 0 <= q < |s.procs| ensures Inside(id)(s.procs[q]) <= A0(s.procs[q]) {
      assert ProcOk(s, q);
    }
    SumAtMost(s.procs, s.procs, Inside(id), A0);
    AdjustmentsBounded(s);
  }

  /** At most initval processes are inside each set, also one that was removed under them. */
  lemma {:induction false} AtMostInitvalInEachSet(n: nat, initval: nat, text: string, turns: seq<Turn>, id: nat)
    requires n < BIGCOUNT
    ensures Sum(Reached(n, initval, text, turns).procs, Inside(id)) <= initval
  {
    hide Take, Inside, Inv;
    var s := Reached(n, initval, text, turns);
    ExecInv(n, initval, text, turns);
    if Names(s, id) {
      LiveAtMostInitval(s, id);
    } else if turns == [] {
      NobodyInside(n, initval, text, id);
    } else {
      var before, t := turns[..|turns| - 1], turns[|turns| - 1];
      AtMostInitvalInEachSet(n, initval, text, before, id);
      var b := Reached(n, initval, text, before);
      forall q | 0 <= q < n ensures Inside(id)(s.procs[q]) <= Inside(id)(b.procs[q]) {
        EntersLive(b, t, q, id);
      }
      SumAtMost(s.procs, b.procs, Inside(id), Inside(id));
    }
  }

  lemma NobodyInside(n: nat, initval: nat, text: string, id: nat)
    ensures Sum(Reached(n, initval, text, []).procs, Inside(id)) == 0
  {
    SumZero(Reached(n, initval, text, []).procs, Inside(id));
  }

  /** Used as a mutex: two processes between sem_wait and sem_signal are never inside one and the same set. */
  lemma OneInsideEachSet(n: nat, text: string, turns: seq<Turn>, p: nat, q: nat)
    requires p < q < n < BIGCOUNT
    ensures var s := Reached(n, 1, text, turns);
            s.procs[p].pc.InCrit() && s.procs[q].pc.InCrit() ==> s.procs[p].pc.id != s.procs[q].pc.id
  {
    hide Reached;
    var s := Reached(n, 1, text, turns);
    if s.procs[p].pc.InCrit() && s.procs[q].pc.InCrit() {
      var id := s.procs[p].pc.id;
      AtMostInitvalInEachSet(n, 1, text, turns, id);
      SumBounds(s.procs, Inside(id));
      assert Inside(id)(s.procs[p]) + Inside(id)(s.procs[q]) <= Sum(s.procs, Inside(id));
    }
  }

  // ----- exclusion across the sets -----

  /** Whoever is between sem_wait and sem_signal is inside the set the key names. */
  predicate InsideHere(s: Sys) {
    forall q :: 0 <= q < |s.procs| && s.procs[q].pc.InCrit() ==> Names(s, s.procs[q].pc.id)
  }

  /** A removal of a set whose semaphore itself is not back at its initial value. */
  predicate HitsInside(s: Sys, t: Turn) {
    && t.Step? && t.p < |s.procs| && s.procs[t.p].pc.Remove?
    && s.live.Some? && s.live.value.val.m0 != s.initval
  }

  predicate NeverHitsInside(n: nat, initval: nat, text: string, turns: seq<Turn>) {
    forall m :: 0 <= m < |turns| ==> !HitsInside(Reached(n, initval, text, turns[..m]), turns[m])
  }

  predicate AlwaysInsideHere(n: nat, initval: nat, text: string, turns: seq<Turn>) {
    forall m :: 0 <= m <= |turns| ==> InsideHere(Reached(n, initval, text, turns[..m]))
  }

  lemma HitTakesFrom(s: Sys, t: Turn) returns (q: nat)
    requires Inv(s) && HitsInside(s, t)
    ensures q < |s.procs| && q != t.p
    ensures s.procs[q].pc.InCrit() && Take(s, t).procs[q].pc == s.procs[q].pc
    ensures Take(s, t).live.None? && Take(s, t).procs[t.p].pc.Leaving?
  {
    assert ProcOk(s, t.p);
    Bounds(s, A0);
    q := SumWitness(s.procs, A0);
    assert ProcOk(s, q);
  }

  lemma StaysInsideHere(s: Sys, t: Turn)
    requires Inv(s) && InsideHere(s) && !HitsInside(s, t)
    ensures InsideHere(Take(s, t))
  {
    hide Inside, Take;
    var s' := Take(s, t);
    forall q | 0 <= q < |s'.procs| && s'.procs[q].pc.InCrit() ensures Names(s', s'.procs[q].pc.id) {
      var id := s'.procs[q].pc.id;
      EntersLive(s, t, q, id);
      if !Names(s', id) {
        WasInside(s, s', q, id);
        KeepsInside(s, t, q, id);
      }
    }
  }

  lemma WasInside(s: Sys, s': Sys, q: nat, id: nat)
    requires q < |s.procs| == |s'.procs| && s'.procs[q].pc.InCrit() && s'.procs[q].pc.id == id
    requires Inside(id)(s'.procs[q]) <= Inside(id)(s.procs[q])
    ensures s.procs[q].pc.InCrit() && s.procs[q].pc.id == id
  {
  }

  lemma KeepsInside(s: Sys, t: Turn, q: nat, id: nat)
    requires Inv(s) && !HitsInside(s, t) && q < |s.procs|
    requires s.procs[q].pc.InCrit() && s.procs[q].pc.id == id && Names(s, id)
    ensures Names(Take(s, t), id)
  {
    hide Take;
    if t.p < |s.procs| {
      if t.Step? && s.procs[t.p].pc.Remove? {
        assert ProcOk(s, q) && ProcOk(s, t.p);
        Bounds(s, A0);
      } else {
        NamesKept(s, t, id);
      }
    } else {
      assert Take(s, t) == s by { NoSuchProcess(s, t); }
    }
  }

  lemma NoSuchProcess(s: Sys, t: Turn)
    requires t.p >= |s.procs|
    ensures Take(s, t) == s
  {
  }

  lemma NeverHitInsideBefore(n: nat, initval: nat, text: string, turns: seq<Turn>)
    requires NeverHitsInside(n, initval, text, turns) && turns != []
    ensures NeverHitsInside(n, initval, text, turns[..|turns| - 1])
    ensures !HitsInside(Reached(n, initval, text, turns[..|turns| - 1]), turns[|turns| - 1])
  {
    hide Reached, HitsInside;
    var before := turns[..|turns| - 1];
    forall m | 0 <= m < |before| ensures !HitsInside(Reached(n, initval, text, before[..m]), before[m]) {
      assert before[..m] == turns[..m] && before[m] == turns[m];
    }
  }

  lemma {:induction false} ExecInside(n: nat, initval: nat, text: string, turns: seq<Turn>)
    requires n < BIGCOUNT && NeverHitsInside(n, initval, text, turns)
    ensures InsideHere(Reached(n, initval, text, turns))
  {
    hide HitsInside, NeverHitsInside, Take;
    if turns != [] {
      var before := turns[..|turns| - 1];
      NeverHitInsideBefore(n, initval, text, turns);
      ExecInside(n, initval, text, before);
      ExecInv(n, initval, text, before);
      StaysInsideHere(Reached(n, initval, text, before), turns[|turns| - 1]);
    }
  }

  /** All enter by sem_create; or some come by sem_open, but no removal hits anybody inside. */
  predicate Exclusive(n: nat, initval: nat, text: string, turns: seq<Turn>) {
    CreateOnly(turns) || NeverHitsInside(n, initval, text, turns)
  }

  /** Whoever is inside has the set open. */
  lemma InsideIsOpen(s: Sys, t: Turn)
    requires Inv(s) && HitsInside(s, t)
    ensures Hits(s, t)
  {
    var q := HitTakesFrom(s, t);
    assert ProcOk(s, q) && ProcOk(s, t.p);
    Bounds(s, A0);
    Bounds(s, A1);
    var w := SumWitness(s.procs, A0);
    assert ProcOk(s, w) && A1(s.procs[w]) == 1;
  }

  lemma ExclusiveInside(n: nat, initval: nat, text: string, turns: seq<Turn>)
    requires n < BIGCOUNT && Exclusive(n, initval, text, turns)
    ensures NeverHitsInside(n, initval, text, turns)
    ensures Inv(Reached(n, initval, text, turns)) && InsideHere(Reached(n, initval, text, turns))
  {
    hide HitsInside, Hits, InsideHere, Inv;
    if CreateOnly(turns) {
      CreateNeverHits(n, initval, text, turns);
      forall m | 0 <= m < |turns| ensures !HitsInside(Reached(n, initval, text, turns[..m]), turns[m]) {
        ExecInv(n, initval, text, turns[..m]);
        if HitsInside(Reached(n, initval, text, turns[..m]), turns[m]) {
          InsideIsOpen(Reached(n, initval, text, turns[..m]), turns[m]);
        }
      }
    }
    ExecInv(n, initval, text, turns);
    ExecInside(n, initval, text, turns);
  }

  /**
   Exactly the runs in which every IPC_RMID finds [0] at initval have everybody who is inside inside one set,
   the one the key names.
   */
  lemma InsideExactly(n: nat, initval: nat, text: string, turns: seq<Turn>)
    requires n < BIGCOUNT
    ensures AlwaysInsideHere(n, initval, text, turns) <==> NeverHitsInside(n, initval, text, turns)
  {
    hide Reached, HitsInside, InsideHere;
    if NeverHitsInside(n, initval, text, turns) {
      forall m | 0 <= m <= |turns| ensures InsideHere(Reached(n, initval, text, turns[..m])) {
        forall k | 0 <= k < m ensures !HitsInside(Reached(n, initval, text, turns[..m][..k]), turns[..m][k]) {
          assert turns[..m][..k] == turns[..k] && turns[..m][k] == turns[k];
        }
        ExecInside(n, initval, text, turns[..m]);
      }
    } else {
      var m :| 0 <= m < |turns| && HitsInside(Reached(n, initval, text, turns[..m]), turns[m]);
      var next := m + 1;
      HitShows(n, initval, text, turns, m);
      assert !InsideHere(Reached(n, initval, text, turns[..next]));
    }
  }

  lemma HitShows(n: nat, initval: nat, text: string, turns: seq<Turn>, m: nat)
    requires n < BIGCOUNT && m < |turns| && HitsInside(Reached(n, initval, text, turns[..m]), turns[m])
    ensures !InsideHere(Reached(n, initval, text, turns[..m + 1]))
  {
    hide HitsInside, Take;
    ExecInv(n, initval, text, turns[..m]);
    var q := HitTakesFrom(Reached(n, initval, text, turns[..m]), turns[m]);
    assert turns[..m + 1][..m] == turns[..m];
  }

  /** So in those runs the semaphore, used as a mutex, lets one process in, whoever came by sem_open. */
  lemma ExclusionUnlessHitInside(n: nat, text: string, turns: seq<Turn>, p: nat, q: nat)
    requires p < q < n < BIGCOUNT && NeverHitsInside(n, 1, text, turns)
    ensures var s := Reached(n, 1, text, turns);
            !(s.procs[p].pc.InCrit() && s.procs[q].pc.InCrit())
  {
    hide Reached, NeverHitsInside;
    ExecInside(n, 1, text, turns);
    OneInsideEachSet(n, text, turns, p, q);
  }

  // ----- deadlock -----

  /** Somebody is alive, and all who are sleep. */
  predicate Deadlocked(s: Sys) {
    && (exists p :: 0 <= p < |s.procs| && !s.procs[p].pc.Out?)
    && forall p :: 0 <= p < |s.procs| && !s.procs[p].pc.Out? ==> Sleeps(s, p)
  }

  /** An opener of a set whose creator has not run the SETVALs. */
  predicate OpensTooEarly(s: Sys, p: nat)
    requires p < |s.procs|
  {
    s.procs[p].pc.OpenOp? && Names(s, s.procs[p].pc.id) && !Initialised(s)
  }

  /** The one deadlock there is: all who live are openers of a set that nobody is left to set up. */
  lemma DeadlockExactly(n: nat, initval: nat, text: string, turns: seq<Turn>)
    requires n < BIGCOUNT && initval >= 1
    ensures var s := Reached(n, initval, text, turns);
            Deadlocked(s) <==>
              && (exists p :: 0 <= p < n && !s.procs[p].pc.Out?)
              && forall p :: 0 <= p < n && !s.procs[p].pc.Out? ==> OpensTooEarly(s, p)
  {
    ExecInv(n, initval, text, turns);
    var s := Reached(n, initval, text, turns);
    hide Reached, Inv, Sleeps, OpensTooEarly;
    forall p | 0 <= p < n && OpensTooEarly(s, p) ensures Sleeps(s, p) {
      TooEarlySleeps(s, p);
    }
    if Deadlocked(s) {
      forall p | 0 <= p < n && !s.procs[p].pc.Out? ensures OpensTooEarly(s, p) {
        AsleepTooEarly(s, p);
      }
    }
  }

  lemma TooEarlySleeps(s: Sys, p: nat)
    requires Inv(s) && p < |s.procs| && OpensTooEarly(s, p)
    ensures Sleeps(s, p)
  {
    assert ProcOk(s, p);
    OpOne(1, -1, s.live.value.val, s.procs[p].adj);
  }

  lemma AsleepTooEarly(s: Sys, p: nat)
    requires Inv(s) && s.initval >= 1 && Deadlocked(s) && p < |s.procs| && Sleeps(s, p)
    ensures OpensTooEarly(s, p)
  {
    if !OpensTooEarly(s, p) {
      var q := Awake(s, p);
    }
  }
}
