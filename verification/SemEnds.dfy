/**
 How processes of the semaphore library come to their end, and what they do when the set goes away under
 them: who has only got the id starts again, who sleeps on it dies.
 */
module SemEnds {
  import opened Options
  import opened SemKernel
  import opened SeqFile
  import opened SemLibrary
  import opened SemLibraryProofs
  import opened SemLibraryClaims
  import opened SemCalls

  /** The set is gone under a sleeper in sem_create, an opener, or somebody who has it open. */
  predicate LosesSet(s: Sys, pc: Pc) {
    ((pc.Lock? && pc.asleep) || pc.OpenOp? || pc.Wait? || pc.Signal? || pc.Close?) && !Names(s, pc.id)
  }

  /** The program's ends: its exit, a file without a number, an overflow, nothing to open, the set removed. */
  predicate Ends(s: Sys, pc: Pc) {
    || pc.Leaving?
    || (pc.Rd? && ReadNumber(s.file).None?)
    || (pc.Wr? && pc.seqno >= INT_MAX)
    || (pc.OpenGet? && s.live.None?)
    || LosesSet(s, pc)
  }

  /** In every reachable state a process's own call ends it exactly there. */
  lemma EndsExactly(n: nat, initval: nat, text: string, turns: seq<Turn>, p: nat)
    requires p < n < BIGCOUNT && !Reached(n, initval, text, turns).procs[p].pc.Out?
    ensures var s := Reached(n, initval, text, turns);
            Take(s, Step(p)).procs[p].pc.Out? <==> Ends(s, s.procs[p].pc)
  {
    ExecInv(n, initval, text, turns);
    EndsHere(Reached(n, initval, text, turns), p);
  }

  lemma EndsHere(s: Sys, p: nat)
    requires Inv(s) && p < |s.procs| && !s.procs[p].pc.Out?
    ensures Run(s, p).procs[p].pc.Out? <==> Ends(s, s.procs[p].pc)
  {
    hide Semop, Format, ReadNumber, Overwrite, Quiet, MovesOnly, SetOk;
    assert ProcOk(s, p);
  }

  /**
   Among users who all enter by sem_create, a turn ends a process exactly when it is a kill, its exit, a read
   that finds no number, an overflow, or the next call of one that sleeps in sem_create on a set that has
   been removed meanwhile.
   */
  lemma CreatorsEndExactly(n: nat, initval: nat, text: string, turns: seq<Turn>, t: Turn)
    requires t.p < n < BIGCOUNT && CreateOnly(turns) && !t.StartOpen?
    requires !Reached(n, initval, text, turns).procs[t.p].pc.Out?
    ensures var s := Reached(n, initval, text, turns);
            var pc := s.procs[t.p].pc;
            Take(s, t).procs[t.p].pc.Out? <==>
              || t.Kill? || pc.Leaving?
              || (pc.Rd? && ReadNumber(s.file).None?) || (pc.Wr? && pc.seqno >= INT_MAX)
              || (pc.Lock? && pc.asleep && !Names(s, pc.id))
  {
    hide Run, Inv;
    ExecInv(n, initval, text, turns);
    ExecTidy(n, initval, text, turns);
    var s := Reached(n, initval, text, turns);
    assert ProcTidy(s, t.p) && ProcHere(s, t.p);
    EndsHere(s, t.p);
  }

  /** The first semop of sem_create, whole: it gets the lock, sleeps, starts again with semget, or dies. */
  lemma LockCall(s: Sys, p: nat)
    requires p < |s.procs| && s.procs[p].pc.Lock?
    ensures var pc := s.procs[p].pc;
            Run(s, p).procs[p].pc ==
            if !Names(s, pc.id) then if pc.asleep then Out else Get
            else if s.live.value.val.m2 == 0 then Look(pc.id) else Lock(pc.id, true)
  {
    if Names(s, s.procs[p].pc.id) {
      OpLock(s.live.value.val, s.procs[p].adj);
    }
  }

  /** k turns of process p. */
  function Steps(p: nat, k: nat): (turns: seq<Turn>)
    ensures |turns| == k && forall j :: 0 <= j < k ==> turns[j] == Step(p)
  {
    seq(k, _ => Step(p))
  }

  lemma {:induction false} ExecSteps(s: Sys, turns: seq<Turn>, p: nat, k: nat)
    requires p < |Exec(s, turns).procs|
    ensures Exec(s, turns + Steps(p, k)) == Turns(Exec(s, turns), p, k)
  {
    hide Run, Die;
    if k == 0 {
      assert turns + Steps(p, 0) == turns;
    } else {
      ExecSteps(s, turns, p, k - 1);
      assert (turns + Steps(p, k))[..|turns| + k - 1] == turns + Steps(p, k - 1);
    }
  }

  lemma {:induction false} TurnsAfter(s: Sys, p: nat, k: nat)
    requires p < |s.procs|
    ensures Turns(s, p, k + 1) == Turns(Run(s, p), p, k)
  {
    if k > 0 {
      TurnsAfter(s, p, k - 1);
    }
  }

  /**
   The retry: a process that has the id of a set, and has not slept on it, when the set is removed, comes on
   its own turns to have another one open: a new one, or the one the key names by then and nobody has locked.
   */
  lemma RetryGetsIn(n: nat, initval: nat, text: string, turns: seq<Turn>, p: nat) returns (k: nat)
    requires p < n < BIGCOUNT
    requires var s := Reached(n, initval, text, turns);
             && s.procs[p].pc.Lock? && !s.procs[p].pc.asleep && !Names(s, s.procs[p].pc.id)
             && (s.live.Some? ==> s.live.value.val.m2 == 0)
    ensures var s, r := Reached(n, initval, text, turns), Reached(n, initval, text, turns + Steps(p, k));
            && r.procs[p].pc.Wait? && r.procs[p].pc.i == 0
            && Names(r, r.procs[p].pc.id) && r.procs[p].pc.id != s.procs[p].pc.id
            && r.procs[p].pc.id == if s.live.Some? then s.live.value.id else s.nextId
  {
    hide Turns, Created, CreatedAdj, Adjs, Run;
    ExecInv(n, initval, text, turns);
    var s := Reached(n, initval, text, turns);
    OldId(s, p);
    StartsAgain(s, p);
    TakeInv(s, Step(p));
    var v := if s.live.Some? then s.live.value.val else ZERO;
    k := if v.m1 == 0 then 7 else 5;
    CreateTurns(Run(s, p), p);
    TurnsAfter(s, p, k - 1);
    ExecSteps(Begin(n, initval, text), turns, p, k);
  }

  lemma OldId(s: Sys, p: nat)
    requires Inv(s) && p < |s.procs| && s.procs[p].pc.Lock?
    ensures s.procs[p].pc.id < s.nextId
  {
    assert ProcOk(s, p);
  }

  lemma StartsAgain(s: Sys, p: nat)
    requires p < |s.procs| && s.procs[p].pc.Lock? && !s.procs[p].pc.asleep && !Names(s, s.procs[p].pc.id)
    ensures Run(s, p) == Take(s, Step(p)) == Goto(s, p, Get)
  {
  }
}
