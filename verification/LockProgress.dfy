/** The lock files at work: who finds the lock taken waits for it, nobody dies of it, and all get through. */
module LockProgress {
  import opened Options
  import opened SeqFile
  import opened LockFile

  predicate Alive(pr: Proc) { !pr.pc.Done? && !pr.pc.Dead? && !pr.pc.UnlinkFailed? }

  /** A process that died holding the lock. */
  predicate DeadHolder(s: Sys) { exists p :: 0 <= p < |s.procs| && s.procs[p].pc.Dead? && s.procs[p].pc.held }

  // ----- one turn -----

  /** Finding the lock there changes nothing; the first turn that finds it gone gets it. */
  lemma WaitsForLock(kind: Kind, pids: seq<nat>, text: string, turns: seq<Turn>, p: nat)
    requires InRange(text) && DistinctPids(pids) && p < |pids|
    requires var s := Exec(Begin(kind, pids, text), turns); p < |s.procs| && s.procs[p].pc.TryLock?
    ensures var s := Exec(Begin(kind, pids, text), turns);
            var r := Run(s, p);
            if kind.Name() in s.names then r == s
            else |r.procs| == |s.procs| && r.procs[p].pc.Holds() && kind.Name() in r.names
  {
    hide Begin;
    ExecInv(kind, pids, text, turns);
    ExecShape(kind, pids, text, turns);
    TriesLock(Exec(Begin(kind, pids, text), turns), p);
  }

  lemma TriesLock(s: Sys, p: nat)
    requires Inv(s) && p < |s.procs| && s.procs[p].pc.TryLock?
    ensures if s.kind.Name() in s.names then Run(s, p) == s
            else |Run(s, p).procs| == |s.procs| && Run(s, p).procs[p].pc.Holds() && s.kind.Name() in Run(s, p).names
  {
    hide Format, TempName, ReadNumber, Overwrite, FileText;
    assert ProcOk(s, p);
  }

  /** A process's own call ends it exactly at a file without a number, and at an overflow. */
  lemma DiesExactly(kind: Kind, pids: seq<nat>, text: string, turns: seq<Turn>, p: nat)
    requires InRange(text) && DistinctPids(pids) && p < |pids|
    requires var s := Exec(Begin(kind, pids, text), turns); p < |s.procs| && Alive(s.procs[p])
    ensures var s, r := Exec(Begin(kind, pids, text), turns), Exec(Begin(kind, pids, text), turns + [Step(p)]);
            |r.procs| == |s.procs| &&
            (!Alive(r.procs[p]) <==>
               || (s.procs[p].pc.Rd? && ReadNumber(text).None?)
               || (s.procs[p].pc.Wr? && First(text) + s.wrote == INT_MAX)
               || s.procs[p].pc == Unlock(19))
  {
    hide Begin;
    ExecInv(kind, pids, text, turns);
    ExecBooks(kind, pids, text, turns);
    ExecShape(kind, pids, text, turns);
    assert (turns + [Step(p)])[..|turns|] == turns;
    EndsHere(Exec(Begin(kind, pids, text), turns), p);
  }

  lemma EndsHere(s: Sys, p: nat)
    requires Inv(s) && Books(s) && p < |s.procs| && Alive(s.procs[p])
    ensures |Run(s, p).procs| == |s.procs| &&
            (!Alive(Run(s, p).procs[p]) <==>
               || (s.procs[p].pc.Rd? && ReadNumber(s.start).None?)
               || (s.procs[p].pc.Wr? && First(s.start) + s.wrote == INT_MAX)
               || s.procs[p].pc == Unlock(19))
  {
    hide Format, TempName, ReadNumber, Overwrite, FileText, Writes;
    assert ProcOk(s, p) && Counted(s.procs[p]);
    PassesAddUp(s.start, s.wrote);
  }

  /** creat of a temporary name that is there already, left by an earlier process, goes through as well. */
  lemma CreatGoesThrough(s: Sys, p: nat)
    requires p < |s.procs| && s.procs[p].pc.MakeTemp?
    ensures var r := Run(s, p);
            && r.names == s.names + {"LCK" + Decimal(s.procs[p].pid)}
            && r.procs == s.procs[p := s.procs[p].(pc := TryLock(s.procs[p].pc.i))]
            && r.file == s.file
  {
  }

  /** link without its temporary file, when no lock file is there, is the program's end; waiting does not help. */
  lemma LinkNeedsItsFile(s: Sys, p: nat)
    requires p < |s.procs| && s.kind.LinkLock? && s.procs[p].pc.TryLock?
    requires TempName(s.procs[p].pid) !in s.names && "seqno.lock" !in s.names
    ensures Run(s, p).procs == s.procs[p := s.procs[p].(pc := Dead(false, true))] && Run(s, p).names == s.names
  {
  }

  /** A kill takes effect wherever a process is, and leaves directory, file and the others as they are. */
  lemma KillStops(s: Sys, p: nat)
    requires p < |s.procs| && Alive(s.procs[p])
    ensures var pc := s.procs[p].pc;
            Take(s, Kill(p)) ==
            s.(procs := s.procs[p := s.procs[p].(pc := Dead(pc.Holds(), pc.HasTemp(s.kind)))])
  {
  }

  // ----- the measure -----

  /** Calls a process has left, not counting those that find the lock taken. */
  function Left(pr: Proc): int {
    match pr.pc
    case MakeTemp(i) => 6 * (ROUNDS - i)
    case TryLock(i) => 6 * (ROUNDS - i) - 1
    case DropTemp(i) => 6 * (ROUNDS - i) - 2
    case Rd(i) => 6 * (ROUNDS - i) - 3
    case Wr(i, _) => 6 * (ROUNDS - i) - 4
    case Unlock(i) => 6 * (ROUNDS - i) - 5
    case _ => 0
  }

  function Work(ps: seq<Proc>): int {
    if ps == [] then 0 else Work(ps[..|ps| - 1]) + Left(ps[|ps| - 1])
  }

  lemma {:induction false} WorkUpdate(ps: seq<Proc>, i: nat, x: Proc)
    requires i < |ps|
    ensures Work(ps[i := x]) == Work(ps) - Left(ps[i]) + Left(x)
  {
    var n := |ps| - 1;
    if i == n {
      assert ps[i := x][..n] == ps[..n];
    } else {
      assert ps[i := x][..n] == ps[..n][i := x];
      WorkUpdate(ps[..n], i, x);
    }
  }

  lemma {:induction false} WorkNatural(ps: seq<Proc>)
    requires forall p :: 0 <= p < |ps| ==> Counted(ps[p])
    ensures Work(ps) >= 0
  {
    if ps != [] {
      WorkNatural(ps[..|ps| - 1]);
      assert Counted(ps[|ps| - 1]);
    }
  }

  /** Every call but a vain try brings the work down. */
  lemma CallWorks(s: Sys, p: nat)
    requires Inv(s) && Books(s) && p < |s.procs| && Alive(s.procs[p])
    requires s.procs[p].pc.TryLock? ==> s.kind.Name() !in s.names
    ensures |Run(s, p).procs| == |s.procs| && Work(Run(s, p).procs) < Work(s.procs)
  {
    hide Format, TempName, ReadNumber, Overwrite, FileText, Writes;
    assert Counted(s.procs[p]) && ProcOk(s, p);
    var r := Run(s, p);
    assert r.procs == s.procs[p := r.procs[p]];
    WorkUpdate(s.procs, p, r.procs[p]);
  }

  /** The one to make the next move: the holder, or anybody if there is none. */
  lemma NextMover(s: Sys, p: nat) returns (q: nat)
    requires Inv(s) && p < |s.procs| && Alive(s.procs[p]) && !DeadHolder(s)
    ensures q < |s.procs| && Alive(s.procs[q]) && (s.procs[q].pc.TryLock? ==> s.kind.Name() !in s.names)
  {
    hide Format, TempName, ReadNumber, FileText;
    if s.kind.Name() in s.names {
      q :| 0 <= q < |s.procs| && s.procs[q].pc.Holds();
    } else {
      q := p;
    }
  }

  /**
   While somebody has passes to make and no holder has died, some process can make a turn that lowers the
   measure, and no turn of anybody raises it.
   */
  lemma SomebodyMoves(kind: Kind, pids: seq<nat>, text: string, turns: seq<Turn>, p: nat) returns (q: nat)
    requires InRange(text) && DistinctPids(pids)
    requires var s := Exec(Begin(kind, pids, text), turns); p < |s.procs| && Alive(s.procs[p]) && !DeadHolder(s)
    ensures var s := Exec(Begin(kind, pids, text), turns);
            q < |s.procs| && 0 <= Work(Take(s, Step(q)).procs) < Work(s.procs)
  {
    hide Begin, Take, Inv, Books, DeadHolder, Alive;
    ExecInv(kind, pids, text, turns);
    ExecBooks(kind, pids, text, turns);
    var s := Exec(Begin(kind, pids, text), turns);
    q := NextMover(s, p);
    MoverWorks(s, q);
  }

  lemma MoverWorks(s: Sys, q: nat)
    requires Inv(s) && Books(s) && q < |s.procs| && Alive(s.procs[q])
    requires s.procs[q].pc.TryLock? ==> s.kind.Name() !in s.names
    ensures Take(s, Step(q)) == Run(s, q) && 0 <= Work(Run(s, q).procs) < Work(s.procs)
    ensures Inv(Run(s, q)) && Books(Run(s, q))
  {
    hide Inv, Run, Counted;
    CallWorks(s, q);
    TakeInv(s, Step(q));
    TakeBooks(s, Step(q));
    WorkNatural(Run(s, q).procs);
  }

  // ----- nobody dies -----

  predicate NoKill(turns: seq<Turn>) { forall k :: 0 <= k < |turns| ==> turns[k].Step? }

  /** The file has a number, and room for all the passes of everybody. */
  predicate Room(s: Sys) { Readable(s.start) && First(s.start) + ROUNDS * |s.procs| <= INT_MAX }

  predicate Healthy(s: Sys) {
    Inv(s) && Books(s) && Room(s) && forall p :: 0 <= p < |s.procs| ==> !s.procs[p].pc.Dead?
  }

  lemma {:induction false} WritesBelow(ps: seq<Proc>, p: nat)
    requires p < |ps| && ps[p].writes < ROUNDS
    requires forall q :: 0 <= q < |ps| ==> ps[q].writes <= ROUNDS
    ensures Writes(ps) < ROUNDS * |ps|
  {
    var n := |ps| - 1;
    if p == n {
      WritesAtMost(ps[..n]);
    } else {
      WritesBelow(ps[..n], p);
    }
  }

  lemma {:induction false} WritesAtMost(ps: seq<Proc>)
    requires forall q :: 0 <= q < |ps| ==> ps[q].writes <= ROUNDS
    ensures Writes(ps) <= ROUNDS * |ps|
  {
    if ps != [] {
      WritesAtMost(ps[..|ps| - 1]);
    }
  }

  lemma StepHealthy(s: Sys, p: nat)
    requires Healthy(s)
    ensures Healthy(Take(s, Step(p)))
  {
    hide Inv, Books, Run, Readable, First;
    TakeInv(s, Step(p));
    TakeBooks(s, Step(p));
    if p < |s.procs| {
      StepLives(s, p);
    }
  }

  lemma StepLives(s: Sys, p: nat)
    requires Healthy(s) && p < |s.procs|
    ensures var r := Run(s, p);
            && |r.procs| == |s.procs| && r.start == s.start
            && forall q :: 0 <= q < |r.procs| ==> !r.procs[q].pc.Dead?
  {
    hide Format, TempName, ReadNumber, Overwrite, FileText, Writes;
    assert ProcOk(s, p) && Counted(s.procs[p]);
    PassesAddUp(s.start, s.wrote);
    if s.procs[p].pc.Wr? {
      forall q | 0 <= q < |s.procs| ensures s.procs[q].writes <= ROUNDS {
        assert Counted(s.procs[q]) && ProcOk(s, q);
      }
      WritesBelow(s.procs, p);
    }
  }

  lemma {:induction false} StaysHealthy(s: Sys, turns: seq<Turn>)
    requires Healthy(s) && NoKill(turns)
    ensures Healthy(Exec(s, turns))
  {
    hide Healthy, Take;
    if turns != [] {
      StaysHealthy(s, turns[..|turns| - 1]);
      StepHealthy(Exec(s, turns[..|turns| - 1]), turns[|turns| - 1].p);
    }
  }

  lemma BeginHealthy(kind: Kind, pids: seq<nat>, text: string)
    requires Readable(text) && DistinctPids(pids) && First(text) + 20 * |pids| <= INT_MAX
    ensures Healthy(Begin(kind, pids, text))
  {
    hide Inv, Books, ReadNumber;
    BeginInv(kind, pids, text);
    ExecBooks(kind, pids, text, []);
    var s := Begin(kind, pids, text);
    forall p | 0 <= p < |s.procs| ensures !s.procs[p].pc.Dead? {
      assert s.procs[p] == Proc(pids[p], FirstPc(kind, 0), 0);
    }
  }

  /** From a readable file with room for all passes, nobody ever stops at an error: only kills make processes die. */
  lemma NobodyDies(kind: Kind, pids: seq<nat>, text: string, turns: seq<Turn>, p: nat)
    requires Readable(text) && DistinctPids(pids) && First(text) + 20 * |pids| <= INT_MAX
    requires NoKill(turns) && p < |pids|
    ensures var s := Exec(Begin(kind, pids, text), turns);
            |s.procs| == |pids| && !s.procs[p].pc.Dead? && !s.procs[p].pc.UnlinkFailed?
  {
    hide Begin, Inv, Books;
    BeginHealthy(kind, pids, text);
    StaysHealthy(Begin(kind, pids, text), turns);
    UnlinkNeverFails(kind, pids, text, turns, p);
  }

  // ----- everybody gets through -----

  lemma {:induction false} ExecJoin(s: Sys, a: seq<Turn>, b: seq<Turn>)
    ensures Exec(s, a + b) == Exec(Exec(s, a), b)
  {
    if b == [] {
      assert a + b == a;
    } else {
      ExecJoin(s, a, b[..|b| - 1]);
      assert (a + b)[..|a + b| - 1] == a + b[..|b| - 1];
    }
  }

  lemma {:induction false} Finishes(s: Sys) returns (more: seq<Turn>)
    requires Healthy(s)
    ensures NoKill(more) && Healthy(Exec(s, more))
    ensures var r := Exec(s, more); forall p :: 0 <= p < |r.procs| ==> r.procs[p].pc.Done?
    decreases Work(s.procs)
  {
    hide Take, Inv, Room, Counted;
    more := [];
    if p :| 0 <= p < |s.procs| && !s.procs[p].pc.Done? {
      IsAlive(s, p);
      var q := NextMover(s, p);
      MoverWorks(s, q);
      StepHealthy(s, q);
      assert Work(s.procs) >= 0;
      var rest := Finishes(Take(s, Step(q)));
      more := [Step(q)] + rest;
      ExecJoin(s, [Step(q)], rest);
      assert [Step(q)][..0] == [] && Exec(s, []) == s;
      assert Exec(s, [Step(q)]) == Take(s, Step(q));
    }
  }

  lemma IsAlive(s: Sys, p: nat)
    requires Healthy(s) && p < |s.procs| && !s.procs[p].pc.Done?
    ensures Alive(s.procs[p]) && !DeadHolder(s)
  {
    assert ProcOk(s, p);
  }

  /** So from every point of a run without kills all come to their end, and the number has grown by ROUNDS each. */
  lemma AllComeToDone(kind: Kind, pids: seq<nat>, text: string, turns: seq<Turn>) returns (more: seq<Turn>)
    requires Readable(text) && DistinctPids(pids) && First(text) + 20 * |pids| <= INT_MAX && NoKill(turns)
    ensures NoKill(more)
    ensures var s := Exec(Begin(kind, pids, text), turns + more);
            && |s.procs| == |pids| && (forall p :: 0 <= p < |s.procs| ==> s.procs[p].pc.Done?)
            && FileAfter(text, s.file, 20 * |pids|)
  {
    hide Begin, Healthy, FileAfter;
    var b := Begin(kind, pids, text);
    BeginHealthy(kind, pids, text);
    StaysHealthy(b, turns);
    more := Finishes(Exec(b, turns));
    ExecJoin(b, turns, more);
    ExecShape(kind, pids, text, turns + more);
    AllDoneAddUp(kind, pids, text, turns + more, Exec(b, turns + more));
  }
}
