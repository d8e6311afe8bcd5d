/**
 Locking by files in a directory: link, exclusive open and mode-0 creat, around the loop on the
 sequence-number file, run by any number of processes with distinct pids.
 */
module LockFile {
  import opened Options
  import opened Numerals
  import opened SeqFile

  const LOCKFILE := "seqno.lock"
  const TEMPFILE := "temp.lock"

  datatype Kind = LinkLock | OpenLock | CreatLock {
    /** The file whose existence is the lock. */
    function Name(): string { if CreatLock? then TEMPFILE else LOCKFILE }
  }

  /** "LCK%d" of the process id. */
  function TempName(pid: nat): string { "LCK" + Decimal(pid) }

  datatype Pc =
    | MakeTemp(i: nat)            // pass i, link lock: creat of the temporary file
    | TryLock(i: nat)             // link, exclusive open or creat: retried while it fails
    | DropTemp(i: nat)            // link lock: unlink of the temporary name
    | Rd(i: nat)                  // rewind, read, scan, print
    | Wr(i: nat, seqno: int)      // add one, rewind, write
    | Unlock(i: nat)              // unlink of the lock file
    | Done                        // all passes done
    | Dead(held: bool, temp: bool)   // died, or stopped at an error; what it leaves behind
    | UnlinkFailed                // err_sys of an unlink
  {
    /** Between the successful lock and the unlink, or dead there. */
    predicate Holds() { DropTemp? || Rd? || Wr? || Unlock? || (Dead? && held) }

    /** The temporary name is in the directory. */
    predicate HasTemp(kind: Kind) {
      (kind.LinkLock? && (TryLock? || DropTemp?)) || (Dead? && temp)
    }
  }

  datatype Proc = Proc(pid: nat, pc: Pc, writes: nat)

  datatype Sys = Sys(
    kind: Kind,
    names: set<string>,       // the directory
    procs: seq<Proc>,
    file: string, start: string,   // the sequence-number file, now and at the start
    prints: seq<int>,         // standard outputs, merged in time order
    wrote: nat)

  function FirstPc(kind: Kind, i: nat): Pc { if kind.LinkLock? then MakeTemp(i) else TryLock(i) }

  function Begin(kind: Kind, pids: seq<nat>, text: string): Sys {
    Sys(kind, {"seqno"}, seq(|pids|, k requires 0 <= k < |pids| => Proc(pids[k], FirstPc(kind, 0), 0)),
        text, text, [], 0)
  }

  function Goto(s: Sys, p: nat, pc: Pc): Sys
    requires p < |s.procs|
  {
    s.(procs := s.procs[p := s.procs[p].(pc := pc)])
  }

  function Die(s: Sys, p: nat): Sys
    requires p < |s.procs|
  {
    var pc := s.procs[p].pc;
    if pc.Done? || pc.Dead? || pc.UnlinkFailed? then s
    else Goto(s, p, Dead(pc.Holds(), pc.HasTemp(s.kind)))
  }

  /** unlink: an error when the name is not there. */
  function Unlink(s: Sys, p: nat, name: string, next: Pc): Sys
    requires p < |s.procs|
  {
    if name in s.names then Goto(s.(names := s.names - {name}), p, next) else Goto(s, p, UnlinkFailed)
  }

  /** The next call of process p. */
  function Run(s: Sys, p: nat): Sys
    requires p < |s.procs|
  {
    var pr := s.procs[p];
    match pr.pc
    case MakeTemp(i) => Goto(s.(names := s.names + {TempName(pr.pid)}), p, TryLock(i))
    case TryLock(i) =>
      if s.kind.Name() in s.names then s       // EEXIST or EACCES: sleep and try again
      else if s.kind.LinkLock? && TempName(pr.pid) !in s.names then Die(s, p)   // any other error of link
      else Goto(s.(names := s.names + {s.kind.Name()}), p, if s.kind.LinkLock? then DropTemp(i) else Rd(i))
    case DropTemp(i) => Unlink(s, p, TempName(pr.pid), Rd(i))
    case Rd(i) =>
      (match ReadNumber(s.file)
       case None => Die(s, p)
       case Some(n) => Goto(s.(prints := s.prints + [n]), p, Wr(i, n)))
    case Wr(i, n) =>
      if n >= INT_MAX then Die(s, p)           // signed overflow: no meaning past here
      else s.(file := Overwrite(s.file, Format(n + 1)), wrote := s.wrote + 1,
              procs := s.procs[p := pr.(pc := Unlock(i), writes := pr.writes + 1)])
    case Unlock(i) => Unlink(s, p, s.kind.Name(), if i + 1 < ROUNDS then FirstPc(s.kind, i + 1) else Done)
    case Done => s
    case Dead(_, _) => s
    case UnlinkFailed => s
  }

  datatype Turn = Step(p: nat) | Kill(p: nat)

  function Take(s: Sys, t: Turn): Sys {
    if t.p >= |s.procs| then s
    else match t
      case Step(p) => Run(s, p)
      case Kill(p) => Die(s, p)
  }

  function Exec(s: Sys, turns: seq<Turn>): Sys {
    if turns == [] then s else Take(Exec(s, turns[..|turns| - 1]), turns[|turns| - 1])
  }

  // ----- names -----

  /** Different processes have different temporary names, and none is a lock file. */
  lemma TempNames(m: nat, n: nat)
    ensures TempName(m) == TempName(n) ==> m == n
    ensures TempName(m) != LOCKFILE
    ensures TempName(m) != TEMPFILE
    ensures TempName(m) != "seqno"
  {
    assert TempName(m)[0] == 'L';
    if TempName(m) == TempName(n) {
      var c, d := Decimal(m), Decimal(n);
      assert TempName(m)[3..] == c && TempName(n)[3..] == d;
      var x, y := DigitsOf(m, 10), DigitsOf(n, 10);
      forall k | 0 <= k < |c| ensures x[k] == y[k] {
        assert c[k] == DigitChar(x[k]) && d[k] == DigitChar(y[k]);
      }
      assert x == y;
      DigitsInjective(m, n, 10);
    }
  }

  // ----- what every run keeps -----

  predicate DistinctPids(pids: seq<nat>) {
    forall j, k :: 0 <= j < k < |pids| ==> pids[j] != pids[k]
  }

  predicate Distinct(s: Sys) {
    forall p, q :: 0 <= p < q < |s.procs| ==> s.procs[p].pid != s.procs[q].pid
  }

  predicate ProcOk(s: Sys, p: nat)
    requires p < |s.procs|
  {
    var pr := s.procs[p];
    && !pr.pc.UnlinkFailed?
    && (TempName(pr.pid) in s.names <==> pr.pc.HasTemp(s.kind))
    && (pr.pc.Holds() ==> s.kind.Name() in s.names)
    && (!s.kind.LinkLock? ==> !pr.pc.MakeTemp? && !pr.pc.DropTemp?)
    && (pr.pc.Wr? ==> pr.pc.seqno == First(s.start) + s.wrote && |s.prints| == s.wrote + 1)
    && (pr.pc.Rd? || pr.pc.DropTemp? || pr.pc.Unlock? ==> |s.prints| == s.wrote)
  }

  predicate Inv(s: Sys) {
    && Distinct(s)
    && (forall p ::
          0 <= p < |s.procs| ==> ProcOk(s, p))
    && (forall p, q ::
          0 <= p < q < |s.procs| ==> !(s.procs[p].pc.Holds() && s.procs[q].pc.Holds()))
    && (s.kind.Name() in s.names ==>
          exists p :: 0 <= p < |s.procs| && s.procs[p].pc.Holds())
    && InRange(s.start) && First(s.start) + s.wrote <= INT_MAX
    && s.file == FileText(s.start, s.wrote)
    && (ReadNumber(s.start).None? ==> s.prints == [])
    && (forall k :: 0 <= k < |s.prints| ==> s.prints[k] == First(s.start) + k)
    && s.wrote <= |s.prints| <= s.wrote + 1
    && (s.kind.Name() !in s.names ==> |s.prints| == s.wrote)
  }

  /** Death leaves the directory and the file as they are. */
  lemma DieInv(s: Sys, p: nat)
    requires Inv(s) && p < |s.procs|
    ensures Inv(Die(s, p))
  {
    hide Format, TempName, ReadNumber, Overwrite, FileText;
    var s' := Die(s, p);
    forall q | 0 <= q < |s'.procs| ensures ProcOk(s', q) {
      assert ProcOk(s, q);
    }
    if s.kind.Name() in s.names {
      var q :| 0 <= q < |s.procs| && s.procs[q].pc.Holds();
      assert s'.procs[q].pc.Holds();
    }
  }

  /** The calls that change the directory. */
  lemma RunNames(s: Sys, p: nat)
    requires Inv(s) && p < |s.procs|
    requires var pc := s.procs[p].pc; pc.MakeTemp? || pc.DropTemp? || pc.TryLock? || pc.Unlock?
    ensures Inv(Run(s, p))
  {
    hide Format, TempName, ReadNumber, Overwrite, FileText;
    var s', me := Run(s, p), s.procs[p].pid;
    assert ProcOk(s, p);
    TempNames(me, me);
    forall q | 0 <= q < |s'.procs| && q != p
      ensures ProcOk(s', q) && (s.kind.Name() !in s.names ==> !s.procs[q].pc.Holds())
    {
      assert ProcOk(s, q);
      TempNames(s.procs[q].pid, me);
    }
    if s.kind.Name() in s'.names {
      if s.procs[p].pc.TryLock? && s.kind.Name() !in s.names {
        assert s'.procs[p].pc.Holds();
      } else {
        var q :| 0 <= q < |s.procs| && s.procs[q].pc.Holds();
        assert s'.procs[q].pc.Holds();
      }
    }
  }

  /** The calls on the file. */
  lemma RunFile(s: Sys, p: nat)
    requires Inv(s) && p < |s.procs| && (s.procs[p].pc.Rd? || s.procs[p].pc.Wr?)
    ensures Inv(Run(s, p))
  {
    hide Format, TempName, ReadNumber, Overwrite;
    var s', n := Run(s, p), First(s.start) + s.wrote;
    assert ProcOk(s, p);
    PassesAddUp(s.start, s.wrote);
    if (s.procs[p].pc.Rd? && ReadNumber(s.start).None?) || (s.procs[p].pc.Wr? && n >= INT_MAX) {
      DieInv(s, p);
    } else {
      forall q | 0 <= q < |s'.procs| && q != p ensures ProcOk(s', q) {
        assert ProcOk(s, q) && !s.procs[q].pc.Holds();
      }
      assert s'.procs[p].pc.Holds();
    }
  }

  lemma TakeInv(s: Sys, t: Turn)
    requires Inv(s)
    ensures Inv(Take(s, t))
  {
    hide Format, TempName, Overwrite, ReadNumber, Inv;
    if t.p < |s.procs| {
      var p := t.p;
      if t.Kill? {
        DieInv(s, p);
      } else {
        match s.procs[p].pc {
          case MakeTemp(_) => RunNames(s, p);
          case DropTemp(_) => RunNames(s, p);
          case TryLock(_) => RunNames(s, p);
          case Unlock(_) => RunNames(s, p);
          case Rd(_) => RunFile(s, p);
          case Wr(_, _) => RunFile(s, p);
          case _ =>
        }
      }
    }
  }

  lemma BeginInv(kind: Kind, pids: seq<nat>, text: string)
    requires InRange(text) && DistinctPids(pids)
    ensures Inv(Begin(kind, pids, text))
  {
    hide Format, TempName;
    var s := Begin(kind, pids, text);
    assert |"seqno"| == 5 && |LOCKFILE| == 10 && |TEMPFILE| == 9;
    forall p | 0 <= p < |s.procs| ensures ProcOk(s, p) {
      assert s.procs[p] == Proc(pids[p], FirstPc(kind, 0), 0);
      TempNames(pids[p], pids[p]);
    }
    forall p, q | 0 <= p < q < |s.procs| ensures s.procs[p].pid != s.procs[q].pid && !s.procs[p].pc.Holds() {
      assert s.procs[p] == Proc(pids[p], FirstPc(kind, 0), 0) && s.procs[q].pid == pids[q];
    }
    assert s.kind.Name() !in s.names;
  }

  lemma {:induction false} ExecInv(kind: Kind, pids: seq<nat>, text: string, turns: seq<Turn>)
    requires InRange(text) && DistinctPids(pids)
    ensures Inv(Exec(Begin(kind, pids, text), turns))
  {
    hide Format, Inv, Begin;
    if turns == [] {
      BeginInv(kind, pids, text);
    } else {
      ExecInv(kind, pids, text, turns[..|turns| - 1]);
      TakeInv(Exec(Begin(kind, pids, text), turns[..|turns| - 1]), turns[|turns| - 1]);
    }
  }

  // ----- the claims -----

  /** The lock file exists exactly when one process is between its successful lock and its unlink. */
  lemma LockMeansOneHolder(kind: Kind, pids: seq<nat>, text: string, turns: seq<Turn>)
    requires InRange(text) && DistinctPids(pids)
    ensures kind.Name() == if kind.CreatLock? then "temp.lock" else "seqno.lock"
    ensures var s := Exec(Begin(kind, pids, text), turns);
            kind.Name() in s.names <==>
              exists p :: 0 <= p < |s.procs| && s.procs[p].pc.Holds()
                          && forall q :: 0 <= q < |s.procs| && q != p ==> !s.procs[q].pc.Holds()
  {
    hide Begin;
    ExecInv(kind, pids, text, turns);
    ExecShape(kind, pids, text, turns);
    OneHolder(Exec(Begin(kind, pids, text), turns));
  }

  lemma OneHolder(s: Sys)
    requires Inv(s)
    ensures s.kind.Name() in s.names <==>
              exists p :: 0 <= p < |s.procs| && s.procs[p].pc.Holds()
                          && forall q :: 0 <= q < |s.procs| && q != p ==> !s.procs[q].pc.Holds()
  {
    hide Format, TempName;
    if s.kind.Name() in s.names {
      var p :| 0 <= p < |s.procs| && s.procs[p].pc.Holds();
      forall q | 0 <= q < |s.procs| && q != p ensures !s.procs[q].pc.Holds() {}
    }
    forall p | 0 <= p < |s.procs| && s.procs[p].pc.Holds() ensures s.kind.Name() in s.names {
      assert ProcOk(s, p);
    }
  }

  lemma {:induction false} ExecShape(kind: Kind, pids: seq<nat>, text: string, turns: seq<Turn>)
    ensures var s := Exec(Begin(kind, pids, text), turns);
            && s.kind == kind && s.start == text && |s.procs| == |pids|
            && forall p :: 0 <= p < |pids| ==> s.procs[p].pid == pids[p]
  {
    hide Format, TempName, ReadNumber, Overwrite;
    if turns != [] {
      ExecShape(kind, pids, text, turns[..|turns| - 1]);
    }
  }

  /** No unlink ever fails: neither that of the temporary name nor that of the lock file. */
  lemma UnlinkNeverFails(kind: Kind, pids: seq<nat>, text: string, turns: seq<Turn>, p: nat)
    requires InRange(text) && DistinctPids(pids) && p < |pids|
    ensures var s := Exec(Begin(kind, pids, text), turns);
            |s.procs| == |pids| && !s.procs[p].pc.UnlinkFailed?
  {
    hide Begin;
    ExecInv(kind, pids, text, turns);
    ExecShape(kind, pids, text, turns);
    assert ProcOk(Exec(Begin(kind, pids, text), turns), p);
  }

  /** Nobody touches another process's temporary name, and it exists just between its creat and its unlink. */
  lemma TempNameIsPrivate(kind: Kind, pids: seq<nat>, text: string, turns: seq<Turn>, t: Turn, q: nat)
    requires InRange(text) && DistinctPids(pids) && q < |pids| && q != t.p
    ensures var s := Exec(Begin(kind, pids, text), turns);
            && |s.procs| == |pids|
            && (TempName(pids[q]) in s.names <==> s.procs[q].pc.HasTemp(kind))
            && (TempName(pids[q]) in Take(s, t).names <==> TempName(pids[q]) in s.names)
  {
    hide Begin, Format, TempName, Take, Inv;
    ExecInv(kind, pids, text, turns);
    ExecShape(kind, pids, text, turns);
    var s := Exec(Begin(kind, pids, text), turns);
    OwnTempName(s, q);
    OthersTempName(s, t, q);
  }

  lemma OwnTempName(s: Sys, q: nat)
    requires Inv(s) && q < |s.procs|
    ensures TempName(s.procs[q].pid) in s.names <==> s.procs[q].pc.HasTemp(s.kind)
  {
    assert ProcOk(s, q);
  }

  lemma OthersTempName(s: Sys, t: Turn, q: nat)
    requires Inv(s) && q < |s.procs| && q != t.p
    ensures TempName(s.procs[q].pid) in Take(s, t).names <==> TempName(s.procs[q].pid) in s.names
  {
    hide Format, TempName, ReadNumber, Overwrite, ProcOk;
    if t.p < |s.procs| {
      assert s.procs[q].pid != s.procs[t.p].pid;
      TempNames(s.procs[q].pid, s.procs[t.p].pid);
    }
  }

  /** The number on file is the first plus the completed writes; the printed ones are consecutive, with no gap. */
  lemma NoLostUpdates(kind: Kind, pids: seq<nat>, text: string, turns: seq<Turn>)
    requires InRange(text) && DistinctPids(pids)
    ensures var s := Exec(Begin(kind, pids, text), turns);
            && FileAfter(text, s.file, s.wrote) && s.wrote <= |s.prints| <= s.wrote + 1
            && forall k :: 0 <= k < |s.prints| ==> s.prints[k] == First(text) + k
  {
    hide Begin, Format;
    ExecInv(kind, pids, text, turns);
    ExecShape(kind, pids, text, turns);
    hide ReadNumber, FileAfter, Exec;
    PassesAddUp(text, Exec(Begin(kind, pids, text), turns).wrote);
  }

  function Writes(ps: seq<Proc>): nat {
    if ps == [] then 0 else Writes(ps[..|ps| - 1]) + ps[|ps| - 1].writes
  }

  lemma {:induction false} WritesUpdate(ps: seq<Proc>, i: nat, x: Proc)
    requires i < |ps|
    ensures Writes(ps[i := x]) == Writes(ps) - ps[i].writes + x.writes
  {
    var n := |ps| - 1;
    if i == n {
      assert ps[i := x][..n] == ps[..n];
    } else {
      assert ps[i := x][..n] == ps[..n][i := x];
      WritesUpdate(ps[..n], i, x);
    }
  }

  predicate Counted(pr: Proc) {
    match pr.pc
    case MakeTemp(i) => pr.writes == i < ROUNDS
    case TryLock(i) => pr.writes == i < ROUNDS
    case DropTemp(i) => pr.writes == i < ROUNDS
    case Rd(i) => pr.writes == i < ROUNDS
    case Wr(i, _) => pr.writes == i < ROUNDS
    case Unlock(i) => pr.writes == i + 1 <= ROUNDS
    case Done => pr.writes == ROUNDS
    case _ => true
  }

  predicate Books(s: Sys) {
    s.wrote == Writes(s.procs) && forall p :: 0 <= p < |s.procs| ==> Counted(s.procs[p])
  }

  lemma TakeBooks(s: Sys, t: Turn)
    requires Books(s)
    ensures Books(Take(s, t))
  {
    hide Format, TempName, ReadNumber, Overwrite;
    if t.p < |s.procs| {
      var s' := Take(s, t);
      assert Counted(s.procs[t.p]);
      assert s'.procs == s.procs[t.p := s'.procs[t.p]];
      WritesUpdate(s.procs, t.p, s'.procs[t.p]);
    }
  }

  lemma {:induction false} NoneWritten(ps: seq<Proc>)
    requires forall p :: 0 <= p < |ps| ==> ps[p].writes == 0
    ensures Writes(ps) == 0
  {
    if ps != [] {
      NoneWritten(ps[..|ps| - 1]);
    }
  }

  lemma {:induction false} ExecBooks(kind: Kind, pids: seq<nat>, text: string, turns: seq<Turn>)
    ensures Books(Exec(Begin(kind, pids, text), turns))
  {
    hide Format;
    if turns == [] {
      var ps := Begin(kind, pids, text).procs;
      forall p | 0 <= p < |ps| ensures ps[p].writes == 0 && Counted(ps[p]) {
        assert ps[p] == Proc(pids[p], FirstPc(kind, 0), 0);
      }
      NoneWritten(ps);
    } else {
      ExecBooks(kind, pids, text, turns[..|turns| - 1]);
      TakeBooks(Exec(Begin(kind, pids, text), turns[..|turns| - 1]), turns[|turns| - 1]);
    }
  }

  lemma {:induction false} AllDoneWrites(ps: seq<Proc>)
    requires forall p :: 0 <= p < |ps| ==> ps[p].pc.Done? && Counted(ps[p])
    ensures Writes(ps) == ROUNDS * |ps|
  {
    if ps != [] {
      AllDoneWrites(ps[..|ps| - 1]);
    }
  }

  /** When all processes are done the number has grown by 20 for each of them. */
  lemma AllDoneAddUp(kind: Kind, pids: seq<nat>, text: string, turns: seq<Turn>, s: Sys)
    requires InRange(text) && DistinctPids(pids)
    requires s == Exec(Begin(kind, pids, text), turns) && forall p :: 0 <= p < |s.procs| ==> s.procs[p].pc.Done?
    ensures FileAfter(text, s.file, 20 * |pids|)
  {
    hide Begin, Format;
    NoLostUpdates(kind, pids, text, turns);
    ExecBooks(kind, pids, text, turns);
    ExecShape(kind, pids, text, turns);
    AllDoneWrites(s.procs);
  }

  /** Unlike a semaphore with SEM_UNDO, a lock file outlives its dead holder: nobody ever gets in again. */
  lemma {:induction false} DeadHolderBlocks(s: Sys, p: nat, turns: seq<Turn>, q: nat)
    requires Inv(s) && p < |s.procs| && s.procs[p].pc.Dead? && s.procs[p].pc.held
    requires q < |s.procs| && q != p
    ensures var r := Exec(s, turns);
            && Inv(r) && |r.procs| == |s.procs| && r.procs[p] == s.procs[p] && !r.procs[q].pc.Holds()
            && r.wrote == s.wrote && r.prints == s.prints
  {
    hide Format, TempName, Overwrite, ReadNumber, Inv;
    if turns == [] {
      HeldByTheDead(s, p, q);
    } else {
      var before := turns[..|turns| - 1];
      DeadHolderBlocks(s, p, before, q);
      BlockedStep(Exec(s, before), p, turns[|turns| - 1]);
      HeldByTheDead(Exec(s, turns), p, q);
    }
  }

  lemma HeldByTheDead(s: Sys, p: nat, q: nat)
    requires Inv(s) && p < |s.procs| && s.procs[p].pc.Dead? && s.procs[p].pc.held
    requires q < |s.procs| && q != p
    ensures !s.procs[q].pc.Holds()
  {
  }

  lemma BlockedStep(s: Sys, p: nat, t: Turn)
    requires Inv(s) && p < |s.procs| && s.procs[p].pc.Dead? && s.procs[p].pc.held
    ensures var r := Take(s, t);
            && Inv(r)
            && |r.procs| == |s.procs|
            && r.procs[p] == s.procs[p]
            && r.wrote == s.wrote
            && r.prints == s.prints
  {
    hide Format, TempName, Overwrite, ReadNumber, Inv;
    TakeInv(s, t);
    if t.p < |s.procs| && t.p != p {
      HeldByTheDead(s, p, t.p);
    }
  }
}
