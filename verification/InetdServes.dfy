/**
 What the dispatcher is for: the service that select found ready is served, nobody ready is passed over, and
 an undisturbed round ends at a select that watches what it should.
 */
module InetdServes {
  import opened Inetd
  import opened InetdWindow

  // ----- the scan -----

  /** What select returned last. */
  function LastReturn(dgram: seq<bool>, turns: seq<Turn>): set<nat> {
    if turns == [] then {}
    else
      var before, t := turns[..|turns| - 1], turns[|turns| - 1];
      var s := Exec(Begin(dgram), before);
      if t.Return? && s.main.Select? && t.ready != {} && t.ready <= s.shared.armed then t.ready
      else LastReturn(dgram, before)
  }

  /** The bits in use are those of the services. */
  predicate InUse(s: Sys) {
    && |s.shared.pids| == |s.dgram|
    && (forall k :: k in s.shared.armed ==> k < |s.dgram|)
    && (forall k :: k in s.lost ==> k < |s.dgram|)
  }

  /** A scan on what select returned: all of it is still ahead, and there is something. */
  predicate Ahead(s: Sys, ready: set<nat>) {
    match s.main
    case Scan(i) => ready != {} && ready <= s.shared.armed && forall k :: k in ready ==> i <= k < |s.dgram|
    case Fork(i) => i < |s.dgram| && forall k :: k in ready ==> i <= k < |s.dgram|
    case _ => true
  }

  lemma StaysAhead(s: Sys, t: Turn, ready: set<nat>)
    requires InUse(s) && Ahead(s, ready)
    requires t.Return? ==> !(s.main.Select? && t.ready != {} && t.ready <= s.shared.armed)
    ensures InUse(Take(s, t)) && Ahead(Take(s, t), ready)
  {
    if t.Go? && s.main.Scan? {
      var k :| k in ready;
    }
  }

  lemma ReturnsAhead(s: Sys, ready: set<nat>)
    requires InUse(s) && s.main.Select? && ready != {} && ready <= s.shared.armed
    ensures InUse(Take(s, Return(ready))) && Ahead(Take(s, Return(ready)), ready)
  {
  }

  lemma {:induction false} ExecAhead(dgram: seq<bool>, turns: seq<Turn>)
    ensures var s := Exec(Begin(dgram), turns);
            s.dgram == dgram && InUse(s) && Ahead(s, LastReturn(dgram, turns))
  {
    hide Take, InUse, Ahead;
    ExecInv(dgram, turns);
    if turns == [] {
      assert InUse(Begin(dgram)) && Ahead(Begin(dgram), {}) by { BeginsAhead(dgram); }
    } else {
      var before, t := turns[..|turns| - 1], turns[|turns| - 1];
      var s := Exec(Begin(dgram), before);
      ExecAhead(dgram, before);
      if t.Return? && s.main.Select? && t.ready != {} && t.ready <= s.shared.armed {
        ReturnsAhead(s, t.ready);
      } else {
        StaysAhead(s, t, LastReturn(dgram, before));
      }
    }
  }

  lemma BeginsAhead(dgram: seq<bool>)
    ensures InUse(Begin(dgram)) && Ahead(Begin(dgram), {})
  {
  }

  /**
   In every run: the scan never passes over a service that select found ready, and never runs off the end
   without serving one; at a fork nothing below was ready.
   */
  lemma NobodyPassedOver(dgram: seq<bool>, turns: seq<Turn>, k: nat)
    ensures var s := Exec(Begin(dgram), turns);
            k in LastReturn(dgram, turns) ==>
              && (s.main.Scan? ==> s.main.i <= k < |dgram| && k in s.shared.armed)
              && (s.main.Fork? ==> s.main.i <= k < |dgram|)
    ensures var s := Exec(Begin(dgram), turns);
            s.main.Scan? ==> s.main.i < |dgram|
  {
    ExecAhead(dgram, turns);
    var s := Exec(Begin(dgram), turns);
    if s.main.Scan? {
      var j :| j in LastReturn(dgram, turns);
    }
  }

  /** The main loop alone goes from the return of select to the first service that is ready. */
  lemma {:induction false} ScanFinds(s: Sys, i: nat, n: nat)
    requires s.main == Scan(i) && i + n < |s.dgram| && i + n in s.shared.armed
    requires forall k :: i <= k < i + n ==> k !in s.shared.armed
    ensures Exec(s, Alone(n + 1)) == s.(main := Fork(i + n))
    decreases n
  {
    OneMore(s, n);
    if n == 0 {
      assert Alone(0) == [];
    } else {
      ScanFinds(Statement(s), i + 1, n - 1);
    }
  }

  lemma FirstReadyIsServed(dgram: seq<bool>, turns: seq<Turn>, ready: set<nat>, i: nat)
    requires var s := Exec(Begin(dgram), turns); s.main.Select? && ready <= s.shared.armed
    requires i in ready && forall k :: 0 <= k < i ==> k !in ready
    ensures i < |dgram|
    ensures Exec(Begin(dgram), turns + [Return(ready)] + Alone(i + 1)).main == Fork(i)
  {
    ExecAhead(dgram, turns);
    var s := Exec(Begin(dgram), turns);
    ReturnsAhead(s, ready);
    ExecOne(Begin(dgram), turns, Return(ready));
    ExecJoin(Begin(dgram), turns + [Return(ready)], Alone(i + 1));
    assert Take(s, Return(ready)) == s.(shared := s.shared.(armed := ready), main := Scan(0));
    hide Exec, Take, Ahead, InUse;
    ScanFinds(Take(s, Return(ready)), 0, i);
  }

  // ----- the rest of a round -----

  /** From the fork on, undisturbed: what the table, the counter and the children are to be at the next select. */
  predicate Rounding(s: Sys, pids: seq<int>, conn: int) {
    match s.main
    case Store(i, pid) => i < |s.shared.pids| && pids == s.shared.pids[i := pid] && conn == s.shared.conn + 1
    case Count => pids == s.shared.pids && conn == s.shared.conn + 1
    case Set(_) => pids == s.shared.pids && conn == s.shared.conn
    case Test => pids == s.shared.pids && conn == s.shared.conn && s.lost == {}
    case Check(_) => pids == s.shared.pids && conn == s.shared.conn && s.lost == {}
    case Clear(k) => pids == s.shared.pids && conn == s.shared.conn && s.lost == {}
                     && k < |pids| && pids[k] != 0
    case Select => pids == s.shared.pids && conn == s.shared.conn && s.lost == {}
    case _ => false
  }

  function ToGo(s: Sys): nat {
    var n := |s.dgram|;
    match s.main
    case Store(_, _) => 3 * n + 8
    case Count => 3 * n + 7
    case Set(j) => 2 * n + 5 + if j < n then n - j else 0
    case Test => 2 * n + 4
    case Check(k) => if k < n then 2 * (n - k) + 2 else 1
    case Clear(k) => if k < n then 2 * (n - k) + 1 else 2
    case _ => 0
  }

  lemma RoundStep(s: Sys, pids: seq<int>, conn: int)
    requires Inv(s) && InUse(s) && Rounding(s, pids, conn) && !s.main.Select?
    ensures var r := Statement(s);
            InUse(r) && Rounding(r, pids, conn) && ToGo(r) < ToGo(s) && r.kids == s.kids && r.dgram == s.dgram
  {
    hide KidsOk, CountOk;
    if s.main.Set? && s.main.j >= |s.dgram| {
      assert s.lost == {};
    }
  }

  lemma RoundEnds(s: Sys, pids: seq<int>, conn: int)
    requires Inv(s) && InUse(s) && Rounding(s, pids, conn) && s.main.Select?
    ensures |pids| == |s.dgram| && s == Sys(s.dgram, Shared(Wanted(s.dgram, pids), pids, conn), Select, s.kids, {})
  {
    forall i: nat | i < |s.dgram| ensures i in s.shared.armed <==> i in Wanted(s.dgram, pids) {
      assert Agrees(s, i);
    }
    assert s.shared.armed == Wanted(s.dgram, pids);
  }

  lemma {:induction false} RoundAlone(s: Sys, pids: seq<int>, conn: int) returns (m: nat)
    requires Inv(s) && InUse(s) && Rounding(s, pids, conn)
    ensures |pids| == |s.dgram|
    ensures Exec(s, Alone(m)) == Sys(s.dgram, Shared(Wanted(s.dgram, pids), pids, conn), Select, s.kids, {})
    decreases ToGo(s)
  {
    hide Inv, InUse, Rounding, ToGo, Statement;
    if s.main.Select? {
      m := 0;
      assert Alone(0) == [];
      RoundEnds(s, pids, conn);
    } else {
      StatementInv(s);
      RoundStep(s, pids, conn);
      var k := RoundAlone(Statement(s), pids, conn);
      m := k + 1;
      OneMore(s, k);
    }
  }

  /**
   A service about to be forked gets its child, and the main loop alone then comes back to select: a datagram
   child is on record and counted and its socket alone is taken out; a stream service goes on being watched.
   */
  lemma ServiceIsServed(dgram: seq<bool>, turns: seq<Turn>, pid: nat) returns (m: nat)
    requires var s := Exec(Begin(dgram), turns); s.main.Fork? && pid > 0 && pid !in s.kids
    ensures var s := Exec(Begin(dgram), turns);
            var i := s.main.i;
            && |s.shared.pids| == |dgram| && i < |dgram|
            && var pids := if dgram[i] then s.shared.pids[i := pid] else s.shared.pids;
            Exec(Begin(dgram), turns + [Forked(pid)] + Alone(m))
            == Sys(dgram, Shared(Wanted(dgram, pids), pids, s.shared.conn + if dgram[i] then 1 else 0), Select,
                   s.kids[pid := Kid(i, false)], {})
  {
    hide Inv, Rounding;
    ExecInv(dgram, turns);
    ExecAhead(dgram, turns);
    var s := Exec(Begin(dgram), turns);
    var r := Take(s, Forked(pid));
    ExecOne(Begin(dgram), turns, Forked(pid));
    TakeInv(s, Forked(pid));
    var pids := if dgram[s.main.i] then s.shared.pids[s.main.i := pid] else s.shared.pids;
    ForkRounds(s, pid);
    m := RoundAlone(r, pids, s.shared.conn + if dgram[s.main.i] then 1 else 0);
    ExecJoin(Begin(dgram), turns + [Forked(pid)], Alone(m));
  }

  lemma ForkRounds(s: Sys, pid: nat)
    requires InUse(s) && s.main.Fork? && s.main.i < |s.dgram| && pid > 0 && pid !in s.kids
    ensures var r, i := Take(s, Forked(pid)), s.main.i;
            && InUse(r) && r.dgram == s.dgram && r.kids == s.kids[pid := Kid(i, false)]
            && Rounding(r, if s.dgram[i] then s.shared.pids[i := pid] else s.shared.pids,
                        s.shared.conn + if s.dgram[i] then 1 else 0)
  {
  }

  /** Only a failing accept or fork ends the dispatcher, and only the return of select starts a scan. */
  lemma ExitsExactly(s: Sys, t: Turn)
    ensures !s.main.Down? ==> (Take(s, t).main.Down? <==> s.main.Fork? && t.Go?)
    ensures s.main.Down? ==> Take(s, t).main.Down?
    ensures s.main.Select? && !t.Return? ==> Take(s, t).main.Select?
  {
  }

  /** The clearing loop is entered exactly when a datagram service has a child on record. */
  lemma TestByChildren(dgram: seq<bool>, turns: seq<Turn>)
    ensures var s := Exec(Begin(dgram), turns);
            |s.shared.pids| == |dgram| &&
            (s.main.Test? ==>
               (Take(s, Go).main.Check? <==> exists i :: 0 <= i < |dgram| && dgram[i] && s.shared.pids[i] != 0)
               && (Take(s, Go).main.Check? || Take(s, Go).main.Select?))
  {
    ExecInv(dgram, turns);
    var s := Exec(Begin(dgram), turns);
    BusyZero(dgram, s.shared.pids);
  }

  /**
   A child that ends is reaped at the signal, wherever the main loop is: its service, the first with that pid
   on record, is watched again and has no child; a stream service's child leaves the table as it is.
   */
  lemma ChildIsReaped(dgram: seq<bool>, turns: seq<Turn>, pid: nat, i: nat)
    requires pid in Exec(Begin(dgram), turns).kids
    ensures var s, r := Exec(Begin(dgram), turns), Exec(Begin(dgram), turns + [Exits(pid)] + [Signal(pid)]);
            && r.kids == s.kids - {pid} && r.main == s.main && |s.shared.pids| == |dgram|
            && ((forall k :: 0 <= k < |dgram| ==> s.shared.pids[k] != pid) ==> r.shared == s.shared)
            && (i < |dgram| && s.shared.pids[i] == pid && (forall k :: 0 <= k < i ==> s.shared.pids[k] != pid) ==>
                  r.shared == Shared(s.shared.armed + {i}, s.shared.pids[i := 0], s.shared.conn - 1))
  {
    hide Inv;
    ExecInv(dgram, turns);
    var s := Exec(Begin(dgram), turns);
    ExecOne(Begin(dgram), turns, Exits(pid));
    ExecOne(Begin(dgram), turns + [Exits(pid)], Signal(pid));
    assert s.kids[pid := s.kids[pid].(zombie := true)] - {pid} == s.kids - {pid};
    assert |s.shared.pids| == |dgram| by { TableSize(s); }
  }

  lemma TableSize(s: Sys)
    requires Inv(s)
    ensures |s.shared.pids| == |s.dgram|
  {
  }
}
