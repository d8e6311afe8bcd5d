/**
 The inetd dispatcher: the main loop's select, dispatch and re-arm statements, and the SIGCHLD handler
 that may run between any two of them on the same socket set, counter and pid table.
 A socket is named by the index of its service.
 */
module Inetd {

  /** First service whose stored pid is the reaped one; the number of services when there is none. */
  function Match(pids: seq<int>, pid: int): (i: nat)
    ensures i <= |pids|
    ensures i < |pids| ==> pids[i] == pid
    ensures forall k :: 0 <= k < i ==> pids[k] != pid
  {
    if pids == [] then 0
    else if pids[0] == pid then 0
    else
      var j := Match(pids[1..], pid);
      assert forall k :: 1 <= k < 1 + j ==> pids[k] == pids[1..][k - 1];
      1 + j
  }

  /** The three shared variables as the handler leaves them after reaping a child. */
  datatype Shared = Shared(armed: set<nat>, pids: seq<int>, conn: int) {
    function Reap(pid: int): Shared {
      var i := Match(pids, pid);
      if i == |pids| then this else Shared(armed + {i}, pids[i := 0], conn - 1)
    }
  }

  /** Select should watch every stream socket, and the datagram sockets without a child on record. */
  predicate Wants(dgram: seq<bool>, pids: seq<int>, i: nat)
    requires |dgram| == |pids|
  {
    i < |dgram| && (!dgram[i] || pids[i] == 0)
  }

  function Wanted(dgram: seq<bool>, pids: seq<int>): set<nat>
    requires |dgram| == |pids|
  {
    set i: nat | i < |dgram| && Wants(dgram, pids, i)
  }

  /** Datagram services with a child on record. */
  function Busy(dgram: seq<bool>, pids: seq<int>): nat
    requires |dgram| == |pids|
  {
    if dgram == [] then 0
    else Busy(dgram[..|dgram| - 1], pids[..|pids| - 1])
         + if dgram[|dgram| - 1] && pids[|pids| - 1] != 0 then 1 else 0
  }

  lemma {:induction false} BusyUpdate(dgram: seq<bool>, pids: seq<int>, i: nat, x: int)
    requires |dgram| == |pids| && i < |pids| && dgram[i]
    ensures Busy(dgram, pids[i := x]) ==
            Busy(dgram, pids) - (if pids[i] != 0 then 1 else 0) + (if x != 0 then 1 else 0)
  {
    var n := |pids| - 1;
    if i < n {
      assert pids[i := x][..n] == pids[..n][i := x];
      BusyUpdate(dgram[..n], pids[..n], i, x);
    } else {
      assert pids[i := x][..n] == pids[..n];
    }
  }

  lemma {:induction false} BusyZero(dgram: seq<bool>, pids: seq<int>)
    requires |dgram| == |pids|
    ensures Busy(dgram, pids) == 0 <==> forall i :: 0 <= i < |pids| && dgram[i] ==> pids[i] == 0
  {
    if dgram != [] {
      var n := |pids| - 1;
      BusyZero(dgram[..n], pids[..n]);
      assert forall i :: 0 <= i < n ==> dgram[..n][i] == dgram[i] && pids[..n][i] == pids[i];
    }
  }

  // ----- the program's own loops, undisturbed -----

  class Table {
    const dgram: seq<bool>
    var pids: seq<int>        // serv_arr[i].child_pid
    var armed: set<nat>       // read_sockfds
    var conn: int             // udp_select_conn

    ghost predicate Valid()
      reads this
    {
      |pids| == |dgram|
    }

    /** Streams carry -1, datagram services 0; every socket is watched. */
    constructor (dgram: seq<bool>)
      ensures Valid() && this.dgram == dgram
      ensures armed == Wanted(dgram, pids) && conn == Busy(dgram, pids) == 0
      ensures forall i :: 0 <= i < |dgram| ==> pids[i] == if dgram[i] then 0 else -1
    {
      this.dgram := dgram;
      this.pids := seq(|dgram|, i requires 0 <= i < |dgram| => if dgram[i] then 0 else -1);
      this.conn := 0;
      new;
      armed := {};
      for i := 0 to |dgram|
        invariant this.dgram == dgram && conn == 0
        invariant pids == seq(|dgram|, i requires 0 <= i < |dgram| => if dgram[i] then 0 else -1)
        invariant forall k: nat :: k in armed <==> k < i
      {
        armed := armed + {i};
      }
      BusyZero(dgram, pids);
    }

    /** sig_child after waitpid has returned a pid: the first matching service is armed again. */
    method SigChild(pid: int)
      requires Valid()
      modifies this
      ensures Valid()
      ensures Shared(armed, pids, conn) == Shared(old(armed), old(pids), old(conn)).Reap(pid)
    {
      for i := 0 to |pids|
        invariant pids == old(pids) && armed == old(armed) && conn == old(conn)
        invariant forall k :: 0 <= k < i ==> pids[k] != pid
      {
        if pid == pids[i] {
          armed := armed + {i};
          conn := conn - 1;
          pids := pids[i := 0];
          break;
        }
      }
    }

    /** The scan after select: the first service whose bit is set. */
    method Ready() returns (i: nat)
      requires Valid()
      ensures i <= |dgram| && (i < |dgram| ==> i in armed) && forall k :: 0 <= k < i ==> k !in armed
    {
      i := 0;
      while i < |dgram| && i !in armed
        invariant i <= |dgram| && forall k :: 0 <= k < i ==> k !in armed
      {
        i := i + 1;
      }
    }

    /** The parent's two statements after forking a datagram child. */
    method Record(i: nat, pid: int)
      requires Valid() && i < |dgram| && dgram[i] && pids[i] == 0 && pid > 0
      modifies this`pids, this`conn
      ensures Valid() && pids == old(pids)[i := pid]
      ensures conn - Busy(dgram, pids) == old(conn - Busy(dgram, pids))
    {
      BusyUpdate(dgram, pids, i, pid);
      pids := pids[i := pid];
      conn := conn + 1;
    }

    /** The re-arm block: set every bit, then clear the datagram services with a child. */
    method Rearm()
      requires Valid() && conn == Busy(dgram, pids)
      modifies this`armed
      ensures forall i: nat :: i < |dgram| ==> (i in armed <==> Wants(dgram, pids, i))
      ensures forall i: nat :: i >= |dgram| ==> (i in armed <==> i in old(armed))
    {
      for j := 0 to |dgram|
        invariant forall i: nat :: i < j ==> i in armed
        invariant forall i: nat :: i >= j ==> (i in armed <==> i in old(armed))
      {
        armed := armed + {j};
      }
      BusyZero(dgram, pids);
      if conn != 0 {
        for k := 0 to |dgram|
          invariant forall i: nat :: i < k ==> (i in armed <==> Wants(dgram, pids, i))
          invariant forall i: nat :: k <= i < |dgram| ==> i in armed
          invariant forall i: nat :: i >= |dgram| ==> (i in armed <==> i in old(armed))
        {
          if dgram[k] && pids[k] != 0 {
            armed := armed - {k};
          }
        }
      }
    }
  }

  // ----- the program with its interruptions -----

  /** Where the main loop is. */
  datatype Main =
    | Select
    | Scan(i: nat)              // FD_ISSET on service i
    | Fork(i: nat)              // accept for a stream; then fork
    | Store(i: nat, pid: nat)   // parent of a datagram child: child_pid = pid
    | Count                     // udp_select_conn++
    | Set(j: nat)               // FD_SET on service j
    | Test                      // if (udp_select_conn)
    | Check(k: nat)             // the test on service k
    | Clear(k: nat)             // its FD_CLR
    | Down                      // exit after an error

  datatype Kid = Kid(service: nat, zombie: bool)

  datatype Sys = Sys(
    dgram: seq<bool>,
    shared: Shared,
    main: Main,
    kids: map<nat, Kid>,        // the kernel's view: children not yet reaped
    lost: set<nat>)             // history: services the handler armed just before a pending FD_CLR undid it

  function Begin(dgram: seq<bool>): Sys {
    var pids := seq(|dgram|, i requires 0 <= i < |dgram| => if dgram[i] then 0 else -1);
    Sys(dgram, Shared(Wanted(dgram, pids), pids, 0), Select, map[], {})
  }

  datatype Turn =
    | Go                        // main's next statement; select is interrupted, fork fails
    | Return(ready: set<nat>)   // select returns
    | Forked(pid: nat)          // fork succeeds
    | Exits(pid: nat)           // a child ends and becomes a zombie
    | Signal(pid: nat)          // SIGCHLD: the handler runs and reaps this zombie

  /** The handler, wherever main happens to be. */
  function Handle(s: Sys, pid: nat): Sys {
    if pid in s.kids && s.kids[pid].zombie then
      s.(shared := s.shared.Reap(pid), kids := s.kids - {pid}, lost := s.lost - {Match(s.shared.pids, pid)})
    else s
  }

  function Statement(s: Sys): Sys {
    var sh, n := s.shared, |s.dgram|;
    match s.main
    case Select => s                                        // EINTR: continue
    case Scan(i) =>
      if i >= n then s.(main := Set(0))
      else if i in sh.armed then s.(main := Fork(i)) else s.(main := Scan(i + 1))
    case Fork(_) => s.(main := Down)
    case Store(i, pid) => if i >= |sh.pids| then s else s.(shared := sh.(pids := sh.pids[i := pid]), main := Count)
    case Count => s.(shared := sh.(conn := sh.conn + 1), main := Set(0))
    case Set(j) =>
      if j >= n then s.(main := Test)
      else s.(shared := sh.(armed := sh.armed + {j}), lost := s.lost - {j}, main := Set(j + 1))
    case Test => s.(main := if sh.conn != 0 then Check(0) else Select)
    case Check(k) =>
      if k >= n then s.(main := Select)
      else if k < |sh.pids| && s.dgram[k] && sh.pids[k] != 0 then s.(main := Clear(k)) else s.(main := Check(k + 1))
    case Clear(k) =>
      s.(shared := sh.(armed := sh.armed - {k}), main := Check(k + 1),
         lost := if k < |sh.pids| && sh.pids[k] == 0 then s.lost + {k} else s.lost)
    case Down => s
  }

  function Take(s: Sys, t: Turn): Sys {
    match t
    case Go => Statement(s)
    case Return(ready) =>
      if s.main.Select? && ready != {} && ready <= s.shared.armed
      then s.(shared := s.shared.(armed := ready), main := Scan(0)) else s
    case Forked(pid) =>
      if s.main.Fork? && s.main.i < |s.dgram| && pid > 0 && pid !in s.kids then
        s.(kids := s.kids[pid := Kid(s.main.i, false)],
           main := if s.dgram[s.main.i] then Store(s.main.i, pid) else Set(0))
      else s
    case Exits(pid) => if pid in s.kids then s.(kids := s.kids[pid := s.kids[pid].(zombie := true)]) else s
    case Signal(pid) => Handle(s, pid)
  }

  function Exec(s: Sys, turns: seq<Turn>): Sys {
    if turns == [] then s else Take(Exec(s, turns[..|turns| - 1]), turns[|turns| - 1])
  }

  // ----- what every run keeps -----

  predicate Shape(s: Sys) {
    && |s.shared.pids| == |s.dgram|
    && (forall i :: 0 <= i < |s.dgram| && !s.dgram[i] ==> s.shared.pids[i] == -1)
    && (forall p :: p in s.kids ==> p > 0 && s.kids[p].service < |s.dgram|)
  }

  /** Every unreaped datagram child is on record, except the one just forked. */
  predicate KidsOk(s: Sys)
    requires Shape(s)
  {
    && (forall p :: p in s.kids && s.dgram[s.kids[p].service] ==>
          s.shared.pids[s.kids[p].service] == p || s.main == Store(s.kids[p].service, p))
    && (s.main.Store? ==> s.main.i < |s.dgram| && s.dgram[s.main.i] && s.shared.pids[s.main.i] == 0 && s.main.pid > 0)
    && (s.main.Fork? ==> s.main.i < |s.dgram| && (s.dgram[s.main.i] ==> s.shared.pids[s.main.i] == 0))
  }

  predicate CountOk(s: Sys)
    requires Shape(s)
  {
    s.shared.conn == Busy(s.dgram, s.shared.pids) - if s.main.Count? then 1 else 0
  }

  /** Service i is watched exactly when it should be, the lost ones apart. */
  predicate Agrees(s: Sys, i: nat)
    requires Shape(s) && i < |s.dgram|
  {
    i in s.shared.armed <==> Wants(s.dgram, s.shared.pids, i) && i !in s.lost
  }

  predicate ArmedOk(s: Sys)
    requires Shape(s)
  {
    match s.main
    case Select => forall i: nat :: i < |s.dgram| ==> Agrees(s, i)
    case Scan(_) => forall i: nat :: i < |s.dgram| && i in s.shared.armed ==> Wants(s.dgram, s.shared.pids, i)
    case Set(j) => forall i: nat :: i < j && i < |s.dgram| ==> i in s.shared.armed && i !in s.lost
    case Test => forall i: nat :: i < |s.dgram| ==> i in s.shared.armed && i !in s.lost
    case Check(k) => Swept(s, k)
    case Clear(k) => k < |s.dgram| && s.dgram[k] && Swept(s, k)
    case _ => true
  }

  /** The clearing loop has dealt with the services below k. */
  predicate Swept(s: Sys, k: nat)
    requires Shape(s)
  {
    forall i: nat :: i < |s.dgram| ==> if i < k then Agrees(s, i) else i in s.shared.armed && i !in s.lost
  }

  predicate Inv(s: Sys) {
    && Shape(s)
    && KidsOk(s)
    && CountOk(s)
    && ArmedOk(s)
  }

  /** The handler changes one service, and changes it consistently. */
  lemma HandleArmed(s: Sys, pid: nat)
    requires Inv(s) && pid in s.kids && s.kids[pid].zombie && Match(s.shared.pids, pid) < |s.dgram|
    ensures Shape(Handle(s, pid)) && ArmedOk(Handle(s, pid))
  {
    var s', i := Handle(s, pid), Match(s.shared.pids, pid);
    forall k: nat | k < |s.dgram| && k != i && Agrees(s, k) ensures Agrees(s', k) {}
    if s.main.Check? || s.main.Clear? {
      assert Swept(s, s.main.k);
      assert Swept(s', s.main.k);
    }
  }

  lemma HandleInv(s: Sys, pid: nat)
    requires Inv(s)
    ensures Inv(Handle(s, pid))
  {
    var s', i := Handle(s, pid), Match(s.shared.pids, pid);
    if pid in s.kids && s.kids[pid].zombie {
      if i < |s.dgram| {
        BusyUpdate(s.dgram, s.shared.pids, i, 0);
        HandleArmed(s, pid);
      } else {
        assert s'.shared == s.shared;
        forall k: nat | k < |s.dgram| ensures Agrees(s, k) <==> Agrees(s', k) {}
      }
    }
  }

  /** Store, count and test. */
  lemma StatementRecord(s: Sys)
    requires Inv(s) && (s.main.Store? || s.main.Count? || s.main.Test?)
    ensures Inv(Statement(s))
  {
    if s.main.Store? {
      BusyUpdate(s.dgram, s.shared.pids, s.main.i, s.main.pid);
    } else if s.main.Test? {
      BusyZero(s.dgram, s.shared.pids);
    }
  }

  /** The clearing loop. */
  lemma StatementClear(s: Sys)
    requires Inv(s) && (s.main.Check? || s.main.Clear?)
    ensures Inv(Statement(s))
  {
    var s', k := Statement(s), s.main.k;
    assert Swept(s, k);
    forall i: nat | i < |s.dgram| && i != k && Agrees(s, i) ensures Agrees(s', i) {}
    if s'.main.Check? || s'.main.Clear? {
      assert Swept(s', s'.main.k);
    }
  }

  lemma StatementScan(s: Sys)
    requires Inv(s) && (s.main.Select? || s.main.Scan? || s.main.Fork? || s.main.Set? || s.main.Down?)
    ensures Inv(Statement(s))
  {
  }

  lemma StatementInv(s: Sys)
    requires Inv(s)
    ensures Inv(Statement(s)) && Statement(s).dgram == s.dgram
  {
    hide Inv;
    if s.main.Store? || s.main.Count? || s.main.Test? {
      StatementRecord(s);
    } else if s.main.Check? || s.main.Clear? {
      StatementClear(s);
    } else {
      StatementScan(s);
    }
  }

  /** What comes from outside: select returns, fork succeeds, a child ends. */
  lemma OutsideInv(s: Sys, t: Turn)
    requires Inv(s) && (t.Return? || t.Forked? || t.Exits?)
    ensures Inv(Take(s, t))
  {
    var s' := Take(s, t);
    if t.Return? && s.main.Select? {
      forall i: nat | i < |s.dgram| && i in s.shared.armed ensures Wants(s.dgram, s.shared.pids, i) {
        assert Agrees(s, i);
      }
    } else if t.Exits? {
      assert s'.shared == s.shared && s'.lost == s.lost && s'.main == s.main;
      forall k: nat | k < |s.dgram| ensures Agrees(s, k) <==> Agrees(s', k) {}
    }
  }

  lemma TakeInv(s: Sys, t: Turn)
    requires Inv(s)
    ensures Inv(Take(s, t)) && Take(s, t).dgram == s.dgram
  {
    match t
    case Go => StatementInv(s);
    case Signal(pid) => HandleInv(s, pid);
    case _ => OutsideInv(s, t);
  }

  lemma {:induction false} ExecInv(dgram: seq<bool>, turns: seq<Turn>)
    ensures var s := Exec(Begin(dgram), turns);
            && Inv(s)
            && s.dgram == dgram
  {
    if turns == [] {
      BusyZero(dgram, Begin(dgram).shared.pids);
    } else {
      var before := turns[..|turns| - 1];
      ExecInv(dgram, before);
      TakeInv(Exec(Begin(dgram), before), turns[|turns| - 1]);
    }
  }

  // ----- the claims -----

  /** No datagram service ever has two unreaped children, whenever SIGCHLD comes and however pids are reused. */
  lemma NeverTwoChildren(dgram: seq<bool>, turns: seq<Turn>, p: nat, q: nat)
    ensures var s := Exec(Begin(dgram), turns);
            (p in s.kids && q in s.kids && s.kids[p].service == s.kids[q].service < |dgram|
             && dgram[s.kids[p].service]) ==> p == q
  {
    ExecInv(dgram, turns);
  }

  /** A datagram child is forked only for a service that has none. */
  lemma ForkedOnlyWhenFree(dgram: seq<bool>, turns: seq<Turn>, pid: nat, q: nat)
    ensures var s := Exec(Begin(dgram), turns);
            var s' := Take(s, Forked(pid));
            s'.main.Store? && !s.main.Store? && q in s.kids ==> s.kids[q].service != s'.main.i
  {
    ExecInv(dgram, turns);
  }

  /** At the test, the counter is the number of datagram services with a child on record. */
  lemma CounterExact(dgram: seq<bool>, turns: seq<Turn>)
    ensures var s := Exec(Begin(dgram), turns);
            |s.shared.pids| == |dgram| && (s.main.Test? ==> s.shared.conn == Busy(dgram, s.shared.pids))
  {
    ExecInv(dgram, turns);
  }

  /**
   At every select the watched sockets are exactly the streams and the datagram sockets without a child,
   except those whose re-arming by the handler fell between the test and the FD_CLR of the clearing loop.
   */
  lemma SelectWatches(dgram: seq<bool>, turns: seq<Turn>, i: nat)
    requires i < |dgram|
    ensures var s := Exec(Begin(dgram), turns);
            |s.shared.pids| == |dgram| &&
            (s.main.Select? ==> (i in s.shared.armed <==> i in Wanted(dgram, s.shared.pids) && i !in s.lost))
  {
    ExecInv(dgram, turns);
    var s := Exec(Begin(dgram), turns);
    if s.main.Select? {
      assert Agrees(s, i);
    }
  }

  /** No signal reaps the child of the very service whose FD_CLR is pending. */
  predicate Calm(s: Sys, t: Turn) {
    t.Signal? && s.main.Clear? && t.pid in s.kids && s.kids[t.pid].zombie ==>
      Match(s.shared.pids, t.pid) != s.main.k
  }

  predicate CalmRun(dgram: seq<bool>, turns: seq<Turn>) {
    turns != [] ==>
      var before := turns[..|turns| - 1];
      CalmRun(dgram, before) && Calm(Exec(Begin(dgram), before), turns[|turns| - 1])
  }

  /** With test and clear in one step nothing is ever lost, so the agreement is exact. */
  lemma {:induction false} CalmNeverLoses(dgram: seq<bool>, turns: seq<Turn>)
    requires CalmRun(dgram, turns)
    ensures var s := Exec(Begin(dgram), turns);
            s.lost == {} && (s.main.Clear? && s.main.k < |s.shared.pids| ==> s.shared.pids[s.main.k] != 0)
  {
    if turns != [] {
      var before := turns[..|turns| - 1];
      CalmNeverLoses(dgram, before);
      ExecInv(dgram, before);
      CalmStep(Exec(Begin(dgram), before), turns[|turns| - 1]);
    }
  }

  lemma CalmStep(s: Sys, t: Turn)
    requires Inv(s) && Calm(s, t) && s.lost == {}
    requires s.main.Clear? && s.main.k < |s.shared.pids| ==> s.shared.pids[s.main.k] != 0
    ensures var s' := Take(s, t);
            s'.lost == {} && (s'.main.Clear? && s'.main.k < |s'.shared.pids| ==> s'.shared.pids[s'.main.k] != 0)
  {
    hide CountOk, ArmedOk;
  }

  /** The other way round: a signal in that window, and the socket is not watched although it has no child. */
  lemma WindowLosesSocket() returns (turns: seq<Turn>, s: Sys)
    ensures s == Exec(Begin([true]), turns)
    ensures s.main.Select? && s.kids == map[] && s.shared.pids == [0] && s.shared.conn == 0
    ensures s.lost == {0} && s.shared.armed == {} && Wanted([true], s.shared.pids) == {0}
  {
    hide Take, Exec;
    var b := Begin([true]);
    var t3 := [] + [Return({0})] + [Go] + [Forked(5)];
    var t6 := t3 + [Go] + [Go] + [Go];
    var t9 := t6 + [Go] + [Go] + [Go];
    var t12 := t9 + [Exits(5)] + [Signal(5)] + [Go];
    turns := t12 + [Go];
    ExecNone(b);
    var s3 := ExecThree(b, [], Return({0}), Go, Forked(5));
    WindowFork();
    var s6 := ExecThree(b, t3, Go, Go, Go);
    WindowRecord();
    var s9 := ExecThree(b, t6, Go, Go, Go);
    WindowTest();
    var s12 := ExecThree(b, t9, Exits(5), Signal(5), Go);
    WindowSignal();
    WindowEnd();
    ExecOne(b, t12, Go);
    s := Exec(b, turns);
  }

  /** The states of that run, for a single datagram service and a child with pid 5. */
  function Window(main: Main, shared: Shared, kids: map<nat, Kid>, lost: set<nat>): Sys {
    Sys([true], shared, main, kids, lost)
  }

  lemma WindowFork()
    ensures Begin([true]) == Window(Select, Shared({0}, [0], 0), map[], {})
    ensures Take(Take(Take(Begin([true]), Return({0})), Go), Forked(5))
            == Window(Store(0, 5), Shared({0}, [0], 0), map[5 := Kid(0, false)], {})
  {
  }

  lemma WindowRecord()
    ensures var s := Window(Store(0, 5), Shared({0}, [0], 0), map[5 := Kid(0, false)], {});
            Take(Take(Take(s, Go), Go), Go) == Window(Set(1), Shared({0}, [5], 1), map[5 := Kid(0, false)], {})
  {
  }

  lemma WindowTest()
    ensures var s := Window(Set(1), Shared({0}, [5], 1), map[5 := Kid(0, false)], {});
            Take(Take(Take(s, Go), Go), Go) == Window(Clear(0), Shared({0}, [5], 1), map[5 := Kid(0, false)], {})
  {
  }

  lemma WindowSignal()
    ensures var s := Window(Clear(0), Shared({0}, [5], 1), map[5 := Kid(0, false)], {});
            Take(Take(Take(s, Exits(5)), Signal(5)), Go) == Window(Check(1), Shared({}, [0], 0), map[], {0})
  {
    var s := Window(Clear(0), Shared({0}, [5], 1), map[5 := Kid(0, false)], {});
    var s1 := Take(s, Exits(5));
    assert s1.kids == map[5 := Kid(0, true)];
    assert s1.shared.Reap(5) == Shared({0}, [0], 0);
    assert Take(s1, Signal(5)) == Window(Clear(0), Shared({0}, [0], 0), map[], {});
  }

  lemma WindowEnd()
    ensures Take(Window(Check(1), Shared({}, [0], 0), map[], {0}), Go)
            == Window(Select, Shared({}, [0], 0), map[], {0})
    ensures Wanted([true], [0]) == {0}
  {
  }

  lemma ExecNone(s: Sys)
    ensures Exec(s, []) == s
  {
  }

  lemma ExecOne(s: Sys, turns: seq<Turn>, t: Turn)
    ensures Exec(s, turns + [t]) == Take(Exec(s, turns), t)
  {
    assert (turns + [t])[..|turns + [t]| - 1] == turns;
  }

  lemma ExecThree(s: Sys, turns: seq<Turn>, t: Turn, u: Turn, v: Turn) returns (r: Sys)
    ensures r == Exec(s, turns + [t] + [u] + [v]) == Take(Take(Take(Exec(s, turns), t), u), v)
  {
    hide Take;
    ExecOne(s, turns, t);
    ExecOne(s, turns + [t], u);
    ExecOne(s, turns + [t] + [u], v);
    r := Exec(s, turns + [t] + [u] + [v]);
  }
}
