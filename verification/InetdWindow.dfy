/**
 The window between inetd's test and its FD_CLR: select watches the right sockets in every run in which
 no signal falls there, and after one that does it misses a socket at the very next select.
 */
module InetdWindow {
  import opened Inetd

  /** What select should be given: exactly the streams and the datagram sockets without a child. */
  predicate Exact(s: Sys) {
    |s.shared.pids| == |s.dgram| &&
    (s.main.Select? ==>
       forall i: nat :: i < |s.dgram| ==> (i in s.shared.armed <==> i in Wanted(s.dgram, s.shared.pids)))
  }

  /** The main loop alone for n statements. */
  function Alone(n: nat): (turns: seq<Turn>)
    ensures |turns| == n && forall k :: 0 <= k < n ==> turns[k] == Go
  {
    seq(n, _ => Go)
  }

  /** Every point of the run, continued by the main loop alone, comes to a select with exactly the right sockets. */
  ghost predicate SelectsExactly(dgram: seq<bool>, turns: seq<Turn>) {
    forall j: nat, n: nat :: j <= |turns| ==> Exact(Exec(Begin(dgram), turns[..j] + Alone(n)))
  }

  // ----- a signal in the window -----

  /** Service k has no child, and its bit is clear or about to be. */
  predicate Missed(s: Sys, k: nat) {
    && Inv(s) && k < |s.dgram| && s.dgram[k] && s.shared.pids[k] == 0
    && match s.main
       case Clear(j) => j == k || (j > k && k !in s.shared.armed)
       case Check(j) => j > k && k !in s.shared.armed
       case Select => k !in s.shared.armed
       case _ => false
  }

  lemma SignalInWindow(s: Sys, t: Turn)
    requires Inv(s) && !Calm(s, t)
    ensures s.main.Clear? && Missed(Take(s, t), s.main.k) && Take(s, t).dgram == s.dgram
  {
    TakeInv(s, t);
  }

  /** Only select itself, with the bit missing, ends it: no statement, fork, child's end or signal sets the bit. */
  lemma StaysMissed(s: Sys, t: Turn, k: nat)
    requires Missed(s, k) && !t.Return?
    ensures Missed(Take(s, t), k) && Take(s, t).dgram == s.dgram
  {
    TakeInv(s, t);
    hide CountOk, ArmedOk;
  }

  lemma {:induction false} MissedOn(s: Sys, more: seq<Turn>, k: nat)
    requires Missed(s, k) && forall j :: 0 <= j < |more| ==> !more[j].Return?
    ensures Missed(Exec(s, more), k) && Exec(s, more).dgram == s.dgram
  {
    if more != [] {
      MissedOn(s, more[..|more| - 1], k);
      StaysMissed(Exec(s, more[..|more| - 1]), more[|more| - 1], k);
    }
  }

  /**
   A signal in the window: at every state that follows before the next return of select, service k has no
   child and at select it is not watched.
   */
  lemma SignalLosesSocket(dgram: seq<bool>, turns: seq<Turn>, t: Turn, more: seq<Turn>)
    requires !Calm(Exec(Begin(dgram), turns), t) && forall j :: 0 <= j < |more| ==> !more[j].Return?
    ensures var s := Exec(Begin(dgram), turns);
            var r := Exec(Take(s, t), more);
            && s.main.Clear? && s.main.k < |dgram| == |r.shared.pids|
            && s.main.k in Wanted(dgram, r.shared.pids) && (r.main.Select? ==> s.main.k !in r.shared.armed)
  {
    ExecInv(dgram, turns);
    var s := Exec(Begin(dgram), turns);
    SignalInWindow(s, t);
    MissedOn(Take(s, t), more, s.main.k);
  }

  // ----- the main loop gets to its select -----

  lemma {:induction false} ExecJoin(s: Sys, a: seq<Turn>, b: seq<Turn>)
    ensures Exec(s, a + b) == Exec(Exec(s, a), b)
  {
    if b == [] {
      assert a + b == a;
    } else {
      ExecJoin(s, a, b[..|b| - 1]);
      assert (a + b)[..|a + b| - 1] == a + b[..|b| - 1];
    }
  }

  lemma OneMore(s: Sys, n: nat)
    ensures Exec(s, Alone(n + 1)) == Exec(Statement(s), Alone(n))
  {
    assert Alone(n + 1) == [Go] + Alone(n);
    ExecJoin(s, [Go], Alone(n));
    assert [Go][..0] == [] && Exec(s, []) == s;
    assert Exec(s, [Go]) == Take(Exec(s, [Go][..0]), Go);
  }

  /** Statements left in the clearing loop, at most. */
  function ToSelect(s: Sys): nat {
    match s.main
    case Check(j) => if j < |s.dgram| then 2 * (|s.dgram| - j) + 2 else 1
    case Clear(j) => if j < |s.dgram| then 2 * (|s.dgram| - j) + 1 else 2
    case _ => 0
  }

  lemma NextStatement(s: Sys)
    requires Inv(s) && (s.main.Check? || s.main.Clear?)
    ensures var r := Statement(s); (r.main.Select? || r.main.Check? || r.main.Clear?) && ToSelect(r) < ToSelect(s)
  {
    hide KidsOk, CountOk;
  }

  lemma {:induction false} ComesToSelect(s: Sys) returns (n: nat)
    requires Inv(s) && (s.main.Select? || s.main.Check? || s.main.Clear?)
    ensures Exec(s, Alone(n)).main.Select?
    decreases ToSelect(s)
  {
    hide Inv, ToSelect, Statement;
    if s.main.Select? {
      n := 0;
    } else {
      StatementInv(s);
      NextStatement(s);
      var m := ComesToSelect(Statement(s));
      n := m + 1;
      OneMore(s, m);
    }
  }

  // ----- both halves -----

  lemma {:induction false} CalmPrefix(dgram: seq<bool>, turns: seq<Turn>, j: nat)
    requires CalmRun(dgram, turns) && j <= |turns|
    ensures CalmRun(dgram, turns[..j])
  {
    if j == |turns| {
      assert turns[..j] == turns;
    } else {
      CalmPrefix(dgram, turns[..|turns| - 1], j);
      assert turns[..|turns| - 1][..j] == turns[..j];
    }
  }

  lemma {:induction false} CalmAlone(dgram: seq<bool>, turns: seq<Turn>, n: nat)
    requires CalmRun(dgram, turns)
    ensures CalmRun(dgram, turns + Alone(n))
  {
    if n == 0 {
      assert turns + Alone(0) == turns;
    } else {
      CalmAlone(dgram, turns, n - 1);
      assert (turns + Alone(n))[..|turns| + n - 1] == turns + Alone(n - 1);
    }
  }

  lemma CalmIsExact(dgram: seq<bool>, turns: seq<Turn>)
    requires CalmRun(dgram, turns)
    ensures Exact(Exec(Begin(dgram), turns))
  {
    var s := Exec(Begin(dgram), turns);
    CalmNeverLoses(dgram, turns);
    ExecInv(dgram, turns);
    forall i: nat | i < |dgram| && s.main.Select? ensures i in s.shared.armed <==> i in Wanted(dgram, s.shared.pids) {
      SelectWatches(dgram, turns, i);
    }
  }

  /** The first turn that is not calm. */
  lemma {:induction false} NotCalmAt(dgram: seq<bool>, turns: seq<Turn>) returns (j: nat)
    requires !CalmRun(dgram, turns)
    ensures j < |turns| && !Calm(Exec(Begin(dgram), turns[..j]), turns[j])
  {
    var before := turns[..|turns| - 1];
    if CalmRun(dgram, before) {
      j := |turns| - 1;
    } else {
      j := NotCalmAt(dgram, before);
      assert before[..j] == turns[..j];
    }
  }

  /** Agreement at select, exactly: it holds at every select a run comes to if and only if the run is calm. */
  lemma ExactExactlyWhenCalm(dgram: seq<bool>, turns: seq<Turn>)
    ensures SelectsExactly(dgram, turns) <==> CalmRun(dgram, turns)
  {
    if CalmRun(dgram, turns) {
      forall j: nat, n: nat | j <= |turns| ensures Exact(Exec(Begin(dgram), turns[..j] + Alone(n))) {
        CalmPrefix(dgram, turns, j);
        CalmAlone(dgram, turns[..j], n);
        CalmIsExact(dgram, turns[..j] + Alone(n));
      }
    } else {
      var j := NotCalmAt(dgram, turns);
      var s := Exec(Begin(dgram), turns[..j]);
      var s' := Take(s, turns[j]);
      ExecInv(dgram, turns[..j]);
      SignalInWindow(s, turns[j]);
      var n := ComesToSelect(s');
      MissedOn(s', Alone(n), s.main.k);
      assert turns[..j + 1][..j] == turns[..j];
      assert Exec(Begin(dgram), turns[..j + 1]) == s';
      ExecJoin(Begin(dgram), turns[..j + 1], Alone(n));
      assert !Exact(Exec(Begin(dgram), turns[..j + 1] + Alone(n)));
    }
  }
}
