/** The user program of the semaphore library: no update of the sequence number is lost. */
module SemCounter {
  import opened Options
  import opened SemKernel
  import opened SeqFile
  import opened SemLibrary
  import opened SemLibraryProofs
  import opened SemLibraryClaims
  import opened SemOpeners

  // ----- the printed numbers -----

  /** Each number is its predecessor plus one, or the same again when that printer never wrote. */
  predicate Chain(prints: seq<Print>, first: int) {
    && (prints != [] ==> prints[0].value == first)
    && forall k :: 0 <= k < |prints| - 1 ==>
         prints[k + 1].value == prints[k].value + if prints[k].written then 1 else 0
  }

  /** The number the next reader will find. */
  function Next(prints: seq<Print>, first: int): int {
    if prints == [] then first
    else prints[|prints| - 1].value + if prints[|prints| - 1].written then 1 else 0
  }

  function WrittenCount(prints: seq<Print>): nat {
    if prints == [] then 0
    else WrittenCount(prints[..|prints| - 1]) + if prints[|prints| - 1].written then 1 else 0
  }

  lemma {:induction false} ChainCounts(prints: seq<Print>, first: int)
    requires Chain(prints, first)
    ensures Next(prints, first) == first + WrittenCount(prints)
  {
    if prints != [] {
      var init := prints[..|prints| - 1];
      assert Chain(init, first);
      ChainCounts(init, first);
      if init != [] {
        assert prints[|init| - 1 + 1].value == Next(init, first);
      }
    }
  }

  // ----- the invariant of the file -----

  predicate WriterOk(s: Sys, p: nat)
    requires p < |s.procs|
  {
    var pc := s.procs[p].pc;
    pc.Wr? ==> s.prints != [] && s.prints[|s.prints| - 1] == Print(pc.seqno, false)
  }

  predicate FileOk(s: Sys) {
    && Inv(s) && InsideHere(s) && s.initval == 1
    && InRange(s.start) && s.file == FileText(s.start, s.wrote)
    && (ReadNumber(s.start).None? ==> s.prints == [] && s.wrote == 0)
    && Chain(s.prints, First(s.start))
    && WrittenCount(s.prints) == s.wrote
    && First(s.start) + s.wrote <= INT_MAX
    && forall p :: 0 <= p < |s.procs| ==> WriterOk(s, p)
  }

  /** Two processes are never both in the critical section. */
  lemma Alone(s: Sys, p: nat, q: nat)
    requires Inv(s) && InsideHere(s) && s.initval == 1 && p < |s.procs| && q < |s.procs| && p != q
    requires s.procs[p].pc.InCrit()
    ensures !s.procs[q].pc.InCrit()
  {
    assert ProcOk(s, p) && ProcOk(s, q);
    AdjustmentsBounded(s);
    Bounds(s, A0);
    if p < q {
      assert A0(s.procs[p]) + A0(s.procs[q]) <= Sum(s.procs, A0);
    } else {
      assert A0(s.procs[q]) + A0(s.procs[p]) <= Sum(s.procs, A0);
    }
  }

  /** A new last print leaves the chain in order. */
  lemma ChainPush(prints: seq<Print>, first: int, last: Print)
    requires Chain(prints, first) && last.value == Next(prints, first)
    ensures Chain(prints + [last], first)
    ensures WrittenCount(prints + [last]) == WrittenCount(prints) + if last.written then 1 else 0
  {
    var all := prints + [last];
    assert all[..|all| - 1] == prints;
  }

  /** Marking the last print as written. */
  lemma ChainMark(prints: seq<Print>, first: int)
    requires Chain(prints, first) && prints != [] && !prints[|prints| - 1].written
    ensures Chain(MarkWritten(prints), first)
    ensures WrittenCount(MarkWritten(prints)) == WrittenCount(prints) + 1
  {
    var all := MarkWritten(prints);
    assert all[..|all| - 1] == prints[..|prints| - 1];
  }

  lemma RdEffect(s: Sys, p: nat, n: int)
    requires p < |s.procs| && s.procs[p].pc.Rd? && ReadNumber(s.file) == Some(n)
    ensures var pc := s.procs[p].pc;
            Run(s, p) == Goto(s.(prints := s.prints + [Print(n, false)]), p, Wr(pc.id, pc.i, n))
  {
    hide Format, ReadNumber, Overwrite;
  }

  /** A reader that finds no number stops. */
  lemma ReadsNone(s: Sys, p: nat)
    requires p < |s.procs| && s.procs[p].pc.Rd? && ReadNumber(s.file).None?
    ensures Run(s, p) == Die(s, p)
  {
    hide Format, ReadNumber, Overwrite;
  }

  lemma WrEffect(s: Sys, p: nat)
    requires p < |s.procs| && s.procs[p].pc.Wr?
    ensures var s', n := Run(s, p), s.procs[p].pc.seqno;
            if n >= INT_MAX then s' == Die(s, p)
            else s'.file == Overwrite(s.file, Format(n + 1)) && s'.prints == MarkWritten(s.prints)
                 && s'.wrote == s.wrote + 1 && s'.procs[p].pc.Signal?
  {
    hide Format, ReadNumber, Overwrite;
  }

  /** While p is in the critical section nobody else is about to write. */
  lemma OtherWriters(s: Sys, s': Sys, p: nat)
    requires Inv(s) && InsideHere(s) && s.initval == 1 && p < |s.procs| && s.procs[p].pc.InCrit()
    requires MovesOnly(s, s', p) && WriterOk(s', p)
    ensures forall q :: 0 <= q < |s'.procs| ==> WriterOk(s', q)
  {
    forall q | 0 <= q < |s'.procs| && q != p ensures WriterOk(s', q) {
      Alone(s, p, q);
    }
  }

  lemma StaysAlone(s: Sys, t: Turn)
    requires Inv(s) && InsideHere(s) && !HitsInside(s, t)
    ensures Inv(Take(s, t)) && InsideHere(Take(s, t))
  {
    TakeInv(s, t);
    StaysInsideHere(s, t);
  }

  lemma RunRead(s: Sys, p: nat)
    requires FileOk(s) && p < |s.procs| && s.procs[p].pc.Rd? && ReadNumber(s.start).Some?
    ensures FileOk(Run(s, p))
  {
    hide Format, ReadNumber, Overwrite, Run, Inv, InsideHere, Chain;
    var n := First(s.start) + s.wrote;
    PassesAddUp(s.start, s.wrote);
    RdEffect(s, p, n);
    ChainCounts(s.prints, First(s.start));
    ChainPush(s.prints, First(s.start), Print(n, false));
    StaysAlone(s, Step(p));
    OtherWriters(s, Run(s, p), p);
  }

  lemma RunWrite(s: Sys, p: nat)
    requires FileOk(s) && p < |s.procs| && s.procs[p].pc.Wr?
    ensures FileOk(Run(s, p))
  {
    hide Format, ReadNumber, Overwrite, Run, Inv, InsideHere;
    var n := First(s.start) + s.wrote;
    assert WriterOk(s, p);
    ChainCounts(s.prints, First(s.start));
    assert s.procs[p].pc.seqno == n;
    WrEffect(s, p);
    ChainMark(s.prints, First(s.start));
    StaysAlone(s, Step(p));
    OtherWriters(s, Run(s, p), p);
  }

  lemma TakeFile(s: Sys, t: Turn)
    requires FileOk(s) && !HitsInside(s, t)
    ensures FileOk(Take(s, t))
  {
    hide Format, ReadNumber, Overwrite, Run, FileText;
    StaysAlone(s, t);
    if t.p < |s.procs| {
      var p := t.p;
      if t.Step? && s.procs[p].pc.Rd? && ReadNumber(s.start).Some? {
        RunRead(s, p);
      } else if t.Step? && s.procs[p].pc.Wr? {
        RunWrite(s, p);
      } else {
        if t.Step? && s.procs[p].pc.Rd? {
          assert s.file == s.start by { Untouched(s); }
          ReadsNone(s, p);
        }
        SameFile(s, Take(s, t));
      }
    }
  }

  lemma Untouched(s: Sys)
    requires s.file == FileText(s.start, s.wrote) && s.wrote == 0
    ensures s.file == s.start
  {
  }

  lemma SameFile(s: Sys, s': Sys)
    requires FileOk(s) && Inv(s') && InsideHere(s') && SameShape(s, s')
    requires s'.prints == s.prints && s'.wrote == s.wrote && s'.file == s.file
    requires forall q :: 0 <= q < |s'.procs| && s'.procs[q].pc.Wr? ==> s'.procs[q].pc == s.procs[q].pc
    ensures FileOk(s')
  {
    hide Inv, InsideHere, FileText, Chain, ReadNumber;
    forall q | 0 <= q < |s'.procs| ensures WriterOk(s', q) {
      assert WriterOk(s, q);
    }
  }

  lemma {:induction false} ExecFile(n: nat, text: string, turns: seq<Turn>)
    requires n < BIGCOUNT && InRange(text) && Exclusive(n, 1, text, turns)
    ensures FileOk(Reached(n, 1, text, turns))
  {
    hide NeverHitsInside, HitsInside;
    ExclusiveInside(n, 1, text, turns);
    if turns != [] {
      var before := turns[..|turns| - 1];
      NeverHitInsideBefore(n, 1, text, turns);
      ExecFile(n, text, before);
      TakeFile(Reached(n, 1, text, before), turns[|turns| - 1]);
    }
  }

  /**
   No update is lost: the file reads as its first number plus the completed writes (and holds just the
   canonical text of that, from a first number that is not negative), and those are ROUNDS for every
   process that finished plus what the others got done.
   */
  predicate NothingLost(s: Sys) {
    && FileAfter(s.start, s.file, s.wrote)
    && s.wrote == ROUNDS * s.finished + s.strays + Sum(s.procs, W)
  }

  lemma NoLostUpdates(n: nat, text: string, turns: seq<Turn>)
    requires n < BIGCOUNT && InRange(text) && Exclusive(n, 1, text, turns)
    ensures Reached(n, 1, text, turns).start == text
    ensures NothingLost(Reached(n, 1, text, turns))
  {
    ExecFile(n, text, turns);
    ExecBooks(n, 1, text, turns);
    hide ReadNumber, Format, FileAfter, Reached;
    PassesAddUp(text, Reached(n, 1, text, turns).wrote);
  }

  /** When everybody has left by the normal exit, the number has grown by 20 for each. */
  lemma FinishedProcessesAddUp(n: nat, text: string, turns: seq<Turn>, s: Sys)
    requires n < BIGCOUNT && InRange(text) && Exclusive(n, 1, text, turns)
    requires s == Reached(n, 1, text, turns)
    requires s.strays == 0 && forall p :: 0 <= p < n ==> s.procs[p].pc.Out?
    ensures ReadNumber(s.file) == Grown(text, 20 * s.finished)
  {
    hide Format, ReadNumber, Exec, Exclusive;
    NoLostUpdates(n, text, turns);
    ExecBooks(n, 1, text, turns);
    NobodyWrites(s);
  }

  lemma NobodyWrites(s: Sys)
    requires Books(s) && forall p :: 0 <= p < |s.procs| ==> s.procs[p].pc.Out?
    ensures Sum(s.procs, W) == 0
  {
    forall p | 0 <= p < |s.procs| ensures W(s.procs[p]) == 0 {
      assert WritesOk(s.procs[p]);
    }
    SumZero(s.procs, W);
  }

  /**
   The printed numbers, in the order the lock was taken, start at the first number and go up by one
   exactly after the prints whose process lived to write; a number repeats only after a printer died.
   */
  lemma PrintsConsecutive(n: nat, text: string, turns: seq<Turn>, k: nat)
    requires n < BIGCOUNT && InRange(text) && Exclusive(n, 1, text, turns)
    requires k < |Reached(n, 1, text, turns).prints|
    ensures var ps := Reached(n, 1, text, turns).prints;
            && ps[k].value == First(text) + WrittenCount(ps[..k])
            && (k + 1 < |ps| ==> (ps[k + 1].value == ps[k].value + 1 <==> ps[k].written))
            && (k + 1 < |ps| && !ps[k].written ==> ps[k + 1].value == ps[k].value)
  {
    hide Reached, Inv, InsideHere, FileText, InRange, Exclusive;
    ExecFile(n, text, turns);
    var ps := Reached(n, 1, text, turns).prints;
    assert Chain(ps[..k], First(text));
    ChainCounts(ps[..k], First(text));
    if k > 0 {
      assert ps[k - 1 + 1].value == Next(ps[..k], First(text));
    }
  }

  // ----- lost additions, in any run -----

  /** A process writes the successor of a number the file does not hold any more. */
  predicate StaleWrite(s: Sys, t: Turn) {
    && t.Step? && t.p < |s.procs| && s.procs[t.p].pc.Wr?
    && s.procs[t.p].pc.seqno < INT_MAX && ReadNumber(s.file) != Some(s.procs[t.p].pc.seqno)
  }

  /** Every completed write shows in the file. */
  predicate AllShow(s: Sys) { ReadNumber(s.file) == Grown(s.start, s.wrote) }

  predicate NumbersOk(s: Sys) {
    && InRange(s.file)
    && forall p :: 0 <= p < |s.procs| && s.procs[p].pc.Wr? ==> INT_MIN <= s.procs[p].pc.seqno <= INT_MAX
  }

  lemma OneShows(s: Sys, t: Turn)
    requires NumbersOk(s)
    ensures NumbersOk(Take(s, t))
    ensures AllShow(s) ==> (AllShow(Take(s, t)) <==> !StaleWrite(s, t))
  {
    hide Run, Format, ReadNumber, Overwrite;
    if t.Step? && t.p < |s.procs| {
      var p, pc := t.p, s.procs[t.p].pc;
      if pc.Rd? {
        if ReadNumber(s.file).Some? {
          RdEffect(s, p, ReadNumber(s.file).value);
        } else {
          ReadsNone(s, p);
        }
      } else if pc.Wr? {
        WrEffect(s, p);
        if pc.seqno < INT_MAX {
          OverwriteReads(s.file, pc.seqno + 1);
        }
      }
    }
  }

  lemma {:induction false} ExecNumbers(n: nat, initval: nat, text: string, turns: seq<Turn>)
    requires InRange(text)
    ensures NumbersOk(Reached(n, initval, text, turns))
  {
    hide NumbersOk, Take;
    if turns == [] {
      BeginNumbers(n, initval, text);
    } else {
      ExecNumbers(n, initval, text, turns[..|turns| - 1]);
      OneShows(Reached(n, initval, text, turns[..|turns| - 1]), turns[|turns| - 1]);
    }
  }

  lemma BeginNumbers(n: nat, initval: nat, text: string)
    requires InRange(text)
    ensures NumbersOk(Reached(n, initval, text, [])) && AllShow(Reached(n, initval, text, []))
  {
  }

  predicate NeverStale(n: nat, initval: nat, text: string, turns: seq<Turn>) {
    forall m :: 0 <= m < |turns| ==> !StaleWrite(Reached(n, initval, text, turns[..m]), turns[m])
  }

  predicate AlwaysAllShow(n: nat, initval: nat, text: string, turns: seq<Turn>) {
    forall m :: 0 <= m <= |turns| ==> AllShow(Reached(n, initval, text, turns[..m]))
  }

  lemma ShowsNext(n: nat, initval: nat, text: string, turns: seq<Turn>, m: nat)
    requires InRange(text) && m < |turns| && AllShow(Reached(n, initval, text, turns[..m]))
    ensures AllShow(Reached(n, initval, text, turns[..m + 1]))
            <==> !StaleWrite(Reached(n, initval, text, turns[..m]), turns[m])
  {
    hide AllShow, StaleWrite, NumbersOk, Take;
    ExecNumbers(n, initval, text, turns[..m]);
    OneShows(Reached(n, initval, text, turns[..m]), turns[m]);
    assert turns[..m + 1][..m] == turns[..m];
  }

  lemma {:induction false} ShowsUpTo(n: nat, initval: nat, text: string, turns: seq<Turn>, m: nat)
    requires InRange(text) && NeverStale(n, initval, text, turns) && m <= |turns|
    ensures AllShow(Reached(n, initval, text, turns[..m]))
  {
    hide AllShow, StaleWrite, Reached;
    if m == 0 {
      BeginNumbers(n, initval, text);
      assert turns[..0] == [];
    } else {
      ShowsUpTo(n, initval, text, turns, m - 1);
      ShowsNext(n, initval, text, turns, m - 1);
    }
  }

  /**
   Exactly the runs in which nobody writes the successor of a number that is not in the file any more lose no
   addition at any point: openers, hits and any initval included.
   */
  lemma NothingLostExactly(n: nat, initval: nat, text: string, turns: seq<Turn>)
    requires InRange(text)
    ensures AlwaysAllShow(n, initval, text, turns) <==> NeverStale(n, initval, text, turns)
  {
    hide AllShow, StaleWrite, Reached;
    if NeverStale(n, initval, text, turns) {
      forall m | 0 <= m <= |turns| ensures AllShow(Reached(n, initval, text, turns[..m])) {
        ShowsUpTo(n, initval, text, turns, m);
      }
    } else {
      var m :| 0 <= m < |turns| && StaleWrite(Reached(n, initval, text, turns[..m]), turns[m]);
      var next := m + 1;
      if AllShow(Reached(n, initval, text, turns[..m])) {
        ShowsNext(n, initval, text, turns, m);
        assert !AllShow(Reached(n, initval, text, turns[..next]));
      }
    }
  }
}
