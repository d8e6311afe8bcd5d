/** Which printed numbers repeat: exactly those whose printer is stopped between its print and its write. */
module SemPrints {
  import opened SemKernel
  import opened SeqFile
  import opened SemLibrary
  import opened SemLibraryProofs
  import opened SemLibraryClaims
  import opened SemOpeners
  import opened SemCounter

  /** This turn stops a process that has printed and not yet written: a kill, or the addition overflows. */
  predicate StopsWriter(s: Sys, t: Turn) {
    t.p < |s.procs| && s.procs[t.p].pc.Wr? && (t.Kill? || (t.Step? && s.procs[t.p].pc.seqno >= INT_MAX))
  }

  /** The schedule has such a turn when k + 1 numbers have been printed. */
  predicate StoppedAt(n: nat, text: string, turns: seq<Turn>, k: nat) {
    turns != [] &&
      var before := turns[..|turns| - 1];
      var s := Reached(n, 1, text, before);
      StoppedAt(n, text, before, k) || (StopsWriter(s, turns[|turns| - 1]) && |s.prints| == k + 1)
  }

  predicate SomeWriter(s: Sys) { exists p :: 0 <= p < |s.procs| && s.procs[p].pc.Wr? }

  /** What a stop, or none, means for the k-th print. */
  predicate Told(s: Sys, k: nat, stopped: bool)
    requires k < |s.prints|
  {
    var last := k + 1 == |s.prints|;
    if stopped then !s.prints[k].written && (last ==> !SomeWriter(s))
    else s.prints[k].written || (last && SomeWriter(s))
  }

  // ----- what a turn does to the printed numbers -----

  datatype Effect = Printed | Written | Stopped | NoEffect

  function EffectOf(s: Sys, t: Turn): Effect {
    if t.p >= |s.procs| then NoEffect
    else if StopsWriter(s, t) then Stopped
    else if t.Step? && s.procs[t.p].pc.Rd? && ReadNumber(s.file).Some? then Printed
    else if t.Step? && s.procs[t.p].pc.Wr? then Written
    else NoEffect
  }

  /** Two processes are never in the critical section, so a writer is the only one. */
  lemma OnlyWriter(s: Sys, p: nat)
    requires FileOk(s) && p < |s.procs| && s.procs[p].pc.InCrit()
    ensures forall q :: 0 <= q < |s.procs| && q != p ==> !s.procs[q].pc.Wr?
  {
    forall q | 0 <= q < |s.procs| && q != p ensures !s.procs[q].pc.Wr? {
      Alone(s, p, q);
    }
  }

  lemma ReaderFinds(s: Sys, p: nat)
    requires FileOk(s) && p < |s.procs| && s.procs[p].pc.Rd? && ReadNumber(s.file).Some?
    ensures var r, n := Run(s, p), First(s.start) + s.wrote;
            r.prints == s.prints + [Print(n, false)] && r.procs[p].pc.Wr?
  {
    hide Format, ReadNumber, Overwrite;
    PassesAddUp(s.start, s.wrote);
    RdEffect(s, p, First(s.start) + s.wrote);
  }

  lemma SamePlaces(s: Sys, r: Sys, p: nat)
    requires MovesOnly(s, r, p) && p < |s.procs| && s.procs[p].pc.Wr? == r.procs[p].pc.Wr?
    ensures SomeWriter(s) == SomeWriter(r)
  {
    assert forall q :: 0 <= q < |s.procs| ==> s.procs[q].pc.Wr? == r.procs[q].pc.Wr?;
  }

  /** A writer's own print is the last, and not written yet. */
  lemma WriterIsLast(s: Sys)
    requires FileOk(s) && SomeWriter(s)
    ensures s.prints != [] && !s.prints[|s.prints| - 1].written
  {
    var p :| 0 <= p < |s.procs| && s.procs[p].pc.Wr?;
    assert WriterOk(s, p);
  }

  lemma TurnEffect(s: Sys, t: Turn)
    requires FileOk(s)
    ensures var r := Take(s, t);
            match EffectOf(s, t)
            case Printed => !SomeWriter(s) && SomeWriter(r) && |r.prints| == |s.prints| + 1
                            && s.prints == r.prints[..|s.prints|] && !r.prints[|s.prints|].written
            case Written => SomeWriter(s) && !SomeWriter(r) && r.prints == MarkWritten(s.prints)
            case Stopped => SomeWriter(s) && !SomeWriter(r) && r.prints == s.prints
            case NoEffect => r.prints == s.prints && SomeWriter(r) == SomeWriter(s)
  {
    hide Format, ReadNumber, Overwrite, Run, Chain, Inv, InsideHere;
    if t.p < |s.procs| {
      var p, r := t.p, Take(s, t);
      var pc := s.procs[p].pc;
      if t.Step? && pc.Rd? && ReadNumber(s.file).Some? {
        OnlyWriter(s, p);
        ReaderFinds(s, p);
      } else if pc.Wr? {
        OnlyWriter(s, p);
        if t.Step? { WrEffect(s, p); }
      } else {
        if t.Step? && pc.Rd? {
          ReadsNone(s, p);
        }
        SamePlaces(s, r, p);
      }
    }
  }

  /** So a print once told stays told, and a new one is told as soon as it is there. */
  lemma ToldStep(s: Sys, t: Turn, k: nat, stopped: bool)
    requires FileOk(s) && !HitsInside(s, t) && k < |s.prints| && Told(s, k, stopped)
    ensures var r := Take(s, t);
            && |r.prints| >= |s.prints|
            && Told(r, k, stopped || (StopsWriter(s, t) && |s.prints| == k + 1))
  {
    hide FileOk, SomeWriter, Take;
    TurnEffect(s, t);
    if SomeWriter(s) { WriterIsLast(s); }
  }

  lemma ToldNew(s: Sys, t: Turn)
    requires FileOk(s) && !HitsInside(s, t)
    ensures var r := Take(s, t);
            && |r.prints| <= |s.prints| + 1
            && (|r.prints| > |s.prints| ==> Told(r, |s.prints|, false) && !StopsWriter(s, t))
  {
    hide FileOk, SomeWriter, Take;
    TurnEffect(s, t);
    if SomeWriter(s) { WriterIsLast(s); }
  }

  lemma {:induction false} PrintsTold(n: nat, text: string, turns: seq<Turn>, k: nat)
    requires n < BIGCOUNT && InRange(text) && Exclusive(n, 1, text, turns)
    ensures var s := Reached(n, 1, text, turns);
            if k < |s.prints|
            then Told(s, k, StoppedAt(n, text, turns, k))
            else !StoppedAt(n, text, turns, k)
  {
    hide FileOk, Told, StopsWriter, Take, Format, NeverHitsInside, HitsInside, Inv, InsideHere;
    ExclusiveInside(n, 1, text, turns);
    if turns != [] {
      var before, t := turns[..|turns| - 1], turns[|turns| - 1];
      var s := Reached(n, 1, text, before);
      NeverHitInsideBefore(n, 1, text, turns);
      ExecFile(n, text, before);
      PrintsTold(n, text, before, k);
      assert Reached(n, 1, text, turns) == Take(s, t);
      ToldNew(s, t);
      if k < |s.prints| {
        ToldStep(s, t, k, StoppedAt(n, text, before, k));
      }
    }
  }

  // ----- the claims -----

  /**
   A number is printed again, by the next printer, if and only if the schedule stops its printer before the
   write; otherwise the next number printed is the next number.
   */
  lemma RepeatsExactlyWhenStopped(n: nat, text: string, turns: seq<Turn>, k: nat)
    requires n < BIGCOUNT && InRange(text) && Exclusive(n, 1, text, turns)
    requires k + 1 < |Reached(n, 1, text, turns).prints|
    ensures var ps := Reached(n, 1, text, turns).prints;
            ps[k + 1].value == ps[k].value + if StoppedAt(n, text, turns, k) then 0 else 1
  {
    PrintsConsecutive(n, text, turns, k);
    PrintsTold(n, text, turns, k);
  }

  /** Nobody is stopped between print and write. */
  predicate Undisturbed(n: nat, text: string, turns: seq<Turn>) {
    turns != [] ==>
      var before := turns[..|turns| - 1];
      Undisturbed(n, text, before) && !StopsWriter(Reached(n, 1, text, before), turns[|turns| - 1])
  }

  lemma {:induction false} UndisturbedNeverStopped(n: nat, text: string, turns: seq<Turn>, k: nat)
    requires Undisturbed(n, text, turns)
    ensures !StoppedAt(n, text, turns, k)
  {
    hide StopsWriter, Reached;
    if turns != [] {
      UndisturbedNeverStopped(n, text, turns[..|turns| - 1], k);
    }
  }

  /** Then the printed numbers are first, first + 1, and so on, without a gap or a repeat. */
  lemma {:induction false} UndisturbedPrints(n: nat, text: string, turns: seq<Turn>, k: nat)
    requires n < BIGCOUNT && InRange(text) && Exclusive(n, 1, text, turns) && Undisturbed(n, text, turns)
    requires k < |Reached(n, 1, text, turns).prints|
    ensures Reached(n, 1, text, turns).prints[k].value == First(text) + k
    decreases k
  {
    hide Reached, StopsWriter;
    if k == 0 {
      PrintsConsecutive(n, text, turns, 0);
    } else {
      UndisturbedPrints(n, text, turns, k - 1);
      UndisturbedNeverStopped(n, text, turns, k - 1);
      RepeatsExactlyWhenStopped(n, text, turns, k - 1);
    }
  }

  predicate Distinct(ps: seq<Print>) {
    forall j, k :: 0 <= j < k < |ps| ==> ps[j].value != ps[k].value
  }

  /** None of the first m printers is stopped before its write. */
  predicate NoneStopped(n: nat, text: string, turns: seq<Turn>, m: int) {
    forall k: nat :: k < m ==> !StoppedAt(n, text, turns, k)
  }

  /** All printed numbers are distinct if and only if nobody was stopped before the write and printed after. */
  lemma DistinctExactly(n: nat, text: string, turns: seq<Turn>)
    requires n < BIGCOUNT && InRange(text) && Exclusive(n, 1, text, turns)
    ensures var ps := Reached(n, 1, text, turns).prints;
            Distinct(ps) <==> NoneStopped(n, text, turns, |ps| - 1)
  {
    hide Reached;
    var ps := Reached(n, 1, text, turns).prints;
    forall k | 0 <= k < |ps| - 1
      ensures ps[k + 1].value == ps[k].value + if StoppedAt(n, text, turns, k) then 0 else 1
    {
      RepeatsExactlyWhenStopped(n, text, turns, k);
    }
    if NoneStopped(n, text, turns, |ps| - 1) {
      Rising(ps);
    } else {
      var k: nat :| k < |ps| - 1 && StoppedAt(n, text, turns, k);
      var next := k + 1;
      assert ps[next].value == ps[k].value;
      assert !Distinct(ps);
    }
  }

  lemma {:induction false} Rising(ps: seq<Print>)
    requires forall k :: 0 <= k < |ps| - 1 ==> ps[k + 1].value == ps[k].value + 1
    ensures forall j, k :: 0 <= j < k < |ps| ==> ps[j].value < ps[k].value
  {
    if ps != [] {
      var init := ps[..|ps| - 1];
      Rising(init);
      forall j | 0 <= j < |init| ensures ps[j].value < ps[|init|].value {
        assert ps[|init| - 1 + 1].value == ps[|init| - 1].value + 1;
        assert init[j].value <= init[|init| - 1].value;
      }
    }
  }
}
