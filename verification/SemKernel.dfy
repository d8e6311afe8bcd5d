/** System V semaphore sets of three members: atomic semop arrays and per-process undo adjustments. */
module SemKernel {

  type Member = k: nat | k < 3

  datatype Members = Members(m0: int, m1: int, m2: int) {
    function Get(k: Member): int {
      if k == 0 then m0 else if k == 1 then m1 else m2
    }

    function Put(k: Member, x: int): Members {
      if k == 0 then this.(m0 := x) else if k == 1 then this.(m1 := x) else this.(m2 := x)
    }

    function Plus(o: Members): Members {
      Members(m0 + o.m0, m1 + o.m1, m2 + o.m2)
    }

    predicate NonNegative() { m0 >= 0 && m1 >= 0 && m2 >= 0 }
  }

  const ZERO := Members(0, 0, 0)

  datatype SemBuf = SemBuf(num: Member, op: int, undo: bool)

  datatype Outcome = Blocked | Done(val: Members, adj: Members)

  /** One semop call: every operation in order, or none of them. */
  function Semop(ops: seq<SemBuf>, val: Members, adj: Members): Outcome {
    if ops == [] then Done(val, adj)
    else
      var o := ops[0];
      var x := val.Get(o.num);
      if o.op == 0 then
        if x == 0 then Semop(ops[1..], val, adj) else Blocked
      else if x + o.op < 0 then Blocked
      else Semop(ops[1..], val.Put(o.num, x + o.op),
                 if o.undo then adj.Put(o.num, adj.Get(o.num) - o.op) else adj)
  }

  /** The head of a semop array, computed: the arrays of the library are short and fixed. */
  lemma SemopHead(o: SemBuf, rest: seq<SemBuf>, val: Members, adj: Members)
    ensures Semop([o] + rest, val, adj) ==
            var x := val.Get(o.num);
            if o.op == 0 then if x == 0 then Semop(rest, val, adj) else Blocked
            else if x + o.op < 0 then Blocked
            else Semop(rest, val.Put(o.num, x + o.op), if o.undo then adj.Put(o.num, adj.Get(o.num) - o.op) else adj)
  {
    assert ([o] + rest)[1..] == rest;
  }

  /** What exit does to a member: the adjustment is added, but never below zero. */
  function Undone(val: Members, adj: Members): Members {
    Members(AtLeast0(val.m0 + adj.m0), AtLeast0(val.m1 + adj.m1), AtLeast0(val.m2 + adj.m2))
  }

  function AtLeast0(x: int): int { if x < 0 then 0 else x }

  predicate AllUndo(ops: seq<SemBuf>) {
    forall k :: 0 <= k < |ops| && ops[k].op != 0 ==> ops[k].undo
  }

  /** The law behind SEM_UNDO: when every change carries it, value plus adjustment is conserved. */
  lemma {:induction false} SemopConserves(ops: seq<SemBuf>, val: Members, adj: Members)
    requires AllUndo(ops)
    ensures var r := Semop(ops, val, adj);
            r.Done? ==> r.val.Plus(r.adj) == val.Plus(adj)
    decreases |ops|
  {
    if ops != [] {
      var o := ops[0];
      var x := val.Get(o.num);
      if o.op == 0 {
        SemopConserves(ops[1..], val, adj);
      } else if x + o.op >= 0 {
        SemopConserves(ops[1..], val.Put(o.num, x + o.op), adj.Put(o.num, adj.Get(o.num) - o.op));
      }
    }
  }

  /** A semop never takes a member below zero. */
  lemma {:induction false} SemopNonNegative(ops: seq<SemBuf>, val: Members, adj: Members)
    requires val.NonNegative()
    ensures var r := Semop(ops, val, adj); r.Done? ==> r.val.NonNegative()
    decreases |ops|
  {
    if ops != [] {
      var o := ops[0];
      var x := val.Get(o.num);
      var adj' := if o.undo then adj.Put(o.num, adj.Get(o.num) - o.op) else adj;
      if o.op == 0 {
        SemopNonNegative(ops[1..], val, adj);
      } else if x + o.op >= 0 {
        SemopNonNegative(ops[1..], val.Put(o.num, x + o.op), adj');
      }
    }
  }

  /** What an array adds to a member; with undo alone, what it takes off the adjustment. */
  function Added(ops: seq<SemBuf>, k: Member, undoOnly: bool): int {
    if ops == [] then 0
    else (if ops[0].num == k && (ops[0].undo || !undoOnly) then ops[0].op else 0) + Added(ops[1..], k, undoOnly)
  }

  /** Each operation goes through where its predecessors have brought its member. */
  predicate AllPass(ops: seq<SemBuf>, val: Members) {
    forall j :: 0 <= j < |ops| ==>
      var x := val.Get(ops[j].num) + Added(ops[..j], ops[j].num, false);
      if ops[j].op == 0 then x == 0 else x + ops[j].op >= 0
  }

  /** The members a call changes, and by how much; and exactly when it goes through. */
  lemma {:induction false} SemopAdds(ops: seq<SemBuf>, val: Members, adj: Members, k: Member)
    ensures var r := Semop(ops, val, adj);
            r.Done? ==> r.val.Get(k) == val.Get(k) + Added(ops, k, false)
                        && r.adj.Get(k) == adj.Get(k) - Added(ops, k, true)
    decreases |ops|
  {
    if ops != [] {
      var o := ops[0];
      var x := val.Get(o.num);
      var adj' := if o.undo then adj.Put(o.num, adj.Get(o.num) - o.op) else adj;
      if o.op == 0 {
        SemopAdds(ops[1..], val, adj, k);
      } else if x + o.op >= 0 {
        SemopAdds(ops[1..], val.Put(o.num, x + o.op), adj', k);
      }
    }
  }

  lemma AddedFront(ops: seq<SemBuf>, j: nat, k: Member)
    requires 0 < j <= |ops|
    ensures Added(ops[..j], k, false) == (if ops[0].num == k then ops[0].op else 0) + Added(ops[1..][..j - 1], k, false)
  {
    assert ops[..j][1..] == ops[1..][..j - 1];
  }

  lemma {:induction false} GoesThroughExactly(ops: seq<SemBuf>, val: Members, adj: Members)
    ensures Semop(ops, val, adj).Done? <==> AllPass(ops, val)
    decreases |ops|
  {
    if ops != [] {
      var o, rest := ops[0], ops[1..];
      var x := val.Get(o.num);
      var val' := val.Put(o.num, x + o.op);
      var adj' := if o.undo then adj.Put(o.num, adj.Get(o.num) - o.op) else adj;
      assert ops[..0] == [];
      PassesBehind(ops, val);
      if o.op == 0 {
        assert val' == val;
        GoesThroughExactly(rest, val, adj);
      } else if x + o.op >= 0 {
        GoesThroughExactly(rest, val', adj');
      }
    }
  }

  lemma PassesBehind(ops: seq<SemBuf>, val: Members)
    requires ops != []
    ensures var o := ops[0];
            var x := val.Get(o.num);
            AllPass(ops, val) <==>
              (if o.op == 0 then x == 0 else x + o.op >= 0) && AllPass(ops[1..], val.Put(o.num, x + o.op))
  {
    var o, rest := ops[0], ops[1..];
    var x := val.Get(o.num);
    var val' := val.Put(o.num, x + o.op);
    assert ops[..0] == [];
    forall j | 0 <= j < |rest|
      ensures val'.Get(rest[j].num) + Added(rest[..j], rest[j].num, false)
              == val.Get(ops[j + 1].num) + Added(ops[..j + 1], ops[j + 1].num, false)
    {
      AddedFront(ops, j + 1, rest[j].num);
    }
    if AllPass(ops, val) {
      forall j | 0 <= j < |rest|
        ensures var y := val'.Get(rest[j].num) + Added(rest[..j], rest[j].num, false);
                if rest[j].op == 0 then y == 0 else y + rest[j].op >= 0
      {
        var i := j + 1;
        assert ops[i] == rest[j];
      }
    }
    if (if o.op == 0 then x == 0 else x + o.op >= 0) && AllPass(rest, val') {
      forall j | 0 <= j < |ops|
        ensures var y := val.Get(ops[j].num) + Added(ops[..j], ops[j].num, false);
                if ops[j].op == 0 then y == 0 else y + ops[j].op >= 0
      {
        if j > 0 {
          var i := j - 1;
          assert ops[j] == rest[i];
        }
      }
    }
  }

  /** The adjustments of all processes together. */
  function Total(adj: seq<Members>): Members {
    if adj == [] then ZERO else Total(adj[..|adj| - 1]).Plus(adj[|adj| - 1])
  }

  lemma {:induction false} TotalUpdate(adj: seq<Members>, p: nat, a: Members)
    requires p < |adj|
    ensures Total(adj[p := a]).Plus(adj[p]) == Total(adj).Plus(a)
  {
    var n := |adj| - 1;
    if p == n {
      assert adj[p := a][..n] == adj[..n];
    } else {
      assert adj[p := a][..n] == adj[..n][p := a];
      TotalUpdate(adj[..n], p, a);
    }
  }

  /** The kernel's copy of one set, changed in place. */
  class SemSet {
    var val: Members
    var adj: seq<Members>   // one adjustment vector per process

    constructor (n: nat)
      ensures val == ZERO && |adj| == n && forall p :: 0 <= p < n ==> adj[p] == ZERO
    {
      val := ZERO;
      adj := seq(n, _ => ZERO);
    }

    /** semop: the array is tried in order; nothing is committed unless all of it goes through. */
    method Op(p: nat, ops: seq<SemBuf>) returns (done: bool)
      requires p < |adj|
      modifies this
      ensures |adj| == |old(adj)|
      ensures done == Semop(ops, old(val), old(adj)[p]).Done?
      ensures done ==> Done(val, adj[p]) == Semop(ops, old(val), old(adj)[p])
      ensures done ==> adj == old(adj)[p := adj[p]]
      ensures !done ==> val == old(val) && adj == old(adj)
      ensures AllUndo(ops) ==> val.Plus(Total(adj)) == old(val.Plus(Total(adj)))
    {
      var v, a := val, adj[p];
      for i := 0 to |ops|
        invariant Semop(ops, val, adj[p]) == Semop(ops[i..], v, a)
        invariant val == old(val) && adj == old(adj)
      {
        var o := ops[i];
        var x := v.Get(o.num);
        assert ops[i..][0] == o && ops[i..][1..] == ops[i + 1..];
        if o.op == 0 {
          if x != 0 {
            return false;
          }
        } else {
          if x + o.op < 0 {
            return false;
          }
          v := v.Put(o.num, x + o.op);
          if o.undo {
            a := a.Put(o.num, a.Get(o.num) - o.op);
          }
        }
      }
      TotalUpdate(adj, p, a);
      if AllUndo(ops) {
        SemopConserves(ops, val, adj[p]);
      }
      val, adj := v, adj[p := a];
      return true;
    }

    /** semctl SETVAL: sets the member and clears every process's adjustment for it. */
    method SetVal(k: Member, x: nat)
      modifies this
      ensures val == old(val).Put(k, x)
      ensures |adj| == |old(adj)|
      ensures forall p :: 0 <= p < |adj| ==> adj[p] == old(adj)[p].Put(k, 0)
    {
      val := val.Put(k, x);
      for p := 0 to |adj|
        invariant val == old(val).Put(k, x) && |adj| == |old(adj)|
        invariant forall q :: 0 <= q < p ==> adj[q] == old(adj)[q].Put(k, 0)
        invariant forall q :: p <= q < |adj| ==> adj[q] == old(adj)[q]
      {
        adj := adj[p := adj[p].Put(k, 0)];
      }
    }

    /**
     exit: the process's adjustments are applied and forgotten.  Unless a value would have to go below zero,
     values and adjustments together are what they were: the undo law holds through death too.
     */
    method Exit(p: nat)
      requires p < |adj|
      modifies this
      ensures val == Undone(old(val), old(adj)[p])
      ensures adj == old(adj)[p := ZERO]
      ensures old(val.Plus(adj[p])).NonNegative() ==> val.Plus(Total(adj)) == old(val.Plus(Total(adj)))
    {
      TotalUpdate(adj, p, ZERO);
      val := Undone(val, adj[p]);
      adj := adj[p := ZERO];
    }
  }
}
