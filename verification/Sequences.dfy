/** Messages strung together. */
module Sequences {

  function Join<T>(ms: seq<seq<T>>): seq<T> {
    if ms == [] then [] else Join(ms[..|ms| - 1]) + ms[|ms| - 1]
  }

  lemma JoinNothing<T>()
    ensures Join<T>([]) == []
  {
  }

  lemma JoinPush<T>(ms: seq<seq<T>>, m: seq<T>)
    ensures Join(ms + [m]) == Join(ms) + m
  {
    assert (ms + [m])[..|ms + [m]| - 1] == ms;
  }

  lemma {:induction false} JoinFront<T>(ms: seq<seq<T>>)
    requires ms != []
    ensures Join(ms) == ms[0] + Join(ms[1..])
  {
    var init, last := ms[..|ms| - 1], ms[|ms| - 1];
    if init == [] {
      assert ms[1..] == [];
      assert Join(init) == [];
    } else {
      JoinFront(init);
      assert ms[1..] == init[1..] + [last];
      JoinPush(init[1..], last);
      assert ms[0] + (Join(init[1..]) + last) == ms[0] + Join(init[1..]) + last;
    }
  }

  lemma {:induction false} JoinPrefix<T>(ms: seq<seq<T>>, k: nat)
    requires k <= |ms|
    ensures Join(ms[..k]) <= Join(ms)
  {
    if k == |ms| {
      assert ms[..k] == ms;
    } else {
      JoinPrefix(ms[..|ms| - 1], k);
      assert ms[..|ms| - 1][..k] == ms[..k];
    }
  }
}
