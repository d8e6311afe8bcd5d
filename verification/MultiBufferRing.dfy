/**
 The two loops of the multi-buffer pair in place: what one pass of each does to the shared ring when the
 other does not come in between, and the whole transfer when passes alternate in any order.
 MultiBuffer has the single statements.
 */
module MultiBufferRing {
  import opened MultiBuffer
  import opened Sequences

  /** Index k steps behind i in a ring of n. */
  function Behind(i: nat, k: nat, n: nat): (r: nat)
    requires i < n && k <= n
    ensures r < n
  {
    if i + k < n then i + k else i + k - n
  }

  /** Printed, pending and unread text make the file; only the last message once sent is empty. */
  predicate Progress(content: string, pos: nat, sent: bool, out: string, pending: seq<string>) {
    && pos <= |content| && (sent ==> pos == |content| && pending != [])
    && out + Join(pending) + content[pos..] == content
    && forall k :: 0 <= k < |pending| ==> (pending[k] == "" <==> sent && k == |pending| - 1)
  }

  lemma BeforeAll(content: string)
    ensures Progress(content, 0, false, "", [])
  {
  }

  lemma InBounds(content: string, pos: nat, sent: bool, out: string, pending: seq<string>)
    requires Progress(content, pos, sent, out, pending)
    ensures pos <= |content| && (sent ==> pos == |content| && pending != [])
  {
  }

  lemma AfterFill(content: string, pos: nat, out: string, pending: seq<string>, n: nat)
    requires Progress(content, pos, false, out, pending)
    requires pos + n <= |content| && (n == 0 <==> pos == |content|)
    ensures Progress(content, pos + n, n == 0, out, pending + [content[pos..pos + n]])
  {
    var m, rest := content[pos..pos + n], content[pos + n..];
    JoinPush(pending, m);
    assert content[pos..] == m + rest;
    assert out + (Join(pending) + m) + rest == out + Join(pending) + (m + rest);
  }

  lemma AfterTake(content: string, pos: nat, sent: bool, out: string, pending: seq<string>)
    requires Progress(content, pos, sent, out, pending) && pending != []
    ensures if pending[0] == "" then out == content && pending[1..] == []
            else Progress(content, pos, sent, out + pending[0], pending[1..])
  {
    var m, more := pending[0], pending[1..];
    JoinFront(pending);
    if m == "" {
      assert more == [] && content[pos..] == "";
      JoinNothing<char>();
    } else {
      assert out + m + Join(more) == out + (m + Join(more));
    }
  }

  class Ring {
    const mesg: array<string>      // mesg[i]: the data of shared buffer i; its length is the text's
    var clisem: nat
    var servsem: nat
    var filling: nat               // the server's i
    var taking: nat                // the client's i
    ghost var pending: seq<string> // what has been filled and not yet taken

    ghost predicate Valid()
      reads this, mesg
    {
      && mesg.Length >= 2 && filling < mesg.Length && taking < mesg.Length
      && clisem == |pending| && clisem + servsem == mesg.Length
      && filling == Behind(taking, |pending|, mesg.Length)
      && forall k :: 0 <= k < |pending| ==> mesg[Behind(taking, k, mesg.Length)] == pending[k]
    }

    /** The ring as the client's first wait finds it: primed, nothing sent. */
    constructor (nbuff: nat)
      requires nbuff >= 2
      ensures Valid() && pending == [] && mesg.Length == nbuff && fresh(mesg)
    {
      mesg := new string[nbuff](_ => "");
      clisem, servsem, filling, taking, pending := 0, 0, 0, 0, [];
      new;
      for i := 0 to nbuff
        invariant servsem == i && clisem == 0 && filling == 0 && taking == 0 && pending == []
      {
        servsem := servsem + 1;
      }
    }

    /** One pass of the server's inner loop: wait, read into the buffer, signal, next buffer. */
    method Fill(content: string, pos: nat, want: nat) returns (n: nat)
      requires Valid() && servsem > 0 && pos <= |content|
      modifies this`clisem, this`servsem, this`filling, this`pending, mesg
      ensures Valid() && taking == old(taking)
      ensures pos + n <= |content| && (n == 0 <==> pos == |content|) && n <= MAXREAD
      ensures pending == old(pending) + [content[pos..pos + n]]
    {
      servsem := servsem - 1;
      n := ReadLen(|content| - pos, want);
      mesg[filling] := content[pos..pos + n];
      clisem := clisem + 1;
      filling := if filling + 1 < mesg.Length then filling + 1 else 0;
      pending := pending + [content[pos..pos + n]];
    }

    /** One pass of the client's: wait, look, and unless it is the end write out, signal, next buffer. */
    method Take() returns (m: string)
      requires Valid() && clisem > 0
      modifies this`clisem, this`servsem, this`taking, this`pending
      ensures m == old(pending)[0] && filling == old(filling)
      ensures pending == old(pending)[1..]
      ensures m != "" ==> Valid()
    {
      clisem := clisem - 1;
      m := mesg[taking];
      assert Behind(taking, 0, mesg.Length) == taking;
      ghost var was, i := pending, taking;
      pending := pending[1..];
      if m == "" {
        return;
      }
      servsem := servsem + 1;
      taking := if taking + 1 < mesg.Length then taking + 1 else 0;
      forall k | 0 <= k < |pending| ensures mesg[Behind(taking, k, mesg.Length)] == pending[k] {
        assert pending[k] == was[k + 1] && Behind(taking, k, mesg.Length) == Behind(i, k + 1, mesg.Length);
      }
    }

    /**
     The whole transfer: whoever can make a pass may, in the order of the schedule; the client prints the
     file, and at the end nothing is pending.
     */
    method Transfer(content: string, schedule: nat -> (bool, nat)) returns (out: string)
      requires Valid() && pending == []
      modifies this, mesg
      ensures out == content && pending == []
    {
      hide Join, Progress;
      var pos, sent, done, t := 0, false, false, 0;
      out := "";
      BeforeAll(content);
      while !done
        invariant !done ==> Valid() && Progress(content, pos, sent, out, pending)
        invariant done ==> out == content && pending == []
        decreases !done, |content| - pos, !sent, |pending|
      {
        InBounds(content, pos, sent, out, pending);
        var (server, want) := schedule(t);
        t := t + 1;
        ghost var before := pending;
        if !sent && servsem > 0 && (server || clisem == 0) {
          var n := Fill(content, pos, want);
          AfterFill(content, pos, out, before, n);
          pos := pos + n;
          sent := n == 0;
          InBounds(content, pos, sent, out, pending);
        } else {
          AfterTake(content, pos, sent, out, before);
          var m := Take();
          out := out + m;
          done := m == "";
        }
      }
    }
  }
}
