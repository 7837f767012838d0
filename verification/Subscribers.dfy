/**
 The subscribers of a publisher (lib/cmos/cmos_pub.c): accepted into an array of 256 sockets, and taken out
 in place, during the very loop that sends to them, when a send fails.
 */
module Subscribers {
  const MAX_SUBS := 256

  /** What send does: take the message, refuse it for lack of buffer space, or fail for good. */
  datatype Outcome = Delivered | Full | Broken

  /** The subscribers that stay, in their order. */
  function Survivors(subs: seq<int>, out: nat -> Outcome): (r: seq<int>)
    ensures |r| <= |subs|
  {
    if subs == [] then []
    else
      var n := |subs| - 1;
      Survivors(subs[..n], out) + StaysIf(out(n), subs[n])
  }

  /** The subscribers that got the message. */
  function Reached(subs: seq<int>, out: nat -> Outcome): seq<int> {
    if subs == [] then []
    else
      var n := |subs| - 1;
      Reached(subs[..n], out) + if out(n).Delivered? then [subs[n]] else []
  }

  /** Nobody is lost, nobody is kept, by accident: membership, for distinct sockets. */
  lemma {:induction false} SurvivorsExactly(subs: seq<int>, out: nat -> Outcome, i: nat)
    requires i < |subs| && forall a, b :: 0 <= a < b < |subs| ==> subs[a] != subs[b]
    ensures subs[i] in Survivors(subs, out) <==> !out(i).Broken?
    ensures subs[i] in Reached(subs, out) <==> out(i).Delivered?
  {
    var n := |subs| - 1;
    SurvivorsAreSubs(subs[..n], out);
    if i < n {
      assert subs[..n][i] == subs[i] && subs[i] != subs[n];
      SurvivorsExactly(subs[..n], out, i);
    } else {
      assert subs[n] !in subs[..n];
    }
  }

  lemma {:induction false} SurvivorsAreSubs(subs: seq<int>, out: nat -> Outcome)
    ensures forall s :: s in Survivors(subs, out) ==> s in subs
    ensures forall s :: s in Reached(subs, out) ==> s in Survivors(subs, out)
  {
    if subs != [] {
      SurvivorsAreSubs(subs[..|subs| - 1], out);
    }
  }

  predicate Rising(s: seq<int>) {
    forall a, b :: 0 <= a < b < |s| ==> s[a] < s[b]
  }

  /** Nor does anybody change places. */
  lemma {:induction false} SurvivorsInOrder(subs: seq<int>, out: nat -> Outcome)
    requires Rising(subs)
    ensures Rising(Survivors(subs, out)) && Rising(Reached(subs, out))
  {
    if subs != [] {
      var n := |subs| - 1;
      SurvivorsInOrder(subs[..n], out);
      SurvivorsAreSubs(subs[..n], out);
      forall s | s in subs[..n] ensures s < subs[n] {
        var i :| 0 <= i < n && subs[..n][i] == s;
        assert subs[i] < subs[n];
      }
      LastIsLargest(Survivors(subs[..n], out), subs[n], subs[..n]);
      LastIsLargest(Reached(subs[..n], out), subs[n], subs[..n]);
    }
  }

  lemma LastIsLargest(s: seq<int>, x: int, all: seq<int>)
    requires Rising(s) && (forall e :: e in s ==> e in all) && forall e :: e in all ==> e < x
    ensures Rising(s + [x])
  {
    forall a | 0 <= a < |s| ensures s[a] < x {
      assert s[a] in s;
    }
  }

  lemma NextSubscriber(subs: seq<int>, out: nat -> Outcome, j: nat)
    requires j < |subs|
    ensures Survivors(subs[..j + 1], out) == Survivors(subs[..j], out) + StaysIf(out(j), subs[j])
    ensures Reached(subs[..j + 1], out) == Reached(subs[..j], out) + if out(j).Delivered? then [subs[j]] else []
  {
    assert subs[..j + 1][..j] == subs[..j];
  }

  class Publisher {
    const socks: array<int>
    var count: nat

    ghost predicate Valid()
      reads this, socks
    {
      && socks.Length == MAX_SUBS && count <= MAX_SUBS
      && forall i :: count <= i < MAX_SUBS ==> socks[i] == -1
    }

    ghost function Subs(): (s: seq<int>)
      reads this, socks
      requires Valid()
      ensures |s| == count
    {
      socks[..count]
    }

    constructor ()
      ensures Valid() && Subs() == [] && fresh(socks)
    {
      socks := new int[MAX_SUBS](_ => -1);
      count := 0;
    }

    /** cmos_pub_poll: a connection past the 256th is closed again. */
    method Accept(sock: int) returns (kept: bool)
      requires Valid()
      modifies this`count, socks
      ensures Valid()
      ensures kept <==> old(count) < 256
      ensures Subs() == if kept then old(Subs()) + [sock] else old(Subs())
    {
      kept := count < MAX_SUBS;
      if kept {
        socks[count] := sock;
        count := count + 1;
      }
    }

    /** Take out the i-th socket: shift the rest left and clear the last place. */
    method Remove(i: nat)
      requires Valid() && i < count
      modifies this`count, socks
      ensures Valid()
      ensures Subs() == old(Subs())[..i] + old(Subs())[i + 1..]
    {
      ghost var before := Subs();
      var k := i;
      while k < count - 1
        invariant i <= k < count == old(count)
        invariant forall n :: 0 <= n < MAX_SUBS ==> socks[n] == if i <= n < k then old(socks[n + 1]) else old(socks[n])
      {
        socks[k] := socks[k + 1];
        k := k + 1;
      }
      count := count - 1;
      socks[count] := -1;
    }

    /** One send, and what it means for the array; i' is the next socket to send to. */
    method SendTo(i: nat, o: Outcome) returns (i': nat, got: seq<int>)
      requires Valid() && i < count
      modifies this`count, socks
      ensures Valid()
      ensures Subs() == old(Subs())[..i] + StaysIf(o, old(Subs())[i]) + old(Subs())[i + 1..]
      ensures got == (if o.Delivered? then [old(Subs())[i]] else []) && i' == i + |StaysIf(o, old(Subs())[i])|
    {
      i', got := i, [];
      match o {
        case Full =>
          i' := i + 1;
        case Delivered =>
          got := [socks[i]];
          i' := i + 1;
        case Broken =>
          Remove(i);
      }
    }

    /** The send loop of cmos_publish; out(j) is what the j-th send does. Sockets that got the message are returned. */
    method Broadcast(out: nat -> Outcome) returns (reached: seq<int>)
      requires Valid()
      modifies this`count, socks
      ensures Valid()
      ensures Subs() == Survivors(old(Subs()), out)
      ensures reached == Reached(old(Subs()), out)
    {
      ghost var all := Subs();
      reached := [];
      var i, j := 0, 0;
      while i < count
        invariant Valid() && j <= |all| && i == |Survivors(all[..j], out)|
        invariant Subs() == Survivors(all[..j], out) + all[j..]
        invariant reached == Reached(all[..j], out)
        decreases |all| - j
      {
        ghost var before, at := Subs(), i;
        var got;
        i, got := SendTo(i, out(j));
        NextSend(all, out, j, before, Subs(), at);
        reached := reached + got;
        j := j + 1;
      }
      assert all[..j] == all;
    }
  }

  function StaysIf(o: Outcome, sock: int): seq<int> {
    if o.Broken? then [] else [sock]
  }

  /** One send takes the array from the j-th stage to the next. */
  lemma NextSend(all: seq<int>, out: nat -> Outcome, j: nat, before: seq<int>, after: seq<int>, i: nat)
    requires j < |all| && before == Survivors(all[..j], out) + all[j..] && i == |Survivors(all[..j], out)|
    requires after == before[..i] + StaysIf(out(j), before[i]) + before[i + 1..]
    ensures before[i] == all[j] && after == Survivors(all[..j + 1], out) + all[j + 1..]
    ensures i + |StaysIf(out(j), all[j])| == |Survivors(all[..j + 1], out)|
    ensures Reached(all[..j + 1], out) == Reached(all[..j], out) + if out(j).Delivered? then [all[j]] else []
  {
    NextSubscriber(all, out, j);
    StepAlong(Survivors(all[..j], out), all, j, StaysIf(out(j), all[j]));
  }

  lemma StepAlong(done: seq<int>, all: seq<int>, j: nat, keep: seq<int>)
    requires j < |all|
    ensures var s, i := done + all[j..], |done|;
      s[i] == all[j] && s[..i] + keep + s[i + 1..] == (done + keep) + all[j + 1..]
  {
  }
}
