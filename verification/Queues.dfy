/** Queues of process slots, as the kernel threads them through the process table: the
    ready queues (p_nextready, rdy_head, rdy_tail) and the caller queues (p_q_link,
    p_caller_q).  The specification of a queue is a sequence of slot numbers. */
module Queues {
  const NIL := -1

  type Queue = seq<nat>

  /** Every slot occurs at most once, in at most one queue. */
  ghost predicate Disjoint(qs: seq<Queue>) {
    forall d, i, e, j :: Apart(qs, d, i, e, j)
  }

  /** Positions (d, i) and (e, j), if both exist and hold the same slot, are the same. */
  ghost predicate Apart(qs: seq<Queue>, d: int, i: int, e: int, j: int) {
    0 <= d < |qs| && 0 <= e < |qs| && 0 <= i < |qs[d]| && 0 <= j < |qs[e]| && qs[d][i] == qs[e][j]
    ==> d == e && i == j
  }

  ghost predicate Bounded(qs: seq<Queue>, n: nat) {
    forall d, i :: 0 <= d < |qs| && 0 <= i < |qs[d]| ==> qs[d][i] < n
  }

  /** Slot x is somewhere in the queues. */
  ghost predicate Occurs(qs: seq<Queue>, x: nat) {
    exists d :: 0 <= d < |qs| && x in qs[d]
  }

  function RemoveAt(q: Queue, k: nat): Queue
    requires k < |q|
  {
    q[..k] + q[k + 1..]
  }

  /** The queue without the first occurrence of x. */
  function Remove(q: Queue, x: nat): Queue {
    if q == [] then []
    else if q[0] == x then q[1..]
    else [q[0]] + Remove(q[1..], x)
  }

  lemma {:induction false} RemoveIsRemoveAt(q: Queue, x: nat, k: nat)
    requires k < |q| && q[k] == x && x !in q[..k]
    ensures Remove(q, x) == RemoveAt(q, k)
  {
    if k > 0 {
      assert q[..k][0] == q[0];
      assert q[1..][..k - 1] == q[..k][1..];
      RemoveIsRemoveAt(q[1..], x, k - 1);
    }
  }

  lemma {:induction false} RemoveBounded(q: Queue, x: nat, n: nat)
    requires forall i :: 0 <= i < |q| ==> q[i] < n
    ensures forall i :: 0 <= i < |Remove(q, x)| ==> Remove(q, x)[i] < n
  {
    if q != [] {
      RemoveBounded(q[1..], x, n);
    }
  }

  lemma {:induction false} RemoveAbsent(q: Queue, x: nat)
    requires x !in q
    ensures Remove(q, x) == q
  {
    if q != [] {
      RemoveAbsent(q[1..], x);
    }
  }

  /** Taking slot qs[d][k] out leaves every other slot where it was and that one nowhere. */
  lemma RemovedEverywhere(qs: seq<Queue>, d: nat, k: nat)
    requires d < |qs| && k < |qs[d]| && Disjoint(qs)
    ensures var after := qs[d := RemoveAt(qs[d], k)];
            && Disjoint(after)
            && !Occurs(after, qs[d][k])
            && (forall x :: x != qs[d][k] ==> (Occurs(after, x) <==> Occurs(qs, x)))
            && (forall n :: Bounded(qs, n) ==> Bounded(after, n))
  {
    var gone := qs[d][k];
    var after := qs[d := RemoveAt(qs[d], k)];
    forall e, i | 0 <= e < |after| && 0 <= i < |after[e]|
      ensures exists j :: 0 <= j < |qs[e]| && after[e][i] == qs[e][j] && (e == d ==> j == (if i < k then i else i + 1))
    {
      assert after[e][i] == qs[e][if e == d && i >= k then i + 1 else i];
    }
    forall e, i, f, j
      ensures Apart(after, e, i, f, j)
    {
      assert Apart(qs, e, if e == d && i >= k then i + 1 else i, f, if f == d && j >= k then j + 1 else j);
    }
    forall e, i | 0 <= e < |after| && 0 <= i < |after[e]|
      ensures after[e][i] != gone
    {
      assert Apart(qs, d, k, e, if e == d && i >= k then i + 1 else i);
    }
    forall x | x != gone && Occurs(qs, x)
      ensures Occurs(after, x)
    {
      var e :| 0 <= e < |qs| && x in qs[e];
      var j :| 0 <= j < |qs[e]| && qs[e][j] == x;
      assert after[e][if e == d && j > k then j - 1 else j] == x;
    }
  }

  lemma AppendedEverywhere(qs: seq<Queue>, d: nat, x: nat)
    requires d < |qs| && Disjoint(qs) && !Occurs(qs, x)
    ensures var after := qs[d := qs[d] + [x]];
            && Disjoint(after)
            && Occurs(after, x)
            && (forall y :: y != x ==> (Occurs(after, y) <==> Occurs(qs, y)))
            && (forall n :: Bounded(qs, n) && x < n ==> Bounded(after, n))
  {
    var after := qs[d := qs[d] + [x]];
    assert after[d][|qs[d]|] == x;
    assert x in after[d];
    forall e, i, f, j
      ensures Apart(after, e, i, f, j)
    {
      assert Apart(qs, e, i, f, j);
      assert 0 <= e < |qs| && 0 <= i < |qs[e]| ==> qs[e][i] in qs[e];
      assert 0 <= f < |qs| && 0 <= j < |qs[f]| ==> qs[f][j] in qs[f];
    }
    forall y | Occurs(qs, y)
      ensures Occurs(after, y)
    {
      var e :| 0 <= e < |qs| && y in qs[e];
      assert y in after[e];
    }
  }

  lemma PrependedEverywhere(qs: seq<Queue>, d: nat, x: nat)
    requires d < |qs| && Disjoint(qs) && !Occurs(qs, x)
    ensures var after := qs[d := [x] + qs[d]];
            && Disjoint(after)
            && Occurs(after, x)
            && (forall y :: y != x ==> (Occurs(after, y) <==> Occurs(qs, y)))
            && (forall n :: Bounded(qs, n) && x < n ==> Bounded(after, n))
  {
    var after := qs[d := [x] + qs[d]];
    assert after[d][0] == x;
    assert x in after[d];
    forall e, i, f, j
      ensures Apart(after, e, i, f, j)
    {
      var m, n := if e == d then i - 1 else i, if f == d then j - 1 else j;
      assert Apart(qs, e, m, f, n);
      assert 0 <= e < |qs| && 0 <= m < |qs[e]| ==> qs[e][m] in qs[e];
      assert 0 <= f < |qs| && 0 <= n < |qs[f]| ==> qs[f][n] in qs[f];
    }
    forall y | Occurs(qs, y)
      ensures Occurs(after, y)
    {
      var e :| 0 <= e < |qs| && y in qs[e];
      assert y in after[e];
    }
  }

  /** The slot at position j of a queue, or NIL past its end. */
  function At(q: Queue, j: nat): int {
    if j < |q| then q[j] else NIL
  }

  function Last(q: Queue): int {
    if q == [] then NIL else q[|q| - 1]
  }

  /** The links lead from each slot of the queue to its successor, the last one to NIL. */
  ghost predicate Chain(link: seq<int>, q: Queue) {
    forall j :: 0 <= j < |q| ==> Linked(link, q, j)
  }

  ghost predicate Linked(link: seq<int>, q: Queue, j: nat)
    requires j < |q|
  {
    q[j] < |link| && link[q[j]] == At(q, j + 1)
  }

  ghost predicate Chains(link: seq<int>, qs: seq<Queue>) {
    forall d :: 0 <= d < |qs| ==> Chain(link, qs[d])
  }

  /** After the end of queue d links to x and x to NIL, x is at the end of queue d. */
  lemma ChainsAppended(link: seq<int>, linked: seq<int>, qs: seq<Queue>, d: nat, x: nat)
    requires Chains(link, qs) && d < |qs| && x < |link| && Disjoint(qs) && !Occurs(qs, x)
    requires |linked| == |link| && linked[x] == NIL
    requires forall i :: 0 <= i < |link| && i != x && i != Last(qs[d]) ==> linked[i] == link[i]
    requires qs[d] != [] ==> Last(qs[d]) < |link| && linked[Last(qs[d])] == x
    ensures Chains(linked, qs[d := qs[d] + [x]])
  {
    var after := qs[d := qs[d] + [x]];
    forall e | 0 <= e < |after|
      ensures Chain(linked, after[e])
    {
      assert Chain(link, qs[e]) && Chain(link, qs[d]);
      forall j: nat | j < |after[e]|
        ensures Linked(linked, after[e], j)
      {
        assert Apart(qs, e, j, d, |qs[d]| - 1);
        if j < |qs[e]| {
          assert qs[e][j] in qs[e] && Linked(link, qs[e], j);
        }
      }
    }
  }

  /** After x links to the old head of queue d, x is at its front. */
  lemma ChainsPrepended(link: seq<int>, linked: seq<int>, qs: seq<Queue>, d: nat, x: nat)
    requires Chains(link, qs) && d < |qs| && x < |link| && !Occurs(qs, x)
    requires |linked| == |link| && linked[x] == At(qs[d], 0)
    requires forall i :: 0 <= i < |link| && i != x ==> linked[i] == link[i]
    ensures Chains(linked, qs[d := [x] + qs[d]])
  {
    var after := qs[d := [x] + qs[d]];
    forall e | 0 <= e < |after|
      ensures Chain(linked, after[e])
    {
      assert Chain(link, qs[e]);
      forall j: nat | j < |after[e]|
        ensures Linked(linked, after[e], j)
      {
        if e != d || j > 0 {
          var i := if e == d then j - 1 else j;
          assert qs[e][i] in qs[e] && Linked(link, qs[e], i);
        }
      }
    }
  }

  /** After the predecessor of slot k of queue d links past it, that slot has left the queue. */
  lemma ChainsRemoved(link: seq<int>, linked: seq<int>, qs: seq<Queue>, d: nat, k: nat)
    requires Chains(link, qs) && d < |qs| && k < |qs[d]| && Disjoint(qs)
    requires |linked| == |link|
    requires forall i :: 0 <= i < |link| && (k == 0 || i != qs[d][k - 1]) ==> linked[i] == link[i]
    requires k > 0 ==> qs[d][k - 1] < |link| && linked[qs[d][k - 1]] == At(qs[d], k + 1)
    ensures Chains(linked, qs[d := RemoveAt(qs[d], k)])
  {
    var after := qs[d := RemoveAt(qs[d], k)];
    forall e | 0 <= e < |after|
      ensures Chain(linked, after[e])
    {
      assert Chain(link, qs[e]) && Chain(link, qs[d]);
      forall j: nat | j < |after[e]|
        ensures Linked(linked, after[e], j)
      {
        var i := if e == d && j >= k then j + 1 else j;
        assert Linked(link, qs[e], i) && Apart(qs, e, i, d, k - 1);
      }
    }
  }

  lemma DisjointInserted(qs: seq<Queue>, d: nat, x: nat, front: bool)
    requires d < |qs| && Disjoint(qs) && !Occurs(qs, x)
    ensures Disjoint(qs[d := if front then [x] + qs[d] else qs[d] + [x]])
  {
    if front { PrependedEverywhere(qs, d, x); } else { AppendedEverywhere(qs, d, x); }
  }

  lemma DisjointRemoved(qs: seq<Queue>, d: nat, k: nat)
    requires d < |qs| && k < |qs[d]| && Disjoint(qs)
    ensures Disjoint(qs[d := RemoveAt(qs[d], k)])
  {
    RemovedEverywhere(qs, d, k);
  }

  lemma QueueDropped(link: seq<int>, qs: seq<Queue>, d: nat)
    requires d < |qs| && Disjoint(qs) && Chains(link, qs)
    ensures Disjoint(qs[d := []]) && Chains(link, qs[d := []])
  {
    var after := qs[d := []];
    forall e, i, f, j
      ensures Apart(after, e, i, f, j)
    {
      assert Apart(qs, e, i, f, j);
    }
    forall e | 0 <= e < |after|
      ensures Chain(link, after[e])
    {
      assert Chain(link, qs[e]);
    }
  }

  /** Every queue begins at its head and ends at its tail. */
  ghost predicate HeadsAndTails(head: seq<int>, tail: seq<int>, qs: seq<Queue>) {
    && |head| == |tail| == |qs|
    && forall d :: 0 <= d < |qs| ==> head[d] == At(qs[d], 0) && tail[d] == Last(qs[d])
  }

  lemma ChainOf(link: seq<int>, qs: seq<Queue>, d: nat)
    requires Chains(link, qs) && d < |qs|
    ensures Chain(link, qs[d])
  {
  }

  lemma InsertedHeadsAndTails(head: seq<int>, tail: seq<int>, qs: seq<Queue>, d: nat, x: nat, front: bool)
    requires HeadsAndTails(head, tail, qs) && d < |qs|
    ensures |head| == |tail| == |qs| && head[d] == At(qs[d], 0) && tail[d] == Last(qs[d])
    ensures qs[d] == [] ==> HeadsAndTails(head[d := x], tail[d := x], qs[d := [x]])
    ensures qs[d] != [] && front ==> HeadsAndTails(head[d := x], tail, qs[d := [x] + qs[d]])
    ensures qs[d] != [] && !front ==> HeadsAndTails(head, tail[d := x], qs[d := qs[d] + [x]])
  {
  }

  /** kernel/proc.c: rdy_head[], rdy_tail[] and the p_nextready links. */
  class ReadyQueues {
    var head: seq<int>
    var tail: seq<int>
    var next: seq<int>
    ghost var q: seq<Queue>

    ghost predicate Valid()
      reads this
    {
      && |head| == |tail| == |q|
      && Disjoint(q) && Chains(next, q)
      && HeadsAndTails(head, tail, q)
    }

    constructor (queues: nat, slots: nat)
      ensures Valid() && q == seq(queues, _ => []) && |next| == slots
    {
      head := seq(queues, _ => NIL);
      tail := seq(queues, _ => NIL);
      next := seq(slots, _ => NIL);
      q := seq(queues, _ => []);
    }

    /** The list surgery of enqueue(). */
    method Insert(d: nat, x: nat, front: bool)
      requires Valid() && d < |q| && x < |next| && !Occurs(q, x)
      modifies this
      ensures Valid() && |next| == old(|next|)
      ensures q == old(q)[d := if front then [x] + old(q)[d] else old(q)[d] + [x]]
    {
      hide Disjoint, Chains, HeadsAndTails;
      DisjointInserted(q, d, x, front);
      InsertedHeadsAndTails(head, tail, q, d, x, front);
      ghost var links := next;
      ChainOf(links, q, d);
      if head[d] == NIL {
        assert q[d] == [] && [x] + q[d] == q[d] + [x] == [x];
        head := head[d := x];
        tail := tail[d := x];
        next := next[x := NIL];
        ChainsAppended(links, next, q, d, x);
      } else if front {
        next := next[x := head[d]];
        head := head[d := x];
        ChainsPrepended(links, next, q, d, x);
      } else {
        assert Linked(links, q[d], |q[d]| - 1) && q[d][|q[d]| - 1] in q[d];
        next := next[tail[d] := x];
        tail := tail[d := x];
        next := next[x := NIL];
        ChainsAppended(links, next, q, d, x);
      }
      q := q[d := if front then [x] + q[d] else q[d] + [x]];
    }

    /** Slot x at position k of queue d is taken out; prev is its predecessor. */
    method Unlink(d: nat, prev: int, x: nat, ghost k: nat)
      requires Valid() && d < |q| && k < |q[d]| && q[d][k] == x
      requires prev == if k == 0 then NIL else q[d][k - 1]
      modifies this
      ensures Valid() && |next| == old(|next|)
      ensures q == old(q)[d := RemoveAt(old(q)[d], k)]
    {
      ghost var links := next;
      assert Chain(links, q[d]) && Linked(links, q[d], k) && (k > 0 ==> Linked(links, q[d], k - 1));
      DisjointRemoved(q, d, k);
      assert Apart(q, d, k, d, |q[d]| - 1);
      if prev == NIL { head := head[d := next[x]]; } else { next := next[prev := next[x]]; }
      if x == tail[d] { tail := tail[d := prev]; }
      ChainsRemoved(links, next, q, d, k);
      q := q[d := RemoveAt(q[d], k)];
    }

    /** The search loop of dequeue(); prev is prev_xp.  A slot that is not there stays away. */
    method Delete(d: nat, x: nat) returns (found: bool)
      requires Valid() && d < |q| && x < |next|
      modifies this
      ensures Valid() && |next| == old(|next|)
      ensures found <==> x in old(q)[d]
      ensures q == old(q)[d := Remove(old(q)[d], x)]
    {
      hide Disjoint;
      var prev, at := NIL, head[d];
      ghost var k := 0;
      assert Chain(next, q[d]);
      while at != NIL
        invariant k <= |q[d]| && x !in q[d][..k]
        invariant at == At(q[d], k)
        invariant prev == if k == 0 then NIL else q[d][k - 1]
        decreases |q[d]| - k
      {
        assert Linked(next, q[d], k);
        if at == x {
          RemoveIsRemoveAt(q[d], x, k);
          Unlink(d, prev, x, k);
          return true;
        }
        prev, at := at, next[at];
        k := k + 1;
      }
      RemoveAbsent(q[d], x);
      assert q[d] == q[d][..k];
      return false;
    }
  }

  /** kernel/proc.c: p_caller_q of every slot and the p_q_link links. */
  class CallerQueues {
    var head: seq<int>
    var link: seq<int>
    ghost var q: seq<Queue>

    ghost predicate Valid()
      reads this
    {
      && |head| == |link| == |q|
      && Disjoint(q) && Chains(link, q)
      && (forall d :: 0 <= d < |q| ==> head[d] == At(q[d], 0))
    }

    constructor (slots: nat)
      ensures Valid() && q == seq(slots, _ => [])
    {
      head := seq(slots, _ => NIL);
      link := seq(slots, _ => NIL);
      q := seq(slots, _ => []);
    }

    /** The loop every blocking primitive runs: find the end of the list, hang x there. */
    method Append(d: nat, x: nat)
      requires Valid() && d < |q| && x < |q| && !Occurs(q, x)
      modifies this
      ensures Valid()
      ensures q == old(q)[d := old(q)[d] + [x]]
    {
      DisjointInserted(q, d, x, false);
      ghost var links := link;
      assert Chain(links, q[d]);
      var prev, at := NIL, head[d];
      ghost var k := 0;
      while at != NIL
        invariant k <= |q[d]|
        invariant at == At(q[d], k)
        invariant prev == if k == 0 then NIL else q[d][k - 1]
        decreases |q[d]| - k
      {
        assert Linked(links, q[d], k);
        prev, at := at, link[at];
        k := k + 1;
      }
      if prev == NIL {
        head := head[d := x];
      } else {
        assert Linked(links, q[d], k - 1) && q[d][k - 1] in q[d];
        link := link[prev := x];
      }
      link := link[x := NIL];
      ChainsAppended(links, link, q, d, x);
      q := q[d := q[d] + [x]];
    }

    /** `*xpp = (*xpp)->p_q_link` at position k of queue d; prev holds xpp. */
    method Unlink(d: nat, prev: int, x: nat, ghost k: nat)
      requires Valid() && d < |q| && k < |q[d]| && q[d][k] == x
      requires prev == if k == 0 then NIL else q[d][k - 1]
      modifies this
      ensures Valid()
      ensures q == old(q)[d := RemoveAt(old(q)[d], k)]
    {
      ghost var links := link;
      assert Chain(links, q[d]) && Linked(links, q[d], k) && (k > 0 ==> Linked(links, q[d], k - 1));
      DisjointRemoved(q, d, k);
      if prev == NIL { head := head[d := link[x]]; } else { link := link[prev := link[x]]; }
      ChainsRemoved(links, link, q, d, k);
      q := q[d := RemoveAt(q[d], k)];
    }

    /** The search loop of clear_endpoint(). */
    method Delete(d: nat, x: nat)
      requires Valid() && d < |q|
      modifies this
      ensures Valid() && q == old(q)[d := Remove(old(q)[d], x)]
    {
      hide Disjoint;
      var prev, at := NIL, head[d];
      ghost var k := 0;
      assert Chain(link, q[d]);
      while at != NIL
        invariant k <= |q[d]| && x !in q[d][..k]
        invariant at == At(q[d], k)
        invariant prev == if k == 0 then NIL else q[d][k - 1]
        decreases |q[d]| - k
      {
        assert Linked(link, q[d], k);
        if at == x {
          RemoveIsRemoveAt(q[d], x, k);
          Unlink(d, prev, x, k);
          return;
        }
        prev, at := at, link[at];
        k := k + 1;
      }
      RemoveAbsent(q[d], x);
      assert q[d] == q[d][..k];
    }

    /** A queue that nobody will look at again. */
    method Drop(d: nat)
      requires Valid() && d < |q|
      modifies this
      ensures Valid() && q == old(q)[d := []]
    {
      QueueDropped(link, q, d);
      head := head[d := NIL];
      q := q[d := []];
    }

    /** The slot after position k of queue d. */
    method Next(d: nat, x: nat, ghost k: nat) returns (y: int)
      requires Valid() && d < |q| && k < |q[d]| && q[d][k] == x
      ensures y == At(q[d], k + 1)
    {
      assert Chain(link, q[d]) && Linked(link, q[d], k);
      y := link[x];
    }
  }
}
