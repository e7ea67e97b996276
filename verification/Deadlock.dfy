/** kernel/proc.c deadlock(): following the chain of waiting processes. */
module Deadlock {
  import opened Ipc

  const SEND_BIT := 1

  /** w[x] is the process x waits for: the one it receives from, else the one it sends to. */
  type Waits = seq<Option<nat>>

  ghost predicate InRange(w: Waits) {
    forall x :: 0 <= x < |w| && w[x].Some? ==> w[x].value < |w|
  }

  ghost predicate IsWalk(w: Waits, p: seq<nat>) {
    && |p| >= 1
    && (forall i :: 0 <= i < |p| ==> p[i] < |w|)
    && (forall i :: 0 <= i < |p| - 1 ==> StepsTo(w, p, i))
  }

  ghost predicate StepsTo(w: Waits, p: seq<nat>, i: int)
    requires 0 <= i < |p| - 1 && p[i] < |w|
  {
    w[p[i]] == Some(p[i + 1])
  }

  ghost predicate Joins(w: Waits, p: seq<nat>, from: nat, to: nat) {
    IsWalk(w, p) && p[0] == from && p[|p| - 1] == to
  }

  ghost predicate Acyclic(w: Waits) {
    forall p :: IsWalk(w, p) && |p| >= 2 ==> p[0] != p[|p| - 1]
  }

  /** The new wait of caller for target would close a cycle. */
  ghost predicate Closes(w: Waits, caller: nat, target: nat) {
    exists p :: Joins(w, p, target, caller) && |p| >= 2
  }

  /** A send meets the receive it was waiting for, or the other way round: not fatal. */
  predicate Complementary(w: Waits, sending: seq<bool>, fn: int, caller: nat, target: nat)
    requires |sending| == |w| && target < |w|
  {
    w[target] == Some(caller) && sending[target] != (fn % 2 == SEND_BIT)
  }

  /** What deadlock() is to report. */
  ghost predicate Fatal(w: Waits, sending: seq<bool>, fn: int, caller: nat, target: nat)
    requires |sending| == |w| && target < |w|
  {
    Closes(w, caller, target) && !Complementary(w, sending, fn, caller, target)
  }

  /** From one process there is only one walk of each length. */
  lemma {:induction false} WalksAgree(w: Waits, p: seq<nat>, q: seq<nat>, i: nat)
    requires IsWalk(w, p) && IsWalk(w, q) && p[0] == q[0] && i < |p| && i < |q|
    ensures p[i] == q[i]
  {
    if i > 0 {
      WalksAgree(w, p, q, i - 1);
      assert StepsTo(w, p, i - 1) && StepsTo(w, q, i - 1);
    }
  }

  lemma SubWalk(w: Waits, p: seq<nat>, lo: nat, hi: nat)
    requires IsWalk(w, p) && lo < hi <= |p|
    ensures IsWalk(w, p[lo..hi])
  {
    forall i | 0 <= i < hi - lo - 1
      ensures StepsTo(w, p[lo..hi], i)
    {
      assert StepsTo(w, p, lo + i);
    }
  }

  lemma WalkOn(w: Waits, p: seq<nat>, q: seq<nat>)
    requires IsWalk(w, p) && IsWalk(w, q) && p[|p| - 1] == q[0]
    ensures IsWalk(w, p + q[1..])
  {
    var r := p + q[1..];
    forall i | 0 <= i < |r| - 1
      ensures StepsTo(w, r, i)
    {
      if i < |p| - 1 { assert StepsTo(w, p, i); } else { assert StepsTo(w, q, i - |p| + 1); }
    }
  }

  /** No process occurs twice on a walk of an acyclic relation. */
  lemma NoRepeats(w: Waits, p: seq<nat>, i: nat, j: nat)
    requires Acyclic(w) && IsWalk(w, p) && i < j < |p|
    ensures p[i] != p[j]
  {
    SubWalk(w, p, i, j + 1);
    var q := p[i..j + 1];
    assert q[0] == p[i] && q[|q| - 1] == p[j];
  }

  /** Different numbers below n are at most n. */
  lemma {:induction false} Pigeons(p: seq<nat>, n: nat)
    requires forall i :: 0 <= i < |p| ==> p[i] < n
    requires forall i, j :: 0 <= i < j < |p| ==> p[i] != p[j]
    ensures |p| <= n
    decreases n
  {
    if p == [] {
    } else {
      assert p[0] < n;
      if k :| 0 <= k < |p| && p[k] == n - 1 {
        var q := p[..k] + p[k + 1..];
        forall i, j | 0 <= i < j < |q|
          ensures q[i] != q[j]
        {
          assert q[i] == p[if i < k then i else i + 1] && q[j] == p[if j < k then j else j + 1];
        }
        Pigeons(q, n - 1);
      } else {
        Pigeons(p, n - 1);
      }
    }
  }

  lemma WalkIsShort(w: Waits, p: seq<nat>)
    requires Acyclic(w) && IsWalk(w, p)
    ensures |p| <= |w|
  {
    forall i, j | 0 <= i < j < |p|
      ensures p[i] != p[j]
    {
      NoRepeats(w, p, i, j);
    }
    Pigeons(p, |w|);
  }

  /** A walk that has come to its end without meeting the caller: no walk leads there. */
  lemma EndOfChain(w: Waits, p: seq<nat>, caller: nat)
    requires IsWalk(w, p) && w[p[|p| - 1]] == None
    requires forall i :: 1 <= i < |p| ==> p[i] != caller
    ensures !Closes(w, caller, p[0])
  {
    forall q | Joins(w, q, p[0], caller)
      ensures |q| < 2
    {
      var last := if |q| > |p| then |p| - 1 else |q| - 1;
      WalksAgree(w, p, q, last);
      assert |q| > |p| ==> StepsTo(w, q, last);
    }
  }

  // ---------------------------------------------------------------- when the chain ends

  /** The loop, at process x, ends within n turns. */
  ghost predicate EndsWithin(w: Waits, caller: nat, x: nat, n: nat)
    requires InRange(w) && x < |w|
    decreases n
  {
    n > 0 && (w[x] == None || w[x] == Some(caller) || EndsWithin(w, caller, w[x].value, n - 1))
  }

  ghost predicate Ends(w: Waits, caller: nat, target: nat)
    requires InRange(w) && target < |w|
  {
    exists n :: EndsWithin(w, caller, target, n)
  }

  /** The chain from target leads to a process that waits for nobody, or for the caller. */
  ghost predicate Stops(w: Waits, caller: nat, target: nat) {
    exists p :: IsWalk(w, p) && p[0] == target && (w[p[|p| - 1]] == None || w[p[|p| - 1]] == Some(caller))
  }

  /** The chain from target comes back to where it has been before, and the caller is not on its way. */
  ghost predicate Circles(w: Waits, caller: nat, target: nat) {
    exists p, i, j :: IsWalk(w, p) && p[0] == target && 0 <= i < j < |p| && p[i] == p[j] && Misses(p, caller)
  }

  ghost predicate Misses(p: seq<nat>, caller: nat) {
    forall i :: 1 <= i < |p| ==> p[i] != caller
  }

  lemma {:induction false} StopsInTime(w: Waits, caller: nat, x: nat, n: nat)
    requires InRange(w) && x < |w| && EndsWithin(w, caller, x, n)
    ensures Stops(w, caller, x)
    decreases n
  {
    if w[x] == None || w[x] == Some(caller) {
      assert IsWalk(w, [x]);
    } else {
      StopsInTime(w, caller, w[x].value, n - 1);
      var p :| IsWalk(w, p) && p[0] == w[x].value && (w[p[|p| - 1]] == None || w[p[|p| - 1]] == Some(caller));
      FromFurtherBack(w, x, p);
      assert ([x] + p)[|p|] == p[|p| - 1];
    }
  }

  lemma FromFurtherBack(w: Waits, x: nat, p: seq<nat>)
    requires IsWalk(w, p) && x < |w| && w[x] == Some(p[0])
    ensures IsWalk(w, [x] + p)
  {
    forall i | 0 <= i < |p|
      ensures StepsTo(w, [x] + p, i)
    {
      if i > 0 { assert StepsTo(w, p, i - 1); }
    }
  }

  lemma {:induction false} EndsAlong(w: Waits, caller: nat, p: seq<nat>)
    requires InRange(w) && IsWalk(w, p) && (w[p[|p| - 1]] == None || w[p[|p| - 1]] == Some(caller))
    ensures EndsWithin(w, caller, p[0], |p|)
  {
    if |p| > 1 {
      assert StepsTo(w, p, 0);
      SubWalk(w, p, 1, |p|);
      assert p[1..|p|] == p[1..];
      EndsAlong(w, caller, p[1..]);
    }
  }

  /** The chain walked for n turns without an end. */
  lemma {:induction false} LongWalk(w: Waits, caller: nat, x: nat, n: nat) returns (p: seq<nat>)
    requires InRange(w) && x < |w| && !EndsWithin(w, caller, x, n)
    ensures IsWalk(w, p) && p[0] == x && |p| == n + 1 && Misses(p, caller)
    decreases n
  {
    if n == 0 {
      p := [x];
    } else {
      var rest := LongWalk(w, caller, w[x].value, n - 1);
      p := [x] + rest;
      FromFurtherBack(w, x, rest);
    }
  }

  /** From no process of a circle is there an end. */
  lemma {:induction false} NoReturn(w: Waits, caller: nat, p: seq<nat>, i: nat, j: nat, k: nat, n: nat)
    requires InRange(w) && IsWalk(w, p) && i <= k < j < |p| && p[i] == p[j] && Misses(p, caller) && EndsWithin(w, caller, p[k], n)
    ensures false
    decreases n
  {
    assert StepsTo(w, p, k) && p[k + 1] != caller;
    NoReturn(w, caller, p, i, j, if k + 1 < j then k + 1 else i, n - 1);
  }

  /** Main result on termination: the loop ends iff the chain from target leads to a process that waits for nobody or
      for the caller, and that is so iff it does not run in a circle that misses the caller; and if it ends, then
      within as many turns as there are processes. */
  lemma EndsExactly(w: Waits, caller: nat, target: nat)
    requires InRange(w) && target < |w|
    ensures Ends(w, caller, target) <==> Stops(w, caller, target)
    ensures Ends(w, caller, target) <==> !Circles(w, caller, target)
    ensures Ends(w, caller, target) <==> EndsWithin(w, caller, target, |w|)
  {
    if n :| EndsWithin(w, caller, target, n) {
      StopsInTime(w, caller, target, n);
      if Circles(w, caller, target) { CircleHasNoEnd(w, caller, target, n); }
    }
    if Stops(w, caller, target) {
      var p :| IsWalk(w, p) && p[0] == target && (w[p[|p| - 1]] == None || w[p[|p| - 1]] == Some(caller));
      EndsAlong(w, caller, p);
    }
    if !EndsWithin(w, caller, target, |w|) {
      var p := LongWalk(w, caller, target, |w|);
      if forall i, j :: 0 <= i < j < |p| ==> p[i] != p[j] { Pigeons(p, |w|); }
      var i, j :| 0 <= i < j < |p| && p[i] == p[j];
    }
  }

  lemma CircleHasNoEnd(w: Waits, caller: nat, target: nat, n: nat)
    requires InRange(w) && target < |w| && EndsWithin(w, caller, target, n)
    ensures !Circles(w, caller, target)
  {
    forall p, i, j | IsWalk(w, p) && p[0] == target && 0 <= i < j < |p| && Misses(p, caller)
      ensures p[i] != p[j]
    {
      var m := ReachEnd(w, caller, p, i, n);
      if p[i] == p[j] { NoReturn(w, caller, p, i, j, i, m); }
    }
  }

  /** Further along the walk the end is nearer. */
  lemma {:induction false} ReachEnd(w: Waits, caller: nat, p: seq<nat>, i: nat, n: nat) returns (m: nat)
    requires InRange(w) && IsWalk(w, p) && i < |p| && Misses(p, caller) && EndsWithin(w, caller, p[0], n)
    ensures EndsWithin(w, caller, p[i], m)
  {
    if i == 0 {
      m := n;
    } else {
      var k := ReachEnd(w, caller, p, i - 1, n);
      assert StepsTo(w, p, i - 1);
      m := k - 1;
    }
  }

  /** In an acyclic relation it always ends. */
  lemma AcyclicEnds(w: Waits, caller: nat, target: nat)
    requires InRange(w) && Acyclic(w) && target < |w|
    ensures Ends(w, caller, target)
  {
    EndsExactly(w, caller, target);
    forall p, i, j | IsWalk(w, p) && 0 <= i < j < |p|
      ensures p[i] != p[j]
    {
      NoRepeats(w, p, i, j);
    }
  }

  /** Two processes that wait for each other keep anyone else's check busy for ever. */
  lemma NeverEnds()
    ensures var w := [Some(1), Some(0), None]; InRange(w) && !Ends(w, 2, 0)
  {
    var w, p := [Some(1), Some(0), None], [0, 1, 0];
    assert StepsTo(w, p, 0) && StepsTo(w, p, 1);
    assert p[0] == p[2] && Misses(p, 2);
    EndsExactly(w, 2, 0);
  }

  /** deadlock(): 0, or the number of processes in the cycle the new wait would close, wherever the chain from target
      ends.  A caller that names itself is not noticed. */
  method FindDeadlock(w: Waits, sending: seq<bool>, fn: int, caller: nat, target: Option<nat>) returns (group: nat)
    requires |sending| == |w| && InRange(w)
    requires caller < |w| && w[caller] == None
    requires target.Some? ==> target.value < |w| && Ends(w, caller, target.value)
    ensures group > 0 <==> target.Some? && Fatal(w, sending, fn, caller, target.value)
    ensures group > 0 ==> exists p :: Joins(w, p, target.value, caller) && |p| == group
  {
    group := 1;
    var srcDst := target;
    ghost var path: seq<nat> := [];
    ghost var turns: nat := 0;
    if target.Some? { turns :| EndsWithin(w, caller, target.value, turns); }
    while srcDst.Some?
      invariant srcDst.Some? ==> srcDst.value < |w| && EndsWithin(w, caller, srcDst.value, turns)
      invariant target.None? ==> srcDst.None?
      invariant group == 1 + |path|
      invariant target.Some? && path == [] ==> srcDst == target
      invariant path != [] ==> IsWalk(w, path) && Some(path[0]) == target && w[path[|path| - 1]] == srcDst
      invariant Misses(path, caller)
      invariant path != [] ==> srcDst.Some? && srcDst != Some(caller)
      decreases turns, srcDst.Some?
    {
      var x := srcDst.value;
      path := Longer(w, path, x);
      group := group + 1;
      srcDst := w[x];
      if srcDst.None? {
        EndOfChain(w, path, caller);
        return 0;
      }
      if srcDst == Some(caller) {
        ghost var cycle := Longer(w, path, caller);
        assert Joins(w, cycle, target.value, caller) && |cycle| == group;
        if group == 2 {
          if sending[x] != (fn % 2 == SEND_BIT) {
            return 0;
          }
        } else {
          assert StepsTo(w, path, 0) && path[1] != caller;
        }
        return group;
      }
      turns := turns - 1;
    }
    return 0;
  }

  lemma Longer(w: Waits, p: seq<nat>, x: nat) returns (q: seq<nat>)
    requires (p != [] ==> IsWalk(w, p) && w[p[|p| - 1]] == Some(x)) && x < |w|
    ensures q == p + [x] && IsWalk(w, q)
  {
    q := p + [x];
    forall i | 0 <= i < |q| - 1
      ensures StepsTo(w, q, i)
    {
      if i < |p| - 1 { assert StepsTo(w, p, i); }
    }
  }

  // ---------------------------------------------------------------- keeping the relation acyclic

  /** Waits that end close no cycle. */
  lemma FewerWaits(w: Waits, less: Waits)
    requires Acyclic(w) && |less| == |w|
    requires forall x :: 0 <= x < |w| ==> less[x] == w[x] || less[x] == None
    ensures Acyclic(less)
  {
    forall p | IsWalk(less, p) && |p| >= 2
      ensures p[0] != p[|p| - 1]
    {
      forall i | 0 <= i < |p| - 1
        ensures StepsTo(w, p, i)
      {
        assert StepsTo(less, p, i);
      }
      assert IsWalk(w, p);
    }
  }

  /** The first time a walk meets c. */
  lemma FirstMeeting(w: Waits, p: seq<nat>, c: nat) returns (k: nat)
    requires IsWalk(w, p) && c in p
    ensures k < |p| && p[k] == c && c !in p[..k]
  {
    k := 0;
    while p[k] != c
      invariant k < |p| && c !in p[..k]
      invariant c in p[k..]
      decreases |p| - k
    {
      k := k + 1;
    }
  }

  /** Exactly the waits that deadlock() looks for are dangerous: a running caller may start to wait for
      target iff that is another process from which no chain leads back to the caller. */
  lemma NewWaitExactly(w: Waits, c: nat, t: nat)
    requires Acyclic(w) && InRange(w) && c < |w| && t < |w| && w[c] == None
    ensures Acyclic(w[c := Some(t)]) <==> t != c && !Closes(w, c, t)
  {
    var w' := w[c := Some(t)];
    if t == c {
      assert StepsTo(w', [c, c], 0);
      assert IsWalk(w', [c, c]);
    } else if Closes(w, c, t) {
      var p :| Joins(w, p, t, c) && |p| >= 2;
      var q := [c] + p;
      forall i | 0 <= i < |q| - 1
        ensures StepsTo(w', q, i)
      {
        if i > 0 { assert StepsTo(w, p, i - 1); }
      }
      assert IsWalk(w', q) && q[0] == q[|q| - 1];
    } else {
      forall p | IsWalk(w', p) && |p| >= 2
        ensures p[0] != p[|p| - 1]
      {
        if p[0] == p[|p| - 1] { ClosedWalk(w, c, t, p); }
      }
    }
  }

  lemma AvoidsNewWait(w: Waits, c: nat, t: nat, p: seq<nat>)
    requires c < |w| && IsWalk(w[c := Some(t)], p) && c !in p[..|p| - 1]
    ensures IsWalk(w, p)
  {
    forall i | 0 <= i < |p| - 1
      ensures StepsTo(w, p, i)
    {
      assert StepsTo(w[c := Some(t)], p, i) && p[i] in p[..|p| - 1];
    }
  }

  /** A closed walk through the new wait leads from its target back to the caller without it. */
  lemma ClosedWalk(w: Waits, c: nat, t: nat, p: seq<nat>)
    requires Acyclic(w) && c < |w| && t < |w| && w[c] == None && t != c
    requires IsWalk(w[c := Some(t)], p) && |p| >= 2 && p[0] == p[|p| - 1]
    ensures Closes(w, c, t)
  {
    if c !in p[..|p| - 1] {
      AvoidsNewWait(w, c, t, p);
    } else {
      var i :| 0 <= i < |p| - 1 && p[i] == c;
      var q := Rotate(w[c := Some(t)], p, i);
      assert StepsTo(w[c := Some(t)], p, i);
      BackToCaller(w, c, t, q);
    }
  }

  /** A closed walk, read from one step after position i all the way round. */
  lemma Rotate(w: Waits, p: seq<nat>, i: nat) returns (q: seq<nat>)
    requires IsWalk(w, p) && p[0] == p[|p| - 1] && i < |p| - 1
    ensures IsWalk(w, q) && q[0] == p[i + 1] && p[i] in q
  {
    SubWalk(w, p, i + 1, |p|);
    SubWalk(w, p, 0, i + 1);
    var tail, head := p[i + 1..|p|], p[0..i + 1];
    WalkOn(w, tail, head);
    q := tail + head[1..];
    assert (if i == 0 then tail[|tail| - 1] else q[|tail| + i - 1]) == p[i];
  }

  /** Cut at its first meeting with c, a walk of the new relation is one of the old. */
  lemma BackToCaller(w: Waits, c: nat, t: nat, q: seq<nat>)
    requires c < |w| && t < |w| && t != c && w[c] == None
    requires IsWalk(w[c := Some(t)], q) && q[0] == t && c in q
    ensures Closes(w, c, t)
  {
    var w' := w[c := Some(t)];
    var k := FirstMeeting(w', q, c);
    SubWalk(w', q, 0, k + 1);
    var r := q[0..k + 1];
    forall j | 0 <= j < |r| - 1
      ensures StepsTo(w, r, j)
    {
      assert StepsTo(w', r, j) && r[j] == q[j] && q[j] in q[..k];
    }
    assert Joins(w, r, t, c);
  }
}
