/** kernel/debug.c check_runqueues(): the kernel's own statement of the ready-queue invariant. */
module RunQueueCheck {
  import opened Queues
  import opened Ipc
  import opened IpcInvariants
  import opened Kernel
  import Deadlock
  import opened Runs
  import opened Booting

  const PROCLIMIT := 10000

  /** BEG_PROC_ADDR <= x < END_PROC_ADDR: the process table of the running VM. */
  predicate InTable(running: int, x: int) {
    running * SLOTS <= x < (running + 1) * SLOTS
  }

  /** What check_runqueues insists on for the slot at position i of queue d.  Marks are taken back for the
      running VM's table only, so one left on a slot of another VM counts as a second occurrence. */
  predicate EntryFine(st: State, ready: seq<bool>, marks: seq<bool>, d: int, i: int)
    requires 0 <= d < |st.rq| && 0 <= i < |st.rq[d]| && st.rq[d][i] < |st.proc| == |ready| == |marks|
  {
    var x := st.rq[d][i];
    ready[x] && st.proc[x].prio == d && (InTable(st.running, x) || !marks[x])
  }

  ghost predicate Queued(st: State, ready: seq<bool>, x: int)
    requires 0 <= x < |st.proc| == |ready|
  {
    !st.proc[x].rts.Empty() && ready[x] ==> Occurs(st.rq, x)
  }

  ghost predicate Entries(st: State, ready: seq<bool>, marks: seq<bool>, lo: int, hi: int)
    requires Bounded(st.rq, |st.proc|) && |st.proc| == |ready| == |marks| && 0 <= lo <= hi <= |st.rq|
  {
    forall d, i :: lo <= d < hi && 0 <= i < |st.rq[d]| ==> EntryFine(st, ready, marks, d, i)
  }

  ghost predicate Sound(st: State, ready: seq<bool>, marks: seq<bool>)
    requires WF(st) && Bounded(st.rq, |st.proc|) && |st.proc| == |ready| == |marks|
  {
    && Entries(st, ready, marks, 0, |st.rq|)
    && forall x :: InTable(st.running, x) ==> Queued(st, ready, x)
  }

  /** The slots met so far: whole queues before d and the first k of queue d. */
  ghost predicate Met(rq: seq<Queue>, d: int, k: int, x: int)
    requires 0 <= d <= |rq| && (if d < |rq| then 0 <= k <= |rq[d]| else k == 0)
  {
    || (exists e, i :: 0 <= e < d && At2(rq, e, i, x))
    || (exists i :: 0 <= i < k && At2(rq, d, i, x))
  }

  ghost predicate At2(rq: seq<Queue>, d: int, i: int, x: int) {
    0 <= d < |rq| && 0 <= i < |rq[d]| && rq[d][i] == x
  }

  lemma ChainsBounded(m: Machine)
    requires m.Valid()
    ensures Bounded(m.rdy.q, |m.proc|)
  {
    forall d, i | 0 <= d < |m.rdy.q| && 0 <= i < |m.rdy.q[d]|
      ensures m.rdy.q[d][i] < |m.proc|
    {
      assert Chain(m.rdy.next, m.rdy.q[d]) && Linked(m.rdy.next, m.rdy.q[d], i);
    }
  }

  lemma NotMetYet(rq: seq<Queue>, d: nat, k: nat)
    requires Disjoint(rq) && d < |rq| && k < |rq[d]|
    ensures !Met(rq, d, k, rq[d][k])
  {
    forall e, i | 0 <= e < |rq| && At2(rq, e, i, rq[d][k])
      ensures e == d && i == k
    {
      assert Apart(rq, d, k, e, i);
    }
  }

  lemma MetOneMore(rq: seq<Queue>, d: nat, k: nat, x: int)
    requires d < |rq| && k < |rq[d]|
    ensures Met(rq, d, k + 1, x) <==> Met(rq, d, k, x) || x == rq[d][k]
  {
    assert At2(rq, d, k, rq[d][k]);
  }

  lemma MetWholeQueue(rq: seq<Queue>, d: nat, x: int)
    requires d < |rq|
    ensures Met(rq, d + 1, 0, x) <==> Met(rq, d, |rq[d]|, x)
  {
    if Met(rq, d + 1, 0, x) {
      var e, i :| 0 <= e < d + 1 && At2(rq, e, i, x);
    }
  }

  lemma MetIsOccurs(rq: seq<Queue>, x: nat)
    ensures Met(rq, |rq|, 0, x) <==> Occurs(rq, x)
  {
    if Occurs(rq, x) {
      var d :| 0 <= d < |rq| && x in rq[d];
      var i :| 0 <= i < |rq[d]| && rq[d][i] == x;
      assert At2(rq, d, i, x);
    }
  }

  /** The mark of slot x is set iff it was found now, or is left over in another VM's table. */
  ghost predicate Marked(found: seq<bool>, marks: seq<bool>, running: int, rq: seq<Queue>, d: int, k: int, x: int)
    requires 0 <= x < |found| == |marks|
    requires 0 <= d <= |rq| && (if d < |rq| then 0 <= k <= |rq[d]| else k == 0)
  {
    found[x] <==> (!InTable(running, x) && marks[x]) || Met(rq, d, k, x)
  }

  ghost predicate AllMarked(found: seq<bool>, marks: seq<bool>, running: int, rq: seq<Queue>, d: int, k: int)
    requires |found| == |marks|
    requires 0 <= d <= |rq| && (if d < |rq| then 0 <= k <= |rq[d]| else k == 0)
  {
    forall x :: 0 <= x < |found| ==> Marked(found, marks, running, rq, d, k, x)
  }

  lemma MarkOneMore(found: seq<bool>, marks: seq<bool>, running: int, rq: seq<Queue>, d: nat, k: nat)
    requires |found| == |marks| && d < |rq| && k < |rq[d]| && rq[d][k] < |found|
    requires AllMarked(found, marks, running, rq, d, k)
    ensures AllMarked(found[rq[d][k] := true], marks, running, rq, d, k + 1)
  {
    var after, next := found[rq[d][k] := true], k + 1;
    forall x | 0 <= x < |after|
      ensures Marked(after, marks, running, rq, d, next, x)
    {
      assert Marked(found, marks, running, rq, d, k, x);
      MetOneMore(rq, d, k, x);
    }
  }

  lemma MarkWholeQueue(found: seq<bool>, marks: seq<bool>, running: int, rq: seq<Queue>, d: nat)
    requires |found| == |marks| && d < |rq| && AllMarked(found, marks, running, rq, d, |rq[d]|)
    ensures AllMarked(found, marks, running, rq, d + 1, 0)
  {
    var next := d + 1;
    forall x | 0 <= x < |found|
      ensures Marked(found, marks, running, rq, next, 0, x)
    {
      assert Marked(found, marks, running, rq, d, |rq[d]|, x);
      MetWholeQueue(rq, d, x);
    }
  }

  /** The slots met are all different, so there are few of them: the loop counter stays far below its limit. */
  ghost predicate Tally(visited: seq<nat>, slots: nat, rq: seq<Queue>, d: int, k: int)
    requires 0 <= d <= |rq| && (if d < |rq| then 0 <= k <= |rq[d]| else k == 0)
  {
    && (forall i :: 0 <= i < |visited| ==> visited[i] < slots && Met(rq, d, k, visited[i]))
    && (forall i, j :: 0 <= i < j < |visited| ==> visited[i] != visited[j])
  }

  lemma TallyOneMore(visited: seq<nat>, slots: nat, rq: seq<Queue>, d: nat, k: nat)
    requires Disjoint(rq) && Bounded(rq, slots) && d < |rq| && k < |rq[d]| && Tally(visited, slots, rq, d, k)
    ensures Tally(visited + [rq[d][k]], slots, rq, d, k + 1) && |visited| < slots
  {
    NotMetYet(rq, d, k);
    forall i | 0 <= i < |visited|
      ensures Met(rq, d, k + 1, visited[i])
    {
      MetOneMore(rq, d, k, visited[i]);
    }
    MetOneMore(rq, d, k, rq[d][k]);
    Deadlock.Pigeons(visited + [rq[d][k]], slots);
  }

  lemma TallyWholeQueue(visited: seq<nat>, slots: nat, rq: seq<Queue>, d: nat)
    requires d < |rq| && Tally(visited, slots, rq, d, |rq[d]|)
    ensures Tally(visited, slots, rq, d + 1, 0)
  {
    forall i | 0 <= i < |visited|
      ensures Met(rq, d + 1, 0, visited[i])
    {
      MetWholeQueue(rq, d, visited[i]);
    }
  }

  /** check_runqueues(): `ready` are the p_ready marks, `found` the p_found marks. */
  method CheckRunQueues(m: Machine, ready: seq<bool>, found: array<bool>) returns (panics: bool)
    requires m.Valid() && |ready| == |m.proc| == found.Length
    modifies found
    ensures Bounded(m.rdy.q, |m.proc|) && (panics <==> !Sound(m.Abs(), ready, old(found[..])))
    ensures !panics ==> AllMarked(found[..], old(found[..]), m.running, m.rdy.q, NR_SCHED_QUEUES, 0)
  {
    ghost var marks, st := found[..], m.Abs();
    ChainsBounded(m);
    var l := ClearMarks(m.running, found);
    var q := 0;
    ghost var visited: seq<nat> := [];
    while q < NR_SCHED_QUEUES
      invariant 0 <= q <= NR_SCHED_QUEUES
      invariant Entries(st, ready, marks, 0, q)
      invariant AllMarked(found[..], marks, m.running, st.rq, q, 0)
      invariant Tally(visited, |st.proc|, st.rq, q, 0) && l == SLOTS + |visited|
    {
      var queuePanics;
      queuePanics, l, visited := CheckQueue(m, q, ready, found, marks, l, visited);
      if queuePanics { return true; }
      q := q + 1;
    }
    var x := m.running * SLOTS;
    while x < (m.running + 1) * SLOTS
      invariant m.running * SLOTS <= x <= (m.running + 1) * SLOTS
      invariant forall y :: InTable(m.running, y) && y < x ==> Queued(st, ready, y)
      invariant AllMarked(found[..], marks, m.running, st.rq, NR_SCHED_QUEUES, 0)
    {
      MetIsOccurs(st.rq, x);
      assert Marked(found[..], marks, m.running, st.rq, q, 0, x);
      if !m.proc[x].rts.Empty() && ready[x] && !found[x] {
        assert !Queued(st, ready, x) && InTable(m.running, x);
        return true;
      }
      x := x + 1;
    }
    return false;
  }

  /** The first loop. */
  method ClearMarks(running: int, found: array<bool>) returns (l: nat)
    requires 0 <= running < NR_VMS && found.Length == NR_VMS * SLOTS
    modifies found
    ensures l == SLOTS
    ensures forall x :: 0 <= x < found.Length ==> found[x] == (!InTable(running, x) && old(found[x]))
    ensures forall rq: seq<Queue> :: rq != [] ==> AllMarked(found[..], old(found[..]), running, rq, 0, 0)
  {
    l := 0;
    var x := running * SLOTS;
    while x < (running + 1) * SLOTS
      invariant running * SLOTS <= x <= (running + 1) * SLOTS && l == x - running * SLOTS
      invariant forall y :: 0 <= y < found.Length ==> found[y] == if InTable(running, y) && y < x then false else old(found[y])
    {
      found[x] := false;
      l := l + 1;
      x := x + 1;
    }
  }

  /** One turn of the second loop: queue q from its head. */
  method CheckQueue(m: Machine, q: nat, ready: seq<bool>, found: array<bool>, ghost marks: seq<bool>, l0: nat, ghost visited0: seq<nat>)
    returns (panics: bool, l: nat, ghost visited: seq<nat>)
    requires m.Valid() && |ready| == |m.proc| == found.Length == |marks| && q < NR_SCHED_QUEUES
    requires AllMarked(found[..], marks, m.running, m.rdy.q, q, 0)
    requires Tally(visited0, |m.proc|, m.rdy.q, q, 0) && l0 == SLOTS + |visited0|
    modifies found
    ensures Bounded(m.rdy.q, |m.proc|) && (panics <==> !Entries(m.Abs(), ready, marks, q, q + 1))
    ensures !panics ==> AllMarked(found[..], marks, m.running, m.rdy.q, q + 1, 0)
    ensures !panics ==> Tally(visited, |m.proc|, m.rdy.q, q + 1, 0) && l == SLOTS + |visited|
  {
    ghost var st := m.Abs();
    ChainsBounded(m);
    l, visited := l0, visited0;
    ghost var k := 0;
    assert Chain(m.rdy.next, m.rdy.q[q]);
    assert m.rdy.q[q] != [] ==> Linked(m.rdy.next, m.rdy.q[q], |m.rdy.q[q]| - 1);
    var xp := m.rdy.head[q];
    if xp != NIL && m.rdy.tail[q] == NIL { assert false; return true, l, visited; }
    if xp == NIL && m.rdy.tail[q] != NIL { assert false; return true, l, visited; }
    if m.rdy.tail[q] != NIL && m.rdy.next[m.rdy.tail[q]] != NIL { assert false; return true, l, visited; }
    while xp != NIL
      invariant k <= |st.rq[q]| && xp == At(st.rq[q], k)
      invariant forall i :: 0 <= i < k ==> EntryFine(st, ready, marks, q, i)
      invariant AllMarked(found[..], marks, m.running, st.rq, q, k)
      invariant Tally(visited, |st.proc|, st.rq, q, k) && l == SLOTS + |visited|
      decreases |st.rq[q]| - k
    {
      assert Linked(m.rdy.next, st.rq[q], k);
      NotMetYet(st.rq, q, k);
      assert Marked(found[..], marks, m.running, st.rq, q, k, xp);
      if !ready[xp] || m.proc[xp].prio != q || found[xp] {
        assert !EntryFine(st, ready, marks, q, k);
        return true, l, visited;
      }
      MarkOneMore(found[..], marks, m.running, st.rq, q, k);
      TallyOneMore(visited, |st.proc|, st.rq, q, k);
      found[xp] := true;
      visited := visited + [xp];
      if m.rdy.next[xp] == NIL && m.rdy.tail[q] != xp { assert false; return true, l, visited; }
      if l > PROCLIMIT { assert false; return true, l, visited; }
      l := l + 1;
      xp := m.rdy.next[xp];
      k := k + 1;
    }
    MarkWholeQueue(found[..], marks, m.running, st.rq, q);
    TallyWholeQueue(visited, |st.proc|, st.rq, q);
    return false, l, visited;
  }

  /** Main result: where the invariant holds, check_runqueues is content iff every process with clear flags is
      marked p_ready, every used slot of the running VM that is marked p_ready has clear flags, and no ready
      process of another VM is still marked from an earlier check. */
  lemma SoundExactly(st: State, ready: seq<bool>, marks: seq<bool>)
    requires Inv(st) && |ready| == |marks| == |st.proc|
    ensures Bounded(st.rq, |st.proc|)
    ensures Sound(st, ready, marks)
            <==> && (forall x :: 0 <= x < |st.proc| && st.proc[x].rts.Zero() ==> ready[x])
                 && (forall x :: InTable(st.running, x) && !st.proc[x].rts.Empty() && ready[x] ==> st.proc[x].rts.Zero())
                 && (forall x :: 0 <= x < |st.proc| && st.proc[x].rts.Zero() && !InTable(st.running, x) ==> !marks[x])
  {
    forall d, i | 0 <= d < |st.rq| && 0 <= i < |st.rq[d]|
      ensures st.proc[st.rq[d][i]].rts.Zero() && st.proc[st.rq[d][i]].prio == d
    {
      assert st.rq[d][i] in st.rq[d] && OnQueue(st.proc, st.rq, st.rq[d][i], d);
    }
    forall x | 0 <= x < |st.proc|
      ensures Occurs(st.rq, x) <==> st.proc[x].rts.Zero()
      ensures st.proc[x].rts.Zero() ==> exists i :: At2(st.rq, st.proc[x].prio, i, x)
    {
      if st.proc[x].rts.Zero() { ReadyIsQueued(st, x); }
    }
    if Sound(st, ready, marks) {
      forall x | 0 <= x < |st.proc| && st.proc[x].rts.Zero()
        ensures ready[x] && (!InTable(st.running, x) ==> !marks[x])
      {
        var i :| At2(st.rq, st.proc[x].prio, i, x);
        assert EntryFine(st, ready, marks, st.proc[x].prio, i);
      }
      forall x | InTable(st.running, x) && !st.proc[x].rts.Empty() && ready[x]
        ensures st.proc[x].rts.Zero()
      {
        assert Queued(st, ready, x);
      }
    }
  }

  /** Nothing in the kernel ever sets p_ready: switched on, the check would be content only where nothing is ready,
      not even IDLE. */
  lemma NothingIsMarkedReady(st: State, marks: seq<bool>)
    requires Inv(st) && |marks| == |st.proc|
    ensures Bounded(st.rq, |st.proc|)
    ensures Sound(st, seq(|st.proc|, _ => false), marks) <==> forall x :: 0 <= x < |st.proc| ==> !st.proc[x].rts.Zero()
  {
    var ready := seq(|st.proc|, _ => false);
    SoundExactly(st, ready, marks);
    assert forall x :: 0 <= x < |st.proc| ==> !ready[x];
  }

  /** If p_ready did say what the flags say, the check would find fault with nothing but marks left over. */
  lemma LeftOverMarksExactly(st: State, ready: seq<bool>, marks: seq<bool>)
    requires Inv(st) && |ready| == |marks| == |st.proc|
    requires forall x :: 0 <= x < |st.proc| ==> ready[x] == st.proc[x].rts.Zero()
    ensures Bounded(st.rq, |st.proc|)
    ensures Sound(st, ready, marks)
            <==> forall x :: 0 <= x < |st.proc| && st.proc[x].rts.Zero() && !InTable(st.running, x) ==> !marks[x]
  {
    SoundExactly(st, ready, marks);
  }

  /** Two checks of the same state: if the first one is content, the second one is too iff no process of a VM that
      does not run is ready. */
  method CheckTwice(m: Machine, ready: seq<bool>, found: array<bool>) returns (first: bool, second: bool)
    requires m.Valid() && Inv(m.Abs()) && |ready| == |m.proc| == found.Length
    modifies found
    ensures Bounded(m.rdy.q, |m.proc|) && (first <==> !Sound(m.Abs(), ready, old(found[..])))
    ensures !first ==> (second <==> exists x :: 0 <= x < |m.proc| && m.proc[x].rts.Zero() && !InTable(m.running, x))
  {
    first := CheckRunQueues(m, ready, found);
    second := false;
    if first { return; }
    SecondCheckExactly(m.Abs(), ready, old(found[..]), found[..]);
    second := CheckRunQueues(m, ready, found);
  }

  lemma SecondCheckExactly(st: State, ready: seq<bool>, marks: seq<bool>, found: seq<bool>)
    requires Inv(st) && |ready| == |marks| == |found| == |st.proc| && Bounded(st.rq, |st.proc|) && Sound(st, ready, marks)
    requires AllMarked(found, marks, st.running, st.rq, NR_SCHED_QUEUES, 0)
    ensures Sound(st, ready, found) <==> forall x :: 0 <= x < |st.proc| && st.proc[x].rts.Zero() ==> InTable(st.running, x)
  {
    SoundExactly(st, ready, marks);
    SoundExactly(st, ready, found);
    forall x | 0 <= x < |st.proc| && st.proc[x].rts.Zero()
      ensures found[x]
    {
      assert Marked(found, marks, st.running, st.rq, NR_SCHED_QUEUES, 0, x);
      MetIsOccurs(st.rq, x);
      ReadyIsQueued(st, x);
    }
  }

  /** A state in which that happens: IDLE is ready, and a guest runs. */
  lemma SecondCheckComplains(image: nat -> Entry, found: seq<bool>)
    requires ImageOk(image)
    ensures var st := Boot(Initial(image), 0).(running := 1);
            var ready, marks := seq(|st.proc|, x => x == 0), seq(|st.proc|, _ => false);
            && Inv(st) && Bounded(st.rq, |st.proc|) && Sound(st, ready, marks)
            && (|found| == |st.proc| && AllMarked(found, marks, st.running, st.rq, NR_SCHED_QUEUES, 0) ==> !Sound(st, ready, found))
  {
    hide CallersOk, ReadyOk, Sound, AllMarked;
    InitialHolds(image);
    var init := Initial(image);
    FreshInv(init);
    assert init.proc[0] == Slot(image, 0);
    NextKeeps(init, Booted(0));
    var booted := Boot(init, 0);
    OthersSame(init, 0);
    PrivKeeps(booted, booted.(running := 1));
    var st := booted.(running := 1);
    var ready, marks := seq(|st.proc|, x => x == 0), seq(|st.proc|, _ => false);
    forall x | 0 <= x < |st.proc|
      ensures st.proc[x].rts.Zero() <==> x == 0
    {
      assert init.proc[x] == Slot(image, x);
    }
    SoundExactly(st, ready, marks);
    if |found| == |st.proc| && AllMarked(found, marks, st.running, st.rq, NR_SCHED_QUEUES, 0) {
      SecondCheckExactly(st, ready, marks, found);
      assert st.proc[0].rts.Zero() && !InTable(st.running, 0);
    }
  }

  lemma OthersSame(st: State, x: nat)
    requires WF(st) && IsSlot(st, x)
    ensures var r := Boot(st, x);
            |r.proc| == |st.proc| && r.proc[x].rts.Zero() && forall y :: 0 <= y < |st.proc| && y != x ==> r.proc[y] == st.proc[y]
  {
  }

  lemma ReadyIsQueued(st: State, x: nat)
    requires WF(st) && ReadyOk(st.proc, st.rq) && x < |st.proc| && st.proc[x].rts.Zero()
    ensures Occurs(st.rq, x) && exists i :: At2(st.rq, st.proc[x].prio, i, x)
  {
    var d := st.proc[x].prio;
    assert OnQueue(st.proc, st.rq, x, d);
    var i :| 0 <= i < |st.rq[d]| && st.rq[d][i] == x;
    assert At2(st.rq, d, i, x);
  }
}
