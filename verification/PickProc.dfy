/** kernel/proc.c pick_proc(): who runs next. */
module PickProc {
  import opened Queues
  import opened Ipc

  /** What the scheduler looks at in a process: its number, its VM, whether it is of TASK_LEVEL, BILLABLE. */
  datatype Entry = Entry(nr: int, vm: nat, task: bool, billable: bool)

  type Table = seq<Entry>

  /** SYSTEM, CLOCK and everything on VM0 run before any guest. */
  predicate Urgent(p: Entry) {
    p.nr == SYSTEM || p.nr == CLOCK || p.vm == VM0
  }

  predicate TaskWithTokens(p: Entry, tokens: seq<int>)
    requires p.vm < |tokens|
  {
    p.task && tokens[p.vm] > 0
  }

  ghost predicate Fits(t: Table, tokens: seq<int>, l: Queue) {
    && (forall i :: 0 <= i < |l| ==> l[i] < |t|)
    && (forall x :: 0 <= x < |t| ==> t[x].vm < |tokens|)
  }

  function FirstUrgent(t: Table, l: Queue): (x: int)
    requires forall i :: 0 <= i < |l| ==> l[i] < |t|
    ensures x == NIL || (0 <= x < |t| && Urgent(t[x]))
  {
    if l == [] then NIL else if Urgent(t[l[0]]) then l[0] else FirstUrgent(t, l[1..])
  }

  function FirstTask(t: Table, tokens: seq<int>, l: Queue): (x: int)
    requires Fits(t, tokens, l)
  {
    if l == [] then NIL else if TaskWithTokens(t[l[0]], tokens) then l[0] else FirstTask(t, tokens, l[1..])
  }

  /** The ready processes but for IDLE's queue, by priority and then by position. */
  function InOrder(q: seq<Queue>, n: nat): Queue
    requires n <= |q|
  {
    if n == 0 then [] else InOrder(q, n - 1) + q[n - 1]
  }

  /** The specification: VM0 first, then a task of a VM with tokens, then whoever is first; IDLE if nobody is. */
  function Pick(t: Table, tokens: seq<int>, l: Queue, idle: nat): (x: nat)
    requires Fits(t, tokens, l)
    ensures x in l || (l == [] && x == idle)
  {
    if FirstUrgent(t, l) != NIL then FoundUrgent(t, l); FirstUrgent(t, l)
    else if FirstTask(t, tokens, l) != NIL then FoundTask(t, tokens, l); FirstTask(t, tokens, l)
    else if l != [] then l[0]
    else idle
  }

  lemma {:induction false} FoundUrgent(t: Table, l: Queue)
    requires forall i :: 0 <= i < |l| ==> l[i] < |t|
    ensures var x := FirstUrgent(t, l);
            if x == NIL then forall i :: 0 <= i < |l| ==> !Urgent(t[l[i]])
            else exists k :: 0 <= k < |l| && l[k] == x && Urgent(t[x]) && forall i :: 0 <= i < k ==> !Urgent(t[l[i]])
  {
    if l != [] && !Urgent(t[l[0]]) {
      FoundUrgent(t, l[1..]);
      assert forall i :: 1 <= i < |l| ==> l[i] == l[1..][i - 1];
      if FirstUrgent(t, l[1..]) != NIL {
        var k :| 0 <= k < |l[1..]| && l[1..][k] == FirstUrgent(t, l[1..]) && forall i :: 0 <= i < k ==> !Urgent(t[l[1..][i]]);
        assert l[k + 1] == FirstUrgent(t, l);
      }
    } else if l != [] {
      assert l[0] == FirstUrgent(t, l);
    }
  }

  lemma {:induction false} FoundTask(t: Table, tokens: seq<int>, l: Queue)
    requires Fits(t, tokens, l)
    ensures var x := FirstTask(t, tokens, l);
            if x == NIL then forall i :: 0 <= i < |l| ==> !TaskWithTokens(t[l[i]], tokens)
            else exists k :: 0 <= k < |l| && l[k] == x && TaskWithTokens(t[x], tokens) && forall i :: 0 <= i < k ==> !TaskWithTokens(t[l[i]], tokens)
  {
    if l != [] && !TaskWithTokens(t[l[0]], tokens) {
      FoundTask(t, tokens, l[1..]);
      assert forall i :: 1 <= i < |l| ==> l[i] == l[1..][i - 1];
      if FirstTask(t, tokens, l[1..]) != NIL {
        var k :| 0 <= k < |l[1..]| && l[1..][k] == FirstTask(t, tokens, l[1..])
                 && forall i :: 0 <= i < k ==> !TaskWithTokens(t[l[1..][i]], tokens);
        assert l[k + 1] == FirstTask(t, tokens, l);
      }
    } else if l != [] {
      assert l[0] == FirstTask(t, tokens, l);
    }
  }

  lemma {:induction false} FirstUrgentAppend(t: Table, a: Queue, b: Queue)
    requires forall i :: 0 <= i < |a| ==> a[i] < |t|
    requires forall i :: 0 <= i < |b| ==> b[i] < |t|
    ensures FirstUrgent(t, a + b) == if FirstUrgent(t, a) != NIL then FirstUrgent(t, a) else FirstUrgent(t, b)
  {
    if a == [] {
      assert a + b == b;
    } else {
      assert (a + b)[1..] == a[1..] + b;
      FirstUrgentAppend(t, a[1..], b);
    }
  }

  lemma {:induction false} FirstTaskAppend(t: Table, tokens: seq<int>, a: Queue, b: Queue)
    requires Fits(t, tokens, a) && Fits(t, tokens, b)
    ensures FirstTask(t, tokens, a + b) == if FirstTask(t, tokens, a) != NIL then FirstTask(t, tokens, a) else FirstTask(t, tokens, b)
  {
    if a == [] {
      assert a + b == b;
    } else {
      assert (a + b)[1..] == a[1..] + b;
      FirstTaskAppend(t, tokens, a[1..], b);
    }
  }

  lemma {:induction false} QueuesArePrefixes(q: seq<Queue>, m: nat, n: nat)
    requires m <= n <= |q|
    ensures InOrder(q, m) <= InOrder(q, n)
    decreases n
  {
    if m < n {
      QueuesArePrefixes(q, m, n - 1);
    }
  }

  /** What has been seen when position k of queue d is reached is a prefix of all there is. */
  lemma SeenIsPrefix(q: seq<Queue>, d: nat, k: nat, n: nat)
    requires d < n <= |q| && k <= |q[d]|
    ensures InOrder(q, d) + q[d][..k] <= InOrder(q, n)
  {
    QueuesArePrefixes(q, d + 1, n);
    assert q[d] == q[d][..k] + q[d][k..];
    assert InOrder(q, d) + q[d] == (InOrder(q, d) + q[d][..k]) + q[d][k..];
  }

  /** An urgent process ends the search: it is the pick if none has been seen before. */
  lemma UrgentDecides(t: Table, seen: Queue, x: nat, l: Queue)
    requires forall i :: 0 <= i < |l| ==> l[i] < |t|
    requires forall i :: 0 <= i < |seen| ==> seen[i] < |t|
    requires x < |t| && seen + [x] <= l && FirstUrgent(t, seen) == NIL
    ensures Urgent(t[x]) ==> FirstUrgent(t, l) == x
    ensures !Urgent(t[x]) ==> FirstUrgent(t, seen + [x]) == NIL
  {
    hide Urgent;
    var rest := l[|seen| + 1..];
    assert l == (seen + [x]) + rest;
    assert forall i :: 0 <= i < |rest| ==> rest[i] == l[|seen| + 1 + i];
    assert [x][1..] == [] && FirstUrgent(t, []) == NIL;
    assert FirstUrgent(t, [x]) == if Urgent(t[x]) then x else NIL;
    FirstUrgentAppend(t, seen, [x]);
    FirstUrgentAppend(t, seen + [x], rest);
  }

  /** rp_TwT, rp_nvmT, rp_PwT, rp_TwoT, rp_PwoT */
  datatype Candidates = Candidates(twT: int, nvmT: int, pwT: int, twoT: int, pwoT: int)

  /** What the candidates are once the processes in seen, none of them urgent, have been looked at. */
  ghost predicate Kept(c: Candidates, t: Table, tokens: seq<int>, seen: Queue)
    requires Fits(t, tokens, seen)
  {
    && FirstUrgent(t, seen) == NIL && c.twT == FirstTask(t, tokens, seen) && c.pwoT == At(seen, 0)
    && (c.twT == NIL ==> c.nvmT == NIL && c.pwT == NIL && c.twoT == NIL)
  }

  /** The chain of tests for one process that is not urgent. */
  method Consider(c0: Candidates, rp: nat, t: Table, tokens: seq<int>, nextVm: int, ghost seen: Queue) returns (c: Candidates)
    requires Fits(t, tokens, seen) && Fits(t, tokens, [rp]) && rp < |t| && !Urgent(t[rp]) && Kept(c0, t, tokens, seen)
    ensures Fits(t, tokens, seen + [rp]) && Kept(c, t, tokens, seen + [rp])
  {
    FirstUrgentAppend(t, seen, [rp]);
    FirstTaskAppend(t, tokens, seen, [rp]);
    c := c0;
    if c.twT == NIL {
      if t[rp].task && tokens[t[rp].vm] > 0 { c := c.(twT := rp); }
    } else if c.nvmT == NIL && nextVm != VM0 {
      if t[rp].vm == nextVm { c := c.(nvmT := rp); }
    } else if c.pwT == NIL {
      if !t[rp].task && tokens[t[rp].vm] > 0 { c := c.(pwT := rp); }
    } else if c.twoT == NIL {
      if t[rp].task { c := c.(twoT := rp); }
    }
    if c.pwoT == NIL { c := c.(pwoT := rp); }
  }

  /** The inner loop: queue q from its head, up to an urgent process if there is one. */
  method ScanQueue(rdy: ReadyQueues, t: Table, tokens: seq<int>, nextVm: int, q: nat, c0: Candidates)
    returns (found: int, c: Candidates)
    requires rdy.Valid() && |rdy.q| == NR_SCHED_QUEUES && |rdy.next| == |t| && q < IDLE_Q
    requires Fits(t, tokens, InOrder(rdy.q, IDLE_Q)) && Fits(t, tokens, InOrder(rdy.q, q))
    requires Kept(c0, t, tokens, InOrder(rdy.q, q))
    ensures found != NIL ==> 0 <= found < |t| && Urgent(t[found]) && FirstUrgent(t, InOrder(rdy.q, IDLE_Q)) == found
    ensures found == NIL ==> Fits(t, tokens, InOrder(rdy.q, q + 1)) && Kept(c, t, tokens, InOrder(rdy.q, q + 1))
  {
    c := c0;
    found := rdy.head[q];
    ghost var k, seen := 0, InOrder(rdy.q, q);
    assert Chain(rdy.next, rdy.q[q]);
    assert seen == InOrder(rdy.q, q) + rdy.q[q][..0];
    while found != NIL
      invariant 0 <= k <= |rdy.q[q]| && found == At(rdy.q[q], k) && seen == InOrder(rdy.q, q) + rdy.q[q][..k]
      invariant Fits(t, tokens, seen) && Kept(c, t, tokens, seen)
      decreases |rdy.q[q]| - k
    {
      assert Linked(rdy.next, rdy.q[q], k);
      assert rdy.q[q][..k + 1] == rdy.q[q][..k] + [found];
      SeenIsPrefix(rdy.q, q, k + 1, IDLE_Q);
      assert seen + [found] == InOrder(rdy.q, q) + rdy.q[q][..k + 1];
      UrgentDecides(t, seen, found, InOrder(rdy.q, IDLE_Q));
      if t[found].nr == SYSTEM || t[found].nr == CLOCK || t[found].vm == VM0 { return; }
      c := Consider(c, found, t, tokens, nextVm, seen);
      seen := seen + [found];
      found := rdy.next[found];
      k := k + 1;
    }
    assert rdy.q[q][..k] == rdy.q[q];
  }

  /** pick_proc(): next is next_ptr, bill bill_ptr. */
  method PickNext(rdy: ReadyQueues, t: Table, tokens: seq<int>, nextVm: int, bill0: int) returns (next: int, bill: int)
    requires rdy.Valid() && |rdy.q| == NR_SCHED_QUEUES && |rdy.next| == |t| && Bounded(rdy.q, |t|)
    requires forall x :: 0 <= x < |t| ==> t[x].vm < |tokens|
    requires rdy.q[IDLE_Q] != []
    ensures Fits(t, tokens, InOrder(rdy.q, IDLE_Q)) && next == Pick(t, tokens, InOrder(rdy.q, IDLE_Q), rdy.q[IDLE_Q][0])
    ensures 0 <= next < |t|
    ensures bill == if t[next].billable && !((t[next].nr == SYSTEM || t[next].nr == CLOCK) && next in InOrder(rdy.q, IDLE_Q)) then next else bill0
  {
    ghost var l := InOrder(rdy.q, IDLE_Q);
    InOrderBounded(rdy.q, |t|);
    FoundUrgent(t, l);
    FoundTask(t, tokens, l);
    bill := bill0;
    var c := Candidates(NIL, NIL, NIL, NIL, NIL);
    var q := 0;
    while q < NR_SCHED_QUEUES - 1
      invariant 0 <= q <= NR_SCHED_QUEUES - 1
      invariant Fits(t, tokens, InOrder(rdy.q, q)) && Kept(c, t, tokens, InOrder(rdy.q, q))
    {
      next, c := ScanQueue(rdy, t, tokens, nextVm, q, c);
      if next != NIL {
        if t[next].nr != SYSTEM && t[next].nr != CLOCK && t[next].billable { bill := next; }
        return;
      }
      q := q + 1;
    }
    if c.twT != NIL { next := c.twT; }
    else if c.nvmT != NIL { next := c.nvmT; }
    else if c.pwT != NIL { next := c.pwT; }
    else if c.twoT != NIL { next := c.twoT; }
    else if c.pwoT != NIL { next := c.pwoT; }
    else { next := rdy.head[IDLE_Q]; }
    if t[next].billable { bill := next; }
  }

  lemma {:induction false} InOrderBoundedTo(q: seq<Queue>, n: nat, slots: nat)
    requires n <= |q| && Bounded(q, slots)
    ensures forall i :: 0 <= i < |InOrder(q, n)| ==> InOrder(q, n)[i] < slots
  {
    if n > 0 {
      InOrderBoundedTo(q, n - 1, slots);
    }
  }

  lemma InOrderBounded(q: seq<Queue>, slots: nat)
    requires Bounded(q, slots) && |q| == NR_SCHED_QUEUES
    ensures forall i :: 0 <= i < |InOrder(q, IDLE_Q)| ==> InOrder(q, IDLE_Q)[i] < slots
  {
    InOrderBoundedTo(q, IDLE_Q, slots);
  }

  // ---------------------------------------------------------------- the pick, by place in the queues

  datatype Class = Privileged | ServedTask | Whoever

  /** A process that is SYSTEM or CLOCK or in VM0; a task of a VM that has tokens; any process. */
  predicate Of(p: Entry, tokens: seq<int>, c: Class)
    requires p.vm < |tokens|
  {
    match c
    case Privileged => p.nr == SYSTEM || p.nr == CLOCK || p.vm == VM0
    case ServedTask => p.task && tokens[p.vm] > 0
    case Whoever => true
  }

  /** Position j of queue b is looked at before position i of queue a. */
  predicate Earlier(b: int, j: int, a: int, i: int) {
    b < a || (b == a && j < i)
  }

  /** Position i of queue a has the first process of the class, IDLE's queue apart. */
  ghost predicate FirstOf(t: Table, tokens: seq<int>, q: seq<Queue>, c: Class, a: nat, i: nat)
    requires |q| == NR_SCHED_QUEUES && Bounded(q, |t|) && forall x :: 0 <= x < |t| ==> t[x].vm < |tokens|
  {
    && a < IDLE_Q && i < |q[a]| && InClass(t, tokens, q, c, a, i)
    && forall b, j :: 0 <= b < IDLE_Q && 0 <= j < |q[b]| && Earlier(b, j, a, i) ==> !InClass(t, tokens, q, c, b, j)
  }

  ghost predicate InClass(t: Table, tokens: seq<int>, q: seq<Queue>, c: Class, b: nat, j: nat)
    requires |q| == NR_SCHED_QUEUES && Bounded(q, |t|) && forall x :: 0 <= x < |t| ==> t[x].vm < |tokens|
    requires b < NR_SCHED_QUEUES && j < |q[b]|
  {
    q[b][j] < |t| && Of(t[q[b][j]], tokens, c)
  }

  ghost predicate NobodyOf(t: Table, tokens: seq<int>, q: seq<Queue>, c: Class)
    requires |q| == NR_SCHED_QUEUES && Bounded(q, |t|) && forall x :: 0 <= x < |t| ==> t[x].vm < |tokens|
  {
    forall b, j :: 0 <= b < IDLE_Q && 0 <= j < |q[b]| ==> !InClass(t, tokens, q, c, b, j)
  }

  /** Where position i of queue a is in the order of the search. */
  lemma PlaceIn(q: seq<Queue>, a: nat, i: nat, n: nat)
    requires a < n <= |q| && i < |q[a]|
    ensures var k := |InOrder(q, a)| + i; k < |InOrder(q, n)| && InOrder(q, n)[k] == q[a][i]
  {
    SeenIsPrefix(q, a, i + 1, n);
    assert (InOrder(q, a) + q[a][..i + 1])[|InOrder(q, a)| + i] == q[a][i];
  }

  lemma {:induction false} PlaceOf(q: seq<Queue>, n: nat, m: nat) returns (b: nat, j: nat)
    requires n <= |q| && m < |InOrder(q, n)|
    ensures b < n && j < |q[b]| && m == |InOrder(q, b)| + j && InOrder(q, n)[m] == q[b][j]
  {
    if m < |InOrder(q, n - 1)| { b, j := PlaceOf(q, n - 1, m); } else { b, j := n - 1, m - |InOrder(q, n - 1)|; }
  }

  lemma PlacesInOrder(q: seq<Queue>, b: nat, j: nat, a: nat, i: nat)
    requires b < |q| && a < |q| && j < |q[b]| && i < |q[a]| && |InOrder(q, b)| + j < |InOrder(q, a)| + i
    ensures Earlier(b, j, a, i)
  {
    if a < b { QueuesArePrefixes(q, a + 1, b); }
  }

  /** The class in the order of the search. */
  lemma ClassInOrder(t: Table, tokens: seq<int>, q: seq<Queue>, c: Class, a: nat, i: nat)
    requires |q| == NR_SCHED_QUEUES && Bounded(q, |t|) && forall x :: 0 <= x < |t| ==> t[x].vm < |tokens|
    ensures var l := InOrder(q, IDLE_Q);
            && Fits(t, tokens, l)
            && (NobodyOf(t, tokens, q, c) ==> forall m :: 0 <= m < |l| ==> !Of(t[l[m]], tokens, c))
            && (FirstOf(t, tokens, q, c, a, i) ==>
                  var k := |InOrder(q, a)| + i;
                  k < |l| && l[k] == q[a][i] && Of(t[l[k]], tokens, c) && forall m :: 0 <= m < k ==> !Of(t[l[m]], tokens, c))
  {
    hide Of, InOrder, Bounded, Earlier;
    InOrderBounded(q, |t|);
    var l := InOrder(q, IDLE_Q);
    if FirstOf(t, tokens, q, c, a, i) { PlaceIn(q, a, i, IDLE_Q); }
    forall m | 0 <= m < |l|
      ensures NobodyOf(t, tokens, q, c) ==> !Of(t[l[m]], tokens, c)
      ensures FirstOf(t, tokens, q, c, a, i) && m < |InOrder(q, a)| + i ==> !Of(t[l[m]], tokens, c)
    {
      var b, j := PlaceOf(q, IDLE_Q, m);
      assert InClass(t, tokens, q, c, b, j) <==> Of(t[l[m]], tokens, c);
      if FirstOf(t, tokens, q, c, a, i) && m < |InOrder(q, a)| + i { PlacesInOrder(q, b, j, a, i); }
    }
  }

  /** Main result, by places: the first privileged process of all queues; without any, the first task of a VM with tokens;
      without any, the first process; and without any, IDLE. */
  lemma PickExactly(t: Table, tokens: seq<int>, q: seq<Queue>, idle: nat, a: nat, i: nat)
    requires |q| == NR_SCHED_QUEUES && Bounded(q, |t|) && forall x :: 0 <= x < |t| ==> t[x].vm < |tokens|
    ensures Fits(t, tokens, InOrder(q, IDLE_Q))
    ensures var x := Pick(t, tokens, InOrder(q, IDLE_Q), idle);
            if NobodyOf(t, tokens, q, Privileged) then
              if NobodyOf(t, tokens, q, ServedTask) then
                if NobodyOf(t, tokens, q, Whoever) then x == idle else FirstOf(t, tokens, q, Whoever, a, i) ==> x == q[a][i]
              else FirstOf(t, tokens, q, ServedTask, a, i) ==> x == q[a][i]
            else FirstOf(t, tokens, q, Privileged, a, i) ==> x == q[a][i]
  {
    hide InOrder, Bounded, FirstOf, NobodyOf;
    ClassInOrder(t, tokens, q, Privileged, a, i);
    ClassInOrder(t, tokens, q, ServedTask, a, i);
    ClassInOrder(t, tokens, q, Whoever, a, i);
    FoundUrgent(t, InOrder(q, IDLE_Q));
    FoundTask(t, tokens, InOrder(q, IDLE_Q));
  }

  // ---------------------------------------------------------------- what the pick guarantees

  /** Main result: no guest runs while a VM0 process is ready, no guest without tokens in a task's place while a
      task of a VM with tokens is, and IDLE exactly when nobody else is ready. */
  lemma PickGuarantees(t: Table, tokens: seq<int>, l: Queue, idle: nat, i: nat)
    requires Fits(t, tokens, l) && idle < |t| && idle !in l
    ensures var x := Pick(t, tokens, l, idle);
            && x < |t|
            && (x == idle <==> l == [])
            && (i < |l| && Urgent(t[l[i]]) ==> Urgent(t[x]))
            && (i < |l| && TaskWithTokens(t[l[i]], tokens) ==> Urgent(t[x]) || TaskWithTokens(t[x], tokens))
  {
    FoundUrgent(t, l);
    FoundTask(t, tokens, l);
  }

  /** The comments in pick_proc name seven classes. */
  function Tier(p: Entry, tokens: seq<int>, nextVm: int): nat
    requires p.vm < |tokens|
  {
    if IsSystem(p) then 1
    else if p.vm == VM0 then 2
    else if tokens[p.vm] > 0 then if p.task then 3 else if p.vm == nextVm then 4 else 5
    else if p.task then 6
    else 7
  }

  /** x is the first of the best class in l, as the comments have it. */
  ghost predicate Documented(t: Table, tokens: seq<int>, nextVm: int, l: Queue, k: nat)
    requires Fits(t, tokens, l) && k < |l|
  {
    && (forall i :: 0 <= i < |l| ==> Tier(t[l[i]], tokens, nextVm) >= Tier(t[l[k]], tokens, nextVm))
    && (forall i :: 0 <= i < k ==> Tier(t[l[i]], tokens, nextVm) > Tier(t[l[k]], tokens, nextVm))
  }

  /** What the comments want of the first of l where neither an urgent process nor a task with tokens is ready: a
      process of next_vm with tokens; or else one with tokens, if next_vm has none that is ready; or else, if nobody
      has tokens, a task; or else anyone, if there are no tasks either. */
  ghost predicate FirstIsBest(t: Table, tokens: seq<int>, nextVm: int, l: Queue)
    requires Fits(t, tokens, l) && l != []
  {
    var p := t[l[0]];
    if tokens[p.vm] > 0 then
      p.vm == nextVm || forall i :: 0 <= i < |l| ==> t[l[i]].vm != nextVm || tokens[t[l[i]].vm] <= 0
    else
      && (forall i :: 0 <= i < |l| ==> tokens[t[l[i]].vm] <= 0)
      && (p.task || forall i :: 0 <= i < |l| ==> !t[l[i]].task)
  }

  /** What the caller can check: who is the first urgent process, or else the first process. */
  ghost predicate CommentsHold(t: Table, tokens: seq<int>, nextVm: int, l: Queue)
    requires Fits(t, tokens, l) && l != []
  {
    if FirstUrgent(t, l) != NIL then
      IsSystem(t[FirstUrgent(t, l)]) || forall i :: 0 <= i < |l| ==> !IsSystem(t[l[i]])
    else FirstTask(t, tokens, l) != NIL || FirstIsBest(t, tokens, nextVm, l)
  }

  predicate IsSystem(p: Entry) {
    p.nr == SYSTEM || p.nr == CLOCK
  }

  /** The class of next_vm (4) and the classes 5 and 6 are looked at only once a task with tokens has been found,
      and then they no longer matter.  So the code does what its comments say iff either a task with tokens is
      there, or the very first ready process happens to be of the best class; and iff, among the urgent, no
      VM0 process is queued ahead of every SYSTEM or CLOCK. */
  lemma PickAsDocumentedExactly(t: Table, tokens: seq<int>, nextVm: int, l: Queue, idle: nat)
    requires Fits(t, tokens, l) && l != []
    ensures CommentsHold(t, tokens, nextVm, l)
            <==> exists k :: 0 <= k < |l| && l[k] == Pick(t, tokens, l, idle) && Documented(t, tokens, nextVm, l, k)
  {
    FoundUrgent(t, l);
    FoundTask(t, tokens, l);
    if FirstUrgent(t, l) != NIL {
      UrgentAsDocumented(t, tokens, nextVm, l, idle);
    } else if FirstTask(t, tokens, l) != NIL {
      var k :| 0 <= k < |l| && l[k] == FirstTask(t, tokens, l) && TaskWithTokens(t[l[k]], tokens)
               && forall i :: 0 <= i < k ==> !TaskWithTokens(t[l[i]], tokens);
      assert Documented(t, tokens, nextVm, l, k);
    } else {
      FirstAsDocumented(t, tokens, nextVm, l);
      assert l[0] == Pick(t, tokens, l, idle);
    }
  }

  /** With neither an urgent process nor a task with tokens, the first of l is the best exactly if FirstIsBest. */
  lemma FirstAsDocumented(t: Table, tokens: seq<int>, nextVm: int, l: Queue)
    requires Fits(t, tokens, l) && l != []
    requires forall i :: 0 <= i < |l| ==> !Urgent(t[l[i]]) && !TaskWithTokens(t[l[i]], tokens)
    ensures FirstIsBest(t, tokens, nextVm, l) <==> Documented(t, tokens, nextVm, l, 0)
    ensures forall k :: 0 <= k < |l| && l[k] == l[0] && Documented(t, tokens, nextVm, l, k) ==> Documented(t, tokens, nextVm, l, 0)
  {
    if !FirstIsBest(t, tokens, nextVm, l) {
      assert exists i :: 0 <= i < |l| && Tier(t[l[i]], tokens, nextVm) < Tier(t[l[0]], tokens, nextVm);
    }
  }

  lemma UrgentAsDocumented(t: Table, tokens: seq<int>, nextVm: int, l: Queue, idle: nat)
    requires Fits(t, tokens, l) && l != [] && FirstUrgent(t, l) != NIL
    ensures CommentsHold(t, tokens, nextVm, l)
            <==> exists k :: 0 <= k < |l| && l[k] == Pick(t, tokens, l, idle) && Documented(t, tokens, nextVm, l, k)
  {
    FoundUrgent(t, l);
    var k :| 0 <= k < |l| && l[k] == FirstUrgent(t, l) && Urgent(t[l[k]]) && forall i :: 0 <= i < k ==> !Urgent(t[l[i]]);
    if CommentsHold(t, tokens, nextVm, l) {
      assert Documented(t, tokens, nextVm, l, k);
    }
  }

  /** next_vm is never consulted in effect: a guest process with tokens of the next VM waits behind one of
      another VM without tokens that was queued first.  (No run from boot gives a guest tokens.) */
  lemma NextVmIsPassedOver()
    ensures var t := [Entry(5, 1, false, true), Entry(5, 2, false, true)];
            Pick(t, [0, 0, 8, 0], [0, 1], 9) == 0 && Tier(t[1], [0, 0, 8, 0], 2) < Tier(t[0], [0, 0, 8, 0], 2)
  {
    var t := [Entry(5, 1, false, true), Entry(5, 2, false, true)];
    var l: Queue := [0, 1];
    assert l[1..] == [1] && l[1..][1..] == [];
    assert FirstUrgent(t, l[1..]) == NIL && FirstTask(t, [0, 0, 8, 0], l[1..]) == NIL;
  }

  /** As guests stand from boot on, without tokens: a task waits behind an ordinary process of another guest that was
      queued first. */
  lemma TaskIsPassedOver()
    ensures var t := [Entry(5, 1, false, true), Entry(5, 2, true, true)];
            Pick(t, [256, 0, 0, 0], [0, 1], 9) == 0 && Tier(t[1], [256, 0, 0, 0], 0) < Tier(t[0], [256, 0, 0, 0], 0)
  {
    var t := [Entry(5, 1, false, true), Entry(5, 2, true, true)];
    var l: Queue := [0, 1];
    assert l[1..] == [1] && l[1..][1..] == [];
    assert FirstUrgent(t, l[1..]) == NIL && FirstTask(t, [256, 0, 0, 0], l[1..]) == NIL;
  }
}
