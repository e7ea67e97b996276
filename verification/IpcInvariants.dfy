/** What every message primitive keeps: the caller-queue and the ready-queue invariants. */
module IpcInvariants {
  import opened Queues
  import opened Ipc

  const SYSTASK: nat := SYSTEM + NR_TASKS

  /** Slot x waits in a caller queue iff it is SENDING or NOTIFYING (and no orphan), never both; NOTIFYING excludes
      RECEIVING and occurs in guests only; a virtual or promiscuous descriptor never runs or waits. */
  ghost predicate Flags(proc: seq<Proc>, cq: seq<Queue>, orphans: set<nat>, x: int)
    requires 0 <= x < |proc|
  {
    var p := proc[x];
    && (Occurs(cq, x) <==> (p.rts.sending || p.rts.notifying) && x !in orphans)
    && (x in orphans ==> p.rts.sending || p.rts.notifying)
    && !(p.rts.notifying && (p.rts.sending || p.rts.receiving))
    && (p.rts.notifying ==> p.vm != VM0)
    && (p.kind != Real ==> !p.rts.Zero() && !p.rts.sending && !p.rts.receiving && !p.rts.notifying)
    && (p.kind == Real && p.nr == SYSTEM ==> x == SYSTASK)
  }

  /** The caller-queue invariant; Disjoint says that nobody waits twice. */
  ghost predicate CallersOk(proc: seq<Proc>, cq: seq<Queue>, orphans: set<nat>) {
    Disjoint(cq) && forall x :: 0 <= x < |proc| ==> Flags(proc, cq, orphans, x)
  }

  /** Slot x is on ready queue d iff nothing stops it and d is its priority. */
  ghost predicate OnQueue(proc: seq<Proc>, rq: seq<Queue>, x: int, d: int)
    requires 0 <= x < |proc| && 0 <= d < |rq|
  {
    x in rq[d] <==> proc[x].rts.Zero() && proc[x].prio == d
  }

  /** The ready-queue invariant. */
  ghost predicate ReadyOk(proc: seq<Proc>, rq: seq<Queue>) {
    && Disjoint(rq) && Bounded(rq, |proc|)
    && forall x, d :: 0 <= x < |proc| && 0 <= d < |rq| ==> OnQueue(proc, rq, x, d)
  }

  ghost predicate Inv(st: State) {
    WF(st) && CallersOk(st.proc, st.cq, st.orphans) && ReadyOk(st.proc, st.rq)
  }

  /** What may change in a descriptor without touching the caller queues. */
  predicate SameWaiting(p: Proc, p': Proc) {
    && p'.rts.sending == p.rts.sending && p'.rts.notifying == p.rts.notifying
    && (p'.rts.receiving ==> p.rts.receiving || (!p.rts.notifying && p.kind == Real))
    && (p'.rts.Zero() ==> p.kind == Real)
    && p'.kind == p.kind && p'.nr == p.nr
    && (p'.vm == p.vm || !p.rts.notifying)
  }

  lemma CallersPut(proc: seq<Proc>, cq: seq<Queue>, o: set<nat>, x: nat, p: Proc)
    requires CallersOk(proc, cq, o) && x < |proc| && SameWaiting(proc[x], p)
    ensures CallersOk(proc[x := p], cq, o)
  {
    assert Flags(proc, cq, o, x);
    var after := proc[x := p];
    forall y | 0 <= y < |after|
      ensures Flags(after, cq, o, y)
    {
      assert Flags(proc, cq, o, y);
    }
  }

  lemma CallersHang(proc: seq<Proc>, cq: seq<Queue>, o: set<nat>, d: nat, x: nat, p: Proc)
    requires CallersOk(proc, cq, o) && x < |proc| && d < |cq|
    requires !proc[x].rts.sending && !proc[x].rts.notifying
    requires p.kind == proc[x].kind == Real && p.nr == proc[x].nr && p.rts.sending != p.rts.notifying
    requires p.rts.notifying ==> !p.rts.receiving && p.vm != VM0
    ensures CallersOk(proc[x := p], cq[d := cq[d] + [x]], o)
  {
    assert Flags(proc, cq, o, x);
    AppendedEverywhere(cq, d, x);
    var after, hung := proc[x := p], cq[d := cq[d] + [x]];
    forall y | 0 <= y < |after|
      ensures Flags(after, hung, o, y)
    {
      assert Flags(proc, cq, o, y);
    }
  }

  lemma CallersUnhang(proc: seq<Proc>, cq: seq<Queue>, o: set<nat>, d: nat, k: nat, p: Proc)
    requires CallersOk(proc, cq, o) && d < |cq| && k < |cq[d]| && cq[d][k] < |proc|
    requires var p0 := proc[cq[d][k]]; p.kind == p0.kind && p.nr == p0.nr && (p.rts.receiving ==> p0.rts.receiving)
    requires !p.rts.sending && !p.rts.notifying
    ensures CallersOk(proc[cq[d][k] := p], cq[d := RemoveAt(cq[d], k)], o)
  {
    var x := cq[d][k];
    RemovedEverywhere(cq, d, k);
    assert x in cq[d] && Flags(proc, cq, o, x);
    var after, left := proc[x := p], cq[d := RemoveAt(cq[d], k)];
    forall y | 0 <= y < |after|
      ensures Flags(after, left, o, y)
    {
      assert Flags(proc, cq, o, y);
    }
  }

  lemma ReadyPut(proc: seq<Proc>, rq: seq<Queue>, x: nat, p: Proc)
    requires ReadyOk(proc, rq) && x < |proc|
    requires p.rts.Zero() == proc[x].rts.Zero() && (p.rts.Zero() ==> p.prio == proc[x].prio)
    ensures ReadyOk(proc[x := p], rq)
  {
    var after := proc[x := p];
    forall y, d | 0 <= y < |after| && 0 <= d < |rq|
      ensures OnQueue(after, rq, y, d)
    {
      assert OnQueue(proc, rq, y, d);
    }
  }

  lemma NotReady(proc: seq<Proc>, rq: seq<Queue>, x: nat)
    requires ReadyOk(proc, rq) && x < |proc| && !proc[x].rts.Zero()
    ensures !Occurs(rq, x)
  {
    forall d | 0 <= d < |rq|
      ensures x !in rq[d]
    {
      assert OnQueue(proc, rq, x, d);
    }
  }

  /** enqueue() of a process that has just lost its last flag. */
  lemma ReadyEnqueue(st: State, x: nat, p: Proc)
    requires WF(st) && ReadyOk(st.proc, st.rq) && x < |st.proc|
    requires ProcWF(p, |st.proc|, |st.priv|) && p.rts.Zero() && !Occurs(st.rq, x)
    ensures var after := Enqueue(Put(st, x, p), x); ReadyOk(after.proc, after.rq)
  {
    var was := Put(st, x, p);
    var after := Enqueue(was, x);
    var d := Sched(p).prio;
    var front := ToFront(p, was.proc[st.cur]);
    assert after.rq == st.rq[d := if front then [x] + st.rq[d] else st.rq[d] + [x]];
    if front { PrependedEverywhere(st.rq, d, x); } else { AppendedEverywhere(st.rq, d, x); }
    forall y, e | 0 <= y < |st.proc| && 0 <= e < |st.rq|
      ensures OnQueue(after.proc, after.rq, y, e)
    {
      assert OnQueue(st.proc, st.rq, y, e);
      assert y == x ==> x !in st.rq[e];
    }
  }

  lemma ReadyWake(st: State, x: nat, p: Proc)
    requires WF(st) && ReadyOk(st.proc, st.rq) && x < |st.proc|
    requires ProcWF(p, |st.proc|, |st.priv|) && !st.proc[x].rts.Zero()
    ensures var after := Wake(st, x, p); ReadyOk(after.proc, after.rq)
  {
    NotReady(st.proc, st.rq, x);
    if p.rts.Zero() {
      ReadyEnqueue(st, x, p);
    } else {
      ReadyPut(st.proc, st.rq, x, p);
    }
  }

  /** dequeue() takes a ready process off every queue. */
  lemma ReadyDequeue(st: State, x: nat)
    requires WF(st) && ReadyOk(st.proc, st.rq) && x < |st.proc|
    ensures var after := Dequeue(st, x);
            && Disjoint(after.rq) && Bounded(after.rq, |st.proc|) && !Occurs(after.rq, x)
            && (forall y, d :: y != x && 0 <= d < |st.rq| ==> (y in after.rq[d] <==> y in st.rq[d]))
  {
    var d := st.proc[x].prio;
    assert OnQueue(st.proc, st.rq, x, d);
    if x in st.rq[d] {
      var k := PositionOf(st.rq[d], x);
      RemoveIsRemoveAt(st.rq[d], x, k);
      RemovedEverywhere(st.rq, d, k);
      var q := RemoveAt(st.rq[d], k);
      assert forall i :: 0 <= i < |q| ==> q[i] == st.rq[d][if i < k then i else i + 1];
      assert forall i :: 0 <= i < |st.rq[d]| && i != k ==> st.rq[d][i] == q[if i < k then i else i - 1];
    } else {
      RemoveAbsent(st.rq[d], x);
      assert st.rq[d := st.rq[d]] == st.rq;
      NotReady(st.proc, st.rq, x);
    }
  }

  /** The first position of x. */
  ghost function PositionOf(q: Queue, x: nat): (k: nat)
    requires x in q
    ensures k < |q| && q[k] == x && x !in q[..k]
  {
    if q[0] == x then 0
    else
      var k := 1 + PositionOf(q[1..], x);
      assert q[..k] == [q[0]] + q[1..][..k - 1];
      k
  }

  lemma ReadyBlock(st: State, x: nat, p: Proc)
    requires WF(st) && ReadyOk(st.proc, st.rq) && x < |st.proc|
    requires ProcWF(p, |st.proc|, |st.priv|) && !p.rts.Zero()
    ensures var after := Block(st, x, p); ReadyOk(after.proc, after.rq)
  {
    if st.proc[x].rts.Zero() {
      ReadyDequeue(st, x);
      var after := Block(st, x, p);
      forall y, d | 0 <= y < |st.proc| && 0 <= d < |st.rq|
        ensures OnQueue(after.proc, after.rq, y, d)
      {
        assert OnQueue(st.proc, st.rq, y, d);
      }
    } else {
      ReadyPut(st.proc, st.rq, x, p);
    }
  }

  // ---------------------------------------------------------------- the building blocks keep Inv

  predicate SameFlags(p: Proc, p': Proc) {
    p'.kind == p.kind && p'.rts.sending == p.rts.sending && p'.rts.notifying == p.rts.notifying
  }

  /** Nobody starts or ends a wait in a caller queue. */
  ghost predicate SameQueueing(st: State, after: State) {
    |after.proc| == |st.proc| && forall x :: 0 <= x < |st.proc| ==> SameFlags(st.proc[x], after.proc[x])
  }

  lemma PutKeeps(st: State, x: nat, p: Proc)
    requires Inv(st) && IsSlot(st, x) && ProcWF(p, |st.proc|, |st.priv|)
    requires SameWaiting(st.proc[x], p)
    requires p.rts.Zero() == st.proc[x].rts.Zero() && (p.rts.Zero() ==> p.prio == st.proc[x].prio)
    ensures Inv(Put(st, x, p))
  {
    CallersPut(st.proc, st.cq, st.orphans, x, p);
    ReadyPut(st.proc, st.rq, x, p);
  }

  lemma EnqueueCallers(st: State, x: nat)
    requires WF(st) && CallersOk(st.proc, st.cq, st.orphans) && IsSlot(st, x)
    ensures CallersOk(Enqueue(st, x).proc, Enqueue(st, x).cq, st.orphans)
  {
    assert Flags(st.proc, st.cq, st.orphans, x);
    CallersPut(st.proc, st.cq, st.orphans, x, Sched(st.proc[x]));
  }

  lemma WakeKeeps(st: State, x: nat, p: Proc)
    requires Inv(st) && IsSlot(st, x) && ProcWF(p, |st.proc|, |st.priv|)
    requires SameWaiting(st.proc[x], p) && !st.proc[x].rts.Zero()
    ensures Inv(Wake(st, x, p)) && SameQueueing(st, Wake(st, x, p))
  {
    CallersPut(st.proc, st.cq, st.orphans, x, p);
    ReadyWake(st, x, p);
    if p.rts.Zero() { EnqueueCallers(Put(st, x, p), x); }
  }

  lemma BlockKeeps(st: State, x: nat, p: Proc)
    requires Inv(st) && IsSlot(st, x) && ProcWF(p, |st.proc|, |st.priv|)
    requires SameWaiting(st.proc[x], p) && !p.rts.Zero()
    ensures Inv(Block(st, x, p))
  {
    CallersPut(st.proc, st.cq, st.orphans, x, p);
    ReadyBlock(st, x, p);
  }

  lemma BlockSendingKeeps(st: State, x: nat, d: nat, ep: int)
    requires Inv(st) && IsSlot(st, x) && IsSlot(st, d)
    requires !st.proc[x].rts.sending && !st.proc[x].rts.notifying && st.proc[x].kind == Real
    ensures Inv(BlockSending(st, x, d, ep)) && CanReceive(BlockSending(st, x, d, ep), x)
  {
    var p := st.proc[x];
    var p' := p.(rts := p.rts.(sending := true), sendto := ep);
    CallersHang(st.proc, st.cq, st.orphans, d, x, p');
    ReadyBlock(st, x, p');
  }

  lemma BlockNotifyingKeeps(st: State, x: nat, d: nat, ep: int)
    requires Inv(st) && IsSlot(st, x) && IsSlot(st, d)
    requires st.proc[x].rts.Zero() && st.proc[x].vm != VM0
    ensures Inv(BlockNotifying(st, x, d, ep))
  {
    assert Flags(st.proc, st.cq, st.orphans, x);
    var p := st.proc[x];
    var p' := p.(rts := p.rts.(notifying := true), sendto := ep);
    CallersHang(st.proc, st.cq, st.orphans, d, x, p');
    ReadyBlock(st, x, p');
  }

  lemma DeliverKeeps(st: State, d: nat, misc: bool)
    requires Inv(st) && IsSlot(st, d) && st.proc[d].rts.receiving
    ensures Inv(Deliver(st, d, misc)) && SameQueueing(st, Deliver(st, d, misc))
  {
    assert Flags(st.proc, st.cq, st.orphans, d);
    var p := st.proc[d];
    var got := p.(rts := p.rts.(receiving := false), getfrom := NONE);
    WakeKeeps(st, d, if misc then got.(vmidPending := false, notGetfrom := false, replyPending := false, recvVm := ANY_VM) else got);
  }

  lemma ReleaseKeeps(st: State, d: nat, k: nat, rts: Rts)
    requires Inv(st) && IsSlot(st, d) && k < |st.cq[d]|
    requires rts == st.proc[st.cq[d][k]].rts.(sending := false, notifying := false)
    ensures Inv(Release(st, d, k, rts))
  {
    var x := st.cq[d][k];
    assert x in st.cq[d] && Flags(st.proc, st.cq, st.orphans, x);
    var p := st.proc[x].(rts := rts, sendto := NONE);
    ReadyWake(st, x, p);
    CallersUnhang(st.proc, st.cq, st.orphans, d, k, p);
    var out := Unhang(Put(st, x, p), d, k);
    if rts.Zero() { EnqueueCallers(out, x); }
  }

  /** Whichever flag a queued sender has, looking at NOTIFYING first clears both. */
  lemma ReleasedClears(st: State, d: nat, k: nat)
    requires Inv(st) && IsSlot(st, d) && k < |st.cq[d]|
    ensures Released(st.proc[st.cq[d][k]].rts) == st.proc[st.cq[d][k]].rts.(sending := false, notifying := false)
    ensures st.proc[st.cq[d][k]].rts.sending || st.proc[st.cq[d][k]].rts.notifying
  {
    assert st.cq[d][k] in st.cq[d] && Flags(st.proc, st.cq, st.orphans, st.cq[d][k]);
  }

  lemma SettleKeeps(st: State, c: nat)
    requires Inv(st) && IsSlot(st, c)
    ensures Inv(Settle(st, c))
  {
    assert Flags(st.proc, st.cq, st.orphans, c);
    PutKeeps(st, c, st.proc[c].(vmidPending := false, notGetfrom := false, replyPending := false));
  }

  /** SYSTASK's VM changes only while SYSTASK itself receives. */
  lemma InheritKeeps(st: State, dst: nat, vm: nat)
    requires Inv(st) && IsSlot(st, dst) && vm < NR_VMS
    requires st.proc[dst].kind == Real && !st.proc[dst].rts.notifying
    ensures Inv(Inherit(st, dst, vm)) && SameQueueing(st, Inherit(st, dst, vm))
  {
    assert Flags(st.proc, st.cq, st.orphans, dst);
    if st.proc[dst].nr == SYSTEM {
      PutKeeps(st, SYSTASK, st.proc[SYSTASK].(vm := vm));
    }
  }

  lemma PrivKeeps(st: State, after: State)
    requires Inv(st) && WF(after) && after.proc == st.proc && after.cq == st.cq && after.rq == st.rq && after.orphans == st.orphans
    ensures Inv(after)
  {
  }

  // ---------------------------------------------------------------- the primitives keep Inv

  lemma OfferMessageKeeps(st: State, c: nat, dst: nat, dstX: nat)
    requires Inv(st) && IsSlot(st, c) && IsSlot(st, dst) && IsSlot(st, dstX) && st.proc[c].rts.Zero()
    ensures var r := OfferMessage(st, c, dst, dstX); r.Taken? ==> Inv(r.st) && SameQueueing(st, r.st)
  {
    var caller, to := st.proc[c], st.proc[dst];
    assert Flags(st.proc, st.cq, st.orphans, dst);
    if PureReceiving(to) {
      if to.vmidPending {
        DeliverKeeps(st, dst, true);
      } else {
        InheritKeeps(st, dst, caller.vm);
        DeliverKeeps(Inherit(st, dst, caller.vm), dst, true);
      }
    }
  }

  lemma NotifyPlainKeeps(st: State, c: nat, d: nat)
    requires Inv(st) && IsSlot(st, c) && IsSlot(st, d)
    ensures Inv(NotifyPlain(st, c, d).0) && SameQueueing(st, NotifyPlain(st, c, d).0)
  {
    OfferNotifyKeeps(st, c, d, d);
    PrivKeeps(st, AddPending(st, st.proc[d].priv, st.priv[st.proc[c].priv].sid));
  }

  lemma OfferNotifyKeeps(st: State, c: nat, dst: nat, dstX: nat)
    requires Inv(st) && IsSlot(st, c) && IsSlot(st, dst) && IsSlot(st, dstX)
    ensures var r := OfferNotify(st, c, dst, dstX); r.Taken? ==> Inv(r.st) && SameQueueing(st, r.st)
  {
    var caller, to := st.proc[c], st.proc[dst];
    var s := st.priv[caller.priv].sid;
    if PureReceiving(to) {
      if to.vmidPending { DirectVmKeeps(st, dst, s); } else { DirectKeeps(st, dst, s, caller.vm); }
    }
  }

  /** A notification delivered to a process in RECVVM, */
  lemma DirectVmKeeps(st: State, dst: nat, s: nat)
    requires Inv(st) && IsSlot(st, dst) && PureReceiving(st.proc[dst]) && s < NR_SYS_PROCS
    ensures var to := st.proc[dst];
            var got := to.(rts := to.rts.(receiving := false), getfrom := NONE, vmidPending := false, notGetfrom := false, recvVm := ANY_VM);
            var after := Wake(CountDirect(st, to.priv, s), dst, got);
            Inv(after) && SameQueueing(st, after)
  {
    hide Wake;
    var to := st.proc[dst];
    assert Flags(st.proc, st.cq, st.orphans, dst);
    PrivKeeps(st, CountDirect(st, to.priv, s));
    WakeKeeps(CountDirect(st, to.priv, s), dst,
              to.(rts := to.rts.(receiving := false), getfrom := NONE, vmidPending := false, notGetfrom := false, recvVm := ANY_VM));
  }

  /** and to one in a plain RECEIVE. */
  lemma DirectKeeps(st: State, dst: nat, s: nat, vm: nat)
    requires Inv(st) && IsSlot(st, dst) && PureReceiving(st.proc[dst]) && s < NR_SYS_PROCS && vm < NR_VMS
    ensures var after := Deliver(CountDirect(Inherit(st, dst, vm), st.proc[dst].priv, s), dst, false);
            Inv(after) && SameQueueing(st, after)
  {
    hide Deliver;
    assert Flags(st.proc, st.cq, st.orphans, dst);
    InheritKeeps(st, dst, vm);
    var went := Inherit(st, dst, vm);
    PrivKeeps(went, CountDirect(went, st.proc[dst].priv, s));
    DeliverKeeps(CountDirect(went, st.proc[dst].priv, s), dst, false);
    var after := Deliver(CountDirect(went, st.proc[dst].priv, s), dst, false);
    forall x | 0 <= x < |st.proc|
      ensures SameFlags(st.proc[x], after.proc[x])
    {
      assert SameFlags(st.proc[x], went.proc[x]) && SameFlags(went.proc[x], after.proc[x]);
    }
  }

  lemma NotifyProxyKeeps(st: State, s: nat)
    requires Inv(st)
    ensures Inv(NotifyProxy(st, s).0) && SameQueueing(st, NotifyProxy(st, s).0)
  {
    var px := Addr(VM0, EndpointP(st.vmm[st.running]));
    PrivKeeps(st, st.(running := VM0));
    NotifyPlainKeeps(st.(running := VM0), Addr(VM0, HARDWARE), px);
    var after := NotifyPlain(st.(running := VM0), Addr(VM0, HARDWARE), px).0;
    PrivKeeps(after, after.(running := st.running));
  }

  lemma MhSendKeeps(st: State, c: nat, dstEp: int, direct: bool)
    requires Inv(st) && IsSlot(st, c) && st.proc[c].rts.Zero()
    ensures Inv(MhSend(st, c, dstEp, direct).0)
    ensures MhSend(st, c, dstEp, direct).1 == Ok ==> CanReceive(MhSend(st, c, dstEp, direct).0, c)
  {
    assert Flags(st.proc, st.cq, st.orphans, c);
    var r := ResolveSend(st, c, dstEp, direct);
    if r.To? { SendToKeeps(st, c, r.dst, r.dstX, dstEp); }
  }

  /** A process that may go on to the receiving half: it runs, or its send has blocked it. */
  ghost predicate CanReceive(st: State, c: nat)
    requires WF(st) && IsSlot(st, c)
  {
    st.proc[c].kind == Real && !st.proc[c].rts.notifying
  }

  lemma SendToKeeps(st: State, c: nat, dst: nat, dstX: nat, dstEp: int)
    requires Inv(st) && IsSlot(st, c) && IsSlot(st, dst) && IsSlot(st, dstX) && st.proc[c].rts.Zero()
    ensures Inv(SendTo(st, c, dst, dstX, dstEp).0) && CanReceive(SendTo(st, c, dst, dstX, dstEp).0, c)
  {
    assert Flags(st.proc, st.cq, st.orphans, c);
    OfferMessageKeeps(st, c, dst, dstX);
    match OfferMessage(st, c, dst, dstX)
    case Taken(after) =>
      assert SameFlags(st.proc[c], after.proc[c]);
    case Failed =>
    case NotWaiting =>
      BlockSendingKeeps(st, c, dst, dstEp);
      var blocked, s := BlockSending(st, c, dst, dstEp), st.priv[st.proc[dst].priv].sid;
      NotifyProxyKeeps(blocked, s);
      assert SameFlags(blocked.proc[c], NotifyProxy(blocked, s).0.proc[c]);
  }
}
