/** No missed rendezvous among the processes of one VM that use SEND, RECEIVE, SENDREC and NOTIFY. */
module Rendezvous {
  import opened Queues
  import opened Ipc
  import opened IpcInvariants
  import opened IpcPrimitives
  import opened SysCall

  /** The slots of VM v whose processes address each other without leaving v. */
  predicate Member(v: nat, x: int) {
    if v == VM0 then 0 <= x < SLOTS else v * SLOTS + NR_TASKS <= x < (v + 1) * SLOTS
  }

  /** An ordinary process of v: its own slot, its own VM, no part in cross-VM traffic. */
  predicate Plain(p: Proc, v: nat, x: int) {
    && p.vm == v && p.kind == Real && !p.paravir && !p.vmidPending && !p.notGetfrom
    && p.nr == x - v * SLOTS - NR_TASKS && EndpointP(p.ep) == p.nr && p.ep != ANY
  }

  predicate Wants(p: Proc, from: Proc) {
    p.getfrom == ANY || p.getfrom == from.ep
  }

  /** A process that is SENDING waits for the process it names, and if it is in a SENDREC it wants
      its reply from that same endpoint. */
  ghost predicate SendsWhereItReceives(proc: seq<Proc>, cq: seq<Queue>, v: nat, x: int)
    requires v < NR_VMS && 0 <= x < |proc| && |cq| == |proc| == NR_VMS * SLOTS
  {
    var p := proc[x];
    p.rts.sending ==>
      && IsOkProcN(EndpointP(p.sendto)) && p.sendto != ANY
      && x in cq[Addr(v, EndpointP(p.sendto))]
      && (p.rts.receiving ==> p.getfrom == p.sendto)
  }

  /** Nobody in d's caller queue has a message that d is waiting for. */
  ghost predicate Unmissed(proc: seq<Proc>, cq: seq<Queue>, d: int)
    requires 0 <= d < |proc| == |cq| && Bounded(cq, |proc|)
  {
    PureReceiving(proc[d]) ==> forall k :: 0 <= k < |cq[d]| ==> !Wants(proc[d], proc[cq[d][k]])
  }

  ghost predicate SlotOk(proc: seq<Proc>, cq: seq<Queue>, v: nat, x: int)
    requires v < NR_VMS && 0 <= x < |proc| && |cq| == |proc| == NR_VMS * SLOTS && Bounded(cq, |proc|)
  {
    && Plain(proc[x], v, x)
    && (forall k :: 0 <= k < |cq[x]| ==> Member(v, cq[x][k]))
    && SendsWhereItReceives(proc, cq, v, x)
    && Unmissed(proc, cq, x)
  }

  ghost predicate AllOk(proc: seq<Proc>, cq: seq<Queue>, v: nat)
    requires v < NR_VMS && |cq| == |proc| == NR_VMS * SLOTS && Bounded(cq, |proc|)
  {
    forall x :: Member(v, x) ==> SlotOk(proc, cq, v, x)
  }

  ghost predicate NoMissedRendezvous(st: State, v: nat)
    requires v < NR_VMS
  {
    Inv(st) && st.running == v && AllOk(st.proc, st.cq, v)
  }

  /** What a change to one descriptor may do: nothing that starts a wait. */
  predicate Calmer(p: Proc, p': Proc) {
    && p'.vm == p.vm && p'.kind == p.kind && p'.paravir == p.paravir && p'.nr == p.nr && p'.ep == p.ep
    && (p'.vmidPending ==> p.vmidPending) && (p'.notGetfrom ==> p.notGetfrom)
    && p'.rts.sending == p.rts.sending && (p.rts.sending ==> p'.sendto == p.sendto)
    && (p'.rts.receiving ==> p.rts.receiving && p'.getfrom == p.getfrom)
  }

  lemma CalmerOk(proc: seq<Proc>, cq: seq<Queue>, v: nat, x: nat, p: Proc)
    requires v < NR_VMS && |cq| == |proc| == NR_VMS * SLOTS && Bounded(cq, |proc|)
    requires AllOk(proc, cq, v) && x < |proc| && Calmer(proc[x], p)
    ensures AllOk(proc[x := p], cq, v)
  {
    var after := proc[x := p];
    forall y | Member(v, y)
      ensures SlotOk(after, cq, v, y)
    {
      assert SlotOk(proc, cq, v, y);
    }
  }

  lemma EnqueueOk(st: State, v: nat, x: nat)
    requires v < NR_VMS && WF(st) && AllOk(st.proc, st.cq, v) && IsSlot(st, x)
    ensures AllOk(Enqueue(st, x).proc, Enqueue(st, x).cq, v)
  {
    CalmerOk(st.proc, st.cq, v, x, Sched(st.proc[x]));
  }

  lemma WakeOk(st: State, v: nat, x: nat, p: Proc)
    requires v < NR_VMS && WF(st) && AllOk(st.proc, st.cq, v) && IsSlot(st, x)
    requires ProcWF(p, |st.proc|, |st.priv|) && Calmer(st.proc[x], p)
    ensures AllOk(Wake(st, x, p).proc, Wake(st, x, p).cq, v)
  {
    CalmerOk(st.proc, st.cq, v, x, p);
    if p.rts.Zero() { EnqueueOk(Put(st, x, p), v, x); }
  }

  /** The sender joins a queue whose owner does not want its message now. */
  lemma BlockSendingOk(st: State, v: nat, c: nat, d: nat, ep: int)
    requires v < NR_VMS && Inv(st) && AllOk(st.proc, st.cq, v) && Member(v, c) && Member(v, d)
    requires !st.proc[c].rts.sending && !st.proc[c].rts.receiving
    requires ep != ANY && IsOkProcN(EndpointP(ep)) && d == Addr(v, EndpointP(ep))
    requires PureReceiving(st.proc[d]) ==> !Wants(st.proc[d], st.proc[c])
    ensures var after := BlockSending(st, c, d, ep); AllOk(after.proc, after.cq, v)
  {
    hide SlotOk, AllOk, CallersOk, ReadyOk;
    JoinOk(st.proc, st.cq, v, c, d, ep);
  }

  lemma JoinOk(proc: seq<Proc>, cq: seq<Queue>, v: nat, c: nat, d: nat, ep: int)
    requires v < NR_VMS && |cq| == |proc| == NR_VMS * SLOTS && Bounded(cq, |proc|) && AllOk(proc, cq, v)
    requires Member(v, c) && Member(v, d) && !proc[c].rts.sending && !proc[c].rts.receiving
    requires ep != ANY && IsOkProcN(EndpointP(ep)) && d == Addr(v, EndpointP(ep))
    requires PureReceiving(proc[d]) ==> !Wants(proc[d], proc[c])
    ensures var joined := cq[d := cq[d] + [c]];
            Bounded(joined, |proc|) && AllOk(proc[c := proc[c].(rts := proc[c].rts.(sending := true), sendto := ep)], joined, v)
  {
    var proc', cq' := proc[c := proc[c].(rts := proc[c].rts.(sending := true), sendto := ep)], cq[d := cq[d] + [c]];
    assert SlotOk(proc, cq, v, c);
    forall y | Member(v, y)
      ensures SlotOk(proc', cq', v, y)
    {
      assert SlotOk(proc, cq, v, y);
      assert cq'[d][|cq[d]|] == c;
    }
  }

  /** The receiver blocks after it has looked through its queue, or inside a SENDREC that did not send. */
  lemma BlockReceivingOk(st: State, v: nat, c: nat, src: int)
    requires v < NR_VMS && Inv(st) && AllOk(st.proc, st.cq, v) && Member(v, c)
    requires if st.proc[c].rts.sending then src == st.proc[c].sendto
             else forall k :: 0 <= k < |st.cq[c]| ==> src != ANY && src != st.proc[st.cq[c][k]].ep
    ensures var after := BlockReceiving(st, c, src); AllOk(after.proc, after.cq, v)
  {
    var after := BlockReceiving(st, c, src);
    assert SlotOk(st.proc, st.cq, v, c);
    forall y | Member(v, y)
      ensures SlotOk(after.proc, after.cq, v, y)
    {
      assert SlotOk(st.proc, st.cq, v, y);
    }
  }

  /** A taken sender that goes on to wait wants its reply from the receiver, which is running and so is in
      nobody's queue. */
  lemma ReleaseOk(st: State, v: nat, c: nat, k: nat, rts: Rts)
    requires v < NR_VMS && Inv(st) && AllOk(st.proc, st.cq, v) && Member(v, c)
    requires k < |st.cq[c]| && rts == st.proc[st.cq[c][k]].rts.(sending := false, notifying := false)
    requires st.proc[c].rts.Zero()
    ensures var after := Release(st, c, k, rts); AllOk(after.proc, after.cq, v)
  {
    var x := st.cq[c][k];
    var p := st.proc[x].(rts := rts, sendto := NONE);
    var out := Unhang(Put(st, x, p), c, k);
    ReleasedClears(st, c, k);
    assert SlotOk(st.proc, st.cq, v, c);
    forall y | Member(v, y)
      ensures SlotOk(out.proc, out.cq, v, y)
    {
      if y == x { TakenOk(st, v, c, k, p); } else { OtherOk(st, v, c, k, p, y); }
    }
    if rts.Zero() { EnqueueOk(out, v, x); }
  }

  lemma TakenOk(st: State, v: nat, c: nat, k: nat, p: Proc)
    requires v < NR_VMS && Inv(st) && AllOk(st.proc, st.cq, v) && Member(v, c) && st.proc[c].rts.Zero()
    requires k < |st.cq[c]| && Member(v, st.cq[c][k])
    requires var x := st.proc[st.cq[c][k]]; p == x.(rts := x.rts.(sending := false, notifying := false), sendto := NONE)
    requires ProcWF(p, |st.proc|, |st.priv|)
    ensures var out := Unhang(Put(st, st.cq[c][k], p), c, k); SlotOk(out.proc, out.cq, v, st.cq[c][k])
  {
    var x := st.cq[c][k];
    assert SlotOk(st.proc, st.cq, v, x) && Flags(st.proc, st.cq, st.orphans, x);
    assert x in st.cq[c] && Flags(st.proc, st.cq, st.orphans, c);
    if st.proc[x].rts.receiving {
      forall j | 0 <= j < |st.cq[x]|
        ensures !Wants(st.proc[x], st.proc[st.cq[x][j]])
      {
        ReplyNotQueued(st, v, c, k, j);
      }
    }
  }

  lemma OtherOk(st: State, v: nat, c: nat, k: nat, p: Proc, y: nat)
    requires v < NR_VMS && Inv(st) && AllOk(st.proc, st.cq, v) && Member(v, c) && st.proc[c].rts.Zero()
    requires k < |st.cq[c]| && Member(v, y) && y != st.cq[c][k]
    requires p.ep == st.proc[st.cq[c][k]].ep && ProcWF(p, |st.proc|, |st.priv|)
    ensures var out := Unhang(Put(st, st.cq[c][k], p), c, k); SlotOk(out.proc, out.cq, v, y)
  {
    var out := Unhang(Put(st, st.cq[c][k], p), c, k);
    assert SlotOk(st.proc, st.cq, v, y);
    StillSends(st, v, c, k, y);
    assert forall i :: 0 <= i < |out.cq[c]| ==> out.cq[c][i] == st.cq[c][if i < k then i else i + 1];
  }

  /** The queue x waits in is that of the process x sends to. */
  lemma SameOwner(st: State, v: nat, c: nat, k: nat, x: nat)
    requires v < NR_VMS && Inv(st) && AllOk(st.proc, st.cq, v) && Member(v, c) && k < |st.cq[c]| && st.cq[c][k] == x
    ensures st.proc[x].rts.sending ==> IsOkProcN(EndpointP(st.proc[x].sendto)) && c == Addr(v, EndpointP(st.proc[x].sendto))
  {
    assert SlotOk(st.proc, st.cq, v, c) && SlotOk(st.proc, st.cq, v, x);
    if st.proc[x].rts.sending {
      var d := Addr(v, EndpointP(st.proc[x].sendto));
      var i :| 0 <= i < |st.cq[d]| && st.cq[d][i] == x;
      assert Apart(st.cq, c, k, d, i);
    }
  }

  lemma StillSends(st: State, v: nat, c: nat, k: nat, y: nat)
    requires v < NR_VMS && Inv(st) && AllOk(st.proc, st.cq, v) && Member(v, c) && k < |st.cq[c]| && Member(v, y) && y != st.cq[c][k]
    ensures st.proc[y].rts.sending ==>
              IsOkProcN(EndpointP(st.proc[y].sendto)) &&
              y in st.cq[c := RemoveAt(st.cq[c], k)][Addr(v, EndpointP(st.proc[y].sendto))]
  {
    assert SlotOk(st.proc, st.cq, v, y);
    if st.proc[y].rts.sending {
      var d := Addr(v, EndpointP(st.proc[y].sendto));
      var i :| 0 <= i < |st.cq[d]| && st.cq[d][i] == y;
      if d == c {
        assert RemoveAt(st.cq[c], k)[if i < k then i else i - 1] == y;
      }
    }
  }

  /** The running receiver c of x's request is not itself in x's queue, and only c has the endpoint x wants. */
  lemma ReplyNotQueued(st: State, v: nat, c: nat, k: nat, j: nat)
    requires v < NR_VMS && Inv(st) && AllOk(st.proc, st.cq, v) && Member(v, c) && st.proc[c].rts.Zero()
    requires k < |st.cq[c]| && j < |st.cq[st.cq[c][k]]|
    requires var x := st.proc[st.cq[c][k]]; x.rts.sending && x.rts.receiving
    ensures var x := st.cq[c][k]; !Wants(st.proc[x], st.proc[st.cq[x][j]])
  {
    var x := st.cq[c][k];
    var z := st.cq[x][j];
    SameOwner(st, v, c, k, x);
    assert SlotOk(st.proc, st.cq, v, c) && SlotOk(st.proc, st.cq, v, x) && SlotOk(st.proc, st.cq, v, z);
    assert z in st.cq[x] && Flags(st.proc, st.cq, st.orphans, c);
    assert st.proc[x].getfrom == st.proc[x].sendto;
  }

  // ---------------------------------------------------------------- the calls

  /** The caller is a running member of v; who it names is in v too. */
  ghost predicate Within(st: State, v: nat, c: nat, srcDst: int)
    requires v < NR_VMS && WF(st)
  {
    Member(v, c) && st.proc[c].rts.Zero() && (v == VM0 || srcDst == ANY || EndpointP(srcDst) >= 0)
  }

  lemma DeliverOk(st: State, v: nat, d: nat, misc: bool)
    requires v < NR_VMS && WF(st) && AllOk(st.proc, st.cq, v) && IsSlot(st, d)
    ensures AllOk(Deliver(st, d, misc).proc, Deliver(st, d, misc).cq, v)
  {
    var p := st.proc[d];
    var got := p.(rts := p.rts.(receiving := false), getfrom := NONE);
    WakeOk(st, v, d, if misc then got.(vmidPending := false, notGetfrom := false, replyPending := false, recvVm := ANY_VM) else got);
  }

  /** Within one VM SYSTASK already belongs to the VM of whoever talks to it. */
  lemma InheritSame(st: State, v: nat, dst: nat)
    requires v < NR_VMS && WF(st) && AllOk(st.proc, st.cq, v) && Member(v, dst)
    ensures Inherit(st, dst, v) == st
  {
    assert SlotOk(st.proc, st.cq, v, dst);
    if st.proc[dst].nr == SYSTEM {
      assert SlotOk(st.proc, st.cq, v, SYSTASK);
      assert st.proc[SYSTASK := st.proc[SYSTASK]] == st.proc;
    }
  }

  /** Within one VM a send resolves to one of three outcomes. */
  lemma SendOutcome(st: State, v: nat, c: nat, ep: int, direct: bool)
    requires v < NR_VMS && NoMissedRendezvous(st, v) && Within(st, v, c, ep)
    ensures var r := MhSend(st, c, ep, direct);
            if !IsOkEndpt(st, v, ep) || st.proc[Addr(v, EndpointP(ep))].rts.noEndpoint then r == (st, Err(EDSTDIED))
            else
              var d := Addr(v, EndpointP(ep));
              && Member(v, d)
              && r == (if PureReceiving(st.proc[d]) && Wants(st.proc[d], st.proc[c]) then Deliver(st, d, true)
                       else BlockSending(st, c, d, ep), Ok)
  {
    assert SlotOk(st.proc, st.cq, v, c);
    if IsOkEndpt(st, v, ep) {
      var d := Addr(v, EndpointP(ep));
      assert SlotOk(st.proc, st.cq, v, d);
      InheritSame(st, v, d);
    }
  }

  lemma MhSendOk(st: State, v: nat, c: nat, ep: int, direct: bool)
    requires v < NR_VMS && NoMissedRendezvous(st, v) && Within(st, v, c, ep)
    ensures NoMissedRendezvous(MhSend(st, c, ep, direct).0, v)
  {
    hide CallersOk, ReadyOk, AllOk, MhSend;
    MhSendKeeps(st, c, ep, direct);
    SendOutcome(st, v, c, ep, direct);
    if IsOkEndpt(st, v, ep) {
      var d := Addr(v, EndpointP(ep));
      if PureReceiving(st.proc[d]) && Wants(st.proc[d], st.proc[c]) {
        DeliverOk(st, v, d, true);
      } else if !st.proc[d].rts.noEndpoint {
        BlockSendingOk(st, v, c, d, ep);
      }
    }
  }

  lemma HomeSame(st: State, v: nat, c: nat, src: int)
    requires v < NR_VMS && WF(st) && st.running == v && AllOk(st.proc, st.cq, v) && Member(v, c)
    ensures Home(st, c, src) == st
  {
    assert SlotOk(st.proc, st.cq, v, c);
    assert st.proc[c := st.proc[c]] == st.proc;
  }

  /** A receive takes the first message it wants, or blocks because there is none. */
  lemma MhReceiveOk(st: State, v: nat, c: nat, src: int)
    requires v < NR_VMS && NoMissedRendezvous(st, v) && Member(v, c) && CanReceive(st, c)
    requires st.proc[c].rts.Zero() || (st.proc[c].rts.sending && st.proc[c].sendto == src)
    ensures NoMissedRendezvous(MhReceive(st, c, src).0, v)
  {
    hide CallersOk, ReadyOk;
    MhReceiveKeeps(st, c, src);
    HomeSame(st, v, c, src);
    assert SlotOk(st.proc, st.cq, v, c);
    forall k | 0 <= k < |st.cq[c]|
      ensures Acceptable(st, c, src, st.cq[c][k]) <==> src == ANY || src == st.proc[st.cq[c][k]].ep
      ensures st.proc[st.cq[c][k]].vm == v
    {
      assert SlotOk(st.proc, st.cq, v, st.cq[c][k]);
    }
    var k := FirstAcceptable(st, c, src, 0);
    if st.proc[c].rts.sending || k == |st.cq[c]| {
      BlockReceivingOk(st, v, c, src);
    } else {
      TakeSenderOk(st, v, c, k);
    }
  }

  lemma TakeSenderOk(st: State, v: nat, c: nat, k: nat)
    requires v < NR_VMS && NoMissedRendezvous(st, v) && Member(v, c) && st.proc[c].rts.Zero()
    requires k < |st.cq[c]| && st.proc[st.cq[c][k]].vm == v
    ensures var r := Settle(TakeSender(st, c, k), c); AllOk(r.proc, r.cq, v) && r.running == v
  {
    InheritSame(st, v, c);
    ReleasedClears(st, c, k);
    assert SlotOk(st.proc, st.cq, v, c);
    var rts := Released(st.proc[st.cq[c][k]].rts);
    ReleaseOk(st, v, c, k, rts);
    var r := Release(st, c, k, rts);
    CalmerOk(r.proc, r.cq, v, c, r.proc[c].(vmidPending := false, notGetfrom := false, replyPending := false));
  }

  lemma MhNotifyOk(st: State, v: nat, c: nat, n: int)
    requires v < NR_VMS && NoMissedRendezvous(st, v) && Member(v, c) && st.proc[c].rts.Zero()
    requires IsOkProcN(n) && (v == VM0 || n >= 0)
    ensures NoMissedRendezvous(MhNotify(st, c, n).0, v)
  {
    hide CallersOk, ReadyOk, AllOk, MhNotify;
    MhNotifyKeeps(st, c, n);
    NotifyOutcome(st, v, c, n);
    var d := Addr(v, n);
    DeliverOk(CountDirect(st, st.proc[d].priv, st.priv[st.proc[c].priv].sid), v, d, false);
  }

  /** Within one VM a notification is delivered, or nobody notices. */
  lemma NotifyOutcome(st: State, v: nat, c: nat, n: int)
    requires v < NR_VMS && NoMissedRendezvous(st, v) && Member(v, c) && st.proc[c].rts.Zero()
    requires IsOkProcN(n) && (v == VM0 || n >= 0)
    ensures var d, after := Addr(v, n), MhNotify(st, c, n).0;
            || (after.proc == st.proc && after.cq == st.cq && after.running == st.running)
            || (d != c && PureReceiving(st.proc[d])
                && after == Deliver(CountDirect(st, st.proc[d].priv, st.priv[st.proc[c].priv].sid), d, false))
  {
    hide CallersOk, ReadyOk;
    var d := Addr(v, n);
    assert SlotOk(st.proc, st.cq, v, c) && SlotOk(st.proc, st.cq, v, d);
    InheritSame(st, v, d);
  }

  /** The four calls this result is about. */
  predicate Ordinary(fn: int) {
    fn == SEND || fn == RECEIVE || fn == SENDREC || fn == NOTIFY
  }

  lemma CallOk(st0: State, v: nat, c: nat, fn: int, srcDst: int, arg: int, redirected: bool)
    requires v < NR_VMS && NoMissedRendezvous(st0, v) && Within(st0, v, c, srcDst) && Ordinary(fn)
    ensures NoMissedRendezvous(Call(st0, c, fn, srcDst, arg, redirected).0, v)
  {
    if Check(st0, c, fn, srcDst, arg) == Ok {
      assert Flags(st0.proc, st0.cq, st0.orphans, c);
      var p := st0.proc[c].(rts := RUNNABLE, replyPending := fn == SENDREC, vmidPending := false);
      CalmerOk(st0.proc, st0.cq, v, c, p);
      PutKeeps(st0, c, p);
      var st := Start(st0, c, fn);
      if fn == NOTIFY {
        if IsOkProcN(Named(fn, srcDst)) { MhNotifyOk(st, v, c, Named(fn, srcDst)); }
      } else if fn == RECEIVE {
        MhReceiveOk(st, v, c, srcDst);
      } else {
        MhSendOk(st, v, c, srcDst, !redirected);
        if fn == SENDREC { ReplyAwaited(st, v, c, srcDst, !redirected); }
      }
    }
  }

  /** The receiving half of SENDREC, whether or not the send went through. */
  lemma ReplyAwaited(st: State, v: nat, c: nat, ep: int, direct: bool)
    requires v < NR_VMS && NoMissedRendezvous(st, v) && Within(st, v, c, ep)
    ensures NoMissedRendezvous(SendRec(st, c, ep, direct).0, v)
  {
    hide CallersOk, ReadyOk, AllOk, MhSend, MhReceive;
    MhSendOk(st, v, c, ep, direct);
    SendOutcome(st, v, c, ep, direct);
    MhSendKeeps(st, c, ep, direct);
    if MhSend(st, c, ep, direct).1 == Ok {
      MhReceiveOk(MhSend(st, c, ep, direct).0, v, c, ep);
    }
  }
}
