/** What enqueue() and sched() do to quantum, priority and place, and that a process never rises again. */
module Scheduling {
  import opened Queues
  import opened Ipc
  import opened SysCall
  import opened Runs

  /** SYSTEM and CLOCK do not go ahead of each other. */
  predicate TasksMeet(p: Proc, cur: Proc) {
    (p.nr == CLOCK && cur.nr == SYSTEM) || (p.nr == SYSTEM && cur.nr == CLOCK)
  }

  /** Main result on enqueue(): who has ticks left keeps them and its priority and goes to the head of its queue,
      but to the tail if SYSTEM and CLOCK meet; who has none gets a new quantum, the next lower priority if that
      is not IDLE's, and the tail. */
  lemma EnqueueExactly(st: State, x: nat)
    requires WF(st) && IsSlot(st, x)
    ensures var p, r := st.proc[x], Enqueue(st, x);
            var p' := r.proc[x];
            && p' == p.(ticks := p'.ticks, prio := p'.prio) && p'.prio < NR_SCHED_QUEUES
            && (p.ticks > 0 ==> p'.ticks == p.ticks && p'.prio == p.prio)
            && (p.ticks <= 0 ==> p'.ticks == p.quantum && (p.prio < IDLE_Q - 1 ==> p'.prio == p.prio + 1)
                                 && (p.prio >= IDLE_Q - 1 ==> p'.prio == p.prio))
            && r.rq[p'.prio] == (if p.ticks > 0 && !TasksMeet(p, st.proc[st.cur]) then [x] + st.rq[p'.prio] else st.rq[p'.prio] + [x])
            && (forall d :: 0 <= d < |st.rq| && d != p'.prio ==> r.rq[d] == st.rq[d])
            && (forall y :: 0 <= y < |st.proc| && y != x ==> r.proc[y] == st.proc[y])
            && r.cq == st.cq && r.priv == st.priv && r.running == st.running
  {
  }

  /** A process that is preempted because its quantum is spent goes behind everybody of the next lower priority. */
  lemma PreemptedGoesLast(st: State, x: nat)
    requires WF(st) && IsSlot(st, x) && st.proc[x].ticks <= 0 && st.priv[st.proc[x].priv].preemptible
    requires st.proc[x].prio < IDLE_Q - 1
    ensures var p, r := st.proc[x], Requeue(st, x);
            && r.proc[x] == p.(ticks := p.quantum, prio := p.prio + 1)
            && r.rq[p.prio + 1] == st.rq[p.prio + 1] + [x] && r.rq[p.prio] == Remove(st.rq[p.prio], x)
  {
  }

  // ---------------------------------------------------------------- what never changes, and what only falls

  /** A process stays what it is, and its priority number never falls. */
  predicate Ages(p: Proc, p': Proc) {
    && p'.nr == p.nr && p'.ep == p.ep && p'.kind == p.kind && p'.paravir == p.paravir && p'.priv == p.priv
    && p'.quantum == p.quantum && p'.prio >= p.prio
  }

  ghost predicate AllAge(proc: seq<Proc>, after: seq<Proc>) {
    |after| == |proc| && forall x :: 0 <= x < |proc| ==> AgesAt(proc, after, x)
  }

  predicate AgesAt(proc: seq<Proc>, after: seq<Proc>, x: int)
    requires 0 <= x < |proc| == |after|
  {
    Ages(proc[x], after[x])
  }

  lemma AgeTrans(a: seq<Proc>, b: seq<Proc>, c: seq<Proc>)
    requires AllAge(a, b) && AllAge(b, c)
    ensures AllAge(a, c)
  {
    forall x | 0 <= x < |a|
      ensures AgesAt(a, c, x)
    {
      assert AgesAt(a, b, x) && AgesAt(b, c, x);
    }
  }

  lemma PutAges(st: State, x: nat, p: Proc)
    requires WF(st) && IsSlot(st, x) && ProcWF(p, |st.proc|, |st.priv|) && Ages(st.proc[x], p)
    ensures AllAge(st.proc, Put(st, x, p).proc)
  {
  }

  lemma WakeAges(st: State, x: nat, p: Proc)
    requires WF(st) && IsSlot(st, x) && ProcWF(p, |st.proc|, |st.priv|) && Ages(st.proc[x], p)
    ensures AllAge(st.proc, Wake(st, x, p).proc)
  {
  }

  lemma BlockAges(st: State, x: nat, p: Proc)
    requires WF(st) && IsSlot(st, x) && ProcWF(p, |st.proc|, |st.priv|) && Ages(st.proc[x], p)
    ensures AllAge(st.proc, Block(st, x, p).proc)
  {
  }

  lemma DeliverAges(st: State, d: nat, misc: bool)
    requires WF(st) && IsSlot(st, d)
    ensures AllAge(st.proc, Deliver(st, d, misc).proc)
  {
    var p := st.proc[d];
    var got := p.(rts := p.rts.(receiving := false), getfrom := NONE);
    WakeAges(st, d, if misc then got.(vmidPending := false, notGetfrom := false, replyPending := false, recvVm := ANY_VM) else got);
  }

  lemma InheritAges(st: State, d: nat, vm: nat)
    requires WF(st) && IsSlot(st, d) && vm < NR_VMS
    ensures AllAge(st.proc, Inherit(st, d, vm).proc)
  {
  }

  lemma ReleaseAges(st: State, d: nat, k: nat, rts: Rts)
    requires WF(st) && IsSlot(st, d) && k < |st.cq[d]|
    ensures AllAge(st.proc, Release(st, d, k, rts).proc)
  {
    var x := st.cq[d][k];
    WakeAges(st, x, st.proc[x].(rts := rts, sendto := NONE));
  }

  lemma SettleAges(st: State, c: nat)
    requires WF(st) && IsSlot(st, c)
    ensures AllAge(st.proc, Settle(st, c).proc)
  {
  }

  lemma BlockSendingAges(st: State, x: nat, d: nat, ep: int)
    requires WF(st) && IsSlot(st, x) && IsSlot(st, d)
    ensures AllAge(st.proc, BlockSending(st, x, d, ep).proc)
  {
  }

  lemma BlockNotifyingAges(st: State, x: nat, d: nat, ep: int)
    requires WF(st) && IsSlot(st, x) && IsSlot(st, d)
    ensures AllAge(st.proc, BlockNotifying(st, x, d, ep).proc)
  {
  }

  lemma BlockReceivingAges(st: State, c: nat, src: int)
    requires WF(st) && IsSlot(st, c)
    ensures AllAge(st.proc, BlockReceiving(st, c, src).proc)
  {
  }

  lemma OfferMessageAges(st: State, c: nat, dst: nat, dstX: nat)
    requires WF(st) && IsSlot(st, c) && IsSlot(st, dst) && IsSlot(st, dstX) && OfferMessage(st, c, dst, dstX).Taken?
    ensures AllAge(st.proc, OfferMessage(st, c, dst, dstX).st.proc)
  {
    hide Deliver, Inherit;
    DeliverAges(st, dst, true);
    var went := Inherit(st, dst, st.proc[c].vm);
    InheritAges(st, dst, st.proc[c].vm);
    DeliverAges(went, dst, true);
    if !st.proc[dst].vmidPending { AgeTrans(st.proc, went.proc, Deliver(went, dst, true).proc); }
  }

  lemma OfferNotifyAges(st: State, c: nat, dst: nat, dstX: nat)
    requires WF(st) && IsSlot(st, c) && IsSlot(st, dst) && IsSlot(st, dstX) && OfferNotify(st, c, dst, dstX).Taken?
    ensures AllAge(st.proc, OfferNotify(st, c, dst, dstX).st.proc)
  {
    hide Deliver, Wake;
    var to, s := st.proc[dst], st.priv[st.proc[c].priv].sid;
    if to.vmidPending {
      WakeAges(CountDirect(st, to.priv, s), dst,
               to.(rts := to.rts.(receiving := false), getfrom := NONE, vmidPending := false, notGetfrom := false, recvVm := ANY_VM));
    } else {
      InheritAges(st, dst, st.proc[c].vm);
      var went := CountDirect(Inherit(st, dst, st.proc[c].vm), to.priv, s);
      DeliverAges(went, dst, false);
      AgeTrans(st.proc, went.proc, Deliver(went, dst, false).proc);
    }
  }

  lemma NotifyPlainAges(st: State, c: nat, d: nat)
    requires WF(st) && IsSlot(st, c) && IsSlot(st, d)
    ensures AllAge(st.proc, NotifyPlain(st, c, d).0.proc)
  {
    hide OfferNotify;
    if OfferNotify(st, c, d, d).Taken? { OfferNotifyAges(st, c, d, d); }
  }

  lemma NotifyProxyAges(st: State, s: nat)
    requires WF(st)
    ensures AllAge(st.proc, NotifyProxy(st, s).0.proc)
  {
    hide NotifyPlain;
    NotifyPlainAges(st.(running := VM0), Addr(VM0, HARDWARE), Addr(VM0, EndpointP(st.vmm[st.running])));
  }

  /** A process blocks, and perhaps a proxy is told. */
  lemma ThenProxyAges(st: State, blocked: State, s: nat)
    requires WF(blocked) && AllAge(st.proc, blocked.proc)
    ensures AllAge(st.proc, NotifyProxy(blocked, s).0.proc)
  {
    NotifyProxyAges(blocked, s);
    AgeTrans(st.proc, blocked.proc, NotifyProxy(blocked, s).0.proc);
  }

  lemma MhSendAges(st: State, c: nat, ep: int, direct: bool)
    requires WF(st) && IsSlot(st, c)
    ensures AllAge(st.proc, MhSend(st, c, ep, direct).0.proc)
  {
    hide SendTo, ResolveSend;
    var r := ResolveSend(st, c, ep, direct);
    if r.To? { SendToAges(st, c, r.dst, r.dstX, ep); }
  }

  lemma SendToAges(st: State, c: nat, dst: nat, dstX: nat, ep: int)
    requires WF(st) && IsSlot(st, c) && IsSlot(st, dst) && IsSlot(st, dstX)
    ensures AllAge(st.proc, SendTo(st, c, dst, dstX, ep).0.proc)
  {
    hide OfferMessage, BlockSending, NotifyProxy;
    if OfferMessage(st, c, dst, dstX).Taken? { OfferMessageAges(st, c, dst, dstX); }
    BlockSendingAges(st, c, dst, ep);
    ThenProxyAges(st, BlockSending(st, c, dst, ep), st.priv[st.proc[dst].priv].sid);
  }

  lemma TakeSenderAges(st: State, c: nat, k: nat)
    requires WF(st) && IsSlot(st, c) && k < |st.cq[c]|
    ensures AllAge(st.proc, Settle(TakeSender(st, c, k), c).proc)
  {
    hide Release, Settle;
    var x := st.cq[c][k];
    var went := if st.proc[c].nr == SYSTEM then Inherit(st, c, st.proc[x].vm).(running := st.proc[x].vm) else st;
    InheritAges(st, c, st.proc[x].vm);
    var r := Release(went, c, k, Released(st.proc[x].rts));
    ReleaseAges(went, c, k, Released(st.proc[x].rts));
    AgeTrans(st.proc, went.proc, r.proc);
    SettleAges(r, c);
    AgeTrans(st.proc, r.proc, Settle(r, c).proc);
  }

  lemma MhReceiveAges(st0: State, c: nat, src: int)
    requires WF(st0) && IsSlot(st0, c)
    ensures AllAge(st0.proc, MhReceive(st0, c, src).0.proc)
  {
    hide ReceiveNow, BlockReceiving;
    var st := Home(st0, c, src);
    PutAges(st0, c, st0.proc[c].(vm := VM0));
    BlockReceivingAges(st, c, src);
    ReceiveNowAges(st, c, src);
    AgeTrans(st0.proc, st.proc, MhReceive(st0, c, src).0.proc);
  }

  lemma ReceiveNowAges(st: State, c: nat, src: int)
    requires WF(st) && IsSlot(st, c)
    ensures AllAge(st.proc, ReceiveNow(st, c, src).proc)
  {
    hide TakeSender, Settle, BlockReceiving, FindPending, FirstAcceptable;
    var k := FirstAcceptable(st, c, src, 0);
    if k < |st.cq[c]| { TakeSenderAges(st, c, k); }
    BlockReceivingAges(st, c, src);
  }

  lemma MhNotifyAges(st: State, c: nat, n: int)
    requires WF(st) && IsSlot(st, c) && IsOkProcN(n)
    ensures AllAge(st.proc, MhNotify(st, c, n).0.proc)
  {
    hide NotifyPlain, NotifyLater, OfferNotify, RouteTo, HomeOf;
    var d := Addr(st.running, n);
    NotifyPlainAges(st, c, d);
    var r := RouteTo(st, c, d, HomeOf(st, d), false);
    if r.To? {
      if OfferNotify(st, c, r.dst, r.dstX).Taken? { OfferNotifyAges(st, c, r.dst, r.dstX); }
      NotifyLaterAges(st, c, d, r.dst);
    }
  }

  lemma NotifyLaterAges(st: State, c: nat, d: nat, dst: nat)
    requires WF(st) && IsSlot(st, c) && IsSlot(st, d) && IsSlot(st, dst)
    ensures AllAge(st.proc, NotifyLater(st, c, d, dst).0.proc)
  {
    hide BlockNotifying, NotifyProxy;
    BlockNotifyingAges(st, c, dst, st.proc[d].ep);
    BlockNotifyingAges(st, c, d, st.proc[d].ep);
    var px := Addr(VM0, EndpointP(st.vmm[st.running]));
    ThenProxyAges(st, BlockNotifying(st, c, d, st.proc[d].ep), st.priv[st.proc[px].priv].sid);
  }

  lemma MhSendAsAges(st: State, c: nat, ep: int, srcNr: int)
    requires WF(st) && IsSlot(st, c) && 0 <= st.proc[c].proxy < NR_VMS
    ensures AllAge(st.proc, MhSendAs(st, c, ep, srcNr).0.proc)
  {
    hide Deliver;
    var vm := st.proc[c].proxy;
    if IsOkEndpt(st, vm, ep) { DeliverAges(st, Addr(vm, EndpointP(ep)), false); }
  }

  lemma MhRecvAsAges(st: State, c: nat, src: int, n: int)
    requires WF(st) && IsSlot(st, c) && 0 <= st.proc[c].proxy < NR_VMS
    ensures AllAge(st.proc, MhRecvAs(st, c, src, n).0.proc)
  {
    hide Release, FindPending, FirstFrom;
    if n == SYSTEM || IsOkProcN(n) {
      var d := Emulated(st.proc[c].proxy, n, n == SYSTEM);
      var k := FirstFrom(st, d, src, 0);
      if k < |st.cq[d]| { ReleaseAges(st, d, k, st.proc[st.cq[d][k]].rts.(sending := false, notifying := false)); }
    }
  }

  lemma MhNtfyAsAges(st: State, c: nat, dstNr: int, srcNr: int)
    requires WF(st) && IsSlot(st, c) && 0 <= st.proc[c].proxy < NR_VMS && IsOkProcN(dstNr)
    ensures AllAge(st.proc, MhNtfyAs(st, c, dstNr, srcNr).0.proc)
  {
    hide Wake;
    var vm := st.proc[c].proxy;
    var d := Addr(vm, dstNr);
    var dst := st.proc[d];
    if IsOkProcN(srcNr) {
      var s := st.priv[st.proc[Addr(vm, srcNr)].priv].sid;
      WakeAges(CountDirect(st, dst.priv, s), d, dst.(rts := dst.rts.(receiving := false), getfrom := NONE, recvVm := ANY_VM));
    }
  }

  lemma MhSendVmAges(st0: State, c: nat, ep: int, vm: int)
    requires WF(st0) && IsSlot(st0, c) && 0 <= vm < NR_VMS
    ensures AllAge(st0.proc, MhSendVm(st0, c, ep, vm).0.proc)
  {
    hide SendVmTo;
    var p := st0.proc[c].(vmidPending := st0.proc[c].vmidPending || st0.proc[c].replyPending);
    PutAges(st0, c, p);
    if IsOkEndpt(st0, vm, ep) {
      var st, d := Put(st0, c, p), Addr(vm, EndpointP(ep));
      SendVmToAges(st, c, d, ep, vm);
      AgeTrans(st0.proc, st.proc, SendVmTo(st, c, d, ep, vm).0.proc);
    }
  }

  lemma SendVmToAges(st: State, c: nat, d: nat, ep: int, vm: int)
    requires WF(st) && IsSlot(st, c) && IsSlot(st, d) && 0 <= vm < NR_VMS
    ensures AllAge(st.proc, SendVmTo(st, c, d, ep, vm).0.proc)
  {
    hide Deliver, BlockSending;
    DeliverAges(st, d, false);
    BlockSendingAges(st, c, d, ep);
  }

  lemma MhRecvVmAges(st0: State, c: nat, src: int, vm: int)
    requires WF(st0) && IsSlot(st0, c) && ANY_VM <= vm < NR_VMS
    ensures AllAge(st0.proc, MhRecvVm(st0, c, src, vm).0.proc)
  {
    hide ReceiveVmNow;
    var p := st0.proc[c].(vmidPending := false, notGetfrom := false);
    PutAges(st0, c, p);
    var st := Put(st0, c, p);
    var except := !p.replyPending && src != ANY && HasNotProc(src);
    ReceiveVmNowAges(st, c, if except then src - NOT_PROC else src, except, vm);
    AgeTrans(st0.proc, st.proc, MhRecvVm(st0, c, src, vm).0.proc);
  }

  lemma ReceiveVmNowAges(st: State, c: nat, ep: int, except: bool, vm: int)
    requires WF(st) && IsSlot(st, c) && ANY_VM <= vm < NR_VMS
    ensures AllAge(st.proc, ReceiveVmNow(st, c, ep, except, vm).0.proc)
  {
    hide TakeSenderVm, FindPending, FirstAcceptableVm, Block;
    var k := FirstAcceptableVm(st, c, ep, except, vm, 0);
    if k < |st.cq[c]| { TakeSenderVmAges(st, c, k); }
    var p := st.proc[c];
    BlockAges(st, c, p.(rts := p.rts.(receiving := true), getfrom := ep, recvVm := vm, vmidPending := true, notGetfrom := except));
  }

  lemma TakeSenderVmAges(st: State, c: nat, k: nat)
    requires WF(st) && IsSlot(st, c) && k < |st.cq[c]|
    ensures AllAge(st.proc, TakeSenderVm(st, c, k).0.proc)
  {
    hide Release, Settle, Put;
    var from := st.proc[st.cq[c][k]];
    var rts := if from.vm != VM0 then Released(from.rts) else from.rts.(sending := false);
    var r := Release(st, c, k, rts);
    ReleaseAges(st, c, k, rts);
    SettleAges(r, c);
    var after := Settle(r, c);
    AgeTrans(st.proc, r.proc, after.proc);
    var p := after.proc[c].(recvVm := ANY_VM);
    PutAges(after, c, p);
    AgeTrans(st.proc, after.proc, Put(after, c, p).proc);
  }

  lemma MhNtfyVmAges(st: State, c: nat, n: int, vm: int)
    requires WF(st) && IsSlot(st, c) && IsOkProcN(n) && 0 <= vm < NR_VMS
    ensures AllAge(st.proc, MhNtfyVm(st, c, n, vm).0.proc)
  {
    hide Deliver;
    var d, s := Addr(vm, n), st.priv[st.proc[c].priv].sid;
    DeliverAges(CountDirect(st, st.proc[d].priv, s), d, false);
  }

  lemma MhRelayAges(st: State, c: nat, ep: int, src: int)
    requires WF(st) && IsSlot(st, c)
    ensures AllAge(st.proc, MhRelay(st, c, ep, src).0.proc)
  {
    hide RelayTo, ResolveRelay;
    var r := ResolveRelay(st, c, ep, src);
    if r.To? { RelayToAges(st, c, r.dst, ep, r.dstX); }
  }

  lemma RelayToAges(st: State, c: nat, dst: nat, ep: int, s: nat)
    requires WF(st) && IsSlot(st, c) && IsSlot(st, dst) && IsSlot(st, s)
    ensures AllAge(st.proc, RelayTo(st, c, dst, ep, s).0.proc)
  {
    hide Deliver, Inherit, Wake, NotifyProxy, Put;
    var caller, to := st.proc[c], st.proc[dst];
    if PureReceiving(to) && to.vmidPending && AdmitsVm(to, caller, false) {
      var waits := Put(st, s, st.proc[s].(getfrom := to.ep));
      PutAges(st, s, st.proc[s].(getfrom := to.ep));
      DeliverAges(waits, dst, true);
      AgeTrans(st.proc, waits.proc, Deliver(waits, dst, true).proc);
    } else if PureReceiving(to) && !to.vmidPending && Admits(to, caller) {
      var went := Inherit(st, dst, caller.vm);
      InheritAges(st, dst, caller.vm);
      var waits := Put(went, s, went.proc[s].(getfrom := to.ep));
      PutAges(went, s, went.proc[s].(getfrom := to.ep));
      AgeTrans(st.proc, went.proc, waits.proc);
      var got := waits.proc[dst];
      var p := got.(rts := got.rts.(receiving := false), getfrom := NONE, replyPending := false, recvVm := ANY_VM);
      WakeAges(waits, dst, p);
      AgeTrans(st.proc, waits.proc, Wake(waits, dst, p).proc);
    } else {
      var src := st.proc[s];
      PutAges(st, s, src.(rts := src.rts.(sending := true), sendto := ep));
      ThenProxyAges(st, HangFor(st, s, dst, ep), st.priv[to.priv].sid);
    }
  }

  lemma CallAges(st0: State, c: nat, fn: int, srcDst: int, arg: int, redirected: bool)
    requires WF(st0) && IsSlot(st0, c)
    ensures AllAge(st0.proc, Call(st0, c, fn, srcDst, arg, redirected).0.proc)
  {
    hide Dispatch;
    if fn != HDEBUG && fn != PRTMSG && Check(st0, c, fn, srcDst, arg) == Ok {
      var st := Start(st0, c, fn);
      PutAges(st0, c, st0.proc[c].(rts := RUNNABLE, replyPending := fn == SENDREC || fn == SENDRECVM, vmidPending := false));
      DispatchAges(st, c, fn, srcDst, arg, redirected);
      AgeTrans(st0.proc, st.proc, Dispatch(st, c, fn, srcDst, arg, redirected).0.proc);
    }
  }

  lemma DispatchAges(st: State, c: nat, fn: int, srcDst: int, arg: int, redirected: bool)
    requires WF(st) && IsSlot(st, c) && SEND <= fn <= RELAY
    requires fn == SENDAS || fn == RECVAS || fn == NOTIFYAS ==> 0 <= st.proc[c].proxy < NR_VMS
    requires SENDVM <= fn <= NOTIFYVM ==> (if fn == RECVVM then ANY_VM else VM0) <= arg < NR_VMS
    ensures AllAge(st.proc, Dispatch(st, c, fn, srcDst, arg, redirected).0.proc)
  {
    hide MhSend, MhReceive, MhNotify, MhRelay, SendRec, SendVm, ReceiveVm, MhSendAs, MhRecvAs, MhNtfyAs, MhNtfyVm;
    var n := Named(fn, srcDst);
    if fn == SENDREC {
      SendRecAges(st, c, srcDst, !redirected);
    } else if fn == SENDVM || fn == SENDRECVM {
      SendVmAges(st, c, srcDst, arg, !redirected);
      var sent := SendVm(st, c, srcDst, arg, !redirected).0;
      ReceiveVmAges(sent, c, srcDst, arg);
      AgeTrans(st.proc, sent.proc, ReceiveVm(sent, c, srcDst, arg).0.proc);
    } else if fn == SEND {
      MhSendAges(st, c, srcDst, !redirected);
    } else if fn == RECEIVE {
      MhReceiveAges(st, c, srcDst);
    } else if fn == RELAY {
      MhRelayAges(st, c, srcDst, arg);
    } else if fn == SENDAS {
      MhSendAsAges(st, c, srcDst, arg);
    } else if fn == RECVAS {
      MhRecvAsAges(st, c, srcDst, arg);
    } else if fn == RECVVM {
      ReceiveVmAges(st, c, srcDst, arg);
    } else if IsOkProcN(n) {
      if fn == NOTIFYAS { MhNtfyAsAges(st, c, n, arg); }
      MhNotifyAges(st, c, n);
      if fn == NOTIFYVM { MhNtfyVmAges(st, c, n, arg); }
    }
  }

  lemma SendRecAges(st: State, c: nat, srcDst: int, direct: bool)
    requires WF(st) && IsSlot(st, c)
    ensures AllAge(st.proc, SendRec(st, c, srcDst, direct).0.proc)
  {
    hide MhSend, MhReceive;
    MhSendAges(st, c, srcDst, direct);
    var sent := MhSend(st, c, srcDst, direct).0;
    MhReceiveAges(sent, c, srcDst);
    AgeTrans(st.proc, sent.proc, MhReceive(sent, c, srcDst).0.proc);
  }

  lemma SendVmAges(st: State, c: nat, srcDst: int, vm: int, direct: bool)
    requires WF(st) && IsSlot(st, c) && 0 <= vm < NR_VMS
    ensures AllAge(st.proc, SendVm(st, c, srcDst, vm, direct).0.proc)
  {
    hide MhSend, MhSendVm;
    MhSendAges(st, c, srcDst, direct);
    MhSendVmAges(st, c, srcDst, vm);
  }

  lemma ReceiveVmAges(st: State, c: nat, srcDst: int, vm: int)
    requires WF(st) && IsSlot(st, c) && ANY_VM <= vm < NR_VMS
    ensures AllAge(st.proc, ReceiveVm(st, c, srcDst, vm).0.proc)
  {
    hide MhReceive, MhRecvVm;
    var p := st.proc[c].(vmidPending := true);
    PutAges(st, c, p);
    MhReceiveAges(Put(st, c, p), c, srcDst);
    if st.proc[c].vm == vm { AgeTrans(st.proc, Put(st, c, p).proc, MhReceive(Put(st, c, p), c, srcDst).0.proc); }
    MhRecvVmAges(st, c, srcDst, vm);
  }

  // ---------------------------------------------------------------- deaths and runs

  lemma {:induction false} ReleaseAllAges(st: State, i: nat, hi: nat, ep: int, s: nat)
    requires WF(st) && i <= hi <= |st.proc| && s < NR_SYS_PROCS
    ensures AllAge(st.proc, ReleaseAll(st, i, hi, ep, s).proc)
    decreases hi - i
  {
    hide ReleaseOne;
    if i < hi {
      var r := ReleaseOne(st, i, ep, s);
      ReleaseOneAges(st, i, ep, s);
      ReleaseAllAges(r, i + 1, hi, ep, s);
      AgeTrans(st.proc, r.proc, ReleaseAll(r, i + 1, hi, ep, s).proc);
    }
  }

  lemma ReleaseOneAges(st: State, y: nat, ep: int, s: nat)
    requires WF(st) && IsSlot(st, y) && s < NR_SYS_PROCS
    ensures AllAge(st.proc, ReleaseOne(st, y, ep, s).proc)
  {
    hide Wake;
    var quiet := Runs.Quiet(st, y, s);
    var p := quiet.proc[y];
    WakeAges(quiet, y, p.(rts := p.rts.(receiving := false)));
    var mid := StopReceiving(quiet, y, ep);
    var p' := mid.proc[y];
    WakeAges(mid.(orphans := mid.orphans - {y}), y, p'.(rts := p'.rts.(sending := false)));
    AgeTrans(st.proc, mid.proc, StopSending(mid, y, ep).proc);
  }

  lemma ClearEndpointAges(st: State, rc: nat)
    requires WF(st) && IsSlot(st, rc) && IsOkProcN(EndpointP(st.proc[rc].sendto))
    ensures AllAge(st.proc, ClearEndpoint(st, rc).proc)
  {
    hide ReleaseAll, Bury;
    BuryAges(st, rc);
    var cut := Cut(Bury(st, rc), rc);
    var lo, hi, ep, s := st.running * SLOTS + NR_TASKS, (st.running + 1) * SLOTS, st.proc[rc].ep, st.priv[st.proc[rc].priv].sid;
    ReleaseAllAges(cut, lo, hi, ep, s);
    AgeTrans(st.proc, cut.proc, ReleaseAll(cut, lo, hi, ep, s).proc);
  }

  lemma BuryAges(st: State, rc: nat)
    requires WF(st) && IsSlot(st, rc) && IsOkProcN(EndpointP(st.proc[rc].sendto))
    ensures AllAge(st.proc, Bury(st, rc).proc)
  {
  }

  lemma NextAges(st: State, step: Step)
    requires WF(st) && Enabled(st, step)
    ensures AllAge(st.proc, Next(st, step).proc)
  {
    hide Call, ClearEndpoint, NotifyPlain, Wake, CanClear;
    match step
    case SysCall(c, fn, srcDst, arg, redirected) => CallAges(st, c, fn, srcDst, arg, redirected);
    case Interrupted(n) => NotifyPlainAges(st.(running := VM0), Addr(VM0, HARDWARE), Addr(VM0, n));
    case Charged(x, ticks) => PutAges(st, x, st.proc[x].(ticks := st.proc[x].ticks - ticks));
    case Preempted(x) =>
    case Switched(x, vm) =>
    case Died(rc) => ClearableAges(st, rc);
    case Booted(x) => WakeAges(st, x, st.proc[x].(rts := RUNNABLE));
  }

  lemma ClearableAges(st: State, rc: nat)
    requires WF(st) && CanClear(st, rc)
    ensures AllAge(st.proc, ClearEndpoint(st, rc).proc)
  {
    hide ClearEndpoint;
    ClearEndpointAges(st, rc);
  }

  /** Main result: along every run a process keeps its number, endpoint, kind, privileges and quantum, and never gets a
      better priority than it had. */
  lemma {:induction false} PriorityNeverRises(states: seq<State>, steps: seq<Step>, i: nat, j: nat)
    requires IsRun(states, steps) && i <= j < |states|
    ensures AllAge(states[i].proc, states[j].proc)
    decreases j
  {
    hide Next;
    if i < j {
      PriorityNeverRises(states, steps, i, j - 1);
      NextAges(states[j - 1], steps[j - 1]);
      AgeTrans(states[i].proc, states[j - 1].proc, states[j].proc);
    }
  }
}
