/** Who gets what from whom: for every primitive, when a message finds its receiver waiting, when it has to wait,
    and whom a receiver takes; in terms of the descriptors alone. */
module Meetings {
  import opened Queues
  import opened Ipc
  import opened IpcInvariants
  import opened IpcPrimitives

  /** d has got what it waited for: it is no longer RECEIVING and names nobody.  Only SYSTASK, which works for the
      VM of whoever it hears from, may have changed besides. */
  ghost predicate Got(st: State, after: State, d: nat)
    requires IsSlot(st, d)
  {
    && |after.proc| == |st.proc| && after.cq == st.cq
    && after.proc[d].rts == st.proc[d].rts.(receiving := false) && after.proc[d].getfrom == NONE
    && forall y :: 0 <= y < |st.proc| && y != d && y != SYSTASK ==> after.proc[y] == st.proc[y]
  }

  /** c has to wait, SENDING to endpoint ep, behind everybody in the queue of d. */
  ghost predicate Waits(st: State, after: State, c: nat, d: nat, ep: int)
    requires IsSlot(st, c) && d < |st.cq|
  {
    && |after.proc| == |st.proc| && after.cq == st.cq[d := st.cq[d] + [c]]
    && after.proc[c].rts == st.proc[c].rts.(sending := true) && after.proc[c].sendto == ep
    && forall y :: 0 <= y < |st.proc| && y != c ==> after.proc[y] == st.proc[y]
  }

  /** One more notification from source s is pending in structure i, and nobody is woken. */
  ghost predicate Pends(st: State, after: State, i: nat, s: nat)
    requires WF(st) && WF(after) && i < |st.priv| && s < NR_SYS_PROCS
  {
    && |after.priv| == |st.priv| && after.proc == st.proc && after.cq == st.cq
    && after.priv[i].pend[s] && after.priv[i].cnt[s] == (st.priv[i].cnt[s] + 1) % 256
    && (forall t :: 0 <= t < NR_SYS_PROCS && t != s ==>
          after.priv[i].pend[t] == st.priv[i].pend[t] && after.priv[i].cnt[t] == st.priv[i].cnt[t])
  }

  /** Nothing is pending in structure i. */
  ghost predicate NonePending(st: State, i: nat)
    requires WF(st) && i < |st.priv|
  {
    forall s :: 0 <= s < NR_SYS_PROCS ==> !st.priv[i].pend[s]
  }

  lemma {:induction false} NoneFound(pend: seq<bool>, ids: seq<int>, want: Want, chunk: nat)
    requires |pend| == |ids| == NR_SYS_PROCS && chunk <= NR_SYS_CHUNKS && forall s :: 0 <= s < NR_SYS_PROCS ==> !pend[s]
    ensures FindPending(pend, ids, want, chunk) == None
    decreases NR_SYS_CHUNKS - chunk
  {
    if chunk < NR_SYS_CHUNKS { NoneFound(pend, ids, want, chunk + 1); }
  }

  // ---------------------------------------------------------------- RECEIVE

  /** The endpoint under which a receiver in VM vm sees process x: a VM0 process inside a SENDRECVM to that VM
      goes by the descriptor it has there. */
  function SeenAs(st: State, vm: nat, x: nat): int
    requires WF(st) && IsSlot(st, x) && vm < NR_VMS
  {
    var from := st.proc[x];
    if Visits(st, vm, x) then st.proc[Addr(st.running, st.priv[from.priv].sNr[vm])].ep else from.ep
  }

  predicate Visits(st: State, vm: nat, x: nat)
    requires WF(st) && IsSlot(st, x) && vm < NR_VMS
  {
    var from := st.proc[x];
    && vm != VM0 && from.vm == VM0 && from.vmidPending && from.rts.sending && from.rts.receiving
    && IsOkProcN(st.priv[from.priv].sNr[vm])
  }

  /** A receiver c that works in VM vm takes x's message when it asks for src: x is of its VM, or visits it, or
      the receiver is SYSTASK, which serves all VMs; and x is the one it asks for. */
  predicate Suits(st: State, c: nat, vm: nat, src: int, x: nat)
    requires WF(st) && IsSlot(st, c) && IsSlot(st, x) && vm < NR_VMS
  {
    && (st.proc[x].vm == vm || Visits(st, vm, x) || st.proc[c].nr == SYSTEM)
    && (src == ANY || src == SeenAs(st, vm, x))
  }

  /** The VM a receiver works in: SYSTASK and CLOCK are back in VM0 when they ask for anyone. */
  function WorksIn(p: Proc, src: int): nat {
    if (p.nr == SYSTEM || p.nr == CLOCK) && src == ANY then VM0 else p.vm
  }

  /** Main result on MH_receive by a process that is not SENDING, with nothing pending: it takes the first in its
      queue that suits it, and blocks exactly if nobody there does. */
  lemma ReceiveExactly(st: State, c: nat, src: int)
    requires Inv(st) && IsSlot(st, c) && st.proc[c].rts.Zero() && NonePending(st, st.proc[c].priv)
    requires src == ANY || (IsOkEndpt(st, st.running, src) && !st.proc[Addr(st.running, EndpointP(src))].rts.noEndpoint)
    ensures var vm, r := WorksIn(st.proc[c], src), MhReceive(st, c, src);
            && r.1 == Ok
            && (forall k :: 0 <= k < |st.cq[c]| && Suits(st, c, vm, src, st.cq[c][k])
                            && (forall i :: 0 <= i < k ==> !Suits(st, c, vm, src, st.cq[c][i])) ==>
                  r.0.cq == st.cq[c := RemoveAt(st.cq[c], k)] && !r.0.proc[c].rts.receiving
                  && !r.0.proc[st.cq[c][k]].rts.sending && !r.0.proc[st.cq[c][k]].rts.notifying)
            && ((forall k :: 0 <= k < |st.cq[c]| ==> !Suits(st, c, vm, src, st.cq[c][k])) <==> r.0.proc[c].rts.receiving)
            && (r.0.proc[c].rts.receiving ==> r.0.proc[c].getfrom == src && r.0.cq == st.cq)
  {
    hide CallersOk, ReadyOk, FindPending, FirstAcceptable, TakeSender, BlockReceiving, Acceptable, Suits;
    HomeKeepsFlags(st, c, src);
    var home := Home(st, c, src);
    NoneFound(st.priv[st.proc[c].priv].pend, home.idNr[home.running], WantOf(src), 0);
    forall k | 0 <= k < |st.cq[c]|
      ensures Acceptable(home, c, src, st.cq[c][k]) <==> Suits(st, c, WorksIn(st.proc[c], src), src, st.cq[c][k])
    {
      SuitsIsAcceptable(st, c, src, st.cq[c][k]);
    }
    var k := FirstAcceptable(home, c, src, 0);
    if k < |st.cq[c]| {
      SenderTaken(home, c, k);
    } else {
      NowBlocked(home, c, src);
    }
  }

  lemma HomeKeepsFlags(st: State, c: nat, src: int)
    requires Inv(st) && IsSlot(st, c) && st.proc[c].rts.Zero()
    ensures var home := Home(st, c, src);
            && Inv(home) && home.cq == st.cq && home.priv == st.priv && home.idNr == st.idNr && |home.proc| == |st.proc|
            && home.proc[c] == st.proc[c].(vm := WorksIn(st.proc[c], src))
            && (forall y :: 0 <= y < |st.proc| && y != c ==> home.proc[y] == st.proc[y])
            && (src != ANY ==> home == st)
  {
    hide ReadyOk;
    assert Flags(st.proc, st.cq, st.orphans, c);
    HomeKeeps(st, c, src);
  }

  lemma SuitsIsAcceptable(st: State, c: nat, src: int, x: nat)
    requires Inv(st) && IsSlot(st, c) && st.proc[c].rts.Zero() && IsSlot(st, x) && Occurs(st.cq, x)
    ensures Acceptable(Home(st, c, src), c, src, x) <==> Suits(st, c, WorksIn(st.proc[c], src), src, x)
  {
    hide ReadyOk;
    assert Flags(st.proc, st.cq, st.orphans, x) && Flags(st.proc, st.cq, st.orphans, c);
    HomeKeepsFlags(st, c, src);
  }

  lemma SenderTaken(st: State, c: nat, k: nat)
    requires Inv(st) && IsSlot(st, c) && st.proc[c].rts.Zero() && k < |st.cq[c]|
    ensures var after := Settle(TakeSender(st, c, k), c);
            && after.cq == st.cq[c := RemoveAt(st.cq[c], k)] && |after.proc| == |st.proc| && !after.proc[c].rts.receiving
            && !after.proc[st.cq[c][k]].rts.sending && !after.proc[st.cq[c][k]].rts.notifying
  {
    hide CallersOk, ReadyOk, TakeSender;
    NotInOwnQueue(st, c, k);
    ReleasedFrom(st, c, k);
  }

  lemma NotInOwnQueue(st: State, c: nat, k: nat)
    requires Inv(st) && IsSlot(st, c) && st.proc[c].rts.Zero() && k < |st.cq[c]|
    ensures st.cq[c][k] != c
  {
    hide ReadyOk;
    assert Flags(st.proc, st.cq, st.orphans, c) && st.cq[c][k] in st.cq[c];
  }

  lemma ReleasedFrom(st: State, c: nat, k: nat)
    requires Inv(st) && IsSlot(st, c) && k < |st.cq[c]| && st.cq[c][k] != c
    ensures var after := TakeSender(st, c, k);
            && after.cq == st.cq[c := RemoveAt(st.cq[c], k)] && |after.proc| == |st.proc|
            && !after.proc[st.cq[c][k]].rts.sending && !after.proc[st.cq[c][k]].rts.notifying && after.proc[c].rts == st.proc[c].rts
  {
    hide ReadyOk;
    ReleasedClears(st, c, k);
  }

  lemma NowBlocked(st: State, c: nat, src: int)
    requires WF(st) && IsSlot(st, c)
    ensures var after := BlockReceiving(st, c, src);
            after.cq == st.cq && |after.proc| == |st.proc| && after.proc[c].rts.receiving && after.proc[c].getfrom == src
  {
  }

  /** SYSTASK asks for anyone: it serves whoever is at the head of its queue, of whatever VM, and works for that
      VM from then on. */
  lemma SystaskServesHead(st: State)
    requires Inv(st) && st.proc[SYSTASK].nr == SYSTEM && st.proc[SYSTASK].rts.Zero()
    requires NonePending(st, st.proc[SYSTASK].priv) && st.cq[SYSTASK] != []
    ensures var x, r := st.cq[SYSTASK][0], MhReceive(st, SYSTASK, ANY).0;
            && r.cq == st.cq[SYSTASK := st.cq[SYSTASK][1..]] && !r.proc[x].rts.sending && !r.proc[x].rts.notifying
            && r.running == st.proc[x].vm && r.proc[SYSTASK].vm == st.proc[x].vm && !r.proc[SYSTASK].rts.receiving
  {
    hide CallersOk, ReadyOk, FindPending, FirstAcceptable;
    var c := SYSTASK;
    ReceiveExactly(st, c, ANY);
    HomeKeepsFlags(st, c, ANY);
    var home := Home(st, c, ANY);
    NoneFound(st.priv[st.proc[c].priv].pend, home.idNr[home.running], Anyone, 0);
    assert Acceptable(home, c, ANY, st.cq[c][0]);
    assert FirstAcceptable(home, c, ANY, 0) == 0;
    HeadIsNotSelf(home);
    Inherits(home);
    assert RemoveAt(st.cq[c], 0) == st.cq[c][1..];
  }

  lemma HeadIsNotSelf(st: State)
    requires Inv(st) && st.proc[SYSTASK].rts.Zero() && st.cq[SYSTASK] != []
    ensures st.cq[SYSTASK][0] != SYSTASK
  {
    hide ReadyOk;
    assert Flags(st.proc, st.cq, st.orphans, SYSTASK) && st.cq[SYSTASK][0] in st.cq[SYSTASK];
  }

  lemma Inherits(st: State)
    requires WF(st) && st.proc[SYSTASK].nr == SYSTEM && st.cq[SYSTASK] != [] && st.cq[SYSTASK][0] != SYSTASK
    ensures var after, vm := Settle(TakeSender(st, SYSTASK, 0), SYSTASK), st.proc[st.cq[SYSTASK][0]].vm;
            after.running == vm && after.proc[SYSTASK].vm == vm
  {
  }

  // ---------------------------------------------------------------- SEND

  /** dst is blocked in a plain RECEIVE that c's message answers. */
  predicate Answers(to: Proc, from: Proc) {
    && (to.vm == from.vm || to.nr == SYSTEM)
    && (to.getfrom == ANY || to.getfrom == from.ep)
  }

  /** dst is blocked in a RECVVM that a message from `from` answers: the VM is the right one, and the sender is
      the one asked for, or anyone, or not the one excluded. */
  predicate AnswersVm(to: Proc, from: Proc, anyVm: bool) {
    && (to.recvVm == ANY_VM || to.recvVm == from.vm || anyVm)
    && (if to.notGetfrom then to.getfrom != from.nr else to.getfrom == ANY || to.getfrom == from.ep)
  }

  /** Main result on the second half of MH_send: the message is delivered exactly if dst is purely RECEIVING what it
      answers; otherwise the caller waits behind everybody else in dst's queue. */
  lemma SendExactly(st: State, c: nat, dst: nat, dstX: nat, ep: int)
    requires WF(st) && IsSlot(st, c) && IsSlot(st, dst) && IsSlot(st, dstX) && c != dst
    requires var to := st.proc[dst];
             PureReceiving(to) ==> if to.vmidPending then st.proc[dstX].kind.Promiscuous? || st.proc[c].vm == VM0 else !to.notGetfrom
    ensures var to, from, r := st.proc[dst], st.proc[c], SendTo(st, c, dst, dstX, ep);
            var meets := PureReceiving(to) && if to.vmidPending then AnswersVm(to, from, false) else Answers(to, from);
            && (meets ==> r.1 == Ok && Got(st, r.0, dst))
            && (meets && !to.vmidPending && to.nr == SYSTEM ==> r.0.proc[SYSTASK].vm == from.vm)
            && (!meets && (from.vm == VM0 || !to.kind.Virtual?) ==> r.1 == Ok && Waits(st, r.0, c, dst, ep))
            && (!meets && from.vm != VM0 && to.kind.Virtual? ==>
                  exists blocked :: Waits(st, blocked, c, dst, ep) && WF(blocked) && r == NotifyProxy(blocked, st.priv[to.priv].sid))
  {
    hide NotifyProxy, OfferMessage, BlockSending, Answers, AnswersVm, Got, Waits;
    OfferExactly(st, c, dst, dstX);
    BlockedBehind(st, c, dst, ep);
  }

  lemma OfferExactly(st: State, c: nat, dst: nat, dstX: nat)
    requires WF(st) && IsSlot(st, c) && IsSlot(st, dst) && IsSlot(st, dstX)
    requires var to := st.proc[dst];
             PureReceiving(to) ==> if to.vmidPending then st.proc[dstX].kind.Promiscuous? || st.proc[c].vm == VM0 else !to.notGetfrom
    ensures var to, from, r := st.proc[dst], st.proc[c], OfferMessage(st, c, dst, dstX);
            var meets := PureReceiving(to) && if to.vmidPending then AnswersVm(to, from, false) else Answers(to, from);
            && (meets ==> r.Taken? && Got(st, r.st, dst) && (!to.vmidPending && to.nr == SYSTEM ==> r.st.proc[SYSTASK].vm == from.vm))
            && (!meets ==> r == NotWaiting)
  {
    hide Deliver, Inherit, Got;
    var to, from := st.proc[dst], st.proc[c];
    DeliveredTo(st, dst);
    InheritedTo(st, dst, from.vm);
  }

  /** The same after SYSTASK has been told the VM. */
  lemma InheritedTo(st: State, d: nat, vm: nat)
    requires WF(st) && IsSlot(st, d) && vm < NR_VMS
    ensures var after := Deliver(Inherit(st, d, vm), d, true);
            Got(st, after, d) && (st.proc[d].nr == SYSTEM ==> after.proc[SYSTASK].vm == vm)
    ensures var after := Deliver(Inherit(st, d, vm), d, false);
            Got(st, after, d) && (st.proc[d].nr == SYSTEM ==> after.proc[SYSTASK].vm == vm)
  {
    hide Deliver;
    DeliveredTo(Inherit(st, d, vm), d);
  }

  lemma BlockedBehind(st: State, c: nat, d: nat, ep: int)
    requires WF(st) && IsSlot(st, c) && IsSlot(st, d)
    ensures Waits(st, BlockSending(st, c, d, ep), c, d, ep) && WF(BlockSending(st, c, d, ep))
  {
  }

  lemma DeliveredTo(st: State, d: nat)
    requires WF(st) && IsSlot(st, d)
    ensures Got(st, Deliver(st, d, true), d) && Got(st, Deliver(st, d, false), d)
    ensures Deliver(st, d, true).proc[d].vm == st.proc[d].vm == Deliver(st, d, false).proc[d].vm
    ensures SYSTASK != d ==> Deliver(st, d, true).proc[SYSTASK] == st.proc[SYSTASK] == Deliver(st, d, false).proc[SYSTASK]
    ensures Deliver(st, d, true).priv == st.priv == Deliver(st, d, false).priv
  {
  }

  /** Where a message goes that is sent to endpoint ep: from VM0 to the process itself; from a guest to the process
      itself, or through a promiscuous descriptor to its VM0 process, or into the queue of a virtual task, which
      its proxy empties; but a redirected kernel call of a paravirtual process goes to SYSTASK of VM0. */
  lemma SendGoesTo(st: State, c: nat, ep: int, direct: bool)
    requires WF(st) && IsSlot(st, c) && IsOkEndpt(st, st.running, ep) && IsOkProcN(EndpointP(ep))
    requires st.proc[c].paravir && EndpointP(ep) == SYSTEM ==> st.running != VM0
    ensures var from, n := st.proc[c], EndpointP(ep);
            var d := if from.paravir && n == SYSTEM then st.running * SLOTS + n + NR_TASKS else Addr(st.running, n);
            var named, r := st.proc[d], MhSend(st, c, ep, direct);
            var px := Addr(VM0, EndpointP(st.vmm[st.running]));
            && (named.rts.noEndpoint ==> r == (st, Err(EDSTDIED)))
            && (!named.rts.noEndpoint && (from.vm == VM0 || named.kind == Real) ==> r == SendTo(st, c, d, d, ep))
            && (!named.rts.noEndpoint && from.vm != VM0 && named.kind.Promiscuous? ==>
                  if from.vm in st.priv[st.proc[named.kind.home].priv].vmBitmap then r == SendTo(st, c, named.kind.home, d, ep)
                  else r == (st, Err(EPROMISCUOUS)))
            && (!named.rts.noEndpoint && from.vm != VM0 && named.kind == Virtual ==>
                  if direct && named.nr == SYSTEM && from.paravir && from.replyPending then r == SendTo(st, c, SYSTASK, d, ep)
                  else if IsOkEndpt(st, VM0, st.vmm[st.running]) && st.proc[px].proxy == from.vm then r == SendTo(st, c, d, d, ep)
                  else r == (st, Err(EVIRTUALTASK)))
  {
    hide SendTo;
  }

  /** And to nobody if the endpoint is dead. */
  lemma SendToDead(st: State, c: nat, ep: int, direct: bool)
    requires WF(st) && IsSlot(st, c) && !IsOkEndpt(st, st.running, ep)
    ensures MhSend(st, c, ep, direct) == (st, Err(EDSTDIED))
  {
  }

  // ---------------------------------------------------------------- NOTIFY

  /** A notification by a process of VM0, or of HARDWARE, wakes the destination exactly if that is purely RECEIVING what
      it answers and not inside a SENDREC, whatever its VM; otherwise it is pending there. */
  lemma NotifyExactly(st: State, c: nat, d: nat)
    requires WF(st) && IsSlot(st, c) && IsSlot(st, d) && st.proc[c].vm == VM0
    requires PureReceiving(st.proc[d]) ==> st.proc[d].vmidPending || !st.proc[d].notGetfrom
    ensures var to, from, r := st.proc[d], st.proc[c], NotifyPlain(st, c, d);
            var meets := PureReceiving(to) && !to.replyPending
                         && if to.vmidPending then AnswersVm(to, from, from.nr == HARDWARE) else to.getfrom == ANY || to.getfrom == from.ep;
            && r.1 == Ok
            && (meets ==> Got(st, r.0, d))
            && (!meets ==> Pends(st, r.0, to.priv, st.priv[from.priv].sid))
  {
    hide Deliver, Inherit, Wake, Got, Pends;
    var to, from := st.proc[d], st.proc[c];
    var s := st.priv[from.priv].sid;
    AddedPending(st, to.priv, s);
    CountedGot(st, d, to.priv, s, from.vm);
  }

  lemma AddedPending(st: State, i: nat, s: nat)
    requires WF(st) && i < |st.priv| && s < NR_SYS_PROCS
    ensures Pends(st, AddPending(st, i, s), i, s)
  {
  }

  lemma CountedGot(st: State, d: nat, i: nat, s: nat, vm: nat)
    requires WF(st) && IsSlot(st, d) && i < |st.priv| && s < NR_SYS_PROCS && vm < NR_VMS
    ensures Got(st, Deliver(CountDirect(Inherit(st, d, vm), i, s), d, false), d)
    ensures Got(st, Deliver(CountDirect(st, i, s), d, false), d)
    ensures var p := st.proc[d];
            Got(st, Wake(CountDirect(st, i, s), d, p.(rts := p.rts.(receiving := false), getfrom := NONE, vmidPending := false,
                                                      notGetfrom := false, recvVm := ANY_VM)), d)
  {
    hide Deliver, Wake;
    InheritedGot(st, d, i, s, vm);
    DeliveredTo(CountDirect(st, i, s), d);
    var p := st.proc[d];
    WokenUp(CountDirect(st, i, s), d, p.(rts := p.rts.(receiving := false), getfrom := NONE, vmidPending := false,
                                         notGetfrom := false, recvVm := ANY_VM));
  }

  lemma InheritedGot(st: State, d: nat, i: nat, s: nat, vm: nat)
    requires WF(st) && IsSlot(st, d) && i < |st.priv| && s < NR_SYS_PROCS && vm < NR_VMS
    ensures Got(st, Deliver(CountDirect(Inherit(st, d, vm), i, s), d, false), d)
  {
    hide Deliver;
    DeliveredTo(CountDirect(Inherit(st, d, vm), i, s), d);
  }

  lemma WokenUp(st: State, d: nat, p: Proc)
    requires WF(st) && IsSlot(st, d) && ProcWF(p, |st.proc|, |st.priv|)
    requires p.rts == st.proc[d].rts.(receiving := false) && p.getfrom == NONE
    ensures Got(st, Wake(st, d, p), d)
  {
  }

  /** c has to wait, NOTIFYING, behind everybody in the queue of d. */
  ghost predicate WaitsToNotify(st: State, after: State, c: nat, d: nat, ep: int)
    requires IsSlot(st, c) && d < |st.cq|
  {
    && |after.proc| == |st.proc| && after.cq == st.cq[d := st.cq[d] + [c]]
    && after.proc[c].rts == st.proc[c].rts.(notifying := true) && after.proc[c].sendto == ep
    && forall y :: 0 <= y < |st.proc| && y != c ==> after.proc[y] == st.proc[y]
  }

  /** A notification by a guest that does not find its destination waiting: for a process of its own it is pending; for
      a VM0 process or a virtual task the notifier itself waits. */
  lemma NotifyLaterExactly(st: State, c: nat, d: nat, dst: nat)
    requires WF(st) && IsSlot(st, c) && IsSlot(st, d) && IsSlot(st, dst)
    ensures var r, ep := NotifyLater(st, c, d, dst), st.proc[d].ep;
            && (st.proc[d].kind == Real ==> r.1 == Ok && Pends(st, r.0, st.proc[dst].priv, st.priv[st.proc[c].priv].sid))
            && (st.proc[d].kind.Promiscuous? ==> r.1 == Ok && WaitsToNotify(st, r.0, c, dst, ep))
            && (st.proc[d].kind == Virtual ==>
                  exists blocked :: WaitsToNotify(st, blocked, c, d, ep) && WF(blocked)
                                    && r == NotifyProxy(blocked, st.priv[st.proc[Addr(VM0, EndpointP(st.vmm[st.running]))].priv].sid))
  {
    hide NotifyProxy, Pends, WaitsToNotify, BlockNotifying, AddPending;
    AddedPending(st, st.proc[dst].priv, st.priv[st.proc[c].priv].sid);
    NotifierBehind(st, c, dst, st.proc[d].ep);
    NotifierBehind(st, c, d, st.proc[d].ep);
  }

  lemma NotifierBehind(st: State, c: nat, d: nat, ep: int)
    requires WF(st) && IsSlot(st, c) && IsSlot(st, d)
    ensures WaitsToNotify(st, BlockNotifying(st, c, d, ep), c, d, ep) && WF(BlockNotifying(st, c, d, ep))
  {
  }

  /** The proxy of the running VM is told by HARDWARE about a driver it has registered for; else EACCES. */
  lemma ProxyIsTold(st: State, s: nat)
    requires WF(st)
    ensures var px, hw := Addr(VM0, EndpointP(st.vmm[st.running])), Addr(VM0, HARDWARE);
            var r := NotifyProxy(st, s);
            && r.0.running == st.running
            && (s !in st.priv[st.proc[px].priv].drBitmap ==> r == (st, Err(EACCES)))
            && (s in st.priv[st.proc[px].priv].drBitmap && st.proc[px].rts.noEndpoint ==> r == (st, Err(EDSTDIED)))
            && (s in st.priv[st.proc[px].priv].drBitmap && !st.proc[px].rts.noEndpoint ==>
                  var told := NotifyPlain(st.(running := VM0), hw, px); r == (told.0.(running := st.running), told.1))
  {
    hide NotifyPlain;
  }

  // ---------------------------------------------------------------- proxies

  /** SENDAS: a proxy's message reaches a process of its VM exactly if that is purely RECEIVING from the virtual task the
      proxy speaks for, or from anyone; a proxy never waits. */
  lemma SendAsExactly(st: State, c: nat, ep: int, srcNr: int)
    requires WF(st) && IsSlot(st, c) && 0 <= st.proc[c].proxy < NR_VMS
    requires var vm, n := st.proc[c].proxy, EndpointP(ep);
             && IsOkEndpt(st, vm, ep) && !st.proc[Addr(vm, n)].rts.noEndpoint && st.proc[Addr(vm, n)].kind == Real
             && n != SYSTEM && IsOkProcN(srcNr) && st.proc[Addr(vm, srcNr)].kind == Virtual
    ensures var vm := st.proc[c].proxy;
            var d, virt := Addr(vm, EndpointP(ep)), st.proc[Addr(vm, srcNr)];
            var to, r := st.proc[d], MhSendAs(st, c, ep, srcNr);
            && (PureReceiving(to) && (to.getfrom == ANY || to.getfrom == virt.ep) ==> r.1 == Ok && Got(st, r.0, d))
            && (PureReceiving(to) && to.getfrom != ANY && to.getfrom != virt.ep ==> r == (st, Err(ESRCDIED)))
            && (!PureReceiving(to) ==> r == (st, Err(EPROCSTATUS)))
  {
    hide Deliver, Got;
    DeliveredTo(st, Addr(st.proc[c].proxy, EndpointP(ep)));
  }

  /** Position k of queue d is the first that has what the caller asks for; the end of the queue if there is none. */
  ghost predicate FirstAsked(st: State, d: nat, src: int, k: nat)
    requires WF(st) && IsSlot(st, d)
  {
    && k <= |st.cq[d]|
    && (k < |st.cq[d]| ==> Asked(st, d, src, k))
    && forall i :: 0 <= i < k ==> !Asked(st, d, src, i)
  }

  predicate Asked(st: State, d: nat, src: int, i: nat)
    requires WF(st) && IsSlot(st, d) && i < |st.cq[d]|
  {
    src == ANY || st.proc[st.cq[d][i]].ep == src
  }

  /** RECVAS with nothing pending: a proxy takes the first in the queue of the virtual task that it asks for, SENDING
      or NOTIFYING, and if there is none goes on with EAGAIN. */
  lemma RecvAsExactly(st: State, c: nat, src: int, n: int, k: nat)
    requires WF(st) && IsSlot(st, c) && 0 <= st.proc[c].proxy < NR_VMS && n != SYSTEM && IsOkProcN(n)
    requires var d := Addr(st.proc[c].proxy, n);
             st.proc[d].kind == Virtual && NonePending(st, st.proc[d].priv) && FirstAsked(st, d, src, k)
    requires src == ANY || (IsOkEndpt(st, st.proc[c].proxy, src) && !st.proc[Addr(st.proc[c].proxy, EndpointP(src))].rts.noEndpoint)
    ensures var d, r := Addr(st.proc[c].proxy, n), MhRecvAs(st, c, src, n);
            if k == |st.cq[d]| then r == (st, Err(EAGAIN))
            else
              && r.1 == Ok && r.0.cq == st.cq[d := RemoveAt(st.cq[d], k)]
              && r.0.proc[st.cq[d][k]].rts == st.proc[st.cq[d][k]].rts.(sending := false, notifying := false)
  {
    hide FindPending, FirstFrom, Release;
    var d := Addr(st.proc[c].proxy, n);
    NoneFound(st.priv[st.proc[d].priv].pend, st.idNr[st.running], WantOf(src), 0);
    FirstIs(st, d, src, 0, k);
    if k < |st.cq[d]| { ReleasedAt(st, d, k, st.proc[st.cq[d][k]].rts.(sending := false, notifying := false)); }
  }

  lemma {:induction false} FirstIs(st: State, d: nat, src: int, i: nat, k: nat)
    requires WF(st) && IsSlot(st, d) && FirstAsked(st, d, src, k) && i <= k
    ensures FirstFrom(st, d, src, i) == k
    decreases k - i
  {
    if i < k {
      assert !Asked(st, d, src, i);
      FirstIs(st, d, src, i + 1, k);
    }
  }

  lemma ReleasedAt(st: State, d: nat, k: nat, rts: Rts)
    requires WF(st) && IsSlot(st, d) && k < |st.cq[d]|
    ensures var r := Release(st, d, k, rts); r.cq == st.cq[d := RemoveAt(st.cq[d], k)] && r.proc[st.cq[d][k]].rts == rts
  {
  }

  /** NOTIFYAS: the notification of a virtual task, made by its proxy. */
  lemma NotifyAsExactly(st: State, c: nat, n: int, srcNr: int)
    requires WF(st) && IsSlot(st, c) && 0 <= st.proc[c].proxy < NR_VMS && IsOkProcN(n) && IsOkProcN(srcNr)
    requires var d := st.proc[Addr(st.proc[c].proxy, n)]; !d.rts.noEndpoint && d.kind == Real
    requires st.proc[Addr(st.proc[c].proxy, srcNr)].kind == Virtual
    ensures var d, virt := Addr(st.proc[c].proxy, n), st.proc[Addr(st.proc[c].proxy, srcNr)];
            var to, r := st.proc[d], MhNtfyAs(st, c, n, srcNr);
            var meets := PureReceiving(to) && !to.replyPending && (to.getfrom == ANY || to.getfrom == virt.ep);
            && r.1 == Ok && (meets ==> Got(st, r.0, d)) && (!meets ==> Pends(st, r.0, to.priv, st.priv[virt.priv].sid))
  {
    hide Wake, Got, Pends, AddPending;
    var d, virt := Addr(st.proc[c].proxy, n), st.proc[Addr(st.proc[c].proxy, srcNr)];
    var to, s := st.proc[d], st.priv[virt.priv].sid;
    AddedPending(st, to.priv, s);
    WokenUp(CountDirect(st, to.priv, s), d, to.(rts := to.rts.(receiving := false), getfrom := NONE, recvVm := ANY_VM));
    SameButCounts(st, Wake(CountDirect(st, to.priv, s), d, to.(rts := to.rts.(receiving := false), getfrom := NONE, recvVm := ANY_VM)),
                  to.priv, s, d);
  }

  lemma SameButCounts(st: State, after: State, i: nat, s: nat, d: nat)
    requires WF(st) && IsSlot(st, d) && i < |st.priv| && s < NR_SYS_PROCS && Got(CountDirect(st, i, s), after, d)
    ensures Got(st, after, d)
  {
  }

  // ---------------------------------------------------------------- promiscuous tasks

  /** SENDVM to a real process of another VM: it gets the message exactly if it is purely RECEIVING from anyone or from
      the descriptor the caller has there, and then the caller goes on; otherwise the caller waits last in its queue. */
  lemma SendVmExactly(st: State, c: nat, ep: int, vm: int)
    requires WF(st) && IsSlot(st, c) && 0 <= vm < NR_VMS && IsOkEndpt(st, vm, ep)
    requires var to, me := st.proc[Addr(vm, EndpointP(ep))], st.priv[st.proc[c].priv].sNr[vm];
             !to.rts.noEndpoint && to.kind == Real && !to.notGetfrom && IsOkProcN(me) && Addr(vm, EndpointP(ep)) != c && Addr(vm, me) != c
    ensures var d, there := Addr(vm, EndpointP(ep)), st.proc[Addr(vm, st.priv[st.proc[c].priv].sNr[vm])];
            var to, r := st.proc[d], MhSendVm(st, c, ep, vm);
            var marked := Put(st, c, st.proc[c].(vmidPending := st.proc[c].vmidPending || st.proc[c].replyPending));
            var meets := PureReceiving(to) && (to.getfrom == ANY || to.getfrom == there.ep);
            && r.1 == Ok
            && (meets ==> Got(marked, r.0, d) && (c != SYSTASK ==> r.0.proc[c].rts == st.proc[c].rts))
            && (!meets ==> Waits(marked, r.0, c, d, ep))
  {
    hide Deliver, BlockSending, Got, Waits;
    var d := Addr(vm, EndpointP(ep));
    var marked := Put(st, c, st.proc[c].(vmidPending := st.proc[c].vmidPending || st.proc[c].replyPending));
    DeliveredTo(marked, d);
    BlockedBehind(marked, c, d, ep);
    GotElsewhere(marked, Deliver(marked, d, false), d, c);
  }

  lemma GotElsewhere(st: State, after: State, d: nat, c: nat)
    requires IsSlot(st, d) && IsSlot(st, c) && Got(st, after, d)
    ensures |after.proc| == |st.proc| && (c != d && c != SYSTASK ==> after.proc[c] == st.proc[c])
  {
  }

  /** RECVVM takes x: of the VM asked for, or of any; the process asked for, or anyone, or anyone but the one excluded. */
  predicate SuitsVm(st: State, src: int, except: bool, vm: int, x: nat)
    requires WF(st) && IsSlot(st, x)
  {
    var from := st.proc[x];
    if except then from.nr != src || (vm != ANY_VM && from.vm != vm)
    else (vm == ANY_VM || from.vm == vm) && (src == ANY || from.ep == src)
  }

  /** RECVVM with nothing pending by a process that serves the VMs of all in its queue: it takes the first that suits it,
      and answers its VM; and blocks exactly if nobody does. */
  lemma ReceiveVmExactly(st: State, c: nat, src: int, except: bool, vm: int)
    requires Inv(st) && IsSlot(st, c) && st.proc[c].rts.Zero() && ANY_VM <= vm < NR_VMS && NonePending(st, st.proc[c].priv)
    requires forall k :: 0 <= k < |st.cq[c]| ==> st.proc[st.cq[c][k]].vm == VM0 || ServesVm(st, c, st.proc[st.cq[c][k]].vm)
    ensures var r := ReceiveVmNow(st, c, src, except, vm);
            && (forall k :: 0 <= k < |st.cq[c]| && SuitsVm(st, src, except, vm, st.cq[c][k])
                            && (forall i :: 0 <= i < k ==> !SuitsVm(st, src, except, vm, st.cq[c][i])) ==>
                  && r.1 == FromVm(st.proc[st.cq[c][k]].vm) && r.0.cq == st.cq[c := RemoveAt(st.cq[c], k)]
                  && !r.0.proc[c].rts.receiving && !r.0.proc[st.cq[c][k]].rts.sending && !r.0.proc[st.cq[c][k]].rts.notifying)
            && ((forall k :: 0 <= k < |st.cq[c]| ==> !SuitsVm(st, src, except, vm, st.cq[c][k])) <==> r.0.proc[c].rts.receiving)
            && (r.0.proc[c].rts.receiving ==>
                  var p := r.0.proc[c];
                  r.1 == Ok && r.0.cq == st.cq && p.getfrom == src && p.recvVm == vm && p.vmidPending && p.notGetfrom == except)
  {
    hide CallersOk, ReadyOk, FindPending, FirstAcceptableVm, TakeSenderVm, WaitVm, SuitsVm, AcceptableVm, ServesVm;
    NoneFound(st.priv[st.proc[c].priv].pend, st.idNr[st.running], if except then AllBut(src) else WantOf(src), 0);
    forall k | 0 <= k < |st.cq[c]|
      ensures AcceptableVm(st, src, except, vm, st.cq[c][k]) <==> SuitsVm(st, src, except, vm, st.cq[c][k])
    {
      SuitsVmIsAcceptable(st, src, except, vm, st.cq[c][k]);
    }
    var k := FirstAcceptableVm(st, c, src, except, vm, 0);
    if k < |st.cq[c]| { SenderVmTaken(st, c, k); } else { NowBlockedVm(st, c, src, except, vm); }
  }

  lemma SuitsVmIsAcceptable(st: State, src: int, except: bool, vm: int, x: nat)
    requires WF(st) && IsSlot(st, x)
    ensures AcceptableVm(st, src, except, vm, x) <==> SuitsVm(st, src, except, vm, x)
  {
  }

  lemma SenderVmTaken(st: State, c: nat, k: nat)
    requires Inv(st) && IsSlot(st, c) && st.proc[c].rts.Zero() && k < |st.cq[c]|
    requires st.proc[st.cq[c][k]].vm == VM0 || ServesVm(st, c, st.proc[st.cq[c][k]].vm)
    ensures var r := TakeSenderVm(st, c, k);
            && r.1 == FromVm(st.proc[st.cq[c][k]].vm) && r.0.cq == st.cq[c := RemoveAt(st.cq[c], k)] && |r.0.proc| == |st.proc|
            && !r.0.proc[c].rts.receiving && !r.0.proc[st.cq[c][k]].rts.sending && !r.0.proc[st.cq[c][k]].rts.notifying
  {
    hide ReadyOk, Release;
    NotInOwnQueue(st, c, k);
    var x := st.cq[c][k];
    assert Flags(st.proc, st.cq, st.orphans, x) && x in st.cq[c];
    ReleasedAt(st, c, k, if st.proc[x].vm != VM0 then Released(st.proc[x].rts) else st.proc[x].rts.(sending := false));
    OthersStay(st, c, k, if st.proc[x].vm != VM0 then Released(st.proc[x].rts) else st.proc[x].rts.(sending := false));
  }

  lemma OthersStay(st: State, d: nat, k: nat, rts: Rts)
    requires WF(st) && IsSlot(st, d) && k < |st.cq[d]| && st.cq[d][k] != d
    ensures var r := Release(st, d, k, rts); |r.proc| == |st.proc| && r.proc[d] == st.proc[d]
  {
  }

  lemma NowBlockedVm(st: State, c: nat, src: int, except: bool, vm: int)
    requires WF(st) && IsSlot(st, c)
    ensures var r := WaitVm(st, c, src, except, vm);
            && r.cq == st.cq && |r.proc| == |st.proc|
            && var p := r.proc[c]; p.rts.receiving && p.getfrom == src && p.recvVm == vm && p.vmidPending && p.notGetfrom == except
  {
  }

  /** NOTIFYVM to a real process of another VM. */
  lemma NotifyVmExactly(st: State, c: nat, n: int, vm: int)
    requires WF(st) && IsSlot(st, c) && IsOkProcN(n) && 0 <= vm < NR_VMS
    requires var to, me := st.proc[Addr(vm, n)], st.priv[st.proc[c].priv].sNr[vm];
             !to.rts.noEndpoint && to.kind == Real && !to.notGetfrom && IsOkProcN(me)
    ensures var d, there := Addr(vm, n), st.proc[Addr(vm, st.priv[st.proc[c].priv].sNr[vm])];
            var to, r := st.proc[d], MhNtfyVm(st, c, n, vm);
            var meets := PureReceiving(to) && !to.replyPending && (to.getfrom == ANY || to.getfrom == there.ep);
            && r.1 == Ok && (meets ==> Got(st, r.0, d)) && (!meets ==> Pends(st, r.0, to.priv, st.priv[st.proc[c].priv].sid))
  {
    hide Deliver, Got, Pends, AddPending;
    var d, s := Addr(vm, n), st.priv[st.proc[c].priv].sid;
    AddedPending(st, st.proc[d].priv, s);
    CountedGot(st, d, st.proc[d].priv, s, VM0);
  }

  // ---------------------------------------------------------------- RELAY

  /** RELAY hands the request of s on: the destination gets it exactly if it is purely RECEIVING what the relaying
      process could send it, and then s waits for the answer of the destination; otherwise s waits in its queue. */
  lemma RelayExactly(st: State, c: nat, dst: nat, ep: int, s: nat)
    requires WF(st) && IsSlot(st, c) && IsSlot(st, dst) && IsSlot(st, s) && s != dst && s != SYSTASK
    requires PureReceiving(st.proc[dst]) && !st.proc[dst].vmidPending ==> !st.proc[dst].notGetfrom
    requires st.proc[c].nr != SYSTEM && (st.proc[c].vm == VM0 || !st.proc[dst].kind.Virtual?)
    ensures var to, from, r := st.proc[dst], st.proc[c], RelayTo(st, c, dst, ep, s);
            var meets := PureReceiving(to) && if to.vmidPending then AnswersVm(to, from, false) else Answers(to, from);
            && r.1 == Ok && |r.0.proc| == |st.proc|
            && (meets ==> r.0.cq == st.cq && !r.0.proc[dst].rts.receiving && r.0.proc[s] == st.proc[s].(getfrom := to.ep))
            && (!meets ==> Waits(st, r.0, s, dst, ep))
  {
    hide Deliver, Inherit, Wake;
    var to, from := st.proc[dst], st.proc[c];
    if PureReceiving(to) && to.vmidPending && AnswersVm(to, from, false) {
      HandedVm(st, dst, s);
    } else if PureReceiving(to) && !to.vmidPending && Answers(to, from) {
      Handed(st, dst, s, from.vm);
    }
  }

  lemma HandedVm(st: State, dst: nat, s: nat)
    requires WF(st) && IsSlot(st, dst) && IsSlot(st, s) && s != dst
    ensures var waits := Put(st, s, st.proc[s].(getfrom := st.proc[dst].ep));
            var r := Deliver(waits, dst, true);
            |r.proc| == |st.proc| && r.cq == st.cq && !r.proc[dst].rts.receiving && r.proc[s] == waits.proc[s]
  {
    hide Deliver;
    var waits := Put(st, s, st.proc[s].(getfrom := st.proc[dst].ep));
    DeliveredTo(waits, dst);
    GotElsewhere(waits, Deliver(waits, dst, true), dst, s);
  }

  lemma Handed(st: State, dst: nat, s: nat, vm: nat)
    requires WF(st) && IsSlot(st, dst) && IsSlot(st, s) && s != dst && s != SYSTASK && vm < NR_VMS
    ensures var went := Inherit(st, dst, vm);
            var waits := Put(went, s, went.proc[s].(getfrom := st.proc[dst].ep));
            var got := waits.proc[dst];
            var r := Wake(waits, dst, got.(rts := got.rts.(receiving := false), getfrom := NONE, replyPending := false, recvVm := ANY_VM));
            && |r.proc| == |st.proc| && r.cq == st.cq && !r.proc[dst].rts.receiving
            && r.proc[s] == st.proc[s].(getfrom := st.proc[dst].ep)
  {
    hide Inherit, Wake;
    var went := Inherit(st, dst, vm);
    InheritedOnly(st, dst, vm);
    var waits := Put(went, s, went.proc[s].(getfrom := st.proc[dst].ep));
    var got := waits.proc[dst];
    var p := got.(rts := got.rts.(receiving := false), getfrom := NONE, replyPending := false, recvVm := ANY_VM);
    WokenUp(waits, dst, p);
    GotElsewhere(waits, Wake(waits, dst, p), dst, s);
  }

  lemma InheritedOnly(st: State, d: nat, vm: nat)
    requires WF(st) && IsSlot(st, d) && vm < NR_VMS
    ensures var went := Inherit(st, d, vm);
            && went.cq == st.cq && |went.proc| == |st.proc| && went.proc[SYSTASK] == st.proc[SYSTASK].(vm := went.proc[SYSTASK].vm)
            && forall y :: 0 <= y < |st.proc| && y != SYSTASK ==> went.proc[y] == st.proc[y]
  {
  }
}
