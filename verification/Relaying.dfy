/** What becomes of a request that MH_relay hands on to a process that is not waiting for it. */
module Relaying {
  import opened Ipc
  import opened IpcInvariants
  import opened IpcPrimitives
  import opened Runs
  import opened Booting

  /** The destination is not blocked waiting for anything the relaying process could send it. */
  predicate NotAwaited(st: State, c: nat, dst: nat)
    requires WF(st) && IsSlot(st, c) && IsSlot(st, dst)
  {
    var caller, to := st.proc[c], st.proc[dst];
    !PureReceiving(to) || (if to.vmidPending then !AdmitsVm(to, caller, false) else !to.notGetfrom && !Admits(to, caller))
  }

  /** A relayed process that has to wait is SENDING to the new destination, but what it waits to receive from
      stays the old one; the two agree, as they do in a SENDREC, iff it was waiting for that very endpoint.  So
      when the destination has taken the request and answers it, the answer gets through iff the process was
      waiting for the destination in the first place (or for anyone); otherwise it has to wait again. */
  lemma RelayedReplyExactly(st: State, c: nat, dst: nat, dstEp: int, s: nat)
    requires Inv(st) && IsSlot(st, c) && IsSlot(st, dst) && IsSlot(st, s) && PureReceiving(st.proc[s]) && s != dst
    requires NotAwaited(st, c, dst) && st.proc[c].nr != SYSTEM && (st.proc[c].vm == VM0 || !st.proc[dst].kind.Virtual?)
    requires !st.proc[s].vmidPending && !st.proc[s].notGetfrom && st.proc[s].vm == st.proc[dst].vm
    ensures var (hung, code) := RelayTo(st, c, dst, dstEp, s);
            var p := hung.proc[s];
            && code == Ok && p.rts.sending && p.rts.receiving && p.sendto == dstEp && p.getfrom == st.proc[s].getfrom
    ensures var hung := RelayTo(st, c, dst, dstEp, s).0;
            var k := |hung.cq[dst]| - 1;
            && k >= 0 && hung.cq[dst][k] == s
            && var taken := Release(hung, dst, k, Released(hung.proc[s].rts));
            OfferMessage(taken, dst, s, s).Taken? <==> st.proc[s].getfrom == ANY || st.proc[s].getfrom == st.proc[dst].ep
  {
    hide ReadyOk;
    var hung := RelayTo(st, c, dst, dstEp, s).0;
    var k := |hung.cq[dst]| - 1;
    assert Flags(st.proc, st.cq, st.orphans, s);
    var taken := Release(hung, dst, k, Released(hung.proc[s].rts));
    assert taken.proc[s].rts.receiving && !taken.proc[s].rts.sending;
  }

  /** Processes 6, 7 and 8 of VM0 have been booted, and 6 waits for an answer from 7. */
  function Asked(image: nat -> Entry): (st: State)
    requires ImageOk(image)
    ensures WF(st)
  {
    InitialHolds(image);
    BlockReceiving(Boot(Boot(Boot(Initial(image), 10), 11), 12), 10, 7)
  }

  /** 7 relays the request of 6 to 8, which does not wait for it: the answer of 8 will not be accepted. */
  lemma ReplyIsLost(image: nat -> Entry)
    requires ImageOk(image)
    ensures var st := Asked(image);
            && Inv(st) && PureReceiving(st.proc[10]) && NotAwaited(st, 11, 12)
            && var (hung, code) := RelayTo(st, 11, 12, 8, 10);
            && code == Ok && |hung.cq[12]| == 1 && hung.cq[12][0] == 10
            && !OfferMessage(Release(hung, 12, 0, Released(hung.proc[10].rts)), 12, 10, 10).Taken?
  {
    hide CallersOk, ReadyOk, Slot, RelayTo, OfferMessage, Release, Initial;
    InitialHolds(image);
    var init := Initial(image);
    FreshInv(init);
    FreeSlot(image, 10);
    FreeSlot(image, 11);
    FreeSlot(image, 12);
    var a := Boot(init, 10);
    BootedOne(init, 10);
    var b := Boot(a, 11);
    BootedOne(a, 11);
    var d := Boot(b, 12);
    BootedOne(b, 12);
    BlockReceivingKeeps(d, 10, 7);
    Blocked(d, 10, 7);
    var st := Asked(image);
    RelayedReplyExactly(st, 11, 12, 8, 10);
    assert st.cq[12] == [];
    NowQueued(st, 11, 12, 8, 10);
  }

  lemma FreeSlot(image: nat -> Entry, x: nat)
    requires NR_TASKS <= x < SLOTS
    ensures var p := Slot(image, x);
            && p.nr == p.ep == x - NR_TASKS && p.vm == VM0 && p.kind == Real && p.rts.Empty()
            && !p.vmidPending && !p.notGetfrom && !p.replyPending
  {
  }

  /** Booting makes one process ready and leaves everybody else and all caller queues alone. */
  lemma BootedOne(st: State, x: nat)
    requires Inv(st) && IsSlot(st, x) && st.proc[x].kind == Real && st.proc[x].rts.Empty()
    ensures var r := Boot(st, x);
            && Inv(r) && r.cq == st.cq && |r.proc| == |st.proc|
            && r.proc[x] == st.proc[x].(rts := RUNNABLE, prio := r.proc[x].prio, ticks := r.proc[x].ticks)
            && forall y :: 0 <= y < |st.proc| && y != x ==> r.proc[y] == st.proc[y]
  {
    hide CallersOk, ReadyOk;
    NextKeeps(st, Booted(x));
  }

  lemma Blocked(st: State, x: nat, ep: int)
    requires WF(st) && IsSlot(st, x)
    ensures var r := BlockReceiving(st, x, ep);
            && r.cq == st.cq && |r.proc| == |st.proc| && r.proc[x].rts == st.proc[x].rts.(receiving := true) && r.proc[x].getfrom == ep
            && r.proc[x].kind == st.proc[x].kind && r.proc[x].vm == st.proc[x].vm
            && r.proc[x].vmidPending == st.proc[x].vmidPending && r.proc[x].notGetfrom == st.proc[x].notGetfrom
            && forall y :: 0 <= y < |st.proc| && y != x ==> r.proc[y] == st.proc[y]
  {
  }

  /** A relayed process that has to wait is put at the end of the queue of the destination. */
  lemma NowQueued(st: State, c: nat, dst: nat, dstEp: int, s: nat)
    requires WF(st) && IsSlot(st, c) && IsSlot(st, dst) && IsSlot(st, s)
    requires NotAwaited(st, c, dst) && st.proc[c].nr != SYSTEM && (st.proc[c].vm == VM0 || !st.proc[dst].kind.Virtual?)
    ensures RelayTo(st, c, dst, dstEp, s).0.cq == st.cq[dst := st.cq[dst] + [s]]
  {
  }
}
