/** Every primitive and the whole of sys_call() keep the caller-queue and ready-queue invariants. */
module IpcPrimitives {
  import opened Queues
  import opened Ipc
  import opened IpcInvariants
  import opened SysCall

  lemma HomeKeeps(st: State, c: nat, srcEp: int)
    requires Inv(st) && IsSlot(st, c) && CanReceive(st, c)
    ensures Inv(Home(st, c, srcEp)) && CanReceive(Home(st, c, srcEp), c)
  {
    assert Flags(st.proc, st.cq, st.orphans, c);
    PutKeeps(st, c, st.proc[c].(vm := VM0));
  }

  lemma BlockReceivingKeeps(st: State, c: nat, srcEp: int)
    requires Inv(st) && IsSlot(st, c) && CanReceive(st, c)
    ensures Inv(BlockReceiving(st, c, srcEp))
  {
    var p := st.proc[c];
    BlockKeeps(st, c, p.(rts := p.rts.(receiving := true), getfrom := srcEp, recvVm := p.vm));
  }

  lemma TakeSenderKeeps(st: State, c: nat, k: nat)
    requires Inv(st) && IsSlot(st, c) && k < |st.cq[c]| && CanReceive(st, c)
    ensures Inv(TakeSender(st, c, k))
  {
    var x := st.cq[c][k];
    ReleasedClears(st, c, k);
    if st.proc[c].nr == SYSTEM {
      InheritKeeps(st, c, st.proc[x].vm);
      var went := Inherit(st, c, st.proc[x].vm);
      PrivKeeps(went, went.(running := st.proc[x].vm));
      ReleaseKeeps(went.(running := st.proc[x].vm), c, k, Released(st.proc[x].rts));
    } else {
      ReleaseKeeps(st, c, k, Released(st.proc[x].rts));
    }
  }

  lemma MhReceiveKeeps(st0: State, c: nat, srcEp: int)
    requires Inv(st0) && IsSlot(st0, c) && CanReceive(st0, c)
    ensures Inv(MhReceive(st0, c, srcEp).0)
  {
    HomeKeeps(st0, c, srcEp);
    BlockReceivingKeeps(Home(st0, c, srcEp), c, srcEp);
    ReceiveNowKeeps(Home(st0, c, srcEp), c, srcEp);
  }

  lemma ReceiveNowKeeps(st: State, c: nat, srcEp: int)
    requires Inv(st) && IsSlot(st, c) && CanReceive(st, c)
    ensures Inv(ReceiveNow(st, c, srcEp))
  {
    BlockReceivingKeeps(st, c, srcEp);
    var i := st.proc[c].priv;
    var pending := FindPending(st.priv[i].pend, st.idNr[st.running], WantOf(srcEp), 0);
    if pending.Some? {
      PrivKeeps(st, TakePending(st, i, pending.value));
    }
    var k := FirstAcceptable(st, c, srcEp, 0);
    if k < |st.cq[c]| {
      TakeSenderKeeps(st, c, k);
      SettleKeeps(TakeSender(st, c, k), c);
    }
  }

  lemma MhNotifyKeeps(st: State, c: nat, n: int)
    requires Inv(st) && IsSlot(st, c) && IsOkProcN(n) && st.proc[c].rts.Zero()
    ensures Inv(MhNotify(st, c, n).0)
  {
    var d := Addr(st.running, n);
    NotifyPlainKeeps(st, c, d);
    var r := RouteTo(st, c, d, HomeOf(st, d), false);
    if st.proc[c].vm != VM0 && r.To? {
      OfferNotifyKeeps(st, c, r.dst, r.dstX);
      NotifyLaterKeeps(st, c, d, r.dst);
    }
  }

  lemma NotifyLaterKeeps(st: State, c: nat, d: nat, dst: nat)
    requires Inv(st) && IsSlot(st, c) && IsSlot(st, d) && IsSlot(st, dst) && st.proc[c].rts.Zero() && st.proc[c].vm != VM0
    ensures Inv(NotifyLater(st, c, d, dst).0)
  {
    PrivKeeps(st, AddPending(st, st.proc[dst].priv, st.priv[st.proc[c].priv].sid));
    BlockNotifyingKeeps(st, c, dst, st.proc[d].ep);
    BlockNotifyingKeeps(st, c, d, st.proc[d].ep);
    var px := Addr(VM0, EndpointP(st.vmm[st.running]));
    NotifyProxyKeeps(BlockNotifying(st, c, d, st.proc[d].ep), st.priv[st.proc[px].priv].sid);
  }

  lemma MhSendAsKeeps(st: State, c: nat, dstEp: int, srcNr: int)
    requires Inv(st) && IsSlot(st, c) && 0 <= st.proc[c].proxy < NR_VMS
    ensures Inv(MhSendAs(st, c, dstEp, srcNr).0)
  {
    var vm := st.proc[c].proxy;
    if IsOkEndpt(st, vm, dstEp) {
      var d := Addr(vm, EndpointP(dstEp));
      if st.proc[d].rts.receiving {
        DeliverKeeps(st, d, false);
      }
    }
  }

  lemma MhRecvAsKeeps(st: State, c: nat, srcEp: int, dstNr: int)
    requires Inv(st) && IsSlot(st, c) && 0 <= st.proc[c].proxy < NR_VMS
    ensures Inv(MhRecvAs(st, c, srcEp, dstNr).0)
  {
    if dstNr == SYSTEM || IsOkProcN(dstNr) {
      var d := Emulated(st.proc[c].proxy, dstNr, dstNr == SYSTEM);
      var i := st.proc[d].priv;
      var pending := FindPending(st.priv[i].pend, st.idNr[st.running], WantOf(srcEp), 0);
      if pending.Some? {
        PrivKeeps(st, TakePending(st, i, pending.value));
      }
      var k := FirstFrom(st, d, srcEp, 0);
      if k < |st.cq[d]| {
        ReleaseKeeps(st, d, k, st.proc[st.cq[d][k]].rts.(sending := false, notifying := false));
      }
    }
  }

  lemma MhNtfyAsKeeps(st: State, c: nat, dstNr: int, srcNr: int)
    requires Inv(st) && IsSlot(st, c) && 0 <= st.proc[c].proxy < NR_VMS && IsOkProcN(dstNr)
    ensures Inv(MhNtfyAs(st, c, dstNr, srcNr).0)
  {
    var d := Addr(st.proc[c].proxy, dstNr);
    var dst := st.proc[d];
    assert Flags(st.proc, st.cq, st.orphans, d);
    if IsOkProcN(srcNr) {
      var s := st.priv[st.proc[Addr(st.proc[c].proxy, srcNr)].priv].sid;
      PrivKeeps(st, AddPending(st, dst.priv, s));
      PrivKeeps(st, CountDirect(st, dst.priv, s));
      if PureReceiving(dst) {
        var got := dst.(rts := dst.rts.(receiving := false), getfrom := NONE, recvVm := ANY_VM);
        WakeKeeps(CountDirect(st, dst.priv, s), d, got);
      }
    }
  }

  lemma MhSendVmKeeps(st0: State, c: nat, dstEp: int, vm: int)
    requires Inv(st0) && IsSlot(st0, c) && 0 <= vm < NR_VMS && st0.proc[c].rts.Zero()
    ensures Inv(MhSendVm(st0, c, dstEp, vm).0) && CanReceive(MhSendVm(st0, c, dstEp, vm).0, c)
  {
    hide SendVmTo;
    assert Flags(st0.proc, st0.cq, st0.orphans, c);
    var p := st0.proc[c].(vmidPending := st0.proc[c].vmidPending || st0.proc[c].replyPending);
    PutKeeps(st0, c, p);
    if IsOkEndpt(st0, vm, dstEp) { SendVmToKeeps(Put(st0, c, p), c, Addr(vm, EndpointP(dstEp)), dstEp, vm); }
  }

  lemma SendVmToKeeps(st: State, c: nat, d: nat, dstEp: int, vm: int)
    requires Inv(st) && IsSlot(st, c) && IsSlot(st, d) && 0 <= vm < NR_VMS && st.proc[c].rts.Zero()
    ensures Inv(SendVmTo(st, c, d, dstEp, vm).0) && CanReceive(SendVmTo(st, c, d, dstEp, vm).0, c)
  {
    assert Flags(st.proc, st.cq, st.orphans, c);
    BlockSendingKeeps(st, c, d, dstEp);
    if st.proc[d].rts.receiving {
      DeliverKeeps(st, d, false);
      assert SameFlags(st.proc[c], Deliver(st, d, false).proc[c]);
    }
  }

  lemma TakeSenderVmKeeps(st: State, c: nat, k: nat)
    requires Inv(st) && IsSlot(st, c) && k < |st.cq[c]|
    ensures Inv(TakeSenderVm(st, c, k).0)
  {
    var x := st.cq[c][k];
    ReleasedClears(st, c, k);
    assert Flags(st.proc, st.cq, st.orphans, x);
    var rts := st.proc[x].rts.(sending := false, notifying := false);
    ReleaseKeeps(st, c, k, rts);
    SettleKeeps(Release(st, c, k, rts), c);
    var after := Settle(Release(st, c, k, rts), c);
    assert Flags(after.proc, after.cq, after.orphans, c);
    PutKeeps(after, c, after.proc[c].(recvVm := ANY_VM));
  }

  lemma MhRecvVmKeeps(st0: State, c: nat, srcEp0: int, vm: int)
    requires Inv(st0) && IsSlot(st0, c) && ANY_VM <= vm < NR_VMS && CanReceive(st0, c)
    ensures Inv(MhRecvVm(st0, c, srcEp0, vm).0)
  {
    hide ReadyOk, FindPending, FirstAcceptableVm, TakeSenderVm;
    var p := st0.proc[c].(vmidPending := false, notGetfrom := false);
    assert Flags(st0.proc, st0.cq, st0.orphans, c);
    PutKeeps(st0, c, p);
    var st := Put(st0, c, p);
    forall s: nat | s < NR_SYS_PROCS
      ensures Inv(TakePending(st, p.priv, s))
    {
      PrivKeeps(st, TakePending(st, p.priv, s));
    }
    forall k: nat | k < |st.cq[c]|
      ensures Inv(TakeSenderVm(st, c, k).0)
    {
      TakeSenderVmKeeps(st, c, k);
    }
    forall srcEp, except
      ensures Inv(WaitVm(st, c, srcEp, except, vm))
    {
      BlockKeeps(st, c, p.(rts := p.rts.(receiving := true), getfrom := srcEp, recvVm := vm, vmidPending := true, notGetfrom := except));
    }
  }

  lemma MhNtfyVmKeeps(st: State, c: nat, n: int, vm: int)
    requires Inv(st) && IsSlot(st, c) && IsOkProcN(n) && 0 <= vm < NR_VMS
    ensures Inv(MhNtfyVm(st, c, n, vm).0)
  {
    var d := Addr(vm, n);
    var s := st.priv[st.proc[c].priv].sid;
    PrivKeeps(st, AddPending(st, st.proc[d].priv, s));
    PrivKeeps(st, CountDirect(st, st.proc[d].priv, s));
    if st.proc[d].rts.receiving {
      DeliverKeeps(CountDirect(st, st.proc[d].priv, s), d, false);
    }
  }

  lemma RelayToKeeps(st: State, c: nat, dst: nat, dstEp: int, s: nat)
    requires Inv(st) && IsSlot(st, c) && IsSlot(st, dst) && IsSlot(st, s) && PureReceiving(st.proc[s])
    ensures Inv(RelayTo(st, c, dst, dstEp, s).0)
  {
    hide ReadyOk, NotifyProxy;
    var caller, to := st.proc[c], st.proc[dst];
    assert Flags(st.proc, st.cq, st.orphans, dst);
    assert Flags(st.proc, st.cq, st.orphans, s);
    if PureReceiving(to) && to.vmidPending && AdmitsVm(to, caller, false) {
      PutKeeps(st, s, st.proc[s].(getfrom := to.ep));
      DeliverKeeps(Put(st, s, st.proc[s].(getfrom := to.ep)), dst, true);
    } else if PureReceiving(to) && !to.vmidPending && Admits(to, caller) {
      InheritKeeps(st, dst, caller.vm);
      var went := Inherit(st, dst, caller.vm);
      assert Flags(went.proc, went.cq, went.orphans, s);
      PutKeeps(went, s, went.proc[s].(getfrom := to.ep));
      var waits := Put(went, s, went.proc[s].(getfrom := to.ep));
      var got := waits.proc[dst];
      WakeKeeps(waits, dst, got.(rts := got.rts.(receiving := false), getfrom := NONE, replyPending := false, recvVm := ANY_VM));
    } else {
      HangForKeeps(st, s, dst, dstEp);
      NotifyProxyKeeps(HangFor(st, s, dst, dstEp), st.priv[to.priv].sid);
    }
  }

  lemma HangForKeeps(st: State, s: nat, dst: nat, dstEp: int)
    requires Inv(st) && IsSlot(st, s) && IsSlot(st, dst) && PureReceiving(st.proc[s])
    ensures Inv(HangFor(st, s, dst, dstEp))
  {
    assert Flags(st.proc, st.cq, st.orphans, s);
    var p := st.proc[s].(rts := st.proc[s].rts.(sending := true), sendto := dstEp);
    CallersHang(st.proc, st.cq, st.orphans, dst, s, p);
    ReadyPut(st.proc, st.rq, s, p);
  }

  lemma MhRelayKeeps(st: State, c: nat, dstEp: int, srcEp: int)
    requires Inv(st) && IsSlot(st, c)
    ensures Inv(MhRelay(st, c, dstEp, srcEp).0)
  {
    var r := ResolveRelay(st, c, dstEp, srcEp);
    if r.To? { RelayToKeeps(st, c, r.dst, dstEp, r.dstX); }
  }

  lemma ReceiveVmKeeps(st: State, c: nat, srcDst: int, vm: int)
    requires Inv(st) && IsSlot(st, c) && ANY_VM <= vm < NR_VMS && CanReceive(st, c)
    ensures Inv(ReceiveVm(st, c, srcDst, vm).0)
  {
    assert Flags(st.proc, st.cq, st.orphans, c);
    PutKeeps(st, c, st.proc[c].(vmidPending := true));
    MhReceiveKeeps(Put(st, c, st.proc[c].(vmidPending := true)), c, srcDst);
    MhRecvVmKeeps(st, c, srcDst, vm);
  }

  lemma SendRecKeeps(st: State, c: nat, srcDst: int, direct: bool)
    requires Inv(st) && IsSlot(st, c) && st.proc[c].rts.Zero()
    ensures Inv(SendRec(st, c, srcDst, direct).0)
  {
    MhSendKeeps(st, c, srcDst, direct);
    var sent := MhSend(st, c, srcDst, direct);
    if sent.1 == Ok {
      MhReceiveKeeps(sent.0, c, srcDst);
    }
  }

  lemma SendVmKeeps(st: State, c: nat, srcDst: int, vm: int, direct: bool)
    requires Inv(st) && IsSlot(st, c) && 0 <= vm < NR_VMS && st.proc[c].rts.Zero()
    ensures var sent := SendVm(st, c, srcDst, vm, direct); Inv(sent.0) && (sent.1 == Ok ==> CanReceive(sent.0, c))
  {
    if st.proc[c].vm == vm { MhSendKeeps(st, c, srcDst, direct); } else { MhSendVmKeeps(st, c, srcDst, vm); }
  }

  /** Main result: whatever a running process asks of the kernel, a slot is SENDING or NOTIFYING iff it
      waits exactly once in exactly one caller queue, and ready iff nothing stops it. */
  lemma CallKeeps(st0: State, c: nat, fn: int, srcDst: int, arg: int, redirected: bool)
    requires Inv(st0) && IsSlot(st0, c) && st0.proc[c].rts.Zero()
    ensures Inv(Call(st0, c, fn, srcDst, arg, redirected).0)
  {
    hide CallersOk, ReadyOk, Dispatch;
    if fn != HDEBUG && fn != PRTMSG && Check(st0, c, fn, srcDst, arg) == Ok {
      StartKeeps(st0, c, fn);
      DispatchKeeps(Start(st0, c, fn), c, fn, srcDst, arg, redirected);
    }
  }

  lemma StartKeeps(st: State, c: nat, fn: int)
    requires Inv(st) && IsSlot(st, c) && st.proc[c].rts.Zero()
    ensures Inv(Start(st, c, fn)) && Start(st, c, fn).proc[c].rts.Zero()
  {
    hide ReadyOk;
    assert Flags(st.proc, st.cq, st.orphans, c);
    PutKeeps(st, c, st.proc[c].(rts := RUNNABLE, replyPending := fn == SENDREC || fn == SENDRECVM, vmidPending := false));
  }

  lemma DispatchKeeps(st: State, c: nat, fn: int, srcDst: int, arg: int, redirected: bool)
    requires Inv(st) && IsSlot(st, c) && st.proc[c].rts.Zero() && SEND <= fn <= RELAY
    requires fn == SENDAS || fn == RECVAS || fn == NOTIFYAS ==> 0 <= st.proc[c].proxy < NR_VMS
    requires SENDVM <= fn <= NOTIFYVM ==> (if fn == RECVVM then ANY_VM else VM0) <= arg < NR_VMS
    ensures Inv(Dispatch(st, c, fn, srcDst, arg, redirected).0)
  {
    hide ReadyOk, MhSend, MhReceive, MhNotify, MhRelay, SendRec, SendVm, ReceiveVm, MhSendAs, MhRecvAs, MhNtfyAs, MhNtfyVm;
    assert Flags(st.proc, st.cq, st.orphans, c);
    var n := Named(fn, srcDst);
    if fn == SENDREC {
      SendRecKeeps(st, c, srcDst, !redirected);
    } else if fn == SENDVM || fn == SENDRECVM {
      SendVmKeeps(st, c, srcDst, arg, !redirected);
      var sent := SendVm(st, c, srcDst, arg, !redirected);
      if sent.1 == Ok { ReceiveVmKeeps(sent.0, c, srcDst, arg); }
    } else if fn == SEND {
      MhSendKeeps(st, c, srcDst, !redirected);
    } else if fn == RECEIVE {
      MhReceiveKeeps(st, c, srcDst);
    } else if fn == RELAY {
      MhRelayKeeps(st, c, srcDst, arg);
    } else if fn == SENDAS {
      MhSendAsKeeps(st, c, srcDst, arg);
    } else if fn == RECVAS {
      MhRecvAsKeeps(st, c, srcDst, arg);
    } else if fn == RECVVM {
      ReceiveVmKeeps(st, c, srcDst, arg);
    } else if IsOkProcN(n) {
      if fn == NOTIFYAS { MhNtfyAsKeeps(st, c, n, arg); }
      if fn == NOTIFY || fn == NOTIFYVM { MhNotifyKeeps(st, c, n); }
      if fn == NOTIFYVM { MhNtfyVmKeeps(st, c, n, arg); }
    }
  }

  /** A receiver takes the acceptable sender that has waited longest: the queue is in order of arrival
      (BlockSending and BlockNotifying append, nothing reorders) and the first acceptable one goes. */
  lemma ReceiveTakesLongestWaiting(st: State, c: nat, srcEp: int, j: nat)
    requires Inv(st) && IsSlot(st, c) && st.proc[c].rts.Zero()
    requires st.proc[c].nr != SYSTEM && st.proc[c].nr != CLOCK
    requires srcEp == ANY || (IsOkEndpt(st, st.running, srcEp) && !st.proc[Addr(st.running, EndpointP(srcEp))].rts.noEndpoint)
    requires FindPending(st.priv[st.proc[c].priv].pend, st.idNr[st.running], WantOf(srcEp), 0).None? || st.proc[c].replyPending
    requires j < |st.cq[c]| && Acceptable(st, c, srcEp, st.cq[c][j])
    requires forall i :: 0 <= i < j ==> !Acceptable(st, c, srcEp, st.cq[c][i])
    ensures var after := MhReceive(st, c, srcEp);
            && after.1 == Ok
            && after.0.cq == st.cq[c := RemoveAt(st.cq[c], j)]
            && after.0.proc[st.cq[c][j]].rts == st.proc[st.cq[c][j]].rts.(sending := false, notifying := false)
  {
    hide CallersOk, ReadyOk, FindPending, FirstAcceptable, TakeSender;
    assert FirstAcceptable(st, c, srcEp, 0) == j;
    TakenOnly(st, c, j);
  }

  lemma TakenOnly(st: State, c: nat, k: nat)
    requires Inv(st) && IsSlot(st, c) && st.proc[c].rts.Zero() && k < |st.cq[c]|
    ensures var after := Settle(TakeSender(st, c, k), c);
            && after.cq == st.cq[c := RemoveAt(st.cq[c], k)]
            && after.proc[st.cq[c][k]].rts == st.proc[st.cq[c][k]].rts.(sending := false, notifying := false)
  {
    hide ReadyOk;
    ReleasedClears(st, c, k);
  }

  /** Once it has unlinked the sender, MH_receive tests whether the flags of the slot that is now in its place
      are clear.  They never are: whoever is next still waits (and if nobody is, there is nothing to test). */
  lemma SuccessorNeverReady(st: State, c: nat, k: nat)
    requires Inv(st) && IsSlot(st, c) && k < |st.cq[c]| - 1
    ensures var after := Release(st, c, k, Released(st.proc[st.cq[c][k]].rts));
            after.cq[c][k] == st.cq[c][k + 1] && !after.proc[after.cq[c][k]].rts.Zero()
  {
    ReleasedClears(st, c, k);
    ReleaseKeeps(st, c, k, Released(st.proc[st.cq[c][k]].rts));
    var after := Release(st, c, k, Released(st.proc[st.cq[c][k]].rts));
    assert after.cq[c][k] in after.cq[c] && Flags(after.proc, after.cq, after.orphans, after.cq[c][k]);
  }
}
