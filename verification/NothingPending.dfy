/** A process that blocks in RECEIVE(ANY) has no notification pending, and none becomes pending while it
    stays blocked.  For a process that has a privilege structure of its own. */
module NothingPending {
  import opened Ipc
  import opened IpcInvariants
  import opened IpcPrimitives
  import opened SysCall
  import opened Notifications

  /** Blocked in a plain RECEIVE(ANY): not in a SENDREC, not in a RECVVM. */
  predicate BlockedForAny(p: Proc) {
    PureReceiving(p) && p.getfrom == ANY && !p.vmidPending && !p.replyPending
  }

  ghost predicate NoneDue(st: State, x: int)
    requires WF(st) && IsSlot(st, x)
  {
    BlockedForAny(st.proc[x]) ==> forall s :: 0 <= s < NR_SYS_PROCS ==> !st.priv[st.proc[x].priv].pend[s]
  }

  /** Only SENDREC and SENDRECVM leave a process both SENDING and RECEIVING. */
  predicate InSendrec(p: Proc) {
    p.rts.sending && p.rts.receiving ==> p.replyPending
  }

  /** No other slot shares x's privilege structure; the descriptors of VM0 are real processes. */
  predicate SlotFine(proc: seq<Proc>, x: int, y: int)
    requires 0 <= x < |proc| && 0 <= y < |proc|
  {
    && (y != x ==> proc[y].priv != proc[x].priv)
    && (y < SLOTS ==> proc[y].kind == Real)
    && InSendrec(proc[y])
  }

  /** The property for slot x, in a table where x has a privilege structure of its own. */
  ghost predicate Fine(st: State, x: int) {
    && WF(st) && IsSlot(st, x) && NoneDue(st, x)
    && (forall y :: 0 <= y < |st.proc| ==> SlotFine(st.proc, x, y))
  }

  predicate Steady(p: Proc, p': Proc) {
    && p'.priv == p.priv && p'.kind == p.kind
    && (BlockedForAny(p') ==> BlockedForAny(p)) && (InSendrec(p) ==> InSendrec(p'))
  }

  /** Nobody starts to wait for anyone and nothing becomes pending. */
  ghost predicate Tame(st: State, after: State) {
    && WF(st) && WF(after) && after.priv == st.priv
    && forall y :: 0 <= y < |st.proc| ==> SteadyAt(st.proc, after.proc, y)
  }

  predicate SteadyAt(proc: seq<Proc>, after: seq<Proc>, y: int)
    requires 0 <= y < |proc| == |after|
  {
    Steady(proc[y], after[y])
  }

  lemma TameFine(st: State, after: State, x: int)
    requires Fine(st, x) && Tame(st, after)
    ensures Fine(after, x)
  {
    assert SteadyAt(st.proc, after.proc, x);
    forall y | 0 <= y < |after.proc|
      ensures SlotFine(after.proc, x, y)
    {
      assert SteadyAt(st.proc, after.proc, y) && SlotFine(st.proc, x, y);
    }
  }

  lemma TameTrans(a: State, b: State, c: State)
    requires Tame(a, b) && Tame(b, c)
    ensures Tame(a, c)
  {
    forall y | 0 <= y < |a.proc|
      ensures SteadyAt(a.proc, c.proc, y)
    {
      assert SteadyAt(a.proc, b.proc, y) && SteadyAt(b.proc, c.proc, y);
    }
  }

  lemma WakeTame(st: State, y: nat, p: Proc)
    requires WF(st) && IsSlot(st, y) && ProcWF(p, |st.proc|, |st.priv|) && Steady(st.proc[y], p)
    ensures Tame(st, Wake(st, y, p))
  {
  }

  lemma BlockTame(st: State, y: nat, p: Proc)
    requires WF(st) && IsSlot(st, y) && ProcWF(p, |st.proc|, |st.priv|) && Steady(st.proc[y], p)
    ensures Tame(st, Block(st, y, p))
  {
  }

  lemma DeliverTame(st: State, d: nat, misc: bool)
    requires WF(st) && IsSlot(st, d)
    ensures Tame(st, Deliver(st, d, misc))
  {
    var p := st.proc[d];
    var got := p.(rts := p.rts.(receiving := false), getfrom := NONE);
    WakeTame(st, d, if misc then got.(vmidPending := false, notGetfrom := false, replyPending := false, recvVm := ANY_VM) else got);
  }

  lemma InheritTame(st: State, d: nat, vm: nat)
    requires WF(st) && IsSlot(st, d) && vm < NR_VMS
    ensures Tame(st, Inherit(st, d, vm))
  {
  }

  lemma BlockSendingTame(st: State, c: nat, d: nat, ep: int)
    requires WF(st) && IsSlot(st, c) && IsSlot(st, d) && !st.proc[c].rts.receiving
    ensures Tame(st, BlockSending(st, c, d, ep))
  {
    var p := st.proc[c];
    BlockTame(st, c, p.(rts := p.rts.(sending := true), sendto := ep));
  }

  lemma OfferMessageTame(st: State, c: nat, dst: nat, dstX: nat)
    requires WF(st) && IsSlot(st, c) && IsSlot(st, dst) && IsSlot(st, dstX)
    ensures OfferMessage(st, c, dst, dstX).Taken? ==> Tame(st, OfferMessage(st, c, dst, dstX).st)
  {
    var went := Inherit(st, dst, st.proc[c].vm);
    DeliverTame(st, dst, true);
    InheritTame(st, dst, st.proc[c].vm);
    DeliverTame(went, dst, true);
    TameTrans(st, went, Deliver(went, dst, true));
  }

  /** Pending is what a destination gets that does not wait for anyone. */
  lemma AddPendingFine(st: State, x: int, d: nat, s: nat)
    requires Fine(st, x) && IsSlot(st, d) && s < NR_SYS_PROCS && !BlockedForAny(st.proc[d])
    ensures Fine(AddPending(st, st.proc[d].priv, s), x)
  {
    assert SlotFine(st.proc, x, d);
  }

  lemma TakePendingFine(st: State, x: int, i: nat, s: nat)
    requires Fine(st, x) && i < |st.priv| && s < NR_SYS_PROCS
    ensures Fine(TakePending(st, i, s), x) && Fine(CountDirect(st, i, s), x)
  {
  }

  lemma OfferNotifyFine(st: State, x: int, c: nat, dst: nat, dstX: nat)
    requires Fine(st, x) && IsSlot(st, c) && IsSlot(st, dst) && IsSlot(st, dstX)
    ensures var r := OfferNotify(st, c, dst, dstX); r.Taken? ==> Fine(r.st, x)
    ensures OfferNotify(st, c, dst, dstX) == NotWaiting && st.proc[dstX].kind == Real ==> !BlockedForAny(st.proc[dst])
  {
    var s := st.priv[st.proc[c].priv].sid;
    var i := st.proc[dst].priv;
    if OfferNotify(st, c, dst, dstX).Taken? {
      if st.proc[dst].vmidPending {
        TakePendingFine(st, x, i, s);
        var to := st.proc[dst];
        var direct := CountDirect(st, i, s);
        var got := to.(rts := to.rts.(receiving := false), getfrom := NONE, vmidPending := false, notGetfrom := false, recvVm := ANY_VM);
        WakeTame(direct, dst, got);
        TameFine(direct, Wake(direct, dst, got), x);
      } else {
        var went := Inherit(st, dst, st.proc[c].vm);
        InheritTame(st, dst, st.proc[c].vm);
        TameFine(st, went, x);
        TakePendingFine(went, x, i, s);
        DeliverTame(CountDirect(went, i, s), dst, false);
        TameFine(CountDirect(went, i, s), Deliver(CountDirect(went, i, s), dst, false), x);
      }
    }
  }

  lemma NotifyPlainFine(st: State, x: int, c: nat, d: nat)
    requires Fine(st, x) && IsSlot(st, c) && IsSlot(st, d) && st.proc[d].kind == Real
    ensures Fine(NotifyPlain(st, c, d).0, x)
  {
    OfferNotifyFine(st, x, c, d, d);
    if OfferNotify(st, c, d, d) == NotWaiting {
      AddPendingFine(st, x, d, st.priv[st.proc[c].priv].sid);
    }
  }

  lemma NotifyProxyFine(st: State, x: int, s: nat)
    requires Fine(st, x)
    ensures Fine(NotifyProxy(st, s).0, x)
  {
    var px := Addr(VM0, EndpointP(st.vmm[st.running]));
    assert SlotFine(st.proc, x, px);
    NotifyPlainFine(st.(running := VM0), x, Addr(VM0, HARDWARE), px);
  }

  lemma SendToFine(st: State, x: int, c: nat, dst: nat, dstX: nat, ep: int)
    requires Fine(st, x) && IsSlot(st, c) && IsSlot(st, dst) && IsSlot(st, dstX) && !st.proc[c].rts.receiving
    ensures Fine(SendTo(st, c, dst, dstX, ep).0, x)
  {
    match OfferMessage(st, c, dst, dstX)
    case Taken(after) =>
      OfferMessageTame(st, c, dst, dstX);
      TameFine(st, after, x);
    case Failed =>
    case NotWaiting =>
      var blocked := BlockSending(st, c, dst, ep);
      BlockSendingTame(st, c, dst, ep);
      TameFine(st, blocked, x);
      NotifyProxyFine(blocked, x, st.priv[st.proc[dst].priv].sid);
  }

  lemma MhSendFine(st: State, x: int, c: nat, ep: int, direct: bool)
    requires Fine(st, x) && IsSlot(st, c) && !st.proc[c].rts.receiving
    ensures Fine(MhSend(st, c, ep, direct).0, x)
  {
    var r := ResolveSend(st, c, ep, direct);
    if r.To? { SendToFine(st, x, c, r.dst, r.dstX, ep); }
  }

  /** The blocking step itself: it is reached only when the search for pending notifications fails. */
  lemma BlockReceivingFine(st: State, x: int, c: nat, src: int)
    requires Fine(st, x) && IsSlot(st, c) && (st.proc[c].rts.sending ==> st.proc[c].replyPending)
    requires st.proc[c].replyPending || src != ANY || forall s :: 0 <= s < NR_SYS_PROCS ==> !st.priv[st.proc[c].priv].pend[s]
    ensures Fine(BlockReceiving(st, c, src), x)
  {
    var p := st.proc[c];
    var p' := p.(rts := p.rts.(receiving := true), getfrom := src, recvVm := p.vm);
    var after := BlockReceiving(st, c, src);
    assert after.proc == st.proc[c := p'] && InSendrec(p');
    forall y | 0 <= y < |after.proc|
      ensures SlotFine(after.proc, x, y)
    {
      assert SlotFine(st.proc, x, y) && SlotFine(st.proc, x, c);
    }
  }

  lemma ReleaseFine(st: State, x: int, d: nat, k: nat, rts: Rts)
    requires Fine(st, x) && IsSlot(st, d) && k < |st.cq[d]|
    requires !rts.sending && rts.receiving == st.proc[st.cq[d][k]].rts.receiving
    ensures Fine(Release(st, d, k, rts), x) && Tame(st, Release(st, d, k, rts))
  {
    var y := st.cq[d][k];
    var p := st.proc[y].(rts := rts, sendto := NONE);
    assert SlotFine(st.proc, x, y);
    WakeTame(st, y, p);
    var after := Release(st, d, k, rts);
    assert Tame(st, after);
    TameFine(st, after, x);
  }

  lemma PutFine(st: State, x: int, y: nat, p: Proc)
    requires Fine(st, x) && IsSlot(st, y) && ProcWF(p, |st.proc|, |st.priv|) && Steady(st.proc[y], p)
    ensures Fine(Put(st, y, p), x)
  {
    assert Tame(st, Put(st, y, p));
    TameFine(st, Put(st, y, p), x);
  }

  lemma RunningFine(st: State, x: int, vm: int)
    requires Fine(st, x) && 0 <= vm < NR_VMS
    ensures Fine(st.(running := vm), x)
  {
  }

  lemma SettleFine(st: State, x: int, c: nat)
    requires Fine(st, x) && IsSlot(st, c) && !st.proc[c].rts.receiving
    ensures Fine(Settle(st, c), x)
  {
    PutFine(st, x, c, st.proc[c].(vmidPending := false, notGetfrom := false, replyPending := false));
  }

  lemma InheritFine(st: State, x: int, d: nat, vm: nat)
    requires Fine(st, x) && IsSlot(st, d) && vm < NR_VMS
    ensures Fine(Inherit(st, d, vm), x)
  {
    InheritTame(st, d, vm);
    TameFine(st, Inherit(st, d, vm), x);
  }

  /** Releasing somebody else's message leaves the flags of a receiver alone. */
  lemma StillNotReceiving(st: State, c: nat, d: nat, k: nat, rts: Rts)
    requires Inv(st) && IsSlot(st, c) && IsSlot(st, d) && k < |st.cq[d]| && !st.proc[c].rts.receiving
    requires rts == st.proc[st.cq[d][k]].rts.(sending := false, notifying := false)
    ensures !Release(st, d, k, rts).proc[c].rts.receiving
  {
  }

  lemma TakeSenderFine(st: State, x: int, c: nat, k: nat)
    requires Inv(st) && Fine(st, x) && IsSlot(st, c) && k < |st.cq[c]| && st.proc[c].rts.Zero()
    ensures Fine(Settle(TakeSender(st, c, k), c), x)
  {
    var y := st.cq[c][k];
    var vm := st.proc[y].vm;
    ReleasedClears(st, c, k);
    var went := if st.proc[c].nr == SYSTEM then Inherit(st, c, vm).(running := vm) else st;
    if st.proc[c].nr == SYSTEM {
      assert Flags(st.proc, st.cq, st.orphans, c);
      InheritFine(st, x, c, vm);
      InheritKeeps(st, c, vm);
      RunningFine(Inherit(st, c, vm), x, vm);
      PrivKeeps(Inherit(st, c, vm), went);
    }
    ReleaseFine(went, x, c, k, Released(st.proc[y].rts));
    StillNotReceiving(went, c, c, k, Released(st.proc[y].rts));
    SettleFine(TakeSender(st, c, k), x, c);
  }

  // ---------------------------------------------------------------- the calls

  lemma HomeFine(st: State, x: int, c: nat, src: int)
    requires Fine(st, x) && IsSlot(st, c)
    ensures Fine(Home(st, c, src), x)
  {
    PutFine(st, x, c, st.proc[c].(vm := VM0));
    RunningFine(Put(st, c, st.proc[c].(vm := VM0)), x, VM0);
  }

  /** Nothing is found for anyone only if nothing is pending. */
  lemma NothingFound(st: State, c: nat)
    requires WF(st) && IsSlot(st, c)
    requires FindPending(st.priv[st.proc[c].priv].pend, st.idNr[st.running], Anyone, 0).None?
    ensures forall s :: 0 <= s < NR_SYS_PROCS ==> !st.priv[st.proc[c].priv].pend[s]
  {
    forall s: nat | s < NR_SYS_PROCS
      ensures !st.priv[st.proc[c].priv].pend[s]
    {
      if st.priv[st.proc[c].priv].pend[s] { AnyoneFindsAll(st.priv[st.proc[c].priv].pend, st.idNr[st.running], 0, s); }
    }
  }

  lemma MhReceiveFine(st0: State, x: int, c: nat, src: int)
    requires Inv(st0) && Fine(st0, x) && IsSlot(st0, c)
    requires st0.proc[c].rts.Zero() || (st0.proc[c].rts.sending && st0.proc[c].replyPending && !st0.proc[c].rts.receiving)
    ensures Fine(MhReceive(st0, c, src).0, x)
  {
    assert Flags(st0.proc, st0.cq, st0.orphans, c);
    HomeFine(st0, x, c, src);
    HomeKeeps(st0, c, src);
    var st := Home(st0, c, src);
    if st.proc[c].rts.sending { BlockReceivingFine(st, x, c, src); } else { ReceiveNowFine(st, x, c, src); }
  }

  lemma ReceiveNowFine(st: State, x: int, c: nat, src: int)
    requires Inv(st) && Fine(st, x) && IsSlot(st, c) && st.proc[c].rts.Zero()
    ensures Fine(ReceiveNow(st, c, src), x)
  {
    var i := st.proc[c].priv;
    var pending := FindPending(st.priv[i].pend, st.idNr[st.running], WantOf(src), 0);
    var k := FirstAcceptable(st, c, src, 0);
    if pending.Some? && !st.proc[c].replyPending {
      TakePendingFine(st, x, i, pending.value);
    } else if k < |st.cq[c]| {
      TakeSenderFine(st, x, c, k);
    } else {
      if src == ANY && pending.None? { NothingFound(st, c); }
      BlockReceivingFine(st, x, c, src);
    }
  }

  lemma BlockNotifyingFine(st: State, x: int, c: nat, d: nat, ep: int)
    requires Fine(st, x) && IsSlot(st, c) && IsSlot(st, d)
    ensures Fine(BlockNotifying(st, c, d, ep), x)
  {
    assert Tame(st, BlockNotifying(st, c, d, ep));
    TameFine(st, BlockNotifying(st, c, d, ep), x);
  }

  lemma NotifyLaterFine(st: State, x: int, c: nat, d: nat, dst: nat)
    requires Fine(st, x) && IsSlot(st, c) && IsSlot(st, d) && IsSlot(st, dst)
    requires st.proc[d].kind == Real ==> !BlockedForAny(st.proc[dst])
    ensures Fine(NotifyLater(st, c, d, dst).0, x)
  {
    BlockNotifyingFine(st, x, c, dst, st.proc[d].ep);
    BlockNotifyingFine(st, x, c, d, st.proc[d].ep);
    var px := Addr(VM0, EndpointP(st.vmm[st.running]));
    NotifyProxyFine(BlockNotifying(st, c, d, st.proc[d].ep), x, st.priv[st.proc[px].priv].sid);
    if st.proc[d].kind == Real { AddPendingFine(st, x, dst, st.priv[st.proc[c].priv].sid); }
  }

  lemma MhNotifyFine(st: State, x: int, c: nat, n: int)
    requires Fine(st, x) && IsSlot(st, c) && IsOkProcN(n)
    ensures Fine(MhNotify(st, c, n).0, x)
  {
    var d := Addr(st.running, n);
    if st.proc[c].vm == VM0 {
      NotifyFromVm0Fine(st, x, c, d);
    } else {
      var r := RouteTo(st, c, d, HomeOf(st, d), false);
      if r.To? {
        OfferNotifyFine(st, x, c, r.dst, r.dstX);
        if OfferNotify(st, c, r.dst, r.dstX) == NotWaiting { NotifyLaterFine(st, x, c, d, r.dst); }
      }
    }
  }

  /** From VM0 no descriptor is passed over, whatever it stands for. */
  lemma NotifyFromVm0Fine(st: State, x: int, c: nat, d: nat)
    requires Fine(st, x) && IsSlot(st, c) && IsSlot(st, d) && st.proc[c].vm == VM0
    ensures Fine(NotifyPlain(st, c, d).0, x)
  {
    OfferNotifyFine(st, x, c, d, d);
    if OfferNotify(st, c, d, d) == NotWaiting {
      AddPendingFine(st, x, d, st.priv[st.proc[c].priv].sid);
    }
  }

  lemma DeliverFine(st: State, x: int, d: nat, misc: bool)
    requires Fine(st, x) && IsSlot(st, d)
    ensures Fine(Deliver(st, d, misc), x)
  {
    DeliverTame(st, d, misc);
    TameFine(st, Deliver(st, d, misc), x);
  }

  lemma MhSendAsFine(st: State, x: int, c: nat, ep: int, src: int)
    requires Fine(st, x) && IsSlot(st, c) && 0 <= st.proc[c].proxy < NR_VMS
    ensures Fine(MhSendAs(st, c, ep, src).0, x)
  {
    if IsOkEndpt(st, st.proc[c].proxy, ep) { DeliverFine(st, x, Addr(st.proc[c].proxy, EndpointP(ep)), false); }
  }

  lemma TakeForFine(st: State, x: int, d: nat, src: int)
    requires Fine(st, x) && IsSlot(st, d)
    ensures var k := FirstFrom(st, d, src, 0);
            k < |st.cq[d]| ==> Fine(Release(st, d, k, st.proc[st.cq[d][k]].rts.(sending := false, notifying := false)), x)
  {
    var k := FirstFrom(st, d, src, 0);
    if k < |st.cq[d]| { ReleaseFine(st, x, d, k, st.proc[st.cq[d][k]].rts.(sending := false, notifying := false)); }
  }

  lemma MhRecvAsFine(st: State, x: int, c: nat, src: int, n: int)
    requires Fine(st, x) && IsSlot(st, c) && 0 <= st.proc[c].proxy < NR_VMS
    ensures Fine(MhRecvAs(st, c, src, n).0, x)
  {
    if n == SYSTEM || IsOkProcN(n) {
      var d := Emulated(st.proc[c].proxy, n, n == SYSTEM);
      var i := st.proc[d].priv;
      var pending := FindPending(st.priv[i].pend, st.idNr[st.running], WantOf(src), 0);
      if pending.Some? { TakePendingFine(st, x, i, pending.value); }
      TakeForFine(st, x, d, src);
    }
  }

  lemma MhNtfyAsFine(st: State, x: int, c: nat, n: int, src: int)
    requires Fine(st, x) && IsSlot(st, c) && 0 <= st.proc[c].proxy < NR_VMS && IsOkProcN(n)
    ensures Fine(MhNtfyAs(st, c, n, src).0, x)
  {
    if IsOkProcN(src) {
      var d := Addr(st.proc[c].proxy, n);
      var dst, s := st.proc[d], st.priv[st.proc[Addr(st.proc[c].proxy, src)].priv].sid;
      TakePendingFine(st, x, dst.priv, s);
      var direct := CountDirect(st, dst.priv, s);
      var got := dst.(rts := dst.rts.(receiving := false), getfrom := NONE, recvVm := ANY_VM);
      WakeTame(direct, d, got);
      TameFine(direct, Wake(direct, d, got), x);
      if !BlockedForAny(dst) { AddPendingFine(st, x, d, s); }
    }
  }

  lemma BlockSendingFine(st: State, x: int, c: nat, d: nat, ep: int)
    requires Fine(st, x) && IsSlot(st, c) && IsSlot(st, d) && !st.proc[c].rts.receiving
    ensures Fine(BlockSending(st, c, d, ep), x)
  {
    BlockSendingTame(st, c, d, ep);
    TameFine(st, BlockSending(st, c, d, ep), x);
  }

  lemma MhSendVmFine(st0: State, x: int, c: nat, ep: int, vm: int)
    requires Fine(st0, x) && IsSlot(st0, c) && 0 <= vm < NR_VMS && !st0.proc[c].rts.receiving
    ensures Fine(MhSendVm(st0, c, ep, vm).0, x)
  {
    hide SendVmTo;
    var p := st0.proc[c].(vmidPending := st0.proc[c].vmidPending || st0.proc[c].replyPending);
    PutFine(st0, x, c, p);
    if IsOkEndpt(st0, vm, ep) { SendVmToFine(Put(st0, c, p), x, c, Addr(vm, EndpointP(ep)), ep, vm); }
  }

  lemma SendVmToFine(st: State, x: int, c: nat, d: nat, ep: int, vm: int)
    requires Fine(st, x) && IsSlot(st, c) && IsSlot(st, d) && 0 <= vm < NR_VMS && !st.proc[c].rts.receiving
    ensures Fine(SendVmTo(st, c, d, ep, vm).0, x)
  {
    DeliverFine(st, x, d, false);
    BlockSendingFine(st, x, c, d, ep);
  }

  lemma TakeSenderVmFine(st: State, x: int, c: nat, k: nat)
    requires Inv(st) && Fine(st, x) && IsSlot(st, c) && k < |st.cq[c]| && !st.proc[c].rts.receiving
    ensures Fine(TakeSenderVm(st, c, k).0, x)
  {
    hide ReadyOk, SlotFine, NoneDue;
    var y := st.cq[c][k];
    ReleasedClears(st, c, k);
    assert y in st.cq[c] && Flags(st.proc, st.cq, st.orphans, y);
    var rts := st.proc[y].rts.(sending := false, notifying := false);
    ReleaseFine(st, x, c, k, rts);
    StillNotReceiving(st, c, c, k, rts);
    SettleFine(Release(st, c, k, rts), x, c);
    var after := Settle(Release(st, c, k, rts), c);
    PutFine(after, x, c, after.proc[c].(recvVm := ANY_VM));
  }

  lemma MhRecvVmFine(st0: State, x: int, c: nat, src: int, vm: int)
    requires Inv(st0) && Fine(st0, x) && IsSlot(st0, c) && ANY_VM <= vm < NR_VMS && !st0.proc[c].rts.receiving
    requires st0.proc[c].rts.sending ==> st0.proc[c].replyPending
    ensures Fine(MhRecvVm(st0, c, src, vm).0, x)
  {
    hide ReadyOk, ReceiveVmNow;
    var p := st0.proc[c].(vmidPending := false, notGetfrom := false);
    assert Flags(st0.proc, st0.cq, st0.orphans, c);
    PutKeeps(st0, c, p);
    PutFine(st0, x, c, p);
    var except := !p.replyPending && src != ANY && HasNotProc(src);
    ReceiveVmNowFine(Put(st0, c, p), x, c, if except then src - NOT_PROC else src, except, vm);
  }

  lemma ReceiveVmNowFine(st: State, x: int, c: nat, ep: int, except: bool, vm: int)
    requires Inv(st) && Fine(st, x) && IsSlot(st, c) && ANY_VM <= vm < NR_VMS && !st.proc[c].rts.receiving
    requires st.proc[c].rts.sending ==> st.proc[c].replyPending
    ensures Fine(ReceiveVmNow(st, c, ep, except, vm).0, x)
  {
    hide CallersOk, ReadyOk, FindPending, FirstAcceptableVm, TakeSenderVm, TakePending, SlotFine;
    var p := st.proc[c];
    forall s: nat | s < NR_SYS_PROCS
      ensures Fine(TakePending(st, p.priv, s), x)
    {
      TakePendingFine(st, x, p.priv, s);
    }
    var k := FirstAcceptableVm(st, c, ep, except, vm, 0);
    if k < |st.cq[c]| { TakeSenderVmFine(st, x, c, k); }
    WaitVmFine(st, x, c, ep, except, vm);
  }

  lemma WaitVmFine(st: State, x: int, c: nat, ep: int, except: bool, vm: int)
    requires Inv(st) && Fine(st, x) && IsSlot(st, c) && (st.proc[c].rts.sending ==> st.proc[c].replyPending)
    ensures Fine(WaitVm(st, c, ep, except, vm), x)
  {
    hide CallersOk, ReadyOk;
    var p := st.proc[c];
    var p' := p.(rts := p.rts.(receiving := true), getfrom := ep, recvVm := vm, vmidPending := true, notGetfrom := except);
    BlockTame(st, c, p');
    TameFine(st, Block(st, c, p'), x);
  }

  lemma MhNtfyVmFine(st: State, x: int, c: nat, n: int, vm: int)
    requires Fine(st, x) && IsSlot(st, c) && IsOkProcN(n) && 0 <= vm < NR_VMS
    ensures Fine(MhNtfyVm(st, c, n, vm).0, x)
  {
    var d := Addr(vm, n);
    var i, s := st.proc[d].priv, st.priv[st.proc[c].priv].sid;
    TakePendingFine(st, x, i, s);
    DeliverFine(CountDirect(st, i, s), x, d, false);
    if !BlockedForAny(st.proc[d]) { AddPendingFine(st, x, d, s); }
  }

  lemma RelayToFine(st: State, x: int, c: nat, dst: nat, ep: int, s: nat)
    requires Fine(st, x) && IsSlot(st, c) && IsSlot(st, dst) && IsSlot(st, s)
    requires PureReceiving(st.proc[s]) && st.proc[s].replyPending
    ensures Fine(RelayTo(st, c, dst, ep, s).0, x)
  {
    var caller, to := st.proc[c], st.proc[dst];
    if PureReceiving(to) && to.vmidPending && AdmitsVm(to, caller, false) {
      PutFine(st, x, s, st.proc[s].(getfrom := to.ep));
      DeliverFine(Put(st, s, st.proc[s].(getfrom := to.ep)), x, dst, true);
    } else if PureReceiving(to) && !to.vmidPending && Admits(to, caller) {
      RelayDeliverFine(st, x, c, dst, s);
    } else {
      HangForFine(st, x, s, dst, ep);
      NotifyProxyFine(HangFor(st, s, dst, ep), x, st.priv[to.priv].sid);
    }
  }

  lemma HangForFine(st: State, x: int, s: nat, dst: nat, ep: int)
    requires Fine(st, x) && IsSlot(st, dst) && IsSlot(st, s) && st.proc[s].replyPending
    ensures Fine(HangFor(st, s, dst, ep), x)
  {
    var p := st.proc[s].(rts := st.proc[s].rts.(sending := true), sendto := ep);
    PutFine(st, x, s, p);
    assert Tame(Put(st, s, p), HangFor(st, s, dst, ep));
    TameFine(Put(st, s, p), HangFor(st, s, dst, ep), x);
  }

  lemma RelayDeliverFine(st: State, x: int, c: nat, dst: nat, s: nat)
    requires Fine(st, x) && IsSlot(st, c) && IsSlot(st, dst) && IsSlot(st, s) && st.proc[s].replyPending
    ensures var went := Inherit(st, dst, st.proc[c].vm);
            var waits := Put(went, s, went.proc[s].(getfrom := st.proc[dst].ep));
            var got := waits.proc[dst];
            Fine(Wake(waits, dst, got.(rts := got.rts.(receiving := false), getfrom := NONE, replyPending := false, recvVm := ANY_VM)), x)
  {
    InheritFine(st, x, dst, st.proc[c].vm);
    var went := Inherit(st, dst, st.proc[c].vm);
    PutFine(went, x, s, went.proc[s].(getfrom := st.proc[dst].ep));
    var waits := Put(went, s, went.proc[s].(getfrom := st.proc[dst].ep));
    var got := waits.proc[dst];
    var done := got.(rts := got.rts.(receiving := false), getfrom := NONE, replyPending := false, recvVm := ANY_VM);
    WakeTame(waits, dst, done);
    TameFine(waits, Wake(waits, dst, done), x);
  }

  lemma MhRelayFine(st: State, x: int, c: nat, ep: int, src: int)
    requires Fine(st, x) && IsSlot(st, c)
    ensures Fine(MhRelay(st, c, ep, src).0, x)
  {
    var r := ResolveRelay(st, c, ep, src);
    if r.To? { RelayToFine(st, x, c, r.dst, ep, r.dstX); }
  }

  // ---------------------------------------------------------------- sys_call

  /** What the sending half leaves: the caller runs on or is SENDING, and still awaits a reply if it did. */
  ghost predicate Continues(st: State, c: nat, reply: bool)
    requires WF(st) && IsSlot(st, c)
  {
    && CanReceive(st, c) && !st.proc[c].rts.receiving && st.proc[c].replyPending == reply
    && (st.proc[c].rts.Zero() || st.proc[c].rts.sending)
  }

  /** Nothing but the VM that SYSTASK works for has changed. */
  predicate Left(p: Proc, p': Proc) {
    p' == p.(vm := p'.vm)
  }

  lemma DeliverLeaves(st: State, d: nat, misc: bool, c: nat)
    requires WF(st) && IsSlot(st, d) && IsSlot(st, c) && c != d
    ensures Deliver(st, d, misc).proc[c] == st.proc[c]
  {
  }

  lemma InheritLeaves(st: State, d: nat, vm: nat, c: nat)
    requires WF(st) && IsSlot(st, d) && IsSlot(st, c) && vm < NR_VMS
    ensures Left(st.proc[c], Inherit(st, d, vm).proc[c])
  {
  }

  /** Only a process that waits to receive is changed by a delivery. */
  lemma OfferMessageLeaves(st: State, y: nat, dst: nat, dstX: nat, c: nat)
    requires WF(st) && IsSlot(st, y) && IsSlot(st, dst) && IsSlot(st, dstX) && IsSlot(st, c) && !PureReceiving(st.proc[c])
    requires OfferMessage(st, y, dst, dstX).Taken?
    ensures Left(st.proc[c], OfferMessage(st, y, dst, dstX).st.proc[c])
  {
    InheritLeaves(st, dst, st.proc[y].vm, c);
    DeliverLeaves(st, dst, true, c);
    DeliverLeaves(Inherit(st, dst, st.proc[y].vm), dst, true, c);
  }

  lemma OfferNotifyLeaves(st: State, y: nat, dst: nat, dstX: nat, c: nat)
    requires WF(st) && IsSlot(st, y) && IsSlot(st, dst) && IsSlot(st, dstX) && IsSlot(st, c) && !PureReceiving(st.proc[c])
    requires OfferNotify(st, y, dst, dstX).Taken?
    ensures Left(st.proc[c], OfferNotify(st, y, dst, dstX).st.proc[c])
  {
    if !st.proc[dst].vmidPending {
      InheritLeaves(st, dst, st.proc[y].vm, c);
      DeliverLeaves(CountDirect(Inherit(st, dst, st.proc[y].vm), st.proc[dst].priv, st.priv[st.proc[y].priv].sid), dst, false, c);
    }
  }

  lemma NotifyProxyLeaves(st: State, s: nat, c: nat)
    requires WF(st) && IsSlot(st, c) && !PureReceiving(st.proc[c])
    ensures Left(st.proc[c], NotifyProxy(st, s).0.proc[c])
  {
    hide OfferNotify;
    var px := Addr(VM0, EndpointP(st.vmm[st.running]));
    if OfferNotify(st.(running := VM0), Addr(VM0, HARDWARE), px, px).Taken? {
      OfferNotifyLeaves(st.(running := VM0), Addr(VM0, HARDWARE), px, px, c);
    }
  }

  lemma BlockedSender(st: State, c: nat, d: nat, ep: int)
    requires WF(st) && IsSlot(st, c) && IsSlot(st, d) && st.proc[c].rts.Zero()
    ensures var p := BlockSending(st, c, d, ep).proc[c];
            p.rts == RUNNABLE.(sending := true) && p.replyPending == st.proc[c].replyPending && p.kind == st.proc[c].kind
  {
  }

  lemma MhSendContinues(st: State, c: nat, ep: int, direct: bool)
    requires Inv(st) && IsSlot(st, c) && st.proc[c].rts.Zero()
    ensures var r := MhSend(st, c, ep, direct); r.1 == Ok ==> Continues(r.0, c, st.proc[c].replyPending)
  {
    hide SendTo;
    assert Flags(st.proc, st.cq, st.orphans, c);
    var r := ResolveSend(st, c, ep, direct);
    if r.To? { SendToContinues(st, c, r.dst, r.dstX, ep); }
  }

  lemma SendToContinues(st: State, c: nat, dst: nat, dstX: nat, ep: int)
    requires WF(st) && IsSlot(st, c) && IsSlot(st, dst) && IsSlot(st, dstX) && st.proc[c].rts.Zero() && st.proc[c].kind == Real
    ensures var r := SendTo(st, c, dst, dstX, ep); r.1 == Ok ==> Continues(r.0, c, st.proc[c].replyPending)
  {
    hide NotifyProxy, OfferMessage;
    if OfferMessage(st, c, dst, dstX).Taken? {
      OfferMessageLeaves(st, c, dst, dstX, c);
    } else {
      BlockedSender(st, c, dst, ep);
      NotifyProxyLeaves(BlockSending(st, c, dst, ep), st.priv[st.proc[dst].priv].sid, c);
    }
  }

  lemma MhSendVmContinues(st: State, c: nat, ep: int, vm: int)
    requires Inv(st) && IsSlot(st, c) && st.proc[c].rts.Zero() && 0 <= vm < NR_VMS
    ensures var r := MhSendVm(st, c, ep, vm); r.1 == Ok ==> Continues(r.0, c, st.proc[c].replyPending)
  {
    assert Flags(st.proc, st.cq, st.orphans, c);
    var p := st.proc[c].(vmidPending := st.proc[c].vmidPending || st.proc[c].replyPending);
    if IsOkEndpt(st, vm, ep) { SendVmToContinues(Put(st, c, p), c, Addr(vm, EndpointP(ep)), ep, vm); }
  }

  lemma SendVmToContinues(st: State, c: nat, d: nat, ep: int, vm: int)
    requires WF(st) && IsSlot(st, c) && IsSlot(st, d) && 0 <= vm < NR_VMS && st.proc[c].rts.Zero() && st.proc[c].kind == Real
    ensures Continues(SendVmTo(st, c, d, ep, vm).0, c, st.proc[c].replyPending)
  {
    BlockedSender(st, c, d, ep);
    if d != c { DeliverLeaves(st, d, false, c); }
  }

  lemma ReceiveVmFine(st: State, x: int, c: nat, src: int, vm: int)
    requires Inv(st) && Fine(st, x) && IsSlot(st, c) && ANY_VM <= vm < NR_VMS
    requires Continues(st, c, true) || (Continues(st, c, false) && st.proc[c].rts.Zero())
    ensures Fine(ReceiveVm(st, c, src, vm).0, x)
  {
    var p := st.proc[c].(vmidPending := true);
    PutKeeps(st, c, p);
    PutFine(st, x, c, p);
    MhReceiveFine(Put(st, c, p), x, c, src);
    MhRecvVmFine(st, x, c, src, vm);
  }

  lemma SendRecFine(st: State, x: int, c: nat, ep: int, direct: bool)
    requires Inv(st) && Fine(st, x) && IsSlot(st, c) && st.proc[c].rts.Zero() && st.proc[c].replyPending
    ensures Fine(SendRec(st, c, ep, direct).0, x)
  {
    MhSendFine(st, x, c, ep, direct);
    MhSendKeeps(st, c, ep, direct);
    MhSendContinues(st, c, ep, direct);
    var sent := MhSend(st, c, ep, direct);
    if sent.1 == Ok { MhReceiveFine(sent.0, x, c, ep); }
  }

  lemma SendVmFine(st: State, x: int, c: nat, ep: int, vm: int, direct: bool)
    requires Inv(st) && Fine(st, x) && IsSlot(st, c) && st.proc[c].rts.Zero() && 0 <= vm < NR_VMS
    ensures var sent := SendVm(st, c, ep, vm, direct);
            Fine(sent.0, x) && (sent.1 == Ok ==> Inv(sent.0) && Continues(sent.0, c, st.proc[c].replyPending))
  {
    SendVmKeeps(st, c, ep, vm, direct);
    if st.proc[c].vm == vm {
      MhSendFine(st, x, c, ep, direct);
      MhSendContinues(st, c, ep, direct);
    } else {
      MhSendVmFine(st, x, c, ep, vm);
      MhSendVmContinues(st, c, ep, vm);
    }
  }

  lemma StartFine(st: State, x: int, c: nat, fn: int)
    requires Inv(st) && Fine(st, x) && IsSlot(st, c) && st.proc[c].rts.Zero()
    ensures Inv(Start(st, c, fn)) && Fine(Start(st, c, fn), x)
  {
    assert Flags(st.proc, st.cq, st.orphans, c);
    var p := st.proc[c].(rts := RUNNABLE, replyPending := fn == SENDREC || fn == SENDRECVM, vmidPending := false);
    PutKeeps(st, c, p);
    PutFine(st, x, c, p);
  }

  /** Main result: no call of a running process makes or leaves a process blocked in RECEIVE(ANY) with a
      notification pending for it. */
  lemma CallFine(st0: State, x: int, c: nat, fn: int, srcDst: int, arg: int, redirected: bool)
    requires Inv(st0) && Fine(st0, x) && IsSlot(st0, c) && st0.proc[c].rts.Zero()
    ensures Fine(Call(st0, c, fn, srcDst, arg, redirected).0, x)
  {
    if fn != HDEBUG && fn != PRTMSG && Check(st0, c, fn, srcDst, arg) == Ok {
      StartFine(st0, x, c, fn);
      DispatchFine(Start(st0, c, fn), x, c, fn, srcDst, arg, redirected);
    }
  }

  lemma DispatchFine(st: State, x: int, c: nat, fn: int, srcDst: int, arg: int, redirected: bool)
    requires Inv(st) && Fine(st, x) && IsSlot(st, c) && st.proc[c].rts.Zero() && SEND <= fn <= RELAY
    requires st.proc[c].replyPending == (fn == SENDREC || fn == SENDRECVM)
    requires fn == SENDAS || fn == RECVAS || fn == NOTIFYAS ==> 0 <= st.proc[c].proxy < NR_VMS
    requires SENDVM <= fn <= NOTIFYVM ==> (if fn == RECVVM then ANY_VM else VM0) <= arg < NR_VMS
    ensures Fine(Dispatch(st, c, fn, srcDst, arg, redirected).0, x)
  {
    assert Flags(st.proc, st.cq, st.orphans, c);
    var n := Named(fn, srcDst);
    if fn == SENDREC {
      SendRecFine(st, x, c, srcDst, !redirected);
    } else if fn == SENDVM || fn == SENDRECVM {
      SendVmFine(st, x, c, srcDst, arg, !redirected);
      var sent := SendVm(st, c, srcDst, arg, !redirected);
      if fn == SENDRECVM && sent.1 == Ok { ReceiveVmFine(sent.0, x, c, srcDst, arg); }
    } else if fn == SEND {
      MhSendFine(st, x, c, srcDst, !redirected);
    } else if fn == RECEIVE {
      MhReceiveFine(st, x, c, srcDst);
    } else if fn == RECVVM {
      ReceiveVmFine(st, x, c, srcDst, arg);
    } else {
      OtherCallFine(st, x, c, fn, srcDst, arg, redirected);
    }
  }

  lemma OtherCallFine(st: State, x: int, c: nat, fn: int, srcDst: int, arg: int, redirected: bool)
    requires Fine(st, x) && IsSlot(st, c) && SEND <= fn <= RELAY
    requires fn !in {SEND, RECEIVE, SENDREC, SENDVM, RECVVM, SENDRECVM}
    requires fn == SENDAS || fn == RECVAS || fn == NOTIFYAS ==> 0 <= st.proc[c].proxy < NR_VMS
    requires fn == NOTIFYVM ==> VM0 <= arg < NR_VMS
    ensures Fine(Dispatch(st, c, fn, srcDst, arg, redirected).0, x)
  {
    var n := Named(fn, srcDst);
    if fn == RELAY {
      MhRelayFine(st, x, c, srcDst, arg);
    } else if fn == SENDAS {
      MhSendAsFine(st, x, c, srcDst, arg);
    } else if fn == RECVAS {
      MhRecvAsFine(st, x, c, srcDst, arg);
    } else if IsOkProcN(n) {
      if fn == NOTIFYAS { MhNtfyAsFine(st, x, c, n, arg); }
      if fn == NOTIFY || fn == NOTIFYVM { MhNotifyFine(st, x, c, n); }
      if fn == NOTIFYVM { MhNtfyVmFine(st, x, c, n, arg); }
    }
  }
}
