/** Counted notifications: nothing is lost or delivered twice, and a receiver that blocks for anyone has
    nothing pending. */
module Notifications {
  import opened Ipc
  import opened SysCall

  /** For source id s: sent == delivered + counted, and the bit is set iff the count is positive. */
  predicate Balanced(v: Priv, s: nat) {
    && |v.pend| == |v.cnt| == |v.calls| == |v.dels| == NR_SYS_PROCS
    && (s < NR_SYS_PROCS ==> v.cnt[s] < 256 && v.calls[s] == v.dels[s] + v.cnt[s] && (v.pend[s] <==> v.cnt[s] > 0))
  }

  ghost predicate Books(priv: seq<Priv>) {
    forall i, s: nat :: 0 <= i < |priv| ==> Balanced(priv[i], s)
  }

  ghost predicate Counted(st: State) {
    WF(st) && Books(st.priv)
  }

  /** No pair of destination and source has 255 notifications pending. */
  ghost predicate Roomy(priv: seq<Priv>) {
    forall i, s: nat :: 0 <= i < |priv| && s < |priv[i].cnt| ==> priv[i].cnt[s] < 255
  }

  ghost predicate Room(st: State) {
    WF(st) && Roomy(st.priv)
  }

  /** s_ntfy_cnt is one byte: one more pending notification keeps the books of its pair iff the byte does
      not wrap to 0. */
  lemma AddPendingExactly(st: State, i: nat, s: nat)
    requires Counted(st) && i < |st.priv| && s < NR_SYS_PROCS
    ensures Counted(AddPending(st, i, s)) <==> st.priv[i].cnt[s] < 255
  {
    var after := AddPending(st, i, s);
    assert Balanced(st.priv[i], s);
    if st.priv[i].cnt[s] < 255 {
      forall j, t: nat | 0 <= j < |after.priv|
        ensures Balanced(after.priv[j], t)
      {
        assert Balanced(st.priv[j], t);
      }
    } else {
      assert !Balanced(after.priv[i], s);
    }
  }

  lemma TakePendingCounted(st: State, i: nat, s: nat)
    requires Counted(st) && i < |st.priv| && s < NR_SYS_PROCS && st.priv[i].pend[s]
    ensures Counted(TakePending(st, i, s))
  {
    var after := TakePending(st, i, s);
    forall j, t: nat | 0 <= j < |after.priv|
      ensures Balanced(after.priv[j], t)
    {
      assert Balanced(st.priv[j], t);
    }
  }

  lemma CountDirectCounted(st: State, i: nat, s: nat)
    requires Counted(st) && i < |st.priv| && s < NR_SYS_PROCS
    ensures Counted(CountDirect(st, i, s))
  {
    var after := CountDirect(st, i, s);
    forall j, t: nat | 0 <= j < |after.priv|
      ensures Balanced(after.priv[j], t)
    {
      assert Balanced(st.priv[j], t);
    }
  }

  lemma NotifyPlainCounted(st: State, c: nat, d: nat)
    requires Counted(st) && Room(st) && IsSlot(st, c) && IsSlot(st, d)
    ensures Counted(NotifyPlain(st, c, d).0)
  {
    OfferNotifyCounted(st, c, d, d);
    AddPendingExactly(st, st.proc[d].priv, st.priv[st.proc[c].priv].sid);
  }

  lemma OfferNotifyCounted(st: State, c: nat, dst: nat, dstX: nat)
    requires Counted(st) && IsSlot(st, c) && IsSlot(st, dst) && IsSlot(st, dstX)
    ensures OfferNotify(st, c, dst, dstX).Taken? ==> Counted(OfferNotify(st, c, dst, dstX).st)
  {
    var s := st.priv[st.proc[c].priv].sid;
    CountDirectCounted(st, st.proc[dst].priv, s);
    CountDirectCounted(Inherit(st, dst, st.proc[c].vm), st.proc[dst].priv, s);
  }

  lemma NotifyProxyCounted(st: State, s: nat)
    requires Counted(st) && Room(st)
    ensures Counted(NotifyProxy(st, s).0)
  {
    var px := Addr(VM0, EndpointP(st.vmm[st.running]));
    NotifyPlainCounted(st.(running := VM0), Addr(VM0, HARDWARE), px);
  }

  lemma MhSendCounted(st: State, c: nat, ep: int, direct: bool)
    requires Counted(st) && Room(st) && IsSlot(st, c)
    ensures Counted(MhSend(st, c, ep, direct).0)
  {
    var r := ResolveSend(st, c, ep, direct);
    if r.To? { SendToCounted(st, c, r.dst, r.dstX, ep); }
  }

  lemma SendToCounted(st: State, c: nat, dst: nat, dstX: nat, ep: int)
    requires Counted(st) && Room(st) && IsSlot(st, c) && IsSlot(st, dst) && IsSlot(st, dstX)
    ensures Counted(SendTo(st, c, dst, dstX, ep).0)
  {
    NotifyProxyCounted(BlockSending(st, c, dst, ep), st.priv[st.proc[dst].priv].sid);
  }

  lemma MhReceiveCounted(st0: State, c: nat, src: int)
    requires Counted(st0) && IsSlot(st0, c)
    ensures Counted(MhReceive(st0, c, src).0)
  {
    var st := Home(st0, c, src);
    var i := st.proc[c].priv;
    var pending := FindPending(st.priv[i].pend, st.idNr[st.running], WantOf(src), 0);
    if pending.Some? { TakePendingCounted(st, i, pending.value); }
  }

  lemma MhNotifyCounted(st: State, c: nat, n: int)
    requires Counted(st) && Room(st) && IsSlot(st, c) && IsOkProcN(n)
    ensures Counted(MhNotify(st, c, n).0)
  {
    hide OfferNotify, NotifyLater, NotifyPlain, RouteTo, HomeOf;
    var d := Addr(st.running, n);
    NotifyPlainCounted(st, c, d);
    var r := RouteTo(st, c, d, HomeOf(st, d), false);
    if r.To? {
      OfferNotifyCounted(st, c, r.dst, r.dstX);
      NotifyLaterCounted(st, c, d, r.dst);
    }
  }

  lemma NotifyLaterCounted(st: State, c: nat, d: nat, dst: nat)
    requires Counted(st) && Room(st) && IsSlot(st, c) && IsSlot(st, d) && IsSlot(st, dst)
    ensures Counted(NotifyLater(st, c, d, dst).0)
  {
    hide NotifyProxy;
    AddPendingExactly(st, st.proc[dst].priv, st.priv[st.proc[c].priv].sid);
    var px := Addr(VM0, EndpointP(st.vmm[st.running]));
    NotifyProxyCounted(BlockNotifying(st, c, d, st.proc[d].ep), st.priv[st.proc[px].priv].sid);
  }

  lemma MhRecvAsCounted(st: State, c: nat, src: int, n: int)
    requires Counted(st) && IsSlot(st, c) && 0 <= st.proc[c].proxy < NR_VMS
    ensures Counted(MhRecvAs(st, c, src, n).0)
  {
    if n == SYSTEM || IsOkProcN(n) {
      var i := st.proc[Emulated(st.proc[c].proxy, n, n == SYSTEM)].priv;
      var pending := FindPending(st.priv[i].pend, st.idNr[st.running], WantOf(src), 0);
      if pending.Some? { TakePendingCounted(st, i, pending.value); }
    }
  }

  lemma MhNtfyAsCounted(st: State, c: nat, n: int, src: int)
    requires Counted(st) && Room(st) && IsSlot(st, c) && 0 <= st.proc[c].proxy < NR_VMS && IsOkProcN(n)
    ensures Counted(MhNtfyAs(st, c, n, src).0)
  {
    if IsOkProcN(src) {
      var i, s := st.proc[Addr(st.proc[c].proxy, n)].priv, st.priv[st.proc[Addr(st.proc[c].proxy, src)].priv].sid;
      AddPendingExactly(st, i, s);
      CountDirectCounted(st, i, s);
    }
  }

  lemma MhRecvVmCounted(st0: State, c: nat, src: int, vm: int)
    requires Counted(st0) && IsSlot(st0, c) && ANY_VM <= vm < NR_VMS
    ensures Counted(MhRecvVm(st0, c, src, vm).0)
  {
    hide FindPending, FirstAcceptableVm, TakePending;
    var st := Put(st0, c, st0.proc[c].(vmidPending := false, notGetfrom := false));
    forall s: nat | s < NR_SYS_PROCS && st.priv[st.proc[c].priv].pend[s]
      ensures Counted(TakePending(st, st.proc[c].priv, s))
    {
      TakePendingCounted(st, st.proc[c].priv, s);
    }
  }

  lemma MhNtfyVmCounted(st: State, c: nat, n: int, vm: int)
    requires Counted(st) && Room(st) && IsSlot(st, c) && IsOkProcN(n) && 0 <= vm < NR_VMS
    ensures Counted(MhNtfyVm(st, c, n, vm).0)
  {
    var i, s := st.proc[Addr(vm, n)].priv, st.priv[st.proc[c].priv].sid;
    AddPendingExactly(st, i, s);
    CountDirectCounted(st, i, s);
  }

  lemma MhRelayCounted(st: State, c: nat, ep: int, src: int)
    requires Counted(st) && Room(st) && IsSlot(st, c)
    ensures Counted(MhRelay(st, c, ep, src).0)
  {
    var r := ResolveRelay(st, c, ep, src);
    if r.To? { RelayToCounted(st, c, r.dst, ep, r.dstX); }
  }

  lemma RelayToCounted(st: State, c: nat, dst: nat, ep: int, s: nat)
    requires Counted(st) && Room(st) && IsSlot(st, c) && IsSlot(st, dst) && IsSlot(st, s)
    ensures Counted(RelayTo(st, c, dst, ep, s).0)
  {
    NotifyProxyCounted(HangFor(st, s, dst, ep), st.priv[st.proc[dst].priv].sid);
  }

  lemma ReceiveVmCounted(st: State, c: nat, src: int, vm: int)
    requires Counted(st) && IsSlot(st, c) && ANY_VM <= vm < NR_VMS
    ensures Counted(ReceiveVm(st, c, src, vm).0)
  {
    MhReceiveCounted(Put(st, c, st.proc[c].(vmidPending := true)), c, src);
    MhRecvVmCounted(st, c, src, vm);
  }

  lemma SendVmCounted(st: State, c: nat, ep: int, vm: int, direct: bool)
    requires Counted(st) && Room(st) && IsSlot(st, c) && 0 <= vm < NR_VMS
    ensures Counted(SendVm(st, c, ep, vm, direct).0)
  {
    MhSendCounted(st, c, ep, direct);
  }

  lemma SendRecCounted(st: State, c: nat, ep: int, direct: bool)
    requires Counted(st) && Room(st) && IsSlot(st, c)
    ensures Counted(SendRec(st, c, ep, direct).0)
  {
    MhSendCounted(st, c, ep, direct);
    MhReceiveCounted(MhSend(st, c, ep, direct).0, c, ep);
  }

  /** Main result: whatever is called, every pair's notifications sent equal those delivered plus those
      counted, and the pending bit says whether there are any. */
  lemma CallCounted(st0: State, c: nat, fn: int, srcDst: int, arg: int, redirected: bool)
    requires Counted(st0) && Room(st0) && IsSlot(st0, c)
    ensures Counted(Call(st0, c, fn, srcDst, arg, redirected).0)
  {
    hide MhSend, MhReceive, MhRelay, MhNotify, MhRecvAs, MhNtfyAs, MhNtfyVm, SendVm, ReceiveVm, SendRec;
    if fn != HDEBUG && fn != PRTMSG && Check(st0, c, fn, srcDst, arg) == Ok {
      var st := Start(st0, c, fn);
      var n := Named(fn, srcDst);
      if fn == SEND || fn == SENDREC {
        MhSendCounted(st, c, srcDst, !redirected);
        SendRecCounted(st, c, srcDst, !redirected);
      } else if fn == SENDVM || fn == SENDRECVM {
        SendVmCounted(st, c, srcDst, arg, !redirected);
        ReceiveVmCounted(SendVm(st, c, srcDst, arg, !redirected).0, c, srcDst, arg);
      } else if fn == RECEIVE {
        MhReceiveCounted(st, c, srcDst);
      } else if fn == RELAY {
        MhRelayCounted(st, c, srcDst, arg);
      } else if fn == RECVAS {
        MhRecvAsCounted(st, c, srcDst, arg);
      } else if fn == RECVVM {
        ReceiveVmCounted(st, c, srcDst, arg);
      } else if IsOkProcN(n) {
        if fn == NOTIFYAS { MhNtfyAsCounted(st, c, n, arg); }
        if fn == NOTIFY || fn == NOTIFYVM { MhNotifyCounted(st, c, n); }
        if fn == NOTIFYVM { MhNtfyVmCounted(st, c, n, arg); }
      }
    }
  }

  // ---------------------------------------------------------------- which pending notification a receive finds

  lemma {:induction false} LowestBitStops(pend: seq<bool>, lo: nat, hi: nat, s: nat)
    requires lo <= s < hi <= |pend| && pend[s]
    ensures LowestBit(pend, lo, hi) <= s
    decreases hi - lo
  {
    if lo < s && !pend[lo] {
      LowestBitStops(pend, lo + 1, hi, s);
    }
  }

  /** A receive from anyone never overlooks a pending notification. */
  lemma {:induction false} AnyoneFindsAll(pend: seq<bool>, ids: seq<int>, chunk: nat, s: nat)
    requires |pend| == |ids| == NR_SYS_PROCS && chunk * BITCHUNK_BITS <= s < NR_SYS_PROCS && pend[s]
    ensures FindPending(pend, ids, Anyone, chunk).Some?
    decreases NR_SYS_CHUNKS - chunk
  {
    var hi := (chunk + 1) * BITCHUNK_BITS;
    if s < hi {
      LowestBitStops(pend, chunk * BITCHUNK_BITS, hi, s);
    } else {
      AnyoneFindsAll(pend, ids, chunk + 1, s);
    }
  }

  /** The lowest pending bit of its chunk. */
  predicate LowestInChunk(pend: seq<bool>, s: nat)
    requires |pend| == NR_SYS_PROCS && s < NR_SYS_PROCS
  {
    pend[s] && forall i :: s / BITCHUNK_BITS * BITCHUNK_BITS <= i < s ==> !pend[i]
  }

  lemma {:induction false} FindPendingLowest(pend: seq<bool>, ids: seq<int>, want: Want, chunk: nat)
    requires |pend| == |ids| == NR_SYS_PROCS && chunk <= NR_SYS_CHUNKS
    ensures FindPending(pend, ids, want, chunk).Some?
            <==> exists s :: chunk * BITCHUNK_BITS <= s < NR_SYS_PROCS && want.Matches(ids[s]) && LowestInChunk(pend, s)
    decreases NR_SYS_CHUNKS - chunk
  {
    if chunk < NR_SYS_CHUNKS {
      var lo, hi := chunk * BITCHUNK_BITS, (chunk + 1) * BITCHUNK_BITS;
      var low := LowestBit(pend, lo, hi);
      FindPendingLowest(pend, ids, want, chunk + 1);
      assert low < hi ==> low / BITCHUNK_BITS == chunk && LowestInChunk(pend, low);
      forall s | lo <= s < hi && LowestInChunk(pend, s)
        ensures s == low
      {
        LowestBitStops(pend, lo, hi, s);
        assert s / BITCHUNK_BITS == chunk;
      }
    }
  }

  /** A receive from one source n finds its notification iff the bit of a source id of n is the lowest one
      pending in its chunk.  This is what the code does; a pending notification behind a lower bit of the
      same chunk stays undelivered. */
  lemma SpecificReceiveExactly(st: State, c: nat, src: int)
    requires WF(st) && IsSlot(st, c) && src != ANY
    ensures var pend, ids := st.priv[st.proc[c].priv].pend, st.idNr[st.running];
            FindPending(pend, ids, WantOf(src), 0).Some?
            <==> exists s :: 0 <= s < NR_SYS_PROCS && ids[s] == EndpointP(src) && LowestInChunk(pend, s)
  {
    var pend, ids := st.priv[st.proc[c].priv].pend, st.idNr[st.running];
    FindPendingLowest(pend, ids, WantOf(src), 0);
    assert forall s :: 0 <= s < NR_SYS_PROCS ==> (WantOf(src).Matches(ids[s]) <==> ids[s] == EndpointP(src));
  }

  /** Source 5 is pending, but so is source 3 of the same chunk: a receive from process 55 finds nothing. */
  lemma SpecificReceiveOverlooks()
    ensures var pend, ids := seq(NR_SYS_PROCS, i => i == 3 || i == 5), seq(NR_SYS_PROCS, i => 50 + i);
            pend[5] && ids[5] == 55 && FindPending(pend, ids, Only(55), 0) == None
  {
    var pend, ids := seq(NR_SYS_PROCS, i => i == 3 || i == 5), seq(NR_SYS_PROCS, i => 50 + i);
    FindPendingLowest(pend, ids, Only(55), 0);
    forall s | 0 <= s < NR_SYS_PROCS && ids[s] == 55
      ensures !LowestInChunk(pend, s)
    {
      assert s == 5 && s / BITCHUNK_BITS * BITCHUNK_BITS == 0 && pend[3];
    }
  }
}
