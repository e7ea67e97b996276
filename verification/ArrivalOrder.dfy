/** Caller queues are first come, first served: a call puts at most one process into a caller queue, at its
    end, and takes at most one out of one; nothing else moves. */
module ArrivalOrder {
  import opened Queues
  import opened Ipc
  import opened IpcInvariants
  import opened SysCall

  /** At most one process has joined a queue, at its end; it was in none. */
  ghost predicate Arrives(cq: seq<Queue>, after: seq<Queue>) {
    after == cq || exists d, x: nat :: 0 <= d < |cq| && !Occurs(cq, x) && after == Joined(cq, d, x)
  }

  /** At most one process has left a queue. */
  ghost predicate Leaves(cq: seq<Queue>, after: seq<Queue>) {
    after == cq || exists d, k :: 0 <= d < |cq| && 0 <= k < |cq[d]| && after == Left(cq, d, k)
  }

  function Joined(cq: seq<Queue>, d: nat, x: nat): seq<Queue>
    requires d < |cq|
  {
    cq[d := cq[d] + [x]]
  }

  function Left(cq: seq<Queue>, d: nat, k: nat): seq<Queue>
    requires d < |cq| && k < |cq[d]|
  {
    cq[d := RemoveAt(cq[d], k)]
  }

  ghost predicate Moves(cq: seq<Queue>, after: seq<Queue>) {
    exists mid :: Arrives(cq, mid) && Leaves(mid, after)
  }

  /** Whoever was ahead of another process in a queue still is, as long as both wait there. */
  ghost predicate Ahead(q: Queue, x: nat, y: nat) {
    exists i, j :: 0 <= i < j < |q| && q[i] == x && q[j] == y
  }

  lemma NotifyPlainStays(st: State, c: nat, d: nat)
    requires WF(st) && IsSlot(st, c) && IsSlot(st, d)
    ensures NotifyPlain(st, c, d).0.cq == st.cq
  {
  }

  lemma NotifyProxyStays(st: State, s: nat)
    requires WF(st)
    ensures NotifyProxy(st, s).0.cq == st.cq
  {
  }

  lemma BlockSendingArrives(st: State, c: nat, d: nat, ep: int)
    requires WF(st) && IsSlot(st, c) && !Occurs(st.cq, c) && IsSlot(st, d)
    ensures Arrives(st.cq, BlockSending(st, c, d, ep).cq)
  {
    assert BlockSending(st, c, d, ep).cq == Joined(st.cq, d, c);
  }

  lemma BlockNotifyingArrives(st: State, c: nat, d: nat, ep: int)
    requires WF(st) && IsSlot(st, c) && !Occurs(st.cq, c) && IsSlot(st, d)
    ensures Arrives(st.cq, BlockNotifying(st, c, d, ep).cq)
  {
    assert BlockNotifying(st, c, d, ep).cq == Joined(st.cq, d, c);
  }

  lemma ReleaseLeaves(st: State, d: nat, k: nat, rts: Rts)
    requires WF(st) && IsSlot(st, d) && k < |st.cq[d]|
    ensures Leaves(st.cq, Release(st, d, k, rts).cq)
  {
    assert Release(st, d, k, rts).cq == Left(st.cq, d, k);
  }

  lemma SendToArrives(st: State, c: nat, dst: nat, dstX: nat, ep: int)
    requires WF(st) && IsSlot(st, c) && !Occurs(st.cq, c) && IsSlot(st, dst) && IsSlot(st, dstX)
    ensures Arrives(st.cq, SendTo(st, c, dst, dstX, ep).0.cq)
  {
    BlockSendingArrives(st, c, dst, ep);
    NotifyProxyStays(BlockSending(st, c, dst, ep), st.priv[st.proc[dst].priv].sid);
  }

  lemma MhSendArrives(st: State, c: nat, ep: int, direct: bool)
    requires WF(st) && IsSlot(st, c) && !Occurs(st.cq, c)
    ensures Arrives(st.cq, MhSend(st, c, ep, direct).0.cq)
  {
    hide SendTo;
    var r := ResolveSend(st, c, ep, direct);
    if r.To? { SendToArrives(st, c, r.dst, r.dstX, ep); }
  }

  lemma SendVmArrives(st: State, c: nat, ep: int, vm: int, direct: bool)
    requires WF(st) && IsSlot(st, c) && !Occurs(st.cq, c) && 0 <= vm < NR_VMS
    ensures Arrives(st.cq, SendVm(st, c, ep, vm, direct).0.cq)
  {
    hide MhSend;
    if st.proc[c].vm == vm {
      MhSendArrives(st, c, ep, direct);
    } else if IsOkEndpt(st, vm, ep) {
      var p := st.proc[c].(vmidPending := st.proc[c].vmidPending || st.proc[c].replyPending);
      BlockSendingArrives(Put(st, c, p), c, Addr(vm, EndpointP(ep)), ep);
    }
  }

  lemma TakeSenderLeaves(st: State, c: nat, k: nat)
    requires WF(st) && IsSlot(st, c) && k < |st.cq[c]|
    ensures Leaves(st.cq, TakeSender(st, c, k).cq)
  {
    hide Release;
    var x := st.cq[c][k];
    var went := if st.proc[c].nr == SYSTEM then Inherit(st, c, st.proc[x].vm).(running := st.proc[x].vm) else st;
    ReleaseLeaves(went, c, k, Released(st.proc[x].rts));
  }

  lemma BlockStays(st: State, x: nat, p: Proc)
    requires WF(st) && IsSlot(st, x) && ProcWF(p, |st.proc|, |st.priv|)
    ensures Block(st, x, p).cq == st.cq
  {
  }

  lemma ReceiveNowLeaves(st: State, c: nat, src: int)
    requires WF(st) && IsSlot(st, c)
    ensures Leaves(st.cq, ReceiveNow(st, c, src).cq) && BlockReceiving(st, c, src).cq == st.cq
  {
    hide TakeSender, FindPending, Block, Byte;
    var p := st.proc[c];
    BlockStays(st, c, p.(rts := p.rts.(receiving := true), getfrom := src, recvVm := p.vm));
    var k := FirstAcceptable(st, c, src, 0);
    if k < |st.cq[c]| { TakeSenderLeaves(st, c, k); }
  }

  lemma MhReceiveLeaves(st0: State, c: nat, src: int)
    requires WF(st0) && IsSlot(st0, c)
    ensures Leaves(st0.cq, MhReceive(st0, c, src).0.cq)
  {
    hide ReceiveNow, BlockReceiving;
    ReceiveNowLeaves(Home(st0, c, src), c, src);
  }

  lemma ReceiveVmLeaves(st: State, c: nat, src: int, vm: int)
    requires WF(st) && IsSlot(st, c) && ANY_VM <= vm < NR_VMS
    ensures Leaves(st.cq, ReceiveVm(st, c, src, vm).0.cq)
  {
    hide MhReceive, MhRecvVm;
    MhReceiveLeaves(Put(st, c, st.proc[c].(vmidPending := true)), c, src);
    MhRecvVmLeaves(st, c, src, vm);
  }

  lemma MhRecvVmLeaves(st0: State, c: nat, src: int, vm: int)
    requires WF(st0) && IsSlot(st0, c) && ANY_VM <= vm < NR_VMS
    ensures Leaves(st0.cq, MhRecvVm(st0, c, src, vm).0.cq)
  {
    hide Release, Unhang;
    var st := Put(st0, c, st0.proc[c].(vmidPending := false, notGetfrom := false));
    forall k: nat, rts | k < |st.cq[c]|
      ensures Leaves(st.cq, Release(st, c, k, rts).cq)
    {
      ReleaseLeaves(st, c, k, rts);
    }
  }

  lemma MhRecvAsLeaves(st: State, c: nat, src: int, n: int)
    requires WF(st) && IsSlot(st, c) && 0 <= st.proc[c].proxy < NR_VMS
    ensures Leaves(st.cq, MhRecvAs(st, c, src, n).0.cq)
  {
    hide Release, Unhang;
    if n == SYSTEM || IsOkProcN(n) {
      var d := Emulated(st.proc[c].proxy, n, n == SYSTEM);
      var k := FirstFrom(st, d, src, 0);
      if k < |st.cq[d]| { ReleaseLeaves(st, d, k, st.proc[st.cq[d][k]].rts.(sending := false, notifying := false)); }
    }
  }

  lemma MhNotifyArrives(st: State, c: nat, n: int)
    requires WF(st) && IsSlot(st, c) && !Occurs(st.cq, c) && IsOkProcN(n)
    ensures Arrives(st.cq, MhNotify(st, c, n).0.cq)
  {
    hide NotifyLater, NotifyPlain;
    var d := Addr(st.running, n);
    NotifyPlainStays(st, c, d);
    var r := RouteTo(st, c, d, HomeOf(st, d), false);
    if r.To? { NotifyLaterArrives(st, c, d, r.dst); }
  }

  lemma NotifyLaterArrives(st: State, c: nat, d: nat, dst: nat)
    requires WF(st) && IsSlot(st, c) && !Occurs(st.cq, c) && IsSlot(st, d) && IsSlot(st, dst)
    ensures Arrives(st.cq, NotifyLater(st, c, d, dst).0.cq)
  {
    BlockNotifyingArrives(st, c, dst, st.proc[d].ep);
    BlockNotifyingArrives(st, c, d, st.proc[d].ep);
    var px := Addr(VM0, EndpointP(st.vmm[st.running]));
    NotifyProxyStays(BlockNotifying(st, c, d, st.proc[d].ep), st.priv[st.proc[px].priv].sid);
  }

  lemma MhRelayArrives(st: State, c: nat, ep: int, src: int)
    requires Inv(st) && IsSlot(st, c)
    ensures Arrives(st.cq, MhRelay(st, c, ep, src).0.cq)
  {
    hide RelayTo, CallersOk, ReadyOk;
    var r := ResolveRelay(st, c, ep, src);
    if r.To? { RelayToArrives(st, c, r.dst, ep, r.dstX); }
  }

  lemma RelayToArrives(st: State, c: nat, dst: nat, ep: int, s: nat)
    requires Inv(st) && IsSlot(st, c) && IsSlot(st, dst) && IsSlot(st, s) && PureReceiving(st.proc[s])
    ensures Arrives(st.cq, RelayTo(st, c, dst, ep, s).0.cq)
  {
    var hung := HangFor(st, s, dst, ep);
    assert Flags(st.proc, st.cq, st.orphans, s);
    assert hung.cq == Joined(st.cq, dst, s);
    NotifyProxyStays(hung, st.priv[st.proc[dst].priv].sid);
  }

  lemma JustArrives(cq: seq<Queue>, after: seq<Queue>)
    requires Arrives(cq, after)
    ensures Moves(cq, after)
  {
    assert Leaves(after, after);
  }

  lemma JustLeaves(cq: seq<Queue>, after: seq<Queue>)
    requires Leaves(cq, after)
    ensures Moves(cq, after)
  {
    assert Arrives(cq, cq);
  }

  /** No call does more to the caller queues than that. */
  lemma CallMoves(st0: State, c: nat, fn: int, srcDst: int, arg: int, redirected: bool)
    requires Inv(st0) && IsSlot(st0, c) && st0.proc[c].rts.Zero()
    ensures Moves(st0.cq, Call(st0, c, fn, srcDst, arg, redirected).0.cq)
  {
    hide Dispatch;
    if fn != HDEBUG && fn != PRTMSG && Check(st0, c, fn, srcDst, arg) == Ok {
      assert Flags(st0.proc, st0.cq, st0.orphans, c);
      PutKeeps(st0, c, st0.proc[c].(rts := RUNNABLE, replyPending := fn == SENDREC || fn == SENDRECVM, vmidPending := false));
      DispatchMoves(Start(st0, c, fn), c, fn, srcDst, arg, redirected);
    } else {
      JustArrives(st0.cq, st0.cq);
    }
  }

  lemma DispatchMoves(st: State, c: nat, fn: int, srcDst: int, arg: int, redirected: bool)
    requires Inv(st) && IsSlot(st, c) && !Occurs(st.cq, c) && SEND <= fn <= RELAY
    requires fn == SENDAS || fn == RECVAS || fn == NOTIFYAS ==> 0 <= st.proc[c].proxy < NR_VMS
    requires SENDVM <= fn <= NOTIFYVM ==> (if fn == RECVVM then ANY_VM else VM0) <= arg < NR_VMS
    ensures Moves(st.cq, Dispatch(st, c, fn, srcDst, arg, redirected).0.cq)
  {
    hide MhSend, MhReceive, MhNotify, MhRelay, MhSendAs, MhRecvAs, MhNtfyAs, MhNtfyVm, SendVm, ReceiveVm, Moves, CallersOk, ReadyOk;
    var n, after := Named(fn, srcDst), Dispatch(st, c, fn, srcDst, arg, redirected).0;
    if fn == SEND || fn == SENDREC {
      MhSendArrives(st, c, srcDst, !redirected);
      ThenReceives(st, MhSend(st, c, srcDst, !redirected).0, c, srcDst);
    } else if fn == SENDVM || fn == SENDRECVM {
      SendVmArrives(st, c, srcDst, arg, !redirected);
      ThenReceivesVm(st, SendVm(st, c, srcDst, arg, !redirected).0, c, srcDst, arg);
    } else if fn == RECEIVE {
      MhReceiveLeaves(st, c, srcDst);
      JustLeaves(st.cq, after.cq);
    } else if fn == RECVVM {
      ReceiveVmLeaves(st, c, srcDst, arg);
      JustLeaves(st.cq, after.cq);
    } else if fn == RECVAS {
      MhRecvAsLeaves(st, c, srcDst, arg);
      JustLeaves(st.cq, after.cq);
    } else {
      OthersArrive(st, c, fn, srcDst, arg);
      JustArrives(st.cq, after.cq);
    }
  }

  lemma OthersArrive(st: State, c: nat, fn: int, srcDst: int, arg: int)
    requires Inv(st) && IsSlot(st, c) && !Occurs(st.cq, c)
    requires fn == SENDAS || fn == NOTIFYAS ==> 0 <= st.proc[c].proxy < NR_VMS
    ensures fn == RELAY ==> Arrives(st.cq, MhRelay(st, c, srcDst, arg).0.cq)
    ensures fn == SENDAS ==> MhSendAs(st, c, srcDst, arg).0.cq == st.cq
    ensures IsOkProcN(Named(fn, srcDst)) ==> Arrives(st.cq, MhNotify(st, c, Named(fn, srcDst)).0.cq)
    ensures IsOkProcN(Named(fn, srcDst)) && fn == NOTIFYAS ==> MhNtfyAs(st, c, Named(fn, srcDst), arg).0.cq == st.cq
    ensures IsOkProcN(Named(fn, srcDst)) && 0 <= arg < NR_VMS ==> MhNtfyVm(st, c, Named(fn, srcDst), arg).0.cq == st.cq
  {
    hide MhRelay, MhNotify, CallersOk, ReadyOk;
    if fn == RELAY { MhRelayArrives(st, c, srcDst, arg); }
    if IsOkProcN(Named(fn, srcDst)) { MhNotifyArrives(st, c, Named(fn, srcDst)); }
  }

  lemma ThenReceives(st: State, sent: State, c: nat, src: int)
    requires WF(st) && WF(sent) && IsSlot(sent, c) && Arrives(st.cq, sent.cq)
    ensures Moves(st.cq, sent.cq) && Moves(st.cq, MhReceive(sent, c, src).0.cq)
  {
    hide MhReceive;
    JustArrives(st.cq, sent.cq);
    MhReceiveLeaves(sent, c, src);
  }

  lemma ThenReceivesVm(st: State, sent: State, c: nat, src: int, vm: int)
    requires WF(st) && WF(sent) && IsSlot(sent, c) && Arrives(st.cq, sent.cq)
    ensures Moves(st.cq, sent.cq) && (ANY_VM <= vm < NR_VMS ==> Moves(st.cq, ReceiveVm(sent, c, src, vm).0.cq))
  {
    hide ReceiveVm;
    JustArrives(st.cq, sent.cq);
    if ANY_VM <= vm < NR_VMS { ReceiveVmLeaves(sent, c, src, vm); }
  }

  lemma JoinKeepsOrder(cq: seq<Queue>, after: seq<Queue>, d: nat, x: nat, y: nat)
    requires Arrives(cq, after) && d < |cq|
    ensures |after| == |cq| && (Ahead(cq[d], x, y) ==> Ahead(after[d], x, y))
    ensures x in cq[d] && y !in cq[d] && y in after[d] ==> Ahead(after[d], x, y)
  {
    if Ahead(cq[d], x, y) {
      var i, j :| 0 <= i < j < |cq[d]| && cq[d][i] == x && cq[d][j] == y;
      assert after[d][i] == x && after[d][j] == y;
    }
    if x in cq[d] && y !in cq[d] && y in after[d] {
      var i :| 0 <= i < |cq[d]| && cq[d][i] == x;
      assert after[d][i] == x && after[d][|cq[d]|] == y;
    }
  }

  lemma LeaveKeepsOrder(cq: seq<Queue>, after: seq<Queue>, d: nat, x: nat, y: nat)
    requires Leaves(cq, after) && d < |cq| && Disjoint(cq) && Ahead(cq[d], x, y)
    ensures |after| == |cq| && (x in after[d] && y in after[d] ==> Ahead(after[d], x, y))
  {
    hide Disjoint;
    if after != cq {
      var e, k :| 0 <= e < |cq| && 0 <= k < |cq[e]| && after == Left(cq, e, k);
      if e == d && x in after[d] && y in after[d] {
        RemovedEverywhere(cq, d, k);
        assert x != cq[d][k] && y != cq[d][k];
        OneLess(cq[d], k, x, y);
      }
    }
  }

  lemma OneLess(q: Queue, k: nat, x: nat, y: nat)
    requires k < |q| && Ahead(q, x, y) && x != q[k] && y != q[k]
    ensures Ahead(RemoveAt(q, k), x, y)
  {
    var i, j :| 0 <= i < j < |q| && q[i] == x && q[j] == y;
    var r := RemoveAt(q, k);
    assert r[if i < k then i else i - 1] == x && r[if j < k then j else j - 1] == y;
  }

  /** Main result: two processes that wait for the same one are never overtaken by each other, and whoever
      comes to wait does so behind all those already there. */
  lemma FirstComeFirstServed(st: State, c: nat, fn: int, srcDst: int, arg: int, redirected: bool, d: nat, x: nat, y: nat)
    requires Inv(st) && IsSlot(st, c) && st.proc[c].rts.Zero() && d < |st.cq| && x in st.cq[d] && x != y
    requires y !in st.cq[d] || Ahead(st.cq[d], x, y)
    ensures var after := Call(st, c, fn, srcDst, arg, redirected).0.cq;
            d < |after| && (x in after[d] && y in after[d] ==> Ahead(after[d], x, y))
  {
    hide Call, ReadyOk, Arrives, Leaves, Ahead;
    CallMoves(st, c, fn, srcDst, arg, redirected);
    var after := Call(st, c, fn, srcDst, arg, redirected).0.cq;
    var mid :| Arrives(st.cq, mid) && Leaves(mid, after);
    MovesKeepOrder(st.cq, mid, after, d, x, y);
  }

  lemma MovesKeepOrder(cq: seq<Queue>, mid: seq<Queue>, after: seq<Queue>, d: nat, x: nat, y: nat)
    requires Arrives(cq, mid) && Leaves(mid, after) && d < |cq| && x in cq[d] && (y !in cq[d] || Ahead(cq[d], x, y))
    requires Disjoint(cq)
    ensures |after| == |cq| && (x in after[d] && y in after[d] ==> Ahead(after[d], x, y))
  {
    JoinKeepsOrder(cq, mid, d, x, y);
    if mid != cq {
      var e, z: nat :| 0 <= e < |cq| && !Occurs(cq, z) && mid == Joined(cq, e, z);
      AppendedEverywhere(cq, e, z);
    }
    if Ahead(mid[d], x, y) {
      LeaveKeepsOrder(mid, after, d, x, y);
    }
  }
}
