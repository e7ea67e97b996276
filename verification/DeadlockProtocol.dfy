/** What deadlock() is for: callers that consult it before every blocking step never close a cycle of waiting
    processes.  For SEND, RECEIVE, SENDREC and NOTIFY among the processes of one VM. */
module DeadlockProtocol {
  import opened Ipc
  import opened IpcInvariants
  import opened SysCall
  import opened Rendezvous
  import opened Deadlock

  /** The process that p waits for in VM v, as deadlock() reads it off the descriptor. */
  function Wait(p: Proc, v: nat): (r: Option<nat>)
    requires v < NR_VMS
    ensures r.Some? ==> r.value < NR_VMS * SLOTS
  {
    var e := if p.rts.receiving then p.getfrom else p.sendto;
    if (p.rts.receiving && p.getfrom != ANY) || (!p.rts.receiving && p.rts.sending) then
      if IsOkProcN(EndpointP(e)) then Some(Addr(v, EndpointP(e))) else None
    else None
  }

  function WaitOf(proc: seq<Proc>, v: nat, x: int): Option<nat>
    requires v < NR_VMS && 0 <= x < |proc|
  {
    if Member(v, x) then Wait(proc[x], v) else None
  }

  /** The wait-for relation of VM v. */
  ghost function Relation(proc: seq<Proc>, v: nat): (w: Waits)
    requires v < NR_VMS && |proc| == NR_VMS * SLOTS
    ensures |w| == |proc| && InRange(w)
    ensures forall x :: 0 <= x < |proc| ==> w[x] == WaitOf(proc, v, x)
  {
    seq(|proc|, x requires 0 <= x < |proc| => WaitOf(proc, v, x))
  }

  ghost function Senders(proc: seq<Proc>): (s: seq<bool>)
    ensures |s| == |proc| && forall x :: 0 <= x < |proc| ==> s[x] == proc[x].rts.sending
  {
    seq(|proc|, x requires 0 <= x < |proc| => proc[x].rts.sending)
  }

  predicate OwnEndpoint(proc: seq<Proc>, v: nat, e: int)
    requires v < NR_VMS && |proc| == NR_VMS * SLOTS
  {
    IsOkProcN(EndpointP(e)) && proc[Addr(v, EndpointP(e))].ep == e
  }

  /** Whoever x waits for, x names it by the endpoint it has. */
  predicate Exact(proc: seq<Proc>, v: nat, x: int)
    requires v < NR_VMS && 0 <= x < |proc| == NR_VMS * SLOTS
  {
    var p := proc[x];
    && (p.rts.receiving && p.getfrom != ANY ==> OwnEndpoint(proc, v, p.getfrom))
    && (p.rts.sending ==> OwnEndpoint(proc, v, p.sendto))
  }

  ghost predicate AllExact(proc: seq<Proc>, v: nat)
    requires v < NR_VMS && |proc| == NR_VMS * SLOTS
  {
    forall x :: Member(v, x) ==> Exact(proc, v, x)
  }

  /** No process waits, through any number of others, for itself. */
  ghost predicate DeadlockFree(st: State, v: nat)
    requires v < NR_VMS
  {
    NoMissedRendezvous(st, v) && AllExact(st.proc, v) && Acyclic(Relation(st.proc, v))
  }

  /** The caller has asked deadlock() first and does not name itself; it names a process by the endpoint
      that process has (isokendpt_vm sees to that for all but the kernel tasks). */
  ghost predicate Consulted(st: State, v: nat, c: nat, fn: int, srcDst: int)
    requires v < NR_VMS && WF(st) && IsSlot(st, c)
  {
    var n := EndpointP(srcDst);
    fn != NOTIFY && srcDst != ANY && IsOkProcN(n) && IsOkEndpt(st, v, srcDst) ==>
      && OwnEndpoint(st.proc, v, srcDst)
      && Addr(v, n) != c
      && !Fatal(Relation(st.proc, v), Senders(st.proc), fn, c, Addr(v, n))
  }

  // ---------------------------------------------------------------- what a step does to the relation

  /** The change ends a wait or leaves it as it is. */
  predicate NoMore(p: Proc, p': Proc) {
    && p'.ep == p.ep
    && (p'.rts.receiving ==> p.rts.receiving && p'.getfrom == p.getfrom)
    && (p'.rts.sending ==> p.rts.sending && p'.sendto == p.sendto && p'.rts.receiving == p.rts.receiving)
  }

  predicate Idle(p: Proc) {
    !p.rts.receiving && !p.rts.sending
  }

  lemma NoMoreWaits(p: Proc, p': Proc, v: nat)
    requires v < NR_VMS && NoMore(p, p')
    ensures Wait(p', v) == Wait(p, v) || Wait(p', v) == None
    ensures Idle(p) ==> Wait(p, v) == None
  {
  }

  /** Apart from c nobody has started to wait. */
  ghost predicate Quieter(proc: seq<Proc>, after: seq<Proc>, c: int)
  {
    |after| == |proc| && forall x :: 0 <= x < |proc| && x != c ==> NoMoreAt(proc, after, x)
  }

  predicate NoMoreAt(proc: seq<Proc>, after: seq<Proc>, x: int)
    requires 0 <= x < |proc| == |after|
  {
    NoMore(proc[x], after[x])
  }

  lemma QuieterTrans(a: seq<Proc>, b: seq<Proc>, d: seq<Proc>, c: int)
    requires Quieter(a, b, c) && Quieter(b, d, c)
    ensures Quieter(a, d, c)
  {
    forall x | 0 <= x < |a| && x != c
      ensures NoMoreAt(a, d, x)
    {
      assert NoMoreAt(a, b, x) && NoMoreAt(b, d, x);
    }
  }

  /** The endpoint c now waits for, if any, is its process's own. */
  ghost predicate ExactAt(proc: seq<Proc>, after: seq<Proc>, v: nat, c: nat)
    requires v < NR_VMS && |proc| == |after| == NR_VMS * SLOTS && c < |proc|
  {
    after[c].ep == proc[c].ep && Exact(after, v, c)
  }

  lemma StillExact(proc: seq<Proc>, after: seq<Proc>, v: nat, c: nat)
    requires v < NR_VMS && |proc| == |after| == NR_VMS * SLOTS && c < |proc|
    requires AllExact(proc, v) && Quieter(proc, after, c) && ExactAt(proc, after, v, c)
    ensures AllExact(after, v)
  {
    forall x | Member(v, x)
      ensures Exact(after, v, x)
    {
      assert Exact(proc, v, x);
      if x != c { SameEndpoints(proc, after, v, c, x); }
    }
  }

  lemma SameEndpoints(proc: seq<Proc>, after: seq<Proc>, v: nat, c: nat, x: nat)
    requires v < NR_VMS && |proc| == |after| == NR_VMS * SLOTS && c < |proc| && x < |proc| && x != c
    requires Exact(proc, v, x) && Quieter(proc, after, c) && after[c].ep == proc[c].ep
    ensures Exact(after, v, x)
  {
    assert NoMoreAt(proc, after, x);
    if after[x].rts.receiving && after[x].getfrom != ANY {
      var y := Addr(v, EndpointP(after[x].getfrom));
      assert y != c ==> NoMoreAt(proc, after, y);
    }
    if after[x].rts.sending {
      var y := Addr(v, EndpointP(after[x].sendto));
      assert y != c ==> NoMoreAt(proc, after, y);
    }
  }

  lemma WalkInMore(w: Waits, less: Waits, p: seq<nat>)
    requires |less| == |w| && IsWalk(less, p)
    requires forall x :: 0 <= x < |w| ==> less[x] == w[x] || less[x] == None
    ensures IsWalk(w, p)
  {
    forall i | 0 <= i < |p| - 1
      ensures StepsTo(w, p, i)
    {
      assert StepsTo(less, p, i);
    }
  }

  lemma ChainSurvives(w: Waits, less: Waits, c: nat, t: nat)
    requires |less| == |w| && t < |w|
    requires forall x :: 0 <= x < |w| ==> less[x] == w[x] || less[x] == None
    ensures Closes(less, c, t) ==> Closes(w, c, t) && less[t] != None
  {
    if Closes(less, c, t) {
      var p :| Joins(less, p, t, c) && |p| >= 2;
      WalkInMore(w, less, p);
      assert StepsTo(less, p, 0) && Joins(w, p, t, c);
    }
  }

  /** The step at the heart of the protocol: c may come to wait for t if no chain led from t to c, or if the
      step has just ended t's own wait. */
  lemma StepKeepsAcyclic(w: Waits, w': Waits, c: nat, t: nat)
    requires Acyclic(w) && InRange(w) && |w'| == |w| && c < |w| && t < |w| && w[c] == None
    requires forall x :: 0 <= x < |w| && x != c ==> w'[x] == w[x] || w'[x] == None
    requires w'[c] == None || (w'[c] == Some(t) && t != c && (!Closes(w, c, t) || w'[t] == None))
    ensures Acyclic(w')
  {
    if w'[c] == None {
      FewerWaits(w, w');
    } else {
      var mid := w'[c := None];
      FewerWaits(w, mid);
      ChainSurvives(w, mid, c, t);
      NewWaitExactly(mid, c, t);
      assert mid[c := Some(t)] == w';
    }
  }

  // ---------------------------------------------------------------- the calls

  lemma WakeQuiet(st: State, d: nat, p: Proc, c: int)
    requires WF(st) && IsSlot(st, d) && ProcWF(p, |st.proc|, |st.priv|) && NoMore(st.proc[d], p)
    ensures var after := Wake(st, d, p); Quieter(st.proc, after.proc, c) && after.proc[d].rts == p.rts
  {
  }

  lemma DeliverQuiet(st: State, d: nat, misc: bool, c: int)
    requires WF(st) && IsSlot(st, d) && PureReceiving(st.proc[d])
    ensures var after := Deliver(st, d, misc); Quieter(st.proc, after.proc, c) && Idle(after.proc[d])
  {
    var p := st.proc[d];
    var got := p.(rts := p.rts.(receiving := false), getfrom := NONE);
    WakeQuiet(st, d, if misc then got.(vmidPending := false, notGetfrom := false, replyPending := false, recvVm := ANY_VM) else got, c);
  }

  lemma ReleaseQuiet(st: State, d: nat, k: nat, c: int)
    requires Inv(st) && IsSlot(st, d) && k < |st.cq[d]|
    ensures Quieter(st.proc, Release(st, d, k, Released(st.proc[st.cq[d][k]].rts)).proc, c)
  {
    var x := st.cq[d][k];
    ReleasedClears(st, d, k);
    WakeQuiet(st, x, st.proc[x].(rts := Released(st.proc[x].rts), sendto := NONE), c);
  }

  /** What a call may do to the waits: nobody but c starts to wait; c waits for nobody or for t, and then t had
      not been waiting for c in a way the call could have met. */
  ghost predicate Outcome(st: State, after: State, v: nat, c: nat, fn: int, srcDst: int)
    requires v < NR_VMS && WF(st) && WF(after) && IsSlot(st, c)
  {
    && Quieter(st.proc, after.proc, c)
    && after.proc[c].ep == st.proc[c].ep
    && (after.proc[c].rts.receiving || after.proc[c].rts.sending ==> Waited(st, after, v, c, fn, srcDst))
  }

  ghost predicate Waited(st: State, after: State, v: nat, c: nat, fn: int, srcDst: int)
    requires v < NR_VMS && WF(st) && WF(after) && IsSlot(st, c)
  {
    var p := after.proc[c];
    && (p.rts.receiving ==> p.getfrom == srcDst)
    && (p.rts.sending ==> p.sendto == srcDst && srcDst != ANY)
    && (srcDst != ANY ==> IsOkProcN(EndpointP(srcDst)) && IsOkEndpt(st, v, srcDst) && Unmet(st, after, v, c, fn, srcDst))
  }

  /** If the target was in the complementary wait for c, that wait is over. */
  predicate Unmet(st: State, after: State, v: nat, c: nat, fn: int, srcDst: int)
    requires v < NR_VMS && WF(st) && WF(after) && IsSlot(st, c) && IsOkProcN(EndpointP(srcDst))
  {
    var t := Addr(v, EndpointP(srcDst));
    WaitOf(st.proc, v, t) == Some(c) && st.proc[t].rts.sending != (fn % 2 == SEND_BIT) ==> Idle(after.proc[t])
  }

  /** A process purely receiving from c's slot by its exact endpoint wants c's message. */
  lemma MeetsSend(st: State, v: nat, c: nat, d: nat)
    requires v < NR_VMS && NoMissedRendezvous(st, v) && AllExact(st.proc, v) && Member(v, c) && Member(v, d)
    requires WaitOf(st.proc, v, d) == Some(c) && !st.proc[d].rts.sending
    ensures PureReceiving(st.proc[d]) && Wants(st.proc[d], st.proc[c])
  {
    assert Exact(st.proc, v, d) && SlotOk(st.proc, st.cq, v, c);
  }

  /** c has come to send to ep and waits for nothing else. */
  ghost predicate OnlySends(st: State, after: State, c: nat, ep: int)
    requires WF(st) && WF(after) && IsSlot(st, c)
  {
    var p, p' := st.proc[c], after.proc[c];
    Quieter(st.proc, after.proc, c) && p'.ep == p.ep && p'.rts.sending && p'.sendto == ep && !p'.rts.receiving
  }

  lemma BlockSendingWaits(st: State, c: nat, d: nat, ep: int)
    requires WF(st) && IsSlot(st, c) && IsSlot(st, d) && !st.proc[c].rts.receiving
    ensures OnlySends(st, BlockSending(st, c, d, ep), c, ep)
  {
  }

  lemma SendingOutcome(st: State, after: State, v: nat, c: nat, fn: int, ep: int)
    requires v < NR_VMS && WF(st) && WF(after) && Member(v, c) && OnlySends(st, after, c, ep)
    requires ep != ANY && IsOkProcN(EndpointP(ep)) && IsOkEndpt(st, v, ep) && Unmet(st, after, v, c, fn, ep)
    ensures Outcome(st, after, v, c, fn, ep)
  {
  }

  lemma SendUnmet(st: State, after: State, v: nat, c: nat, d: nat, fn: int, ep: int)
    requires v < NR_VMS && NoMissedRendezvous(st, v) && AllExact(st.proc, v) && Member(v, c) && Member(v, d) && WF(after)
    requires fn % 2 == SEND_BIT && IsOkProcN(EndpointP(ep)) && d == Addr(v, EndpointP(ep))
    requires PureReceiving(st.proc[d]) && Wants(st.proc[d], st.proc[c]) ==> Idle(after.proc[d])
    ensures Unmet(st, after, v, c, fn, ep)
  {
    if WaitOf(st.proc, v, d) == Some(c) && !st.proc[d].rts.sending { MeetsSend(st, v, c, d); }
  }

  /** The endpoint the caller names is that of another process of its VM. */
  ghost predicate Proper(st: State, v: nat, c: nat, ep: int)
    requires v < NR_VMS && WF(st)
  {
    IsOkProcN(EndpointP(ep)) && IsOkEndpt(st, v, ep) ==> OwnEndpoint(st.proc, v, ep) && Addr(v, EndpointP(ep)) != c
  }

  lemma SendWaits(st: State, v: nat, c: nat, fn: int, ep: int, direct: bool)
    requires v < NR_VMS && NoMissedRendezvous(st, v) && AllExact(st.proc, v) && Within(st, v, c, ep) && fn % 2 == SEND_BIT
    requires Proper(st, v, c, ep) && ep != ANY
    ensures Outcome(st, MhSend(st, c, ep, direct).0, v, c, fn, ep)
    ensures var r := MhSend(st, c, ep, direct);
            r.1 == Ok ==> IsOkProcN(EndpointP(ep)) && IsOkEndpt(st, v, ep) && Unmet(st, r.0, v, c, fn, ep)
  {
    SendOutcome(st, v, c, ep, direct);
    var after := MhSend(st, c, ep, direct);
    if after.1 == Ok {
      TargetIsMember(st, v, c, ep);
      var d := Addr(v, EndpointP(ep));
      if PureReceiving(st.proc[d]) && Wants(st.proc[d], st.proc[c]) {
        DeliverQuiet(st, d, true, c);
        DeliverElsewhere(st, d, true, c);
        QuietOutcome(st, after.0, v, c, fn, ep);
        SendUnmet(st, after.0, v, c, d, fn, ep);
      } else {
        BlockSendingWaits(st, c, d, ep);
        SendUnmet(st, after.0, v, c, d, fn, ep);
        SendingOutcome(st, after.0, v, c, fn, ep);
      }
    } else {
      SameOutcome(st, after.0, v, c, fn, ep);
    }
  }

  lemma DeliverElsewhere(st: State, d: nat, misc: bool, c: nat)
    requires WF(st) && IsSlot(st, d) && IsSlot(st, c) && d != c
    ensures Deliver(st, d, misc).proc[c] == st.proc[c]
  {
  }

  lemma BlockReceivingWaits(st: State, c: nat, src: int)
    requires WF(st) && IsSlot(st, c)
    ensures OnlyWaits(st, BlockReceiving(st, c, src), c, src)
  {
  }

  /** A receive from t blocks only if t is not sending to c. */
  lemma ReceiveMeets(st: State, v: nat, c: nat, src: int)
    requires v < NR_VMS && NoMissedRendezvous(st, v) && Member(v, c)
    requires src != ANY && OwnEndpoint(st.proc, v, src) && Member(v, Addr(v, EndpointP(src)))
    requires FirstAcceptable(st, c, src, 0) == |st.cq[c]|
    ensures var t := Addr(v, EndpointP(src)); WaitOf(st.proc, v, t) == Some(c) ==> !st.proc[t].rts.sending
  {
    var t := Addr(v, EndpointP(src));
    assert SlotOk(st.proc, st.cq, v, t) && SlotOk(st.proc, st.cq, v, c);
    forall k | 0 <= k < |st.cq[c]|
      ensures st.cq[c][k] != t
    {
      assert !Acceptable(st, c, src, st.cq[c][k]);
    }
  }

  /** Within one VM taking a sender is just releasing it. */
  lemma TakeIsRelease(st: State, v: nat, c: nat, k: nat)
    requires v < NR_VMS && NoMissedRendezvous(st, v) && Member(v, c) && k < |st.cq[c]|
    ensures TakeSender(st, c, k) == Release(st, c, k, Released(st.proc[st.cq[c][k]].rts))
  {
    assert SlotOk(st.proc, st.cq, v, c);
    assert SlotOk(st.proc, st.cq, v, st.cq[c][k]);
    InheritSame(st, v, c);
  }

  lemma TakeQuiet(st: State, v: nat, c: nat, k: nat)
    requires v < NR_VMS && NoMissedRendezvous(st, v) && Member(v, c) && st.proc[c].rts.Zero() && k < |st.cq[c]|
    ensures var after := Settle(TakeSender(st, c, k), c);
            Quieter(st.proc, after.proc, c) && after.proc[c].ep == st.proc[c].ep && Idle(after.proc[c])
  {
    hide CallersOk, ReadyOk, AllOk;
    TakeIsRelease(st, v, c, k);
    ReleaseQuiet(st, c, k, c);
    NotOwnCaller(st, c, k);
    var out := Release(st, c, k, Released(st.proc[st.cq[c][k]].rts));
    SettleQuiet(out, c);
    QuieterTrans(st.proc, out.proc, Settle(out, c).proc, c);
    ReleaseLeavesCaller(st, c, k);
  }

  lemma ReleaseLeavesCaller(st: State, c: nat, k: nat)
    requires WF(st) && IsSlot(st, c) && k < |st.cq[c]| && st.cq[c][k] != c
    ensures Release(st, c, k, Released(st.proc[st.cq[c][k]].rts)).proc[c] == st.proc[c]
  {
  }

  lemma SettleQuiet(st: State, c: nat)
    requires WF(st) && IsSlot(st, c)
    ensures var after := Settle(st, c);
            Quieter(st.proc, after.proc, c) && after.proc[c].ep == st.proc[c].ep && after.proc[c].rts == st.proc[c].rts
  {
  }

  lemma NotOwnCaller(st: State, c: nat, k: nat)
    requires Inv(st) && IsSlot(st, c) && st.proc[c].rts.Zero() && k < |st.cq[c]|
    ensures st.cq[c][k] != c
  {
    assert Flags(st.proc, st.cq, st.orphans, c) && st.cq[c][k] in st.cq[c];
  }

  /** A running member's receive takes what there is, or blocks; the processes see only the latter two. */
  lemma ReceiveOutcome(st: State, v: nat, c: nat, src: int)
    requires v < NR_VMS && NoMissedRendezvous(st, v) && Member(v, c) && st.proc[c].rts.Zero()
    ensures var after, k := MhReceive(st, c, src).0, FirstAcceptable(st, c, src, 0);
            || after.proc == st.proc
            || (k < |st.cq[c]| && after == Settle(TakeSender(st, c, k), c))
            || (k == |st.cq[c]| && (src != ANY ==> IsOkEndpt(st, v, src)) && after == BlockReceiving(st, c, src))
  {
    HomeSame(st, v, c, src);
  }

  lemma QuietSame(proc: seq<Proc>, c: int)
    ensures Quieter(proc, proc, c)
  {
  }

  lemma QuietOutcome(st: State, after: State, v: nat, c: nat, fn: int, src: int)
    requires v < NR_VMS && WF(st) && WF(after) && IsSlot(st, c)
    requires Quieter(st.proc, after.proc, c) && after.proc[c].ep == st.proc[c].ep && Idle(after.proc[c])
    ensures Outcome(st, after, v, c, fn, src)
  {
  }

  lemma SameOutcome(st: State, after: State, v: nat, c: nat, fn: int, src: int)
    requires v < NR_VMS && WF(st) && WF(after) && IsSlot(st, c) && after.proc == st.proc && Idle(st.proc[c])
    ensures Outcome(st, after, v, c, fn, src)
  {
    QuietSame(st.proc, c);
  }

  lemma ReceiveWaits(st: State, v: nat, c: nat, fn: int, src: int)
    requires v < NR_VMS && NoMissedRendezvous(st, v) && Within(st, v, c, src) && fn % 2 != SEND_BIT
    requires src != ANY && IsOkEndpt(st, v, src) && IsOkProcN(EndpointP(src)) ==> OwnEndpoint(st.proc, v, src)
    ensures Outcome(st, MhReceive(st, c, src).0, v, c, fn, src)
  {
    hide CallersOk, ReadyOk, AllOk, Outcome;
    ReceiveOutcome(st, v, c, src);
    var k, after := FirstAcceptable(st, c, src, 0), MhReceive(st, c, src).0;
    if after.proc == st.proc {
      SameOutcome(st, after, v, c, fn, src);
    } else if k < |st.cq[c]| {
      TakeQuiet(st, v, c, k);
      QuietOutcome(st, after, v, c, fn, src);
    } else {
      ReceiveBlocks(st, v, c, fn, src);
    }
  }

  /** c has come to wait for src, whoever that is, and for nobody else. */
  ghost predicate OnlyWaits(st: State, after: State, c: nat, src: int)
    requires WF(st) && WF(after) && IsSlot(st, c)
  {
    var p, p' := st.proc[c], after.proc[c];
    && Quieter(st.proc, after.proc, c) && p'.ep == p.ep
    && p'.rts.receiving && p'.getfrom == src && p'.rts.sending == p.rts.sending && p'.sendto == p.sendto
  }

  lemma WaitingOutcome(st: State, after: State, v: nat, c: nat, fn: int, src: int)
    requires v < NR_VMS && WF(st) && WF(after) && Member(v, c) && OnlyWaits(st, after, c, src) && !st.proc[c].rts.sending
    requires src != ANY ==> IsOkProcN(EndpointP(src)) && IsOkEndpt(st, v, src) && Unmet(st, after, v, c, fn, src)
    ensures Outcome(st, after, v, c, fn, src)
  {
  }

  lemma TargetIsMember(st: State, v: nat, c: nat, src: int)
    requires v < NR_VMS && WF(st) && Within(st, v, c, src) && src != ANY && IsOkEndpt(st, v, src)
    ensures IsOkProcN(EndpointP(src)) && Member(v, Addr(v, EndpointP(src)))
  {
  }

  lemma ReceiveUnmet(st: State, after: State, v: nat, c: nat, fn: int, src: int)
    requires v < NR_VMS && NoMissedRendezvous(st, v) && Within(st, v, c, src) && WF(after) && fn % 2 != SEND_BIT
    requires FirstAcceptable(st, c, src, 0) == |st.cq[c]| && src != ANY && OwnEndpoint(st.proc, v, src) && IsOkEndpt(st, v, src)
    ensures Unmet(st, after, v, c, fn, src)
  {
    TargetIsMember(st, v, c, src);
    ReceiveMeets(st, v, c, src);
  }

  lemma ReceiveBlocks(st: State, v: nat, c: nat, fn: int, src: int)
    requires v < NR_VMS && NoMissedRendezvous(st, v) && Within(st, v, c, src) && fn % 2 != SEND_BIT
    requires FirstAcceptable(st, c, src, 0) == |st.cq[c]| && (src != ANY ==> IsOkEndpt(st, v, src))
    requires src != ANY && IsOkProcN(EndpointP(src)) ==> OwnEndpoint(st.proc, v, src)
    ensures Outcome(st, BlockReceiving(st, c, src), v, c, fn, src)
  {
    hide ReadyOk, AllOk;
    var after := BlockReceiving(st, c, src);
    BlockReceivingWaits(st, c, src);
    if src != ANY {
      TargetIsMember(st, v, c, src);
      ReceiveUnmet(st, after, v, c, fn, src);
    }
    WaitingOutcome(st, after, v, c, fn, src);
  }

  /** The receiving half of SENDREC always blocks: the reply cannot have been sent yet. */
  lemma SendRecWaits(st: State, v: nat, c: nat, ep: int, direct: bool)
    requires v < NR_VMS && NoMissedRendezvous(st, v) && AllExact(st.proc, v) && Within(st, v, c, ep) && st.proc[c].replyPending
    requires Proper(st, v, c, ep) && ep != ANY
    ensures Outcome(st, SendRec(st, c, ep, direct).0, v, c, SENDREC, ep)
  {
    SendWaits(st, v, c, SENDREC, ep, direct);
    var sent := MhSend(st, c, ep, direct);
    if sent.1 == Ok {
      ReplyNotYet(st, v, c, ep, direct);
      if SendRec(st, c, ep, direct).0 == sent.0 {
      } else {
        BlockReceivingWaits(sent.0, c, ep);
        ThenWaits(st, sent.0, BlockReceiving(sent.0, c, ep), v, c, ep);
      }
    }
  }

  lemma ThenWaits(st: State, sent: State, after: State, v: nat, c: nat, ep: int)
    requires v < NR_VMS && WF(st) && WF(sent) && WF(after) && IsSlot(st, c) && Outcome(st, sent, v, c, SENDREC, ep)
    requires OnlyWaits(sent, after, c, ep)
    requires ep != ANY && IsOkProcN(EndpointP(ep)) && IsOkEndpt(st, v, ep) && Unmet(st, sent, v, c, SENDREC, ep)
    requires Addr(v, EndpointP(ep)) != c
    ensures Outcome(st, after, v, c, SENDREC, ep)
  {
    QuieterTrans(st.proc, sent.proc, after.proc, c);
    assert NoMoreAt(sent.proc, after.proc, Addr(v, EndpointP(ep)));
  }

  lemma ReplyNotYet(st: State, v: nat, c: nat, ep: int, direct: bool)
    requires v < NR_VMS && NoMissedRendezvous(st, v) && AllExact(st.proc, v) && Within(st, v, c, ep) && st.proc[c].replyPending
    requires MhSend(st, c, ep, direct).1 == Ok && Proper(st, v, c, ep) && ep != ANY
    ensures var sent := MhSend(st, c, ep, direct).0;
            SendRec(st, c, ep, direct).0 == sent || SendRec(st, c, ep, direct).0 == BlockReceiving(sent, c, ep)
  {
    hide MhSend;
    var sent := MhSend(st, c, ep, direct).0;
    SendOutcome(st, v, c, ep, direct);
    TargetIsMember(st, v, c, ep);
    MhSendOk(st, v, c, ep, direct);
    HomeSame(sent, v, c, ep);
    var d := Addr(v, EndpointP(ep));
    if PureReceiving(st.proc[d]) && Wants(st.proc[d], st.proc[c]) {
      DeliverElsewhere(st, d, true, c);
      NotQueued(st, v, c, d, ep);
    } else {
      BlockSendingWaits(st, c, d, ep);
    }
  }

  /** So a SENDREC that sends to a process ends with its caller RECEIVING from the endpoint it has sent to. */
  lemma SendRecBlocks(st: State, v: nat, c: nat, ep: int, direct: bool)
    requires v < NR_VMS && NoMissedRendezvous(st, v) && AllExact(st.proc, v) && Within(st, v, c, ep) && st.proc[c].replyPending
    requires MhSend(st, c, ep, direct).1 == Ok && Proper(st, v, c, ep) && ep != ANY
    requires IsOkProcN(EndpointP(ep)) && !st.proc[Addr(v, EndpointP(ep))].rts.slotFree
    ensures var p := SendRec(st, c, ep, direct).0.proc[c]; p.rts.receiving && p.getfrom == ep
  {
    hide MhSend, MhReceive, CallersOk, ReadyOk, AllOk, AllExact, Deliver, BlockSending, BlockReceiving, FirstAcceptable;
    var sent := MhSend(st, c, ep, direct).0;
    SendOutcome(st, v, c, ep, direct);
    TargetIsMember(st, v, c, ep);
    MhSendOk(st, v, c, ep, direct);
    HomeSame(sent, v, c, ep);
    var d := Addr(v, EndpointP(ep));
    StillThere(st, v, c, d, ep);
    if PureReceiving(st.proc[d]) && Wants(st.proc[d], st.proc[c]) {
      DeliverElsewhere(st, d, true, c);
      NotQueued(st, v, c, d, ep);
    }
    ReceiveWaitsOnly(sent, c, ep);
    BlockReceivingWaits(sent, c, ep);
  }

  lemma ReceiveWaitsOnly(st: State, c: nat, ep: int)
    requires WF(st) && IsSlot(st, c) && Home(st, c, ep) == st && ep != ANY
    requires IsOkEndpt(st, st.running, ep) && IsOkProcN(EndpointP(ep)) && !st.proc[Addr(st.running, EndpointP(ep))].rts.noEndpoint
    requires st.proc[c].rts.sending || (st.proc[c].replyPending && FirstAcceptable(st, c, ep, 0) == |st.cq[c]|)
    ensures MhReceive(st, c, ep) == (BlockReceiving(st, c, ep), Ok)
  {
    hide BlockReceiving, FirstAcceptable;
  }

  /** The destination is still there, and the caller is SENDING if it had to wait. */
  lemma StillThere(st: State, v: nat, c: nat, d: nat, ep: int)
    requires WF(st) && v == st.running && IsSlot(st, c) && IsSlot(st, d) && d != c
    requires IsOkProcN(EndpointP(ep)) && d == Addr(v, EndpointP(ep)) && IsOkEndpt(st, v, ep)
    requires !st.proc[d].rts.noEndpoint && !st.proc[d].rts.slotFree
    ensures var a, b := Deliver(st, d, true), BlockSending(st, c, d, ep);
            && a.running == b.running == v && IsOkEndpt(a, v, ep) && IsOkEndpt(b, v, ep)
            && !a.proc[d].rts.noEndpoint && !b.proc[d].rts.noEndpoint && b.proc[c].rts.sending
  {
  }

  /** The process that has just got c's message is not sending to c. */
  lemma NotQueued(st: State, v: nat, c: nat, d: nat, ep: int)
    requires v < NR_VMS && NoMissedRendezvous(st, v) && Member(v, c) && Member(v, d) && PureReceiving(st.proc[d]) && c != d
    requires ep != ANY && st.proc[d].ep == ep && NoMissedRendezvous(Deliver(st, d, true), v)
    ensures var sent := Deliver(st, d, true); FirstAcceptable(sent, c, ep, 0) == |sent.cq[c]|
  {
    hide ReadyOk;
    var sent := Deliver(st, d, true);
    DeliverElsewhere(st, d, true, c);
    assert SlotOk(st.proc, st.cq, v, c) && SlotOk(sent.proc, sent.cq, v, c);
    assert Flags(st.proc, st.cq, st.orphans, d) && SlotOk(sent.proc, sent.cq, v, d);
    forall k | 0 <= k < |sent.cq[c]|
      ensures !Acceptable(sent, c, ep, sent.cq[c][k])
    {
      assert sent.cq[c][k] in st.cq[c];
      assert SlotOk(sent.proc, sent.cq, v, sent.cq[c][k]);
    }
  }

  lemma NotifyWaits(st: State, v: nat, c: nat, n: int)
    requires v < NR_VMS && NoMissedRendezvous(st, v) && Member(v, c) && st.proc[c].rts.Zero()
    requires IsOkProcN(n) && (v == VM0 || n >= 0)
    ensures Outcome(st, MhNotify(st, c, n).0, v, c, NOTIFY, ANY)
  {
    NotifyOutcome(st, v, c, n);
    var d, after := Addr(v, n), MhNotify(st, c, n).0;
    if after.proc == st.proc {
      SameOutcome(st, after, v, c, NOTIFY, ANY);
    } else {
      var direct := CountDirect(st, st.proc[d].priv, st.priv[st.proc[c].priv].sid);
      DeliverQuiet(direct, d, false, c);
      DeliverElsewhere(direct, d, false, c);
      QuietOutcome(st, after, v, c, NOTIFY, ANY);
    }
  }

  /** Within one VM a notification wakes its destination or leaves the process table as it is. */
  lemma OutcomeKeeps(st: State, after: State, v: nat, c: nat, fn: int, srcDst: int)
    requires v < NR_VMS && DeadlockFree(st, v) && Member(v, c) && st.proc[c].rts.Zero() && WF(after)
    requires fn != NOTIFY ==> Consulted(st, v, c, fn, srcDst)
    requires fn == NOTIFY ==> srcDst == ANY
    requires Outcome(st, after, v, c, fn, srcDst)
    ensures AllExact(after.proc, v) && Acyclic(Relation(after.proc, v))
  {
    hide CallersOk, ReadyOk, AllOk, Acyclic;
    var w, w' := Relation(st.proc, v), Relation(after.proc, v);
    forall x | 0 <= x < |w| && x != c
      ensures w'[x] == w[x] || w'[x] == None
    {
      assert NoMoreAt(st.proc, after.proc, x);
      NoMoreWaits(st.proc[x], after.proc[x], v);
    }
    if srcDst != ANY && (after.proc[c].rts.receiving || after.proc[c].rts.sending) {
      var t := Addr(v, EndpointP(srcDst));
      assert NoMoreAt(st.proc, after.proc, t);
      StillExact(st.proc, after.proc, v, c);
      StepKeepsAcyclic(w, w', c, t);
    } else {
      StillExact(st.proc, after.proc, v, c);
      FewerWaits(w, w');
    }
  }

  /** The flags that sys_call resets have nothing to do with waiting. */
  ghost predicate SameWaits(proc: seq<Proc>, after: seq<Proc>) {
    |after| == |proc| && forall x :: 0 <= x < |proc| ==> SameWait(proc[x], after[x])
  }

  predicate SameWait(p: Proc, p': Proc) {
    && p'.ep == p.ep && p'.rts.sending == p.rts.sending && p'.rts.receiving == p.rts.receiving
    && p'.getfrom == p.getfrom && p'.sendto == p.sendto
  }

  ghost predicate AllRtsSame(proc: seq<Proc>, after: seq<Proc>) {
    |after| == |proc| && forall x :: 0 <= x < |proc| ==> SameRts(proc[x], after[x])
  }

  predicate SameRts(p: Proc, p': Proc) {
    p'.rts == p.rts
  }

  lemma SameRelation(proc: seq<Proc>, after: seq<Proc>, v: nat)
    requires v < NR_VMS && |proc| == NR_VMS * SLOTS && SameWaits(proc, after) && AllExact(proc, v)
    ensures Relation(after, v) == Relation(proc, v) && Senders(after) == Senders(proc) && AllExact(after, v)
  {
    forall x | Member(v, x)
      ensures Exact(after, v, x)
    {
      assert Exact(proc, v, x);
    }
    forall x | 0 <= x < |proc|
      ensures WaitOf(after, v, x) == WaitOf(proc, v, x)
    {
      assert SameWait(proc[x], after[x]);
    }
    assert Relation(after, v) == Relation(proc, v);
  }

  lemma StartOk(st: State, v: nat, c: nat, fn: int)
    requires v < NR_VMS && NoMissedRendezvous(st, v) && Member(v, c) && st.proc[c].rts.Zero() && Ordinary(fn)
    ensures var s := Start(st, c, fn);
            && NoMissedRendezvous(s, v) && SameWaits(st.proc, s.proc) && AllRtsSame(st.proc, s.proc) && s.proc[c].rts.Zero()
            && s.proc[c].replyPending == (fn == SENDREC)
  {
    var p := st.proc[c].(rts := RUNNABLE, replyPending := fn == SENDREC, vmidPending := false);
    assert Flags(st.proc, st.cq, st.orphans, c);
    CalmerOk(st.proc, st.cq, v, c, p);
    PutKeeps(st, c, p);
  }

  lemma StillConsulted(st: State, s: State, v: nat, c: nat, fn: int, srcDst: int)
    requires v < NR_VMS && WF(st) && WF(s) && IsSlot(st, c) && Consulted(st, v, c, fn, srcDst)
    requires SameWaits(st.proc, s.proc) && AllRtsSame(st.proc, s.proc)
    requires Relation(s.proc, v) == Relation(st.proc, v) && Senders(s.proc) == Senders(st.proc)
    ensures Consulted(s, v, c, fn, srcDst)
  {
    var n := EndpointP(srcDst);
    assert IsOkProcN(n) ==> SameWait(st.proc[Addr(v, n)], s.proc[Addr(v, n)]) && SameRts(st.proc[Addr(v, n)], s.proc[Addr(v, n)]);
  }

  /** Main result: a call whose caller has consulted deadlock() leaves the processes of its VM without a cycle
      of waits. */
  lemma CallKeepsDeadlockFree(st0: State, v: nat, c: nat, fn: int, srcDst: int, arg: int, redirected: bool)
    requires v < NR_VMS && WF(st0) && IsSlot(st0, c) && DeadlockFree(st0, v) && Within(st0, v, c, srcDst) && Ordinary(fn)
    requires Consulted(st0, v, c, fn, srcDst)
    ensures DeadlockFree(Call(st0, c, fn, srcDst, arg, redirected).0, v)
  {
    hide Dispatch, CallersOk, ReadyOk, AllOk, AllExact;
    CallOk(st0, v, c, fn, srcDst, arg, redirected);
    if Check(st0, c, fn, srcDst, arg) == Ok {
      var st := Start(st0, c, fn);
      StartOk(st0, v, c, fn);
      SameRelation(st0.proc, st.proc, v);
      StillConsulted(st0, st, v, c, fn, srcDst);
      DispatchKeepsDeadlockFree(st, v, c, fn, srcDst, arg, redirected);
    }
  }

  lemma DispatchKeepsDeadlockFree(st: State, v: nat, c: nat, fn: int, srcDst: int, arg: int, redirected: bool)
    requires v < NR_VMS && WF(st) && IsSlot(st, c) && DeadlockFree(st, v) && Within(st, v, c, srcDst) && Ordinary(fn)
    requires st.proc[c].replyPending == (fn == SENDREC) && Consulted(st, v, c, fn, srcDst)
    ensures var after := Dispatch(st, c, fn, srcDst, arg, redirected).0;
            AllExact(after.proc, v) && Acyclic(Relation(after.proc, v))
  {
    var after := Dispatch(st, c, fn, srcDst, arg, redirected).0;
    if fn == NOTIFY {
      var n := Named(fn, srcDst);
      if IsOkProcN(n) { NotifyKeepsDeadlockFree(st, v, c, n); }
    } else {
      if fn == RECEIVE {
        ReceiveWaits(st, v, c, fn, srcDst);
      } else if srcDst == ANY {
        NobodyIsAny(st, v, c, fn, arg, redirected);
      } else if fn == SEND {
        SendWaits(st, v, c, fn, srcDst, !redirected);
      } else {
        SendRecWaits(st, v, c, srcDst, !redirected);
      }
      OutcomeKeeps(st, after, v, c, fn, srcDst);
    }
  }

  /** A send to ANY fails: ANY is nobody's endpoint. */
  lemma NobodyIsAny(st: State, v: nat, c: nat, fn: int, arg: int, redirected: bool)
    requires v < NR_VMS && NoMissedRendezvous(st, v) && Member(v, c) && st.proc[c].rts.Zero() && (fn == SEND || fn == SENDREC)
    ensures Outcome(st, Dispatch(st, c, fn, ANY, arg, redirected).0, v, c, fn, ANY)
  {
    assert !IsOkEndpt(st, v, ANY);
    SameOutcome(st, st, v, c, fn, ANY);
  }

  lemma NotifyKeepsDeadlockFree(st: State, v: nat, c: nat, n: int)
    requires v < NR_VMS && DeadlockFree(st, v) && Member(v, c) && st.proc[c].rts.Zero()
    requires IsOkProcN(n) && (v == VM0 || n >= 0)
    ensures var after := MhNotify(st, c, n).0; AllExact(after.proc, v) && Acyclic(Relation(after.proc, v))
  {
    hide MhNotify, CallersOk, ReadyOk, AllOk, AllExact, Acyclic, Outcome;
    NotifyWaits(st, v, c, n);
    OutcomeKeeps(st, MhNotify(st, c, n).0, v, c, NOTIFY, ANY);
  }
}
