/** Whole runs: message passing, clock and process-death steps in any order. */
module Runs {
  import opened Queues
  import opened Ipc
  import opened IpcInvariants
  import opened IpcPrimitives
  import opened SysCall

  // ---------------------------------------------------------------- clear_endpoint()

  /** Notifications from the dead process are forgotten. */
  function Quiet(st: State, y: nat, s: nat): (r: State)
    requires WF(st) && IsSlot(st, y) && s < NR_SYS_PROCS
    ensures WF(r)
  {
    var v := st.priv[st.proc[y].priv];
    PutPriv(st, st.proc[y].priv, v.(pend := v.pend[s := false], cnt := v.cnt[s := 0]))
  }

  function StopReceiving(st: State, y: nat, ep: int): (r: State)
    requires WF(st) && IsSlot(st, y)
    ensures WF(r)
  {
    var p := st.proc[y];
    if p.rts.receiving && p.getfrom == ep then Wake(st, y, p.(rts := p.rts.(receiving := false))) else st
  }

  function StopSending(st: State, y: nat, ep: int): (r: State)
    requires WF(st) && IsSlot(st, y)
    ensures WF(r)
  {
    var p := st.proc[y];
    if p.rts.sending && p.sendto == ep
    then Wake(st.(orphans := st.orphans - {y}), y, p.(rts := p.rts.(sending := false)))
    else st
  }

  /** One turn of the loop over the process table. */
  function ReleaseOne(st: State, y: nat, ep: int, s: nat): (r: State)
    requires WF(st) && IsSlot(st, y) && s < NR_SYS_PROCS
    ensures WF(r)
  {
    if st.proc[y].rts.Empty() then st else StopSending(StopReceiving(Quiet(st, y, s), y, ep), y, ep)
  }

  function ReleaseAll(st: State, i: nat, hi: nat, ep: int, s: nat): (r: State)
    requires WF(st) && i <= hi <= |st.proc| && s < NR_SYS_PROCS
    ensures WF(r)
    decreases hi - i
  {
    if i == hi then st else ReleaseAll(ReleaseOne(st, i, ep, s), i + 1, hi, ep, s)
  }

  /** The dead process itself: off the ready queues, off the queue it waits in, no longer receiving. */
  function Bury(st: State, rc: nat): (r: State)
    requires WF(st) && IsSlot(st, rc) && IsOkProcN(EndpointP(st.proc[rc].sendto))
    ensures WF(r)
  {
    var p := st.proc[rc];
    var rts := p.rts.(noEndpoint := true, sending := false, receiving := false);
    var t := Addr(st.running, EndpointP(p.sendto));
    var q := Remove(st.cq[t], rc);
    RemoveBounded(st.cq[t], rc, |st.proc|);
    var left := if p.rts.sending then st.(cq := st.cq[t := q]) else st;
    Block(left, rc, p.(rts := rts, vmidPending := false, notGetfrom := false, recvVm := ANY_VM,
                       proxyServer := false, proxy := if p.proxyServer then VM0 else p.proxy))
  }

  /** The caller queue of the dead process, dropped. */
  function Cut(st: State, rc: nat): (r: State)
    requires WF(st) && IsSlot(st, rc)
    ensures WF(r)
  {
    st.(orphans := st.orphans + (set y | y in st.cq[rc]), cq := st.cq[rc := []])
  }

  /** clear_endpoint().  The slot cannot receive or be sent to until it is reused, so its own caller queue,
      which the kernel leaves as it is, is dropped here; whoever the loop does not release is an orphan. */
  function ClearEndpoint(st: State, rc: nat): (r: State)
    requires WF(st) && IsSlot(st, rc) && IsOkProcN(EndpointP(st.proc[rc].sendto))
    ensures WF(r)
  {
    ReleaseAll(Cut(Bury(st, rc), rc), st.running * SLOTS + NR_TASKS, (st.running + 1) * SLOTS, st.proc[rc].ep, st.priv[st.proc[rc].priv].sid)
  }

  /** What clear_endpoint takes for granted: the process it searches the queue for is there, and whoever
      in this VM is SENDING to this endpoint number waits for this very process. */
  ghost predicate CanClear(st: State, rc: nat)
    requires WF(st)
  {
    && IsSlot(st, rc) && st.proc[rc].kind == Real && !st.proc[rc].rts.Empty() && !st.proc[rc].rts.notifying
    && rc !in st.orphans
    && IsOkProcN(EndpointP(st.proc[rc].sendto))
    && (st.proc[rc].rts.sending ==> rc in st.cq[Addr(st.running, EndpointP(st.proc[rc].sendto))])
    && (forall y | st.running * SLOTS + NR_TASKS <= y < (st.running + 1) * SLOTS && y != rc ::
          st.proc[y].rts.sending && st.proc[y].sendto == st.proc[rc].ep ==> y in st.cq[rc] || y in st.orphans)
  }

  lemma CallersFree(proc: seq<Proc>, cq: seq<Queue>, o: set<nat>, x: nat, p: Proc)
    requires CallersOk(proc, cq, o) && x < |proc| && x in o && proc[x].kind == p.kind && p.nr == proc[x].nr
    requires !p.rts.sending && !p.rts.notifying && (p.rts.receiving ==> proc[x].rts.receiving)
    ensures CallersOk(proc[x := p], cq, o - {x})
  {
    assert Flags(proc, cq, o, x);
    var after, rest := proc[x := p], o - {x};
    forall y | 0 <= y < |after|
      ensures Flags(after, cq, rest, y)
    {
      assert Flags(proc, cq, o, y);
    }
  }

  /** The flags a waiter on endpoint ep keeps. */
  function Freed(p: Proc, ep: int): Rts {
    if p.rts.Empty() then p.rts
    else p.rts.(receiving := p.rts.receiving && p.getfrom != ep, sending := p.rts.sending && p.sendto != ep)
  }

  /** Nothing but descriptor y and its being an orphan has changed in the process table. */
  ghost predicate OnlyAt(st: State, r: State, y: nat) {
    && |r.proc| == |st.proc| && r.running == st.running && r.orphans - {y} == st.orphans - {y}
    && forall z :: 0 <= z < |st.proc| && z != y ==> r.proc[z] == st.proc[z]
  }

  lemma StopReceivingKeeps(st: State, y: nat, ep: int)
    requires Inv(st) && IsSlot(st, y)
    ensures var r := StopReceiving(st, y, ep);
            && Inv(r) && OnlyAt(st, r, y) && r.orphans == st.orphans && r.proc[y].sendto == st.proc[y].sendto
            && r.proc[y].rts == st.proc[y].rts.(receiving := st.proc[y].rts.receiving && st.proc[y].getfrom != ep)
  {
    assert Flags(st.proc, st.cq, st.orphans, y);
    var p := st.proc[y];
    if p.rts.receiving && p.getfrom == ep {
      WakeKeeps(st, y, p.(rts := p.rts.(receiving := false)));
    }
  }

  lemma StopSendingKeeps(st: State, y: nat, ep: int)
    requires Inv(st) && IsSlot(st, y) && (st.proc[y].rts.sending && st.proc[y].sendto == ep ==> y in st.orphans)
    ensures var r := StopSending(st, y, ep);
            && Inv(r) && OnlyAt(st, r, y)
            && r.proc[y].rts == st.proc[y].rts.(sending := st.proc[y].rts.sending && st.proc[y].sendto != ep)
  {
    var p := st.proc[y];
    if p.rts.sending && p.sendto == ep {
      assert Flags(st.proc, st.cq, st.orphans, y);
      var freed := p.(rts := p.rts.(sending := false));
      var alone := st.(orphans := st.orphans - {y});
      CallersFree(st.proc, st.cq, st.orphans, y, freed);
      ReadyWake(alone, y, freed);
      if freed.rts.Zero() { EnqueueCallers(Put(alone, y, freed), y); }
    }
  }

  lemma ReleaseOneKeeps(st: State, y: nat, ep: int, s: nat)
    requires Inv(st) && IsSlot(st, y) && s < NR_SYS_PROCS
    requires st.proc[y].rts.sending && st.proc[y].sendto == ep ==> y in st.orphans
    ensures var r := ReleaseOne(st, y, ep, s);
            Inv(r) && OnlyAt(st, r, y) && r.proc[y].rts == Freed(st.proc[y], ep)
  {
    if !st.proc[y].rts.Empty() {
      var quiet := Quiet(st, y, s);
      PrivKeeps(st, quiet);
      StopReceivingKeeps(quiet, y, ep);
      StopSendingKeeps(StopReceiving(quiet, y, ep), y, ep);
    }
  }

  lemma {:induction false} ReleaseAllKeeps(st: State, i: nat, hi: nat, ep: int, s: nat)
    requires Inv(st) && i <= hi <= |st.proc| && s < NR_SYS_PROCS
    requires forall y :: i <= y < hi && st.proc[y].rts.sending && st.proc[y].sendto == ep ==> y in st.orphans
    ensures var r := ReleaseAll(st, i, hi, ep, s);
            && Inv(r) && r.running == st.running
            && (forall z :: 0 <= z < |st.proc| ==>
                  r.proc[z].rts == if i <= z < hi then Freed(st.proc[z], ep) else st.proc[z].rts)
    decreases hi - i
  {
    if i < hi {
      ReleaseOneKeeps(st, i, ep, s);
      var r := ReleaseOne(st, i, ep, s);
      forall y | i + 1 <= y < hi && r.proc[y].rts.sending && r.proc[y].sendto == ep
        ensures y in r.orphans
      {
        assert y in st.orphans - {i};
      }
      ReleaseAllKeeps(ReleaseOne(st, i, ep, s), i + 1, hi, ep, s);
    }
  }

  lemma OthersStay(q: Queue, k: nat)
    requires k < |q|
    ensures forall z :: z in q && z != q[k] ==> z in RemoveAt(q, k)
  {
    forall z | z in q && z != q[k]
      ensures z in RemoveAt(q, k)
    {
      var i :| 0 <= i < |q| && q[i] == z;
      assert RemoveAt(q, k)[if i < k then i else i - 1] == z;
    }
  }

  lemma BuryKeeps(st: State, rc: nat)
    requires Inv(st) && CanClear(st, rc)
    ensures var r := Bury(st, rc);
            && Inv(r) && r.orphans == st.orphans && r.running == st.running
            && r.proc[rc].rts == st.proc[rc].rts.(noEndpoint := true, sending := false, receiving := false)
            && r.proc[rc].ep == st.proc[rc].ep
            && (forall z :: 0 <= z < |st.proc| && z != rc ==> r.proc[z] == st.proc[z])
            && (forall z :: z in st.cq[rc] && z != rc ==> z in r.cq[rc])
  {
    hide ReadyOk;
    var p := st.proc[rc];
    var rts := p.rts.(noEndpoint := true, sending := false, receiving := false);
    var p' := p.(rts := rts, vmidPending := false, notGetfrom := false, recvVm := ANY_VM,
                 proxyServer := false, proxy := if p.proxyServer then VM0 else p.proxy);
    assert Flags(st.proc, st.cq, st.orphans, rc);
    if p.rts.sending {
      var t := Addr(st.running, EndpointP(p.sendto));
      var k := PositionOf(st.cq[t], rc);
      RemoveIsRemoveAt(st.cq[t], rc, k);
      RemovedEverywhere(st.cq, t, k);
      OthersStay(st.cq[t], k);
      CallersUnhang(st.proc, st.cq, st.orphans, t, k, p');
      ReadyPut(st.proc, st.rq, rc, p');
    } else {
      BlockKeeps(st, rc, p');
    }
  }

  lemma CutKeeps(st: State, rc: nat)
    requires Inv(st) && IsSlot(st, rc)
    ensures Inv(Cut(st, rc))
  {
    var o, cq := st.orphans + (set y | y in st.cq[rc]), st.cq[rc := []];
    forall e, i, f, j
      ensures Apart(cq, e, i, f, j)
    {
      assert Apart(st.cq, e, i, f, j);
    }
    forall y | 0 <= y < |st.proc|
      ensures Flags(st.proc, cq, o, y)
    {
      assert Flags(st.proc, st.cq, st.orphans, y);
      if y in st.cq[rc] && Occurs(cq, y) {
        Twice(st.cq, cq, rc, y);
      }
      if Occurs(st.cq, y) && y !in st.cq[rc] {
        var e :| 0 <= e < |st.cq| && y in st.cq[e];
        assert y in cq[e];
      }
    }
  }

  /** A slot of queue d is in no other queue. */
  lemma Twice(qs: seq<Queue>, cut: seq<Queue>, d: nat, y: nat)
    requires Disjoint(qs) && d < |qs| && y in qs[d] && cut == qs[d := []]
    ensures !Occurs(cut, y)
  {
    var i :| 0 <= i < |qs[d]| && qs[d][i] == y;
    forall e, j | 0 <= e < |cut| && 0 <= j < |cut[e]|
      ensures cut[e][j] != y
    {
      assert Apart(qs, d, i, e, j);
    }
  }

  /** Whoever the loop finds SENDING to the dead process has been in its queue. */
  lemma NoneLeftOut(st: State, rc: nat)
    requires Inv(st) && CanClear(st, rc)
    ensures var cut := Cut(Bury(st, rc), rc);
            forall y | st.running * SLOTS + NR_TASKS <= y < (st.running + 1) * SLOTS ::
              cut.proc[y].rts.sending && cut.proc[y].sendto == st.proc[rc].ep ==> y in cut.orphans
  {
    hide CallersOk, ReadyOk, Bury;
    BuryKeeps(st, rc);
    var cut := Cut(Bury(st, rc), rc);
    forall y | st.running * SLOTS + NR_TASKS <= y < (st.running + 1) * SLOTS
               && cut.proc[y].rts.sending && cut.proc[y].sendto == st.proc[rc].ep
      ensures y in cut.orphans
    {
      assert y != rc && cut.proc[y] == st.proc[y];
    }
  }

  /** Main result for a death: both invariants survive, the dead slot is out of every queue, and exactly the
      processes of the running VM that wait for it lose the flags that made them wait, once each. */
  lemma ClearReleasesEachWaiter(st: State, rc: nat)
    requires Inv(st) && CanClear(st, rc)
    ensures var r := ClearEndpoint(st, rc);
            && Inv(r)
            && r.proc[rc].rts.noEndpoint && !r.proc[rc].rts.sending && !r.proc[rc].rts.receiving
            && (forall z :: 0 <= z < |st.proc| && z != rc ==>
                  r.proc[z].rts == if st.running * SLOTS + NR_TASKS <= z < (st.running + 1) * SLOTS
                                   then Freed(st.proc[z], st.proc[rc].ep) else st.proc[z].rts)
  {
    hide CallersOk, ReadyOk, Bury, ReleaseAll;
    BuryKeeps(st, rc);
    CutKeeps(Bury(st, rc), rc);
    var cut := Cut(Bury(st, rc), rc);
    var ep, s := st.proc[rc].ep, st.priv[st.proc[rc].priv].sid;
    NoneLeftOut(st, rc);
    ReleaseAllKeeps(cut, st.running * SLOTS + NR_TASKS, (st.running + 1) * SLOTS, ep, s);
  }

  /** What a death leaves as it is in every other descriptor. */
  predicate SameRole(p: Proc, q: Proc) {
    && p.priv == q.priv && p.ep == q.ep && p.kind == q.kind && p.getfrom == q.getfrom && p.sendto == q.sendto
    && p.proxyServer == q.proxyServer && p.proxy == q.proxy && p.vmidPending == q.vmidPending && p.notGetfrom == q.notGetfrom
    && p.recvVm == q.recvVm
  }

  /** Somebody in [i, hi) has privilege structure v. */
  ghost predicate Holder(st: State, v: nat, i: nat, hi: nat) {
    exists z :: i <= z < hi && z < |st.proc| && !st.proc[z].rts.Empty() && st.proc[z].priv == v
  }

  /** Notifications from source id s are forgotten for everyone in [i, hi), and no others. */
  ghost predicate Forgotten(st: State, r: State, i: nat, hi: nat, s: nat)
    requires WF(st) && s < NR_SYS_PROCS
  {
    && |r.priv| == |st.priv|
    && forall v :: 0 <= v < |st.priv| ==> r.priv[v] == if Holder(st, v, i, hi) then Silent(st.priv[v], s) else st.priv[v]
  }

  function Silent(v: Priv, s: nat): Priv
    requires PrivWF(v) && s < NR_SYS_PROCS
  {
    v.(pend := v.pend[s := false], cnt := v.cnt[s := 0])
  }

  /** Waking somebody is about the flags and the scheduling of one descriptor only. */
  lemma WakeOnly(st: State, y: nat, p: Proc)
    requires WF(st) && IsSlot(st, y) && ProcWF(p, |st.proc|, |st.priv|) && SameRole(p, st.proc[y])
    ensures var r := Wake(st, y, p);
            && r.priv == st.priv && |r.proc| == |st.proc| && SameRole(r.proc[y], st.proc[y])
            && forall z :: 0 <= z < |st.proc| && z != y ==> r.proc[z] == st.proc[z]
  {
  }

  lemma StopOnly(st: State, y: nat, ep: int)
    requires WF(st) && IsSlot(st, y)
    ensures var r := StopReceiving(st, y, ep);
            && r.priv == st.priv && |r.proc| == |st.proc| && SameRole(r.proc[y], st.proc[y])
            && forall z :: 0 <= z < |st.proc| && z != y ==> r.proc[z] == st.proc[z]
    ensures var r := StopSending(st, y, ep);
            && r.priv == st.priv && |r.proc| == |st.proc| && SameRole(r.proc[y], st.proc[y])
            && forall z :: 0 <= z < |st.proc| && z != y ==> r.proc[z] == st.proc[z]
  {
    hide Wake;
    var p := st.proc[y];
    WakeOnly(st, y, p.(rts := p.rts.(receiving := false)));
    WakeOnly(st.(orphans := st.orphans - {y}), y, p.(rts := p.rts.(sending := false)));
  }

  lemma ReleaseOneForgets(st: State, y: nat, ep: int, s: nat)
    requires WF(st) && IsSlot(st, y) && s < NR_SYS_PROCS
    ensures var r, i := ReleaseOne(st, y, ep, s), st.proc[y].priv;
            && r.priv == (if st.proc[y].rts.Empty() then st.priv else st.priv[i := Silent(st.priv[i], s)])
            && |r.proc| == |st.proc| && SameRole(r.proc[y], st.proc[y])
            && forall z :: 0 <= z < |st.proc| && z != y ==> r.proc[z] == st.proc[z]
  {
    hide StopSending, StopReceiving;
    if !st.proc[y].rts.Empty() {
      var quiet := Quiet(st, y, s);
      StopOnly(quiet, y, ep);
      StopOnly(StopReceiving(quiet, y, ep), y, ep);
    }
  }

  lemma {:induction false} ReleaseAllForgets(st: State, i: nat, hi: nat, ep: int, s: nat)
    requires WF(st) && i <= hi <= |st.proc| && s < NR_SYS_PROCS
    ensures var r := ReleaseAll(st, i, hi, ep, s);
            && Forgotten(st, r, i, hi, s) && |r.proc| == |st.proc|
            && forall z :: 0 <= z < |st.proc| ==> SameRole(r.proc[z], st.proc[z])
    decreases hi - i
  {
    hide ReleaseOne;
    if i < hi {
      ReleaseOneForgets(st, i, ep, s);
      var one := ReleaseOne(st, i, ep, s);
      ReleaseAllForgets(one, i + 1, hi, ep, s);
      var r := ReleaseAll(st, i, hi, ep, s);
      forall v | 0 <= v < |st.priv|
        ensures r.priv[v] == if Holder(st, v, i, hi) then Silent(st.priv[v], s) else st.priv[v]
      {
        OneMoreHolder(st, one, v, i, hi);
        SilentTwice(st.priv[v], s);
      }
    }
  }

  lemma SilentTwice(v: Priv, s: nat)
    requires PrivWF(v) && s < NR_SYS_PROCS
    ensures PrivWF(Silent(v, s)) && Silent(Silent(v, s), s) == Silent(v, s)
  {
  }

  lemma OneMoreHolder(st: State, r: State, v: nat, i: nat, hi: nat)
    requires |r.proc| == |st.proc| && i < hi <= |st.proc| && forall z :: 0 <= z < |st.proc| && z != i ==> r.proc[z] == st.proc[z]
    ensures Holder(st, v, i, hi) <==> (!st.proc[i].rts.Empty() && st.proc[i].priv == v) || Holder(r, v, i + 1, hi)
  {
    if Holder(st, v, i, hi) {
      var z :| i <= z < hi && z < |st.proc| && !st.proc[z].rts.Empty() && st.proc[z].priv == v;
      if z != i { assert r.proc[z] == st.proc[z]; }
    }
    if Holder(r, v, i + 1, hi) {
      var z :| i + 1 <= z < hi && z < |r.proc| && !r.proc[z].rts.Empty() && r.proc[z].priv == v;
      assert r.proc[z] == st.proc[z];
    }
  }

  /** What else a death does: notifications from the dead process are forgotten by everybody in its VM, and its slot is no
      proxy and has nothing of a message left. */
  lemma ClearForgets(st: State, rc: nat)
    requires WF(st) && IsSlot(st, rc) && IsOkProcN(EndpointP(st.proc[rc].sendto)) && !st.proc[rc].rts.Empty()
    ensures Cleaned(st, ClearEndpoint(st, rc), rc)
  {
    hide ReleaseAll, Cut, Bury;
    var cut, lo, hi := Cut(Bury(st, rc), rc), st.running * SLOTS + NR_TASKS, (st.running + 1) * SLOTS;
    BuriedHolds(st, rc);
    ReleaseAllForgets(cut, lo, hi, st.proc[rc].ep, st.priv[st.proc[rc].priv].sid);
    forall v | 0 <= v < |st.priv|
      ensures Holder(cut, v, lo, hi) <==> Holder(st, v, lo, hi)
    {
      SameHolders(st, cut, v, lo, hi);
    }
  }

  ghost predicate Cleaned(st: State, r: State, rc: nat)
    requires WF(st) && IsSlot(st, rc)
  {
    var p := st.proc[rc];
    && Forgotten(st, r, st.running * SLOTS + NR_TASKS, (st.running + 1) * SLOTS, st.priv[p.priv].sid)
    && |r.proc| == |st.proc|
    && SameRole(r.proc[rc], p.(vmidPending := false, notGetfrom := false, recvVm := ANY_VM, proxyServer := false,
                               proxy := if p.proxyServer then VM0 else p.proxy))
    && forall z :: 0 <= z < |st.proc| && z != rc ==> SameRole(r.proc[z], st.proc[z])
  }

  lemma BuriedHolds(st: State, rc: nat)
    requires WF(st) && IsSlot(st, rc) && IsOkProcN(EndpointP(st.proc[rc].sendto)) && !st.proc[rc].rts.Empty()
    ensures var r, p := Cut(Bury(st, rc), rc), st.proc[rc];
            && r.priv == st.priv && |r.proc| == |st.proc| && r.running == st.running
            && !r.proc[rc].rts.Empty() && r.proc[rc].ep == p.ep && r.proc[rc].priv == p.priv
            && SameRole(r.proc[rc], p.(vmidPending := false, notGetfrom := false, recvVm := ANY_VM, proxyServer := false,
                                       proxy := if p.proxyServer then VM0 else p.proxy))
            && forall z :: 0 <= z < |st.proc| && z != rc ==> r.proc[z] == st.proc[z]
  {
  }

  lemma SameHolders(st: State, r: State, v: nat, i: nat, hi: nat)
    requires |r.proc| == |st.proc|
    requires forall z :: 0 <= z < |st.proc| ==> r.proc[z].priv == st.proc[z].priv && (r.proc[z].rts.Empty() <==> st.proc[z].rts.Empty())
    ensures Holder(r, v, i, hi) <==> Holder(st, v, i, hi)
  {
    if Holder(st, v, i, hi) {
      var z :| i <= z < hi && z < |st.proc| && !st.proc[z].rts.Empty() && st.proc[z].priv == v;
      assert r.proc[z].priv == v;
    }
  }

  // ---------------------------------------------------------------- clock steps

  /** raw_notify(HARDWARE, n) from an interrupt handler. */
  function Interrupt(st: State, n: int): (r: State)
    requires WF(st) && IsOkProcN(n)
    ensures WF(r)
  {
    if st.proc[Addr(VM0, n)].rts.noEndpoint then st
    else NotifyPlain(st.(running := VM0), Addr(VM0, HARDWARE), Addr(VM0, n)).0.(running := st.running)
  }

  /** clock_handler: charge ticks to a process. */
  function Charge(st: State, x: nat, ticks: nat): (r: State)
    requires WF(st) && IsSlot(st, x)
    ensures WF(r)
  {
    Put(st, x, st.proc[x].(ticks := st.proc[x].ticks - ticks))
  }

  /** do_clocktick: a process that has used up its quantum is taken off the queues and put back. */
  function Requeue(st: State, x: nat): (r: State)
    requires WF(st) && IsSlot(st, x)
    ensures WF(r)
  {
    if st.proc[x].ticks <= 0 && st.priv[st.proc[x].priv].preemptible then Enqueue(Dequeue(st, x), x) else st
  }

  /** A process of the boot image, or of a VM that is started, is set ready. */
  function Boot(st: State, x: nat): (r: State)
    requires WF(st) && IsSlot(st, x)
    ensures WF(r)
  {
    Wake(st, x, st.proc[x].(rts := RUNNABLE))
  }

  datatype Step =
    | SysCall(c: nat, fn: int, srcDst: int, arg: int, redirected: bool)
    | Interrupted(n: int)
    | Charged(x: nat, ticks: nat)
    | Preempted(x: nat)
    | Switched(x: nat, vm: int)
    | Died(rc: nat)
    | Booted(x: nat)

  /** Only a runnable process makes a call, is preempted or gets the processor. */
  ghost predicate Enabled(st: State, step: Step)
    requires WF(st)
  {
    match step
    case SysCall(c, _, _, _, _) => IsSlot(st, c) && st.proc[c].rts.Zero()
    case Interrupted(n) => IsOkProcN(n)
    case Charged(x, _) => IsSlot(st, x)
    case Preempted(x) => IsSlot(st, x) && st.proc[x].rts.Zero()
    case Switched(x, vm) => IsSlot(st, x) && 0 <= vm < NR_VMS
    case Died(rc) => CanClear(st, rc)
    case Booted(x) => IsSlot(st, x) && st.proc[x].kind == Real && st.proc[x].rts.Empty()
  }

  ghost function Next(st: State, step: Step): (r: State)
    requires WF(st) && Enabled(st, step)
    ensures WF(r)
  {
    match step
    case SysCall(c, fn, srcDst, arg, redirected) => Call(st, c, fn, srcDst, arg, redirected).0
    case Interrupted(n) => Interrupt(st, n)
    case Charged(x, ticks) => Charge(st, x, ticks)
    case Preempted(x) => Requeue(st, x)
    case Switched(x, vm) => st.(cur := x, running := vm)
    case Died(rc) => ClearEndpoint(st, rc)
    case Booted(x) => Boot(st, x)
  }

  /** A run is the sequence of states it goes through. */
  ghost predicate IsRun(states: seq<State>, steps: seq<Step>) {
    && |states| == |steps| + 1
    && (forall i :: 0 <= i < |states| ==> WF(states[i]))
    && (forall i :: 0 <= i < |steps| ==> Enabled(states[i], steps[i]) && states[i + 1] == Next(states[i], steps[i]))
  }

  lemma RequeueKeeps(st: State, x: nat)
    requires Inv(st) && IsSlot(st, x) && st.proc[x].rts.Zero()
    ensures Inv(Requeue(st, x))
  {
    if st.proc[x].ticks <= 0 && st.priv[st.proc[x].priv].preemptible {
      ReadyDequeue(st, x);
      var off := Dequeue(st, x);
      var p := st.proc[x];
      var busy := p.(rts := p.rts.(other := true));
      ReadyBlock(st, x, busy);
      var parked := Block(st, x, busy);
      NotReady(parked.proc, parked.rq, x);
      ReadyEnqueue(parked, x, p);
      assert Put(parked, x, p) == off;
      EnqueueCallers(off, x);
    }
  }

  lemma InterruptKeeps(st: State, n: int)
    requires Inv(st) && IsOkProcN(n)
    ensures Inv(Interrupt(st, n))
  {
    PrivKeeps(st, st.(running := VM0));
    NotifyPlainKeeps(st.(running := VM0), Addr(VM0, HARDWARE), Addr(VM0, n));
    var after := NotifyPlain(st.(running := VM0), Addr(VM0, HARDWARE), Addr(VM0, n)).0;
    PrivKeeps(after, after.(running := st.running));
  }

  lemma NextKeeps(st: State, step: Step)
    requires Inv(st) && Enabled(st, step)
    ensures Inv(Next(st, step))
  {
    match step
    case SysCall(c, fn, srcDst, arg, redirected) => CallKeeps(st, c, fn, srcDst, arg, redirected);
    case Interrupted(n) => InterruptKeeps(st, n);
    case Charged(x, ticks) =>
      assert Flags(st.proc, st.cq, st.orphans, x);
      PutKeeps(st, x, st.proc[x].(ticks := st.proc[x].ticks - ticks));
    case Preempted(x) => RequeueKeeps(st, x);
    case Switched(x, vm) => PrivKeeps(st, st.(cur := x, running := vm));
    case Died(rc) => ClearReleasesEachWaiter(st, rc);
    case Booted(x) => WakeKeeps(st, x, st.proc[x].(rts := RUNNABLE));
  }

  /** Before anything is booted: every queue is empty and no descriptor waits or runs. */
  ghost predicate Fresh(st: State) {
    && WF(st) && st.orphans == {}
    && (forall d :: 0 <= d < |st.cq| ==> st.cq[d] == [])
    && (forall d :: 0 <= d < |st.rq| ==> st.rq[d] == [])
    && (forall x :: 0 <= x < |st.proc| ==> Unused(st.proc, x))
  }

  predicate Unused(proc: seq<Proc>, x: int)
    requires 0 <= x < |proc|
  {
    var p := proc[x];
    && !p.rts.Zero() && !p.rts.sending && !p.rts.receiving && !p.rts.notifying
    && (p.kind == Real && p.nr == SYSTEM ==> x == SYSTASK)
  }

  lemma FreshInv(st: State)
    requires Fresh(st)
    ensures Inv(st)
  {
    forall x | 0 <= x < |st.proc|
      ensures Flags(st.proc, st.cq, st.orphans, x)
    {
      assert Unused(st.proc, x);
    }
    forall x, d | 0 <= x < |st.proc| && 0 <= d < |st.rq|
      ensures OnQueue(st.proc, st.rq, x, d)
    {
      assert Unused(st.proc, x);
    }
  }

  /** Main result: along every run the two queue invariants hold in every state. */
  lemma {:induction false} RunKeeps(states: seq<State>, steps: seq<Step>, i: nat)
    requires IsRun(states, steps) && (Inv(states[0]) || Fresh(states[0])) && i < |states|
    ensures Inv(states[i])
  {
    hide Next, CallersOk, ReadyOk;
    if i > 0 {
      RunKeeps(states, steps, i - 1);
      NextKeeps(states[i - 1], steps[i - 1]);
    } else if Fresh(states[0]) {
      FreshInv(states[0]);
    }
  }
}
