/** The kernel as the program runs it: the process table changed in place, ready queues and caller queues
    threaded through it.  Every method is proved to do what the function of the same name in Ipc says. */
module Kernel {
  import opened Queues
  import opened Ipc
  import opened IpcInvariants
  import opened IpcPrimitives
  import S = SysCall
  import R = Runs

  class Machine {
    var proc: seq<Proc>
    const rdy: ReadyQueues
    const callers: CallerQueues
    var priv: seq<Priv>
    var running: int
    var cur: nat
    var up: set<int>
    var idNr: seq<seq<int>>
    var vmm: seq<int>
    ghost var orphans: set<nat>

    /** The abstract state: the queues in place of the links. */
    ghost function Abs(): State
      reads this, rdy, callers
    {
      State(proc, callers.q, rdy.q, priv, orphans, running, cur, up, idNr, vmm)
    }

    ghost predicate Valid()
      reads this, rdy, callers
    {
      rdy.Valid() && callers.Valid() && |rdy.next| == |proc| && WF(Abs())
    }

    /** What the checks in front of an operation look at: everything but the queues. */
    function View(): (st: State)
      reads this
    {
      State(proc, seq(|proc|, _ => []), seq(NR_SCHED_QUEUES, _ => []), priv, {}, running, cur, up, idNr, vmm)
    }

    lemma ViewOk()
      requires Valid()
      ensures WF(View())
    {
    }

    constructor (table: State)
      requires WF(table)
      ensures Valid() && fresh(rdy) && fresh(callers)
      ensures Abs() == table.(cq := seq(|table.proc|, _ => []), rq := seq(NR_SCHED_QUEUES, _ => []))
    {
      proc, priv, running, cur := table.proc, table.priv, table.running, table.cur;
      up, idNr, vmm, orphans := table.up, table.idNr, table.vmm, table.orphans;
      rdy := new ReadyQueues(NR_SCHED_QUEUES, |table.proc|);
      callers := new CallerQueues(|table.proc|);
    }

    // -------------------------------------------------------------- scheduling queues

    /** enqueue() with sched() */
    method Enqueue(x: nat)
      requires Valid() && IsSlot(Abs(), x) && !Occurs(rdy.q, x)
      modifies this`proc, rdy
      ensures Valid() && Abs() == Ipc.Enqueue(old(Abs()), x)
    {
      var timeLeft := proc[x].ticks > 0;
      if !timeLeft {
        var prio := proc[x].prio;
        if prio < IDLE_Q - 1 { prio := prio + 1; }
        proc := proc[x := proc[x].(ticks := proc[x].quantum, prio := prio)];
      }
      var front := timeLeft;
      if proc[x].nr == CLOCK && proc[cur].nr == SYSTEM {
        front := false;
      } else if proc[x].nr == SYSTEM && proc[cur].nr == CLOCK {
        front := false;
      }
      rdy.Insert(proc[x].prio, x, front);
      assert timeLeft ==> proc == proc[x := proc[x]];
    }

    /** dequeue() */
    method Dequeue(x: nat)
      requires Valid() && IsSlot(Abs(), x)
      modifies rdy
      ensures Valid() && Abs() == Ipc.Dequeue(old(Abs()), x)
    {
      var found := rdy.Delete(proc[x].prio, x);
    }

    method Put(x: nat, p: Proc)
      requires Valid() && IsSlot(Abs(), x) && ProcWF(p, |proc|, |priv|)
      modifies this`proc
      ensures Valid() && Abs() == Ipc.Put(old(Abs()), x, p)
    {
      proc := proc[x := p];
    }

    /** `if (p_rts_flags == 0) enqueue()` after a flag has been cleared. */
    method Wake(x: nat, p: Proc)
      requires Valid() && IsSlot(Abs(), x) && ProcWF(p, |proc|, |priv|) && !Occurs(rdy.q, x)
      modifies this`proc, rdy
      ensures Valid() && Abs() == Ipc.Wake(old(Abs()), x, p)
    {
      Put(x, p);
      if p.rts.Zero() { Enqueue(x); }
    }

    /** `if (p_rts_flags == 0) dequeue()` before a flag is set. */
    method Block(x: nat, p: Proc)
      requires Valid() && IsSlot(Abs(), x) && ProcWF(p, |proc|, |priv|)
      modifies this`proc, rdy
      ensures Valid() && Abs() == Ipc.Block(old(Abs()), x, p)
    {
      if proc[x].rts.Zero() { Dequeue(x); }
      Put(x, p);
    }

    method Deliver(d: nat, misc: bool)
      requires Valid() && IsSlot(Abs(), d) && !Occurs(rdy.q, d)
      modifies this`proc, rdy
      ensures Valid() && Abs() == Ipc.Deliver(old(Abs()), d, misc)
    {
      var p := proc[d].(rts := proc[d].rts.(receiving := false), getfrom := NONE);
      if misc { p := p.(vmidPending := false, notGetfrom := false, replyPending := false, recvVm := ANY_VM); }
      Wake(d, p);
    }

    // -------------------------------------------------------------- blocking and releasing senders

    method BlockSending(c: nat, d: nat, ep: int)
      requires Valid() && IsSlot(Abs(), c) && IsSlot(Abs(), d) && !Occurs(callers.q, c)
      modifies this`proc, rdy, callers
      ensures Valid() && Abs() == Ipc.BlockSending(old(Abs()), c, d, ep)
    {
      Block(c, proc[c].(rts := proc[c].rts.(sending := true), sendto := ep));
      callers.Append(d, c);
    }

    method BlockNotifying(c: nat, d: nat, ep: int)
      requires Valid() && IsSlot(Abs(), c) && IsSlot(Abs(), d) && !Occurs(callers.q, c)
      modifies this`proc, rdy, callers
      ensures Valid() && Abs() == Ipc.BlockNotifying(old(Abs()), c, d, ep)
    {
      Dequeue(c);
      Put(c, proc[c].(rts := proc[c].rts.(notifying := true), sendto := ep));
      callers.Append(d, c);
    }

    /** Wake the sender x, found at position k with predecessor prev, and unlink it. */
    method Release(d: nat, x: nat, prev: int, ghost k: nat, rts: Rts)
      requires Valid() && IsSlot(Abs(), d) && k < |callers.q[d]| && callers.q[d][k] == x
      requires prev == if k == 0 then NIL else callers.q[d][k - 1]
      requires !Occurs(rdy.q, x)
      modifies this`proc, rdy, callers
      ensures Valid() && Abs() == Ipc.Release(old(Abs()), d, k, rts)
    {
      Wake(x, proc[x].(rts := rts, sendto := NONE));
      callers.Unlink(d, prev, x, k);
    }

    // -------------------------------------------------------------- SEND

    /** SYSTASK inherits the VM of its caller. */
    method Inherit(dst: nat, vm: nat)
      requires Valid() && IsSlot(Abs(), dst) && vm < NR_VMS
      modifies this`proc
      ensures Valid() && Abs() == Ipc.Inherit(old(Abs()), dst, vm)
    {
      if proc[dst].nr == SYSTEM {
        var s := Addr(VM0, SYSTEM);
        Put(s, proc[s].(vm := vm));
      }
    }

    lemma NotOnQueue(x: nat)
      requires Valid() && Inv(Abs()) && IsSlot(Abs(), x)
      ensures proc[x].rts.Zero() || !Occurs(rdy.q, x)
    {
      if !proc[x].rts.Zero() { NotReady(proc, rdy.q, x); }
    }

    /** A running process waits in no caller queue, and only one that waits is in one. */
    lemma NotWaiting(x: nat)
      requires Valid() && Inv(Abs()) && IsSlot(Abs(), x)
      ensures !proc[x].rts.sending && !proc[x].rts.notifying ==> !Occurs(callers.q, x)
    {
      assert Flags(proc, callers.q, orphans, x);
    }

    /** The test of MH_send, and the delivery. */
    method OfferMessage(c: nat, dst: nat, dstX: nat) returns (verdict: Verdict)
      requires Valid() && Inv(Abs()) && IsSlot(Abs(), c) && IsSlot(Abs(), dst) && IsSlot(Abs(), dstX)
      modifies this`proc, rdy
      ensures Valid() && Answers(Ipc.OfferMessage(old(Abs()), c, dst, dstX), verdict, old(Abs()), Abs())
    {
      var caller, to := proc[c], proc[dst];
      if !PureReceiving(to) { return Later; }
      NotOnQueue(dst);
      if to.vmidPending {
        if !proc[dstX].kind.Promiscuous? && caller.vm != VM0 { return Broken; }
        if !AdmitsVm(to, caller, false) { return Later; }
      } else {
        if to.notGetfrom { return Broken; }
        if !Admits(to, caller) { return Later; }
        Inherit(dst, caller.vm);
      }
      Deliver(dst, true);
      return Delivered;
    }

    /** The test of MH_notify, and the delivery. */
    method OfferNotify(c: nat, dst: nat, dstX: nat) returns (verdict: Verdict)
      requires Valid() && Inv(Abs()) && IsSlot(Abs(), c) && IsSlot(Abs(), dst) && IsSlot(Abs(), dstX)
      modifies this`proc, this`priv, rdy
      ensures Valid() && Answers(Ipc.OfferNotify(old(Abs()), c, dst, dstX), verdict, old(Abs()), Abs())
    {
      var caller, to := proc[c], proc[dst];
      var s := priv[caller.priv].sid;
      if !PureReceiving(to) || to.replyPending { return Later; }
      NotOnQueue(dst);
      if to.vmidPending {
        if !proc[dstX].kind.Promiscuous? && caller.vm != VM0 { return Broken; }
        if !AdmitsVm(to, caller, caller.nr == HARDWARE) { return Later; }
        CountDirect(to.priv, s);
        Wake(dst, to.(rts := to.rts.(receiving := false), getfrom := NONE, vmidPending := false, notGetfrom := false, recvVm := ANY_VM));
      } else {
        if to.notGetfrom { return Broken; }
        if caller.vm != VM0 && proc[dstX].kind.Promiscuous? { return Later; }
        if to.getfrom != ANY && to.getfrom != caller.ep { return Later; }
        Inherit(dst, caller.vm);
        CountDirect(to.priv, s);
        Deliver(dst, false);
      }
      return Delivered;
    }

    method CountDirect(i: nat, s: nat)
      requires Valid() && i < |priv| && s < NR_SYS_PROCS
      modifies this`priv
      ensures Valid() && Abs() == Ipc.CountDirect(old(Abs()), i, s)
    {
      var v := priv[i];
      priv := priv[i := v.(calls := v.calls[s := v.calls[s] + 1], dels := v.dels[s := v.dels[s] + 1])];
    }

    method AddPending(i: nat, s: nat)
      requires Valid() && i < |priv| && s < NR_SYS_PROCS
      modifies this`priv
      ensures Valid() && Abs() == Ipc.AddPending(old(Abs()), i, s)
    {
      var v := priv[i];
      priv := priv[i := v.(pend := v.pend[s := true], cnt := v.cnt[s := Byte(v.cnt[s] + 1)], calls := v.calls[s := v.calls[s] + 1])];
    }

    method TakePending(i: nat, s: nat)
      requires Valid() && i < |priv| && s < NR_SYS_PROCS
      modifies this`priv
      ensures Valid() && Abs() == Ipc.TakePending(old(Abs()), i, s)
    {
      var v := priv[i];
      var left := Byte(v.cnt[s] + 255);
      v := v.(cnt := v.cnt[s := left], dels := v.dels[s := v.dels[s] + 1]);
      if left == 0 { v := v.(pend := v.pend[s := false]); }
      priv := priv[i := v];
    }

    method NotifyPlain(c: nat, d: nat) returns (code: Code)
      requires Valid() && Inv(Abs()) && IsSlot(Abs(), c) && IsSlot(Abs(), d)
      modifies this`proc, this`priv, rdy
      ensures Valid() && (Abs(), code) == Ipc.NotifyPlain(old(Abs()), c, d)
    {
      var verdict := OfferNotify(c, d, d);
      match verdict
      case Delivered => return Ok;
      case Broken => return Err(PANIC);
      case Later =>
        AddPending(proc[d].priv, priv[proc[c].priv].sid);
        return Ok;
    }

    /** notify_proxy(): running_vm is VM0 while HARDWARE notifies. */
    method NotifyProxy(s: nat) returns (code: Code)
      requires Valid() && Inv(Abs())
      modifies this`proc, this`priv, this`running, rdy
      ensures Valid() && (Abs(), code) == Ipc.NotifyProxy(old(Abs()), s)
    {
      var px := Addr(VM0, EndpointP(vmm[running]));
      if s !in priv[proc[px].priv].drBitmap { return Err(EACCES); }
      if proc[px].rts.noEndpoint { return Err(EDSTDIED); }
      var vm := running;
      running := VM0;
      PrivKeeps(old(Abs()), Abs());
      code := NotifyPlain(Addr(VM0, HARDWARE), px);
      running := vm;
    }

    /** MH_send */
    method MhSend(c: nat, dstEp: int, direct: bool) returns (code: Code)
      requires Valid() && Inv(Abs()) && IsSlot(Abs(), c) && proc[c].rts.Zero()
      modifies this`proc, this`priv, this`running, rdy, callers
      ensures Valid() && (Abs(), code) == Ipc.MhSend(old(Abs()), c, dstEp, direct)
    {
      ViewOk();
      var route := ResolveSend(View(), c, dstEp, direct);
      SameRoute(c, dstEp, direct);
      match route
      case Refused(e) => return Err(e);
      case To(dst, dstX) => code := SendTo(c, dst, dstX, dstEp);
    }

    lemma SameRoute(c: nat, dstEp: int, direct: bool)
      requires Valid() && IsSlot(Abs(), c) && WF(View())
      ensures ResolveSend(View(), c, dstEp, direct) == ResolveSend(Abs(), c, dstEp, direct)
    {
      hide PrivWF, ProcWF, Bounded;
    }

    method SendTo(c: nat, dst: nat, dstX: nat, dstEp: int) returns (code: Code)
      requires Valid() && Inv(Abs()) && IsSlot(Abs(), c) && IsSlot(Abs(), dst) && IsSlot(Abs(), dstX) && proc[c].rts.Zero()
      modifies this`proc, this`priv, this`running, rdy, callers
      ensures Valid() && (Abs(), code) == Ipc.SendTo(old(Abs()), c, dst, dstX, dstEp)
    {
      var verdict := OfferMessage(c, dst, dstX);
      match verdict
      case Delivered => return Ok;
      case Broken => return Err(PANIC);
      case Later =>
        NotWaiting(c);
        NotVirtual(c);
        BlockSending(c, dst, dstEp);
        BlockSendingKeeps(old(Abs()), c, dst, dstEp);
        if proc[c].vm != VM0 && proc[dst].kind.Virtual? {
          code := NotifyProxy(priv[proc[dst].priv].sid);
        } else {
          code := Ok;
        }
    }

    lemma NotVirtual(c: nat)
      requires Valid() && Inv(Abs()) && IsSlot(Abs(), c) && proc[c].rts.Zero()
      ensures proc[c].kind == Real
    {
      assert Flags(proc, callers.q, orphans, c);
    }

    // -------------------------------------------------------------- RECEIVE

    /** The search through the chunks of the pending map; NIL if it finds nothing. */
    method FindPending(i: nat, want: Want) returns (s: int)
      requires Valid() && i < |priv|
      ensures (if s == NIL then None else Some(s)) == Ipc.FindPending(priv[i].pend, idNr[running], want, 0)
    {
      s := SearchPending(priv[i].pend, idNr[running], want);
    }

    method SearchPending(pend: seq<bool>, ids: seq<int>, want: Want) returns (s: int)
      requires |pend| == |ids| == NR_SYS_PROCS
      ensures (if s == NIL then None else Some(s)) == Ipc.FindPending(pend, ids, want, 0)
    {
      var chunk := 0;
      while chunk < NR_SYS_CHUNKS
        invariant 0 <= chunk <= NR_SYS_CHUNKS
        invariant Ipc.FindPending(pend, ids, want, chunk) == Ipc.FindPending(pend, ids, want, 0)
      {
        var lo, hi := chunk * BITCHUNK_BITS, (chunk + 1) * BITCHUNK_BITS;
        s := lo;
        while s < hi && !pend[s]
          invariant lo <= s <= hi && LowestBit(pend, s, hi) == LowestBit(pend, lo, hi)
        {
          s := s + 1;
        }
        if s < hi && want.Matches(ids[s]) { return; }
        chunk := chunk + 1;
      }
      s := NIL;
    }

    /** The walk along the caller queue: the first acceptable sender and the slot before it. */
    method FindSender(c: nat, srcEp: int) returns (at: int, prev: int, ghost k: nat)
      requires Valid() && IsSlot(Abs(), c)
      ensures k == FirstAcceptable(Abs(), c, srcEp, 0)
      ensures var j := FirstAcceptable(Abs(), c, srcEp, 0);
              at == At(callers.q[c], j) && prev == if j == 0 then NIL else callers.q[c][j - 1]
    {
      ViewOk();
      prev, at, k := NIL, callers.head[c], 0;
      while at != NIL
        invariant k <= |callers.q[c]|
        invariant at == At(callers.q[c], k) && prev == if k == 0 then NIL else callers.q[c][k - 1]
        invariant FirstAcceptable(Abs(), c, srcEp, k) == FirstAcceptable(Abs(), c, srcEp, 0)
        decreases |callers.q[c]| - k
      {
        SameVerdict(c, srcEp, at);
        if Acceptable(View(), c, srcEp, at) { return; }
        var after := callers.Next(c, at, k);
        prev, at, k := at, after, k + 1;
      }
    }

    lemma SameVerdict(c: nat, srcEp: int, x: nat)
      requires Valid() && IsSlot(Abs(), c) && IsSlot(Abs(), x) && WF(View())
      ensures Acceptable(View(), c, srcEp, x) == Acceptable(Abs(), c, srcEp, x)
    {
    }

    method Settle(c: nat)
      requires Valid() && IsSlot(Abs(), c)
      modifies this`proc
      ensures Valid() && Abs() == Ipc.Settle(old(Abs()), c)
    {
      Put(c, proc[c].(vmidPending := false, notGetfrom := false, replyPending := false));
    }

    method TakeSender(c: nat, x: nat, prev: int, ghost k: nat)
      requires Valid() && Inv(Abs()) && IsSlot(Abs(), c) && k < |callers.q[c]| && callers.q[c][k] == x
      requires prev == if k == 0 then NIL else callers.q[c][k - 1]
      modifies this`proc, this`running, rdy, callers
      ensures Valid() && Abs() == Ipc.TakeSender(old(Abs()), c, k)
    {
      ReleasedClears(Abs(), c, k);
      NotOnQueue(x);
      var vm := proc[x].vm;
      var rts := if proc[x].rts.notifying then proc[x].rts.(notifying := false) else proc[x].rts.(sending := false);
      if proc[c].nr == SYSTEM {
        Inherit(c, vm);
        running := vm;
      }
      Release(c, x, prev, k, rts);
    }

    method BlockReceiving(c: nat, srcEp: int)
      requires Valid() && IsSlot(Abs(), c)
      modifies this`proc, rdy
      ensures Valid() && Abs() == Ipc.BlockReceiving(old(Abs()), c, srcEp)
    {
      Block(c, proc[c].(rts := proc[c].rts.(receiving := true), getfrom := srcEp, recvVm := proc[c].vm));
    }

    /** MH_receive from the search for a pending notification on. */
    method ReceiveNow(c: nat, srcEp: int)
      requires Valid() && Inv(Abs()) && IsSlot(Abs(), c)
      modifies this`proc, this`priv, this`running, rdy, callers
      ensures Valid() && Abs() == Ipc.ReceiveNow(old(Abs()), c, srcEp)
    {
      var i := proc[c].priv;
      if !proc[c].replyPending {
        var s := FindPending(i, WantOf(srcEp));
        if s != NIL {
          TakePending(i, s);
          return;
        }
      }
      var x, prev, k := FindSender(c, srcEp);
      if x != NIL {
        TakeSender(c, x, prev, k);
        Settle(c);
      } else {
        BlockReceiving(c, srcEp);
      }
    }

    /** MH_receive */
    method MhReceive(c: nat, srcEp: int) returns (code: Code)
      requires Valid() && Inv(Abs()) && IsSlot(Abs(), c) && CanReceive(Abs(), c)
      modifies this`proc, this`priv, this`running, rdy, callers
      ensures Valid() && (Abs(), code) == Ipc.MhReceive(old(Abs()), c, srcEp)
    {
      HomeKeeps(Abs(), c, srcEp);
      GoHome(c, srcEp);
      if srcEp != ANY {
        ViewOk();
        if !IsOkEndpt(View(), running, srcEp) { return Err(ESRCDIED); }
        if proc[Addr(running, EndpointP(srcEp))].rts.noEndpoint { return Err(ESRCDIED); }
      }
      if proc[c].rts.sending {
        BlockReceiving(c, srcEp);
      } else {
        ReceiveNow(c, srcEp);
      }
      return Ok;
    }

    method GoHome(c: nat, srcEp: int)
      requires Valid() && IsSlot(Abs(), c)
      modifies this`proc, this`running
      ensures Valid() && Abs() == Home(old(Abs()), c, srcEp)
    {
      if (proc[c].nr == SYSTEM || proc[c].nr == CLOCK) && srcEp == ANY {
        Put(c, proc[c].(vm := VM0));
        running := VM0;
      }
    }

    // -------------------------------------------------------------- NOTIFY

    /** MH_notify */
    method MhNotify(c: nat, n: int) returns (code: Code)
      requires Valid() && Inv(Abs()) && IsSlot(Abs(), c) && proc[c].rts.Zero() && IsOkProcN(n)
      modifies this`proc, this`priv, this`running, rdy, callers
      ensures Valid() && (Abs(), code) == Ipc.MhNotify(old(Abs()), c, n)
    {
      hide Ipc.NotifyPlain, Ipc.NotifyLater, Ipc.OfferNotify, CallersOk, ReadyOk;
      var d := Addr(running, n);
      if proc[d].rts.noEndpoint { return Err(EDSTDIED); }
      if proc[c].vm == VM0 {
        code := NotifyPlain(c, d);
        return;
      }
      ViewOk();
      var home := HomeOf(View(), d);
      if proc[d].kind.Promiscuous? && home != Addr(VM0, n) { return Err(PANIC); }
      match RouteTo(View(), c, d, home, false)
      case Refused(e) => return Err(e);
      case To(dst, dstX) =>
        if proc[d].kind.Promiscuous? && !proc[dst].vmidPending { return Err(PANIC); }
        var verdict := OfferNotify(c, dst, dstX);
        match verdict
        case Delivered => return Ok;
        case Broken => return Err(PANIC);
        case Later => code := NotifyLater(c, d, dst);
    }

    method NotifyLater(c: nat, d: nat, dst: nat) returns (code: Code)
      requires Valid() && Inv(Abs()) && IsSlot(Abs(), c) && IsSlot(Abs(), d) && IsSlot(Abs(), dst)
      requires proc[c].rts.Zero() && proc[c].vm != VM0
      modifies this`proc, this`priv, this`running, rdy, callers
      ensures Valid() && (Abs(), code) == Ipc.NotifyLater(old(Abs()), c, d, dst)
    {
      NotWaiting(c);
      if proc[d].kind.Promiscuous? {
        BlockNotifying(c, dst, proc[d].ep);
        return Ok;
      } else if proc[d].kind.Virtual? {
        var px := Addr(VM0, EndpointP(vmm[running]));
        var s := priv[proc[px].priv].sid;
        BlockNotifyingKeeps(Abs(), c, d, proc[d].ep);
        BlockNotifying(c, d, proc[d].ep);
        code := NotifyProxy(s);
      } else {
        AddPending(proc[dst].priv, priv[proc[c].priv].sid);
        return Ok;
      }
    }

    // -------------------------------------------------------------- proxies

    /** MH_sendas */
    method MhSendAs(c: nat, dstEp: int, srcNr: int) returns (code: Code)
      requires Valid() && Inv(Abs()) && IsSlot(Abs(), c) && 0 <= proc[c].proxy < NR_VMS
      modifies this`proc, rdy
      ensures Valid() && (Abs(), code) == Ipc.MhSendAs(old(Abs()), c, dstEp, srcNr)
    {
      ViewOk();
      var vm := proc[c].proxy;
      if !IsOkEndpt(View(), vm, dstEp) { return Err(EDSTDIED); }
      var n := EndpointP(dstEp);
      var d := Addr(vm, n);
      if proc[d].rts.noEndpoint { return Err(EDSTDIED); }
      if proc[d].kind != Real { return Err(EBADSRCDST); }
      if n != SYSTEM && !IsOkProcN(srcNr) { return Err(PANIC); }
      var src := proc[Emulated(vm, srcNr, n == SYSTEM)];
      if src.kind != Virtual { return Err(EVIRTUALTASK); }
      if !PureReceiving(proc[d]) { return Err(EPROCSTATUS); }
      if proc[d].getfrom != src.ep && proc[d].getfrom != ANY { return Err(ESRCDIED); }
      NotOnQueue(d);
      Deliver(d, false);
      return Ok;
    }

    /** The walk of MH_recvas along the queue of the virtual task. */
    method FindFrom(d: nat, srcEp: int) returns (at: int, prev: int, ghost k: nat)
      requires Valid() && IsSlot(Abs(), d)
      ensures k == FirstFrom(Abs(), d, srcEp, 0)
      ensures var j := FirstFrom(Abs(), d, srcEp, 0);
              at == At(callers.q[d], j) && prev == if j == 0 then NIL else callers.q[d][j - 1]
    {
      prev, at, k := NIL, callers.head[d], 0;
      while at != NIL
        invariant k <= |callers.q[d]|
        invariant at == At(callers.q[d], k) && prev == if k == 0 then NIL else callers.q[d][k - 1]
        invariant FirstFrom(Abs(), d, srcEp, k) == FirstFrom(Abs(), d, srcEp, 0)
        decreases |callers.q[d]| - k
      {
        if srcEp == ANY || srcEp == proc[at].ep { return; }
        var after := callers.Next(d, at, k);
        prev, at, k := at, after, k + 1;
      }
    }

    /** MH_recvas */
    method MhRecvAs(c: nat, srcEp: int, dstNr: int) returns (code: Code)
      requires Valid() && Inv(Abs()) && IsSlot(Abs(), c) && 0 <= proc[c].proxy < NR_VMS
      modifies this`proc, this`priv, rdy, callers
      ensures Valid() && (Abs(), code) == Ipc.MhRecvAs(old(Abs()), c, srcEp, dstNr)
    {
      hide Ipc.Release, Ipc.FindPending, Ipc.TakePending, CallersOk, ReadyOk;
      ViewOk();
      var vm := proc[c].proxy;
      if dstNr != SYSTEM && !IsOkProcN(dstNr) { return Err(EDSTDIED); }
      var d := Emulated(vm, dstNr, dstNr == SYSTEM);
      if proc[d].kind != Virtual { return Err(EVIRTUALTASK); }
      if srcEp != ANY && !IsOkEndpt(View(), vm, srcEp) { return Err(ESRCDIED); }
      if srcEp != ANY && proc[Addr(vm, EndpointP(srcEp))].rts.noEndpoint { return Err(ESRCDIED); }
      var i := proc[d].priv;
      var s := FindPending(i, WantOf(srcEp));
      if s != NIL {
        TakePending(i, s);
        return Ok;
      }
      var x, prev, k := FindFrom(d, srcEp);
      if x == NIL { return Err(EAGAIN); }
      ReleasedClears(Abs(), d, k);
      NotOnQueue(x);
      Release(d, x, prev, k, proc[x].rts.(sending := false, notifying := false));
      return Ok;
    }

    /** MH_ntfyas */
    method MhNtfyAs(c: nat, dstNr: int, srcNr: int) returns (code: Code)
      requires Valid() && Inv(Abs()) && IsSlot(Abs(), c) && 0 <= proc[c].proxy < NR_VMS && IsOkProcN(dstNr)
      modifies this`proc, this`priv, rdy
      ensures Valid() && (Abs(), code) == Ipc.MhNtfyAs(old(Abs()), c, dstNr, srcNr)
    {
      var vm := proc[c].proxy;
      var d := Addr(vm, dstNr);
      var dst := proc[d];
      if dst.rts.noEndpoint { return Err(EDSTDIED); }
      if dst.kind != Real { return Err(EBADSRCDST); }
      if !IsOkProcN(srcNr) { return Err(PANIC); }
      var src := proc[Addr(vm, srcNr)];
      if src.kind != Virtual { return Err(EVIRTUALTASK); }
      var s := priv[src.priv].sid;
      if PureReceiving(dst) && !dst.replyPending && (dst.getfrom == ANY || dst.getfrom == src.ep) {
        NotOnQueue(d);
        CountDirect(dst.priv, s);
        Wake(d, dst.(rts := dst.rts.(receiving := false), getfrom := NONE, recvVm := ANY_VM));
      } else {
        AddPending(dst.priv, s);
      }
      return Ok;
    }

    // -------------------------------------------------------------- promiscuous tasks

    /** MH_sendvm */
    method MhSendVm(c: nat, dstEp: int, vm: int) returns (code: Code)
      requires Valid() && Inv(Abs()) && IsSlot(Abs(), c) && proc[c].rts.Zero() && 0 <= vm < NR_VMS
      modifies this`proc, rdy, callers
      ensures Valid() && (Abs(), code) == Ipc.MhSendVm(old(Abs()), c, dstEp, vm)
    {
      ViewOk();
      if !IsOkEndpt(View(), vm, dstEp) { return Err(EDSTDIED); }
      var d := Addr(vm, EndpointP(dstEp));
      if proc[d].rts.noEndpoint { return Err(EDSTDIED); }
      if proc[d].kind != Real { return Err(EBADSRCDST); }
      NotVirtual(c);
      PutKeeps(Abs(), c, proc[c].(vmidPending := proc[c].vmidPending || proc[c].replyPending));
      Put(c, proc[c].(vmidPending := proc[c].vmidPending || proc[c].replyPending));
      code := SendVmTo(c, d, dstEp, vm);
    }

    method SendVmTo(c: nat, d: nat, dstEp: int, vm: int) returns (code: Code)
      requires Valid() && Inv(Abs()) && IsSlot(Abs(), c) && IsSlot(Abs(), d) && proc[c].rts.Zero() && 0 <= vm < NR_VMS
      modifies this`proc, rdy, callers
      ensures Valid() && (Abs(), code) == Ipc.SendVmTo(old(Abs()), c, d, dstEp, vm)
    {
      var dst := proc[d];
      var me := priv[proc[c].priv].sNr[vm];
      if PureReceiving(dst) {
        if dst.notGetfrom || !IsOkProcN(me) { return Err(PANIC); }
        if dst.getfrom == ANY || dst.getfrom == proc[Addr(vm, me)].ep {
          NotOnQueue(d);
          Deliver(d, false);
          return Ok;
        }
      }
      NotWaiting(c);
      BlockSending(c, d, dstEp);
      return Ok;
    }

    /** The walk of MH_recvvm along the caller queue. */
    method FindSenderVm(c: nat, srcEp: int, except: bool, vm: int) returns (at: int, prev: int, ghost k: nat)
      requires Valid() && IsSlot(Abs(), c)
      ensures k == FirstAcceptableVm(Abs(), c, srcEp, except, vm, 0)
      ensures var j := FirstAcceptableVm(Abs(), c, srcEp, except, vm, 0);
              at == At(callers.q[c], j) && prev == if j == 0 then NIL else callers.q[c][j - 1]
    {
      ViewOk();
      prev, at, k := NIL, callers.head[c], 0;
      while at != NIL
        invariant k <= |callers.q[c]|
        invariant at == At(callers.q[c], k) && prev == if k == 0 then NIL else callers.q[c][k - 1]
        invariant FirstAcceptableVm(Abs(), c, srcEp, except, vm, k) == FirstAcceptableVm(Abs(), c, srcEp, except, vm, 0)
        decreases |callers.q[c]| - k
      {
        if AcceptableVm(View(), srcEp, except, vm, at) { return; }
        var after := callers.Next(c, at, k);
        prev, at, k := at, after, k + 1;
      }
    }

    method TakeSenderVm(c: nat, x: nat, prev: int, ghost k: nat) returns (code: Code)
      requires Valid() && Inv(Abs()) && IsSlot(Abs(), c) && k < |callers.q[c]| && callers.q[c][k] == x
      requires prev == if k == 0 then NIL else callers.q[c][k - 1]
      modifies this`proc, rdy, callers
      ensures Valid() && (Abs(), code) == Ipc.TakeSenderVm(old(Abs()), c, k)
    {
      hide Ipc.Release, Ipc.Settle, CallersOk, ReadyOk;
      ViewOk();
      var vm := proc[x].vm;
      if vm != VM0 && !ServesVm(View(), c, vm) { return Err(PANIC); }
      ReleasedClears(Abs(), c, k);
      NotOnQueue(x);
      var rts := proc[x].rts.(sending := false);
      if vm != VM0 && proc[x].rts.notifying { rts := proc[x].rts.(notifying := false); }
      Release(c, x, prev, k, rts);
      Settle(c);
      Put(c, proc[c].(recvVm := ANY_VM));
      return FromVm(vm);
    }

    /** MH_recvvm */
    method MhRecvVm(c: nat, srcEp0: int, vm: int) returns (code: Code)
      requires Valid() && Inv(Abs()) && IsSlot(Abs(), c) && CanReceive(Abs(), c) && ANY_VM <= vm < NR_VMS
      modifies this`proc, this`priv, rdy, callers
      ensures Valid() && (Abs(), code) == Ipc.MhRecvVm(old(Abs()), c, srcEp0, vm)
    {
      hide Ipc.ReceiveVmNow, CallersOk, ReadyOk;
      ViewOk();
      ForgetsVm(c);
      Put(c, proc[c].(vmidPending := false, notGetfrom := false));
      var reply := proc[c].replyPending;
      var srcEp, except := srcEp0, false;
      if !reply && srcEp0 != ANY && HasNotProc(srcEp0) {
        srcEp, except := srcEp0 - NOT_PROC, true;
      }
      if !reply && !except && srcEp != ANY && vm == ANY_VM { return Err(EBADSRCDST); }
      if !except && (reply || srcEp != ANY) {
        if vm == ANY_VM { return Err(ESRCDIED); }
        if !IsOkEndpt(View(), vm, srcEp) { return Err(ESRCDIED); }
      }
      code := ReceiveVmNow(c, srcEp, except, vm);
    }

    method ReceiveVmNow(c: nat, srcEp: int, except: bool, vm: int) returns (code: Code)
      requires Valid() && Inv(Abs()) && IsSlot(Abs(), c) && ANY_VM <= vm < NR_VMS
      modifies this`proc, this`priv, rdy, callers
      ensures Valid() && (Abs(), code) == Ipc.ReceiveVmNow(old(Abs()), c, srcEp, except, vm)
    {
      hide Ipc.TakeSenderVm, Ipc.FindPending, Ipc.FirstAcceptableVm, Ipc.TakePending, Ipc.WaitVm, CallersOk, ReadyOk;
      var s := NIL;
      if !proc[c].replyPending { s := FindPendingVm(proc[c].priv, if except then AllBut(srcEp) else WantOf(srcEp), vm); }
      if s != NIL {
        TakePending(proc[c].priv, s);
        return FromVm(if vm == ANY_VM then VM0 else vm);
      }
      var x, prev, k := FindSenderVm(c, srcEp, except, vm);
      if x != NIL {
        code := TakeSenderVm(c, x, prev, k);
      } else {
        WaitVm(c, srcEp, except, vm);
        return Ok;
      }
    }

    method WaitVm(c: nat, srcEp: int, except: bool, vm: int)
      requires Valid() && IsSlot(Abs(), c)
      modifies this`proc, rdy
      ensures Valid() && Abs() == Ipc.WaitVm(old(Abs()), c, srcEp, except, vm)
    {
      Block(c, proc[c].(rts := proc[c].rts.(receiving := true), getfrom := srcEp, recvVm := vm,
                        vmidPending := true, notGetfrom := except));
    }

    lemma ForgetsVm(c: nat)
      requires Valid() && Inv(Abs()) && IsSlot(Abs(), c) && CanReceive(Abs(), c)
      ensures Inv(Ipc.Put(Abs(), c, proc[c].(vmidPending := false, notGetfrom := false)))
    {
      assert Flags(proc, callers.q, orphans, c);
      PutKeeps(Abs(), c, proc[c].(vmidPending := false, notGetfrom := false));
    }

    /** From a guest only HARDWARE's notifications are pending. */
    method FindPendingVm(i: nat, want: Want, vm: int) returns (s: int)
      requires Valid() && i < |priv| && ANY_VM <= vm < NR_VMS
      ensures var hw := priv[proc[Addr(VM0, HARDWARE)].priv].sid;
              (if s == NIL then None else Some(s)) ==
              if vm == ANY_VM || vm == VM0 then Ipc.FindPending(priv[i].pend, idNr[running], want, 0)
              else if priv[i].pend[hw] then Some(hw) else None
    {
      if vm == ANY_VM || vm == VM0 {
        s := FindPending(i, want);
      } else {
        var hw := priv[proc[Addr(VM0, HARDWARE)].priv].sid;
        s := if priv[i].pend[hw] then hw else NIL;
      }
    }

    /** MH_ntfyvm */
    method MhNtfyVm(c: nat, n: int, vm: int) returns (code: Code)
      requires Valid() && Inv(Abs()) && IsSlot(Abs(), c) && IsOkProcN(n) && 0 <= vm < NR_VMS
      modifies this`proc, this`priv, rdy
      ensures Valid() && (Abs(), code) == Ipc.MhNtfyVm(old(Abs()), c, n, vm)
    {
      var d := Addr(vm, n);
      var dst := proc[d];
      if dst.rts.noEndpoint { return Err(EDSTDIED); }
      if dst.kind != Real { return Err(PANIC); }
      var me, s := priv[proc[c].priv].sNr[vm], priv[proc[c].priv].sid;
      if PureReceiving(dst) && !dst.replyPending {
        if dst.notGetfrom || !IsOkProcN(me) { return Err(PANIC); }
        if dst.getfrom == ANY || dst.getfrom == proc[Addr(vm, me)].ep {
          NotOnQueue(d);
          CountDirect(dst.priv, s);
          Deliver(d, false);
          return Ok;
        }
      }
      AddPending(dst.priv, s);
      return Ok;
    }

    // -------------------------------------------------------------- RELAY

    /** MH_relay */
    method MhRelay(c: nat, dstEp: int, srcEp: int) returns (code: Code)
      requires Valid() && Inv(Abs()) && IsSlot(Abs(), c)
      modifies this`proc, this`priv, this`running, rdy, callers
      ensures Valid() && (Abs(), code) == Ipc.MhRelay(old(Abs()), c, dstEp, srcEp)
    {
      ViewOk();
      var route := ResolveRelay(View(), c, dstEp, srcEp);
      SameRelay(c, dstEp, srcEp);
      match route
      case Refused(e) => return Err(e);
      case To(dst, src) => code := RelayTo(c, dst, dstEp, src);
    }

    lemma SameRelay(c: nat, dstEp: int, srcEp: int)
      requires Valid() && IsSlot(Abs(), c) && WF(View())
      ensures ResolveRelay(View(), c, dstEp, srcEp) == ResolveRelay(Abs(), c, dstEp, srcEp)
    {
    }

    method RelayTo(c: nat, dst: nat, dstEp: int, s: nat) returns (code: Code)
      requires Valid() && Inv(Abs()) && IsSlot(Abs(), c) && IsSlot(Abs(), dst) && IsSlot(Abs(), s) && PureReceiving(proc[s])
      modifies this`proc, this`priv, this`running, rdy, callers
      ensures Valid() && (Abs(), code) == Ipc.RelayTo(old(Abs()), c, dst, dstEp, s)
    {
      var caller, to := proc[c], proc[dst];
      NotOnQueue(dst);
      if PureReceiving(to) {
        if to.vmidPending {
          if AdmitsVm(to, caller, false) {
            Put(s, proc[s].(getfrom := to.ep));
            Deliver(dst, true);
            return Ok;
          }
        } else if to.notGetfrom {
          return Err(PANIC);
        } else if Admits(to, caller) {
          Inherit(dst, caller.vm);
          Put(s, proc[s].(getfrom := to.ep));
          Wake(dst, proc[dst].(rts := proc[dst].rts.(receiving := false), getfrom := NONE, replyPending := false, recvVm := ANY_VM));
          return Ok;
        }
      }
      if caller.nr == SYSTEM { return Err(PANIC); }
      HangForKeeps(Abs(), s, dst, dstEp);
      HangFor(s, dst, dstEp);
      if caller.vm != VM0 && to.kind.Virtual? {
        code := NotifyProxy(priv[to.priv].sid);
      } else {
        code := Ok;
      }
    }

    method HangFor(s: nat, dst: nat, dstEp: int)
      requires Valid() && Inv(Abs()) && IsSlot(Abs(), s) && IsSlot(Abs(), dst) && PureReceiving(proc[s])
      modifies this`proc, callers
      ensures Valid() && Abs() == Ipc.HangFor(old(Abs()), s, dst, dstEp)
    {
      assert Flags(proc, callers.q, orphans, s);
      Put(s, proc[s].(rts := proc[s].rts.(sending := true), sendto := dstEp));
      callers.Append(dst, s);
    }

    // -------------------------------------------------------------- sys_call()

    method SendRec(c: nat, srcDst: int, direct: bool) returns (code: Code)
      requires Valid() && Inv(Abs()) && IsSlot(Abs(), c) && proc[c].rts.Zero()
      modifies this`proc, this`priv, this`running, rdy, callers
      ensures Valid() && (Abs(), code) == S.SendRec(old(Abs()), c, srcDst, direct)
    {
      hide Ipc.MhSend, Ipc.MhReceive;
      MhSendKeeps(Abs(), c, srcDst, direct);
      code := MhSend(c, srcDst, direct);
      if code == Ok { code := MhReceive(c, srcDst); }
    }

    method SendVm(c: nat, srcDst: int, vm: int, direct: bool) returns (code: Code)
      requires Valid() && Inv(Abs()) && IsSlot(Abs(), c) && proc[c].rts.Zero() && 0 <= vm < NR_VMS
      modifies this`proc, this`priv, this`running, rdy, callers
      ensures Valid() && (Abs(), code) == S.SendVm(old(Abs()), c, srcDst, vm, direct)
    {
      hide Ipc.MhSend, Ipc.MhSendVm;
      if proc[c].vm == vm { code := MhSend(c, srcDst, direct); } else { code := MhSendVm(c, srcDst, vm); }
    }

    method ReceiveVm(c: nat, srcDst: int, vm: int) returns (code: Code)
      requires Valid() && Inv(Abs()) && IsSlot(Abs(), c) && CanReceive(Abs(), c) && ANY_VM <= vm < NR_VMS
      modifies this`proc, this`priv, this`running, rdy, callers
      ensures Valid() && (Abs(), code) == S.ReceiveVm(old(Abs()), c, srcDst, vm)
    {
      hide Ipc.MhReceive, Ipc.MhRecvVm;
      if proc[c].vm == vm {
        MarksVm(c);
        Put(c, proc[c].(vmidPending := true));
        code := MhReceive(c, srcDst);
      } else {
        code := MhRecvVm(c, srcDst, vm);
      }
    }

    lemma MarksVm(c: nat)
      requires Valid() && Inv(Abs()) && IsSlot(Abs(), c) && CanReceive(Abs(), c)
      ensures Inv(Ipc.Put(Abs(), c, proc[c].(vmidPending := true)))
    {
      assert Flags(proc, callers.q, orphans, c);
      PutKeeps(Abs(), c, proc[c].(vmidPending := true));
    }

    /** sys_call() */
    method Call(c: nat, fn: int, srcDst: int, arg: int, redirected: bool) returns (code: Code)
      requires Valid() && Inv(Abs()) && IsSlot(Abs(), c) && proc[c].rts.Zero()
      modifies this`proc, this`priv, this`running, rdy, callers
      ensures Valid() && (Abs(), code) == S.Call(old(Abs()), c, fn, srcDst, arg, redirected)
      ensures Inv(Abs())
    {
      hide S.Dispatch, S.Check, CallersOk, ReadyOk;
      CallKeeps(Abs(), c, fn, srcDst, arg, redirected);
      if fn == S.HDEBUG || fn == S.PRTMSG { return Ok; }
      ViewOk();
      SameCheck(c, fn, srcDst, arg);
      var verdict := S.Check(View(), c, fn, srcDst, arg);
      if verdict != Ok { return verdict; }
      Starts(c, fn);
      ArgumentsChecked(c, fn, srcDst, arg);
      Put(c, proc[c].(rts := RUNNABLE, replyPending := fn == S.SENDREC || fn == S.SENDRECVM, vmidPending := false));
      code := Dispatch(c, fn, srcDst, arg, redirected);
    }

    lemma ArgumentsChecked(c: nat, fn: int, srcDst: int, arg: int)
      requires Valid() && IsSlot(Abs(), c) && S.Check(Abs(), c, fn, srcDst, arg) == Ok
      requires fn != S.HDEBUG && fn != S.PRTMSG
      ensures S.SEND <= fn <= S.RELAY
      ensures fn == S.SENDAS || fn == S.RECVAS || fn == S.NOTIFYAS ==> 0 <= proc[c].proxy < NR_VMS
      ensures S.SENDVM <= fn <= S.NOTIFYVM ==> (if fn == S.RECVVM then ANY_VM else VM0) <= arg < NR_VMS
    {
    }

    lemma SameCheck(c: nat, fn: int, srcDst: int, arg: int)
      requires Valid() && IsSlot(Abs(), c) && WF(View())
      ensures S.Check(View(), c, fn, srcDst, arg) == S.Check(Abs(), c, fn, srcDst, arg)
    {
    }

    lemma Starts(c: nat, fn: int)
      requires Valid() && Inv(Abs()) && IsSlot(Abs(), c) && proc[c].rts.Zero()
      ensures Inv(S.Start(Abs(), c, fn))
    {
      assert Flags(proc, callers.q, orphans, c);
      PutKeeps(Abs(), c, proc[c].(rts := RUNNABLE, replyPending := fn == S.SENDREC || fn == S.SENDRECVM, vmidPending := false));
    }

    method Dispatch(c: nat, fn: int, srcDst: int, arg: int, redirected: bool) returns (code: Code)
      requires Valid() && Inv(Abs()) && IsSlot(Abs(), c) && proc[c].rts.Zero() && S.SEND <= fn <= S.RELAY
      requires fn == S.SENDAS || fn == S.RECVAS || fn == S.NOTIFYAS ==> 0 <= proc[c].proxy < NR_VMS
      requires S.SENDVM <= fn <= S.NOTIFYVM ==> (if fn == S.RECVVM then ANY_VM else VM0) <= arg < NR_VMS
      modifies this`proc, this`priv, this`running, rdy, callers
      ensures Valid() && (Abs(), code) == S.Dispatch(old(Abs()), c, fn, srcDst, arg, redirected)
    {
      hide Ipc.MhSend, Ipc.MhReceive, Ipc.MhNotify, Ipc.MhRelay, Ipc.MhSendAs, Ipc.MhRecvAs, Ipc.MhNtfyAs, Ipc.MhNtfyVm;
      hide S.SendRec, S.SendVm, S.ReceiveVm, ReadyOk;
      NotVirtual(c);
      var n := S.Named(fn, srcDst);
      if fn == S.SEND {
        code := MhSend(c, srcDst, !redirected);
      } else if fn == S.RECEIVE {
        code := MhReceive(c, srcDst);
      } else if fn == S.SENDREC {
        code := SendRec(c, srcDst, !redirected);
      } else if fn == S.NOTIFY {
        if !IsOkProcN(n) { return Err(PANIC); }
        code := MhNotify(c, n);
      } else if fn == S.RELAY {
        code := MhRelay(c, srcDst, arg);
      } else if fn == S.SENDAS {
        code := MhSendAs(c, srcDst, arg);
      } else if fn == S.RECVAS {
        code := MhRecvAs(c, srcDst, arg);
      } else if fn == S.NOTIFYAS {
        if !IsOkProcN(n) { return Err(PANIC); }
        code := MhNtfyAs(c, n, arg);
      } else if S.SENDVM <= fn <= S.NOTIFYVM {
        code := DispatchVm(c, fn, srcDst, arg, redirected);
      } else {
        code := Ok;
      }
    }

    method DispatchVm(c: nat, fn: int, srcDst: int, arg: int, redirected: bool) returns (code: Code)
      requires Valid() && Inv(Abs()) && IsSlot(Abs(), c) && proc[c].rts.Zero() && S.SENDVM <= fn <= S.NOTIFYVM
      requires (if fn == S.RECVVM then ANY_VM else VM0) <= arg < NR_VMS
      modifies this`proc, this`priv, this`running, rdy, callers
      ensures Valid() && (Abs(), code) == S.Dispatch(old(Abs()), c, fn, srcDst, arg, redirected)
    {
      hide Ipc.MhSend, Ipc.MhNotify, Ipc.MhNtfyVm, S.SendVm, S.ReceiveVm, ReadyOk;
      NotVirtual(c);
      var n := S.Named(fn, srcDst);
      if fn == S.SENDVM || fn == S.SENDRECVM {
        SendVmKeeps(Abs(), c, srcDst, arg, !redirected);
        code := SendVm(c, srcDst, arg, !redirected);
        if fn == S.SENDRECVM && code == Ok { code := ReceiveVm(c, srcDst, arg); }
      } else if fn == S.RECVVM {
        code := ReceiveVm(c, srcDst, arg);
      } else {
        if !IsOkProcN(n) { return Err(PANIC); }
        if proc[c].vm == arg { code := MhNotify(c, n); } else { code := MhNtfyVm(c, n, arg); }
      }
    }

    // -------------------------------------------------------------- death and the clock

    /** One turn of clear_endpoint()'s loop over the process table. */
    method ReleaseOne(y: nat, ep: int, s: nat)
      requires Valid() && Inv(Abs()) && IsSlot(Abs(), y) && s < NR_SYS_PROCS
      requires proc[y].rts.sending && proc[y].sendto == ep ==> y in orphans
      modifies this`proc, this`priv, this`orphans, rdy
      ensures Valid() && Abs() == R.ReleaseOne(old(Abs()), y, ep, s)
    {
      if proc[y].rts.Empty() { return; }
      var v := priv[proc[y].priv];
      priv := priv[proc[y].priv := v.(pend := v.pend[s := false], cnt := v.cnt[s := 0])];
      PrivKeeps(old(Abs()), Abs());
      R.StopReceivingKeeps(Abs(), y, ep);
      if proc[y].rts.receiving && proc[y].getfrom == ep {
        NotOnQueue(y);
        Wake(y, proc[y].(rts := proc[y].rts.(receiving := false)));
      }
      if proc[y].rts.sending && proc[y].sendto == ep {
        NotOnQueue(y);
        orphans := orphans - {y};
        Wake(y, proc[y].(rts := proc[y].rts.(sending := false)));
      }
    }

    /** The loop over the processes of the running VM. */
    method ReleaseAll(lo: nat, hi: nat, ep: int, s: nat)
      requires Valid() && Inv(Abs()) && lo <= hi <= |proc| && s < NR_SYS_PROCS
      requires forall y :: lo <= y < hi && proc[y].rts.sending && proc[y].sendto == ep ==> y in orphans
      modifies this`proc, this`priv, this`orphans, rdy
      ensures Valid() && Abs() == R.ReleaseAll(old(Abs()), lo, hi, ep, s)
    {
      hide CallersOk, ReadyOk, R.ReleaseOne;
      var y := lo;
      while y < hi
        invariant lo <= y <= hi <= |proc| && Valid() && Inv(Abs())
        invariant forall z :: y <= z < hi && proc[z].rts.sending && proc[z].sendto == ep ==> z in orphans
        invariant R.ReleaseAll(old(Abs()), lo, hi, ep, s) == R.ReleaseAll(Abs(), y, hi, ep, s)
      {
        R.ReleaseOneKeeps(Abs(), y, ep, s);
        OthersStillOrphans(y, hi, ep, s);
        ReleaseOne(y, ep, s);
        y := y + 1;
      }
    }

    /** clear_endpoint(); dropping the caller queue of the dead process is the model's. */
    method ClearEndpoint(rc: nat)
      requires Valid() && Inv(Abs()) && R.CanClear(Abs(), rc)
      modifies this`proc, this`priv, this`orphans, rdy, callers
      ensures Valid() && Abs() == R.ClearEndpoint(old(Abs()), rc) && Inv(Abs())
    {
      hide CallersOk, ReadyOk, R.ReleaseAll, R.Bury;
      R.ClearReleasesEachWaiter(Abs(), rc);
      R.BuryKeeps(Abs(), rc);
      R.CutKeeps(R.Bury(Abs(), rc), rc);
      R.NoneLeftOut(Abs(), rc);
      var ep, s := proc[rc].ep, priv[proc[rc].priv].sid;
      Bury(rc);
      orphans := orphans + (set y | y in callers.q[rc]);
      callers.Drop(rc);
      ReleaseAll(running * SLOTS + NR_TASKS, (running + 1) * SLOTS, ep, s);
    }

    method Bury(rc: nat)
      requires Valid() && IsSlot(Abs(), rc) && IsOkProcN(EndpointP(proc[rc].sendto))
      modifies this`proc, rdy, callers
      ensures Valid() && Abs() == R.Bury(old(Abs()), rc)
    {
      var p := proc[rc];
      if p.rts.sending {
        RemoveBounded(callers.q[Addr(running, EndpointP(p.sendto))], rc, |proc|);
        callers.Delete(Addr(running, EndpointP(p.sendto)), rc);
      }
      Block(rc, p.(rts := p.rts.(noEndpoint := true, sending := false, receiving := false), vmidPending := false,
                   notGetfrom := false, recvVm := ANY_VM, proxyServer := false, proxy := if p.proxyServer then VM0 else p.proxy));
    }

    lemma OthersStillOrphans(y: nat, hi: nat, ep: int, s: nat)
      requires Valid() && Inv(Abs()) && y < hi <= |proc| && s < NR_SYS_PROCS
      requires R.OnlyAt(Abs(), R.ReleaseOne(Abs(), y, ep, s), y)
      requires forall z :: y <= z < hi && proc[z].rts.sending && proc[z].sendto == ep ==> z in orphans
      ensures var r := R.ReleaseOne(Abs(), y, ep, s);
              forall z :: y + 1 <= z < hi && r.proc[z].rts.sending && r.proc[z].sendto == ep ==> z in r.orphans
    {
      var r := R.ReleaseOne(Abs(), y, ep, s);
      forall z | y + 1 <= z < hi && r.proc[z].rts.sending && r.proc[z].sendto == ep
        ensures z in r.orphans
      {
        assert r.proc[z] == proc[z] && z in orphans - {y};
      }
    }

    /** do_clocktick(): the process that has used up its quantum goes to the end of its new queue. */
    method Requeue(x: nat)
      requires Valid() && Inv(Abs()) && IsSlot(Abs(), x) && proc[x].rts.Zero()
      modifies this`proc, rdy
      ensures Valid() && Abs() == R.Requeue(old(Abs()), x) && Inv(Abs())
    {
      R.RequeueKeeps(Abs(), x);
      if proc[x].ticks <= 0 && priv[proc[x].priv].preemptible {
        ReadyDequeue(Abs(), x);
        Dequeue(x);
        Enqueue(x);
      }
    }
  }

  datatype Verdict = Delivered | Later | Broken

  /** The verdict and the new state are those of the offer. */
  ghost predicate Answers(offer: Offer, verdict: Verdict, before: State, after: State) {
    match offer
    case Taken(st) => verdict == Delivered && after == st
    case NotWaiting => verdict == Later && after == before
    case Failed => verdict == Broken && after == before
  }
}
