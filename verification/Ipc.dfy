/** Message passing as a state machine: kernel/proc.c's primitives as functions from one
    kernel state to the next.  One call is one atomic step. */
module Ipc {
  import opened Queues

  const VM0 := 0
  const ANY_VM := -1
  const NR_VMS := 4
  const NR_TASKS := 4
  const NR_PROCS := 100
  const SLOTS := NR_TASKS + NR_PROCS
  const NR_SYS_PROCS := 32
  const BITCHUNK_BITS := 16
  const NR_SYS_CHUNKS := 2
  const NR_SCHED_QUEUES := 16
  const IDLE_Q := 15

  const IDLE := -4
  const CLOCK := -3
  const SYSTEM := -2
  const HARDWARE := -1
  const NOT_PROC := 0x0400
  const ANY := 0x7ace
  const NONE := 0x6ace
  const GENERATION_SIZE := NR_TASKS + 0x8ace + 1

  datatype Option<T> = None | Some(value: T)

  /** p_rts_flags; `other` stands for every bit that message passing never touches. */
  datatype Rts = Rts(slotFree: bool, sending: bool, receiving: bool, notifying: bool, noEndpoint: bool, other: bool) {
    predicate Zero() {
      !slotFree && !sending && !receiving && !notifying && !noEndpoint && !other
    }

    /** p_rts_flags == SLOT_FREE */
    predicate Empty() {
      slotFree && !sending && !receiving && !notifying && !noEndpoint && !other
    }
  }

  const RUNNABLE := Rts(false, false, false, false, false, false)

  /** What a descriptor stands for; Promiscuous carries p_promiscuous. */
  datatype Kind = Real | Virtual | Promiscuous(home: nat)

  datatype Proc = Proc(
    nr: int, vm: nat, ep: int, kind: Kind, paravir: bool, proxyServer: bool, proxy: int, priv: nat,
    rts: Rts, replyPending: bool, vmidPending: bool, notGetfrom: bool,
    getfrom: int, sendto: int, recvVm: int,
    prio: nat, ticks: int, quantum: int)

  /** struct priv.  calls and dels count, per source id, the notifications a destination was
      sent and the ones it got; the kernel itself does not keep these two. */
  datatype Priv = Priv(
    sid: nat, preemptible: bool, traps: set<int>, vmBitmap: set<int>, drBitmap: set<int>, call2proxy: set<int>, sNr: seq<int>,
    pend: seq<bool>, cnt: seq<nat>, calls: seq<nat>, dels: seq<nat>)

  /** orphans are the processes left SENDING or NOTIFYING to a process that has died; they wait in no
      queue.  The kernel keeps no such set. */
  datatype State = State(
    proc: seq<Proc>, cq: seq<Queue>, rq: seq<Queue>, priv: seq<Priv>, orphans: set<nat>,
    running: int, cur: nat, up: set<int>, idNr: seq<seq<int>>, vmm: seq<int>)

  datatype Errno = EDSTDIED | ESRCDIED | EPROMISCUOUS | EVIRTUALTASK | EBADSRCDST | EPROCSTATUS | EBADVMID
                 | EAGAIN | EACCES | EPERM | EVMSTATUS | EDEADSRCDST | ETRAPDENIED | EBADCALL
                 | EDOM | EINVAL | EFAULT
                 | PANIC

  datatype Code = Ok | FromVm(vm: int) | Err(e: Errno)

  // ---------------------------------------------------------------- addressing

  predicate IsKernelNr(n: int) {
    IDLE <= n <= HARDWARE
  }

  predicate IsOkProcN(n: int) {
    0 <= n + NR_TASKS < SLOTS
  }

  /** proc_addr_vm(): the four kernel tasks are those of VM0 whatever the VM. */
  function Addr(vm: int, n: int): (slot: nat)
    requires 0 <= vm < NR_VMS && IsOkProcN(n)
    ensures slot < NR_VMS * SLOTS
  {
    if IsKernelNr(n) then n + NR_TASKS else vm * SLOTS + n + NR_TASKS
  }

  /** _ENDPOINT_P(); C's remainder takes the sign of its left operand. */
  function EndpointP(e: int): int {
    if e + NR_TASKS >= 0
    then (e + NR_TASKS) % GENERATION_SIZE - NR_TASKS
    else -(-(e + NR_TASKS) % GENERATION_SIZE) - NR_TASKS
  }

  // ---------------------------------------------------------------- well-formed states

  ghost predicate PrivWF(v: Priv) {
    && v.sid < NR_SYS_PROCS
    && |v.sNr| == NR_VMS
    && |v.pend| == |v.cnt| == |v.calls| == |v.dels| == NR_SYS_PROCS
  }

  ghost predicate ProcWF(p: Proc, slots: nat, privs: nat) {
    && p.vm < NR_VMS
    && p.priv < privs
    && p.prio < NR_SCHED_QUEUES
    && (p.kind.Promiscuous? ==> p.kind.home < slots)
  }

  ghost predicate WF(st: State) {
    && |st.proc| == |st.cq| == NR_VMS * SLOTS
    && |st.rq| == NR_SCHED_QUEUES
    && Bounded(st.cq, |st.proc|)
    && 0 <= st.running < NR_VMS
    && st.cur < |st.proc|
    && |st.idNr| == |st.vmm| == NR_VMS
    && (forall v :: 0 <= v < NR_VMS ==> |st.idNr[v]| == NR_SYS_PROCS)
    && (forall v :: 0 <= v < NR_VMS ==> IsOkProcN(EndpointP(st.vmm[v])))
    && (forall i :: 0 <= i < |st.priv| ==> PrivWF(st.priv[i]))
    && (forall x :: 0 <= x < |st.proc| ==> ProcWF(st.proc[x], |st.proc|, |st.priv|))
  }

  predicate IsSlot(st: State, x: int) {
    0 <= x < |st.proc|
  }

  /** isokendpt_vm(): a kernel task always passes; anything else must be alive with this endpoint. */
  predicate IsOkEndpt(st: State, vm: int, e: int)
    requires WF(st) && 0 <= vm < NR_VMS
  {
    var n := EndpointP(e);
    IsKernelNr(n)
    || (IsOkProcN(n) && st.proc[Addr(vm, n)].ep == e && !st.proc[Addr(vm, n)].rts.Empty())
  }

  // ---------------------------------------------------------------- building blocks

  function Put(st: State, x: nat, p: Proc): (r: State)
    requires WF(st) && IsSlot(st, x) && ProcWF(p, |st.proc|, |st.priv|)
    ensures WF(r)
  {
    st.(proc := st.proc[x := p])
  }

  /** sched(): a spent quantum is renewed and costs one priority level. */
  function Sched(p: Proc): Proc {
    if p.ticks > 0 then p
    else p.(ticks := p.quantum, prio := if p.prio < IDLE_Q - 1 then p.prio + 1 else p.prio)
  }

  predicate ToFront(p: Proc, cur: Proc) {
    p.ticks > 0 && !(p.nr == CLOCK && cur.nr == SYSTEM) && !(p.nr == SYSTEM && cur.nr == CLOCK)
  }

  function Enqueue(st: State, x: nat): (r: State)
    requires WF(st) && IsSlot(st, x)
    ensures WF(r)
  {
    var p := Sched(st.proc[x]);
    var q := st.rq[p.prio];
    Put(st, x, p).(rq := st.rq[p.prio := if ToFront(st.proc[x], st.proc[st.cur]) then [x] + q else q + [x]])
  }

  function Dequeue(st: State, x: nat): (r: State)
    requires WF(st) && IsSlot(st, x)
    ensures WF(r)
  {
    var d := st.proc[x].prio;
    st.(rq := st.rq[d := Remove(st.rq[d], x)])
  }

  /** Store the changed descriptor and make its process ready if nothing stops it any more. */
  function Wake(st: State, x: nat, p: Proc): (r: State)
    requires WF(st) && IsSlot(st, x) && ProcWF(p, |st.proc|, |st.priv|)
    ensures WF(r)
  {
    if p.rts.Zero() then Enqueue(Put(st, x, p), x) else Put(st, x, p)
  }

  /** Take the process off the ready queues if it is there and store the changed descriptor. */
  function Block(st: State, x: nat, p: Proc): (r: State)
    requires WF(st) && IsSlot(st, x) && ProcWF(p, |st.proc|, |st.priv|)
    ensures WF(r)
  {
    Put(if st.proc[x].rts.Zero() then Dequeue(st, x) else st, x, p)
  }

  function Hang(st: State, d: nat, x: nat): (r: State)
    requires WF(st) && IsSlot(st, d) && IsSlot(st, x)
    ensures WF(r)
  {
    st.(cq := st.cq[d := st.cq[d] + [x]])
  }

  function Unhang(st: State, d: nat, k: nat): (r: State)
    requires WF(st) && IsSlot(st, d) && k < |st.cq[d]|
    ensures WF(r)
  {
    var q := RemoveAt(st.cq[d], k);
    assert forall i :: 0 <= i < |q| ==> q[i] == st.cq[d][if i < k then i else i + 1];
    st.(cq := st.cq[d := q])
  }

  /** Block `x` with the SENDING flag at the end of the caller queue of `d`. */
  function BlockSending(st: State, x: nat, d: nat, ep: int): (r: State)
    requires WF(st) && IsSlot(st, x) && IsSlot(st, d)
    ensures WF(r)
  {
    var p := st.proc[x];
    Hang(Block(st, x, p.(rts := p.rts.(sending := true), sendto := ep)), d, x)
  }

  function BlockNotifying(st: State, x: nat, d: nat, ep: int): (r: State)
    requires WF(st) && IsSlot(st, x) && IsSlot(st, d)
    ensures WF(r)
  {
    var p := st.proc[x];
    Hang(Put(Dequeue(st, x), x, p.(rts := p.rts.(notifying := true), sendto := ep)), d, x)
  }

  /** Clear RECEIVING; `misc` says whether the pending flags and p_recv_vm are reset as well. */
  function Deliver(st: State, d: nat, misc: bool): (r: State)
    requires WF(st) && IsSlot(st, d)
    ensures WF(r)
  {
    var p := st.proc[d];
    var got := p.(rts := p.rts.(receiving := false), getfrom := NONE);
    Wake(st, d, if misc then got.(vmidPending := false, notGetfrom := false, replyPending := false, recvVm := ANY_VM)
                else got)
  }

  /** Take the sender at position k of the caller queue of d: unlink it, give it the flags rts. */
  function Release(st: State, d: nat, k: nat, rts: Rts): (r: State)
    requires WF(st) && IsSlot(st, d) && k < |st.cq[d]|
    ensures WF(r)
  {
    var x := st.cq[d][k];
    Unhang(Wake(st, x, st.proc[x].(rts := rts, sendto := NONE)), d, k)
  }

  /** The flags a released sender keeps: NOTIFYING is looked at before SENDING. */
  function Released(rts: Rts): Rts {
    if rts.notifying then rts.(notifying := false) else rts.(sending := false)
  }

  function Settle(st: State, c: nat): (r: State)
    requires WF(st) && IsSlot(st, c)
    ensures WF(r)
  {
    Put(st, c, st.proc[c].(vmidPending := false, notGetfrom := false, replyPending := false))
  }

  // ---------------------------------------------------------------- pending notifications

  function Byte(n: int): nat {
    n % 256
  }

  function PutPriv(st: State, i: nat, v: Priv): (r: State)
    requires WF(st) && i < |st.priv| && PrivWF(v)
    ensures WF(r)
  {
    st.(priv := st.priv[i := v])
  }

  /** Not deliverable now: set the pending bit of source id s and count in one byte. */
  function AddPending(st: State, i: nat, s: nat): (r: State)
    requires WF(st) && i < |st.priv| && s < NR_SYS_PROCS
    ensures WF(r)
  {
    var v := st.priv[i];
    PutPriv(st, i, v.(pend := v.pend[s := true], cnt := v.cnt[s := Byte(v.cnt[s] + 1)], calls := v.calls[s := v.calls[s] + 1]))
  }

  function TakePending(st: State, i: nat, s: nat): (r: State)
    requires WF(st) && i < |st.priv| && s < NR_SYS_PROCS
    ensures WF(r)
  {
    var v := st.priv[i];
    var left := Byte(v.cnt[s] + 255);
    PutPriv(st, i, v.(pend := if left == 0 then v.pend[s := false] else v.pend,
                      cnt := v.cnt[s := left], dels := v.dels[s := v.dels[s] + 1]))
  }

  /** A notification that is delivered at once. */
  function CountDirect(st: State, i: nat, s: nat): (r: State)
    requires WF(st) && i < |st.priv| && s < NR_SYS_PROCS
    ensures WF(r)
  {
    var v := st.priv[i];
    PutPriv(st, i, v.(calls := v.calls[s := v.calls[s] + 1], dels := v.dels[s := v.dels[s] + 1]))
  }

  /** Which sources a receiver wants, by process number. */
  datatype Want = Anyone | Only(nr: int) | AllBut(nr: int) {
    predicate Matches(n: int) {
      match this
      case Anyone => true
      case Only(m) => n == m
      case AllBut(m) => n != m
    }
  }

  /** First set bit at or after lo, hi if there is none before hi. */
  function LowestBit(pend: seq<bool>, lo: nat, hi: nat): (s: nat)
    requires lo <= hi <= |pend|
    ensures lo <= s <= hi
    ensures s < hi ==> pend[s]
    ensures forall i :: lo <= i < s ==> !pend[i]
    decreases hi - lo
  {
    if lo == hi || pend[lo] then lo else LowestBit(pend, lo + 1, hi)
  }

  /** The search both receives run: in each chunk only the lowest pending bit is looked at. */
  function FindPending(pend: seq<bool>, ids: seq<int>, want: Want, chunk: nat): (r: Option<nat>)
    requires |pend| == |ids| == NR_SYS_PROCS && chunk <= NR_SYS_CHUNKS
    ensures r.Some? ==> r.value < NR_SYS_PROCS && pend[r.value] && want.Matches(ids[r.value])
    decreases NR_SYS_CHUNKS - chunk
  {
    if chunk == NR_SYS_CHUNKS then None
    else
      var hi := (chunk + 1) * BITCHUNK_BITS;
      var s := LowestBit(pend, chunk * BITCHUNK_BITS, hi);
      if s < hi && want.Matches(ids[s]) then Some(s) else FindPending(pend, ids, want, chunk + 1)
  }

  // ---------------------------------------------------------------- SEND

  datatype Route = To(dst: nat, dstX: nat) | Refused(e: Errno)

  /** MH_send, MH_notify, MH_relay: from the descriptor the caller named to the one that gets the
      message (dst) and the one in the caller's VM (dstX).  `home` is the promiscuous process on VM0,
      `direct` says that the message is a kernel call that is not redirected to the proxy. */
  function RouteTo(st: State, c: nat, d: nat, home: nat, direct: bool): (r: Route)
    requires WF(st) && IsSlot(st, c) && IsSlot(st, d) && IsSlot(st, home)
    ensures r.To? ==> IsSlot(st, r.dst) && IsSlot(st, r.dstX)
  {
    var caller, dst := st.proc[c], st.proc[d];
    if caller.vm == VM0 then To(d, d)
    else
      match dst.kind
      case Promiscuous(_) =>
        if caller.vm in st.priv[st.proc[home].priv].vmBitmap then To(home, d) else Refused(EPROMISCUOUS)
      case Virtual =>
        if direct && dst.nr == SYSTEM && caller.paravir && caller.replyPending then To(Addr(VM0, SYSTEM), d)
        else if !IsOkEndpt(st, VM0, st.vmm[st.running]) then Refused(EVIRTUALTASK)
        else if st.proc[Addr(VM0, EndpointP(st.vmm[st.running]))].proxy != caller.vm then Refused(EVIRTUALTASK)
        else To(d, d)
      case Real => To(d, d)
  }

  /** p_promiscuous of a promiscuous descriptor. */
  function HomeOf(st: State, d: nat): (h: nat)
    requires WF(st) && IsSlot(st, d)
    ensures IsSlot(st, h)
  {
    if st.proc[d].kind.Promiscuous? then st.proc[d].kind.home else d
  }

  predicate PureReceiving(p: Proc) {
    p.rts.receiving && !p.rts.sending
  }

  /** The receiver uses RECVVM and its conditions admit a message from the caller. */
  predicate AdmitsVm(dst: Proc, caller: Proc, fromHardware: bool) {
    && !(dst.notGetfrom && dst.getfrom == caller.nr)
    && (dst.recvVm == ANY_VM || dst.recvVm == caller.vm || fromHardware)
    && (dst.getfrom == caller.ep || dst.getfrom == ANY || dst.notGetfrom)
  }

  predicate Admits(dst: Proc, caller: Proc) {
    && (dst.vm == caller.vm || dst.nr == SYSTEM)
    && (dst.getfrom == ANY || dst.getfrom == caller.ep)
  }

  /** SYSTASK works for the VM of whoever it got its message from. */
  function Inherit(st: State, dst: nat, vm: nat): (r: State)
    requires WF(st) && IsSlot(st, dst) && vm < NR_VMS
    ensures WF(r)
  {
    var s := Addr(VM0, SYSTEM);
    if st.proc[dst].nr == SYSTEM then Put(st, s, st.proc[s].(vm := vm)) else st
  }

  datatype Offer = Taken(st: State) | NotWaiting | Failed

  /** The test at the heart of MH_send: is dst blocked waiting for this message? */
  function OfferMessage(st: State, c: nat, dst: nat, dstX: nat): (r: Offer)
    requires WF(st) && IsSlot(st, c) && IsSlot(st, dst) && IsSlot(st, dstX)
    ensures r.Taken? ==> WF(r.st)
  {
    var caller, to := st.proc[c], st.proc[dst];
    if !PureReceiving(to) then NotWaiting
    else if to.vmidPending then
      if !st.proc[dstX].kind.Promiscuous? && caller.vm != VM0 then Failed
      else if AdmitsVm(to, caller, false) then Taken(Deliver(st, dst, true)) else NotWaiting
    else if to.notGetfrom then Failed
    else if Admits(to, caller) then Taken(Deliver(Inherit(st, dst, caller.vm), dst, true))
    else NotWaiting
  }

  /** notify_proxy(): HARDWARE notifies the proxy of the running VM about driver s. */
  function NotifyProxy(st: State, s: nat): (r: (State, Code))
    requires WF(st)
    ensures WF(r.0)
  {
    var px := Addr(VM0, EndpointP(st.vmm[st.running]));
    if s in st.priv[st.proc[px].priv].drBitmap then
      if st.proc[px].rts.noEndpoint then (st, Err(EDSTDIED))
      else
        var after := NotifyPlain(st.(running := VM0), Addr(VM0, HARDWARE), px);
        (after.0.(running := st.running), after.1)
    else (st, Err(EACCES))
  }

  /** The first half of MH_send: find the destination or an error. */
  function ResolveSend(st: State, c: nat, dstEp: int, direct: bool): (r: Route)
    requires WF(st) && IsSlot(st, c)
    ensures r.To? ==> IsSlot(st, r.dst) && IsSlot(st, r.dstX)
  {
    if !IsOkEndpt(st, st.running, dstEp) then Refused(EDSTDIED)
    else
      var n := EndpointP(dstEp);
      if st.proc[c].paravir && n == SYSTEM && st.running == VM0 then Refused(PANIC)
      else
        var d := if st.proc[c].paravir && n == SYSTEM then st.running * SLOTS + n + NR_TASKS else Addr(st.running, n);
        if st.proc[d].rts.noEndpoint then Refused(EDSTDIED) else RouteTo(st, c, d, HomeOf(st, d), direct)
  }

  /** MH_send */
  function MhSend(st: State, c: nat, dstEp: int, direct: bool): (r: (State, Code))
    requires WF(st) && IsSlot(st, c)
    ensures WF(r.0)
  {
    match ResolveSend(st, c, dstEp, direct)
    case Refused(e) => (st, Err(e))
    case To(dst, dstX) => SendTo(st, c, dst, dstX, dstEp)
  }

  function SendTo(st: State, c: nat, dst: nat, dstX: nat, dstEp: int): (r: (State, Code))
    requires WF(st) && IsSlot(st, c) && IsSlot(st, dst) && IsSlot(st, dstX)
    ensures WF(r.0)
  {
    match OfferMessage(st, c, dst, dstX)
    case Taken(after) => (after, Ok)
    case Failed => (st, Err(PANIC))
    case NotWaiting =>
      var blocked := BlockSending(st, c, dst, dstEp);
      if st.proc[c].vm != VM0 && st.proc[dst].kind.Virtual?
      then NotifyProxy(blocked, st.priv[st.proc[dst].priv].sid)
      else (blocked, Ok)
  }

  // ---------------------------------------------------------------- RECEIVE

  /** MH_receive takes the sender x out of its caller queue. */
  predicate Acceptable(st: State, c: nat, srcEp: int, x: nat)
    requires WF(st) && IsSlot(st, c) && IsSlot(st, x)
  {
    var me, from := st.proc[c], st.proc[x];
    var cross := CrossVm(st, c, x);
    && (me.vm == from.vm || me.nr == SYSTEM || cross)
    && (srcEp == ANY
        || if cross then srcEp == st.proc[Addr(st.running, st.priv[from.priv].sNr[me.vm])].ep else srcEp == from.ep)
  }

  /** cond0: the sender is a VM0 process inside a SENDRECVM to a process of the receiver's VM. */
  predicate CrossVm(st: State, c: nat, x: nat)
    requires WF(st) && IsSlot(st, c) && IsSlot(st, x)
  {
    var me, from := st.proc[c], st.proc[x];
    && me.vm != VM0 && from.vm == VM0 && from.vmidPending && from.rts.sending && from.rts.receiving
    && IsOkProcN(st.priv[from.priv].sNr[me.vm])
  }

  /** Position of the first acceptable sender at or after k, the length of the queue if none. */
  function FirstAcceptable(st: State, c: nat, srcEp: int, k: nat): (r: nat)
    requires WF(st) && IsSlot(st, c) && k <= |st.cq[c]|
    ensures k <= r <= |st.cq[c]|
    ensures r < |st.cq[c]| ==> Acceptable(st, c, srcEp, st.cq[c][r])
    ensures forall j :: k <= j < r ==> !Acceptable(st, c, srcEp, st.cq[c][j])
    decreases |st.cq[c]| - k
  {
    if k == |st.cq[c]| || Acceptable(st, c, srcEp, st.cq[c][k]) then k
    else FirstAcceptable(st, c, srcEp, k + 1)
  }

  /** SYSTASK and CLOCK go back to VM0 before they wait for anyone. */
  function Home(st: State, c: nat, srcEp: int): (r: State)
    requires WF(st) && IsSlot(st, c)
    ensures WF(r)
  {
    if (st.proc[c].nr == SYSTEM || st.proc[c].nr == CLOCK) && srcEp == ANY
    then Put(st, c, st.proc[c].(vm := VM0)).(running := VM0)
    else st
  }

  function WantOf(srcEp: int): Want {
    if srcEp == ANY then Anyone else Only(EndpointP(srcEp))
  }

  /** MH_receive */
  function MhReceive(st0: State, c: nat, srcEp: int): (r: (State, Code))
    requires WF(st0) && IsSlot(st0, c)
    ensures WF(r.0)
  {
    var st := Home(st0, c, srcEp);
    if srcEp != ANY && !IsOkEndpt(st, st.running, srcEp) then (st, Err(ESRCDIED))
    else if srcEp != ANY && st.proc[Addr(st.running, EndpointP(srcEp))].rts.noEndpoint then (st, Err(ESRCDIED))
    else if st.proc[c].rts.sending then (BlockReceiving(st, c, srcEp), Ok)
    else (ReceiveNow(st, c, srcEp), Ok)
  }

  /** A pending notification (unless a reply is due), else the first acceptable sender, else block. */
  function ReceiveNow(st: State, c: nat, srcEp: int): (r: State)
    requires WF(st) && IsSlot(st, c)
    ensures WF(r)
  {
    var i := st.proc[c].priv;
    var pending := if st.proc[c].replyPending then None
                   else FindPending(st.priv[i].pend, st.idNr[st.running], WantOf(srcEp), 0);
    if pending.Some? then TakePending(st, i, pending.value)
    else
      var k := FirstAcceptable(st, c, srcEp, 0);
      if k < |st.cq[c]| then Settle(TakeSender(st, c, k), c) else BlockReceiving(st, c, srcEp)
  }

  function TakeSender(st: State, c: nat, k: nat): (r: State)
    requires WF(st) && IsSlot(st, c) && k < |st.cq[c]|
    ensures WF(r)
  {
    var x := st.cq[c][k];
    var vm := st.proc[x].vm;
    var went := if st.proc[c].nr == SYSTEM then Inherit(st, c, vm).(running := vm) else st;
    Release(went, c, k, Released(st.proc[x].rts))
  }

  function BlockReceiving(st: State, c: nat, srcEp: int): (r: State)
    requires WF(st) && IsSlot(st, c)
    ensures WF(r)
  {
    var p := st.proc[c];
    Block(st, c, p.(rts := p.rts.(receiving := true), getfrom := srcEp, recvVm := p.vm))
  }

  // ---------------------------------------------------------------- NOTIFY

  /** The test at the heart of MH_notify. */
  function OfferNotify(st: State, c: nat, dst: nat, dstX: nat): (r: Offer)
    requires WF(st) && IsSlot(st, c) && IsSlot(st, dst) && IsSlot(st, dstX)
    ensures r.Taken? ==> WF(r.st)
  {
    var caller, to := st.proc[c], st.proc[dst];
    var s := st.priv[caller.priv].sid;
    if !PureReceiving(to) || to.replyPending then NotWaiting
    else if to.vmidPending then
      if !st.proc[dstX].kind.Promiscuous? && caller.vm != VM0 then Failed
      else if AdmitsVm(to, caller, caller.nr == HARDWARE) then
        var got := to.(rts := to.rts.(receiving := false), getfrom := NONE, vmidPending := false, notGetfrom := false, recvVm := ANY_VM);
        Taken(Wake(CountDirect(st, to.priv, s), dst, got))
      else NotWaiting
    else if to.notGetfrom then Failed
    else if caller.vm != VM0 && st.proc[dstX].kind.Promiscuous? then NotWaiting
    else if to.getfrom == ANY || to.getfrom == caller.ep then
      Taken(Deliver(CountDirect(Inherit(st, dst, caller.vm), to.priv, s), dst, false))
    else NotWaiting
  }

  /** MH_notify by a process of VM0. */
  function NotifyPlain(st: State, c: nat, d: nat): (r: (State, Code))
    requires WF(st) && IsSlot(st, c) && IsSlot(st, d)
    ensures WF(r.0)
  {
    match OfferNotify(st, c, d, d)
    case Taken(after) => (after, Ok)
    case Failed => (st, Err(PANIC))
    case NotWaiting => (AddPending(st, st.proc[d].priv, st.priv[st.proc[c].priv].sid), Ok)
  }

  /** MH_notify */
  function MhNotify(st: State, c: nat, n: int): (r: (State, Code))
    requires WF(st) && IsSlot(st, c) && IsOkProcN(n)
    ensures WF(r.0)
  {
    var d := Addr(st.running, n);
    if st.proc[d].rts.noEndpoint then (st, Err(EDSTDIED))
    else if st.proc[c].vm == VM0 then NotifyPlain(st, c, d)
    else if st.proc[d].kind.Promiscuous? && HomeOf(st, d) != Addr(VM0, n) then (st, Err(PANIC))
    else
      match RouteTo(st, c, d, HomeOf(st, d), false)
      case Refused(e) => (st, Err(e))
      case To(dst, dstX) =>
        if st.proc[d].kind.Promiscuous? && !st.proc[dst].vmidPending then (st, Err(PANIC))
        else
          match OfferNotify(st, c, dst, dstX)
          case Taken(after) => (after, Ok)
          case Failed => (st, Err(PANIC))
          case NotWaiting => NotifyLater(st, c, d, dst)
  }

  /** Not deliverable now: a guest blocks on a descriptor that stands for a VM0 process. */
  function NotifyLater(st: State, c: nat, d: nat, dst: nat): (r: (State, Code))
    requires WF(st) && IsSlot(st, c) && IsSlot(st, d) && IsSlot(st, dst)
    ensures WF(r.0)
  {
    if st.proc[d].kind.Promiscuous? then (BlockNotifying(st, c, dst, st.proc[d].ep), Ok)
    else if st.proc[d].kind.Virtual? then
      var px := Addr(VM0, EndpointP(st.vmm[st.running]));
      NotifyProxy(BlockNotifying(st, c, d, st.proc[d].ep), st.priv[st.proc[px].priv].sid)
    else (AddPending(st, st.proc[dst].priv, st.priv[st.proc[c].priv].sid), Ok)
  }

  // ---------------------------------------------------------------- proxies: SENDAS, RECVAS, NOTIFYAS

  /** The virtual descriptor a proxy speaks for; SYSTEM has one of its own in every VM. */
  function Emulated(vm: int, n: int, system: bool): (slot: nat)
    requires 0 <= vm < NR_VMS && (system || IsOkProcN(n))
    ensures slot < NR_VMS * SLOTS
  {
    if system then vm * SLOTS + SYSTEM + NR_TASKS else Addr(vm, n)
  }

  /** MH_sendas */
  function MhSendAs(st: State, c: nat, dstEp: int, srcNr: int): (r: (State, Code))
    requires WF(st) && IsSlot(st, c) && 0 <= st.proc[c].proxy < NR_VMS
    ensures WF(r.0)
  {
    var vm := st.proc[c].proxy;
    if !IsOkEndpt(st, vm, dstEp) then (st, Err(EDSTDIED))
    else
      var n := EndpointP(dstEp);
      var d := Addr(vm, n);
      var dst := st.proc[d];
      if dst.rts.noEndpoint then (st, Err(EDSTDIED))
      else if dst.kind != Real then (st, Err(EBADSRCDST))
      else if n != SYSTEM && !IsOkProcN(srcNr) then (st, Err(PANIC))
      else
        var src := st.proc[Emulated(vm, srcNr, n == SYSTEM)];
        if src.kind != Virtual then (st, Err(EVIRTUALTASK))
        else if !PureReceiving(dst) then (st, Err(EPROCSTATUS))
        else if dst.getfrom != src.ep && dst.getfrom != ANY then (st, Err(ESRCDIED))
        else (Deliver(st, d, false), Ok)
  }

  /** MH_recvas */
  function MhRecvAs(st: State, c: nat, srcEp: int, dstNr: int): (r: (State, Code))
    requires WF(st) && IsSlot(st, c) && 0 <= st.proc[c].proxy < NR_VMS
    ensures WF(r.0)
  {
    var vm := st.proc[c].proxy;
    if dstNr != SYSTEM && !IsOkProcN(dstNr) then (st, Err(EDSTDIED))
    else
      var d := Emulated(vm, dstNr, dstNr == SYSTEM);
      if st.proc[d].kind != Virtual then (st, Err(EVIRTUALTASK))
      else if srcEp != ANY && !IsOkEndpt(st, vm, srcEp) then (st, Err(ESRCDIED))
      else if srcEp != ANY && st.proc[Addr(vm, EndpointP(srcEp))].rts.noEndpoint then (st, Err(ESRCDIED))
      else
        var i := st.proc[d].priv;
        var pending := FindPending(st.priv[i].pend, st.idNr[st.running], WantOf(srcEp), 0);
        if pending.Some? then (TakePending(st, i, pending.value), Ok)
        else
          var k := FirstFrom(st, d, srcEp, 0);
          if k < |st.cq[d]| then
            (Release(st, d, k, st.proc[st.cq[d][k]].rts.(sending := false, notifying := false)), Ok)
          else (st, Err(EAGAIN))
  }

  function FirstFrom(st: State, d: nat, srcEp: int, k: nat): (r: nat)
    requires WF(st) && IsSlot(st, d) && k <= |st.cq[d]|
    ensures k <= r <= |st.cq[d]|
    ensures r < |st.cq[d]| ==> srcEp == ANY || srcEp == st.proc[st.cq[d][r]].ep
    ensures forall j :: k <= j < r ==> srcEp != ANY && srcEp != st.proc[st.cq[d][j]].ep
    decreases |st.cq[d]| - k
  {
    if k == |st.cq[d]| || srcEp == ANY || srcEp == st.proc[st.cq[d][k]].ep then k
    else FirstFrom(st, d, srcEp, k + 1)
  }

  /** MH_ntfyas */
  function MhNtfyAs(st: State, c: nat, dstNr: int, srcNr: int): (r: (State, Code))
    requires WF(st) && IsSlot(st, c) && 0 <= st.proc[c].proxy < NR_VMS && IsOkProcN(dstNr)
    ensures WF(r.0)
  {
    var vm := st.proc[c].proxy;
    var d := Addr(vm, dstNr);
    var dst := st.proc[d];
    if dst.rts.noEndpoint then (st, Err(EDSTDIED))
    else if dst.kind != Real then (st, Err(EBADSRCDST))
    else if !IsOkProcN(srcNr) then (st, Err(PANIC))
    else
      var src := st.proc[Addr(vm, srcNr)];
      if src.kind != Virtual then (st, Err(EVIRTUALTASK))
      else
        var s := st.priv[src.priv].sid;
        if PureReceiving(dst) && !dst.replyPending && (dst.getfrom == ANY || dst.getfrom == src.ep) then
          var got := dst.(rts := dst.rts.(receiving := false), getfrom := NONE, recvVm := ANY_VM);
          (Wake(CountDirect(st, dst.priv, s), d, got), Ok)
        else (AddPending(st, dst.priv, s), Ok)
  }

  // ---------------------------------------------------------------- promiscuous tasks: SENDVM, RECVVM, NOTIFYVM

  /** MH_sendvm */
  function MhSendVm(st0: State, c: nat, dstEp: int, vm: int): (r: (State, Code))
    requires WF(st0) && IsSlot(st0, c) && 0 <= vm < NR_VMS
    ensures WF(r.0)
  {
    if !IsOkEndpt(st0, vm, dstEp) then (st0, Err(EDSTDIED))
    else
      var d := Addr(vm, EndpointP(dstEp));
      if st0.proc[d].rts.noEndpoint then (st0, Err(EDSTDIED))
      else if st0.proc[d].kind != Real then (st0, Err(EBADSRCDST))
      else
        SendVmTo(Put(st0, c, st0.proc[c].(vmidPending := st0.proc[c].vmidPending || st0.proc[c].replyPending)), c, d, dstEp, vm)
  }

  /** The message goes out under the endpoint the caller has in that VM. */
  function SendVmTo(st: State, c: nat, d: nat, dstEp: int, vm: int): (r: (State, Code))
    requires WF(st) && IsSlot(st, c) && IsSlot(st, d) && 0 <= vm < NR_VMS
    ensures WF(r.0)
  {
    var dst := st.proc[d];
    var me := st.priv[st.proc[c].priv].sNr[vm];
    if PureReceiving(dst) && (dst.notGetfrom || !IsOkProcN(me)) then (st, Err(PANIC))
    else if PureReceiving(dst) && (dst.getfrom == ANY || dst.getfrom == st.proc[Addr(vm, me)].ep) then (Deliver(st, d, false), Ok)
    else (BlockSending(st, c, d, dstEp), Ok)
  }

  /** RECVVM's source argument: NOT_PROC turns it into "anyone but". */
  predicate HasNotProc(e: int) {
    (e / NOT_PROC) % 2 == 1
  }

  /** The sender x in the caller queue answers RECVVM's conditions. */
  predicate AcceptableVm(st: State, srcEp: int, except: bool, vm: int, x: nat)
    requires WF(st) && IsSlot(st, x)
  {
    var from := st.proc[x];
    if except then !(srcEp == from.nr && (vm == ANY_VM || vm == from.vm))
    else (srcEp == ANY || srcEp == from.ep) && (vm == from.vm || vm == ANY_VM)
  }

  function FirstAcceptableVm(st: State, c: nat, srcEp: int, except: bool, vm: int, k: nat): (r: nat)
    requires WF(st) && IsSlot(st, c) && k <= |st.cq[c]|
    ensures k <= r <= |st.cq[c]|
    ensures r < |st.cq[c]| ==> AcceptableVm(st, srcEp, except, vm, st.cq[c][r])
    ensures forall j :: k <= j < r ==> !AcceptableVm(st, srcEp, except, vm, st.cq[c][j])
    decreases |st.cq[c]| - k
  {
    if k == |st.cq[c]| || AcceptableVm(st, srcEp, except, vm, st.cq[c][k]) then k
    else FirstAcceptableVm(st, c, srcEp, except, vm, k + 1)
  }

  /** MH_recvvm */
  function MhRecvVm(st0: State, c: nat, srcEp0: int, vm: int): (r: (State, Code))
    requires WF(st0) && IsSlot(st0, c) && ANY_VM <= vm < NR_VMS
    ensures WF(r.0)
  {
    var st := Put(st0, c, st0.proc[c].(vmidPending := false, notGetfrom := false));
    var reply := st.proc[c].replyPending;
    var except := !reply && srcEp0 != ANY && HasNotProc(srcEp0);
    var srcEp := if except then srcEp0 - NOT_PROC else srcEp0;
    if !reply && !except && srcEp != ANY && vm == ANY_VM then (st, Err(EBADSRCDST))
    else if !except && (reply || srcEp != ANY) && !(vm != ANY_VM && IsOkEndpt(st, vm, srcEp)) then (st, Err(ESRCDIED))
    else ReceiveVmNow(st, c, srcEp, except, vm)
  }

  /** MH_recvvm from the search for a pending notification on. */
  function ReceiveVmNow(st: State, c: nat, srcEp: int, except: bool, vm: int): (r: (State, Code))
    requires WF(st) && IsSlot(st, c) && ANY_VM <= vm < NR_VMS
    ensures WF(r.0)
  {
    var i := st.proc[c].priv;
    var hw := st.priv[st.proc[Addr(VM0, HARDWARE)].priv].sid;
    var want := if except then AllBut(srcEp) else WantOf(srcEp);
    var pending := if st.proc[c].replyPending then None
                   else if vm == ANY_VM || vm == VM0 then FindPending(st.priv[i].pend, st.idNr[st.running], want, 0)
                   else if st.priv[i].pend[hw] then Some(hw)
                   else None;
    if pending.Some? then (TakePending(st, i, pending.value), FromVm(if vm == ANY_VM then VM0 else vm))
    else
      var k := FirstAcceptableVm(st, c, srcEp, except, vm, 0);
      if k < |st.cq[c]| then TakeSenderVm(st, c, k) else (WaitVm(st, c, srcEp, except, vm), Ok)
  }

  function WaitVm(st: State, c: nat, srcEp: int, except: bool, vm: int): (r: State)
    requires WF(st) && IsSlot(st, c)
    ensures WF(r)
  {
    var p := st.proc[c];
    var rts := p.rts.(receiving := true);
    Block(st, c, p.(rts := rts, getfrom := srcEp, recvVm := vm, vmidPending := true, notGetfrom := except))
  }

  function TakeSenderVm(st: State, c: nat, k: nat): (r: (State, Code))
    requires WF(st) && IsSlot(st, c) && k < |st.cq[c]|
    ensures WF(r.0)
  {
    var from := st.proc[st.cq[c][k]];
    if from.vm != VM0 && !ServesVm(st, c, from.vm) then (st, Err(PANIC))
    else
      var rts := if from.vm != VM0 then Released(from.rts) else from.rts.(sending := false);
      var after := Settle(Release(st, c, k, rts), c);
      (Put(after, c, after.proc[c].(recvVm := ANY_VM)), FromVm(from.vm))
  }

  /** The assertions of MH_recvvm: the caller has a promiscuous descriptor in that VM and serves it. */
  predicate ServesVm(st: State, c: nat, vm: nat)
    requires WF(st) && IsSlot(st, c) && vm < NR_VMS
  {
    var v := st.priv[st.proc[c].priv];
    IsOkProcN(v.sNr[vm]) && st.proc[Addr(vm, v.sNr[vm])].kind.Promiscuous? && vm in v.vmBitmap
  }

  /** MH_ntfyvm */
  function MhNtfyVm(st: State, c: nat, n: int, vm: int): (r: (State, Code))
    requires WF(st) && IsSlot(st, c) && IsOkProcN(n) && 0 <= vm < NR_VMS
    ensures WF(r.0)
  {
    var d := Addr(vm, n);
    var dst := st.proc[d];
    if dst.rts.noEndpoint then (st, Err(EDSTDIED))
    else if dst.kind != Real then (st, Err(PANIC))
    else
      var me := st.priv[st.proc[c].priv].sNr[vm];
      var s := st.priv[st.proc[c].priv].sid;
      if PureReceiving(dst) && !dst.replyPending && (dst.notGetfrom || !IsOkProcN(me)) then (st, Err(PANIC))
      else if PureReceiving(dst) && !dst.replyPending && (dst.getfrom == ANY || dst.getfrom == st.proc[Addr(vm, me)].ep) then
        (Deliver(CountDirect(st, dst.priv, s), d, false), Ok)
      else (AddPending(st, dst.priv, s), Ok)
  }

  // ---------------------------------------------------------------- RELAY

  /** The checks of MH_relay: the destination and, as dstX, the process whose request is handed on. */
  function ResolveRelay(st: State, c: nat, dstEp: int, srcEp: int): (r: Route)
    requires WF(st) && IsSlot(st, c)
    ensures r.To? ==> IsSlot(st, r.dst) && IsSlot(st, r.dstX)
    ensures r.To? ==> PureReceiving(st.proc[r.dstX]) && st.proc[r.dstX].replyPending
  {
    if !IsOkEndpt(st, st.running, dstEp) then Refused(EDSTDIED)
    else if st.proc[Addr(st.running, EndpointP(dstEp))].rts.noEndpoint then Refused(EDSTDIED)
    else if !IsOkEndpt(st, st.running, srcEp) then Refused(ESRCDIED)
    else
      var s := Addr(st.running, EndpointP(srcEp));
      var src := st.proc[s];
      if src.rts.noEndpoint then Refused(ESRCDIED)
      else if !src.replyPending || !PureReceiving(src) then Refused(EPROCSTATUS)
      else if st.proc[c].vm != src.vm then Refused(EBADVMID)
      else
        var r := RouteTo(st, c, Addr(st.running, EndpointP(dstEp)), Addr(VM0, EndpointP(dstEp)), false);
        if r.To? then To(r.dst, s) else r
  }

  /** MH_relay: hand the request of src, which waits in a SENDREC to the caller, on to dst. */
  function MhRelay(st: State, c: nat, dstEp: int, srcEp: int): (r: (State, Code))
    requires WF(st) && IsSlot(st, c)
    ensures WF(r.0)
  {
    match ResolveRelay(st, c, dstEp, srcEp)
    case Refused(e) => (st, Err(e))
    case To(dst, src) => RelayTo(st, c, dst, dstEp, src)
  }

  function RelayTo(st: State, c: nat, dst: nat, dstEp: int, s: nat): (r: (State, Code))
    requires WF(st) && IsSlot(st, c) && IsSlot(st, dst) && IsSlot(st, s)
    ensures WF(r.0)
  {
    var caller, to := st.proc[c], st.proc[dst];
    if PureReceiving(to) && !to.vmidPending && to.notGetfrom then (st, Err(PANIC))
    else if PureReceiving(to) && to.vmidPending && AdmitsVm(to, caller, false) then
      (Deliver(Put(st, s, st.proc[s].(getfrom := to.ep)), dst, true), Ok)
    else if PureReceiving(to) && !to.vmidPending && Admits(to, caller) then
      var went := Inherit(st, dst, caller.vm);
      var waits := Put(went, s, went.proc[s].(getfrom := to.ep));
      var got := waits.proc[dst];
      (Wake(waits, dst, got.(rts := got.rts.(receiving := false), getfrom := NONE, replyPending := false, recvVm := ANY_VM)), Ok)
    else if caller.nr == SYSTEM then (st, Err(PANIC))
    else
      var hung := HangFor(st, s, dst, dstEp);
      if caller.vm != VM0 && to.kind.Virtual? then NotifyProxy(hung, st.priv[to.priv].sid) else (hung, Ok)
  }

  /** As if src had never got its message through: SENDING as well, at the end of dst's queue.
      What it waits to receive from stays the relaying process. */
  function HangFor(st: State, s: nat, dst: nat, dstEp: int): (r: State)
    requires WF(st) && IsSlot(st, s) && IsSlot(st, dst)
    ensures WF(r)
  {
    var src := st.proc[s];
    Hang(Put(st, s, src.(rts := src.rts.(sending := true), sendto := dstEp)), dst, s)
  }
}
