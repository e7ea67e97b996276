/** sys_call(): the checks in front of the message primitives and the dispatch to them. */
module SysCall {
  import opened Ipc

  const SEND := 1
  const RECEIVE := 2
  const SENDREC := 3
  const NOTIFY := 4
  const HDEBUG := 5
  const PRTMSG := 6
  const SENDAS := 7
  const ECHO := 8
  const RECVAS := 9
  const SENDVM := 10
  const RECVVM := 11
  const SENDRECVM := 12
  const NOTIFYVM := 13
  const NOTIFYAS := 14
  const RELAY := 15

  /** Only a proxy server on VM0 may speak for the virtual tasks of a VM. */
  function ProxyCheck(p: Proc): Code {
    if p.vm != VM0 || !p.proxyServer then Err(EPERM)
    else if !(0 <= p.proxy < NR_VMS) then Err(EBADVMID)
    else Ok
  }

  /** Only a process on VM0 may name another VM, which must run and be served by the caller. */
  function VmCheck(st: State, c: nat, fn: int, vm: int): Code
    requires WF(st) && IsSlot(st, c)
  {
    if st.proc[c].vm != VM0 then Err(EPERM)
    else if fn == RECVVM && vm == ANY_VM then Ok
    else if !(0 <= vm < NR_VMS) then Err(EBADVMID)
    else if vm != VM0 && vm !in st.up then Err(EVMSTATUS)
    else if vm !in st.priv[st.proc[c].priv].vmBitmap then Err(EBADVMID)
    else Ok
  }

  function CallerCheck(st: State, c: nat, fn: int, arg: int): Code
    requires WF(st) && IsSlot(st, c)
  {
    if fn == SENDAS || fn == RECVAS || fn == NOTIFYAS then ProxyCheck(st.proc[c])
    else if SENDVM <= fn <= NOTIFYVM then VmCheck(st, c, fn, arg)
    else if SEND <= fn <= RELAY then Ok
    else Err(EBADCALL)
  }

  /** The process number the caller named. */
  function Named(fn: int, srcDst: int): int {
    if srcDst == ANY || fn == ECHO then srcDst
    else if fn == RECVVM && HasNotProc(srcDst) then srcDst - NOT_PROC
    else EndpointP(srcDst)
  }

  predicate EndpointCheck(st: State, fn: int, srcDst: int)
    requires WF(st)
  {
    srcDst == ANY || fn == ECHO || (fn == RECVVM && HasNotProc(srcDst)) || IsOkEndpt(st, st.running, srcDst)
  }

  predicate TrapAllowed(st: State, c: nat, fn: int, n: int)
    requires WF(st) && IsSlot(st, c)
  {
    fn in st.priv[st.proc[c].priv].traps && (IsKernelNr(n) ==> fn == SENDREC || fn == RECEIVE)
  }

  function Check(st: State, c: nat, fn: int, srcDst: int, arg: int): Code
    requires WF(st) && IsSlot(st, c)
  {
    if CallerCheck(st, c, fn, arg) != Ok then CallerCheck(st, c, fn, arg)
    else if !EndpointCheck(st, fn, srcDst) then Err(EDEADSRCDST)
    else if !TrapAllowed(st, c, fn, Named(fn, srcDst)) then Err(ETRAPDENIED)
    else Ok
  }

  /** Every call starts with the caller's flags and pending bits cleared; SENDREC and SENDRECVM
      then mark that a reply is due, so that no notification can slip in. */
  function Start(st: State, c: nat, fn: int): (r: State)
    requires WF(st) && IsSlot(st, c)
    ensures WF(r)
  {
    Put(st, c, st.proc[c].(rts := RUNNABLE, replyPending := fn == SENDREC || fn == SENDRECVM, vmidPending := false))
  }

  /** sys_call; `redirected` says that the kernel call in the message is one the proxy gets. */
  function Call(st: State, c: nat, fn: int, srcDst: int, arg: int, redirected: bool): (r: (State, Code))
    requires WF(st) && IsSlot(st, c)
    ensures WF(r.0)
  {
    if fn == HDEBUG || fn == PRTMSG then (st, Ok)
    else if Check(st, c, fn, srcDst, arg) != Ok then (st, Check(st, c, fn, srcDst, arg))
    else Dispatch(Start(st, c, fn), c, fn, srcDst, arg, redirected)
  }

  function Dispatch(st: State, c: nat, fn: int, srcDst: int, arg: int, redirected: bool): (r: (State, Code))
    requires WF(st) && IsSlot(st, c) && SEND <= fn <= RELAY
    requires fn == SENDAS || fn == RECVAS || fn == NOTIFYAS ==> 0 <= st.proc[c].proxy < NR_VMS
    requires SENDVM <= fn <= NOTIFYVM ==> (if fn == RECVVM then ANY_VM else VM0) <= arg < NR_VMS
    ensures WF(r.0)
  {
    var n := Named(fn, srcDst);
    if fn == SEND then MhSend(st, c, srcDst, !redirected)
    else if fn == RECEIVE then MhReceive(st, c, srcDst)
    else if fn == SENDREC then SendRec(st, c, srcDst, !redirected)
    else if fn == NOTIFY then
      if IsOkProcN(n) then MhNotify(st, c, n) else (st, Err(PANIC))
    else if fn == RELAY then MhRelay(st, c, srcDst, arg)
    else if fn == SENDAS then MhSendAs(st, c, srcDst, arg)
    else if fn == RECVAS then MhRecvAs(st, c, srcDst, arg)
    else if fn == NOTIFYAS then
      if IsOkProcN(n) then MhNtfyAs(st, c, n, arg) else (st, Err(PANIC))
    else if fn == SENDVM then SendVm(st, c, srcDst, arg, !redirected)
    else if fn == SENDRECVM then
      var sent := SendVm(st, c, srcDst, arg, !redirected);
      if sent.1 == Ok then ReceiveVm(sent.0, c, srcDst, arg) else sent
    else if fn == RECVVM then ReceiveVm(st, c, srcDst, arg)
    else if fn == NOTIFYVM then
      if !IsOkProcN(n) then (st, Err(PANIC))
      else if st.proc[c].vm == arg then MhNotify(st, c, n)
      else MhNtfyVm(st, c, n, arg)
    else (st, Ok)
  }

  /** SENDREC: a send that blocked still goes on to wait for the reply. */
  function SendRec(st: State, c: nat, srcDst: int, direct: bool): (r: (State, Code))
    requires WF(st) && IsSlot(st, c)
    ensures WF(r.0)
  {
    var sent := MhSend(st, c, srcDst, direct);
    if sent.1 == Ok then MhReceive(sent.0, c, srcDst) else sent
  }

  function SendVm(st: State, c: nat, srcDst: int, vm: int, direct: bool): (r: (State, Code))
    requires WF(st) && IsSlot(st, c) && 0 <= vm < NR_VMS
    ensures WF(r.0)
  {
    if st.proc[c].vm == vm then MhSend(st, c, srcDst, direct) else MhSendVm(st, c, srcDst, vm)
  }

  /** The RECVVM half: within the caller's own VM it is an ordinary receive. */
  function ReceiveVm(st: State, c: nat, srcDst: int, vm: int): (r: (State, Code))
    requires WF(st) && IsSlot(st, c) && ANY_VM <= vm < NR_VMS
    ensures WF(r.0)
  {
    if st.proc[c].vm == vm then MhReceive(Put(st, c, st.proc[c].(vmidPending := true)), c, srcDst)
    else MhRecvVm(st, c, srcDst, vm)
  }
}
