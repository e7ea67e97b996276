/** Who may call what: the checks of sys_call, one by one, and what a call starts with. */
module Rights {
  import opened Ipc
  import opened SysCall

  predicate ForProxies(fn: int) {
    fn == SENDAS || fn == RECVAS || fn == NOTIFYAS
  }

  predicate ForPromiscuous(fn: int) {
    fn == SENDVM || fn == RECVVM || fn == SENDRECVM || fn == NOTIFYVM
  }

  predicate Known(fn: int) {
    fn == ECHO || fn == SEND || fn == RECEIVE || fn == SENDREC || fn == NOTIFY || fn == RELAY || ForProxies(fn) || ForPromiscuous(fn)
  }

  /** Only a process of VM0 that is a proxy may speak for virtual tasks; only a process of VM0 may name another VM, one
      that is up and that it serves.  A call that is refused changes nothing. */
  lemma CallersAreChecked(st: State, c: nat, fn: int, srcDst: int, arg: int, redirected: bool)
    requires WF(st) && IsSlot(st, c) && fn != HDEBUG && fn != PRTMSG
    ensures var p, r := st.proc[c], Call(st, c, fn, srcDst, arg, redirected);
            var named := fn != RECVVM || arg != ANY_VM;
            && (!Known(fn) ==> r == (st, Err(EBADCALL)))
            && (ForProxies(fn) && (p.vm != VM0 || !p.proxyServer) ==> r == (st, Err(EPERM)))
            && (ForProxies(fn) && p.vm == VM0 && p.proxyServer && !(VM0 <= p.proxy < NR_VMS) ==> r == (st, Err(EBADVMID)))
            && (ForPromiscuous(fn) && p.vm != VM0 ==> r == (st, Err(EPERM)))
            && (ForPromiscuous(fn) && p.vm == VM0 && named && !(VM0 <= arg < NR_VMS) ==> r == (st, Err(EBADVMID)))
            && (ForPromiscuous(fn) && p.vm == VM0 && named && VM0 < arg < NR_VMS && arg !in st.up ==> r == (st, Err(EVMSTATUS)))
            && (var up := arg == VM0 || (VM0 < arg < NR_VMS && arg in st.up);
                ForPromiscuous(fn) && p.vm == VM0 && named && up && arg !in st.priv[p.priv].vmBitmap ==> r == (st, Err(EBADVMID)))
  {
    hide Dispatch, TrapAllowed, EndpointCheck;
  }

  /** A caller who may use the call. */
  predicate MayCall(st: State, c: nat, fn: int, arg: int)
    requires WF(st) && IsSlot(st, c)
  {
    var p := st.proc[c];
    && Known(fn)
    && (ForProxies(fn) ==> p.vm == VM0 && p.proxyServer && VM0 <= p.proxy < NR_VMS)
    && (ForPromiscuous(fn) && !(fn == RECVVM && arg == ANY_VM) ==>
          p.vm == VM0 && (arg == VM0 || (VM0 < arg < NR_VMS && arg in st.up)) && arg in st.priv[p.priv].vmBitmap)
    && (ForPromiscuous(fn) ==> p.vm == VM0)
  }

  /** Such a caller must name a living endpoint or ANY; a kernel task takes nothing but SENDREC and RECEIVE; and the trap
      mask has the last word.  Then the call starts, with its caller's flags cleared. */
  lemma ArgumentsAreChecked(st: State, c: nat, fn: int, srcDst: int, arg: int, redirected: bool)
    requires WF(st) && IsSlot(st, c) && MayCall(st, c, fn, arg) && fn != ECHO && (fn != RECVVM || !HasNotProc(srcDst))
    ensures var r, n := Call(st, c, fn, srcDst, arg, redirected), EndpointP(srcDst);
            var alive := srcDst == ANY || IsKernelNr(n) || (IsOkProcN(n) && st.proc[Addr(st.running, n)].ep == srcDst
                                                            && !st.proc[Addr(st.running, n)].rts.Empty());
            var allowed := fn in st.priv[st.proc[c].priv].traps
                           && (srcDst != ANY && IDLE <= n <= HARDWARE ==> fn == SENDREC || fn == RECEIVE);
            && (!alive ==> r == (st, Err(EDEADSRCDST)))
            && (alive && !allowed ==> r == (st, Err(ETRAPDENIED)))
            && (alive && allowed ==> r == Dispatch(Start(st, c, fn), c, fn, srcDst, arg, redirected))
  {
    hide Dispatch, Start;
  }

  lemma StartsClean(st: State, c: nat, fn: int)
    requires WF(st) && IsSlot(st, c)
    ensures var r := Start(st, c, fn);
            var p := r.proc[c];
            && p.rts.Zero() && !p.vmidPending && (p.replyPending <==> fn == SENDREC || fn == SENDRECVM)
            && (forall y :: 0 <= y < |st.proc| && y != c ==> r.proc[y] == st.proc[y])
            && r == st.(proc := r.proc)
  {
  }

  /** What each call does; SENDREC goes on to receive only if the send did not fail. */
  lemma EachCall(st: State, c: nat, srcDst: int, arg: int, redirected: bool)
    requires WF(st) && IsSlot(st, c) && 0 <= st.proc[c].proxy < NR_VMS
    ensures var sent := MhSend(st, c, srcDst, !redirected);
            && Dispatch(st, c, SEND, srcDst, arg, redirected) == sent
            && Dispatch(st, c, RECEIVE, srcDst, arg, redirected) == MhReceive(st, c, srcDst)
            && Dispatch(st, c, SENDREC, srcDst, arg, redirected) == (if sent.1 == Ok then MhReceive(sent.0, c, srcDst) else sent)
            && Dispatch(st, c, SENDAS, srcDst, arg, redirected) == MhSendAs(st, c, srcDst, arg)
            && Dispatch(st, c, RECVAS, srcDst, arg, redirected) == MhRecvAs(st, c, srcDst, arg)
            && Dispatch(st, c, RELAY, srcDst, arg, redirected) == MhRelay(st, c, srcDst, arg)
            && Dispatch(st, c, ECHO, srcDst, arg, redirected) == (st, Ok)
    ensures var n := EndpointP(srcDst);
            srcDst != ANY && IsOkProcN(n) ==>
              && Dispatch(st, c, NOTIFY, srcDst, arg, redirected) == MhNotify(st, c, n)
              && Dispatch(st, c, NOTIFYAS, srcDst, arg, redirected) == MhNtfyAs(st, c, n, arg)
  {
    hide MhSend, MhReceive, MhNotify, MhRelay, MhSendAs, MhRecvAs, MhNtfyAs, SendVm, ReceiveVm, MhNtfyVm;
  }

  /** And the calls that name a VM: within the caller's own they are the ordinary ones. */
  lemma EachVmCall(st: State, c: nat, srcDst: int, vm: int, redirected: bool)
    requires WF(st) && IsSlot(st, c) && 0 <= vm < NR_VMS
    ensures var own := st.proc[c].vm == vm;
            var sent := if own then MhSend(st, c, srcDst, !redirected) else MhSendVm(st, c, srcDst, vm);
            && Dispatch(st, c, SENDVM, srcDst, vm, redirected) == sent
            && Dispatch(st, c, SENDRECVM, srcDst, vm, redirected)
               == (if sent.1 == Ok then Dispatch(sent.0, c, RECVVM, srcDst, vm, redirected) else sent)
            && Dispatch(st, c, RECVVM, srcDst, vm, redirected)
               == if own then MhReceive(st.(proc := st.proc[c := st.proc[c].(vmidPending := true)]), c, srcDst) else MhRecvVm(st, c, srcDst, vm)
    ensures var n, own := EndpointP(srcDst), st.proc[c].vm == vm;
            srcDst != ANY && IsOkProcN(n) ==>
              Dispatch(st, c, NOTIFYVM, srcDst, vm, redirected) == if own then MhNotify(st, c, n) else MhNtfyVm(st, c, n, vm)
  {
    hide MhSend, MhReceive, MhNotify, MhRelay, MhSendAs, MhRecvAs, MhNtfyAs, MhSendVm, MhRecvVm, MhNtfyVm;
  }
}
