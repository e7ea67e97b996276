/** Whole runs of one VM: its processes call SEND, RECEIVE, SENDREC and NOTIFY, and in between the kernel boots
    processes, takes interrupts, counts ticks and preempts. */
module LocalRuns {
  import opened Queues
  import opened Ipc
  import opened IpcInvariants
  import opened SysCall
  import opened Runs
  import opened Rendezvous
  import opened Deadlock
  import opened DeadlockProtocol
  import opened Booting

  /** A step while VM v runs. */
  ghost predicate LocalStep(st: State, step: Step, v: nat)
    requires v < NR_VMS && WF(st)
  {
    match step
    case SysCall(c, fn, srcDst, _, _) => Within(st, v, c, srcDst) && Ordinary(fn)
    case Switched(_, vm) => vm == v
    case Died(_) => false
    case Interrupted(_) => true
    case Charged(_, _) => true
    case Preempted(_) => true
    case Booted(_) => true
  }

  ghost predicate IsLocalRun(states: seq<State>, steps: seq<Step>, v: nat)
    requires v < NR_VMS
  {
    IsRun(states, steps) && forall i :: 0 <= i < |steps| ==> LocalStep(states[i], steps[i], v)
  }

  // ---------------------------------------------------------------- what the kernel's own steps do

  /** Who is not addressed in v has no part in its rendezvous. */
  lemma StrangerOk(proc: seq<Proc>, cq: seq<Queue>, v: nat, x: nat, p: Proc)
    requires v < NR_VMS && |cq| == |proc| == NR_VMS * SLOTS && Bounded(cq, |proc|)
    requires AllOk(proc, cq, v) && x < |proc| && !Member(v, x)
    ensures AllOk(proc[x := p], cq, v)
  {
    var after := proc[x := p];
    forall y | Member(v, y)
      ensures SlotOk(after, cq, v, y)
    {
      assert SlotOk(proc, cq, v, y);
    }
  }

  /** HARDWARE's notifications make SYSTASK work for VM0. */
  lemma InheritOk(st: State, v: nat, d: nat)
    requires v < NR_VMS && WF(st) && AllOk(st.proc, st.cq, v) && d < SLOTS
    ensures var vm, after := st.proc[Addr(VM0, HARDWARE)].vm, Inherit(st, d, st.proc[Addr(VM0, HARDWARE)].vm);
            AllOk(after.proc, after.cq, v) && Quieter(st.proc, after.proc, -1)
  {
    var vm := st.proc[Addr(VM0, HARDWARE)].vm;
    if v == VM0 {
      assert SlotOk(st.proc, st.cq, v, Addr(VM0, HARDWARE));
      InheritSame(st, v, d);
    } else {
      StrangerOk(st.proc, st.cq, v, SYSTASK, st.proc[SYSTASK].(vm := vm));
    }
  }

  lemma HardwareOk(st: State, v: nat, d: nat)
    requires v < NR_VMS && WF(st) && AllOk(st.proc, st.cq, v) && d < SLOTS
    ensures var after := NotifyPlain(st, Addr(VM0, HARDWARE), d).0;
            AllOk(after.proc, after.cq, v) && Quieter(st.proc, after.proc, -1)
  {
    hide AllOk, SlotOk;
    var c := Addr(VM0, HARDWARE);
    var to, s := st.proc[d], st.priv[st.proc[c].priv].sid;
    if OfferNotify(st, c, d, d).Taken? {
      if to.vmidPending {
        var got := to.(rts := to.rts.(receiving := false), getfrom := NONE, vmidPending := false, notGetfrom := false, recvVm := ANY_VM);
        WakeOk(CountDirect(st, to.priv, s), v, d, got);
        WakeQuiet(CountDirect(st, to.priv, s), d, got, -1);
      } else {
        InheritOk(st, v, d);
        var mid := CountDirect(Inherit(st, d, st.proc[c].vm), to.priv, s);
        DeliverOk(mid, v, d, false);
        DeliverQuiet(mid, d, false, -1);
        QuieterTrans(st.proc, mid.proc, Deliver(mid, d, false).proc, -1);
      }
    }
  }

  lemma InterruptOk(st: State, v: nat, n: int)
    requires v < NR_VMS && NoMissedRendezvous(st, v) && IsOkProcN(n)
    ensures NoMissedRendezvous(Interrupt(st, n), v) && Quieter(st.proc, Interrupt(st, n).proc, -1)
  {
    hide AllOk, CallersOk, ReadyOk, NotifyPlain;
    InterruptKeeps(st, n);
    HardwareOk(st.(running := VM0), v, Addr(VM0, n));
  }

  lemma RequeueOk(st: State, v: nat, x: nat)
    requires v < NR_VMS && NoMissedRendezvous(st, v) && IsSlot(st, x) && st.proc[x].rts.Zero()
    ensures NoMissedRendezvous(Requeue(st, x), v) && Quieter(st.proc, Requeue(st, x).proc, -1)
  {
    hide AllOk, CallersOk, ReadyOk;
    RequeueKeeps(st, x);
    EnqueueOk(Dequeue(st, x), v, x);
  }

  lemma BootOk(st: State, v: nat, x: nat)
    requires v < NR_VMS && NoMissedRendezvous(st, v) && IsSlot(st, x) && st.proc[x].kind == Real && st.proc[x].rts.Empty()
    ensures NoMissedRendezvous(Boot(st, x), v) && Quieter(st.proc, Boot(st, x).proc, -1)
  {
    hide AllOk, CallersOk, ReadyOk;
    var p := st.proc[x].(rts := RUNNABLE);
    NextKeeps(st, Booted(x));
    WakeOk(st, v, x, p);
    WakeQuiet(st, x, p, -1);
  }

  /** None of the kernel's own steps disturbs a rendezvous or lets anybody wait. */
  lemma KernelStepOk(st: State, step: Step, v: nat)
    requires v < NR_VMS && NoMissedRendezvous(st, v) && Enabled(st, step) && LocalStep(st, step, v) && !step.SysCall?
    ensures NoMissedRendezvous(Next(st, step), v) && Quieter(st.proc, Next(st, step).proc, -1)
  {
    hide AllOk, CallersOk, ReadyOk, Interrupt, Requeue, Boot;
    match step
    case Interrupted(n) => InterruptOk(st, v, n);
    case Charged(x, ticks) =>
      var p := st.proc[x].(ticks := st.proc[x].ticks - ticks);
      NextKeeps(st, step);
      CalmerOk(st.proc, st.cq, v, x, p);
    case Preempted(x) => RequeueOk(st, v, x);
    case Switched(x, vm) => NextKeeps(st, step);
    case Booted(x) => BootOk(st, v, x);
  }

  /** Waits that end leave no cycle. */
  lemma QuietFree(proc: seq<Proc>, after: seq<Proc>, v: nat)
    requires v < NR_VMS && |proc| == |after| == NR_VMS * SLOTS && Quieter(proc, after, -1)
    requires AllExact(proc, v) && Acyclic(Relation(proc, v))
    ensures AllExact(after, v) && Acyclic(Relation(after, v))
  {
    hide Acyclic;
    forall x | Member(v, x)
      ensures Exact(after, v, x)
    {
      assert Exact(proc, v, x) && NoMoreAt(proc, after, x);
      var p := after[x];
      assert p.rts.receiving && p.getfrom != ANY ==> NoMoreAt(proc, after, Addr(v, EndpointP(p.getfrom)));
      assert p.rts.sending ==> NoMoreAt(proc, after, Addr(v, EndpointP(p.sendto)));
    }
    var w, less := Relation(proc, v), Relation(after, v);
    forall x | 0 <= x < |w|
      ensures less[x] == w[x] || less[x] == None
    {
      assert NoMoreAt(proc, after, x);
      NoMoreWaits(proc[x], after[x], v);
    }
    FewerWaits(w, less);
  }

  // ---------------------------------------------------------------- runs

  lemma {:induction false} AlwaysUnmissed(states: seq<State>, steps: seq<Step>, v: nat, i: nat)
    requires v < NR_VMS && IsLocalRun(states, steps, v) && NoMissedRendezvous(states[0], v) && i < |states|
    ensures NoMissedRendezvous(states[i], v)
  {
    hide Call, NoMissedRendezvous, Within, Interrupt, Requeue, Boot;
    if i > 0 {
      AlwaysUnmissed(states, steps, v, i - 1);
      var st, step := states[i - 1], steps[i - 1];
      match step
      case SysCall(c, fn, srcDst, arg, redirected) => CallOk(st, v, c, fn, srcDst, arg, redirected);
      case _ => KernelStepOk(st, step, v);
    }
  }

  /** Main result: in no state of such a run is a process blocked purely RECEIVING while a sender it would
      accept sits in its caller queue. */
  lemma NoRendezvousIsMissed(states: seq<State>, steps: seq<Step>, v: nat, i: nat, d: nat, k: nat)
    requires v < NR_VMS && IsLocalRun(states, steps, v) && NoMissedRendezvous(states[0], v) && i < |states|
    requires Member(v, d) && k < |states[i].cq[d]|
    ensures var st := states[i];
            st.cq[d][k] < |st.proc| && !(PureReceiving(st.proc[d]) && Wants(st.proc[d], st.proc[st.cq[d][k]]))
  {
    AlwaysUnmissed(states, steps, v, i);
    UnmissedIn(states[i], v, d, k);
  }

  lemma UnmissedIn(st: State, v: nat, d: nat, k: nat)
    requires v < NR_VMS && NoMissedRendezvous(st, v) && Member(v, d) && k < |st.cq[d]|
    ensures st.cq[d][k] < |st.proc| && !(PureReceiving(st.proc[d]) && Wants(st.proc[d], st.proc[st.cq[d][k]]))
  {
    hide CallersOk, ReadyOk;
    assert SlotOk(st.proc, st.cq, v, d);
  }

  /** Every caller has consulted deadlock(). */
  ghost predicate ConsultedFirst(st: State, step: Step, v: nat)
    requires v < NR_VMS && WF(st)
  {
    step.SysCall? ==> IsSlot(st, step.c) && Consulted(st, v, step.c, step.fn, step.srcDst)
  }

  /** Main result: no cycle of waits is ever reachable. */
  lemma {:induction false} NoDeadlockIsReached(states: seq<State>, steps: seq<Step>, v: nat, i: nat)
    requires v < NR_VMS && IsLocalRun(states, steps, v) && DeadlockFree(states[0], v) && i < |states|
    requires forall k :: 0 <= k < |steps| ==> ConsultedFirst(states[k], steps[k], v)
    ensures DeadlockFree(states[i], v)
  {
    hide Call, NoMissedRendezvous, AllExact, Acyclic, Consulted, Within, Interrupt, Requeue, Boot, Quieter;
    if i > 0 {
      NoDeadlockIsReached(states, steps, v, i - 1);
      var st, step := states[i - 1], steps[i - 1];
      assert ConsultedFirst(st, step, v);
      match step
      case SysCall(c, fn, srcDst, arg, redirected) => CallKeepsDeadlockFree(st, v, c, fn, srcDst, arg, redirected);
      case _ =>
        KernelStepOk(st, step, v);
        QuietFree(st.proc, states[i].proc, v);
    }
  }

  /** Main result: both hold along every run from the table of main(), in any VM. */
  lemma LocalSinceBoot(image: nat -> Entry, states: seq<State>, steps: seq<Step>, v: nat, i: nat)
    requires v < NR_VMS && ImageOk(image) && IsLocalRun(states, steps, v) && states[0] == Initial(image).(running := v) && i < |states|
    ensures NoMissedRendezvous(states[i], v)
    ensures (forall k :: 0 <= k < |steps| ==> ConsultedFirst(states[k], steps[k], v)) ==> DeadlockFree(states[i], v)
  {
    hide NoMissedRendezvous, AllExact, Acyclic;
    InitialLocal(image, v);
    AlwaysUnmissed(states, steps, v, i);
    if forall k :: 0 <= k < |steps| ==> ConsultedFirst(states[k], steps[k], v) { NoDeadlockIsReached(states, steps, v, i); }
  }
}
