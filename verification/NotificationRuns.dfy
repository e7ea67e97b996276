/** Counted notifications over whole runs, clock and interrupt steps included. */
module NotificationRuns {
  import opened Ipc
  import opened IpcInvariants
  import opened Runs
  import opened Notifications
  import opened NothingPending

  /** The notifications of a dead process are thrown away, so deaths are no part of this count. */
  predicate Lasting(step: Step) {
    !step.Died?
  }

  lemma StepCounted(st: State, step: Step)
    requires Counted(st) && Room(st) && Enabled(st, step) && Lasting(step)
    ensures Counted(Next(st, step))
  {
    match step
    case SysCall(c, fn, srcDst, arg, redirected) => CallCounted(st, c, fn, srcDst, arg, redirected);
    case Interrupted(n) => NotifyPlainCounted(st.(running := VM0), Addr(VM0, HARDWARE), Addr(VM0, n));
    case Charged(x, ticks) =>
    case Preempted(x) =>
    case Switched(x, vm) =>
    case Booted(x) =>
  }

  /** Main result: as long as no pair ever has 255 notifications pending, in every state of every run each
      pair's notifications sent are those delivered plus those counted. */
  lemma {:induction false} NothingLostOrDoubled(states: seq<State>, steps: seq<Step>, i: nat)
    requires IsRun(states, steps) && i < |states| && Counted(states[0])
    requires forall k :: 0 <= k < |steps| ==> Room(states[k]) && Lasting(steps[k])
    ensures Counted(states[i])
  {
    hide Next, Counted, Room;
    if i > 0 {
      NothingLostOrDoubled(states, steps, i - 1);
      StepCounted(states[i - 1], steps[i - 1]);
    }
  }

  lemma InterruptFine(st: State, x: int, n: int)
    requires Fine(st, x) && IsOkProcN(n)
    ensures Fine(Interrupt(st, n), x)
  {
    var d := Addr(VM0, n);
    assert SlotFine(st.proc, x, d);
    RunningFine(st, x, VM0);
    NotifyPlainFine(st.(running := VM0), x, Addr(VM0, HARDWARE), d);
    RunningFine(NotifyPlain(st.(running := VM0), Addr(VM0, HARDWARE), d).0, x, st.running);
  }

  lemma StepFine(st: State, step: Step, x: int)
    requires Inv(st) && Fine(st, x) && Enabled(st, step) && Lasting(step)
    ensures Fine(Next(st, step), x)
  {
    match step
    case SysCall(c, fn, srcDst, arg, redirected) => CallFine(st, x, c, fn, srcDst, arg, redirected);
    case Interrupted(n) => InterruptFine(st, x, n);
    case Charged(y, ticks) => TameFine(st, Charge(st, y, ticks), x);
    case Preempted(y) => TameFine(st, Requeue(st, y), x);
    case Switched(y, vm) => RunningFine(st, x, vm);
    case Booted(y) => TameFine(st, Boot(st, y), x);
  }

  /** Main result: in every state of every run, a process that has a privilege structure of its own and is
      blocked in RECEIVE(ANY) has no notification pending. */
  lemma {:induction false} NothingPendsForAnyone(states: seq<State>, steps: seq<Step>, x: nat, i: nat)
    requires IsRun(states, steps) && i < |states| && Inv(states[0]) && Fine(states[0], x)
    requires forall k :: 0 <= k < |steps| ==> Lasting(steps[k])
    ensures Fine(states[i], x)
  {
    hide Next, CallersOk, ReadyOk, Fine;
    if i > 0 {
      NothingPendsForAnyone(states, steps, x, i - 1);
      RunKeeps(states, steps, i - 1);
      StepFine(states[i - 1], steps[i - 1], x);
    }
  }
}
