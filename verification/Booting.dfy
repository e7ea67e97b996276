/** Where the runs start: the process table as main() lays it out, and the first processes. */
module Booting {
  import opened Queues
  import opened Ipc
  import opened IpcInvariants
  import opened Rendezvous
  import opened Deadlock
  import opened DeadlockProtocol
  import opened Notifications
  import opened NothingPending
  import opened NotificationRuns
  import opened Runs

  /** All user processes share this privilege structure. */
  const USER_PRIV := 0

  /** What the table of the boot image says of a slot and of its privilege structure. */
  datatype Entry = Entry(prio: nat, quantum: int, preemptible: bool, traps: set<int>)

  ghost predicate ImageOk(image: nat -> Entry) {
    forall x: nat :: image(x).prio < NR_SCHED_QUEUES
  }

  /** Slot x of VM v before anything runs.  A guest's own descriptors of the kernel tasks are never addressed;
      they count as virtual. */
  function Slot(image: nat -> Entry, x: nat): (p: Proc) {
    var v, nr := x / SLOTS, x % SLOTS - NR_TASKS;
    var kind := if v != VM0 && IsKernelNr(nr) then Virtual else Real;
    var own := if x % SLOTS + 1 < NR_SYS_PROCS then x % SLOTS + 1 else USER_PRIV;
    Proc(nr, v, nr, kind, false, false, VM0, v * NR_SYS_PROCS + own,
         RUNNABLE.(slotFree := true), false, false, false, NONE, NONE, ANY_VM,
         image(x).prio, image(x).quantum, image(x).quantum)
  }

  /** Privilege structure i: no notification sent, delivered or pending. */
  function Structure(image: nat -> Entry, i: nat): Priv {
    var none := seq(NR_SYS_PROCS, _ => 0);
    Priv(i % NR_SYS_PROCS, image(i).preemptible, image(i).traps, {i / NR_SYS_PROCS}, {}, {}, seq(NR_VMS, _ => NONE),
         seq(NR_SYS_PROCS, _ => false), none, none, none)
  }

  function Initial(image: nat -> Entry): (st: State)
    ensures |st.proc| == |st.cq| == NR_VMS * SLOTS && |st.rq| == NR_SCHED_QUEUES && |st.priv| == NR_VMS * NR_SYS_PROCS
    ensures forall x :: 0 <= x < |st.proc| ==> st.proc[x] == Slot(image, x)
    ensures forall i :: 0 <= i < |st.priv| ==> st.priv[i] == Structure(image, i)
    ensures forall d :: 0 <= d < |st.cq| ==> st.cq[d] == []
    ensures forall d :: 0 <= d < |st.rq| ==> st.rq[d] == []
  {
    State(seq(NR_VMS * SLOTS, x requires 0 <= x => Slot(image, x)), seq(NR_VMS * SLOTS, _ => []), seq(NR_SCHED_QUEUES, _ => []),
          seq(NR_VMS * NR_SYS_PROCS, i requires 0 <= i => Structure(image, i)), {}, VM0, 0, {VM0},
          seq(NR_VMS, _ => seq(NR_SYS_PROCS, _ => NONE)), seq(NR_VMS, _ => 0))
  }

  /** The table is sound from the beginning: nothing waits, nothing is ready, the books are empty. */
  lemma InitialHolds(image: nat -> Entry)
    requires ImageOk(image)
    ensures Fresh(Initial(image)) && Counted(Initial(image))
  {
    var st := Initial(image);
    forall x | 0 <= x < |st.proc|
      ensures ProcWF(st.proc[x], |st.proc|, |st.priv|) && Unused(st.proc, x)
    {
      assert st.proc[x] == Slot(image, x);
    }
  }

  /** Slots that have a privilege structure of their own: those of the boot image. */
  predicate HasOwn(x: nat) {
    x < NR_VMS * SLOTS && x % SLOTS + 1 < NR_SYS_PROCS
  }

  lemma InitialFine(image: nat -> Entry, x: nat)
    requires ImageOk(image) && HasOwn(x)
    ensures Fine(Initial(image), x)
  {
    hide Slot, SlotFine, WF;
    InitialHolds(image);
    var st := Initial(image);
    assert WF(st) by { FreshInv(st); }
    OwnStructure(image, x, x);
    forall y | 0 <= y < |st.proc|
      ensures SlotFine(st.proc, x, y)
    {
      assert st.proc[x] == Slot(image, x) && st.proc[y] == Slot(image, y);
      OwnStructure(image, x, y);
      FineIn(image, st.proc, x, y);
    }
  }

  lemma OwnStructure(image: nat -> Entry, x: nat, y: nat)
    requires HasOwn(x) && y < NR_VMS * SLOTS
    ensures y != x ==> Slot(image, y).priv != Slot(image, x).priv
    ensures y < SLOTS ==> Slot(image, y).kind == Real
    ensures Idle(Slot(image, y))
  {
    if y != x { DifferentStructures(x / SLOTS, x % SLOTS, y / SLOTS, y % SLOTS); }
  }

  lemma DifferentStructures(v: nat, i: nat, w: nat, j: nat)
    requires i + 1 < NR_SYS_PROCS && j < SLOTS && (v != w || i != j)
    ensures v * NR_SYS_PROCS + i + 1 != w * NR_SYS_PROCS + if j + 1 < NR_SYS_PROCS then j + 1 else USER_PRIV
  {
  }

  lemma FineIn(image: nat -> Entry, proc: seq<Proc>, x: nat, y: nat)
    requires x < |proc| && y < |proc| && proc[x] == Slot(image, x) && proc[y] == Slot(image, y) && Idle(proc[y])
    requires y != x ==> proc[y].priv != proc[x].priv
    requires y < SLOTS ==> proc[y].kind == Real
    ensures SlotFine(proc, x, y)
  {
  }

  /** In every VM it is a sound beginning for a local run, too. */
  lemma InitialLocal(image: nat -> Entry, v: nat)
    requires ImageOk(image) && v < NR_VMS
    ensures DeadlockFree(Initial(image).(running := v), v)
  {
    hide SlotOk, Exact, Wait, Slot, CallersOk, ReadyOk;
    InitialHolds(image);
    var st := Initial(image).(running := v);
    FreshInv(st);
    forall x | Member(v, x)
      ensures SlotOk(st.proc, st.cq, v, x) && Exact(st.proc, v, x) && Wait(st.proc[x], v) == None
    {
      InitialSlot(image, st.proc, st.cq, v, x);
    }
    NobodyWaits(st.proc, v);
  }

  lemma InitialSlot(image: nat -> Entry, proc: seq<Proc>, cq: seq<Queue>, v: nat, x: nat)
    requires v < NR_VMS && Member(v, x) && |proc| == |cq| == NR_VMS * SLOTS && Bounded(cq, |proc|)
    requires proc[x] == Slot(image, x) && cq[x] == []
    ensures SlotOk(proc, cq, v, x) && Exact(proc, v, x) && Wait(proc[x], v) == None
  {
  }

  lemma NobodyWaits(proc: seq<Proc>, v: nat)
    requires v < NR_VMS && |proc| == NR_VMS * SLOTS && forall x :: Member(v, x) ==> Wait(proc[x], v) == None
    ensures Acyclic(Relation(proc, v))
  {
    var w := Relation(proc, v);
    forall p: seq<nat> | |p| >= 2
      ensures !IsWalk(w, p)
    {
      assert IsWalk(w, p) ==> StepsTo(w, p, 0);
    }
  }

  /** Main result: in every state of every run from the initial table both queue invariants hold; and as long as
      nobody dies, no process of the boot image is blocked in RECEIVE(ANY) with a notification pending. */
  lemma SinceBoot(image: nat -> Entry, states: seq<State>, steps: seq<Step>, x: nat, i: nat)
    requires ImageOk(image) && IsRun(states, steps) && states[0] == Initial(image) && i < |states| && HasOwn(x)
    ensures Inv(states[i])
    ensures (forall k :: 0 <= k < |steps| ==> Lasting(steps[k])) ==> Fine(states[i], x)
    ensures (forall k :: 0 <= k < |steps| ==> Lasting(steps[k]) && Room(states[k])) ==> Counted(states[i])
  {
    InitialHolds(image);
    FreshInv(states[0]);
    RunKeeps(states, steps, i);
    InitialFine(image, x);
    if forall k :: 0 <= k < |steps| ==> Lasting(steps[k]) {
      NothingPendsForAnyone(states, steps, x, i);
      if forall k :: 0 <= k < |steps| ==> Room(states[k]) { NothingLostOrDoubled(states, steps, i); }
    }
  }
}
