# MHYPER, modelled and verified

MHYPER is a MINIX 3 kernel turned into a hypervisor: several virtual machines share one kernel, whose message
passing, scheduler and copying primitives know which VM a process belongs to. It comes with its boot monitor, the
program that installs it, and the archiver of its tool chain. This project models the parts of it that are
intricate, in Dafny, and proves what they are for. Numbers are unbounded in Dafny; where the 32-bit, 16-bit or
one-byte width of the original matters (address mapping, notification counters, `align`) it is written out.

## What is where

Message passing and the queues (kernel/proc.c, kernel/system.c, kernel/debug.c)

- `Queues`: ready queues and caller queues as singly linked lists threaded through process slots; the two classes
  do the list surgery of the kernel and are proved to implement sequences.
- `Ipc`, `SysCall`: the process table and every primitive as a function of the state; `Runs` adds interrupts,
  ticks, preemption, VM switches, booting and death, so that one can speak of runs.
- `Kernel`: the same primitives as the kernel has them, changing one process table in place. Every method of the
  class `Machine` is proved to do what the function of the same name in `Ipc`, `SysCall` or `Runs` says. What the
  class programs is the branching, the loops, the queue surgery and the writing of flags; which descriptor an
  endpoint stands for, and whether a process waits for another one, it asks the functions of `Ipc`, on a view of its
  fields.
- `IpcInvariants`, `IpcPrimitives`: what every primitive keeps; `ArrivalOrder`: nobody overtakes in a caller queue;
  `Rendezvous`: no missed rendezvous; `Notifications`, `NothingPending`, `NotificationRuns`: counted notifications;
  `Booting`: the table that runs start from; `Deadlock`, `DeadlockProtocol`: the deadlock test, and what consulting
  it would achieve; `LocalRuns`: whole runs of one VM; `Relaying`: what becomes of a relayed request;
  `RunQueueCheck`: the debugging check of the ready queues.
- `Rights`, `Meetings`: who may call what, and who meets whom, spelled out over the descriptors; `Scheduling`: what
  enqueueing does to priorities, and what no run does.

Scheduling (kernel/clock.c, kernel/proc.c): `Tokens` (token buckets and the rotation of the next VM), `PickProc`.

Memory (kernel/system.c): `Isolation` (mapping, and which copies may happen).

Booting and archives: `ImageFormat` (making an image and taking it apart), `Loader` (loading it),
`MadeImages` (that what was made is what is loaded), `RawFs` (cached reading), `RunList` (where the boot code is),
`BootParams` (what monitor and kernel exchange), `Monitor` (the monitor's tokens), `Archive` (the archive and its
index).

Functions on values serve as specifications; what the original does in place is a method or a class that is proved
against them, and the properties are lemmas about the functions. Each kernel entry is one atomic step.

## Where the code is not what it seems

These are results, each with the exact condition or a concrete input.

- `do_clocktick` refills the tokens of VMs whose flags equal `VM_RUNNING` (kernel/clock.c:172), but a started VM is
  `VM_LOADED | VM_RUNNING` (kernel/system/do_vmmreq.c:954, 1012). From boot on no guest ever gets a token
  (`Tokens.GuestsNeverGetTokens`); a refill reaches exactly the VMs with that one flag (`Tokens.RefillReachesExactly`).
- Starting a VM sets VM0 to `MAXTOKENS` (kernel/system/do_vmmreq.c:1019). That conserves tokens iff every other
  guest is at zero (`Tokens.StartConservesExactly`). As guests never get tokens from boot on, no run from boot meets the
  other case (`Tokens.BootConserves`); `Tokens.StartCreatesTokens` shows it in a state that is not reached.
- In `pick_proc` the tiers four to six are only filled once tier three is (kernel/proc.c:2400-2427), so `next_vm`
  has no effect on the choice (`PickProc.NextVmIsPassedOver`); `PickProc.PickAsDocumentedExactly` says when the
  choice is the one the comments promise. In `PickProc.NextVmIsPassedOver` a guest has tokens, which it could not have
  since boot; but without any tokens, too, a task of a guest waits behind an ordinary process (`PickProc.TaskIsPassedOver`).
- A receive from one source looks only at the lowest pending bit of each chunk (kernel/proc.c:973-981), so it can
  overlook a notification (`Notifications.SpecificReceiveExactly`, `Notifications.SpecificReceiveOverlooks`).
- The notification counter is one byte; a further notification keeps the books iff fewer than 255 are pending
  (`Notifications.AddPendingExactly`).
- After unlinking a sender `MH_receive` looks at the flags of its successor, which may be NIL
  (kernel/proc.c:1049-1054). The model guards the NIL; otherwise the test never succeeds
  (`IpcPrimitives.SuccessorNeverReady`).
- `sys_call` leaves its three checks switched off (kernel/proc.c:174-176), so `deadlock()` is never consulted. It
  does not notice a caller that names itself (`Deadlock.NewWaitExactly`), and does not end where the chain of waits
  runs in a circle without the caller (`Deadlock.EndsExactly`, `Deadlock.NeverEnds`).
- `MH_relay` leaves `p_getfrom_e` of the relayed process naming the relayer when the request has to wait
  (kernel/proc.c:2197-2210), so the reply of the real destination is not accepted (`Relaying.RelayedReplyExactly`,
  `Relaying.ReplyIsLost`).
- `check_runqueues` relies on `p_ready`, which nothing in the kernel sets; switched on, it would complain as soon as
  anything is ready (`RunQueueCheck.NothingIsMarkedReady`). It also clears the `p_found` marks of the running VM only
  (kernel/debug.c:115-118), so that, were `p_ready` set, a second check could complain about sound queues
  (`RunQueueCheck.SoundExactly`, `RunQueueCheck.CheckTwice`, `RunQueueCheck.SecondCheckComplains`).
- A program with an unmapped zero page (A_UZP) is given a `cs` one click below its start (boot/bootimage.c:485), which
  is where the program before it in the same block of memory ends. `Loader.ApartExactly` says when two programs of one
  block are apart. So programs with content are pairwise apart iff none but the first of a block has A_UZP
  (`Loader.BlockApartExactly`, `Loader.ImageApartExactly`); `Loader.TwoProgramsOverlap` is a placement where they are not.
- Programs with a label that is not selected are skipped by a loop that does not look for the end of the image
  (boot/bootimage.c:424-437). So an image file whose last program is not selected cannot be loaded at all
  (`MadeImages.ChosenExactly`).
- Joining the tokens of a function body and reading them back changes them if parentheses do not match
  (`Monitor.BodyRoundTrip`).
- With the `u` flag the archiver skips a member that it keeps twice (commands/aal/archiver.c:382-418). That does no
  harm iff every such member is empty or the last one, unless a later member is replaced, which can make up for it
  by chance (`Archive.UpdateExactly`, `Archive.MemberIsLost`, `Archive.MisreadingMakesUp`).
- A block in a hole of a file is reported as 0 only if it is the first of its zone; on file systems with more than
  one block to a zone the others are taken for blocks near the start of the disk (`RawFs.HolesExactly`).
- Without a block size `installboot` calls every boot program too big, as the ratio is 0 (`RunList.RecordRuns`).

## Model

| member | source | states |
|---|---|---|
| `Queues.ReadyQueues.Insert` | kernel/proc.c:2250-2261 | Linking a process in at the front or the tail of a ready queue, by head, tail and p_nextready, gives exactly the queue with that process added, and leaves the others; heads, tails and links still represent the queues |
| `Queues.ReadyQueues.Delete` | kernel/proc.c:2293-2307 | The search of dequeue removes the process from its queue iff it is on it, wherever it stands, and moves the tail back if it was last |
| `Queues.ReadyQueues.Unlink` | kernel/proc.c:2296-2300 | Taking out position k through its predecessor leaves every other link and queue as it was |
| `Queues.CallerQueues.Append` | kernel/proc.c:875-882 | Walking to the end of a caller queue and hanging a process there appends it to that queue and no other; chains stay disjoint and end in NIL |
| `Queues.CallerQueues.Unlink` | kernel/proc.c:1050-1050 | `*xpp = (*xpp)->p_q_link` removes exactly the slot at that position |
| `Queues.CallerQueues.Delete` | kernel/system.c:805-820 | The search of clear_endpoint removes the dead process from the queue it waits in, if it is there |
| `Queues.CallerQueues.Next` | kernel/proc.c:1057-1057 | Following p_q_link gives the next slot of the queue, or NIL at its end |
| `Queues.ChainsRemoved` | kernel/proc.c:1050-1050 | Links that bypass one slot represent the queues without it |
| `Queues.ChainsAppended` | kernel/proc.c:877-882 | Links that end in the new slot represent the queues with it at the end |
| `Queues.ChainsPrepended` | kernel/proc.c:2254-2256 | Links in front of the old head represent the queues with the new slot first |
| `IpcInvariants.BlockSendingKeeps` | kernel/proc.c:865-882 | Blocking a sender keeps both queue invariants |
| `IpcInvariants.BlockNotifyingKeeps` | kernel/proc.c:1264-1280 | Blocking a notifier of a guest keeps both queue invariants |
| `IpcInvariants.DeliverKeeps` | kernel/proc.c:805-815 | Waking a receiver keeps both queue invariants |
| `IpcInvariants.ReleaseKeeps` | kernel/proc.c:1045-1050 | Taking a sender out of a caller queue and waking it keeps both queue invariants |
| `IpcInvariants.ReadyEnqueue` | kernel/proc.c:2230-2261 | Enqueueing a process that has become runnable puts it once on the queue of its (new) priority and keeps the ready-queue invariant |
| `IpcInvariants.ReadyDequeue` | kernel/proc.c:2271-2307 | Dequeueing takes a process off the one queue it is on |
| `IpcInvariants.MhSendKeeps` | kernel/proc.c:622-905 | MH_send keeps the caller-queue and the ready-queue invariant |
| `IpcPrimitives.MhReceiveKeeps` | kernel/proc.c:911-1075 | So does MH_receive |
| `IpcPrimitives.MhNotifyKeeps` | kernel/proc.c:1086-1306 | So does MH_notify |
| `IpcPrimitives.MhSendAsKeeps` | kernel/proc.c:1312-1380 | So does MH_sendas |
| `IpcPrimitives.MhRecvAsKeeps` | kernel/proc.c:1383-1512 | So does MH_recvas |
| `IpcPrimitives.MhNtfyAsKeeps` | kernel/proc.c:1515-1577 | So does MH_ntfyas |
| `IpcPrimitives.MhSendVmKeeps` | kernel/proc.c:1580-1695 | So does MH_sendvm, and a caller that went on may still receive |
| `IpcPrimitives.MhRecvVmKeeps` | kernel/proc.c:1699-1937 | So does MH_recvvm |
| `IpcPrimitives.MhNtfyVmKeeps` | kernel/proc.c:1940-2012 | So does MH_ntfyvm |
| `IpcPrimitives.MhRelayKeeps` | kernel/proc.c:2016-2222 | So does MH_relay |
| `IpcPrimitives.CallKeeps` | kernel/proc.c:151-555 | Whatever a running process asks for, with whatever arguments: afterwards a slot is SENDING or NOTIFYING iff it stands exactly once in exactly one caller queue, and is on a ready queue, that of its priority and once, iff its flags are 0 |
| `IpcPrimitives.ReceiveTakesLongestWaiting` | kernel/proc.c:999-1058 | A receive takes the acceptable sender that comes first in its queue, clears SENDING or NOTIFYING of that one alone and leaves the others in order |
| `IpcPrimitives.SuccessorNeverReady` | kernel/proc.c:1049-1054 | The slot that follows an unlinked sender never has clear flags, so the second enqueue never happens |
| `Scheduling.EnqueueExactly` | kernel/proc.c:2230-2342 | A process with ticks left keeps them and its priority and goes to the head of its queue, unless SYSTEM and CLOCK meet; one without gets its quantum, the next lower priority short of that of IDLE, and goes to the tail |
| `Scheduling.PreemptedGoesLast` | kernel/clock.c:183-188 | A preemptible process whose ticks are spent goes behind everybody of the next lower priority, and off the queue it was on |
| `Scheduling.PriorityNeverRises` | kernel/proc.c:2314-2342 | Along every run, calls, interrupts and deaths included, no process ever gets a better priority than it had |
| `Rights.CallersAreChecked` | kernel/proc.c:222-340 | Who may speak for a virtual task, and who may name another VM; a call refused changes nothing |
| `Rights.ArgumentsAreChecked` | kernel/proc.c:341-432 | Which endpoints and calls the other callers may name, and when the call starts |
| `Rights.EachCall` | kernel/proc.c:441-500 | Which primitive serves each call; SENDREC receives only after a send that did not fail |
| `Rights.EachVmCall` | kernel/proc.c:500-550 | The same for the calls that name a VM |
| `Meetings.ReceiveExactly` | kernel/proc.c:961-1072 | Spelled out over descriptors: with nothing pending MH_receive takes the first in its queue whose endpoint is asked for and whose VM is the one of the receiver, or any VM for SYSTEM or after a SENDRECVM; nobody before it is like that; and it blocks iff nobody in the queue is |
| `Meetings.SystaskServesHead` | kernel/proc.c:1003-1022 | SYSTASK receiving from anyone with nothing pending serves the head of its queue, whatever the VM of that is, and inherits this VM |
| `Meetings.SendGoesTo` | kernel/proc.c:622-760 | Which descriptor a message to an endpoint goes to: the process named, the VM0 process behind a promiscuous descriptor, the queue of a virtual task, or SYSTASK for a redirected call |
| `Meetings.SendToDead` | kernel/proc.c:622-760 | Sending to a dead endpoint fails and changes nothing |
| `Meetings.SendExactly` | kernel/proc.c:766-895 | The message is delivered iff the destination is purely RECEIVING what it answers; else the caller stands last in its queue, SENDING, and nobody else is touched |
| `Meetings.NotifyExactly` | kernel/proc.c:1157-1305 | A notification of VM0 wakes its destination iff that is purely RECEIVING what it answers and not inside a SENDREC; else it is pending there |
| `Meetings.NotifyLaterExactly` | kernel/proc.c:1258-1305 | A notification of a guest that meets nobody: pending for a process of its own VM; else the notifier waits last in the queue |
| `Meetings.ProxyIsTold` | kernel/proc.c:2834-2865 | The proxy of the running VM is notified by HARDWARE about a driver it has registered for, and EACCES is the answer for others |
| `Meetings.SendAsExactly` | kernel/proc.c:1312-1380 | The message of a proxy reaches a process of its VM iff that is purely RECEIVING from the virtual task or from anyone; the proxy never waits |
| `Meetings.RecvAsExactly` | kernel/proc.c:1383-1505 | With nothing pending a proxy takes the first in the queue of the virtual task that it asks for, or goes on with EAGAIN iff there is none |
| `Meetings.NotifyAsExactly` | kernel/proc.c:1515-1577 | A notification in the name of a virtual task wakes its destination or is pending there |
| `Meetings.SendVmExactly` | kernel/proc.c:1580-1695 | SENDVM to a real process of another VM delivers iff that is purely RECEIVING from anyone or from the descriptor of the caller there, and leaves the caller running; else the caller stands last in its queue |
| `Meetings.ReceiveVmExactly` | kernel/proc.c:1837-1937 | RECVVM with nothing pending takes the first in the queue that is of the VM and the process asked for and remembers its VM; it blocks iff nobody is |
| `Meetings.NotifyVmExactly` | kernel/proc.c:1940-2012 | NOTIFYVM to a real process of another VM wakes it or is pending there |
| `Meetings.RelayExactly` | kernel/proc.c:2016-2222 | A relayed request is delivered iff the destination is purely RECEIVING what it may get from the relayer, and then the process waits for that destination; else it waits in its queue |
| `ArrivalOrder.CallMoves` | kernel/proc.c:151-555 | A call does no more to the caller queues than let some processes come to the end of one and let some leave |
| `ArrivalOrder.FirstComeFirstServed` | kernel/proc.c:999-1058 | No call lets a process overtake another one in a caller queue; who comes to wait stands behind all that are there |
| `ArrivalOrder.MovesKeepOrder` | kernel/proc.c:875-882 | Arriving at the end and leaving keeps the order of those who stay |
| `Runs.BuryKeeps` | kernel/system.c:798-835 | A dead process is off the ready queues and off the queue it waited in, and nobody else is touched |
| `Runs.ReleaseOneKeeps` | kernel/system.c:842-866 | One turn of the loop over the process table keeps the invariants and changes only that process |
| `Runs.ReleaseAllKeeps` | kernel/system.c:837-867 | The loop takes exactly the flags that waiting for the dead process has set |
| `Runs.ClearReleasesEachWaiter` | kernel/system.c:784-867 | clear_endpoint keeps both invariants, and exactly the processes of the running VM that receive from or send to the dead one are released, once each; all other flags stay |
| `Runs.ClearForgets` | kernel/system.c:829-847 | Notifications from the dead process are forgotten in the privilege structures of the processes of its VM and in no others; its slot is no proxy, waits for no VM and has no flag of a message left; nobody else changes its role |
| `Runs.RequeueKeeps` | kernel/clock.c:183-188 | Preempting a runnable process puts it back exactly once, on the queue of its new priority |
| `Runs.InterruptKeeps` | kernel/proc.c:2809-2831 | A notification from HARDWARE in an interrupt keeps the invariants |
| `Runs.FreshInv` | kernel/main.c:186-187 | Both invariants hold before the first process is set ready |
| `Booting.InitialHolds` | kernel/main.c:63-95 | The table that main() lays out satisfies the queue invariants and has empty notification books |
| `Booting.InitialFine` | kernel/main.c:63-95 | In it every process of the boot image has a privilege structure of its own and nothing pending |
| `Booting.InitialLocal` | kernel/main.c:63-95 | In it, for every VM, no rendezvous is missed and nobody waits in a cycle, so local runs can start there |
| `Booting.SinceBoot` | kernel/main.c:63-95 | Along every run from that table the queue invariants hold; without deaths, no process of the boot image is blocked in RECEIVE(ANY) with a notification pending; and as long as no counter is full, sent = delivered + counted |
| `Runs.RunKeeps` | kernel/proc.c:151-555 | In every state of every run of calls, interrupts, ticks, preemptions, VM switches, boots and deaths both queue invariants hold |
| `Kernel.Machine.constructor` | kernel/main.c:63-75 | The process table starts with empty ready and caller queues |
| `Kernel.Machine.Enqueue` | kernel/proc.c:2230-2342 | enqueue with sched, in place: a process out of quantum gets a new one, a lower priority and the tail; SYSTEM and CLOCK yield to each other |
| `Kernel.Machine.Dequeue` | kernel/proc.c:2271-2307 | dequeue, in place |
| `Kernel.Machine.Block` | kernel/proc.c:867-872 | A process that stops being runnable leaves the ready queue of its priority |
| `Kernel.Machine.Deliver` | kernel/proc.c:807-815 | The receiver stops waiting, and is enqueued iff nothing else stops it |
| `Kernel.Machine.BlockSending` | kernel/proc.c:865-882 | The sender blocks at the end of the queue of its destination |
| `Kernel.Machine.BlockNotifying` | kernel/proc.c:1264-1280 | The notifier blocks at the end of the queue of the task or of the promiscuous process |
| `Kernel.Machine.Release` | kernel/proc.c:1045-1050 | A sender found in the queue is unlinked and woken |
| `Kernel.Machine.OfferMessage` | kernel/proc.c:766-863 | Whether the destination waits for this very message, and its delivery |
| `Kernel.Machine.OfferNotify` | kernel/proc.c:1157-1257 | The same for a notification |
| `Kernel.Machine.NotifyProxy` | kernel/proc.c:2834-2865 | A guest that waits for a virtual task notifies its proxy |
| `Kernel.Machine.NotifyPlain` | kernel/proc.c:1157-1305 | A notification of VM0: delivered, or counted as pending |
| `Kernel.Machine.MhSend` | kernel/proc.c:622-905 | MH_send, in place: the new state and the answer are those of the specification |
| `Kernel.Machine.FindPending` | kernel/proc.c:967-984 | The loops over chunks and bits find the notification that the specification names |
| `Kernel.Machine.FindSender` | kernel/proc.c:999-1017 | The walk along the caller queue stops at the first acceptable sender |
| `Kernel.Machine.MhReceive` | kernel/proc.c:911-1075 | MH_receive, in place |
| `Kernel.Machine.MhNotify` | kernel/proc.c:1086-1306 | MH_notify, in place |
| `Kernel.Machine.MhSendAs` | kernel/proc.c:1312-1380 | MH_sendas, in place |
| `Kernel.Machine.FindFrom` | kernel/proc.c:1468-1499 | The walk along the queue of a virtual task for one sender |
| `Kernel.Machine.MhRecvAs` | kernel/proc.c:1383-1512 | MH_recvas, in place |
| `Kernel.Machine.MhNtfyAs` | kernel/proc.c:1515-1577 | MH_ntfyas, in place |
| `Kernel.Machine.MhSendVm` | kernel/proc.c:1580-1695 | MH_sendvm, in place |
| `Kernel.Machine.FindSenderVm` | kernel/proc.c:1837-1914 | The walk along the queue of a promiscuous process, across VMs |
| `Kernel.Machine.MhRecvVm` | kernel/proc.c:1699-1937 | MH_recvvm, in place |
| `Kernel.Machine.MhNtfyVm` | kernel/proc.c:1940-2012 | MH_ntfyvm, in place |
| `Kernel.Machine.MhRelay` | kernel/proc.c:2016-2222 | MH_relay, in place |
| `Kernel.Machine.Call` | kernel/proc.c:151-555 | sys_call, in place: checks, flags and dispatch as specified, and the invariants hold afterwards |
| `Kernel.Machine.Dispatch` | kernel/proc.c:441-550 | Which primitive a call number leads to, and how SENDREC and SENDRECVM go on |
| `Kernel.Machine.ReleaseAll` | kernel/system.c:837-867 | The loop of clear_endpoint, in place |
| `Kernel.Machine.ClearEndpoint` | kernel/system.c:784-867 | clear_endpoint, in place, keeping the invariants |
| `Kernel.Machine.Requeue` | kernel/clock.c:183-188 | Preemption, in place |
| `Rendezvous.MhSendOk` | kernel/proc.c:766-882 | Within one VM a send delivers to a receiver that waits for it, or blocks; no rendezvous is missed |
| `Rendezvous.MhReceiveOk` | kernel/proc.c:961-1072 | A receive takes what waits for it, or blocks because nothing does |
| `Rendezvous.MhNotifyOk` | kernel/proc.c:1086-1306 | A notification within a VM keeps that |
| `Rendezvous.ReplyAwaited` | kernel/proc.c:442-470 | SENDREC as a whole keeps that, whether the first half blocks or not |
| `Rendezvous.CallOk` | kernel/proc.c:151-555 | SEND, RECEIVE, SENDREC and NOTIFY keep that, and that who is both SENDING and RECEIVING waits for the same endpoint twice |
| `Notifications.AddPendingExactly` | kernel/proc.c:1298-1300 | Counting one more notification keeps the books iff the one-byte counter does not wrap |
| `Notifications.MhReceiveCounted` | kernel/proc.c:966-997 | A receive takes one notification off the count it delivers, and clears the bit iff it was the last |
| `Notifications.MhNotifyCounted` | kernel/proc.c:1086-1306 | Each notification is delivered or counted, never both |
| `Notifications.CallCounted` | kernel/proc.c:151-555 | After any call, for every privilege structure and source id: notifications sent = delivered + counted, and the bit is set iff the count is positive |
| `Notifications.AnyoneFindsAll` | kernel/proc.c:966-981 | A receive from anyone finds a notification whenever one is pending |
| `Notifications.FindPendingLowest` | kernel/proc.c:966-981 | The search finds something iff the lowest bit of some chunk is of the source that is asked for |
| `Notifications.SpecificReceiveExactly` | kernel/proc.c:973-981 | A receive from one source finds its notification iff that is the lowest bit of its chunk |
| `Notifications.SpecificReceiveOverlooks` | kernel/proc.c:973-981 | A concrete notification that is pending and overlooked |
| `NotificationRuns.NothingLostOrDoubled` | kernel/proc.c:1298-1305 | In every state of every run, as long as no counter stands at 255: sent = delivered + counted for every privilege structure and source id |
| `NothingPending.MhReceiveFine` | kernel/proc.c:961-1072 | A receive blocks for anyone only if nothing is pending |
| `NothingPending.CallFine` | kernel/proc.c:151-555 | No call, cross-VM ones included, leaves a process blocked in RECEIVE(ANY) with a notification pending |
| `NotificationRuns.NothingPendsForAnyone` | kernel/proc.c:966-997 | So in every state of every run, for every process with a privilege structure of its own |
| `Deadlock.FindDeadlock` | kernel/proc.c:561-617 | Wherever its loop ends, deadlock() answers a group size iff the new wait closes a cycle and is not the complementary send/receive of two processes; the size is the length of that cycle |
| `Deadlock.EndsExactly` | kernel/proc.c:579-616 | The loop ends iff the chain from the target leads to a process that waits for nobody (or for ANY) or for the caller, which is so iff the chain does not run in a circle that misses the caller; and then it ends within as many turns as there are processes |
| `Deadlock.AcyclicEnds` | kernel/proc.c:579-616 | It always ends on an acyclic relation |
| `Deadlock.NeverEnds` | kernel/proc.c:579-616 | Two processes that wait for each other, and a third one whose check never ends |
| `Deadlock.NewWaitExactly` | kernel/proc.c:561-617 | A running process may start to wait iff for another process from which no chain of waits leads back to it |
| `Deadlock.WalkIsShort` | kernel/proc.c:580-612 | In an acyclic relation no chain of waits is longer than the number of processes, which is why the loop ends |
| `Deadlock.EndOfChain` | kernel/proc.c:580-612 | If the chain ends without meeting the caller, no chain of waits leads to the caller |
| `DeadlockProtocol.StepKeepsAcyclic` | kernel/proc.c:561-617 | A step that only ends waits and adds one that was safe, or whose target it has just woken, creates no cycle |
| `DeadlockProtocol.SendRecBlocks` | kernel/proc.c:442-470 | A SENDREC to another process ends with its caller RECEIVING from the endpoint it has sent to |
| `DeadlockProtocol.CallKeepsDeadlockFree` | kernel/proc.c:400-409 | A SEND, RECEIVE or SENDREC whose caller has consulted deadlock() leaves no cycle of waits; nor does a NOTIFY |
| `Relaying.RelayedReplyExactly` | kernel/proc.c:2197-2210 | Where the destination is not blocked waiting for the relaying process, the relayed process waits in its queue and accepts its reply iff it was waiting for that destination, or for anyone, before |
| `Relaying.ReplyIsLost` | kernel/proc.c:2197-2210 | Three processes of VM0: 6 waits for 7, which relays to 8, whose answer 6 does not accept |
| `LocalRuns.InterruptOk` | kernel/proc.c:2809-2831 | A notification from HARDWARE disturbs no rendezvous of any VM and lets nobody wait |
| `LocalRuns.RequeueOk` | kernel/clock.c:183-188 | Nor does preemption |
| `LocalRuns.BootOk` | kernel/main.c:186-187 | Nor does setting a process ready |
| `LocalRuns.NoRendezvousIsMissed` | kernel/proc.c:766-882 | In no state of any run of SEND, RECEIVE, SENDREC and NOTIFY within a VM, with interrupts, ticks, preemptions and boots in between, is a process blocked purely RECEIVING while a sender it would accept stands in its caller queue |
| `LocalRuns.NoDeadlockIsReached` | kernel/proc.c:400-409 | If every caller consults deadlock() first, no state of such a run has a cycle of waits |
| `LocalRuns.LocalSinceBoot` | kernel/main.c:63-95 | Both hold along every such run from the table of main(), for every VM |
| `RunQueueCheck.ClearMarks` | kernel/debug.c:115-118 | The first loop clears the marks of the running VM and no others |
| `RunQueueCheck.CheckQueue` | kernel/debug.c:120-155 | One queue passes iff its entries have the right priority, flags and marks and its tail is last |
| `RunQueueCheck.CheckRunQueues` | kernel/debug.c:110-164 | check_runqueues complains iff what it is to check does not hold of some queue or some process of the running VM |
| `RunQueueCheck.SoundExactly` | kernel/debug.c:110-164 | Where the ready-queue invariant holds, for any p_ready marks: it is content iff every process with clear flags is marked p_ready, every used slot of the running VM that is marked has clear flags, and no ready process of another VM is still marked p_found from an earlier check |
| `RunQueueCheck.NothingIsMarkedReady` | kernel/debug.c:134-138 | With p_ready never set, as in this tree, it is content iff nothing at all is ready |
| `RunQueueCheck.LeftOverMarksExactly` | kernel/debug.c:144-148 | Were p_ready kept equal to the flags, it would complain iff a ready process of another VM is still marked from an earlier check |
| `RunQueueCheck.CheckTwice` | kernel/debug.c:110-164 | Two checks of the same state: after a first one that is content the second complains iff a process of a VM that does not run is ready |
| `RunQueueCheck.SecondCheckExactly` | kernel/debug.c:115-118 | The marks that the first check leaves are what the second one stumbles over |
| `RunQueueCheck.SecondCheckComplains` | kernel/debug.c:115-118 | A state where that happens: IDLE is ready and a guest runs |
| `RunQueueCheck.ReadyIsQueued` | kernel/debug.c:157-163 | A ready process is found on the queue of its priority |
| `Tokens.Clock.Charge` | kernel/clock.c:297-308 | A tick moves one token from the running VM to VM0 if it has one, and counts down for the next VM |
| `Tokens.Clock.Rotate` | kernel/clock.c:138-167 | The circular search through the bitmap ends for every bitmap and does what the specification says |
| `Tokens.Clock.Refill` | kernel/clock.c:169-177 | The refill loop, in place |
| `Tokens.Clock.Tick` | kernel/clock.c:116-179 | The VM part of do_clocktick, in place |
| `Tokens.Clock.Start` | kernel/system/do_vmmreq.c:1012-1028 | What starting a VM does to tokens, bitmap and next VM, in place |
| `Tokens.SearchExactly` | kernel/clock.c:145-159 | The search stops at the nearest active VM with tokens after the current one |
| `Tokens.RotationExactly` | kernel/clock.c:138-167 | A rotation makes next the nearest other active guest with tokens in circular order, VM0 iff there is none, and restarts the counter with its tokens, within 1 and TICKS_TO_SWITCH |
| `Tokens.TickRestartsCounter` | kernel/clock.c:138-167 | After do_clocktick the counter is between 1 and TICKS_TO_SWITCH |
| `Tokens.GuestGetsItsTurn` | kernel/clock.c:138-167 | A guest that stays active with tokens is the next VM within NR_VMS - 1 rotations, whatever happens to the others in between; for runs see `Tokens.GuestComesNext` |
| `Tokens.TickExactly` | kernel/clock.c:138-177 | A tick leaves the next VM and the counter alone until the counter has run out, and rotates then; it fills the buckets of the VMs whose flags equal VM_RUNNING iff VM0 holds every token |
| `Tokens.ChargeExactly` | kernel/clock.c:297-308 | A charge moves one token of a VM that has some to VM0, and counts the counter down iff the VM is the next one |
| `Tokens.StartExactly` | kernel/system/do_vmmreq.c:1012-1028 | Starting a VM makes it running with its bucket size and no tokens, gives VM0 MAXTOKENS, and makes it next iff VM0 was |
| `Tokens.CounterFalls` | kernel/clock.c:307-308 | Along every run, between two switches the next VM stays and the counter falls by exactly the charges of the next VM |
| `Tokens.RoundSwitches` | kernel/clock.c:138-167 | TICKS_TO_SWITCH such charges and then a tick: there is a switch among them, in every run |
| `Tokens.GuestComesNext` | kernel/clock.c:138-167 | A guest that stays active with tokens comes next within NR_VMS - 1 such rounds, that is within a bounded number of charges and ticks, in every run |
| `Tokens.BootRotates` | kernel/clock.c:307-308 | From boot on, eight charges of VM0 bring the counter to 0 and the tick rotates |
| `Tokens.Vm0HoldsAllExactly` | kernel/clock.c:169-169 | VM0 holds MAXTOKENS iff every guest is at zero |
| `Tokens.Vm0NotNegative` | kernel/clock.c:169-177 | VM0 is never negative if the bucket sizes sum to at most MAXTOKENS |
| `Tokens.ChargeConserves` | kernel/clock.c:301-304 | A charge conserves the sum of the tokens |
| `Tokens.TickConserves` | kernel/clock.c:138-177 | A tick, with or without a refill, conserves the sum and leaves no guest negative |
| `Tokens.StartConservesExactly` | kernel/system/do_vmmreq.c:1016-1019 | Starting a VM conserves the tokens iff every other guest is at zero |
| `Tokens.StartCreatesTokens` | kernel/system/do_vmmreq.c:1016-1019 | A start that creates tokens, concretely; the guest that holds a token there could not have got it since boot |
| `Tokens.TokensAreConserved` | kernel/clock.c:169-177 | Along every run in which VMs start while no other guest holds tokens, the tokens of all VMs sum to MAXTOKENS and no guest is below 0 or above its bucket |
| `Tokens.ChargedAtMostBucket` | kernel/clock.c:301-304 | Between two refills a guest is charged exactly what it has less at the end, so at most its bucket size |
| `Tokens.RefillReachesExactly` | kernel/clock.c:170-176 | A refill fills the buckets of the guests whose flags equal VM_RUNNING, and of no others |
| `Tokens.GuestsNeverGetTokens` | kernel/clock.c:172-172 | From boot on no guest ever holds a token |
| `Tokens.BootConserves` | kernel/clock.c:138-177 | So every run from boot conserves the tokens, whatever VMs are started and when |
| `PickProc.PickNext` | kernel/proc.c:2348-2454 | The scan of all queues with its six candidates answers the first urgent process, else the first task of a VM with tokens, else the first process, else IDLE; and bills the process picked if it is billable, unless it is SYSTEM or CLOCK |
| `PickProc.PickExactly` | kernel/proc.c:2348-2454 | By priority and position in the ready queues: the first of SYSTEM, CLOCK and VM0; if there is none the first task of a VM with tokens; if there is none the first process; and IDLE if there is none |
| `PickProc.PickGuarantees` | kernel/proc.c:2348-2454 | No guest runs while a VM0 process is ready, none without tokens while a task of a VM with tokens is, and IDLE iff nothing else is ready |
| `PickProc.PickAsDocumentedExactly` | kernel/proc.c:2400-2427 | The choice is the first of the best documented class iff: among urgent processes SYSTEM or CLOCK comes first or is not there; or a task with tokens is ready; or the first process is of next_vm with tokens, or has tokens where next_vm has none ready, or nobody has tokens and it is a task or there are no tasks |
| `PickProc.NextVmIsPassedOver` | kernel/proc.c:2400-2427 | A guest process of the next VM, with tokens, that waits behind one of a VM without; in a state that no run from boot reaches, as guests get no tokens |
| `PickProc.TaskIsPassedOver` | kernel/proc.c:2400-2427 | As guests stand from boot on, without tokens: a task that waits behind an ordinary process of another guest |
| `Isolation.BootLaidOut` | kernel/main.c:157-166 | The memory map made at boot is linear iff the process ends below the end of memory |
| `Isolation.MapIsLinear` | kernel/system.c:459-527 | umap_local accepts a range iff it ends in its segment without wrapping, and then gives base plus offset |
| `Isolation.VmLimitsExactly` | kernel/system.c:61-73 | The VM check passes iff the range lies in [vm_start, vm_end] |
| `Isolation.ProcLimitsExactly` | kernel/system.c:61-73 | The process check passes iff the range lies in the data segment |
| `Isolation.LocalSide` | kernel/system.c:583-651 | A local side that can be mapped ends below the end of memory |
| `Isolation.CopyAllowedExactly` | kernel/system.c:557-777 | With a guest involved and LOCAL_SEG on both sides, virtual_copy and virtual_copy_vm copy iff both sides can be mapped and each guest side lies in its VM, each side of VM0 in a mixed copy in the data segment of a process that serves that VM, and not two guests are involved |
| `Isolation.MeansExactly` | kernel/system.c:583-617 | Whose memory an address means: the process named; for a promiscuous descriptor its home, if that serves the guest; for a virtual one the proxy of the guest, if it is one; nobody if the guest is not up |
| `Isolation.LocateExactly` | kernel/system.c:457-527 | A local address is found iff its bytes are in one segment of the map of the process it means, and then at base plus offset |
| `Isolation.CopyExactly` | kernel/system.c:654-772 | Over what the caller passes: a guest copies iff both addresses mean somebody and are in his map, each guest side is in its VM, and a side in VM0 is in the data segment of a process that serves the guest: its proxy, or one that is no proxy at all, which for virtual_copy_vm must be promiscuous there |
| `Isolation.CopyOfSomebody` | kernel/system.c:583-651 | A copy whose source or destination means nobody does not happen |
| `Isolation.NeverTwoGuests` | kernel/system.c:877-1068 | Corollary, whatever the memory maps: no successful copy has its sides in two different guests |
| `Isolation.PhysCopy` | kernel/system.c:774-774 | The copy writes the destination range only, with the bytes of the source unless it destroys them |
| `Isolation.GuestCopy` | kernel/system.c:557-777 | A denied copy changes no byte. A permitted one puts at the mapped address of the destination, as the caller has named it, the bytes from the mapped address of the source, and changes no other byte; so nothing outside the memory that the caller may change |
| `ImageFormat.CopyExec` | boot/installboot.c:174-192 | copyexec writes n bytes padded to a sector, and fails iff the file is too short |
| `ImageFormat.MakeEntry` | boot/installboot.c:195-258 | One program becomes a header sector and its padded parts iff the file is whole |
| `ImageFormat.MakeImage` | boot/installboot.c:195-258 | make_image writes the entries of all programs one after the other, or stops iff one is not whole |
| `ImageFormat.ExtractExec` | boot/installboot.c:268-281 | extractexec reads whole sectors and writes count bytes of them |
| `ImageFormat.ExtractEntryFrom` | boot/installboot.c:284-334 | One turn of extract_image takes exactly one entry off the image |
| `ImageFormat.ExtractImage` | boot/installboot.c:284-334 | extract_image takes an image apart to its end, or stops where the specification does |
| `ImageFormat.ProcSizeIsSectors` | boot/bootimage.c:234-244 | proc_size skips as many sectors as the parts of a program have, for all sizes and all of A_SEP and A_PAL |
| `ImageFormat.EntrySize` | boot/installboot.c:221-253 | What make_image writes for a program is one sector and those that proc_size counts, and the header in it is the stripped one |
| `ImageFormat.StrippedSame` | boot/installboot.c:227-229 | Stripping changes neither sizes nor layout, and twice is once |
| `ImageFormat.ExtractEntry` | boot/installboot.c:284-334 | Whatever follows it, an entry that make_image wrote is taken off whole, and its program comes out |
| `ImageFormat.RebuildEntry` | boot/installboot.c:195-258 | The extracted program makes the same entry again |
| `ImageFormat.ExtractThenRebuild` | boot/installboot.c:284-334 | Every image that make_image makes can be taken apart, into programs of the same names, and the image made of these is the same image |
| `Loader.RawClear` | boot/bootimage.c:98-117 | The doubling loop zeroes exactly count bytes |
| `Loader.RawCopy` | boot/bootimage.c:113-113 | A copy between places that do not overlap |
| `Loader.LoadChunk` | boot/bootimage.c:356-369 | One turn of the loop reads the next sector if it has to and places one chunk, or fails iff the segment does not fit |
| `Loader.GetSegment` | boot/bootimage.c:349-377 | get_segment succeeds iff the sectors can be read and the chunks end below the limit; then it has put the bytes of the image there in order, zeros up to the click, has reduced the size by what it placed, and has written nothing outside [start, limit) |
| `Loader.FilledWithZeros` | boot/bootimage.c:349-377 | For an image that make_image made, that is the segment and nothing but zeros up to the click |
| `Loader.DeclaredExactly` | boot/bootimage.c:322-346 | Which click size and features a kernel is loaded with, bit by bit of the second and third word of its text, and when it is refused |
| `Loader.LoadSegments` | boot/bootimage.c:488-504 | Text and data use the sectors proc_size counts and lie one behind the other; with A_SEP the data starts on a click |
| `Loader.UpInSteps` | boot/bootimage.c:518-538 | What alignment has left over from a segment counts for the next one: aligning in steps is aligning the sum |
| `Loader.Extent` | boot/bootimage.c:518-538 | bss and stack take up whole clicks, together what the sum of all sizes needs |
| `Loader.LoadProcess` | boot/bootimage.c:466-541 | A program is loaded iff all but its stack fits; it ends where its size, aligned once, says, and its memory is segments and zeros |
| `Loader.NextHeader` | boot/bootimage.c:424-437 | The search for the next program with a selected label skips what proc_size says |
| `Loader.LoadNext` | boot/bootimage.c:466-548 | Loading one more program leaves those before it as they are |
| `Loader.LoadImage` | boot/bootimage.c:379-548 | exec_image loads an image iff every selected program fits behind the one before (or, with K_HIGH, in the extended block); then each of them is in memory, unharmed by the later ones, and nothing outside the two blocks has changed |
| `Loader.PlacementUnique` | boot/bootimage.c:413-548 | There is only one way to place the programs of an image |
| `Loader.EndsBefore` | boot/bootimage.c:413-548 | No program starts before the end of any earlier one; with K_HIGH all but the kernel start in the extended block |
| `Loader.PlacedSize` | boot/bootimage.c:477-541 | As far as the header tells: a program takes up whole clicks, none iff it has no content, and with A_UZP its range begins one click early |
| `Loader.Between` | boot/bootimage.c:413-548 | Between the end of a program and the start of a later one of its block there are whole clicks, none iff the programs between them are empty |
| `Loader.ApartExactly` | boot/bootimage.c:477-547 | Two programs of one block occupy disjoint ranges [cs, end) iff the later one has no A_UZP, or a program with content is between them, or both and all between are empty and the earlier one has no A_UZP |
| `Loader.BlockApartExactly` | boot/bootimage.c:477-547 | If the programs of a block have content they are pairwise apart iff none but the first has A_UZP, as the headers say |
| `Loader.ImageApartExactly` | boot/bootimage.c:477-547 | So are all programs of an image; with K_HIGH where the kernel ends a click below the extended block |
| `Loader.TwoProgramsOverlap` | boot/bootimage.c:485-485 | Two programs of one click each, the second with A_UZP, that overlap |
| `Loader.ProgramsApart` | boot/bootimage.c:477-547 | Corollary: a program without A_UZP is apart from every earlier one of its block, and from the kernel of a K_HIGH image iff the two do not overlap, as when the kernel ends below the extended block |
| `Loader.ZeroPageOverlaps` | boot/bootimage.c:485-485 | With A_UZP the range begins one click before the end of the predecessor in the block; the two are apart iff both are empty and the predecessor has no A_UZP |
| `MadeImages.ChosenExactly` | boot/bootimage.c:413-437 | Of an image that make_image made, the loader takes exactly the selected programs, in order, each with its own header; and gets to the end iff the last program of the image is selected |
| `MadeImages.MadeImageIsLoaded` | boot/bootimage.c:379-548 | End to end: once such an image is loaded, the processes are the selected programs, and in memory each has the text and the data of its file where its process says, then zeros for bss, room for its stack, and less than a click wasted; cs, ds and data are as its header wants |
| `MadeImages.ImageWhole` | boot/installboot.c:195-258 | An image is a whole number of sectors: per program one for the header and what its segments need |
| `RawFs.Reader.Stat` | boot/rawfs.c:107-173 | r_stat makes another file current and drops both cached block maps |
| `RawFs.Reader.Indirect` | boot/rawfs.c:270-280 | An entry of an indirect block, through the cache, is that of the disk |
| `RawFs.Reader.DoubleIndirect` | boot/rawfs.c:252-268 | The same for the double indirect block |
| `RawFs.Reader.VirToAbs` | boot/rawfs.c:218-285 | After any sequence of calls r_vir2abs answers what the uncached walk of the zones answers |
| `RawFs.Reader.VirToSec` | boot/bootimage.c:249-267 | So do file_vir2sec and flat_vir2sec |
| `RawFs.Reader.GetSector` | boot/bootimage.c:269-319 | After any sequence of calls get_sector answers the sector of the disk, or zeros for a hole, with track buffer and reading ahead; it fails iff the sector is past the end, or is not in the buffer and the track that starts there cannot be read |
| `RawFs.Reader.ReadAhead` | boot/bootimage.c:298-306 | It reads ahead as long as the sectors follow each other on the disk and in the file, up to a track boundary or 16 |
| `RawFs.HolesExactly` | boot/rawfs.c:218-285 | A block is reported as a hole iff its zone is missing and it is the first of it, or the indirect block is missing; with zone_shift 0 iff it is one |
| `RawFs.LayoutExists` | boot/rawfs.c:236-285 | Every file has a list of zones: direct ones, those of the single indirect block, those of the blocks the double indirect block names |
| `RawFs.BlockExactly` | boot/rawfs.c:218-285 | Block i of zone n of a file is block i of the zone that is n-th in that list; -1 past the end, 0 where an indirect block is missing |
| `RawFs.ShrExactly` | boot/rawfs.c:232-235 | Shifting right divides by the blocks of a zone |
| `RawFs.SectorExactly` | boot/bootimage.c:249-267 | The sectors of a block follow each other on the disk; those of a device do from the start of the image on |
| `RawFs.TrackExactly` | boot/bootimage.c:298-306 | A sector is read ahead iff it and all before it are next on the disk and in the file and no track begins there |
| `RawFs.InFile` | boot/rawfs.c:230-237 | A block below the size of the file has a zone number below the number of zones |
| `Monitor.NextToken` | boot/boot.c:340-379 | onetoken moves along the line as the specification reads it |
| `Monitor.Commands.Tokenize` | boot/boot.c:388-407 | tokenize puts the tokens of a line in order ahead of the remaining chain, and answers the place behind them |
| `Monitor.OnlyTokens` | boot/boot.c:340-379 | A line is cut into nothing but words, groups and single sugar characters |
| `Monitor.TokenExactly` | boot/boot.c:340-379 | Character by character: behind nothing but blanks, a token is one special character, or a group up to where its parentheses match, or a word that goes as far as it can; a newline becomes a semicolon; and there is none iff only blanks are left before the end or a control character |
| `Monitor.TokenComesOff` | boot/boot.c:340-379 | A whole token at the front of a line comes off it, whatever follows, if it is sugar or a space that ends a word |
| `Monitor.ReadsBack` | boot/boot.c:1653-1662 | Joined and read back, closed tokens stay as they are |
| `Monitor.OpenGroupSwallows` | boot/boot.c:355-362 | An open group swallows what follows it |
| `Monitor.BodyRoundTrip` | boot/boot.c:1653-1662 | Joining a function body and tokenizing it gives the same tokens iff every group but the last is closed |
| `Monitor.JoinFits` | boot/boot.c:1642-1653 | The body with its terminating 0 fits into the length that has been computed |
| `Monitor.MeasureBody` | boot/boot.c:1642-1651 | The first loop finds the end of the body and its room |
| `Monitor.BodyExactly` | boot/boot.c:1642-1651 | A body ends at the first semicolon outside braces or behind the first closing brace that leaves none open, whichever comes first |
| `Monitor.JoinBody` | boot/boot.c:1642-1662 | The second loop writes the joined tokens, within that room |
| `Monitor.BodyEndsInSugar` | boot/boot.c:1656-1662 | No space is ever added behind the last token of a body that something follows |
| `RunList.RecordRuns` | boot/installboot.c:511-548 | Too big iff more than BOOT_MAX blocks, holes iff a block is 0; else expanding the runs gives all sector addresses in order, no two neighbours could be merged, and there are at most BOOT_MAX of them |
| `RunList.RunsAreUnique` | boot/installboot.c:519-548 | There is only one such list |
| `RunList.TouchedFew` | boot/installboot.c:514-514 | Sectors within BOOT_MAX blocks touch at most BOOT_MAX blocks, so there are no more runs |
| `RunList.AddressesExactly` | boot/installboot.c:519-531 | Sector k of block b of the boot code is sector k of the disk block where block b is |
| `Archive.Writer.Write` | commands/aal/archiver.c:624-631 | Writing behind a gap that seeking has left fills it with zeros |
| `Archive.Writer.EnterNames` | commands/aal/archiver.c:777-799 | Each exported name is entered with the current offset and its place in the string table |
| `Archive.Writer.Copy` | commands/aal/archiver.c:555-590 | A copied member is written behind the others, on an even offset |
| `Archive.Writer.Add` | commands/aal/archiver.c:464-527 | So is an added one |
| `Archive.EnterAgrees` | commands/aal/archiver.c:777-799 | Entering the names of one more member keeps the index right |
| `Archive.IndexAgrees` | commands/aal/archiver.c:777-799 | Every entry names a member that exports the name, and every exported name has an entry |
| `Archive.IndexFindsMembers` | commands/aal/archiver.c:652-690 | In the written archive ran_pos of every entry is the offset of the header of its member and ran_off starts its name, and every exported name is found that way |
| `Archive.RewriteOne` | commands/aal/archiver.c:335-421 | One turn of the loop copies, replaces or drops one member as specified; a header or contents cut short are errors |
| `Archive.RewriteMembers` | commands/aal/archiver.c:335-421 | The loop over the old archive, in place |
| `Archive.FindMatch` | commands/aal/archiver.c:337-340 | The loop over the arguments finds the first that names the member |
| `Archive.AppendRest` | commands/aal/archiver.c:423-441 | Arguments that named no member are appended in order |
| `Archive.Rewrite` | commands/aal/archiver.c:320-460 | After append, replace or delete, in any mix and with members of any size, the members of the new archive are the specified ones and the index agrees with the file, from which it can be read back; it fails iff the old archive is broken |
| `Archive.RewrittenExactly` | commands/aal/archiver.c:335-421 | Without the u flag the members written are those of the old archive, in order, with those named replaced or dropped |
| `Archive.EqualExactly` | commands/aal/archiver.c:337-340 | Names are equal iff they agree up to the first 0, or in 14 characters |
| `Archive.AssignmentExists` | commands/aal/archiver.c:335-341 | Each member has at most one argument: the first that names it and is not for an earlier member |
| `Archive.KeptExactly` | commands/aal/archiver.c:335-421 | Member by member, for the argument assigned to it: a keeps all; r puts the file in its place, unless u finds the member newer, and drops it if there is none to read; d drops it; members not named are kept |
| `Archive.RewrittenAsWanted` | commands/aal/archiver.c:335-421 | That is what is written, from the bytes of a sound archive, without the u flag |
| `Archive.AppendedExactly` | commands/aal/archiver.c:423-441 | Each argument that was for no member and whose file can be read is appended, in order |
| `Archive.KeptOldSkips` | commands/aal/archiver.c:382-418 | With the u flag a kept member is skipped twice; reading goes on at the next member iff the kept one is empty |
| `Archive.UpdateExactly` | commands/aal/archiver.c:382-418 | With the u flag the members written are the specified ones if every kept member with contents is the last; otherwise, and if no later member is replaced, they are not |
| `Archive.HarmlessKeeps` | commands/aal/archiver.c:382-418 | The first half of that, by induction over the members |
| `Archive.SkippingLoses` | commands/aal/archiver.c:382-418 | The second half: behind the skipped bytes there are too few left for all members that should follow |
| `Archive.KeptOldLoses` | commands/aal/archiver.c:382-418 | If the bytes skipped are those of the next members, just these members are lost |
| `Archive.SecondIsLost` | commands/aal/archiver.c:382-418 | Any kept member of 26 bytes takes an empty member behind it away |
| `Archive.MemberIsLost` | commands/aal/archiver.c:382-418 | An archive of two members that loses one |
| `Archive.MisreadingMakesUp` | commands/aal/archiver.c:382-418 | An archive where a replaced member makes the wrong reading come to the right result, so that the restriction to archives without one cannot be dropped |
| `Archive.BodyReads` | commands/aal/archiver.c:676-689 | Reading the body of the symbol table back gives the index |
| `Archive.IndexReadsBack` | commands/aal/archiver.c:652-690 | In any archive below 2 GB everything in the index can be written as a long, so the file gives it back |
| `Archive.ReadBehind` | commands/aal/archiver.c:306-313 | What is in front of the members does not change how they are read |
| `Archive.ReadAgain` | commands/aal/archiver.c:298-316 | The archive written can be read again: its symbol table is skipped whole and the members found are those written |
| `BootParams.PackOne` | boot/bootimage.c:146-152 | One variable is packed behind the others if it fits, and the length counts it anyhow |
| `BootParams.DecimalReads` | boot/boot.c:804-820 | ul2a10 gives decimal digits without a leading zero that read as the number |
| `BootParams.VarsExactly` | boot/bootimage.c:126-155 | Which variables are packed: each one that is set, in order, with its value, or for a device with digits that read as its number; none iff a device is unknown |
| `BootParams.MemoryVarsExactly` | boot/bootimage.c:156-170 | memsize and emssize are packed with digits that read as the kilobytes of the two blocks |
| `BootParams.PackExactly` | boot/bootimage.c:146-152 | In the text each variable is its name, an equals sign, its value and a 0, and the next one follows right behind |
| `BootParams.Params2Params` | boot/bootimage.c:126-180 | params2params succeeds iff all devices are known and everything fits, and then the array starts with all variables, packed, and an empty string |
| `BootParams.LookupAt` | kernel/start.c:142-152 | The value of a name is that of its first variable, if there is one |
| `BootParams.Compare` | kernel/start.c:143-147 | A name matches an entry iff it is the whole name of it: prefixes of each other do not |
| `BootParams.GetValue` | kernel/start.c:134-153 | get_value answers the place of the value of the first variable of that name, or NIL iff there is none |
| `BootParams.PackThenLookUp` | boot/bootimage.c:126-180 | Whatever the environment: once it is packed, the kernel finds the packed value for every name, and NIL for every other |

## Left out

- Interrupt masking, port I/O, the 8253 and 8259 and assembly: each kernel entry is one step. `lock` and `unlock` are not modelled.
- Message contents beyond who sent what to whom, return values that report a source or a VM, and s_int_pending.
- The tables p_priority, rdy_head, p_caller_q and their links are fields of type `seq` instead of C arrays and embedded links; descriptors that are DISABLED or reserved in other ways have one flag `other`.
- The privilege checks that sys_call leaves at 0 (kernel/proc.c:174-176), HDEBUG and PRTMSG. Calls that would dereference a NIL or stray pointer, or that panic, answer PANIC and change nothing.
- The argument of an endpoint is a number whose generation is split off as in the kernel; how generations are made is not modelled.
- Kernel.Machine.ClearEndpoint: drops the caller queue of the dead process, which the kernel leaves as it is (kernel/system.c:784-867); whoever of it is not released is kept in a ghost set. It requires that those who send to the dead endpoint within the VM stand in that queue, and that the dead process waits where its p_sendto_e says.
- Runs.ClearReleasesEachWaiter: the same.
- Runs.RunKeeps: the same for the deaths in a run: the caller-queue invariant is that of the queues without those of dead processes, and those left SENDING or NOTIFYING to one are accounted for in the ghost set.
- NotificationRuns.NothingLostOrDoubled: runs without deaths, as clear_endpoint throws pending notifications away; and no pair ever has 255 pending.
- NothingPending.CallFine: for a process that shares its privilege structure with no other, as the servers, drivers and tasks of the boot image do; user processes share one.
- Booting.SinceBoot: the trap masks, priorities and quanta are any; privilege structures are handed out in the order of the slots (kernel/system.c:281-312); the tables that a VMM request fills in when a guest starts (kernel/system/do_vmmreq.c) are not steps of a run. The runs of `Runs.RunKeeps` start in any state that satisfies the invariants, with guests too.
- Meetings.ReceiveExactly: for a receiver with nothing pending that is not SENDING; which pending notification is taken first is in `Notifications`, and a receiver that is SENDING keeps waiting.
- Meetings.ReceiveVmExactly: for a promiscuous process that serves the VMs of all in its queue.
- Meetings.SendVmExactly: to a real process that has not excluded a source; likewise `Meetings.NotifyVmExactly` and `Meetings.RelayExactly`.
- MadeImages.MadeImageIsLoaded: no sector of the image but those of its headers need look like a header, but one that does must have sane sizes, as `Loader.LoadImage` asks; every sector can be read. The kernel is in its place where low memory ends below the extended block.
- LocalRuns.NoRendezvousIsMissed: for SEND, RECEIVE, SENDREC and NOTIFY among the processes of one VM. The NOT_PROC form of RECVVM and a SENDVM that blocks are tested differently by the two sides (kernel/proc.c:778-791, 1840-1849 and 1005-1008).
- LocalRuns.NoDeadlockIsReached: for callers that name a process by its present endpoint and do not name themselves, which sys_call does not check for the kernel tasks.
- RunQueueCheck: p_ready, which is never written (kernel/debug.c:134 and 158 only read it), is a parameter; DEBUG_SCHED_CHECK is 0 (kernel/config.h:90), so nothing calls the check in this build.
- Tokens.GuestsNeverGetTokens: VMs are loaded into free slots, started once they are loaded, and never freed; killing one, which never clears VM_bitmap, is not modelled.
- Load averages, timers, accounting, randomness, statistics and balance_queues, which returns at once in this build.
- Isolation: BIOS and remote segments are mapped as in the code, but only copies with LOCAL_SEG on both sides are characterised. A PhysCopy whose ranges overlap with the destination above the source is only said to stay in its destination.
- Isolation.CopyAllowedExactly: requires linear memory maps, as made at boot. `Isolation.NeverTwoGuests` does not.
- The processor check, the copies of the headers at `aout`, patch_sizes and everything behind the loading loop of exec_image; which labels are selected is a parameter.
- Loader.LoadImage: headers in the image have sizes that are not negative, and a total that covers what the program is made of; the extended memory block starts at a multiple of 64 KB; addresses stay below 4 GB. A start past the limit, where the unsigned subtraction of the original would go on to fail a check later, fails at once. The room for the stack is not checked against the limit, as in the code.
- ImageFormat.ExtractThenRebuild: files are byte sequences; names have at most IM_NAME_MAX characters, contain no 0, ':' or '/' and differ; headers have 32 to 48 bytes. Symbol tables are not written, as in make_image.
- RawFs: reading directories (r_readdir, r_lookup) and the two inode layouts; a disk is a function from block numbers to contents, and zone << shift does not pass 32 bits.
- RunList.RecordRuns: the encoding of a count in one byte (boot/installboot.c:576), raw_install and the boot block itself.
- Monitor: the other branches of execute, the environment, line editing. If a body ends with the tokens, the second loop looks at a successor that is NIL (boot/boot.c:1659); the model guards it.
- Archive: names are compared as strncmp does, over at most 14 characters and up to a 0. An argument that has been used is not looked at again; the original overwrites it with an empty string, which would match a member with an empty name.
- Archive: printing and extracting, modes and dates; whether a file is newer than its member is a parameter, as are the names an object exports (do_object, do_names). Longs are written with the low byte first, as put4 and a little-endian machine do. A last member of odd size that is copied gets no pad byte, as in the code.
- Archive.UpdateExactly: where a member is replaced behind a kept one that is skipped, it does not say whether the result is right; `Archive.MisreadingMakesUp` shows that it can be.
- BootParams.PackThenLookUp: names are not empty and have no '=' or 0, values no 0.
- kernel/i8259.c, proxy, commands/advent, mkfile, addaout and the printing helpers, which would only add easy members.
