# BradypOS: models and proofs

BradypOS is a small L4-style kernel with its user-space servers. This project models its kernel core and
several of its libraries and servers in Dafny, and proves what they keep. `dafny verify dfyconfig.toml` checks it.

| file | what it models |
|---|---|
| Words, Bits | machine words, thread ids, message tags; bit operations and division |
| ReadyHeap, HeapOrder | the ready queue's array heap, and when it keeps its order |
| L4Time | L4 time values and their comparison |
| Memory, MessageCopy, MessageLimits | memcpy on overlapping ranges; the transfer of a message between two UTCBs; which messages are copied |
| KernelState, Ipc | the state of the kernel; the send and receive phases, the recursion between them, timeouts |
| IpcRendezvous, IpcDelivery | no missed rendezvous; a monitor of the IPC protocol |
| IpcExactlyOnce, IpcPhases | counting messages; what an accepted event says of those before it |
| IpcContents, IpcErrors, IpcQuiet | what a receiver holds when a call ends; what a failed phase leaves; what is left alone |
| KernelSystem, KernelRuns, KernelSchedule | the kernel as a machine of steps, its invariant, and what a switch does to the heap's order |
| KernelTheorems, KernelDelivery, KernelVersions | what holds of all its runs |
| KernelCalls, KernelAnswers, KernelStart | single calls as runs; what callers are answered; a thread's creation and start |
| ThreadMap | the thread list's binary search |
| Kernel | the kernel's tables and functions, updated in place |
| PageAlloc | the page allocator's linked free list |
| OpenFiles, OpenAnswers | the open-file hash table of the romfs server, and its replies |
| ElfImage, ElfSymbols, SymbolHash, Alignment, Boot, Loader | relocation, symbol lookup, placement, and the loader in place |
| Numerals | printing and reading numerals |
| TermStream | the UART driver's write path and its client |

Code that works in place is a class or a method over arrays. Where it has a specification function, its
`ensures` says that the state it leaves is that function's value, and the theorems are about the function.

## The kernel machine

A state holds the threads (ids, states, IPC partners, UTCBs, saved registers), the ready heap, the current
thread, the caller of the system call being served, the number of address spaces, and the memory. A step is a
supervisor call, a thread switch, a turn of the kernel thread's loop, the running of user code, the timeout or
unpausing of a thread, or a reschedule; an exception together with the context switch that follows it is one
step. What comes from outside arrives as a parameter of the step: user registers, memory writes, the verdicts
of the address-space checks and the words of the kernel interface page. Thread numbers are distinct, and the
peers of an IPC are named by global id or, in a receive phase, by the any-thread wildcard; a call that names
them otherwise, or that ends in one of the kernel's panics for unimplemented cases, leaves the model. So does a
call that creates a thread whose number is not above all present ones, or the sixteenth thread: the list would be
out of order or read past its end. On every run that is left the machine's lookup of a thread by its number and
the kernel's binary search are the same (`KernelTheorems.LookupEver`). UTCB addresses serve as local ids; they
need not have local form, but one that reads as the global id of a thread leaves the model, and so does a UTCB
that meets another one. Alarms may come at any time: a timeout for any thread, the end of a pause for any user
thread that has been started, since a thread can be taken out of a pause or a phase before its alarm goes off.
A run is any sequence of steps whose guards hold, from the state that `create_sys_threads` leaves.

## What the code does and its documentation does not say

- A zero timeout equals `L4_never`: both have mantissa 0 and the comparison looks at nothing else
  (lib/l4/schedule.c:40-61, include/l4/time.h:17-18). A phase given a zero timeout therefore waits for ever
  instead of being refused (`Ipc.NoTimeoutRefuses`, `L4Time.NeverAndZeroAreOne`).
- The time comparison shifts a promoted signed value, so from mantissa 512 on its sign is copied down (read here
  as two's complement, as gcc compiles it), and against a zero mantissa a large exponent gap drops the other
  time. `L4Time.ComparisonExactIff` states exactly when the answers are right.
- `sink` takes the right child without looking at the left one. The heap keeps its members but not its order;
  `HeapOrder` states exactly when it does.
- `thread_list_find` reads one entry past the list when all 16 threads exist and the number is above the
  largest (`ThreadMap.SearchReadsInsideIff`). It is not always the insertion point that `thread_list_insert` takes
  it for: its interval can shrink to one slot that is never compared. `ThreadMap.InsertionPointIff` states exactly
  for which numbers of threads and places it is right; with three threads one place is wrong, with thirteen six.
- The comment in usr/pl011/pl011.c:385-387 expects a carriage return to be sent more than once for one line feed.
  It never is: the line feed counts as written before the FIFO is asked again (`TermStream.HandleWriteLaw`).
- `a2u` takes a digit equal to the base (`Numerals.ReadsBackIff`).
- `linked_to_loaded_addr` never finds a segment that ends at the top of the address space
  (`ElfImage.TranslatedIff`), and `load_elf_file` drops the result of the relocation: at an unknown relocation type
  the rest of the table is left undone and the load succeeds (`ElfImage.EntriesTranslate`,
  `Loader.UnknownIsNotReported`; `ElfImage.UnknownStops` is a memory where it happens).
- Reopening a live descriptor makes a second entry exactly when a tombstone lies before the first
  (`OpenFiles.ReopenSucceedsIff`), which four requests of one client bring about (`OpenFiles.ReopenIsLetThrough`).
- `copy_payload` copies typed words in pairs, so an odd count is rounded up in the message and in its tag
  (`MessageCopy.MessageFidelity`).
- Root's second thread has its UTCB 160 bytes behind the first, and a local id is a UTCB address whose low
  seven bits are zero (usr/root/root.c:36-52, include/l4/thread.h:35-38). So at most one of the two has local form;
  the other's local id is looked up as a global one.
- `memcpy` always copies forward, and IPC lets a receiver place its buffer inside the sender's text. Such a string
  arrives garbled unless it repeats itself (`MessageCopy.MessageFidelity`, `MessageCopy.OwnBufferSpoils`).
- Space control activates the thread it names whatever that is doing. A thread blocked in a phase is taken out of it
  without an error, and so is one whose stale pause alarm goes off; the monitor sees such a phase cut short
  (`KernelDelivery.SpaceControlObserved`, `KernelDelivery.UnpauseObserved`). The idle thread can be named too, and
  then nothing keeps the scheduler from its panic (`KernelRuns.ActivationKeepsIff`, `KernelRuns.NoTaskIff`);
  `write_utcb` would go through its null UTCB first. The machine does not follow the activation of the idle or the
  kernel thread.
- Partners are looked up by thread number, but `is_viable_ipc_partner` compares whole ids. A sender that names a
  waiting receiver with another version is served; if it comes first, both stay blocked (`KernelVersions`).

## Model

| member | source | states |
|---|---|---|
| KernelTheorems.NoMissedRendezvousEver | kern/syscall/ipc.c:106-528 | over every run from boot: no thread is send-blocked to a thread that is receive-blocked on it or on any thread |
| KernelTheorems.ReadyQueueAgreement | kern/thread.c:187-261 | in every reachable state the heap holds each runnable thread but the current one exactly once and nothing else, and is never full |
| KernelTheorems.SchedulerNeverPanics | kern/thread.c:217-235 | in every reachable state a switch, to any wish, reaches neither panic; the new current thread is runnable and out of the heap, and it is the wished thread whenever that one waits for the processor |
| KernelDelivery.ExactlyOnce | kern/syscall/ipc.c:279-494 | over every run from a state in which no one is in a phase, as at boot, and for every event of it: a phase that ends was begun and not ended since, and between its beginning and its end there was exactly one message of its thread if it ended well and none if it failed or was cut short from outside; every message went from an open send phase that had sent none to an open receive phase that had none, each naming the other, or from a pager to a thread in no phase; and no phase begins while one of its thread is open |
| KernelDelivery.RunObserved | kern/syscall/ipc.c:279-494 | over every run the protocol monitor accepts every event, new threads being idle, and ends in the roles that the final state shows |
| KernelDelivery.BootIsIdle | kern/systhread.c:47-121 | after the system threads are created no thread is in a phase |
| KernelDelivery.RunBalances | kern/syscall/ipc.c:279-494 | the totals of a run: messages from and to each thread equal its phases that ended well, and phases begun are those over or still open |
| IpcPhases.AcceptedIsJustified | kern/syscall/ipc.c:279-528 | every event that the monitor accepts from idle roles is justified by the events before it, as stated for runs |
| IpcPhases.RolesBornOut | kern/syscall/ipc.c:279-528 | the role that the monitor shows is borne out by the events so far: the phase's beginning, nothing that ends it since, and its one message or none |
| IpcContents.CallDelivers | kern/syscall/ipc.c:17-96 | for every message of a call, along the whole recursion, the receiver's tag, words and sender when the call ends are those that the copy makes of the sender's UTCB at the call's beginning, and its r0 is the sender's local id within one address space and the global one otherwise: nothing later in the call writes over them, UTCBs being apart |
| IpcErrors.CallAnswers | kern/syscall/ipc.c:279-494 | every phase that a call ends with an error, the caller's, its partner's or one along the recursion, leaves the thread with the error bit in its tag and an error word that names the phase and the cause: a missing partner exactly if no thread has the number, and otherwise a message between it and a thread it named that does not fit |
| IpcQuiet.CallQuiet | kern/syscall/ipc.c:279-494 | a call leaves the tag, error word and sender's id of every thread alone that it neither gives a message nor ends a phase of with an error, so a sender served well keeps its own |
| IpcQuiet.SendFailsIff | kern/syscall/ipc.c:279-372 | a send phase fails exactly if no thread has the number or the message does not fit the partner found, a start message apart |
| IpcQuiet.RecvFailsIff | kern/syscall/ipc.c:374-451 | a receive phase fails exactly if no thread has the number or the ready sender's message does not fit |
| IpcQuiet.TimeoutAnswers | kern/syscall/ipc.c:496-528 | a timeout makes a blocked thread runnable with the error bit set, the rest of its tag and words as they were, and an error word that names its phase and the timeout; it does nothing to any other thread |
| IpcContents.RecvDelivers | kern/syscall/ipc.c:374-451 | the same for a receive phase and the chain it sets off, which writes the UTCBs of no one but the receiver and threads that were send-blocked |
| IpcExactlyOnce.CallServesOnce | kern/syscall/ipc.c:453-494 | within one call, with its whole recursion, no thread is the source or the destination of two messages, and there are no more copies than threads |
| IpcExactlyOnce.RecvServesOnce | kern/syscall/ipc.c:374-451 | a receive phase and the chain of sender receives it sets off deliver at most once to and from each thread, and only to threads that were send-blocked or are the receiver |
| IpcExactlyOnce.AcceptedBalances | kern/syscall/ipc.c:279-494 | any event sequence the protocol monitor accepts balances every thread's phases and messages |
| Ipc.ChainGrows | kern/syscall/ipc.c:403-415 | the sender a receive phase finds is not yet on the recursion, since its destination is this receiver alone: why do_ipc and ipc_recv end |
| Ipc.ChainIsShort | kern/syscall/ipc.c:374-492 | the recursion is at most as deep as there are threads |
| Ipc.NoTimeoutRefuses | kern/syscall/ipc.c:221-248 | no timeout makes a phase give up at once: a zero mantissa waits without an alarm, whatever its exponent, and any other arms one or panics for a time point |
| IpcRendezvous.SearchIsComplete | kern/syscall/ipc.c:106-219 | the partner search reports no partner ready only if none is: a blocked thread that would match is found |
| IpcRendezvous.AnyIsFirst | kern/syscall/ipc.c:118-136 | a search for anyone finds the first willing thread in the order of the list |
| IpcRendezvous.PagerMsgIff | kern/syscall/ipc.c:205-217 | a message counts as a pager's exactly if it is sent to an active thread whose pager exists and is in the sender's address space |
| IpcRendezvous.IpcSendKeeps | kern/syscall/ipc.c:279-372 | a send phase keeps the rendezvous invariant, also when it ends waiting |
| IpcRendezvous.IpcRecvKeeps | kern/syscall/ipc.c:374-451 | so does a receive phase with the chain it sets off |
| IpcRendezvous.DoIpcKeeps | kern/syscall/ipc.c:453-494 | and the whole of a call |
| IpcRendezvous.IpcTimeoutKeeps | kern/syscall/ipc.c:496-528 | and the timeout of any thread in any state |
| IpcDelivery.DoIpcObserved | kern/syscall/ipc.c:453-494 | the protocol monitor accepts every event of a call and ends in the roles that the thread states show |
| IpcDelivery.TimeoutObserved | kern/syscall/ipc.c:496-528 | the same for a timeout: a blocked phase is closed with an error and nothing else changes |
| KernelRuns.StepKeeps | kern/syscall.c:33-132 | every step of the machine, supervisor call, kernel turn, switch and alarms, keeps the kernel invariant and never panics in the scheduler |
| KernelRuns.ScheduleNextKeeps | kern/thread.c:187-235 | a context switch keeps the invariant and the multiset of runnable threads |
| KernelRuns.ServeCallerServes | kern/syscall.c:83-132 | each system call that the machine covers leaves the idle and the kernel thread runnable, the invariant intact and at least as many threads |
| KernelRuns.StepGrows | kern/syscall.c:33-132 | no step renumbers a thread or takes one away, and a new one has the largest number and is not the sixteenth |
| KernelTheorems.LookupEver | kern/thread.c:62-105 | in every reachable state and for every id the binary search over the thread list stays inside it and finds the thread that a scan finds, or that there is none |
| KernelTheorems.UtcbsApartEver | kern/syscall/thread_control.c:92-137 | in every reachable state the UTCBs of any two user threads are apart, as creation is followed only where the new one is |
| KernelVersions.StuckByVersion | kern/syscall/ipc.c:106-219 | in every reachable state two threads that wait for each other as far as their numbers go do so because one of them gave another version of the other's id |
| KernelVersions.WaitingSideDecides | kern/syscall/ipc.c:184-219 | the side that comes second finds the waiting thread under any version, and they meet exactly if the waiting thread named it with its own version, or anyone |
| KernelVersions.SenderWaits | kern/syscall/ipc.c:279-372 | over a call and its turn of the kernel thread: a send under any version to a thread that does not receive waits |
| KernelVersions.ReceiverWaitsToo | kern/syscall/ipc.c:374-451 | and when the thread then receives from anyone, with no one waiting to send to its very id, both wait for each other by number |
| KernelSchedule.PicksMostUrgent | kern/thread.c:187-235 | from an ordered heap a switch without a wish makes current a thread of the least priority number among all runnable threads, and the heap is ordered again exactly when sinking its last member from the root is safe |
| KernelSchedule.WishKeepsOrderIff | kern/thread.c:197-235 | with a wish that is runnable the wished thread becomes current, and the heap is ordered again exactly when its last member sinks safely from the wished thread's place and does not go before that place's parent |
| KernelDelivery.StepObserved | kern/syscall.c:33-132 | every step's events lead the monitor from the roles that the state before shows to those of the state after |
| KernelDelivery.OtherCallsKeepRoles | kern/syscall.c:83-132 | no system call but IPC and space control begins or ends anyone's phase; calls that change or delete a thread are outside the machine |
| KernelDelivery.SpaceControlObserved | kern/syscall/space_control.c:51-66 | space control cuts short the phase of the thread it activates, if that is in one, and begins or ends no other |
| KernelDelivery.UnpauseObserved | kern/kalarm.c:87-99 | so does the alarm that ends a pause, when the thread has left the pause by another way and is in a phase by then |
| KernelRuns.SpaceControlServes | kern/syscall/space_control.c:13-71 | the address-space call keeps the kernel invariant, whatever the thread that it activates is doing |
| KernelRuns.ActivationKeepsIff | kern/syscall/space_control.c:61-67 | activating a thread other than the kernel thread keeps the kernel invariant exactly if it is not the idle thread |
| KernelRuns.NoTaskIff | kern/thread.c:187-235 | the scheduler panics exactly when no thread is runnable, which is what an idle thread no longer runnable lets happen |
| KernelRuns.ThreadControlServes | kern/syscall/thread_control.c:92-198 | so does creating a thread at the end of the list, a thread with a new number being missed by no one |
| KernelAnswers.CreationAnswers | kern/syscall/thread_control.c:92-198 | what the creator gets: error 1, 3, 4 or 7 in the order of the checks, each exactly under its condition and with nothing else changed, or the answer 1 and one thread more |
| KernelAnswers.NewThreadIs | kern/syscall/thread_control.c:130-160 | the new thread is active exactly if it has a pager and its space's thread exists, and otherwise inactive; its space is that thread's, its scheduler r2, its pager r3, its UTCB r4 and its priority 42 |
| KernelStart.CreatedAndStarted | kern/syscall/ipc.c:250-262 | as a run: a thread created with its creator as pager and then sent two untyped words is runnable with its entry at the first word and its stack 32 bytes below the second |
| KernelAnswers.SpaceAnswers | kern/syscall/space_control.c:13-71 | the answer of the address-space call, the space and the state of the thread named, and the error numbers 3 and 7 |
| KernelAnswers.SpaceErrors | kern/syscall/space_control.c:51-66 | the error words it leaves past its checks |
| KernelAnswers.ScheduleAnswers | kern/syscall/schedule.c:9-86 | the schedule call: error 2, 1 or 5 in the order of the checks, or the named thread's state as the answer and its new priority, nobody else's changing |
| KernelAnswers.LowCallNumbers | kern/syscall.c:83-132 | the calls numbered 0 to 4 |
| KernelAnswers.HighCallNumbers | kern/syscall.c:83-132 | the calls from 5 on |
| KernelAnswers.SwitchAnswers | kern/syscall.c:46-57 | a thread that switches is paused, and the thread it names runs next if it waits for the processor |
| KernelCalls.CallMade | kern/syscall.c:65-70 | a call blocks its caller, records it with its registers and makes the kernel thread run next, everything else staying |
| KernelAnswers.UnpauseAnswers | kern/kalarm.c:87-99 | an alarm that ends a pause makes its thread runnable, changes no other thread's state, and a runnable thread runs next |
| KernelAnswers.RootRunsFirst | kern/systhread.c:47-121 | the first switch after the system threads are created runs the root thread |
| KernelSchedule.PriorityKeepsOrderIff | kern/thread.c:263-272 | a change of priority leaves the ready heap ordered exactly if sinking the thread is safe, which it is whenever the thread becomes more urgent |
| KernelState.SetStateAgrees | kern/thread.c:247-261 | a change of thread state keeps the heap equal to the runnable threads but the current one |
| KernelState.HeapHasRoom | lib/heap/include/heap.inc:90-99 | an agreeing heap always has room for one more thread, so the unchecked refusal of an insert cannot happen |
| KernelTheorems.BootInv | kern/systhread.c:47-121 | the state after the system threads are created satisfies the invariant, unless root's UTCB address reads as the id of one of them |
| MessageCopy.MessageFidelity | kern/syscall/ipc.c:17-96 | every message that is copied to its end arrives complete: the untyped words verbatim, the typed items in order with the receiver's buffers for pointers, none of them shorter than its string, the tag with its flags cleared, and nothing else touched; if no buffer meets another buffer or another text, each string arrives exactly if its buffer does not begin inside its own text or the text repeats itself at that distance; an odd number of typed words counts as the next even one, and a message of 16 words reaches into the buffer registers without harm |
| MessageLimits.CopiedIff | kern/syscall/ipc.c:17-96 | a message is copied exactly if it has at most 16 words, its items are map items and simple strings with simple buffers, strings are accepted if there are any, and every string is no longer than its buffer and lies, like it, in the memory |
| MessageLimits.OverflowIff | kern/syscall/ipc.c:17-69 | when its items are of these kinds a message overflows exactly if it has more than 16 words, or has strings that are not accepted, or one that is longer than its buffer |
| MessageLimits.DescriptorFields | include/l4/ipc.h:223-231 | the bit fields of a string item's first word |
| MessageCopy.OwnBufferSpoils | lib/string/string.c:36-50 | a string of three bytes whose buffer begins at its second byte arrives as its first byte three times over |
| Memory.CopiedByte | lib/string/string.c:36-50 | what memcpy leaves in its target, for every overlap: the text, or, when the target begins d bytes into it, its first d bytes over and over |
| Memory.ArrivesIff | lib/string/string.c:36-50 | the target reads as the text did exactly if it does not begin inside it or the text repeats itself at that distance |
| Memory.Memcpy | lib/string/string.c:36-50 | in place: the forward loop leaves the specified memory |
| MessageCopy.CopyItemsFidelity | kern/syscall/ipc.c:31-84 | the item loop keeps its two offsets equal and every item arrives at the offset it was sent from |
| MessageCopy.CopyItemsStrings | kern/syscall/ipc.c:46-77 | memory outside the buffers is kept, and every string whose buffer meets no other one ends in the receiver's next buffer as the byte loop of memcpy leaves it, which is as it was exactly under the condition on its own overlap |
| ReadyHeap.InsertMultiset | lib/heap/include/heap.inc:90-99 | an insert adds one occurrence of the value and loses nothing |
| ReadyHeap.DeleteMultiset | lib/heap/include/heap.inc:101-115 | a delete or pop removes one occurrence of the member at the index and nothing else |
| ReadyHeap.ReadyQueue.SwimUp | lib/heap/include/heap.inc:40-53 | in place: the buffer becomes the specified swim and the resting index is returned |
| ReadyHeap.ReadyQueue.SinkDown | lib/heap/include/heap.inc:55-88 | in place: the buffer becomes the specified sink, right child first, and the resting index is returned |
| ReadyHeap.ReadyQueue.Push | lib/heap/include/heap.inc:90-99 | in place: a full heap refuses and stays, else the value swims up from the end |
| ReadyHeap.ReadyQueue.DeleteAt | lib/heap/include/heap.inc:101-107 | in place: the last member replaces the one removed and sinks |
| ReadyHeap.ReadyQueue.Pop | lib/heap/include/heap.inc:109-115 | the same at the root |
| HeapOrder.InsertKeepsOrder | lib/heap/include/heap.inc:40-99 | an insert keeps the priority order of the heap |
| HeapOrder.RootIsFirst | lib/heap/include/heap.inc:109-115 | in an ordered heap no member has a smaller priority number than the root |
| HeapOrder.PopKeepsOrderIff | lib/heap/include/heap.inc:55-115 | a pop keeps the order exactly when, on the way down, no exchange with a right child passes over a left sibling that goes before it |
| HeapOrder.DeleteKeepsOrderIff | lib/heap/include/heap.inc:101-107 | a delete does exactly when, besides, the last member does not go before the parent of the place it takes |
| HeapOrder.PopBreaksOrder | lib/heap/include/heap.inc:70-82 | an ordered heap of four whose pop puts priority 3 at the root above priority 2 |
| HeapOrder.TiesStay | lib/heap/include/heap.inc:40-107 | a thread that goes before none of the heap is added behind them, and among equals the last member takes the place of the one removed and stays there |
| ThreadMap.LookupExact | kern/thread.c:62-105 | on a sorted list of distinct numbers lookup finds every present thread and reports every absent number as missing, with 16 threads for a number up to the largest |
| ThreadMap.SearchFindsPresent | kern/thread.c:62-89 | the closed-interval search ends at the position of a present number |
| ThreadMap.SearchReadsInsideIff | kern/thread.c:62-89 | the search stays inside the thread list exactly when fewer than 16 threads exist or the number is not above the largest |
| ThreadMap.InsertionPointIff | kern/thread.c:62-89 | for an absent number that belongs at place r of n present ones the search ends at r exactly when slot r - 1 is not among the slots that the interval of a search among n can shrink to uncompared, a set of n alone |
| ThreadMap.InsertionPointAtEnd | kern/thread.c:62-89 | the last slot is always compared, so a number above all present ones goes to the end |
| ThreadMap.InsertionPointBetween | kern/thread.c:62-89 | three threads leave one slot uncompared and thirteen six; a concrete list and a number put in the wrong place |
| Kernel.Kernel.SetThreadState | kern/thread.c:247-261 | in place: state and heap become those of the specified state change |
| Kernel.Kernel.FindThreadByGlobalId | kern/thread.c:62-105 | in place: the binary search over the live table returns the thread that the specification looks up |
| Kernel.Kernel.FindIpcPartnerAny | kern/syscall/ipc.c:118-136 | in place: the scan returns the first matching blocked thread in number order, or that none is ready |
| Kernel.Kernel.FindIpcPartner | kern/syscall/ipc.c:184-219 | in place: the specified search result for a global id or any thread |
| Kernel.Kernel.CopyTypedItems | kern/syscall/ipc.c:31-84 | in place: the loop leaves the receiver's registers and the memory as the specified item copy |
| Kernel.Kernel.CopyPayloadTo | kern/syscall/ipc.c:17-96 | in place: the two UTCBs, the memory, string by string through the loop of memcpy, and the receiver's r0 become those of the specified copy, and the code is its code |
| Kernel.Kernel.SendPhase | kern/syscall/ipc.c:279-372 | in place: the tables become the specified outcome of the send phase, and the events recorded beside the statements are the specified ones |
| Kernel.Kernel.RecvPhase | kern/syscall/ipc.c:374-451 | in place: the same for the receive phase with its recursion |
| Kernel.Kernel.DoIpcFor | kern/syscall/ipc.c:453-494 | in place: the same for the whole call |
| Kernel.Kernel.DoIpcTimeout | kern/syscall/ipc.c:496-528 | in place: the same for a timeout of the thread that the alarm names, and nothing if there is none |
| Kernel.Kernel.ScheduleNextThread | kern/thread.c:187-235 | in place: heap and current thread become the specified switch, or the specified panic is reported |
| Kernel.Kernel.SvcThreadSwitch | kern/syscall.c:46-57 | in place: the thread-switch call pauses the caller, unless it is the kernel thread, and switches to the named thread if it can |
| Kernel.Kernel.SvcDefault | kern/syscall.c:65-70 | in place: any other call records the caller, blocks it and switches to the kernel thread |
| Kernel.Kernel.SetThreadPriority | kern/thread.c:263-272 | in place: the priority is changed and a waiting thread is sunk and swum to its place |
| Kernel.Kernel.SyscallSchedule | kern/syscall/schedule.c:9-86 | in place: the checks, error numbers and answer of the schedule call |
| Kernel.Kernel.IsViableIpcPartner | kern/syscall/ipc.c:106-117 | in place: the specified test of one thread |
| Kernel.Kernel.SetThreadTimeoutOf | kern/syscall/ipc.c:221-248 | in place: the specified state, refusal or panic |
| Kernel.Kernel.PagerStartThread | kern/syscall/ipc.c:250-262 | in place: the target's entry and state become the specified ones |
| Kernel.Kernel.FindThreadIdxToSchedule | kern/thread.c:187-195 | in place: the heap's first thread is taken out and named, if there is one |
| Kernel.Kernel.FindThreadIdxFromTarget | kern/thread.c:197-215 | in place: the wished thread is taken out if it waits, else the heap's first; a wished thread that waits without being runnable is refused |
| Kernel.Kernel.SyscallSpaceControl | kern/syscall/space_control.c:13-71 | in place: the thread's space, state and the caller's answer as specified, in the order of the error checks, and the phase that is cut short recorded |
| Kernel.Kernel.SyscallThreadControl | kern/syscall/thread_control.c:92-198 | in place: a creation or refusal as specified, in the order of the error checks; a call that the machine does not cover is reported |
| Kernel.Kernel.SoftirqSvc | kern/syscall.c:83-132 | in place: a served call leaves the specified state and records the specified events |
| Kernel.Kernel.SoftirqExecute | kern/softirq.c:23-48 | in place: a turn of the kernel thread leaves the state of the specified step |
| Kernel.Kernel.ThreadListInsert | kern/thread.c:132-145 | in place: a thread with the largest number is entered at the end of the list |
| Kernel.Kernel.CreateThreadOf | kern/thread.c:159-179 | in place: a new thread is appended to the tables as specified |
| PageAlloc.AllocKeepsPartition | lib/buddy/linked_list_alloc.c:44-63 | an allocation keeps every page in exactly one free block or allocated, and moves exactly the pages it returns, the first of the first block that is large enough |
| PageAlloc.FreeKeepsPartition | lib/buddy/linked_list_alloc.c:65-74 | freeing an allocated range keeps it and moves exactly that range back |
| PageAlloc.PagesConserved | lib/buddy/linked_list_alloc.c:10-74 | over any run of non-zero allocations and frees of allocated ranges no page is lost or held twice |
| PageAlloc.FreeThenAlloc | lib/buddy/linked_list_alloc.c:44-74 | freeing n pages at b and allocating n returns b and restores the list exactly |
| PageAlloc.UniformNeverFragments | lib/buddy/linked_list_alloc.c:44-74 | when all requests have size k, an allocation succeeds exactly while fewer than page count / k blocks are out |
| PageAlloc.AllocTakesRoom | lib/buddy/linked_list_alloc.c:44-63 | each allocation of k pages takes exactly one of the k-sized rooms left in the free blocks |
| PageAlloc.FirstFitIs | lib/buddy/linked_list_alloc.c:44-52 | an index with only smaller blocks before it, at a large enough block or at the end of the list, is what the search returns |
| PageAlloc.Allocator.SplitNodeAt | lib/buddy/linked_list_alloc.c:21-30 | in place: the rest of the block becomes a new node behind it |
| PageAlloc.Allocator.DeleteNodeFromList | lib/buddy/linked_list_alloc.c:32-42 | in place: through a pointer to the head or to a node's next, with the second write seen through the alias: with every prev null the node is unlinked once and the list is as specified |
| PageAlloc.Allocator.FindFit | lib/buddy/linked_list_alloc.c:46-52 | in place: the loop over pointers to pointers ends at the first fit or at the end |
| PageAlloc.Allocator.Alloc | lib/buddy/linked_list_alloc.c:44-63 | in place: the free list becomes that of the specified allocation and its result is returned; a request of zero pages is included as the code serves it |
| PageAlloc.Allocator.Free | lib/buddy/linked_list_alloc.c:65-74 | in place: the free list becomes that of the specified free and every prev stays null |
| OpenFiles.ProbesDiffer | usr/root/romfs_server.c:114-134 | the five quadratic probes of a key are five different slots |
| OpenFiles.LookupReadsTop | usr/root/romfs_server.c:158-177 | lookup reads the top of the key's stack of files and fails exactly when the stack is empty |
| OpenFiles.OpenPushes | usr/root/romfs_server.c:114-134 | an open pushes in front or changes nothing, leaves all other keys alone, and finds no room exactly when five other keys hold the five slots |
| OpenFiles.ClosePops | usr/root/romfs_server.c:136-156 | a close pops the key's stack or fails exactly when it is empty, and leaves all other keys alone |
| OpenFiles.ReopenSucceedsIff | usr/root/romfs_server.c:187-206 | reopening a live descriptor, which is to be refused, is let through exactly when a tombstone lies before its first entry |
| OpenFiles.ReopenIsLetThrough | usr/root/romfs_server.c:187-320 | that happens: on the empty table, opening descriptors d and d + 32, closing d and opening d + 32 again are all answered well, and the descriptor is open twice |
| OpenFiles.SharedHome | usr/root/romfs_server.c:109-112 | descriptors d and d + 32 of one client hash to the same home slot |
| OpenFiles.HoldsWhatWasOpened | usr/root/romfs_server.c:187-320 | from the empty table, over any run of requests, each key's entries are the files that the replies imply |
| OpenFiles.HoldsAMap | usr/root/romfs_server.c:187-320 | and at most one a key while no client reopens a live descriptor |
| OpenFiles.ServeRefines | usr/root/romfs_server.c:187-320 | each handler has the effect on the stacks that its reply says, the directory of an openat being the top file of its key |
| OpenAnswers.OpenRootAnswers | usr/root/romfs_server.c:187-230 | each reply to an openroot exactly under its condition: the descriptor if the counts are right, some slot before the key's own first entry is not in use and the root is found; an error number for every other case |
| OpenAnswers.OpenAtAnswers | usr/root/romfs_server.c:232-301 | each reply to an openat exactly under its condition: the descriptor if the counts are right, the item is a simple string, the directory is open, the file in its top entry is found and a slot is left; an error number for every other case |
| OpenAnswers.CloseAnswers | usr/root/romfs_server.c:303-320 | each reply to a close exactly under its condition |
| OpenAnswers.OpensAFile | usr/root/romfs_server.c:187-301 | from the empty table a client opens the root directory and then a file in it |
| OpenFiles.RunRefines | usr/root/romfs_server.c:187-320 | over any run of requests the table holds exactly the stacks that the replies imply |
| OpenFiles.DisciplinedIsMap | usr/root/romfs_server.c:187-320 | while no client reopens a live descriptor the table is a partial map |
| OpenFiles.FileTable.FindInsertionPoint | usr/root/romfs_server.c:114-134 | in place: the specified slot or none |
| OpenFiles.FileTable.Find | usr/root/romfs_server.c:158-177 | in place: the specified slot or none |
| OpenFiles.FileTable.Delete | usr/root/romfs_server.c:136-156 | in place: the specified close |
| OpenFiles.FileTable.HandleOpenRoot | usr/root/romfs_server.c:187-230 | in place: reply and table as specified, in the order of the error checks |
| OpenFiles.FileTable.HandleOpenAt | usr/root/romfs_server.c:232-301 | in place: reply and table as specified, in the order of the error checks, the kind of the name's string item included |
| OpenFiles.FileTable.HandleClose | usr/root/romfs_server.c:303-320 | in place: reply and table as specified |
| ElfImage.TranslateInside | lib/elf/elf.c:45-57 | with disjoint segments an address of a segment keeps its distance from the segment's start |
| ElfImage.TranslateOutside | lib/elf/elf.c:45-57 | an address of no segment translates to null |
| ElfImage.TranslatedIff | lib/elf/elf.c:45-57 | an address of one of several disjoint segments, whose place is not null, is translated into that segment exactly when the segment ends below the top of the address space |
| ElfImage.EntriesTranslate | lib/elf/elf.c:95-115 | a table whose entries before the first of a type other than RELATIVE are apart is relocated up to there: the listed words are translated, every other byte is kept, and the outcome is success exactly when that entry is NONE and unknown otherwise |
| ElfImage.UnknownStops | lib/elf/elf.c:95-113 | a concrete memory with two RELATIVE entries around one of an unknown type: the first is translated, the last is not |
| ElfImage.RelocationTranslates | lib/elf/elf.c:95-115 | over a table of distinct, non-overlapping targets outside the table every listed word ends translated and every other byte is unchanged |
| ElfImage.RelocatedWord | lib/elf/elf.c:95-115 | a listed word that held a linked address of a segment ends as that address's place in the loaded segment |
| ElfImage.OrderDoesNotMatter | lib/elf/elf.c:95-115 | tables that list the same targets in any order leave the same bytes outside the table |
| ElfImage.ListedTwice | lib/elf/elf.c:97-105 | a target listed twice is translated twice |
| ElfSymbols.HashFrom | lib/elf/elf.c:202-214 | the hash stays below 2^28 after every character |
| SymbolHash.HashStepIs | lib/elf/elf.c:202-214 | one character: with x the old hash times 16 plus the character, the lowest digit is that of x, the second the exclusive or of the second and the topmost one of x, and the others those of x with the topmost one cleared |
| SymbolHash.GlobalOffsetHash | boot/boot.c:199-200 | the hash of __global_offset_table is 0x060343b5 |
| SymbolHash.BootInfoHash | boot/boot.c:208-210 | the hash of __L4_boot_info is 0x057fbbdf |
| ElfSymbols.LastTagIs | lib/elf/elf.c:59-93 | the scan of the dynamic tags ends with the loaded address of the value of the last tag of the kind |
| ElfSymbols.StrCmpDecides | lib/elf/elf.c:216-225 | against a terminated string the comparison ends, with zero exactly for the same name |
| ElfSymbols.LookupDecides | lib/elf/elf.c:253-278 | on a well-formed table the chain walk ends, finds a symbol of the name, and finds none exactly when there is none |
| ElfSymbols.LocateDecides | lib/elf/elf.c:227-285 | the lookup returns the loaded address of the value of a symbol so named, and NOSYM exactly when the name is absent |
| Alignment.AlignPtrIsLeast | boot/boot.c:107-112 | for a power of two align_ptr is the least aligned address not below its input, reduced to 32 bits |
| Alignment.LeastAlignedIs | boot/boot.c:107-112 | that address is aligned, not below the input, and no aligned address lies between |
| Boot.FileFaithful | lib/elf/elf.c:139-188 | every loaded segment has its header's address and size; a writable one keeps its address modulo its alignment, another stays in the file |
| Boot.FileStacked | lib/elf/elf.c:139-188 | the writable segments of a file lie one after the other between the old and the new marker |
| Boot.LoadsIff | lib/elf/elf.c:139-188 | below the top of the address space a file is loaded exactly if it has at most four segments, supplies the bytes of the writable ones and leaves room for them |
| Boot.DynamicIs | lib/elf/elf.c:184-188 | the dynamic tags are those of the last header of their kind, looked for in the segments loaded before it |
| Boot.BothDisjoint | boot/boot.c:183-217 | over both loads any two writable segments are disjoint, the later above, from the start of the memory on |
| Boot.ImageLoaded | lib/elf/elf.c:139-181 | after all headers every byte of every segment is found at its loaded address as the file and its zero padding give it |
| Boot.RootKeepsKernel | boot/boot.c:217-219 | loading root's segments leaves every byte below them as the kernel has it |
| Loader.UnknownIsNotReported | lib/elf/elf.c:183-196 | loading a file whose table reaches an unknown type succeeds all the same, with the entries before it relocated and nothing else written by the relocation |
| Loader.RootLoadKeepsKernel | boot/boot.c:217-219 | loading root, its relocation included, leaves every byte below root's place as the kernel has it, the words relocated lying in that place |
| Loader.LibelfState.LinkedToLoadedAddr | lib/elf/elf.c:45-57 | in place: the specified translation |
| Loader.LibelfState.RelocateElfFile | lib/elf/elf.c:59-115 | in place: the tag scan and the relocation loop leave the memory as specified, with the specified code |
| Loader.LibelfState.LoadElfFile | lib/elf/elf.c:128-196 | in place: memory, segments, tags, marker and entry point as specified |
| Loader.LibelfState.LocateElfSymbol | lib/elf/elf.c:227-285 | in place: the specified lookup, given that the bucket's chain ends |
| Loader.ElfFileState.AllocRw | boot/boot.c:114-124 | in place: location and new marker |
| Loader.LoadKernelAndRoot | boot/boot.c:183-219 | in place: two loads with one marker; the writable segments of both are stacked |
| Numerals.NoLeadingZero | lib/tinyprintf/tinyprintf.c:146-162 | the canonical numeral has no leading zero unless it is that of zero |
| Numerals.DigitsValue | lib/tinyprintf/tinyprintf.c:146-162 | and its value is the number |
| Numerals.PlacesAreDigits | lib/tinyprintf/tinyprintf.c:151-160 | dividing by falling powers of the base yields the canonical numeral |
| Numerals.DigitLetters | lib/tinyprintf/tinyprintf.c:146-162 | digits from ten on are letters, from A or from a on as asked |
| Numerals.NumeralFits | lib/tinyprintf/tinyprintf.c:256-261 | every 64 bit numeral in base 8, 10 or 16 fits the buffer with its terminator |
| Numerals.PrintUnsigned | lib/tinyprintf/tinyprintf.c:86-162 | the divisor never leaves its width and the buffer ends with the canonical numeral and its terminator |
| Numerals.FindDivisor | lib/tinyprintf/tinyprintf.c:151-152 | the first loop finds the highest power that the number reaches, without overflow |
| Numerals.PrintPlaces | lib/tinyprintf/tinyprintf.c:153-160 | the second loop writes one character a place and skips none |
| Numerals.A2u | lib/tinyprintf/tinyprintf.c:186-200 | in place: number, terminator and position as specified |
| Numerals.BufferReadsBack | lib/tinyprintf/tinyprintf.c:146-200 | a printed number with its terminator reads back as the number, in any base of the printer and either case |
| Numerals.ReadsBackIff | lib/tinyprintf/tinyprintf.c:174-200 | a2u reads a printed number back and stops right behind it exactly when the next character is not a digit up to and including the base |
| Numerals.BaseTakenAsDigit | lib/tinyprintf/tinyprintf.c:192-193 | base 8 reads "78" as 64 and base 10 reads "1a" as 20 |
| TermStream.HandleWriteLaw | usr/pl011/pl011.c:358-397 | whatever the FIFO does, output plus owed line feed grow by the expansion of exactly the bytes taken |
| TermStream.DriverLaw | usr/pl011/pl011.c:531-562 | so over any run of requests of any clients |
| TermStream.TakesNothingIff | usr/pl011/pl011.c:362-379 | a call takes no byte exactly when the FIFO lacks room for what is owed and one byte more |
| TermStream.TermWriteLaw | usr/bsh/bsh.c:68-97 | the retry loop emits a prefix of its buffer, and all of it when it completes |
| TermStream.TermWriteEnds | usr/bsh/bsh.c:68-97 | the retry loop completes exactly when all bytes are taken, and fails only at a failed IPC |
| TermStream.TakesAll | usr/pl011/pl011.c:358-397 | with room for what is owed and the expansion of the first 128 bytes the driver takes them all and owes nothing |
| TermStream.WriteBufferLaw | usr/bsh/bsh.c:99-111 | write_buffer emits the expansion of the bytes taken, which is its buffer when every chunk completed |
| TermStream.WriteBufferEnds | usr/bsh/bsh.c:99-111 | every chunk completed exactly when the bytes taken are as many as the buffer's |
| TermStream.Pl011.UartWriteNonblocking | usr/pl011/pl011.c:362-397 | in place: output, pending flag and count as specified |
| TermStream.Pl011.HandleWriteMessage | usr/pl011/pl011.c:531-562 | in place: the tag check, the clamp to 128 bytes and the specified write |
| TermStream.TermWriteLoop | usr/bsh/bsh.c:68-97 | in place: the loop against the driver as specified |
| TermStream.WriteBufferLoop | usr/bsh/bsh.c:99-111 | in place: the chunking as specified |
| L4Time.ComparisonExactIff | lib/l4/schedule.c:35-67 | longer, shorter and equal agree with comparing m * 2^e exactly under a stated condition on the two mantissas and the exponent gap, for all mantissas and exponents |
| L4Time.SmallMantissasExact | lib/l4/schedule.c:35-67 | they agree for mantissas 1 to 511 and all exponents, gaps above 22 included |
| L4Time.SmallMantissasOrdered | lib/l4/schedule.c:45-67 | and so order such times consistently |
| L4Time.ComparisonFails | lib/l4/schedule.c:40-43 | a zero of exponent 31 equals one microsecond; 600 * 2 is shorter than 512 |
| L4Time.NeverAndZeroAreOne | include/l4/time.h:17-18 | a timeout equals never exactly when its mantissa is zero, as the zero timeout's is |
| L4Time.RawFields | include/l4/time.h:7-16 | the bit fields of a time value |

## Left out

- Kernel.Kernel.CreateThreadOf: called for a number above all present ones and while there are fewer than fifteen threads, the only creations that do not leave the machine.
- Kernel.Kernel.ThreadListInsert: only a number above all present ones, where the search is an insertion point; where it is not, the list would go out of order, and lookups with it.
- Kernel.Kernel.FindThreadByGlobalId: the tables in place hold fewer than 16 threads; with 16 the lookup of a larger number reads past the list.
- Kernel.Kernel.SetThreadTimeoutOf: arming the alarm is not part of the state; alarms are steps that may come at any time.
- Kernel.Kernel.SvcThreadSwitch: the unpause alarm is not registered, for the same reason, and the assertion about its list is left out.
- Kernel.Kernel.CopyPayloadTo: r0 of the receiver is a register of its record; the code stores it through the saved stack pointer, which is not yet set in a thread that waits for its first start message.
- IpcContents.CallDelivers: the saved stack frame of a blocked thread, from which the recursion reads its registers, is not part of the memory, so a string buffer laid over one is not modelled.
- IpcContents.RecvDelivers: the same.
- Kernel.Kernel.FindIpcPartner: global ids and any thread only; see local thread ids below.
- KernelDelivery.OtherCallsKeepRoles: deleting a thread and changing one leave the machine, and so does a thread id that is not a global name.
- KernelRuns.SpaceControlServes: a call that activates the kernel or the idle thread leaves the machine, as does a 17th address space.
- KernelTheorems.BootInv: a root UTCB address that reads as the id of a system thread or of root itself is excluded.
- MessageCopy.MessageFidelity: a grant or control-transfer item loops for ever in the code and a compound string panics; neither is copied to its end.
- L4Time.ComparisonExactIff: the sign extension of mantissas from 512 on is what gcc makes of a shift that C leaves undefined.
- PageAlloc.Allocator.DeleteNodeFromList: every prev is null, as the code leaves it; a node whose prev is set is not unlinked this way.
- PageAlloc.PagesConserved: requests are for at least one page; what a request for zero pages does to the list is in `PageAlloc.Allocator.Alloc`, and no claim follows it.
- OpenFiles.ServeRefines: the stat, read and map handlers only look a file up; the terminator that openat writes behind the name is not modelled.
- Boot.BothDisjoint: the segments must end below the top of the address space, which a caller can compute beforehand (`Boot.End`); past it the marker wraps.
- ElfSymbols.LocateDecides: the well-formedness of the table is the linker's; on a cyclic chain the lookup never ends.
- Loader.LibelfState.LoadElfFile: the header's validation and the reading of the header table are not modelled; the program headers are a parameter, and four segments are the most.
- Loader.LoadKernelAndRoot: the symbol lookups between the two loads do not write and are not made.
- TermStream.TermWriteLoop: a failed IPC whose stale label reads as a write reply, which the client would take for one, is not modelled; nor is the receive side with its ring buffer.
- Numerals.PrintUnsigned: the signed wrappers, field width and flags only surround it.
- Local thread ids and the any-local-thread wildcard as peers: the local search advances twice an iteration.
- The UTCB of a thread is not part of the memory that strings are copied in, so a string buffer inside a UTCB is not modelled.
- kern/kalarm.c: its list is abstracted into alarms that may come at any time, more often than the code's own do.
- Interleavings finer than one exception, and a softirq pre-empted by another.
- The SYSTEM_CLOCK call, clocks, interrupts, context switching, MMIO and other hardware.
- lib/buddy/buddy.c, usr/root/config.c, the shell's line editing, the service registry and the memory server.
