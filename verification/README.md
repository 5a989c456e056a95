# Kernel modules and drivers: model and proofs

This project models the stateful parts of a set of Linux kernel modules and proves what
they keep: a synchronized task list shared by any number of threads, its unlocked
single-pid sibling, a keyboard ring buffer fed by interrupts, a deferred-work timer
driver that holds task references, an exclusive message device, and two drivers that map
kernel memory into user space.

`dafny verify dfyconfig.toml` checks everything.

## How the model is built

- `Common.dfy`, `Words.dfy`, `Masks.dfy`, `Counting.dfy` hold what several parts share:
  small types, 64-bit clock arithmetic and the 32-bit counter, order-preserving selection by a mask, and counting.
- `KernelList.dfy` is the circular doubly linked list on the heap, with `list_add`,
  `list_del` and `kfree` written out. Every read or write of a node has to show that the
  node has not been freed, so a safe-delete loop that verifies never touches freed memory.
- `TaskInfo.dfy`, `ListSync.dfy`, `ListFull.dfy` are the loops of `list-sync.c` and
  `list-full.c` on that heap, each proved equal to a function of the old contents.
- `SyncMachine.dfy`, `SyncInvariants.dfy`, `SyncTheorems.dfy`, `SyncAtomic.dfy`,
  `SyncCalls.dfy` are `list-sync.c` under concurrency: N threads step through the exported functions one lock operation or one
  loop iteration at a time, and the clock ticks in between. `list-sym.c` is one more caller
  of the same functions, so it is covered as further threads.
- `KbdRing.dfy`, `KbdHistory.dfy`, `KbdDevice.dfy`, `KbdLedger.dfy` are `kbd.c`: the ring
  as written, its meaning in terms of the history of events alone, the device as an
  object, and the interleaving of readers, resetting writers and interrupts.
- `TimerDevice.dfy` is `timer.c` on the heap, call by call; `TimerMachine.dfy`,
  `TimerInvariants.dfy` and `TimerCalls.dfy` interleave ioctl callers, timer, handler, work
  item and tasks, and tie an undisturbed call back to the call on the heap.
- `So2Device.dfy`, `So2Runs.dfy` are `so2_cdev.c`; `Mmap.dfy` is `nonMemory.c` and `memory.c`.

## Assumptions

- The true clock is an unbounded, non-decreasing number; `jiffies` is that number modulo
  2^64. `HZ` is an arbitrary constant. Each evaluation of `jiffies` is a parameter or a
  reading of the machine's clock.
- The allocation in `task_info_alloc` succeeds. Where the source tests an allocation
  (`get_proc`, `alloc_task_info`), both outcomes are modelled.
- The kernel's lock primitives exclude as documented: a writer excludes everybody, readers
  exclude writers. A timer's handler does not run concurrently with itself.
- User copies and `remap_pfn_range` may fail; which call fails is a parameter.

## What the proofs show about the code

- `put_char` (`Drivers/kbd/kbd.c:184`) stores at the read index although the structure's
  comment calls `putIdx` the write index. The ring is therefore no queue: unread
  characters overwrite each other. `KbdHistory.KthRead` and `KbdHistory.ReadOnAnyHistory`
  state what a read returns instead, and `KbdHistory.NotAQueue` gives a loss.
  `KbdHistory.FaithfulExactly` gives the condition: at every moment of a history what has
  left the ring, followed by all that is unread, is the decoded press stream exactly when
  each press finds nothing unread, or finds its own character already standing at the read
  and at the write index. An empty ring before every press is enough
  (`KbdHistory.PacedIsExact`) but not necessary (`KbdHistory.UnpacedWithoutLoss`), and
  agreement at the end alone does not tell whether something was lost
  (`KbdHistory.LossCanCancel`).
- `task_info_add_to_list` can link one pid twice, because it drops the lock between the
  lookup and the insertion. `SyncTheorems.DuplicatesBounded` bounds the copies by the number
  of threads, `SyncTheorems.BoundIsReached` reaches the bound for every number of threads and
  every pid, and `SyncTheorems.DistinctExactlyWhenAlone` says that pids stay distinct exactly
  with at most one thread.
- Apart from that the sections are atomic: `SyncAtomic.SectionsAreAtomic` orders the completed
  critical sections of any run by their unlocks and gets a run of one thread with the same
  answers and the same list.
- The wrapped age test overlooks an old entry (`SyncTheorems.WrappedTestFails`), exactly under
  the condition in `SyncTheorems.WrappedTestExact`; five hits protect an entry exactly under
  the one in `SyncTheorems.ProtectedExactly`.
- `so2_read` and `so2_write` are documented to return the number of bytes read or written
  but return the requested size (`Drivers/so2_cdev/kernel/so2_cdev.c:91`, `:117`). The model
  returns what the code returns. `So2Device.ReadCountFails` and `So2Device.WriteCountFails`
  are inputs where that is wrong; `So2Device.ReadCountExact` and `So2Device.WriteCountExact`
  say exactly when it is right. The round trip is stated on the copied bytes and the offset.

## Model

| member | source | states |
|---|---|---|
| Words.WrappedAge | KernelModules/list-sync-mod/list-sync.c:163 | subtracting a stored timestamp from `jiffies` on 64 bits gives the true age modulo 2^64 |
| Words.CounterStep | KernelModules/list-sync-mod/list-sync.c:97 | `atomic_inc` on 32 bits is counting hits from zero with wrap-around |
| Masks.KeepPicks | KernelModules/list-sync-mod/list-sync.c:161-167 | what a deleting loop leaves is exactly the unmarked elements, each once, in their old order |
| Masks.VisitNext | KernelModules/list-sync-mod/list-sync.c:161-167 | one iteration of a deleting loop leaves the list and moves on, or removes the element at the cursor and stays |
| KernelList.List.constructor | KernelModules/list-sync-mod/list-sync.c:199 | a fresh head is an empty, well-formed ring |
| KernelList.List.LinkAt | KernelModules/list-sync-mod/list-sync.c:70-71 | in a well-formed ring `next` and `prev` are mutually inverse at every position, the head included |
| KernelList.List.ListAdd | KernelModules/list-sync-mod/list-sync.c:105 | linking a live, unlinked node puts it first, keeps the ring well formed and the rest in order |
| KernelList.List.ListDel | KernelModules/list-sync-mod/list-sync.c:164 | unlinking removes exactly that node, poisons its links and keeps the ring well formed |
| KernelList.List.Kfree | KernelModules/list-sync-mod/list-sync.c:165 | only a live and unlinked node may be freed, so nothing is freed twice |
| KernelList.List.Drop | KernelModules/list-sync-mod/list-sync.c:164-165 | unlink and free together: the node leaves the ring, is freed, and the walk's saved successor is still the right one |
| TaskInfo.Find | KernelModules/list-sync-mod/list-sync.c:65-78 | the first position with the pid, or the length; everything before has another pid |
| ListSync.FindPid | KernelModules/list-sync-mod/list-sync.c:65-78 | the pointer walk returns the first node with the pid, or NULL exactly if there is none |
| ListSync.Lookup | KernelModules/list-sync-mod/list-sync.c:93-101 | the first critical section refreshes exactly the found entry and reports a hit exactly if the pid is linked |
| ListSync.Alloc | KernelModules/list-sync-mod/list-sync.c:46-58 | a new node carries the pid, the current `jiffies` and count zero |
| ListSync.Link | KernelModules/list-sync-mod/list-sync.c:104-106 | the second critical section puts the new entry in front and changes no other |
| ListSync.AddToList | KernelModules/list-sync-mod/list-sync.c:89-107 | without interference an add refreshes the entry of a known pid or links a fresh one, and the pid is found afterwards |
| ListSync.PrintList | KernelModules/list-sync-mod/list-sync.c:129-143 | one pair is printed for each entry, in list order, the k-th being the pid and the timestamp of entry k |
| ListSync.RemoveExpired | KernelModules/list-sync-mod/list-sync.c:155-169 | on any well-formed ring the sweep terminates, touches no freed node, leaves exactly the entries whose own test failed, in order, and frees exactly the others |
| ListSync.PurgeList | KernelModules/list-sync-mod/list-sync.c:175-187 | a purge terminates with the empty ring and frees exactly the nodes it held |
| ListSync.EntriesOfKept | KernelModules/list-sync-mod/list-sync.c:161-167 | selecting nodes and then reading them equals reading and then selecting |
| ListFull.AddForCurrent | KernelModules/kernel-Lists-full-mod/list-full.c:63-99 | an add always links a new entry, whose counter is one more than whatever the memory held; a failed allocation changes nothing |
| ListFull.RemoveExpired | KernelModules/kernel-Lists-full-mod/list-full.c:144-156 | the one-pid sweep leaves exactly the entries of other pids and the unexpired ones, in order, and frees exactly the rest |
| ListFull.SweepPidsFilter | KernelModules/kernel-Lists-full-mod/list-full.c:144-156 | at a fixed clock any series of one-pid sweeps keeps exactly the entries that are unexpired or whose pid was not named |
| ListFull.PidSweepsAreGlobal | KernelModules/kernel-Lists-full-mod/list-full.c:144-156 | one-pid sweeps over pids covering the list, in any order and with repeats, leave the list of one global sweep |
| ListFull.PidSweepsAreGlobalExactly | KernelModules/kernel-Lists-full-mod/list-full.c:144-156 | the one-pid sweeps leave the list of a global sweep exactly when the pid of every expired entry is named |
| ListFull.UncoveredStays | KernelModules/kernel-Lists-full-mod/list-full.c:151 | an expired entry whose pid no sweep names stays, although a global sweep drops it |
| SyncInvariants.LockMoves | KernelModules/list-sync-mod/list-sync.c:93-106 | each step takes or releases the lock exactly where the thread enters or leaves a section, and takes it only when nobody conflicts |
| SyncInvariants.LockStep | KernelModules/list-sync-mod/list-sync.c:93-106 | every step keeps lock state and program counters in agreement and a writer alone |
| SyncInvariants.OnlyWriterChanges | KernelModules/list-sync-mod/list-sync.c:93-106 | links, pids, timestamps, counts and frees change only in a step of the write-lock holder |
| SyncInvariants.Effects | KernelModules/list-sync-mod/list-sync.c:94-105 | every step leaves the list alone, refreshes one entry, links one in front or unlinks and frees one |
| SyncInvariants.LoopFrame | KernelModules/list-sync-mod/list-sync.c:136-141 | what a loop under the lock has learnt survives every step of every other thread |
| SyncInvariants.SweepNext | KernelModules/list-sync-mod/list-sync.c:161-167 | each sweep test extends the exact record of which entries of the starting list remain |
| SyncInvariants.PlacesStep | KernelModules/list-sync-mod/list-sync.c:103-105 | a step moves a node between linked, held and freed but never changes how many places it is in, an allocation adding one |
| SyncInvariants.CopiesStepPid | KernelModules/list-sync-mod/list-sync.c:93-106 | no step lets linked copies of a pid plus adders in flight with it exceed the number of threads |
| SyncInvariants.InvAlways | KernelModules/list-sync-mod/list-sync.c:89-187 | all of these hold in every state of every run, for any number of threads |
| SyncTheorems.DuplicatesBounded | KernelModules/list-sync-mod/list-sync.c:89-107 | on every run and for every pid, linked copies plus threads between the failed lookup and `list_add` never exceed the number of threads |
| SyncTheorems.UniqueWhenAlone | KernelModules/list-sync-mod/list-sync.c:89-107 | with one thread no pid is ever linked twice |
| SyncTheorems.BoundIsReached | KernelModules/list-sync-mod/list-sync.c:89-107 | for every number of threads and every pid some run reaches a list that consists of one copy of the pid for each thread |
| SyncTheorems.DistinctExactlyWhenAlone | KernelModules/list-sync-mod/list-sync.c:89-107 | linked pids are pairwise distinct in every reachable state exactly when there is at most one thread |
| SyncTheorems.ExactlyOnePlace | KernelModules/list-sync-mod/list-sync.c:46-58 | on every run each allocated node is linked, held by an adder or freed, and exactly one of these |
| SyncTheorems.FreedAtMostOnce | KernelModules/list-sync-mod/list-sync.c:164-165 | on every run no node is freed twice |
| SyncTheorems.PurgeLeavesNothing | KernelModules/list-sync-mod/list-sync.c:175-187 | when a purge finishes and no adder holds a node, every node ever allocated has been freed |
| SyncTheorems.WriterExcludesAll | KernelModules/list-sync-mod/list-sync.c:93-106 | while one thread is in a write section no other is in any section |
| SyncTheorems.PrintsTheList | KernelModules/list-sync-mod/list-sync.c:129-143 | at the end of its loop a printer has emitted for each entry of the list as it stands then, in order, its pid and the wrapped clock of its last stamp |
| SyncTheorems.FrozenWhileRead | KernelModules/list-sync-mod/list-sync.c:136-141 | while a thread stays in its read section the list and the freed nodes do not change |
| SyncTheorems.NeverStuck | KernelModules/list-sync-mod/list-sync.c:93-106 | while any call is in progress some thread can step |
| SyncTheorems.WrappedTestExact | KernelModules/list-sync-mod/list-sync.c:163 | the 64-bit expiry test equals the unbounded one exactly when the entry is hit five times, young, or its wrapped age still exceeds the limit; always below age 2^64 |
| SyncTheorems.WrappedTestFails | KernelModules/list-sync-mod/list-sync.c:163 | an under-referenced entry exactly 2^64 jiffies old is long expired and the test does not see it |
| SyncTheorems.TimestampsPast | KernelModules/list-sync-mod/list-sync.c:54-96 | on every run a linked timestamp is the wrapped image of a past clock value, so the test is exact below age 2^64 |
| SyncTheorems.SweepIsComplete | KernelModules/list-sync-mod/list-sync.c:155-169 | with the clock advancing during the loop, the result is an order-preserving selection, every under-referenced entry expired at the start is gone and every entry gone is expired at the end |
| SyncTheorems.SweepMatchesSpec | KernelModules/list-sync-mod/list-sync.c:155-169 | a sweep interleaved with other threads leaves what the sequential loop leaves |
| SyncTheorems.FindReturnsNewest | KernelModules/list-sync-mod/list-sync.c:65-78 | on every run the lookup names the most recently linked of the live nodes with the pid |
| SyncTheorems.HitsTheFound | KernelModules/list-sync-mod/list-sync.c:94-98 | the entry an add refreshes is the one the lookup names, and no other changes |
| SyncTheorems.EntryFate | KernelModules/list-sync-mod/list-sync.c:94-105 | in one step a linked entry stays as it is, is refreshed, or is unlinked and freed |
| SyncTheorems.ShadowedIsFrozen | KernelModules/list-sync-mod/list-sync.c:65-98 | a duplicate behind a newer node keeps timestamp and count until it is unlinked |
| SyncTheorems.CountIsHits | KernelModules/list-sync-mod/list-sync.c:55-97 | on every run the stored count is, on 32 bits, the number of lookup steps of the run that found this node, none of them before its allocation |
| SyncTheorems.ProtectedExactly | KernelModules/list-sync-mod/list-sync.c:163 | a count reads as five or more exactly when the hits modulo 2^32 lie between 5 and 2^31 |
| SyncTheorems.FiveHitsSurvive | KernelModules/list-sync-mod/list-sync.c:155-169 | a node hit five times, and fewer than 2^31 times, stays linked through every sweep until a purge |
| SyncAtomic.UnlockEnds | KernelModules/list-sync-mod/list-sync.c:93-106 | a thread gives up the lock exactly in the step that completes its section |
| SyncAtomic.EndsAlone | KernelModules/list-sync-mod/list-sync.c:89-187 | a section about to unlock has the answer and leaves the list that it would have alone on the list it found when it locked |
| SyncAtomic.SectionsAreAtomic | KernelModules/list-sync-mod/list-sync.c:89-187 | on every run the completed sections in unlock order are a run of one thread with the same lookups, printed lists and sweeps, leaving the same list |
| SyncAtomic.LogIsUnlocks | KernelModules/list-sync-mod/list-sync.c:93-106 | that order holds every unlock of the run once and nothing else |
| SyncAtomic.PurgeFreesWhatItFound | KernelModules/list-sync-mod/list-sync.c:175-187 | from its lock to the end of its loop a purge frees exactly the nodes linked when it locked, in list order |
| SyncCalls.CallCompletes | KernelModules/list-sync-mod/list-sync.c:89-187 | on every run a call that has returned completed the sections of its function: an add one hit of its pid, or a miss and then the link of a fresh entry with that pid; a print, a sweep and a purge each its own |
| SyncCalls.SectionsEnd | KernelModules/list-sync-mod/list-sync.c:93-187 | however the others are scheduled, a thread inside a section makes at most as many further steps as the list has entries, and two, before it unlocks |
| SyncCalls.SweepSince | KernelModules/list-sync-mod/list-sync.c:160-168 | the start of a sweep in the statements above is the list and the clock at the moment when it took the lock |
| SyncCalls.ReadersShare | KernelModules/list-sync-mod/list-sync.c:136-141 | for every number of threads a state is reachable in which all of them hold the read lock |
| SyncCalls.AgeAndHitsDecide | KernelModules/list-sync-mod/list-sync.c:89-169 | a pid added, added again k times and left for d jiffies is swept exactly if d is more than 3 * HZ and k less than 5 |
| KbdRing.DecodesItsKey | Drivers/kbd/kbd.c:194-214 | a scancode that decodes to a known character is that character's key, so no two keys share one |
| KbdRing.KeyDecodes | Drivers/kbd/kbd.c:194-214 | every alphanumeric character, space and newline is decoded from its key |
| KbdRing.Apply | Drivers/kbd/kbd.c:54-63 | a locked read, an interrupt and a reset keep both indices below 100 and the write index at read index plus count |
| KbdRing.Run | Drivers/kbd/kbd.c:121-125 | the same for every sequence of operations |
| KbdRing.KeyStroke | Drivers/kbd/kbd.c:174-239 | pressing the key of any character stores that character at the read index and counts it; releasing the key changes nothing |
| KbdHistory.Meaning | Drivers/kbd/kbd.c:54-63 | on every history the count is the unread presses and the read index the successful reads since the last reset |
| KbdHistory.SlotHistory | Drivers/kbd/kbd.c:183-187 | on every history, resets included, slot j holds the last character put while reads stood at j |
| KbdHistory.ReadOnAnyHistory | Drivers/kbd/kbd.c:54-63 | on every history, resets included, a successful read returns the last character put while reads stood at its position |
| KbdHistory.KthRead | Drivers/kbd/kbd.c:183-187 | without resets the k-th read returns the last character put since the read before it, else what read k-100 returned, else zero |
| KbdHistory.NotAQueue | Drivers/kbd/kbd.c:184 | two presses before a read: the first character is lost and the second read returns a zero |
| KbdHistory.TypedTextComesBack | Drivers/kbd/kbd.c:54-239 | text whose keys are pressed, released and read one after the other on an empty ring is what the reads return |
| KbdHistory.Ledger | Drivers/kbd/kbd.c:121-125 | on every history presses equal unread plus consumed plus discarded by resets |
| KbdHistory.NextReads | Drivers/kbd/kbd.c:54-63 | the next n reads return the first n of the unread characters and leave the others |
| KbdHistory.PutAppends | Drivers/kbd/kbd.c:183-187 | a put appends its character to the unread ones exactly when nothing is unread or the character already stands at the read and the write index |
| KbdHistory.FaithfulExactly | Drivers/kbd/kbd.c:183-187 | what left the ring followed by all unread characters is the decoded press stream at every moment of a history exactly when each press finds nothing unread, or its own character at the read and the write index |
| KbdHistory.PacedIsExact | Drivers/kbd/kbd.c:222-239 | it is enough that every press finds the ring empty |
| KbdHistory.UnpacedWithoutLoss | Drivers/kbd/kbd.c:121-125 | it is not necessary: after a reset two presses in a row of a character that the last lap left in both slots are both kept, and two reads return them |
| KbdHistory.LossCanCancel | Drivers/kbd/kbd.c:121-125 | agreement at the end of a history alone does not tell: a stale character can stand in for one that was lost |
| KbdDevice.KbdDev.constructor | Drivers/kbd/kbd.c:158 | the static device starts zeroed |
| KbdDevice.KbdDev.GetChar | Drivers/kbd/kbd.c:54-63 | a read takes the character at the read index and fails exactly when the count is zero |
| KbdDevice.KbdDev.PutChar | Drivers/kbd/kbd.c:183-187 | a put stores at the read index, advances the write index and counts |
| KbdDevice.KbdDev.ResetBuffer | Drivers/kbd/kbd.c:121-125 | a reset zeroes count and indices and keeps the characters |
| KbdDevice.KbdDev.IrqHandler | Drivers/kbd/kbd.c:222-239 | a scancode below 0x80 stores its decoded character at the read index, advances the write index modulo 100 and counts; any other changes nothing |
| KbdDevice.KbdDev.KbdWrite | Drivers/kbd/kbd.c:135-144 | a write resets the ring and reports the size it was given |
| KbdDevice.KbdDev.KbdRead | Drivers/kbd/kbd.c:93-115 | with interrupts before every iteration, a read without copy failure returns between min(size, count) and min(size, count + presses), delivers what its locked reads yield and stops short exactly when everything counted and pressed so far is taken; a failed copy consumes exactly one character it does not deliver |
| KbdLedger.Step | Drivers/kbd/kbd.c:93-144 | every interleaved step keeps one fate for each character read and each reader's buffer in agreement with the fates |
| KbdLedger.EveryReadHasOneFate | Drivers/kbd/kbd.c:93-115 | on every run each character taken by a locked read is delivered to one reader, lost to one failed copy or in one reader's hand; a reader's buffer is exactly the characters whose fate it is, in the order of the reads |
| KbdLedger.EveryPressAccountedFor | Drivers/kbd/kbd.c:93-144 | for any number of readers and writers each press is counted, delivered, lost by a failed copy, in a reader's hand or discarded, exactly once |
| KbdLedger.InputsAlways | Drivers/kbd/kbd.c:135-239 | on every run the history holds exactly the presses (scancodes below 0x80) and the resets of the schedule, in order, with reads in between |
| KbdLedger.CallGivesAtMostSize | Drivers/kbd/kbd.c:93-115 | whatever the others do, one call is given at most the size it asked for, only behind what its reader had, and the count it returns is what it was given |
| KbdLedger.CallEnds | Drivers/kbd/kbd.c:99-112 | a call ends exactly when it has asked for all it wants, finds the count zero or fails a copy, which delivers nothing |
| KbdLedger.ReadAlone | Drivers/kbd/kbd.c:93-115 | an undisturbed call of any size on any ring delivers the next min(size, count) unread characters and returns |
| TimerDevice.TimerDev.constructor | Drivers/deferredTimer/kernel/timer.c:190-195 | a set-up device has flag NONE, nothing pending, an empty list and holds nothing |
| TimerDevice.TimerDev.GetProc | Drivers/deferredTimer/kernel/timer.c:41-60 | one reference is taken exactly on the path that returns a node; both error paths hold nothing |
| TimerDevice.TimerDev.Monitor | Drivers/deferredTimer/kernel/timer.c:147-160 | a monitor ioctl links the found task and arms, or fails and changes nothing |
| TimerDevice.TimerDev.TimerIoctl | Drivers/deferredTimer/kernel/timer.c:126-167 | each command leaves its flag and arming; references stay one for each monitor node |
| TimerDevice.TimerDev.TimerHandler | Drivers/deferredTimer/kernel/timer.c:77-110 | a fire queues work or scans according to the flag and otherwise changes nothing |
| TimerDevice.TimerDev.Scan | Drivers/deferredTimer/kernel/timer.c:87-105 | with tasks dying mid-scan the loop leaves exactly the nodes alive at their turn, in order, gives back one reference for each removed node and reads no unreferenced task |
| TimerDevice.ScanVerdicts | Drivers/deferredTimer/kernel/timer.c:93-101 | a task dead when the scan starts is dropped and a dropped task is dead when it ends |
| TimerDevice.TimerDev.DropProc | Drivers/deferredTimer/kernel/timer.c:97-99 | removing a node gives back exactly its own reference |
| TimerDevice.TimerDev.DropAll | Drivers/deferredTimer/kernel/timer.c:214-218 | the teardown loop terminates, empties the ring, frees exactly the nodes it held and gives back every reference |
| TimerDevice.TimerDev.DeferredExit | Drivers/deferredTimer/kernel/timer.c:203-222 | after a quiescent exit nothing is armed, queued, linked or held and every node is freed |
| TimerInvariants.RefsStep | Drivers/deferredTimer/kernel/timer.c:41-60 | every step keeps the references on each task equal to its monitor nodes plus callers carrying it |
| TimerInvariants.LockStep | Drivers/deferredTimer/kernel/timer.c:91-103 | every step keeps the spinlock with the scanning handler or the linking caller |
| TimerInvariants.ScanNext | Drivers/deferredTimer/kernel/timer.c:93-101 | each scan test extends the exact record of which nodes of the starting list remain and how many references were given back |
| TimerInvariants.LedgerStep | Drivers/deferredTimer/kernel/timer.c:126-167 | every step keeps the ledgers of arming, work and references balanced |
| TimerInvariants.InvAlways | Drivers/deferredTimer/kernel/timer.c:77-222 | all of these hold on every run |
| TimerInvariants.ReferencesExact | Drivers/deferredTimer/kernel/timer.c:41-105 | on every run the references held on a task are its monitor nodes plus ioctl callers between `get_task_struct` and `list_add` |
| TimerInvariants.HandlerReadsReferenced | Drivers/deferredTimer/kernel/timer.c:93-98 | the handler never reads a task on which no reference is left |
| TimerInvariants.NothingLeaksBetweenCalls | Drivers/deferredTimer/kernel/timer.c:147-160 | with no ioctl in flight the references are the monitor list, so failed ioctls hold nothing |
| TimerInvariants.ExitReleasesAll | Drivers/deferredTimer/kernel/timer.c:203-222 | after a quiescent exit on any run no reference is held, gets equal puts and nothing is pending |
| TimerInvariants.TimerLedger | Drivers/deferredTimer/kernel/timer.c:77-167 | on every run armings equal fires, overwritten armings, effective cancels and the pending one; queued work equals runs, coalesced and cancelled ones and the pending one; gets equal puts plus what is held |
| TimerInvariants.DispatchesOnLastStore | Drivers/deferredTimer/kernel/timer.c:77-110 | a pending timer implies a stored flag and each fire dispatches on the last store before it |
| TimerInvariants.FireInsideTheWindow | Drivers/deferredTimer/kernel/timer.c:132-158 | a fire between the flag store of a SET, ALLOC or MONITOR ioctl and its `mod_timer` is dispatched on the new flag before that ioctl has armed |
| TimerInvariants.ScanIsExact | Drivers/deferredTimer/kernel/timer.c:87-105 | on every run a finished scan left an order-preserving selection, removed every task dead at its start, only dead tasks, and made one put for each |
| TimerCalls.EveryStoreArms | Drivers/deferredTimer/kernel/timer.c:132-158 | on every run stores of the flag equal armings plus ioctls between the two, and nodes ever linked equal stores of MONITOR plus ioctls between `list_add` and the store |
| TimerCalls.AllArmedBetweenCalls | Drivers/deferredTimer/kernel/timer.c:132-158 | so with no ioctl in flight every SET, ALLOC and MONITOR that stored its flag has armed exactly once |
| TimerCalls.ReturnsArmed | Drivers/deferredTimer/kernel/timer.c:132-158 | the step in which an arming ioctl returns leaves the timer pending; a cancel leaves it not pending and changes nothing else |
| TimerCalls.DispatchesDoTheirWork | Drivers/deferredTimer/kernel/timer.c:81-105 | on every run work was queued once for each dispatch on ALLOC, a scan entered or about to be for each on MONITOR, and a handler in a scan was dispatched on MONITOR |
| TimerCalls.HandlerDoes | Drivers/deferredTimer/kernel/timer.c:81-108 | the step that reads the flag queues work on ALLOC, goes to the scan on MONITOR and otherwise changes neither work nor list |
| TimerCalls.IoctlAlone | Drivers/deferredTimer/kernel/timer.c:126-167 | an undisturbed ioctl of the interleaved machine exists and has the effect that the heap method promises for it |
| TimerCalls.FireAlone | Drivers/deferredTimer/kernel/timer.c:77-110 | an undisturbed fire ends within length + 4 handler steps, queues work on ALLOC, leaves exactly the live tasks in order on MONITOR, and holds no lock |
| TimerCalls.MonitorsUntilDeath | Drivers/deferredTimer/kernel/timer.c:41-160 | a monitored process is dropped by the next scan and its reference given back exactly if it died |
| TimerCalls.ReapedIsNotFound | Drivers/deferredTimer/kernel/timer.c:45-49 | a monitor ioctl finds a process until it is reaped and then changes nothing |
| TimerCalls.NothingAfterExit | Drivers/deferredTimer/kernel/timer.c:203-222 | once the module has exited on any run, nothing is ever armed, queued, linked or held again |
| TimerCalls.ScanFromTheLock | Drivers/deferredTimer/kernel/timer.c:91-103 | from the step that takes the lock to the end of the loop: an order-preserving selection of the list at the lock, the tasks dead then gone, only dead ones gone, one put for each |
| So2Device.StrlenBound | Drivers/so2_cdev/kernel/so2_cdev.c:74 | `strlen` of a terminated buffer stops inside it |
| So2Device.StoredText | Drivers/so2_cdev/kernel/so2_cdev.c:106-113 | a written buffer reads as the first 127 bytes of the data cut at the first NUL |
| So2Device.ReadCountExact | Drivers/so2_cdev/kernel/so2_cdev.c:79-91 | the count a read returns is the number of bytes delivered exactly at the end of the text or for a request that fits |
| So2Device.NegativeOffset | Drivers/so2_cdev/kernel/so2_cdev.c:79-80 | a negative offset compares as a large unsigned one: nothing is delivered or reported |
| So2Device.ReadCountFails | Drivers/so2_cdev/kernel/so2_cdev.c:91 | a 100-byte read of the initial message returns 100 and delivers 15 |
| So2Device.DamagedText | Drivers/so2_cdev/kernel/so2_cdev.c:109-110 | after a failed copy the text is what landed cut at its first NUL, or all of it followed by the text of the bytes behind it |
| So2Device.WriteCountExact | Drivers/so2_cdev/kernel/so2_cdev.c:106-117 | the count a write returns is the number of bytes stored exactly for at most 127 bytes |
| So2Device.WriteCountFails | Drivers/so2_cdev/kernel/so2_cdev.c:117 | a 200-byte write returns 200 and stores 127 |
| So2Device.Device.constructor | Drivers/so2_cdev/kernel/so2_cdev.c:171 | a set-up device is closed, terminated and holds the initial message |
| So2Device.Device.Open | Drivers/so2_cdev/kernel/so2_cdev.c:45-60 | an open succeeds exactly on a closed device and else changes nothing |
| So2Device.Device.Release | Drivers/so2_cdev/kernel/so2_cdev.c:126-140 | a release closes the device |
| So2Device.Device.Read | Drivers/so2_cdev/kernel/so2_cdev.c:70-92 | a read copies the text from the offset, at most what was asked, and moves the offset by what it copied; a failed copy moves nothing |
| So2Device.Device.Write | Drivers/so2_cdev/kernel/so2_cdev.c:102-118 | byte by byte: a write stores the first min(size, 127) bytes and a NUL, keeps the rest and resets the offset; a failed copy changes exactly the bytes that landed, keeps the offset and the length |
| So2Runs.InvStep | Drivers/so2_cdev/kernel/so2_cdev.c:45-134 | every operation keeps byte 127 NUL and the open flag equal to the number of open files, zero or one |
| So2Runs.Always | Drivers/so2_cdev/kernel/so2_cdev.c:45-171 | the same on every run from the set-up device, with `strlen` below the buffer size |
| So2Runs.OpenIsExclusive | Drivers/so2_cdev/kernel/so2_cdev.c:56-57 | among competing openers an open succeeds exactly when no file is open |
| So2Runs.ReadsStream | Drivers/so2_cdev/kernel/so2_cdev.c:79-89 | while nobody writes, reads of any sizes stream the text from the offset on, across failed copies and competing opens |
| So2Runs.RoundTrip | Drivers/so2_cdev/kernel/so2_cdev.c:70-118 | after a successful write the reads deliver the first min(size, 127) bytes cut at the first NUL, up to the sum of the sizes, and the offset is the total delivered |
| So2Runs.FirstReaderGetsMessage | Drivers/so2_cdev/kernel/so2_cdev.c:171 | the first reader is served the initial message however it splits its reads |
| So2Runs.TextStays | Drivers/so2_cdev/kernel/so2_cdev.c:45-140 | no sequence of opens, reads and releases by any files changes the message |
| So2Runs.ServesEveryOpener | Drivers/so2_cdev/kernel/so2_cdev.c:45-140 | after any such sequence whoever opens the closed device starts at offset zero and is delivered the text as far as it asks, its offset being the total delivered |
| So2Runs.WriteReachesLaterOpeners | Drivers/so2_cdev/kernel/so2_cdev.c:45-140 | after a successful write every later opener is served the stored data until somebody writes again |
| So2Runs.EveryOpenerGetsMessage | Drivers/so2_cdev/kernel/so2_cdev.c:19-171 | until somebody writes every opener is served "the dog is matt" |
| So2Runs.FailedWrite | Drivers/so2_cdev/kernel/so2_cdev.c:109-110 | a failed write moves no offset and opens nothing; the text is as `DamagedText` says |
| So2Runs.HandOver | Drivers/so2_cdev/kernel/so2_cdev.c:45-140 | open, write, release, open by another and read is a legal run and delivers the data |
| Mmap.Vma.RemapPage | Drivers/nonConMemory/kernel/nonMemory.c:96-98 | one page is mapped, or an error maps nothing |
| Mmap.Vma.MmapPages | Drivers/nonConMemory/kernel/nonMemory.c:86-102 | an oversized request maps nothing; otherwise exactly the pages before the first error are mapped, all of them on success |
| Mmap.InstalledExactly | Drivers/nonConMemory/kernel/nonMemory.c:93-99 | after k iterations exactly pages 0..k-1 are new, each showing its own frame, and no other entry changed |
| Mmap.ByteForByte | Drivers/nonConMemory/kernel/nonMemory.c:93-99 | every mapped user byte o shows area byte o |
| Mmap.NothingBeyond | Drivers/nonConMemory/kernel/nonMemory.c:97-98 | an error at page k leaves every later byte as it was |
| Mmap.Vma.RemapRange | Drivers/memory/kernel/memory.c:54 | a range call maps its pages to consecutive frames; an error leaves a prefix of them |
| Mmap.RemappedExactly | Drivers/memory/kernel/memory.c:54 | exactly the pages of the range are new, page i showing the i-th frame, and no other entry changed |
| Mmap.Vma.MmapRange | Drivers/memory/kernel/memory.c:46-55 | an oversized request fails and maps nothing; otherwise the answer of the range call is returned and exactly the pages it mapped show consecutive frames from the area's on, all pages of the request on success |
| Mmap.RangeByteForByte | Drivers/memory/kernel/memory.c:52-54 | after the single-range mapping of the aligned area, user byte o shows the area's physical byte o |
| Mmap.ConsecutiveIsRange | Drivers/memory/kernel/memory.c:52-54 | with consecutive frames the page loop builds the table of the single-range call |
| Mmap.RangeNeedsConsecutive | Drivers/memory/kernel/memory.c:52-54 | and only with consecutive frames |
| Mmap.AreaFits | Drivers/memory/kernel/memory.c:107-112 | the aligned area starts at the first page boundary of the allocation and fits into it |
| Mmap.ExtraPageNeeded | Drivers/memory/kernel/memory.c:107-112 | without the extra page it fits exactly when the allocation is itself aligned |
| Mmap.MarkPages | Drivers/memory/kernel/memory.c:119-125 | the marking loop stays inside the allocation and leaves the marked image |
| Mmap.MarksAreSet | Drivers/memory/kernel/memory.c:119-125 | every page of the area starts with the bytes 0xaa, 0xbb, 0xcc, 0xdd |
| Mmap.NothingElseMarked | Drivers/memory/kernel/memory.c:119-125 | no other byte of the allocation changes |

## Left out

- The unlocked marking of the last node in `list_sync_exit` (`KernelModules/list-sync-mod/list-sync.c:217-218`), which on an empty list writes outside any node, and the unchecked allocation at `KernelModules/list-sync-mod/list-sync.c:103-105`: no behaviour of the program is defined there.
- Which pids `task_info_add_for_current` passes (`KernelModules/list-sync-mod/list-sync.c:115-120`): each of its four adds is an ordinary add of an arbitrary pid.
- Find, print and purge of `list-full.c`: the same loops as in `list-sync.c`.
- SyncTheorems.PurgeLeavesNothing: states the end of the purge for adders that hold a node then; an adder that has missed but not yet allocated owns nothing and may link later.
- KbdDevice.KbdDev.PutChar: the count is unbounded, so its wrap after 2^64 unread presses is not modelled.
- TimerDevice.TimerDev.GetProc: lookup and `get_task_struct` are one step, so the window between `rcu_read_unlock` and taking the reference is not modelled.
- TimerDevice.TimerDev.DeferredExit: starts when no handler and no ioctl is running; `del_timer` does not wait for a handler.
- TimerDevice.TimerDev.TimerIoctl: expiry times (`jiffies + arg * HZ`) are not modelled; a pending timer may fire at any moment.
- So2Device.Device.Read: reads and writes are single steps; processes sharing one open file can interleave inside a copy.
- Mmap.Vma.RemapRange: how far a failing range call gets is a parameter; kernels that undo the partial mapping are the case of zero pages.
- Timer open and release, keyboard open and release, device registration, port and interrupt requests, the init and exit `goto` paths, reserved page flags and the `/proc` entry: kernel plumbing without further state.
- The network modules, the single-purpose demo modules and the user-space wrappers: easy or thin members.
