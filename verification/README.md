# Raph_Kernel, modelled and proved in Dafny

Raph_Kernel is a small multiprocessor operating system kernel written in C++. This project models the parts of it
that other code has to trust and proves what they promise: lock-free reference counting, the activation and
scheduling of tasks, timed callouts, the file system from the tool that writes an image to the kernel path that reads
it, and the data structures below them. `dafny verify dfyconfig.toml` checks everything.

Concurrent protocols are transition systems: one step is one atomic access or one lock region, threads and CPUs
interleave freely, and the theorems speak about every state of every run. Code that changes memory step by step is
imperative Dafny: classes over linked nodes and arrays, loops with invariants, each method tied to a function of its
inputs or of the old state.

| file | what it models |
|---|---|
| SharedPtr | `sptr` and `wptr`: two counters, CAS loops, upgrade, deletion in two stages, 32-bit counters |
| SpinLock | the parity counter lock, `_flag++` split into read and write, 32-bit wrap-around |
| Functional, CountableTask | waking a handler task at most once and never losing a wake-up |
| TaskQueue, TaskCtrl | the two task lists of a CPU: the queue they stand for, and the linked nodes |
| CalloutList, Callout | the time-sorted callout list and the life of callouts on a CPU (module `Callouts`) |
| CalloutPanic, CalloutCancel, CalloutWindow, CalloutDelay | what a stale registration, a late cancellation and the rounding of delays lead to, and exactly when |
| DiskLayout, BlockMap, Append, ImageSpec, Mkfs | the disk format and the image writer `mkfs` |
| V6fs, Vfs | the kernel's reader, the path walk, and writer and reader together |
| Allocator | the slab allocator |
| Udp | the UDP/IPv4 frame builder, its checksums and the receive path |
| BootMemory | the boot memory map: filter, in-place sort, reservation of gaps |
| PacketPool | the ring buffer and the packet pools of a network device |
| HashMap | the chained hash map |
| Idt | interrupt vector allocation |
| Digits | the digit loops of the printing routine |
| Lists, Words | notions that several modules share, and the machine's integers |

## Where the code does less than one would expect

Each of these is stated with the exact condition under which the code is right, and with an input or a run where it is
not.

- Assigning a pointer to itself can leave it in use with its object deleted, or for a weak pointer its helper, unless
  another pointer is held, that is, kept alive and unassigned during the operation (`SharedPtr.SelfAssignment`). That
  a second owner exists when the assignment begins is not enough (`SharedPtr.TwoOwnersAreNotEnough`).
- An item whose wake-ups all came before `SetFunction` stored `_cpuid` is handled by nobody
  (`Functional.NoLostWakeup`, `Functional.LostItem`); an activation between the two stores of `SetFunction` executes
  a null function (`Functional.Drains`, `Functional.NullFunction`).
- A cancelled callout can still run. In every run whatever, it does not if the cancellation leaves no second link and
  nothing of it in the other list or popped (`Callouts.CancelledDoesNotRun`). In every run up to a second link it can
  if and only if its task has its function and is popped or, after a stale registration, still queued
  (`CalloutCancel.CancelExact`); before the first stale registration, and for a registered callout, that is exactly
  when it is in the task queue with its task running. `CalloutWindow.CancelledRunsOn` is a run in which a callout that
  is cancelled out of the callout list runs.
- A callout registered while its task is still queued or popped, a stale registration, leads into an assertion failure.
  So does every later registration as long as some callout is in that condition, and no other one, in every run up to
  a second link (`CalloutPanic.StaleExact`). A function begins early exactly when the callout was registered between
  the test of the time and the lock (`Callouts.EarlyExact`), and can then link its callout to itself
  (`CalloutPanic.StaleLinksTwice`). `CalloutWindow.WindowRunsEarly` is a run with all three; its last registration is
  not stale, links the callout a second time, and leads into the failure too.
- A delay is rounded down to timer counts, so a function can begin too soon exactly when the delay is not a whole
  number of counts and a count is at most a millisecond (`CalloutDelay.DelayExact`); with counts of 70 ns a
  microsecond lasts 980 ns (`CalloutDelay.MicrosecondTooShort`). A negative delay goes back in time if and only if a
  count is a nanosecond, or so long that the delay adds nothing (`CalloutList.NegativeDelay`).
- Comparing timer counts is comparing numbers exactly as long as a count below 2^60 does not meet one above
  0xF000000000000000 (`CalloutList.OrderOfCounts`).
- The mask with which the slab allocator releases a slot is right exactly for the first 31 of the 64 slots
  (`Allocator.MaskExact`); for slot 31 it clears all slots behind it too (`Allocator.Slot31`), and from slot 32 on the
  shift is undefined.
- Reserving memory around the available entries is right if and only if, in the order of their addresses, the whole
  pages of each entry end before those of the later ones start, and none that has pages ends behind a later one
  (`BootMemory.Setup`, `BootMemory.GapsCorrect`, `BootMemory.RightIsPaged`). It holds if no two entries overlap and, of
  those at one address, all but the last listed are empty (`BootMemory.PackedExact`). Otherwise a reservation can wrap
  (`BootMemory.EmptyEntryBehind`) or a page is lost (`BootMemory.SmallEntryBehind`).
- Looking up a name that does not exist reaches the block allocator exactly when the number of root entries is a
  multiple of 32, because the root size is rounded up (`V6fs.V6FileSystem.DirLookup`, `Vfs.LookupInFullBlock`).
- A path component of 14 or more characters overruns the buffer of the path walk, exactly when the walk reaches it
  (`Vfs.OverrunExact`). The comment above the function asks for a buffer of 15, the caller has one of 14.
- The UDP checksum field becomes zero, which RFC 768 reserves for "no checksum", exactly when the sum is a multiple
  of 65535 (`Udp.ZeroUdpChecksum`); for every payload some port does it (`Udp.ZeroForSomePort`).
- The search for an interrupt vector range does not end exactly for ranges above 2^30 (`Idt.RoundToPower`).

## Model

| member | source | states |
|---|---|---|
| SharedPtr.CountersAccount | source/kernel/ptr.h:171-433 | In every state of every run `shared_cnt` is the number of strong pointers that own a count, and `weak_cnt` the number of weak ones plus one until the last strong releaser has dropped that one. |
| SharedPtr.NoUseAfterFree | source/kernel/ptr.h:188-433 | Whoever still refers to a helper finds it undeleted, a strong owner finds the object undeleted, the object is deleted once and before the helper. |
| SharedPtr.DeletedExactlyOnce | source/kernel/ptr.h:295-312 | Object and helper are deleted at most once, the helper never before the object, and exactly once each when nothing refers to them any more. |
| SharedPtr.NoResurrection | source/kernel/ptr.h:218-235 | Once `shared_cnt` is zero it stays zero in the rest of the run: no copy or upgrade revives the object. |
| SharedPtr.UpgradeOutcome | source/kernel/ptr.h:226-233 | The CAS of an upgrade yields a strong pointer to an undeleted object with the count one higher, or null only if the count is zero, or goes round again. |
| SharedPtr.CopyYields | source/kernel/ptr.h:188-264 | In every interleaving a copy or assignment, strong or weak, that has come to its end yields a pointer of its kind to exactly what the source pointed to when it began, null if and only if the source was null, and leaves the source as it was. |
| SharedPtr.UpgradeYields | source/kernel/ptr.h:218-235 | In every interleaving an upgrade that has come to its end yields a strong pointer to what the weak one points to, or null, and that only if the weak one was null or the strong count had become zero. |
| SharedPtr.ReleaseYields | source/kernel/ptr.h:265-312 | A release that has come to its end leaves a variable out of use. |
| SharedPtr.CountsFit | source/kernel/ptr.h:181-182 | As long as fewer than 2^31 - 1 pointer variables exist neither counter leaves the range of an int. |
| SharedPtr.SelfAssignment | source/kernel/ptr.h:248-264 | `p = p` on a strong or weak pointer begun in any state of any run, all other threads running freely: some continuation ends with `p` in use and its object, for a weak one its helper, deleted if and only if no other pointer is held meanwhile. |
| SharedPtr.HeldSelfAssignment | source/kernel/ptr.h:248-264 | While another owner is held, in every interleaving nothing that `p` points to is deleted before `p = p` ends, and then `p` is what it was. |
| SharedPtr.TwoOwnersAreNotEnough | source/kernel/ptr.h:248-312 | A run with two owners in which the other one is released during `p = p` and the object is gone. |
| SpinLock.MutualExclusion | source/kernel/spinlock.cc:35-112 | In every state at most one CPU holds the lock, the counter is odd iff one does, and whoever is about to test it in `Unlock` finds it odd, so the assertion never fires. |
| SpinLock.SelfLockPanicOnlyHolder | source/kernel/spinlock.cc:36-44 | `_cpuid` is invalid or names the holder, so the self-lock panic hits only a CPU that holds the lock. |
| SpinLock.RelockIsCaught | source/kernel/spinlock.cc:36-44 | A holder that calls `Lock` again always reaches the panic. |
| SpinLock.RetryIsRefused | source/kernel/spinlock.cc:95-112 | A holder that calls `Trylock` is refused and goes on holding the lock. |
| SpinLock.RefinesLock | source/kernel/spinlock.cc:50-112 | Every step of every run is a stutter, an acquisition of the free lock or a release by its owner. |
| SpinLock.FreeLockIsTaken | source/kernel/spinlock.cc:51-74 | When nobody holds the lock a spinning CPU that runs undisturbed takes it with its next two accesses. |
| SpinLock.TryCasDecides | source/kernel/spinlock.cc:95-112 | In any interleaving the swap of `Trylock` takes the lock if and only if the counter it read is even and still there; otherwise nothing changes. |
| SpinLock.TrylockDecides | source/kernel/spinlock.cc:95-112 | Undisturbed, `Trylock` takes the lock if and only if nobody held it. |
| SpinLock.LockSucceeds | source/kernel/spinlock.cc:35-75 | Undisturbed, `Lock` on a free lock ends in the critical section with `_cpuid` naming the CPU. |
| SpinLock.UnlockFrees | source/kernel/spinlock.cc:88-93 | Undisturbed, `Unlock` ends with nobody holding the lock and `_cpuid` invalid. |
| SpinLock.SuccFlipsParity | source/kernel/spinlock.h:63-66 | Incrementing the 32-bit counter flips its parity, also across the wrap-around. |
| Functional.OneActivation | source/kernel/functional.h:55-104 | In every state `kFunctioning` means exactly one activation token; whoever is about to register the task finds it not queued, and the handler finds `kFunctioning` where it asserts it. |
| Functional.NoLostWakeup | source/kernel/functional.h:76-104 | If the producers are done and items remain, the task is queued or executing before its final decision, if and only if not all wake-ups since the last one that took effect came before `_cpuid` was stored. |
| Functional.LostOnlyBeforeSetFunction | source/kernel/functional.h:55-59 | An item with nobody to handle it: some producer found `_cpuid` unset, and nothing has activated the handler since. |
| Functional.LostItem | source/kernel/functional.h:55-59 | A run that ends with an item in the buffer, everything set up, and no step of the handler possible. |
| Functional.NullFunction | source/kernel/functional.h:106-109 | A run in which the handler, activated between the two stores of `SetFunction`, executes a null function. |
| Functional.NullNeedsActivation | source/kernel/functional.h:76-109 | A null function is executed only by a handler activated between the two stores. |
| Functional.Drains | source/kernel/functional.h:76-104 | From every reachable state with the producers done and a wake-up in effect, the handler alone stops within a bounded number of steps; then every item ever accepted has been taken out in the order it came, and the task is idle, or a null function was executed, and that if and only if `_func` was not stored and an execution was due. |
| Functional.ItemsInOrder | source/kernel/buf.h:50-71 | In every state of every run the items accepted are those taken out followed by those in the buffer, which never exceeds its capacity: none is lost, duplicated or overtaken. |
| Functional.PushOutcome | source/kernel/buf.h:50-60 | A push is refused if and only if the buffer is full, and otherwise puts the item behind all others. |
| Functional.OneActivationTakesTen | source/kernel/functional.h:76-104 | An activation whose executions take one item each takes the first ten, or all if there are fewer, and queues the task again if and only if items are left. |
| Functional.WorkLowersRank | source/kernel/functional.h:76-104 | Every step of the handler or of the scheduler on its behalf lowers the rank that bounds the work left. |
| CountableTask.EveryIncIsOwed | source/kernel/task.cc:383-401 | In every state decrements plus `_cnt` equals the number of `Inc` calls, the function has been executed once for every decrement and once more while the handler stands before the next one, `_cnt` is positive iff the task is on its way to an execution, and whoever is about to register the task finds it not queued. |
| CountableTask.EveryIncIsExecuted | source/kernel/task.cc:383-401 | Once callers are done the handler needs a bounded number of steps, and then every `Inc` had an execution of its own. |
| CountableTask.OneInc | source/kernel/task.cc:383-401 | A run of one `Inc` that ends with one execution and nothing left to do. |
| CountableTask.WorkLowersRank | source/kernel/task.cc:392-401 | Every step of the handler lowers the bound on the work left and starts no new one. |
| TaskQueue.RefinesFifo | source/kernel/task.cc:81-130 | Main list followed by sub list is one FIFO queue: registering appends, popping takes the head, the swap changes nothing, removing deletes one element. |
| TaskQueue.RunDistinct | source/kernel/task.cc:158-219 | In every run no task is ever queued twice. |
| TaskQueue.NoOvertaking | source/kernel/task.cc:81-176 | As long as `u` waits in front of `t` and neither is removed, `t` is not started before `u`. |
| TaskQueue.BoundedWait | source/kernel/task.cc:81-130 | A task at position p is started or removed by the time p + 1 tasks were started: each start moves it forward and nothing moves it back. |
| TaskQueue.RegisterGoesLast | source/kernel/task.cc:158-176 | A task that registers itself goes behind every task already waiting. |
| TaskCtrl.LinkLast | source/kernel/task.cc:168-174 | Linking a task behind the end keeps the list doubly linked with the task last and waiting. |
| TaskCtrl.Unlink | source/kernel/task.cc:184-210 | Unlinking keeps the list doubly linked in both directions without the task and clears its links. |
| TaskCtrl.TaskStruct.constructor | source/kernel/task.cc:437-459 | Two guards and two empty lists; the queue is empty. |
| TaskCtrl.TaskStruct.Register | source/kernel/task.cc:158-176 | Panics iff the task is waiting; otherwise the queue the links stand for is the old one with the task appended, and a task is linked iff its status is waiting. |
| TaskCtrl.TaskStruct.PopFirst | source/kernel/task.cc:84-103 | Takes the head of the main list, which becomes running, or nothing iff the list is empty; ends, links and statuses stay consistent. |
| TaskCtrl.TaskStruct.FinishExecution | source/kernel/task.cc:107-112 | A task that did not queue itself again goes out of the queue; everything else is kept. |
| TaskCtrl.TaskStruct.SwapOrSleep | source/kernel/task.cc:114-130 | Sleeps iff the whole queue is empty; otherwise exchanges the lists with their guards and ends. |
| TaskCtrl.TaskStruct.Remove | source/kernel/task.cc:178-219 | A waiting task leaves the queue at its position, wherever it is linked, with the right end pointer moved; a running one is only marked; statuses of others are kept. |
| TaskCtrl.TaskStruct.Detach | source/kernel/task.cc:184-213 | Taking a task out of either list moves exactly the end pointer that named it. |
| CalloutList.CountsAfter | source/kernel/timer.h:40-42 | A delay that is not negative adds the counts that fit into it, rounded down, without wrapping. |
| CalloutList.NegativeDelay | source/kernel/timer.h:40-42 | For every clock and period: a negative delay goes back by its counts, in 64 bits, if and only if a count is one nanosecond or longer than the delay read as unsigned. |
| CalloutList.OrderOfCounts | source/kernel/timer.h:43-52 | Comparing counts is comparing numbers if and only if not an early count meets one above the limit. |
| CalloutList.InsertKeepsOrder | source/kernel/task.cc:284-303 | Inserting where the scan stops keeps the list sorted by time. |
| CalloutList.DueIsPrefix | source/kernel/task.cc:63-72 | In a sorted list the scan stops exactly behind the callouts with a time before the limit. |
| CalloutList.List.constructor | source/kernel/task.cc:437-459 | A guard and no callouts. |
| CalloutList.List.Insert | source/kernel/task.cc:284-304 | The linked list becomes the old one with the callout before the first one that is not earlier. |
| CalloutList.List.Remove | source/kernel/task.cc:341-355 | The callout leaves the linked list and loses its link; a callout that is not listed changes nothing. |
| CalloutList.List.TakeFirst | source/kernel/task.cc:64-77 | One turn of the drain: the first callout if it is due before the limit, otherwise nothing. |
| CalloutList.List.Drain | source/kernel/task.cc:61-79 | Unlinks exactly the prefix of callouts due before the limit, in order. |
| Callouts.ListsAgree | source/kernel/task.cc:58-80 | In every state of every run without a stale registration the list is sorted, both lists hold a callout once, state and status say where it and its task are listed, what is queued has its handler, no registration runs twice, each is executed, dropped or pending, and no assertion has failed. |
| Callouts.ListsTraced | source/kernel/task.cc:58-435 | With stale registrations, up to a second link: both lists hold a callout once, the callout list is sorted, a task is queued iff it is waiting, a registered callout is where its state says or popped, and one listed otherwise has lost its function. |
| Callouts.LinksOnceOrderly | source/kernel/task.cc:58-435 | Every state of every run up to a second link, stale registrations included, is orderly, which is all that the theorems about cancellations and registrations below ask of a state. |
| Callouts.CalmRuns | source/kernel/task.cc:281-435 | In every run without a cancellation in the window no registration is stale, a callout is registered exactly as long as an execution is to come, and registrations equal executions plus cancellations plus the one pending. |
| Callouts.DrainMoves | source/kernel/task.cc:58-80 | The drain moves exactly the callouts due before the limit, in order, behind the waiting tasks. |
| Callouts.NeverEarly | source/kernel/task.cc:416-435 | Without a stale registration a function begins only when the clock has reached its time. |
| Callouts.EarlyExact | source/kernel/task.cc:416-435 | In every run whatever, a function is about to begin before its time if and only if the callout was registered again between the test of the time and the lock, for a count not yet reached. |
| Callouts.CancelledDoesNotRun | source/kernel/task.cc:338-372 | In every run whatever, after a cancellation that leaves no second link and nothing in the other list or popped, the function does not run before the callout is registered again. |
| Callouts.RemainsOnce | source/kernel/task.cc:338-372 | In runs without a stale registration a cancelled callout runs at most once more, and only if the cancellation left something of it. |
| CalloutCancel.CancelExact | source/kernel/task.cc:338-435 | After a cancellation in any state of any run up to a second link the function can still begin without a new registration if and only if it was late: the task has its function and is running for a callout in the task queue, or waiting or popped for another one; before a stale registration that is, for a registered callout, in the task queue with the task running. |
| CalloutCancel.CancelAgain | source/kernel/task.cc:338-372 | For a callout that is not registered a cancellation decides nothing: its function can begin after it if and only if it could before. |
| CalloutCancel.CancelStops | source/kernel/task.cc:338-372 | A cancellation leaves the callout stopped and out of the list its state named, counts it as dropped iff it was registered, which is what the function returns, and leaves every other callout and the order of both lists as they were. |
| CalloutCancel.RegisteredRuns | source/kernel/task.cc:58-80 | From every state of a run without a stale registration the function of every registered callout can begin, if the clock can go on behind the times of all callouts. |
| CalloutWindow.CancelledRunsOn | source/kernel/task.cc:338-435 | A run after whose stale registration a cancellation, which finds the callout in the callout list, does not keep the function from running. |
| CalloutPanic.PanicExact | source/kernel/task.cc:58-176 | From any state of any run up to a second link the clock and the scheduler loop can lead into an assertion failure if and only if some callout is linked with its task queued or popped, or on its way without a function. |
| CalloutPanic.StaleExact | source/kernel/task.cc:281-307 | After a registration in any state of any run up to a second link, that one included, the scheduler can run into an assertion failure if and only if the registration was stale or some callout was doomed before; before the first stale one none is. |
| CalloutPanic.StaleLinksTwice | source/kernel/task.cc:281-307 | A registration between the test of the time and the lock lets the function begin with the callout still listed; registering it from there links it a second time. |
| CalloutWindow.WindowRunsEarly | source/kernel/task.cc:338-435 | A run of five steps after which a registration begins 5000 counts early; repeated from the function it is not stale, links the callout to itself, and leads into an assertion failure like the first. |
| CalloutDelay.NotBeforeTheDelay | source/kernel/task.cc:403-435 | Between a registration and the start it leads to less than one count of the delay is missing, and nothing if the delay is a whole number of counts or a count exceeds the drain interval. |
| CalloutDelay.DelayExact | source/kernel/timer.h:40-42 | For every period and delay: some run begins the function before the delay, in nanoseconds, is over if and only if the delay is not a whole number of counts and a count is at most a millisecond. |
| CalloutDelay.MicrosecondTooShort | source/kernel/timer.h:40-42 | With counts of 70 ns some run starts a function 980 ns after a registration for one microsecond. |
| DiskLayout.FieldRoundTrip | source/tool/fs.h:14-36 | Little-endian fields read back what was written. |
| DiskLayout.InodeRoundTrip | source/tool/fs.h:29-36 | Decoding an encoded inode gives the inode. |
| DiskLayout.InodeUpdate | source/tool/mkfs.c:187-212 | Writing one inode into its block changes that inode and no other. |
| DiskLayout.EntryUpdate | source/tool/mkfs.c:284-289 | Writing one entry of an indirect block changes that entry and no other. |
| BlockMap.WriteConsistent | source/tool/mkfs.c:292-294 | Writing a block that one file owns keeps the block maps of all files. |
| BlockMap.AllocDirect | source/tool/mkfs.c:275-279 | A new direct block is owned by one file and place and keeps the ownership of all others. |
| BlockMap.AllocIndirect | source/tool/mkfs.c:281-289 | A new indirect block with its first entry keeps ownership disjoint. |
| BlockMap.AllocEntry | source/tool/mkfs.c:284-289 | A new entry of the indirect block keeps ownership disjoint. |
| Append.AppendChunk | source/tool/mkfs.c:291-297 | Copying a chunk into the last block appends exactly these bytes and keeps the rest of the block zero. |
| Append.OtherFile | source/tool/mkfs.c:291-297 | Writing a block that another file owns leaves this file as it was. |
| Append.AppendStep | source/tool/mkfs.c:272-298 | One turn of `iappend` appends its chunk to one file and changes no other. |
| Append.FinishAppend | source/tool/mkfs.c:299-300 | Writing back the inode makes the appended bytes the content of the file. |
| Append.AddInode | source/tool/mkfs.c:227-239 | A new inode is an empty file and leaves the others as they were. |
| ImageSpec.FewFilesFit | source/tool/mkfs.c:98-99 | Any six files within the largest file size can be written. |
| ImageSpec.NameRoundTrip | source/tool/mkfs.c:151-154 | A name of at most 13 characters reads back from its directory entry. |
| ImageSpec.RootEntry | source/tool/mkfs.c:124-154 | Entry k of the root directory is the entry of file k - 2. |
| ImageSpec.SuperFieldsReadBack | source/tool/mkfs.c:101-107 | The seven superblock fields at their offsets hold the layout: 1000 blocks, 941 of data, 200 inodes, 30 of log, the log at 2, the inodes at 32, the bitmap at 58. |
| Mkfs.Image.constructor | source/tool/mkfs.c:98-119 | A zeroed image with the superblock and no files. |
| Mkfs.Image.MapPosition | source/tool/mkfs.c:273-290 | Finds or allocates the block of a file position: an allocation takes `freeblock` (two blocks for the first indirect entry) and keeps all ownership disjoint. |
| Mkfs.Image.WriteInode | source/tool/mkfs.c:187-199 | The inode is written and nothing else of the metadata changes. |
| Mkfs.Image.AllocInode | source/tool/mkfs.c:227-239 | The list of files grows by one empty file. |
| Mkfs.Image.Append | source/tool/mkfs.c:259-301 | Exactly the given bytes are appended to one file, every other file is unchanged, and `freeblock` grows by exactly the blocks needed. |
| Mkfs.Image.CopyFile | source/tool/mkfs.c:156-157 | Reading and appending in chunks stores the whole host file. |
| Mkfs.Image.AddFile | source/tool/mkfs.c:134-160 | One more host file and its root entry are on the image. |
| Mkfs.Image.Finish | source/tool/mkfs.c:162-169 | Rounding the root size and writing the bitmap leave an image that represents the files. |
| Mkfs.Bitmap | source/tool/mkfs.c:241-255 | A bit of the bitmap is set iff its block is below `freeblock`. |
| Mkfs.Make | source/tool/mkfs.c:98-172 | For every list of files that fits, the image holds their contents, the root directory, the superblock and the bitmap. |
| V6fs.V6FileSystem.constructor | source/kernel/v6fs.cc:26-32 | Mounting reads the layout from the superblock. |
| V6fs.V6FileSystem.ReadInode | source/kernel/v6fs.h:82-86 | The address arithmetic reads the inode that the writer put there. |
| V6fs.V6FileSystem.MapBlock | source/kernel/v6fs.cc:140-172 | A mapped block is found; the allocator is reached exactly for an unmapped one below the file size limit. |
| V6fs.V6FileSystem.ReadData | source/kernel/v6fs.cc:99-130 | The chunked loop fills the buffer with the bytes of the file from the offset on, as many as asked for or up to its size, touches nothing else, and stops with the right count where a block is not mapped. |
| V6fs.V6FileSystem.ReadEntry | source/kernel/v6fs.cc:189-198 | One turn of the directory scan reads entry k, a zero entry behind the last, or reaches the allocator behind the last block. |
| V6fs.V6FileSystem.DirLookup | source/kernel/v6fs.cc:181-206 | Finds the first entry with the name; if there is none, not found, or the allocator exactly when the entry count is a multiple of 32. |
| V6fs.ChunkOfFile | source/kernel/v6fs.cc:116-121 | One device read inside a block yields the bytes of the file at that offset. |
| Vfs.NextPathName | source/kernel/fs.cc:69-91 | Takes the next component of the path, clipped to 14 characters, and leaves exactly the components behind it. |
| Vfs.WalkName | source/kernel/fs.cc:143-157 | One turn of the walk is one step of resolving the list of components. |
| Vfs.LookupInodeFromPath | source/kernel/fs.cc:125-164 | The walk resolves the components of the path from the root, or its parent, with the same failures; a name of 14 characters or more overruns the buffer when it is reached. |
| Vfs.OverrunExact | source/kernel/fs.cc:136-138 | The walk overruns its name buffer if and only if the names before some component of 14 characters or more resolve. |
| Vfs.ParentThenName | source/kernel/fs.cc:149-152 | Resolving a path is resolving its parent and then its last name. |
| Vfs.SimplePath | source/kernel/fs.cc:69-91 | "/name" has the single component name. |
| Vfs.JoinComponents | source/kernel/fs.cc:69-91 | Taking apart a path of any number of names joined by slashes gives these names. |
| Vfs.SlashesDoNotMatter | source/kernel/fs.cc:71-73 | Further slashes do not matter. |
| Vfs.FileIsFound | source/kernel/v6fs.cc:181-206 | The component of file k resolves to its inode. |
| Vfs.HostNameIsFound | source/tool/mkfs.c:142-154 | A host file "_n" is found under "/n", any other one under "/" and its own name. |
| Vfs.RootIsFound | source/tool/mkfs.c:121-132 | The empty path, "." and ".." lead to the root. |
| Vfs.OtherNameIsNotFound | source/kernel/v6fs.cc:181-206 | A name that no entry has is not found, or reaches the allocator exactly if the entries fill their last block. |
| Vfs.FileIsNoDirectory | source/kernel/fs.cc:143-147 | Nothing is found behind a file. |
| Vfs.ReadFile | source/kernel/fs.cc:103-115 | Reading any range of file k of an image gives the bytes of the host file at that offset, as many as asked for, or fewer only if the file ends there. |
| Vfs.WriteThenRead | source/kernel/fs.cc:69-164 | For every list of files, writing an image, walking the path of file k and reading any range returns exactly the bytes of the host file there, as many as asked for, or fewer only if the file ends there. |
| Vfs.LookupInFullBlock | source/kernel/v6fs.cc:181-206 | On the image of thirty files, looking up a name that is not there runs into the allocator. |
| Allocator.FreeSlot | source/kernel/allocator.h:91-100 | The first free slot, or 64 iff there is none. |
| Allocator.LastFree | source/kernel/allocator.h:110-113 | The scan stops at the last container with a free slot. |
| Allocator.SinkHead | source/kernel/allocator.h:108-115 | The full head goes behind the last container with a free slot, the others keep their order; links and slots in use are kept. |
| Allocator.MoveToFront | source/kernel/allocator.h:63-67 | Relinking moves one container to the front and keeps the others in order. |
| Allocator.ClearBit | source/kernel/allocator.h:68-69 | The slots that the mask clears become free, no other does, and the order holds again. |
| Allocator.Slab.constructor | source/kernel/allocator.h:53-54 | One container and no slot in use. |
| Allocator.Slab.Alloc | source/kernel/allocator.h:78-126 | Returns the first free slot of the first container; the slots in use grow by exactly it; the list stays as it is, or if that container is now full gets a new container in front, when all are full, or has the head moved behind the last one with a free slot. |
| Allocator.Slab.Extend | source/kernel/allocator.h:128-138 | A new container in front of a full list restores the order. |
| Allocator.Slab.Free | source/kernel/allocator.h:56-76 | Below slot 32 exactly the slots that the mask clears are no longer in use, below slot 31 exactly the given one; a container that was full comes to the front, otherwise the list stays as it is; an address in no container is not found. |
| Allocator.MaskClears | source/kernel/allocator.h:69-69 | Of a 64-bit word the mask as written, a 32-bit shift with its sign repeated, clears exactly the slots of `Clears`: slot i, and for i = 31 all behind it. |
| Allocator.MaskExact | source/kernel/allocator.h:69-69 | The mask is defined and releases exactly slot i if and only if i < 31. |
| Allocator.Slot31 | source/kernel/allocator.h:69-69 | Releasing slot 31 of a full container also releases slot 40; only the slots before 31 stay. |
| Udp.Folded | source/kernel/udp.cc:329-331 | The carry loop ends with 16 bits, keeps the value modulo 65535, and gives zero only for zero. |
| Udp.Fold | source/kernel/udp.cc:350-352 | The loop computes that value. |
| Udp.AddWords | source/kernel/udp.cc:322-327 | The 32-bit summing loop does not overflow and adds the sum of the words, an odd last byte padded with zero. |
| Udp.ComplementFolds | source/kernel/udp.cc:332-335 | A sum plus the complement of its fold folds to 0xFFFF. |
| Udp.ChecksumsVerify | source/kernel/udp.cc:301-357 | From the bytes of the frame alone: the header sums to all ones, and so does the segment with the two addresses, the protocol number and the length field. |
| Udp.FrameFields | source/kernel/udp.cc:201-336 | The frame field by field: addresses, types, lengths, identification, flags, ports and payload at their offsets. |
| Udp.SumByPlace | source/kernel/udp.cc:322-327 | The sum of the words is 256 times the bytes at even places plus those at odd places. |
| Udp.KnownFrame | source/kernel/udp.cc:201-359 | One whole frame, byte by byte, with both checksums. |
| Udp.ZeroUdpChecksum | source/kernel/udp.cc:332-335 | The checksum field is zero iff the sum is a multiple of 65535. |
| Udp.ZeroForSomePort | source/kernel/udp.cc:306-336 | Whatever the addresses and the payload are, there is a destination port for which the checksum field is zero. |
| Udp.ZeroChecksumSent | source/kernel/udp.cc:306-336 | An empty datagram between two concrete addresses whose checksum field is zero. |
| Udp.SendThenReceive | source/kernel/udp.cc:107-169 | The receive path accepts every frame that is sent, whatever follows it in the buffer, and recovers the port and exactly the payload. |
| Udp.ParseExact | source/kernel/udp.cc:107-169 | Exactly which frames are taken for a datagram, byte by byte, where a read goes past the end, and the ports and payload that are read. |
| Udp.Put | source/kernel/udp.cc:201-299 | A copy at the moving offset appends its bytes to what is written. |
| Udp.SumPseudoHeader | source/kernel/udp.cc:306-320 | The sum of the two addresses, the protocol number and the length of the segment. |
| Udp.SumSegment | source/kernel/udp.cc:306-331 | The folded sum over pseudo header and segment; the padding byte lies behind the frame. |
| Udp.FinishSegment | source/kernel/udp.cc:301-336 | Length and checksum complete the segment. |
| Udp.FinishHeader | source/kernel/udp.cc:338-357 | Length and checksum complete the IPv4 header. |
| Udp.Send | source/kernel/udp.cc:201-359 | For every payload with 42 + len < 1518 the buffer holds exactly the frame. |
| BootMemory.Rounding | source/kernel/mem/paging.h:142-147 | Rounding down gives the next page boundary below; rounding up the next one above if and only if the address is not behind the start of the last page, where it wraps to zero. |
| BootMemory.AvailableAppend | source/kernel/multiboot.cc:49-60 | Collecting entry after entry keeps those available, in their order. |
| BootMemory.CountAvailable | source/kernel/multiboot.cc:37-47 | The number of available entries. |
| BootMemory.Collect | source/kernel/multiboot.cc:37-60 | The array holds exactly the available entries in their order. |
| BootMemory.Bubble | source/kernel/multiboot.cc:63-69 | One pass moves the largest remaining entry to its place, permutes the rest and keeps the order of entries with equal addresses. |
| BootMemory.Sort | source/kernel/multiboot.cc:62-70 | The entries are sorted by address, a permutation of what they were, and those with equal addresses keep their order. |
| BootMemory.PackedExact | source/kernel/multiboot.cc:62-80 | Sorting puts each entry behind the end of the one before if and only if no two entries overlap and, of those at one address, all but the last listed are empty. |
| BootMemory.PagedExact | source/kernel/multiboot.cc:62-80 | Sorting puts the pages of the entries one after the other if and only if the listed entries, by their addresses, suit each other. |
| BootMemory.ReserveGaps | source/kernel/multiboot.cc:71-81 | The loop, in 64-bit arithmetic, makes the reservations `Gaps`, for every list of entries. |
| BootMemory.GapsCorrect | source/kernel/multiboot.cc:71-81 | Of sorted entries whose pages come one after the other: no reservation wraps, below the end of the last entry a page is reserved iff it lies wholly in no entry, and no such page lies behind that end; reservations are whole pages and not empty. |
| BootMemory.RightIsPaged | source/kernel/multiboot.cc:71-81 | The reservations of sorted entries are right only if their pages come one after the other. |
| BootMemory.GapsWrap | source/kernel/multiboot.cc:73-80 | Some reservation wraps if and only if some entry starts, rounded up, below the rounded end of the one before. |
| BootMemory.WrapExact | source/kernel/multiboot.cc:73-80 | Of sorted entries no reservation wraps if and only if the pages of each end before those of the later ones start; for whole pages: if and only if they are packed. |
| BootMemory.EmptyEntryBehind | source/kernel/multiboot.cc:62-80 | An empty entry listed behind one at its address makes a reservation wrap; listed before it, it does not. |
| BootMemory.SmallEntryBehind | source/kernel/multiboot.cc:62-80 | Two overlapping entries for which no reservation wraps and a page is lost. |
| BootMemory.Setup | source/kernel/multiboot.cc:35-81 | From the memory map: the available entries sorted and stable; for entries below the last page of the address space the reservations are right if and only if the listed entries suit each other; without overlaps every entry ends below the end. |
| PacketPool.RingBuffer.constructor | source/kernel/buf.h:43-46 | An empty buffer of the given capacity. |
| PacketPool.RingBuffer.Push | source/kernel/buf.h:50-60 | Appends across the wrap-around; refused iff the capacity is reached. |
| PacketPool.RingBuffer.Pop | source/kernel/buf.h:62-71 | Takes the oldest element; refused, with the variable untouched, iff empty. |
| PacketPool.RingBuffer.IsFull | source/kernel/buf.h:72-76 | True iff the capacity is reached. |
| PacketPool.RingBuffer.IsEmpty | source/kernel/buf.h:77-80 | True iff nothing is held. |
| PacketPool.RoomForHeld | source/kernel/dev/netdev.h:116-207 | As long as the 300 packets are partitioned, whoever holds one finds room in either ring. |
| PacketPool.TakeFirst | source/kernel/dev/netdev.h:140-147 | Taking the first packet of a ring keeps the partition. |
| PacketPool.PutLast | source/kernel/dev/netdev.h:116-130 | Putting a held packet back keeps the partition. |
| PacketPool.Pool.constructor | source/kernel/dev/netdev.h:76-107 | Two rings of 300, the reserved one filled. |
| PacketPool.Pool.Fill | source/kernel/dev/netdev.h:190-207 | The filling loop pushes 300 distinct new packets and no push fails. |
| PacketPool.Pool.TakeReserved | source/kernel/dev/netdev.h:79-91 | The oldest reserved packet passes to whoever takes it. |
| PacketPool.Pool.GetTxPacket | source/kernel/dev/netdev.h:140-147 | The oldest reserved packet with its length set; refused iff none is reserved. |
| PacketPool.Pool.TransmitPacket | source/kernel/dev/netdev.h:156-158 | Queuing a held packet never fails. |
| PacketPool.Pool.ReceivePacket | source/kernel/dev/netdev.h:169-175 | The oldest queued packet passes to the receiver; refused iff none is queued. |
| PacketPool.Pool.ReuseBuffer | source/kernel/dev/netdev.h:116-130 | Returning a held packet never fails, so the assertion holds. |
| HashMap.Scan | source/kernel/map.h:110-117 | The scan finds the node of the key and its predecessor, or the end iff the key is absent. |
| HashMap.SameBucket | source/kernel/map.h:62-68 | Keys share a bucket if and only if they differ by a multiple of the number of buckets. |
| HashMap.UnlinkAt | source/kernel/map.h:147-152 | Unlinking keeps the chain without the node. |
| HashMap.Map.constructor | source/kernel/map.h:74-77 | An empty table stands for the empty map. |
| HashMap.Map.Others | source/kernel/map.h:94-155 | The chains of different buckets share no node. |
| HashMap.Map.Get | source/kernel/map.h:94-107 | Found iff the key is in the map, with its value; otherwise the variable is untouched. |
| HashMap.Map.Put | source/kernel/map.h:109-131 | The map is the old one with the key set; chains stay linked, each key once and in its own bucket, and reach no deleted node. |
| HashMap.Map.Remove | source/kernel/map.h:133-155 | The map is the old one without the key, whose node is deleted, once, and no other; an absent key changes nothing. |
| HashMap.Map.Destroy | source/kernel/map.h:79-92 | The destructor deletes every node exactly once. |
| Idt.RoundToPower | source/kernel/idt.cc:156-162 | The doubling loop ends if and only if the range is at most 2^30, as the int then overflows to zero for ever; it ends at the range iff that is a power of two. |
| Idt.FindBlock | source/kernel/idt.cc:164-175 | The lowest aligned free block, or none iff there is none. |
| Idt.FillBlock | source/kernel/idt.cc:176-180 | Writes the callbacks of a block and nothing else. |
| Idt.Table.constructor | source/kernel/idt.cc:107-118 | All slots of all CPUs are free. |
| Idt.Table.FreeIsApart | source/kernel/idt.cc:168-175 | A free block overlaps no earlier registration on that CPU. |
| Idt.Table.SetIntCallback | source/kernel/idt.cc:139-152 | The lowest free vector in [64, 256); error iff all are taken; registrations stay disjoint; a null callback takes no slot. |
| Idt.Table.SetIntCallbacks | source/kernel/idt.cc:154-184 | The lowest block divisible by the range inside [64, 256) that was free, with exactly its callbacks written; error iff the range is no power of two or no aligned block is free; no return iff the range exceeds 2^30; registrations stay disjoint. |
| Digits.CountDigits | source/kernel/tty.cc:169-175 | One less than the number of digits. |
| Digits.Rebuild | source/kernel/tty.cc:177-180 | The rebuilt power does not wrap. |
| Digits.PrintDigit | source/kernel/tty.cc:176-184 | One turn prints the digit at its place and leaves what is below it. |
| Digits.Print | source/kernel/tty.cc:167-311 | The text is a numeral of the base without leading zero that reads back as the number, for 32 and 64 bits, base 10 and 16. |
| Digits.Unique | source/kernel/tty.cc:167-235 | There is one such numeral for a number. |
| Digits.KnownNumerals | source/kernel/tty.cc:226-231 | What each of the sixteen digits is worth. |

## Left out

- Allocating branches of `MapBlock` and `BlockCtrl`: they return a block index without its bit offset and write the indirect entry back unchanged; files on an image never need them.
- Inode reference counts: the path walk is modelled on inode numbers.
- Functional, CountableTask, Callouts: tasks run on one CPU, and each lock region is one step.
- Callouts: registration and cancellation are one step each; an interrupt inside them, and other tasks in the same queue, are not modelled. Timer counts are taken to stay at or below 0xF000000000000000.
- CalloutCancel.CancelExact: ends at a registration that links a listed callout a second time. There the source overwrites the link of a node in the list, which cuts the list or closes it to a ring; the sequence of the model does not represent that.
- CalloutPanic.StaleExact: covers that registration, and nothing behind it, for the same reason; the clock has room to pass the time of every callout.
- TaskCtrl.TaskStruct.Remove: runs on the CPU that owns the task, whose lists the source locks.
- `ForceWakeup`, inter-processor interrupts, `hlt`, the APIC timer and the setjmp task threads: hardware and context switching.
- CountableTask.EveryIncIsOwed: `Inc` is enabled only below 2^31 - 1 pending calls; beyond that the int counter overflows.
- SharedPtr.NoUseAfterFree: the source of a copy or upgrade stays alive during the operation, and self-assignment without a held pointer is treated separately in `SelfAssignment`; null pointers with an uninitialised helper field are not modelled.
- SharedPtr.CountsFit: that fewer than 2^31 - 1 pointer variables exist is an assumption, not a consequence of the address space.
- SpinLock.MutualExclusion: interrupt-flag restoration, backtraces and the timeout warning are not modelled.
- Allocator.Slab.Alloc: operations run one at a time, so the spinning on a full head and the null result under contention do not occur.
- Allocator.Slab.Free: what happens after a shift by 32 or more, which is undefined, is not modelled.
- Mkfs.Make: host files fit into the largest file size and the image, inode numbers and names into their fields; reading host files and the console output are not modelled.
- Vfs.LookupInodeFromPath: what happens after a name has overrun its buffer is not modelled.
- Udp.Send: the payload fits, as the assertion at the end of `Send` demands, but the source checks it only after writing; the ARP table, the identification bytes and the device addresses are parameters. ARP packets are not modelled.
- Udp.SendThenReceive: the receive callback stores what it parsed through `uptr` arrays that are null (source/kernel/udp.cc:137-148); the model is of what it parses.
- BootMemory.Setup: at least one entry is available, as the code reads the last one; the reservation of modules and of the boot information is not modelled.
- PacketPool.Pool.TransmitPacket: clients return and queue only packets they hold; the wake-up of the handler is the one in `Functional`.
- HashMap.Map.Destroy: the release of the table itself is not modelled.
- Idt.Table.SetIntCallbacks: signed overflow, which the language leaves undefined, is the wrap-around of the machine.
- Digits.Print: `%d`, `%c`, `%s`, widths and flags are not modelled.
- The concurrent `List`: its retry can leave a neighbour locked, and its sequential form would repeat the task lists.
- Device drivers, PCI, ACPI, HPET, GDT, ELF loading, framebuffer, shell, system calls, `dlmalloc`, paging and physical memory: hardware access, input and output, or code that is only called.
