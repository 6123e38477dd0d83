# Nachos kernel: a verified model

Nachos is a small teaching kernel that runs on a simulated machine. This project models its hard parts in
Dafny and proves what they promise over all inputs and all runs:

* **The file system** (`Words`, `BitMap`, `FileHeader`, `OpenFile`, `Directory`, `FileSystem`, `FileRuns`). The free map
  and the directory are files on the disk they describe. The classes work on a disk image of 1024 sectors, byte for
  byte. Every run of creations, removals and writes through handles from a formatted disk refines a map from truncated
  names to byte sequences, keeps every sector owned at most once, and loses none.
* **The synchronisation kernel** (`Options`, `Sequences`, `Kernel`, `KernelRuns`, `KernelTheorems`, `KernelInterface`), as a step machine over any
  number of threads, semaphores, locks and conditions. One step is the code between two points where control can
  pass to another thread. `SynchList` and `SynchDisk` are client code on top of that machine, with arbitrary other
  threads running beside them; `PostOffice` is the mail layer of any number of machines, down to the bytes of a frame.
* **Simulated time** (`List`, `Interrupt`, `Disk`): the linked list on the heap, the queue of pending interrupts with
  arbitrary handlers, and the arithmetic of the disk's rotation and track buffer.
* **Paging** (`Translate`, `AddrSpace`, `Paging`, `Processes`): address translation, the loader, the fork copy, the release
  of frames. Every run of loads, forks, exits, stores and fetches refines a map from processes to flat images.
* **Multiplication and overflow** in the MIPS simulator (`Mips`).

Words are little endian, as on the hosts where the simulator's byte-order conversions do nothing.

## What turned out differently

* Not every live thread is running, ready or on a wait queue: between its queue lock's release and `ReadyToRun`, Signal
  holds the thread it wakes in a local variable only, and can be preempted there. `NotAlwaysPlaced` gives a run;
  `PlacedUnlessInHand` says that this is the only exception, and exactly when it occurs.
* `Idle` can leave a due interrupt unhandled: a timer whose turn comes when nothing else is pending. `DueTimerCanRemain`
  gives a run. `IdledLeaves` says exactly when, from the queue that `Idle` finds: its last entry is a timer, due by the
  time of the first entry, and no handler before it asks for another interrupt. Outside the idle loop there is no
  exception (`DrainedExactly`).
* `Network::Send` asserts that `sendBusy` is false, but nothing ever sets it to true; what keeps sends apart is the post
  office's lock and semaphore, and the model relies on those.
* A single byte is loaded with its sign and a short without, so a load after a store agrees modulo the width only.

## Model

| member | source | states |
|---|---|---|
| `Words.DecodeEncode` | nachos-3.4/code/userprog/bitmap.cc:157-173 | words stored as bytes, the least significant first, and loaded back are the same words |
| `BitMaps.BitMap.constructor` | nachos-3.4/code/userprog/bitmap.cc:23-31 | all bits clear, whatever the storage held |
| `BitMaps.BitMap.Mark` | nachos-3.4/code/userprog/bitmap.cc:54-59 | sets exactly the one bit |
| `BitMaps.BitMap.Clear` | nachos-3.4/code/userprog/bitmap.cc:68-73 | clears exactly the one bit |
| `BitMaps.BitMap.Test` | nachos-3.4/code/userprog/bitmap.cc:82-91 | reports the bit |
| `BitMaps.BitMap.Find` | nachos-3.4/code/userprog/bitmap.cc:102-111 | marks the lowest clear bit, or returns -1 exactly when there is none |
| `BitMaps.BitMap.NumClear` | nachos-3.4/code/userprog/bitmap.cc:119-127 | the number of clear bits |
| `BitMaps.MarkedPlusClear` | nachos-3.4/code/userprog/bitmap.cc:119-127 | marked and clear bits add up to the size of the map |
| `FileHeaders.HeaderRoundTrip` | nachos-3.4/code/filesys/filehdr.cc:78-94 | a header lies in its sector as length, number of sectors and table, and is fetched as it was written |
| `FileHeaders.FileHeader.Allocate` | nachos-3.4/code/filesys/filehdr.cc:41-52 | refuses exactly when too few sectors are free, changing nothing; otherwise takes distinct sectors that were free, enough for the bytes and not one more |
| `FileHeaders.FileHeader.Deallocate` | nachos-3.4/code/filesys/filehdr.cc:61-68 | frees exactly the data sectors; the assertion that each is marked holds |
| `FileHeaders.FileHeader.FetchFrom` | nachos-3.4/code/filesys/filehdr.cc:77-81 | the header is what the sector's bytes say |
| `FileHeaders.FileHeader.WriteBack` | nachos-3.4/code/filesys/filehdr.cc:90-94 | the sector holds the header's bytes and no other sector changes |
| `OpenFiles.OpenFile.ReadAt` | nachos-3.4/code/filesys/openfile.cc:116-144 | a request for some bytes from inside the file transfers all of them, or those up to its end, and any other none; what is transferred is exactly that slice of the file, for every alignment |
| `OpenFiles.OpenFile.WriteAt` | nachos-3.4/code/filesys/openfile.cc:146-186 | transfers as many bytes as a read would; replaces exactly that slice of the file, for every alignment of first and last sector, and touches no other file's sector |
| `OpenFiles.OpenFile.FillEdges` | nachos-3.4/code/filesys/openfile.cc:167-177 | the buffer holds the file's bytes around the part to be overwritten |
| `OpenFiles.WrittenContents` | nachos-3.4/code/filesys/openfile.cc:146-186 | storing the prepared buffer splices the new bytes into the file |
| `OpenFiles.OpenFile.Read` | nachos-3.4/code/filesys/openfile.cc:74-80 | reads at the seek position and advances it past what was read |
| `OpenFiles.OpenFile.Write` | nachos-3.4/code/filesys/openfile.cc:82-88 | writes at the seek position and advances it past what was written |
| `OpenFiles.OpenFile.ReadRest` | nachos-3.4/code/filesys/fstest.cc:89-92 | reading again and again until nothing comes yields exactly the rest of the file, whatever the size of the buffer |
| `Directories.StrNEqIsEquality` | nachos-3.4/code/filesys/directory.cc:94 | comparing nine characters is equality of truncated names |
| `Directories.StoredName` | nachos-3.4/code/filesys/directory.cc:138 | a name copied into an entry is found again as its truncation |
| `Directories.TableRoundTrip` | nachos-3.4/code/filesys/directory.cc:63-80 | a directory written to its file and fetched is the same table |
| `Directories.MapRoundTrip` | nachos-3.4/code/userprog/bitmap.cc:157-173 | a free map written to its file and fetched is the same map |
| `Directories.Directory.FindIndex` | nachos-3.4/code/filesys/directory.cc:90-97 | the first live entry of the name, and -1 exactly when there is none |
| `Directories.Directory.Find` | nachos-3.4/code/filesys/directory.cc:108-116 | the header sector of the name, or -1 |
| `Directories.Directory.Add` | nachos-3.4/code/filesys/directory.cc:129-143 | succeeds exactly when the name is new and a slot unused; enters it in the first one and changes no other entry |
| `Directories.Directory.Remove` | nachos-3.4/code/filesys/directory.cc:153-162 | succeeds exactly when the name is listed; frees its slot only |
| `FileSystems.FileSystem.constructor` | nachos-3.4/code/filesys/filesys.cc:80-143 | formatting any disk gives an empty, consistent file system; opening changes nothing |
| `FileSystems.FormatConsistent` | nachos-3.4/code/filesys/filesys.cc:83-130 | after a format the map marks exactly the sectors of the two system files |
| `FileSystems.CreateConsistent` | nachos-3.4/code/filesys/filesys.cc:188-214 | entering a file with newly taken sectors keeps every marked sector owned by exactly one file |
| `FileSystems.RemoveConsistent` | nachos-3.4/code/filesys/filesys.cc:265-287 | releasing a listed file's sectors keeps it so |
| `FileSystems.WriteKeepsConsistent` | nachos-3.4/code/filesys/openfile.cc:146-186 | writing into a file's own data sectors keeps it so |
| `FileSystems.FileSystem.Create` | nachos-3.4/code/filesys/filesys.cc:174-215 | succeeds exactly when the name is new, a slot is unused and enough sectors are free; a failure leaves every sector unchanged; a success adds the one file and disturbs no other byte |
| `FileSystems.FileSystem.Open` | nachos-3.4/code/filesys/filesys.cc:227-241 | a handle on the named file, or null exactly when it is not listed |
| `FileSystems.FileSystem.Remove` | nachos-3.4/code/filesys/filesys.cc:257-288 | succeeds exactly when the name is listed; removes the one file, returns all its sectors, disturbs no other byte |
| `FileRuns.WriteFile` | nachos-3.4/code/filesys/openfile.cc:146-186 | a write through a handle changes that file's bytes only: no header, no directory entry, no bit of the free map |
| `FileRuns.ReadFile` | nachos-3.4/code/filesys/openfile.cc:116-144 | a read through a handle returns the bytes of that file in the simple model |
| `FileRuns.Print` | nachos-3.4/code/filesys/fstest.cc:77-97 | prints exactly the bytes of the named file, or reports that it is not there |
| `FileRuns.Copy` | nachos-3.4/code/filesys/fstest.cc:31-69 | succeeds exactly when the simple model can create the file; the volume then has a file with exactly the bytes of the original, and otherwise nothing has changed |
| `FileRuns.CreateCondition` | nachos-3.4/code/filesys/filesys.cc:188-214 | the code's checks amount to: new name, fewer than ten files, enough free sectors |
| `FileRuns.Run` | nachos-3.4/code/filesys/filesys.cc:80-288 | every run from a formatted disk, with handles held over other operations, keeps the allocation invariant and is a run of the map from names to bytes |
| `FileRuns.MapFromFiles` | nachos-3.4/code/filesys/filesys.cc:80-288 | a bit stored in the free map is set exactly for the sectors of the system files and of the listed files |
| `FileRuns.RunConserves` | nachos-3.4/code/filesys/filesys.cc:174-288 | after any run, free sectors plus the sectors of the files present plus the system's are all the sectors |
| `FileRuns.RunLeavesOthers` | nachos-3.4/code/filesys/filesys.cc:174-288 | operations on other names never change a file |
| `FileRuns.CreateThenRemove` | nachos-3.4/code/filesys/filesys.cc:174-288 | creating and removing a file restores the free map bit for bit and the directory as a map |
| `Kernel.StepPlaces` | nachos-3.4/code/threads/scheduler.cc:57-140 | every step keeps every thread in exactly one place, in agreement with its status |
| `Kernel.StepLocks` | nachos-3.4/code/threads/synch.cc:127-256 | whoever holds a condition's queue lock also holds the condition's lock, and nobody ever waits for a queue lock |
| `KernelInterface.WaitIsAtomic` | nachos-3.4/code/threads/synch.cc:198-220 | Wait is one step: when it ends the condition's lock and its queue lock are free, the caller is last on the condition's queue, and it is asleep |
| `KernelInterface.CallEffect` | nachos-3.4/code/threads/thread.cc:92-195 | what each call does for its caller: a forked thread goes last on the ready list, a yielding thread too and the head runs, a thread refused a lock or a semaphore goes last on its queue and sleeps |
| `Kernel.StepWakes` | nachos-3.4/code/threads/synch.cc:77-182 | a free lock with waiters has a woken thread about to re-check it; a semaphore with waiters has at least `value` of them; the value is never negative |
| `KernelRuns.StepConds` | nachos-3.4/code/threads/synch.cc:221-256 | while a signaller works, what it has woken, holds and has left queued is the queue it found |
| `KernelRuns.PcFrame` | nachos-3.4/code/threads/synch.cc:77-256 | only a thread's own steps move it through the kernel's code |
| `KernelRuns.RunInv` | nachos-3.4/code/threads/synch.cc:77-256 | every run, of any length, keeps all of these invariants |
| `KernelTheorems.OnePlace` | nachos-3.4/code/threads/scheduler.cc:57-132 | no thread is in two places, or twice on one queue |
| `KernelTheorems.PlacedUnlessInHand` | nachos-3.4/code/threads/synch.cc:226-233 | a live thread is running, ready or queued exactly when no signaller has it in hand |
| `KernelTheorems.NotAlwaysPlaced` | nachos-3.4/code/threads/synch.cc:226-233 | a run that leaves a live thread on no queue at all |
| `KernelTheorems.HeldUntilReleased` | nachos-3.4/code/threads/synch.cc:127-182 | over any run a lock stays with its holder until the holder's own Release or Wait |
| `KernelTheorems.AcquireReturns` | nachos-3.4/code/threads/synch.cc:127-154 | Acquire returns only with the lock in the caller's hands, and it was free |
| `KernelTheorems.FinishedForever` | nachos-3.4/code/threads/thread.cc:148-159 | a finished thread never runs again and is on no queue |
| `KernelTheorems.DestructorSafe` | nachos-3.4/code/threads/thread.cc:60-70 | the thread the scheduler deletes is never the current one |
| `KernelTheorems.FifoDispatch` | nachos-3.4/code/threads/scheduler.cc:57-79 | a thread at position `k` of the ready list runs exactly at the dispatch after `k` others |
| `KernelTheorems.FifoWake` | nachos-3.4/code/threads/synch.cc:100-182 | a thread at position `k` of a lock's or semaphore's queue is made ready exactly by the release or V after `k` others |
| `KernelTheorems.IdleMeansBlocked` | nachos-3.4/code/threads/thread.cc:217-233 | when nothing can run, every lock waited for is held and every semaphore waited for is zero |
| `KernelTheorems.SemaphoreCounts` | nachos-3.4/code/threads/synch.cc:77-111 | over any run the value is the first one plus the V's minus the P's that returned, and never negative |
| `KernelTheorems.SignalTurns` | nachos-3.4/code/threads/synch.cc:221-256 | Signal and Broadcast return after a fixed number of their own turns, whatever other threads do |
| `KernelTheorems.SignalHands` | nachos-3.4/code/threads/synch.cc:221-256 | at any point a signaller has woken a prefix of its target, in order |
| `KernelTheorems.SignalAnswers` | nachos-3.4/code/threads/synch.cc:221-256 | a call that returns tells its caller the number of threads it woke, or the thread |
| `KernelTheorems.BroadcastWakesAll` | nachos-3.4/code/threads/synch.cc:221-256 | Broadcast wakes exactly the threads queued at the call, in order, in `2n + 2` turns, and returns their number; Signal wakes and returns the first |
| `KernelInterface.LockGained` | nachos-3.4/code/threads/synch.cc:127-154 | a lock is gained only by a thread that was acquiring it, when it was free |
| `SynchLists.CallsEnabled` | nachos-3.4/code/threads/synchlist.cc:53-82 | the assertions that the caller of Signal and Wait holds the lock never fail |
| `SynchLists.StepListInv` | nachos-3.4/code/threads/synchlist.cc:53-82 | every step keeps the list first in, first out; the non-null assertion holds; while threads wait there are at least as many woken, or about to be, as items |
| `SynchLists.RunListInv` | nachos-3.4/code/threads/synchlist.cc:53-82 | over every run, removed items followed by the list are the appended items |
| `SynchLists.QueueOfItemsPut` | nachos-3.4/code/threads/synchlist.cc:53-82 | from the steps alone: in every run the `k`th caller of Remove that finds an item is given the `k`th item put, each the one its Append was called with, and the list holds those put after |
| `SynchLists.IdleListEmpty` | nachos-3.4/code/threads/synchlist.cc:70-82 | when nothing can run, nobody waits in Remove while the list holds an item |
| `DiskRequests.IssueSafe` | nachos-3.4/code/machine/disk.cc:115-153 | the assertions that no request is under way and the sector exists never fail |
| `DiskRequests.ReturnAfterDone` | nachos-3.4/code/filesys/synchdisk.cc:72-97 | a caller returns only after its own request completed, with what the disk still holds: a writer, its own bytes |
| `DiskRequests.StepDiskInv` | nachos-3.4/code/filesys/synchdisk.cc:72-109 | whenever the lock is free the disk is idle and the semaphore zero; every step keeps it |
| `DiskRequests.RunDiskInv` | nachos-3.4/code/filesys/synchdisk.cc:72-109 | the same over every run |
| `DiskRequests.LastWriteStays` | nachos-3.4/code/machine/disk.cc:115-153 | from the steps alone: in every run each sector holds the bytes of the last write to it that was issued, and at most one request is without its interrupt |
| `DiskRequests.ReturnsWhatWasAsked` | nachos-3.4/code/filesys/synchdisk.cc:72-97 | a caller that returns, in any run, has had its interrupt; a writer leaves the bytes it was called with on the sector it was called for, and a reader has the bytes last written there |
| `DiskRequests.IdleMeansRequest` | nachos-3.4/code/filesys/synchdisk.cc:72-109 | when nothing can run and a caller has not returned, a request is under way |
| `PostOffices.MailRoundTrip` | nachos-3.4/code/network/post.cc:264-284 | a message survives both headers and the padding byte for byte |
| `PostOffices.StepNetInv` | nachos-3.4/code/network/post.cc:221-291 | a message-available token, pending or held, exists exactly when the inbox is full; a send interrupt or its token exactly while the holder of the send lock waits for it; and no step loses, adds, changes or reorders a message the network carries |
| `PostOffices.NothingElseLost` | nachos-3.4/code/network/post.cc:221-316 | in every run, what a box's readers got, what is in the box and what is on its way are exactly the messages sent to it that the network did not lose, in order, each as from the machine that sent it |
| `PostOffices.LossOnly` | nachos-3.4/code/network/post.cc:221-316 | what a box's readers get is a subsequence of the messages that the run's send events address to it |
| `PostOffices.SubCounts` | nachos-3.4/code/machine/network.cc:60-139 | no message arrives more often than it was sent |
| `PostOffices.ReceiveAssertions` | nachos-3.4/code/network/post.cc:228-245 | the receiver's assertions on frames and messages never fail, and the inbox is full whenever it is read |
| `Lists.InsertedSorted` | nachos-3.4/code/threads/list.cc:244-268 | insertion keeps a list sorted and goes behind every equal key |
| `Lists.InsertedElements` | nachos-3.4/code/threads/list.cc:244-268 | insertion adds the one element |
| `Lists.List.Append` | nachos-3.4/code/threads/list.cc:76-88 | the contents grow by one at the end; `last` stays the final reachable element |
| `Lists.List.Prepend` | nachos-3.4/code/threads/list.cc:102-114 | the contents grow by one at the front |
| `Lists.List.SortedInsert` | nachos-3.4/code/threads/list.cc:244-268 | the item goes in front of the first element with a greater key |
| `Lists.List.SortedRemove` | nachos-3.4/code/threads/list.cc:283-303 | takes the first element and its key, or reports an empty list |
| `Lists.List.Remove` | nachos-3.4/code/threads/list.cc:124-128 | takes the first item, or reports an empty list |
| `Lists.List.RemoveItem` | nachos-3.4/code/threads/list.cc:140-192 | deletes exactly the first occurrence, wherever it is, and nothing else moves |
| `Interrupts.CheckDue` | nachos-3.4/code/machine/interrupt.cc:290-336 | handling an interrupt leaves one fewer due, whatever its handler schedules |
| `Interrupts.DrainedExactly` | nachos-3.4/code/machine/interrupt.cc:150-179 | a tick handles exactly the due entries, in the order of their times, and leaves only later ones |
| `Interrupts.IdleLeaves` | nachos-3.4/code/machine/interrupt.cc:215-217 | the idle loop leaves only later entries, if and only if the queue it starts with does not end in a due timer with no further requests before it; otherwise it leaves exactly that timer |
| `Interrupts.IdledLeaves` | nachos-3.4/code/machine/interrupt.cc:210-234 | the same for the whole of Idle, with its first, clock-advancing check |
| `Interrupts.DueTimerCanRemain` | nachos-3.4/code/machine/interrupt.cc:314-319 | a run from boot after which Idle goes on and leaves a due timer |
| `Interrupts.RunOk` | nachos-3.4/code/machine/interrupt.cc:150-336 | over any run with any handlers interrupts fire in the order of their times and none before its time, the clock never goes back, and ticks are idle plus system plus user |
| `Interrupts.RequestsConserved` | nachos-3.4/code/machine/interrupt.cc:264-336 | over any run, each interrupt has been handled or is pending exactly as often as it was asked for, by the code that was interrupted and by handlers, with its own handler and argument |
| `Interrupts.NeverEarly` | nachos-3.4/code/machine/interrupt.cc:264-336 | every interrupt handled in any run was asked for, at some time, by somebody, and is handled no earlier than that time plus the delay asked for |
| `Interrupts.TickAccounts` | nachos-3.4/code/machine/interrupt.cc:150-179 | a tick is 10 units of system time or 1 of user time and nothing else; a context switch is asked for exactly if some handler run in the tick asked for it, or one was owed before |
| `Interrupts.IdleAccounts` | nachos-3.4/code/machine/interrupt.cc:210-234 | idling moves the clock to the first entry and counts that time as idle; it gives up exactly when nothing, or only a timer, is pending |
| `Interrupts.Interrupt.Schedule` | nachos-3.4/code/machine/interrupt.cc:264-275 | the queue gains exactly one entry, with the handler, argument and kind asked for, due `fromNow` after the present, at its place in the order |
| `Interrupts.Interrupt.CheckIfDue` | nachos-3.4/code/machine/interrupt.cc:290-336 | the heap-level code does what the function on queues does |
| `Interrupts.Interrupt.OneTick` | nachos-3.4/code/machine/interrupt.cc:150-179 | advances the clock by the mode's tick and drains the queue; the loop ends; reports a context switch exactly if a handler run in this tick asked for one, or one was owed before |
| `Interrupts.Interrupt.Idle` | nachos-3.4/code/machine/interrupt.cc:210-234 | moves the clock to the next interrupt and handles what is due, or reports that there is nothing to wait for |
| `Interrupts.Interrupt.SetLevel` | nachos-3.4/code/machine/interrupt.cc:114-127 | time advances, and a context switch can be asked for, exactly when interrupts go from off to on |
| `Disks.SeekPerTrack` | nachos-3.4/code/machine/disk.cc:179-194 | a seek costs 500 for each track moved, in either direction |
| `Disks.ModuloDiffMeans` | nachos-3.4/code/machine/disk.cc:202-209 | the number of sectors until the target next comes under the head |
| `Disks.LatencyExact` | nachos-3.4/code/machine/disk.cc:232-253 | an unbuffered request ends exactly when its sector has passed for the first time after the seek |
| `Disks.LatencyBounds` | nachos-3.4/code/machine/disk.cc:232-253 | every latency lies in 500..31999 |
| `Disks.LongestLatency` | nachos-3.4/code/machine/disk.cc:232-253 | both bounds are reached |
| `Disks.BufferHitMeans` | nachos-3.4/code/machine/disk.cc:239-247 | a read is a buffer hit, which takes 500 ticks, exactly when the whole sector has passed since the head came to the track |
| `Disks.Disk.TimeToSeek` | nachos-3.4/code/machine/disk.cc:179-194 | seek time, and the time from then to a sector boundary |
| `Disks.Disk.ComputeLatency` | nachos-3.4/code/machine/disk.cc:232-253 | the latency as above |
| `Disks.Disk.UpdateLast` | nachos-3.4/code/machine/disk.cc:261-271 | the buffer restarts, at a sector boundary, exactly when the head moves |
| `Disks.Disk.Request` | nachos-3.4/code/machine/disk.cc:115-153 | a request on an idle disk keeps the buffer's start aligned and in the past of the next one |
| `Disks.Disk.HandleInterrupt` | nachos-3.4/code/machine/disk.cc:161-166 | the disk is idle again |
| `Translation.AccessInOneFrame` | nachos-3.4/code/machine/translate.cc:196-252 | a successful aligned access lies in one frame and inside memory |
| `Translation.WalkExact` | nachos-3.4/code/machine/translate.cc:186-255 | each exception, and success with its address, exactly when it comes about |
| `Translation.LookasideAgrees` | nachos-3.4/code/machine/translate.cc:211-234 | a buffer of copies gives on every hit what the page table gives, and a page fault on every miss |
| `Translation.LoadedLowBytes` | nachos-3.4/code/machine/translate.cc:87-169 | a stored value comes back modulo the width: a byte in -128..127, a short in 0..65535, a word as it was |
| `Translation.ReadAfterWrite` | nachos-3.4/code/machine/translate.cc:87-169 | a load after a store of the same width agrees modulo the width |
| `Translation.Machine.Translate` | nachos-3.4/code/machine/translate.cc:186-255 | the exceptions in their order; on success the one entry becomes used, and dirty exactly if it was or this is a store; every other bit of every entry stays |
| `Translation.Machine.ReadMem` | nachos-3.4/code/machine/translate.cc:87-122 | the value of the translated bytes, or the exception; use bit as above |
| `Translation.Machine.WriteMem` | nachos-3.4/code/machine/translate.cc:137-169 | changes exactly the translated bytes, or nothing and the exception; use and dirty bits as above |
| `AddrSpaces.MemoryManager.AllocatePage` | nachos-3.4/code/userprog/memorymanager.cc:31-35 | takes a free frame, or -1 exactly when there is none |
| `AddrSpaces.MemoryManager.DeallocatePage` | nachos-3.4/code/userprog/memorymanager.cc:37-45 | frees a frame in use, and refuses any other |
| `AddrSpaces.AddrSpace.ReadFile` | nachos-3.4/code/userprog/addrspace.cc:218-225 | lays the part of the file over the image and touches no other frame |
| `AddrSpaces.FlatOverlays` | nachos-3.4/code/userprog/addrspace.cc:126-142 | zeros, then code, then data, give data bytes, else code bytes, else zero |
| `AddrSpaces.FlatPlaces` | nachos-3.4/code/userprog/addrspace.cc:126-142 | each byte of the data and, where the data does not cover it, of the code is at its own address, and every other byte is zero |
| `AddrSpaces.HeaderReadBack` | nachos-3.4/code/userprog/addrspace.cc:82-93 | a file that starts with the ten words of a header in the order of the format is read as having that header |
| `AddrSpaces.PagesCover` | nachos-3.4/code/userprog/addrspace.cc:97-101 | the pages are the least that cover code, initialised and uninitialised data and a stack of 1024 bytes |
| `AddrSpaces.AddrSpace.Load` | nachos-3.4/code/userprog/addrspace.cc:80-147 | refused, with nothing changed, exactly for a bad magic number or too few frames; otherwise the least number of pages that covers the three segments and the stack, holding the flat image, whatever frames were given and whatever they held |
| `AddrSpaces.AddrSpace.Copy` | nachos-3.4/code/userprog/addrspace.cc:241-282 | not valid, with nothing changed, exactly when too few frames are free; otherwise an equal image in newly taken frames, and no other frame changes |
| `AddrSpaces.AddrSpace.Destroy` | nachos-3.4/code/userprog/addrspace.cc:291-302 | returns exactly its frames; the assertion on each never fails |
| `AddrSpaces.AddrSpace.RestoreState` | nachos-3.4/code/userprog/addrspace.cc:358-362 | the machine translates through this space's table |
| `Paging.FramesConserved` | nachos-3.4/code/userprog/addrspace.cc:241-302 | free frames plus the pages of all live spaces are the whole memory |
| `Paging.WalkInImage` | nachos-3.4/code/machine/translate.cc:186-255 | an access succeeds exactly when it is aligned and inside the image |
| `Paging.StoreIsolated` | nachos-3.4/code/machine/translate.cc:137-169 | a store through one page table changes no byte of any other image |
| `Paging.FetchedBytes` | nachos-3.4/code/machine/translate.cc:87-122 | a fetch returns the bytes of the image |
| `Paging.StepRefines` | nachos-3.4/code/userprog/addrspace.cc:80-302 | every operation refines the map from processes to images and keeps frames disjoint |
| `Paging.RunRefines` | nachos-3.4/code/userprog/addrspace.cc:80-302 | the same over every run, with no frame lost |
| `Paging.ReplayIsolated` | nachos-3.4/code/machine/translate.cc:137-169 | over any run, a process that is not replaced or ended sees its own stores and nothing else |
| `Paging.ForkThenRun` | nachos-3.4/code/userprog/exception.cc:143-157 | after a fork, over any run, parent and child each see the image of the fork with their own stores only |
| `Processes.System.Load` | nachos-3.4/code/userprog/addrspace.cc:80-147 | loading through the objects is a step of the paging system |
| `Processes.System.Fork` | nachos-3.4/code/userprog/exception.cc:143-157 | a fork, refused exactly when too few frames are free, is a step of the paging system |
| `Processes.System.Destroy` | nachos-3.4/code/userprog/addrspace.cc:291-302 | so is the destruction of a space |
| `Processes.System.Store` | nachos-3.4/code/machine/translate.cc:137-169 | so is a user store, with the translation's answer |
| `Processes.System.Fetch` | nachos-3.4/code/machine/translate.cc:87-122 | so is a user load, with the translation's answer and the image's bytes |
| `Processes.Run` | nachos-3.4/code/userprog/addrspace.cc:80-302 | from boot, any legal sequence of operations on the objects leaves each program the image of the simple model, and loses no frame |
| `Mips.Mult` | nachos-3.4/code/machine/mipssim.cc:635-692 | the exact signed or unsigned 64-bit product of every pair of words |
| `Mips.Product` | nachos-3.4/code/machine/mipssim.cc:657-678 | the shift-and-add loop, with its early exit and arithmetic shift, gives the unsigned product |
| `Mips.NegateDouble` | nachos-3.4/code/machine/mipssim.cc:680-688 | complementing two words with a carry is two's complement of the pair |
| `Mips.Add` | nachos-3.4/code/machine/mipssim.cc:125-133 | traps exactly when the signed sum does not fit |
| `Mips.AddImmediate` | nachos-3.4/code/machine/mipssim.cc:135-143 | traps exactly when the signed sum does not fit |
| `Mips.Sub` | nachos-3.4/code/machine/mipssim.cc:457-465 | traps exactly when the signed difference does not fit |

## Left out

- FileHeaders.FileHeader.Allocate: a size that needs more than 30 data sectors, all of them free, is the caller's error, because the source would write past its table.
- FileSystems.FileSystem.Create: a size that needs more than 30 and at most 1024 data sectors is the caller's error, because the header's table has 30 slots and the source does not check.
- OpenFiles.OpenFile.WriteAt: a negative position, or a position and length whose sum overflows an int, is the caller's error, as in the source.
- OpenFiles.OpenFile.ReadAt: the same positions are the caller's error.
- OpenFiles.OpenFile.ReadRest: the same, for a buffer so large that the seek position plus its size overflows an int.
- FileRuns.Copy: the host's file is a sequence of bytes of a size that Create can be asked for.
- FileRuns.Run: a file is not removed while a handle on it is open; the source leaves that to its callers.
- Release with its argument set to false, and conditions used with more than one lock: the kernel model has one fixed lock for each condition, as the interface requires.
- Fairness and termination of user code: runs are arbitrary, so no thread is promised the processor.
- Reclaiming every finished thread: a finished thread's carcass can be forgotten when control passes to a new thread.
- AddrSpaces.AddrSpace.Load: an executable whose segments lie outside the space its sizes ask for makes the source index past its page table; such files are the caller's error.
- AddrSpaces.AddrSpace.Copy: the source's early return when frames run out keeps the allocator's lock, which is not part of this model.
- The locks around the frame allocator: the paging model runs one operation at a time.
- The mail layer takes semaphores and mailboxes at their specification, proved for the kernel and for `SynchLists`, instead of running on the kernel model again.
- Context switching, stacks and register saving: a switch is a change of the current thread.
- Process exit, join, kill and exec, system call dispatch, the console, the timer device, the elevator and the other exercises.
- The rest of the MIPS instruction set.
- Host files and sockets: the disk is an array of sectors and the network a queue of frames that may lose some.
- Debug output, statistics and printing.
