# MMURTL/RS in Dafny

A verified model of the stateful core of the MMURTL/RS kernel: the SMP scheduler
with its request-block IPC, the arm64 ASID pool, the FAT12/16/32 driver, the slab
heap and its growth, virtqueue ownership, the frame allocator with user address
spaces, and the ELF loader. `dafny verify dfyconfig.toml` checks the whole project.

The model follows the code's own form. What the kernel updates in place is a class
whose methods are proved against functions of the state before; what it computes is
a function. Protocols are state machines: a world, the labels of its steps, and
lemmas about every run.

| files | what they model |
|---|---|
| `Base` | shared values |
| `Scheduler`, `SchedulerObject` | the scheduler's operations as functions, and the class that updates them in place |
| `SchedulerRuns`, `SchedulerIpc`, `SchedulerCalls`, `SchedulerEarlyReply`, `SchedulerFairness`, `SchedulerSleep` | all CPUs as one state machine: stacks and slots, blocking IPC, what its calls return, a run that breaks its pairing, round robin, time |
| `Asid`, `AsidObject`, `AsidRuns` | the tag pool, and the pool together with every CPU's TLB and loaded root |
| `FatTable`, `FatNames`, `FatReader`, `FatShort`, `FatDirectory`, `FatFormat`, `FatBoot` | table entries, long names, the loops over directory slots, short names, what a directory shows between two writes, the format byte by byte, boot sectors |
| `FatVolume`, `FatTrace`, `FatCrash`, `FatTear`, `FatReading`, `FatDriver` | chains and contents, the states a disk goes through, what each shows, a FAT12 link cut in half, what a driver reads from them, and the driver |
| `SlabModel`, `SlabHeap`, `HeapPages`, `KernelHeap` | slots and encoded free lists, the slab heap in memory, page backing, the kernel allocator |
| `VirtioModel`, `VirtioQueue` | descriptor ownership, queues, network receive |
| `Frames`, `PageTables`, `SpaceWorld`, `TearDown`, `AddressSpaces` | frames, page-table trees, disjoint spaces in memory, address spaces |
| `Elf`, `ElfParse`, `ElfHeaders`, `UserPlan`, `UserLoad`, `ElfLoad` | the parser against a declarative specification, the headers by their bytes, and what a loaded program sees |

## Main results

- **No two CPUs on one stack.** In every reachable state, also while the scheduler
  lock is held across a switch, no two CPUs stand on the same stack and none stands on
  a stack the reaper has released (`StackSafety`, `ReapedForever`).
- **Nobody hangs, nothing is lost.** Blocked senders have live targets and empty reply
  slots, requests arrive in order, and replies answer the requests they are paired with
  (`NothingLost`, `OneToOne`, `ReplyAnswersItsRequest`).
- **A call returns its own answer.** In every run, what send_rqb returns is the very block
  the task it was sent to replied with, or the notice of its exit (`SendReturns`).
- **Nobody is woken early.** A sleeper sleeps until the first switch at or after its
  deadline, on a clock that counts the ticks of CPU 0 (`SleepsOn`, `ClockCounts`).
- **Bounded bypass.** While no slot is appended, a runnable task waits for at most as many
  switches as its distance from the cursor (`BoundedBypass`).
- **ASID isolation.** A CPU never uses another space's translation, through rollovers
  and reuse of roots (`Isolation`).
- **Files survive a power cut.** In every state of the disk during a creation, overwrite or
  mkdir, also when the device stops, a directory the driver keeps shows its complete old items
  or its complete new ones; an entry being deleted is there with its contents, at times under
  its alias, or gone (`Create`, `Overwrite`, `Mkdir`, `Delete`). A driver that mounts such a
  disk reads accordingly (`CreateCut`, `OverwriteCut`, `DeleteCut`). The one exception is a
  FAT12 directory whose last cluster has its table entry in two sectors, while it grows;
  `HalfLinkShows` is the exact condition.
- **What was written is read.** After a creation or an overwrite the file reads as exactly its
  data, after a deletion not at all, and other names as before (`CreateThenRead`,
  `OverwriteThenRead`, `DeleteThenRead`).
- **No cluster is lost.** A creation changes the table in the new chain and that of its
  directory only, an overwrite also frees the old chain, a deletion frees its chain, and a
  refused creation leaves at most a longer directory (`Create`, `Overwrite`, `Mkdir`, `Delete`).
- **Names round-trip** (`RoundTrip`), and no string means two files (`LookupUnique`).
- **Probe accepts exactly the boot sectors that mean a volume**, and returns what they mean
  (`ProbeMeans`, `MeansProbe`).
- **The heap is never found corrupt** under any sequence of its own calls and its
  clients' writes to live objects; live objects never overlap; a free succeeds exactly
  for a live object (`Allocate`, `Deallocate`, `LiveDisjoint`).
- **A device cannot break the descriptor partition**, whatever it reports (`PopUsed`), and reads
  in every published chain exactly the buffers posted (`Submit`). What is
  copied of a received frame lies in the posted buffer, whatever length it reports, exactly if
  the caller's room does not exceed the buffer without its header (`Recv`, `EveryFrameInside`).
- **Frames are conserved.** Free frames and the frames of all spaces are disjoint;
  a failed load, or a load followed by a release, gives back every frame
  (`FreeAddressSpace`, `LoadElf`, `LoadElfThenRelease`).
- **A loaded program sees its image**: byte for byte, through the page tables, with
  relocations and the rights that the file's own headers give, RELRO included, and nothing
  else (`LoadElf`, `LoadedRuns`, `FileLoaded`).

## Where code and documentation disagree

The model follows the code.

- README.md:278 speaks of cooperative multitasking with priority queues. The scheduler is
  a preemptive round robin; the only priority it looks at is 31.
- src/scheduler/task.rs:47 calls 31 the lowest priority. It is also the idle priority,
  and a task created with it never runs (`AddedLowestStarves`).
- src/scheduler/mod.rs:804-805 describes a reply as an answer to a blocked sender. A reply is
  also accepted before its request has been received, and leaves a request behind that
  nobody waits on, as in the run of `EarlyReply`; `PairingNeedsDiscipline` is the exact
  condition.
- README.md:174 promises long names of up to 255 UTF-16 units including Unicode. A name
  with U+FFFF is written but read back under its alias (`RoundTrip`, `LongNameExactly`).
- src/fs/fat.rs:493-498 hides whatever follows the old end marker behind a new one and
  ignores incomplete long names. Between the two writes the slots in front of the new
  marker can still show stale records, as in `StaleRecordShows`; `InsertCut` says exactly when.
- src/fs/fat.rs:194 notes that a FAT12 entry can lie in two sectors. Between their writes a
  growing directory can be unreadable, as in `HalfLinked341`; `HalfLinkShows` says exactly when.
- src/virtio/net.rs:183 bounds a copy by the caller's buffer, not by the posted one. A longer
  report can make it reach past the posted buffer, as in `LongReport`; `FrameInside` says
  exactly when, and the kernel's own caller is safe.

## Model

| member | source | states |
|---|---|---|
| SchedulerModel.ScanFirst | src/scheduler/mod.rs:262-284 | the round-robin scan returns the eligible task at the smallest distance after the cursor, and falls back to idle only when no task is eligible |
| SchedulerModel.CollectTakes | src/scheduler/mod.rs:155-176 | of the tasks to be reaped exactly as many are left as there was no room for, and a collection changes nothing else about any task |
| SchedulerModel.PostStatus | src/scheduler/mod.rs:319-341 | a request is refused as invalid exactly for the sender itself, as not found exactly if no live task has the id, and as busy only for an inbox of 32 |
| SchedulerModel.ReplyStatus | src/scheduler/mod.rs:370-383 | a reply is refused as not found exactly if no live task has the id, and otherwise only if that task does not wait for this one |
| SchedulerModel.Kicks | src/scheduler/mod.rs:288-352 | a post or a reply that readies a task names the first other CPU that idles, if there is one, and a post that readies none names nobody |
| SchedulerRuns.CoreStep | src/scheduler/mod.rs:127-416 | every step of the state machine (each locked section, and the three parts of a context switch) keeps the stack and slot invariant |
| SchedulerRuns.OnTickEffect | src/scheduler/mod.rs:185-257 | what a switch does to every task: sleepers past their deadline woken, the current task parked with its context, the chosen task eligible (or the CPU's idle task) and marked Running here, all others unchanged |
| SchedulerRuns.StackSafety | src/scheduler/mod.rs:495-537 | in every reachable state, lock free or held across the switch: no two CPUs stand on one stack, none stands on a reaped task's stack, `on_cpu` and `current` are inverse, and with the lock free each CPU stands on its current task's stack |
| SchedulerRuns.ReapedForever | src/scheduler/mod.rs:155-176 | after the reaper has released a task no CPU stands on its stack again, in any continuation |
| SchedulerRuns.SlotReuse | src/scheduler/mod.rs:144-152 | the slot a new task takes over is no CPU's current or idle slot, its old task is gone, and no other slot changes |
| SchedulerRuns.ResumesWhereItLeft | src/scheduler/mod.rs:221-257 | a task is resumed with exactly the context it was last switched out with |
| SchedulerIpc.WaitStep | src/scheduler/mod.rs:319-407 | every step keeps the blocking invariant of send, receive and reply |
| SchedulerIpc.NothingLost | src/scheduler/mod.rs:319-407 | in every reachable state: a sender blocked on a reply has an empty reply slot and a live target, a receiver blocked on a request has an empty inbox, no inbox exceeds 32, and what was received is a prefix of what was posted, in order |
| SchedulerIpc.NeverReblocks | src/scheduler/mod.rs:768-780 | a sender that comes back from its yield finds its reply: the branch that blocks it again is never taken |
| SchedulerIpc.PairStep | src/scheduler/mod.rs:319-407 | every step in which tasks reply only to requests they hold keeps requests and blocked senders paired |
| SchedulerIpc.OneToOne | src/scheduler/mod.rs:319-383 | in every such run, the requests a live task holds or has queued and the tasks blocked on it correspond one to one, each with the very request it posted |
| SchedulerIpc.ReplyAnswersItsRequest | src/scheduler/mod.rs:370-383 | replying to a held request succeeds, wakes exactly the task that posted it with the stamped answer, and touches no other task |
| SchedulerCalls.LogStep | src/scheduler/mod.rs:735-800 | every step keeps a log of all calls in order: each call with the request as posted, the answer given to it and the block returned from it |
| SchedulerCalls.SendReturns | src/scheduler/mod.rs:759-785 | in every run, a block returned from send_rqb is the very one, in service, status, data, sender and receiver, that the task the request was sent to replied with, or the notice of status 9 left by its exit; a task has at most one call open |
| SchedulerCalls.AnswerStays | src/scheduler/mod.rs:370-383 | an answer once given to a live task is never replaced |
| SchedulerCalls.RunHasLog | src/scheduler/mod.rs:735-800 | every run of the scheduler has such a log |
| SchedulerIpc.PairingNeedsDiscipline | src/scheduler/mod.rs:370-383 | post_reply also accepts a reply to a request still in the inbox: an accepted reply keeps the pairing if and only if the request had been received |
| SchedulerEarlyReply.EarlyReply | src/scheduler/mod.rs:370-383 | a run from boot that ends with a reply being accepted while its request is still in the inbox, after which requests and blocked senders no longer correspond |
| SchedulerFairness.PickCloser | src/scheduler/mod.rs:262-284 | each pick takes a given eligible slot or strictly shortens the cursor's distance to it |
| SchedulerFairness.TableGrows | src/scheduler/mod.rs:144-152 | in any run the task table never shrinks and the cursor stays a slot of it |
| SchedulerFairness.BoundedBypass | src/scheduler/mod.rs:262-284 | in any run that appends no slot, a runnable task has run by the time as many switches have happened, on any mix of CPUs, as its distance from the cursor |
| SchedulerFairness.LowestPriorityStarves | src/scheduler/task.rs:50-53 | the lowest priority equals the idle priority, so an ordinary task created at it never runs, in any run |
| SchedulerFairness.AddedLowestStarves | src/scheduler/task.rs:50-53 | adding a task at priority 31 reaches that state: it never runs |
| SchedulerSleep.ClockCounts | src/scheduler/mod.rs:185-207 | over any run the clock has advanced by the number of timer ticks of CPU 0 |
| SchedulerSleep.SwitchWakes | src/scheduler/mod.rs:200-207 | a switch on any CPU leaves asleep exactly the sleepers whose deadline is still to come, and puts nobody to sleep |
| SchedulerSleep.FallsAsleep | src/scheduler/mod.rs:410-415 | going to sleep changes nothing but the state and the deadline of the caller |
| SchedulerSleep.SleepsOn | src/scheduler/mod.rs:185-257 | in any run a task that has gone to sleep sleeps until the first switch at or after its deadline |
| SchedulerSleep.NeverEarly | src/scheduler/mod.rs:200-207 | so nobody is woken before its deadline, whatever other tasks do |
| SchedulerObject.Scheduler.constructor | src/scheduler/mod.rs:115-123 | the empty scheduler |
| SchedulerObject.Scheduler.RegisterCpu | src/scheduler/mod.rs:127-140 | the running context becomes the CPU's pinned idle task and current task |
| SchedulerObject.Scheduler.AddTask | src/scheduler/mod.rs:144-151 | the new task replaces the first reaped slot, or is appended |
| SchedulerObject.Scheduler.CollectExited | src/scheduler/mod.rs:155-176 | marks and reports exactly the exited, unreaped tasks on no CPU, in order, up to the capacity |
| SchedulerObject.Scheduler.PickNext | src/scheduler/mod.rs:262-284 | the loop over the table computes the specified scan and cursor |
| SchedulerObject.Scheduler.WakeSleepers | src/scheduler/mod.rs:200-207 | readies exactly the sleepers whose deadline has passed |
| SchedulerObject.Scheduler.OnTick | src/scheduler/mod.rs:185-257 | the in-place switch refines the specified one, including the untouched return on an unregistered CPU |
| SchedulerObject.Scheduler.FindLive | src/scheduler/mod.rs:311-315 | the first slot with the id that is not exited |
| SchedulerObject.Scheduler.FindIdleCpu | src/scheduler/mod.rs:288-295 | the first registered CPU, other than the excluded one, that runs its idle task |
| SchedulerObject.Scheduler.MakeReady | src/scheduler/mod.rs:345-352 | wakes a task only from the given state, and only then names a CPU to kick |
| SchedulerObject.Scheduler.PostRequest | src/scheduler/mod.rs:319-341 | stamps and queues a request and blocks its sender, or refuses it for the sender itself, a target that is not alive or a full inbox |
| SchedulerObject.Scheduler.TakeRequest | src/scheduler/mod.rs:355-367 | the oldest request, or blocks the receiver if asked to |
| SchedulerObject.Scheduler.PostReply | src/scheduler/mod.rs:370-383 | delivers the reply only to a live task waiting for this one |
| SchedulerObject.Scheduler.TakeReply | src/scheduler/mod.rs:768-780 | takes exactly the block that lies in the caller's reply slot and empties it, or blocks again if there is none |
| SchedulerObject.Scheduler.MarkExited | src/scheduler/mod.rs:388-407 | empties the inbox and gives every sender waiting for the exiting task an Aborted reply; looks for a CPU to kick exactly if there was one |
| SchedulerObject.Scheduler.SleepUntil | src/scheduler/mod.rs:410-415 | puts the current task to sleep until its deadline |
| AsidPool.AllocateSpec | src/arch/arm64/asid_pool.rs:33-40 | the wrap-around search returns a tag in range that was not used and marks only it |
| AsidPool.AllocateComplete | src/arch/arm64/asid_pool.rs:33-40 | it fails if and only if every tag up to the limit is used |
| AsidPool.NewPoolInv | src/arch/arm64/asid_pool.rs:16-21 | a new pool is consistent: tags below two to the number of bits, 0 and 255 taken, no root registered or loaded |
| AsidPool.RegisterInv | src/arch/arm64/asid_pool.rs:27-30 | registering succeeds if and only if some slot has root 0; it then puts the root in the first of them and changes nothing else, and otherwise changes nothing; the pool stays consistent |
| AsidPool.ReleaseInv | src/arch/arm64/asid_pool.rs:79-83 | releasing a root active nowhere empties its slot, changes nothing else and keeps the pool consistent |
| AsidPool.RolloverSpace | src/arch/arm64/asid_pool.rs:41-54 | what a rollover leaves in each slot: only roots loaded on some CPU get the new generation, and with the tag they already had |
| AsidPool.RolloverUsed | src/arch/arm64/asid_pool.rs:41-54 | after a rollover a user tag is in use if and only if some CPU runs with it |
| AsidPool.RolloverInv | src/arch/arm64/asid_pool.rs:41-54 | a rollover keeps the pool consistent |
| AsidPool.StaleIsNotRenewed | src/arch/arm64/asid_pool.rs:64-67 | a root that needs a tag is loaded nowhere, so the case that the rollover has already renewed it never arises |
| AsidPool.ActivateInv | src/arch/arm64/asid_pool.rs:57-75 | every activation keeps the pool consistent, whatever it returns |
| AsidPool.NoTagExactly | src/arch/arm64/asid_pool.rs:57-75 | activation finds no tag if and only if the root needs one and every user tag is loaded on some CPU |
| AsidPool.EnoughTags | src/arch/arm64/asid_pool.rs:57-75 | with two more tags than CPUs it always finds one |
| AsidRuns.StepInv | src/arch/arm64/mmu.rs:611-628 | every step of pool, TLBs and loaded roots, also between a rollover and its flush, keeps the isolation invariant |
| AsidRuns.Isolation | src/arch/arm64/mmu.rs:611-628 | in every reachable state, through rollovers and reuse of freed roots: a CPU running with a tag finds under it only translations of the space it runs, none under the empty root, and no two current spaces share a tag |
| AsidObject.Asids.constructor | src/arch/arm64/asid_pool.rs:16-21 | a pool of the given width with tags 0 and 255 reserved |
| AsidObject.Asids.FindRoot | src/arch/arm64/asid_pool.rs:59 | the first slot of a root |
| AsidObject.Asids.Register | src/arch/arm64/asid_pool.rs:27-30 | takes the first empty slot, or reports that there is none |
| AsidObject.Asids.Allocate | src/arch/arm64/asid_pool.rs:33-40 | the loop refines the specified search |
| AsidObject.Asids.Rollover | src/arch/arm64/asid_pool.rs:41-54 | the loop over the CPUs refines the specified rollover and keeps the invariant |
| AsidObject.Asids.Activate | src/arch/arm64/asid_pool.rs:57-75 | refines the specified activation and keeps the invariant |
| AsidObject.Asids.CurrentTag | src/arch/arm64/asid_pool.rs:76-78 | a tag exactly for a root of the current generation |
| AsidObject.Asids.Release | src/arch/arm64/asid_pool.rs:79-83 | empties the root's slot and nothing else |
| FatTable.SetThenGet | src/fs/fat.rs:143-189 | for all three widths: reading back a written entry gives the value's low bits, and no other entry changes |
| FatTable.SetGet32 | src/fs/fat.rs:183-188 | a FAT32 write keeps the four reserved high bits of the entry |
| FatTable.SharedByte | src/fs/fat.rs:168-178 | a FAT12 write keeps the half byte that belongs to the neighbouring entry |
| FatTable.StraddlesExactly | src/fs/fat.rs:190-203 | an entry lies in two sectors if and only if it is a 12-bit one whose first byte ends a sector |
| FatTable.HalfSetGet | src/fs/fat.rs:190-203 | with one of its two sectors written, a FAT12 entry reads as a mix of old and new and every other entry as before |
| FatTable.BetweenSectors | src/fs/fat.rs:190-203 | the table after the first sector write of an entry is the half-set one if the entry lies in two sectors, and the new one otherwise |
| FatTable.ListsSet | src/fs/fat.rs:143-205 | writing an entry of the packed bytes changes that one number of the list of entries the driver's proofs are about |
| FatTable.ListsHalfSet | src/fs/fat.rs:161-203 | and half a write changes it to the torn value |
| FatTable.ProbeSound | src/fs/fat.rs:820-946 | for every boot sector probe accepts: each cluster has an entry inside the table and a number that never reads as end of chain; tables, root and data lie in order inside the region; a FAT32 root and active table exist |
| FatTable.Table.constructor | src/fs/fat.rs:908-939 | a table as read from the active copy |
| FatTable.Table.WriteSector | src/fs/fat.rs:130-142 | a refused write changes nothing and stops the volume |
| FatTable.Table.StoreCopy | src/fs/fat.rs:190-203 | the sectors of one copy that hold the entry equal the cache afterwards, no other synced sector is lost |
| FatTable.Table.GetEntry | src/fs/fat.rs:143-160 | the entry of a valid cluster |
| FatTable.Table.SetEntry | src/fs/fat.rs:161-205 | on success the cache and every maintained copy hold the entry, so synced copies stay synced; failure only for an invalid cluster or a refused write |
| FatNames.DecodeUnits | src/fs/fat.rs:655 | decoding the UTF-16 units of any text gives the text |
| FatNames.LongNameExactly | src/fs/fat.rs:642-662 | a padded long name is read back if and only if it contains no U+FFFF |
| FatNames.RotatedBits | src/fs/fat.rs:540-544 | the rotation moves every bit of a byte one place down and the lowest to the top |
| FatNames.ChecksumFolds | src/fs/fat.rs:540-544 | the sum is the last of the partial sums, rotated and added modulo 256 from the first byte on |
| FatNames.ReadmeSum | src/fs/fat.rs:540-544 | the sum of the short name of README.TXT is 115 |
| FatNames.WalkEntrySet | src/fs/fat.rs:595-686 | an entry set read anywhere in a directory yields exactly one record and leaves no half-read name |
| FatNames.RoundTrip | src/fs/fat.rs:769-802 | writing an entry set and reading it gives one record with the alias, attributes, cluster and size written, and the name written if and only if it has no U+FFFF or is its own alias |
| FatFormat.TwelveBits | src/fs/fat.rs:143-160 | two 12-bit entries in three bytes, nibble by nibble |
| FatFormat.WideEntries | src/fs/fat.rs:143-160 | 16-bit and 28-bit entries, byte by byte |
| FatFormat.EndMarks | src/fs/fat.rs:113-122 | the values that end a chain at each width, and the one that is written |
| FatFormat.ShortBytes | src/fs/fat.rs:769-802 | every byte of a short entry: name, attribute, dates, both halves of the cluster, size |
| FatFormat.RecordBytes | src/fs/fat.rs:595-686 | what is read from the bytes of a short entry |
| FatFormat.LongBytes | src/fs/fat.rs:769-802 | every byte of a long entry: ordinal, marks, checksum and the places of its thirteen units |
| FatFormat.LongReads | src/fs/fat.rs:595-686 | exactly which long entries begin or continue a name, by the value of their first byte |
| FatFormat.DecodeOnly | src/fs/fat.rs:655 | only well-formed UTF-16 is decoded, and to the text whose units it is |
| FatFormat.LongNameOnly | src/fs/fat.rs:642-662 | a long name that is read is valid, has at most 255 units, and is ended and padded as it is written |
| FatFormat.SlotKinds | src/fs/fat.rs:603-621 | how a reader tells slots apart: 0 ends the directory, 0xe5 is deleted, attribute 0x0f belongs to a long name |
| FatFormat.ValidNames | src/fs/fat.rs:687-698 | the valid names, character by character |
| FatFormat.AliasReads | src/fs/fat.rs:564-593 | the alias of an entry: its two parts without padding, in lower case as the case byte says |
| FatFormat.ShortChars | src/fs/fat.rs:699-705 | the characters of a short name |
| FatFormat.CleanMore | src/fs/fat.rs:729-733 | a numbered short name leaves out exactly spaces and dots |
| FatBoot.ProbeMeans | src/fs/fat.rs:820-946 | a geometry probe returns is what the boot sector means, stated by its bytes and without division: regions one after the other, whole clusters, kind by their number, a table with an entry for each |
| FatBoot.MeansProbe | src/fs/fat.rs:820-946 | and probe returns it for every boot sector that has such a meaning |
| FatReader.ReadLong | src/fs/fat.rs:611-639 | the buffer, ordinal, checksum and start variables follow the specified scan over long-name slots |
| FatReader.ReadShort | src/fs/fat.rs:641-684 | the record of a short slot, under its long name if one is complete and matches |
| FatReader.ReadRecords | src/fs/fat.rs:595-686 | the loop over a fixed 260-unit buffer computes exactly the specified records, up to the end marker |
| FatReader.WriteLong | src/fs/fat.rs:777-791 | writing 13 units at their offsets into a zeroed slot lays out the specified long-name entry |
| FatReader.WriteEntrySet | src/fs/fat.rs:769-802 | the loop writes exactly the specified entry set, last part of the name first |
| FatShort.IsSimple | src/fs/fat.rs:712-718 | whether a name is its own 8.3 form |
| FatShort.DigitsOf | src/fs/fat.rs:736-743 | the decimal digits, filled in from the right |
| FatShort.IsUsed | src/fs/fat.rs:752 | whether some record has the short name |
| FatShort.ShortName | src/fs/fat.rs:706-757 | a short name no record has, of the specified form and the smallest free number; nothing only when all are taken, so never with fewer than 999,999 records |
| FatShort.NumberedInjective | src/fs/fat.rs:735-751 | different numbers give different short names, whatever the name |
| FatShort.NeverExhausted | src/fs/fat.rs:735-756 | a directory with fewer than 999,999 records leaves some number free |
| FatShort.RecordsFit | src/fs/fat.rs:331 | no directory within the 8 MiB limit holds that many records |
| FatShort.AliasIsSimple | src/fs/fat.rs:564-593 | a driver-written short name is the 8.3 form of its own alias |
| FatShort.ChosenBuilt | src/fs/fat.rs:706-757 | in a coherent directory a simple name that matches nothing always gets its direct form |
| FatShort.InsertCoherent | src/fs/fat.rs:459-506 | a new record keeps short names, names and aliases unambiguous |
| FatShort.RemoveCoherent | src/fs/fat.rs:1208-1240 | so does a deletion |
| FatShort.UpdateCoherent | src/fs/fat.rs:507-519 | so does an update |
| FatShort.LookupUnique | src/fs/fat.rs:374-377 | no string matches two records of a coherent directory, by name or by alias |
| FatDirectory.RecordsSpan | src/fs/fat.rs:595-686 | for any slots: records span consecutive slots, come in slot order and describe their short slot |
| FatDirectory.InsertCut | src/fs/fat.rs:489-505 | with the first slots of an entry set on disk, a reader sees the old directory if and only if the old end marker still stands, or the slots it hid hold no record from there on, up to the next end marker or the end of the set |
| FatDirectory.StaleRecordShows | src/fs/fat.rs:489-505 | a directory with a left-over record behind its end marker, which the first slot of an entry set makes show |
| FatDirectory.InsertInvisible | src/fs/fat.rs:489-505 | with no stale record behind the end marker, no intermediate state of an insertion shows |
| FatDirectory.InsertDone | src/fs/fat.rs:489-505 | a finished insertion adds exactly the set's record, at its place |
| FatDirectory.InsertTidy | src/fs/fat.rs:459-506 | and leaves no stray long-name slots |
| FatDirectory.UpdateDone | src/fs/fat.rs:507-519 | rewriting a short slot changes one record, in cluster and size only |
| FatDirectory.DeleteCut | src/fs/fat.rs:1229-1238 | while slots are erased from the front the record stays under its alias with the same contents, then is gone; no other record changes |
| FatDirectory.FreeSlots | src/fs/fat.rs:803-818 | the first run of free slots, counting everything after the end marker; nothing only if there is none |
| FatVolume.LinkedChain | src/fs/fat.rs:223-241 | a linked chain has no repeated cluster and is what following it finds |
| FatVolume.ProbedShape | src/fs/fat.rs:820-946 | of every volume probe accepts: sectors in a cluster, no cluster number that reads as end of chain, one or two copies of the table |
| FatVolume.GeoLimits | src/fs/fat.rs:288 | of every volume probe accepts: the chain limits are the largest within 8 MiB for a directory, and enough for every file of 16 MiB |
| FatVolume.Unseen | src/fs/fat.rs:444-458 | writes off a directory, its files' chains and everything foreign to it leave its items and contents as they were |
| FatVolume.ReadBack | src/fs/fat.rs:444-458 | data cut into padded clusters reads back |
| FatTrace.SelectDone | src/fs/fat.rs:262-271 | the search from the hint finds distinct free clusters, and after a full turn all of them |
| FatTrace.ZerosLinked | src/fs/fat.rs:276-283 | linking n free clusters lowers the number of zero entries by exactly n |
| FatCrash.InsertingShows | src/fs/fat.rs:489-505 | until its last slot is written, an insertion shows the old items with their contents |
| FatCrash.InsertedShows | src/fs/fat.rs:489-505 | after it, the old items and the complete new one, and the directory is as well kept as before |
| FatCrash.UpdatedShows | src/fs/fat.rs:507-519 | after the one sector write of an update, the new contents in place |
| FatCrash.DeletingShows | src/fs/fat.rs:1229-1238 | while it is erased an item shows under its alias, with its contents |
| FatCrash.DeletedShows | src/fs/fat.rs:1229-1238 | then it is gone and every other item is as it was |
| FatCrash.AfterAdded | src/fs/fat.rs:459-506 | the items an insertion leads to are the old ones in order and one new one, and no two of them mean the same name |
| FatCrash.NeverHalf | src/fs/fat.rs:483-487 | where no entry lies in two sectors, no state is half grown |
| FatCrash.Unbreakable | src/fs/fat.rs:483-487 | so on FAT16, on FAT32 and in a fixed root |
| FatCrash.DotsAreEmpty | src/fs/fat.rs:1187-1198 | the dot entries make an empty, well kept directory |
| FatCrash.DotBytes | src/fs/fat.rs:1187-1198 | byte by byte a dot entry: one or two dots padded with spaces, attribute 0x10, the cluster in its two halves, size 0 |
| FatCrash.RootIsZero | src/fs/fat.rs:1192 | below the root of any volume, FAT32 included, the parent entry names cluster 0 |
| FatCrash.NewDirDots | src/fs/fat.rs:1187-1198 | a new directory has an entry for itself with its own cluster, one for its parent, and nothing else |
| FatCrash.InsertEnters | src/fs/fat.rs:489-505 | the entry that was inserted is read back with its name, attribute, first cluster and size |
| FatTear.HalfLinkShows | src/fs/fat.rs:485 | between the two sector writes of its link a growing directory shows its items if and only if the torn entry reads as end of chain, or already as the new cluster |
| FatTear.HalfLinkValue | src/fs/fat.rs:485 | the same condition on the numbers of the two clusters alone |
| FatTear.HalfLinked341 | src/fs/fat.rs:485 | entry 341 half linked to cluster 0x157 reads 0xff7, and a directory that ends there cannot be read |
| FatTear.HalfLinkedAlone | src/fs/fat.rs:485 | one such table |
| FatReading.AddedRead | src/fs/fat.rs:1071-1076 | a created file reads as its data; every name that meant something reads as before |
| FatReading.ReplacedRead | src/fs/fat.rs:1071-1076 | a replaced file reads as the new data under each of its names; every other name reads as before |
| FatReading.WithoutRead | src/fs/fat.rs:1071-1076 | a removed item reads no more under any of its names; every other name reads as before |
| FatReading.CutsCreate | src/fs/fat.rs:1090-1109 | in every state a creation can be cut off in, a driver that mounts the disk reads every name that meant something as before, and the new file not at all or completely |
| FatReading.CutsReplace | src/fs/fat.rs:1126-1141 | of an overwrite: the file's old contents or the new ones, and everything else as before |
| FatReading.CutsDelete | src/fs/fat.rs:1229-1238 | of a deletion: the file as before or not at all, and everything else as before |
| FatDriver.Volume.constructor | src/fs/fat.rs:919-945 | a volume probe accepts, just mounted: cache equal to the disk, free count exact |
| FatDriver.Volume.CountFree | src/fs/fat.rs:940-944 | counts exactly the zero entries |
| FatDriver.Volume.Set | src/fs/fat.rs:161-205 | an entry written to every copy of the table, one sector at a time: in every state on the way it is the old one, the new one or, on FAT12 between its two sectors, the torn one, which does occur; on success the new one |
| FatDriver.Volume.WriteSector | src/fs/fat.rs:130-142 | the same for a sector of the data area |
| FatDriver.Volume.FindChain | src/fs/fat.rs:223-241 | the chain from a cluster unless broken, cyclic or longer than the limit |
| FatDriver.Volume.Candidate | src/fs/fat.rs:264 | the offset formula enumerates all clusters from the hint on, each once |
| FatDriver.Volume.SelectFree | src/fs/fat.rs:262-271 | distinct free clusters, fewer than asked for only if there are no more |
| FatDriver.Volume.Took | src/fs/fat.rs:282-283 | hint and free count after an allocation, the count again exact |
| FatDriver.Volume.Link | src/fs/fat.rs:276-281 | links free clusters to a chain; in every state on the way only they change |
| FatDriver.Volume.Allocate | src/fs/fat.rs:257-286 | a linked chain of clusters that were free; refused only when too few are free, and then nothing is written |
| FatDriver.Volume.Free | src/fs/fat.rs:287-297 | zeroes exactly the chain's entries, keeping the free count exact |
| FatDriver.Volume.WriteCluster | src/fs/fat.rs:310-318 | the whole cluster, sector by sector |
| FatDriver.Volume.ClustersFor | src/fs/fat.rs:448 | the least number of clusters that hold the data |
| FatDriver.Volume.WriteData | src/fs/fat.rs:444-458 | the data, zero padded, in a new chain; refused only if it does not fit, and then nothing is written |
| FatDriver.Volume.LoadDir | src/fs/fat.rs:319-340 | a directory's clusters and slots, unless too long or broken |
| FatDriver.Volume.StoreDir | src/fs/fat.rs:341-368 | in every state on the way each slot is the old or the new one, and written sectors are whole |
| FatDriver.Volume.PutEntries | src/fs/fat.rs:489-505 | in any directory: every state on the way is a cut of the insertion: new end marker, then long slots, then the short one |
| FatDriver.Volume.Grow | src/fs/fat.rs:483-487 | a cluster of end markers appended; in every state the same items, or the last cluster is half linked, which only an entry in two sectors can be |
| FatDriver.Volume.MakeRoom | src/fs/fat.rs:471-488 | a run of free slots; none only if the directory has none and cannot grow |
| FatDriver.Volume.Find | src/fs/fat.rs:374-377 | the first record a name means, by name or alias |
| FatDriver.Volume.Prepare | src/fs/fat.rs:460-470 | a fresh short name and the slots to write, unless the name is invalid, taken or the directory unreadable |
| FatDriver.Volume.Insert | src/fs/fat.rs:459-506 | in every state on the way, failed runs included, the old items, or those and the new one, or a half-grown directory; refused only for the name or for want of room, and then unchanged |
| FatDriver.Volume.Publish | src/fs/fat.rs:1102-1107 | publishes a written chain, or frees it again so that no cluster is lost; in every state, failed runs included, the old items, or those and the new one, or a half-grown directory |
| FatDriver.Volume.Stage | src/fs/fat.rs:1101 | data written to a chain no entry names yet does not show |
| FatDriver.Volume.Create | src/fs/fat.rs:1090-1109 | in every state of the disk, whether the run succeeds, is refused or is cut off, the old items, or those and the complete file, or a half-grown directory; refused only for the name, for space, or for a directory that cannot take the entry, and then unchanged; no cluster is lost: the table has changed only in the chain of the file made, if it was made, and in that of the directory, which may have grown |
| FatDriver.Volume.Update | src/fs/fat.rs:507-519 | one sector write; before it the old contents, after it the new; fails only with the device |
| FatDriver.Volume.Release | src/fs/fat.rs:1140 | freeing a chain a record has given up does not show |
| FatDriver.Volume.ReplaceFile | src/fs/fat.rs:1133-1140 | new data first, then the entry, then the old chain: every state, failed runs included, shows the complete old or the complete new contents of the one file |
| FatDriver.Volume.OverwriteAt | src/fs/fat.rs:1126-1141 | the same for a record found by name; nothing is written for a directory, a read-only file or an invalid name; on success the old chain is free and no other table entry has changed but those of the new one |
| FatDriver.Volume.Overwrite | src/fs/fat.rs:1114-1143 | in every state of the disk, failed runs included, the complete old contents or the complete new ones of the file the name means; of a new name as for a creation; a directory or a read-only file is refused with nothing written; on success the old chain is free and no cluster is lost; the reasons for a refusal |
| FatDriver.Volume.Erase | src/fs/fat.rs:1228-1238 | in every state on the way the item under its name, under its alias, or gone |
| FatDriver.Volume.Occupied | src/fs/fat.rs:1216-1224 | whether a record is a directory that shows any entry, or that cannot be read |
| FatDriver.Volume.Deletable | src/fs/fat.rs:1208-1224 | the record a name means, exactly if it is not read-only, its chain can be freed and, being a directory, it shows no entry |
| FatDriver.Volume.Delete | src/fs/fat.rs:1208-1240 | succeeds and writes only for an entry that is not read-only and is a file or a directory that shows no entry; then its chain is free and no other table entry has changed; in every state of the disk, failed runs included, the item the name means is there with its contents or gone; the reasons for a refusal |
| FatDriver.Volume.FileData | src/fs/fat.rs:424-443 | exactly the bytes of a file, and nothing exactly for a directory, a file that is too large, or a chain that is broken, short or too long |
| FatDriver.Volume.Read | src/fs/fat.rs:1071-1076 | on any directory, well kept or not: exactly the bytes of the first item the name means |
| FatDriver.Volume.CreateThenRead | src/fs/fat.rs:1071-1109 | a file created is read back, and every name that meant something reads as before |
| FatDriver.Volume.OverwriteThenRead | src/fs/fat.rs:1071-1143 | a file overwritten is read back, and every name that does not mean it reads as before |
| FatDriver.Volume.DeleteThenRead | src/fs/fat.rs:1071-1240 | a file deleted is not found, and every name that did not mean it reads as before |
| FatDriver.Volume.CreateCut | src/fs/fat.rs:1090-1109 | power fails at any moment of a creation: a remounted driver reads every old name as before, and the new file not at all or completely |
| FatDriver.Volume.OverwriteCut | src/fs/fat.rs:1114-1143 | of an overwrite: the old contents or the new ones, and everything else as before |
| FatDriver.Volume.DeleteCut | src/fs/fat.rs:1208-1240 | of a deletion: the file as before or not at all, and everything else as before |
| FatDriver.Volume.StageDir | src/fs/fat.rs:1186-1199 | a directory no entry names yet does not show; its own entry names its cluster and its parent entry the parent, or 0 below the root |
| FatDriver.Volume.Mkdir | src/fs/fat.rs:1173-1207 | in every state of the disk, failed runs included, the old items, or those and the new directory, or a half-grown directory; on success an entry of attribute 0x10 leads to a cluster whose first two slots are the dot entries of that cluster and of the parent, 0 for any root, and which holds nothing else; no cluster is lost; the reasons for a refusal |
| SlabModel.DecodeEncode | src/memory/slab.rs:75 | an encoded link decodes with the same secret and address |
| SlabModel.RequestRefused | src/memory/slab.rs:43-49 | a request is refused if and only if domain, size or alignment is out of range |
| SlabModel.RequestServed | src/memory/slab.rs:43-49 | otherwise slots are large and aligned enough, and the domain alone decides which caches |
| SlabModel.SlotsFill | src/memory/slab.rs:69 | a slab is cut into whole slots, at most 256 |
| SlabModel.SlotOfAddr | src/memory/slab.rs:29-33 | the address of a slot is found to be that slot |
| SlabModel.SlotOfIs | src/memory/slab.rs:29-33 | and only slot addresses are |
| SlabModel.Pop | src/memory/slab.rs:93-104 | taking the head leaves the rest of the encoded list and a slot of zeroes |
| SlabModel.Push | src/memory/slab.rs:118-122 | an erased slot becomes the head of the encoded list |
| SlabHeap.DecodedList | src/memory/slab.rs:92-104 | decoding from the head visits every slot that is not live exactly once and ends at 0 |
| SlabHeap.LiveDisjoint | src/memory/slab.rs:83-109 | objects handed out never overlap |
| SlabHeap.HeldExactly | src/memory/slab.rs:112-117 | the search by base address finds the slab of a pointer exactly when some slab has a live slot there, and its integrity checks pass |
| SlabHeap.Blamed | src/memory/slab.rs:112-117 | which error a pointer that may not be freed gets: no slab, inside a slot, another cache's slot, or a free slot |
| SlabHeap.Slabs.constructor | src/memory/slab.rs:55-57 | the empty heap |
| SlabHeap.Slabs.TakeFrom | src/memory/slab.rs:92-104 | the checks on the links pass; the slot was free, is live, and is zeroed |
| SlabHeap.Slabs.AllocateIn | src/memory/slab.rs:85-108 | the walk over a cache's slabs finds a free slot if there is one |
| SlabHeap.Slabs.Allocate | src/memory/slab.rs:83-109 | a slot nobody holds, large and aligned enough, all zeroes, nothing else changed; None only when the cache is full; never Corrupt |
| SlabHeap.Slabs.EraseSlot | src/memory/slab.rs:119 | zeroes the slot and nothing else |
| SlabHeap.Slabs.GiveBack | src/memory/slab.rs:118-122 | the slot is erased but for the encoded link to the old head, free, and first on the list; the counters follow |
| SlabHeap.Slabs.Deallocate | src/memory/slab.rs:110-124 | succeeds if and only if the pointer starts a live slot of the layout's cache, which is erased and becomes the head; otherwise nothing changes and the error says why, never Corrupt |
| SlabHeap.Slabs.Shuffle | src/memory/slab.rs:69-71 | any draws give a permutation |
| SlabHeap.Slabs.ThreadList | src/memory/slab.rs:72-76 | the encoded list runs through the slots in the given order |
| SlabHeap.Slabs.Add | src/memory/slab.rs:60-81 | exactly which requests and bases are accepted; the new slab is all free and the heap stays intact |
| SlabHeap.Slabs.ClientWrite | src/memory/slab.rs:58-60 | any write to a live slot leaves the heap intact |
| VirtioModel.ReservedPartition | src/virtio/ownership.rs:21-31 | reserving keeps the descriptors partitioned into the free list and disjoint chains |
| VirtioModel.CompletedPartition | src/virtio/ownership.rs:33-47 | so does completing |
| VirtioQueue.InFlightExactly | src/virtio/ownership.rs:33-38 | pending is non-zero exactly for heads in flight, and is their length |
| VirtioQueue.Ownership.constructor | src/virtio/ownership.rs:12-17 | all descriptors free, in order |
| VirtioQueue.Ownership.Poison | src/virtio/ownership.rs:19 | stops the queue and changes nothing else |
| VirtioQueue.Ownership.Tail | src/virtio/ownership.rs:24-25 | the walk along the links reaches the last descriptor |
| VirtioQueue.Ownership.Reserve | src/virtio/ownership.rs:21-31 | succeeds exactly if enough are free; takes the first of the list |
| VirtioQueue.Ownership.Complete | src/virtio/ownership.rs:33-47 | succeeds exactly for the head of a chain in flight of that length, and the expected one; anything else stops the queue and changes nothing else |
| VirtioQueue.Virtqueue.constructor | src/virtio/mod.rs:145-176 | an empty queue |
| VirtioQueue.Virtqueue.Describe | src/virtio/mod.rs:200-215 | a device that follows the descriptors by their flag bits from the head reads exactly the given buffers, with address, length and direction; no other chain's descriptors change |
| VirtioQueue.ShownReads | src/virtio/mod.rs:200-215 | from every descriptor of a chain a device, following value 1 of the flags and taking the direction from value 2, reads the buffers that remain, and stops |
| VirtioQueue.OneReading | src/virtio/mod.rs:200-215 | it can read nothing else there |
| VirtioQueue.AllShownRead | src/virtio/mod.rs:200-215 | so in all chains in flight |
| VirtioQueue.Virtqueue.Submit | src/virtio/mod.rs:198-227 | publishes the head in the next ring entry and no other; from it, and from the head of every chain in flight, a device reads exactly the buffers posted; on a refusal nothing changes |
| VirtioQueue.Virtqueue.PopUsed | src/virtio/mod.rs:236-255 | whatever the device reports the descriptors stay partitioned; a report that does not fit stops the queue |
| VirtioQueue.Recycled | src/virtio/net.rs:191-193 | a one-descriptor chain completed and submitted again gets its own descriptor |
| VirtioQueue.RxOffset | src/virtio/net.rs:181-183 | the offset worked out from a head is that of the buffer posted under it |
| VirtioQueue.FrameInside | src/virtio/net.rs:183-190 | the bytes copied lie in the posted buffer if and only if there are no more than it holds after the header |
| VirtioQueue.EveryFrameInside | src/virtio/net.rs:183-190 | whatever length a device reports, if and only if the caller's room is no larger than that |
| VirtioQueue.LongReport | src/virtio/net.rs:183-237 | with room for 2048 bytes a report of 4096 reaches past the buffer; with the driver's own 128 none does |
| VirtioQueue.NetRx.constructor | src/virtio/net.rs:89-98 | as many receive buffers posted as there are descriptors, each under its own number; the header length of the transport |
| VirtioQueue.NetRx.Recv | src/virtio/net.rs:165-197 | the range copied begins after the header of the buffer posted under the completed head, has the reported length without the header or what the caller has room for, and lies in the buffer exactly if it is no longer than that; the buffer is posted again; a bad completion disables the device |
| Frames.FrameAllocator.constructor | src/memory/frame_allocator.rs:101-136 | exactly the usable frames are free |
| Frames.FrameAllocator.Mark | src/memory/frame_allocator.rs:144-150 | the frame is taken and reads as zero |
| Frames.FrameAllocator.AllocateZeroed | src/memory/frame_allocator.rs:153-167 | a free frame that reads as zero; fails only if none is free |
| Frames.FrameAllocator.Deallocate | src/memory/frame_allocator.rs:217-229 | scrubbed before it is free; freeing a free frame changes nothing |
| PageTables.Untouched | src/arch/amd64/memory.rs:152-184 | a space whose frames are kept stays well formed |
| PageTables.AddNode | src/arch/amd64/memory.rs:152-184 | writing one entry adds one node to the tree |
| SpaceWorld.Hung | src/arch/amd64/memory.rs:152-184 | with it, free frames and the frames of all spaces are still disjoint |
| SpaceWorld.TornDown | src/arch/amd64/memory.rs:189-214 | and also after a space is freed |
| TearDown.AllBelow | src/arch/amd64/memory.rs:190-202 | the recursion from the window's top entry reaches every node |
| AddressSpaces.Translates | src/arch/amd64/memory.rs:152-184 | the processor's walk finds a page, with its rights, if and only if it is mapped |
| AddressSpaces.Spaces.constructor | src/arch/amd64/memory.rs:114-124 | no user space yet |
| AddressSpaces.Spaces.NewAddressSpace | src/arch/amd64/memory.rs:139-149 | a root that shares every kernel entry, with an empty window; fails only if no frame is free |
| AddressSpaces.Spaces.Descend | src/arch/amd64/memory.rs:154-163 | the table at a level, made from a free frame when it is missing |
| AddressSpaces.Spaces.WalkCreate | src/arch/amd64/memory.rs:152-165 | fails if and only if the missing tables outnumber the free frames, and takes exactly those |
| AddressSpaces.Spaces.MapUserPage | src/arch/amd64/memory.rs:168-184 | maps the frame with the given rights and changes no other page; its two errors exactly |
| AddressSpaces.Spaces.MapFresh | src/memory/user.rs:104-127 | a page holding the data at the offset, zero elsewhere; a frame that was not mapped is free again |
| AddressSpaces.Spaces.FreeLevel | src/arch/amd64/memory.rs:190-202 | frees every frame below a table exactly once, counting them |
| AddressSpaces.Spaces.FreeAddressSpace | src/arch/amd64/memory.rs:189-214 | frees every frame of the space exactly once and no other, and returns their number |
| AddressSpaces.Spaces.AllocSlot | src/memory/user.rs:38-53 | the first free ID from the rotation on, cyclically; fails only if all 64 are used |
| AddressSpaces.Spaces.FreeSlot | src/memory/user.rs:55-57 | frees that ID |
| AddressSpaces.Spaces.Release | src/memory/user.rs:131-135 | the space's frames and its ID |
| Elf.IsPowerOfTwo | src/memory/elf.rs:64 | whether a word is a power of two |
| Elf.Meets | src/memory/elf.rs:76-79 | whether a segment shares a page with an earlier one |
| Elf.CheckLoad | src/memory/elf.rs:63-73 | accepts exactly the well-formed load headers |
| Elf.LoadableMore | src/memory/elf.rs:48-82 | what one more header needs besides its own checks: limits, no shared page, at most one of each special kind |
| Elf.Header | src/memory/elf.rs:48-82 | one turn of the loop keeps exactly the loadable prefixes, and what it has collected |
| ElfParse.CheckHead | src/memory/elf.rs:36-45 | accepts exactly the well-formed file headers |
| ElfParse.ScanHeaders | src/memory/elf.rs:46-82 | accepts exactly the loadable header tables |
| ElfParse.FindEntry | src/memory/elf.rs:83-85 | the entry point lies in an executable segment |
| ElfParse.FindRelro | src/memory/elf.rs:86-90 | the RELRO region lies in a writable segment |
| ElfParse.FileRangeIn | src/memory/elf.rs:19-24 | a file range found through the segments lies inside the file |
| ElfParse.ScanDynamic | src/memory/elf.rs:94-106 | the dynamic table up to its first null tag, without duplicates or unsupported tags; otherwise refused |
| ElfParse.CheckRela | src/memory/elf.rs:107-124 | accepts exactly the relocation tables all of whose entries are relative, aligned, and in writable segments |
| ElfParse.ReadDynamic | src/memory/elf.rs:91-125 | the relocation table of the image |
| ElfParse.Parse | src/memory/elf.rs:35-127 | accepts exactly the images that meet the whole specification, and describes them |
| ElfHeaders.RelroIs | src/memory/elf.rs:57-60 | the RELRO region of an accepted image is what its PT_GNU_RELRO header covers, read from the bytes of the file |
| ElfHeaders.HeadBytes | src/memory/elf.rs:36-46 | the bytes of the file header of an accepted file: magic, class, type, machine and entry |
| ElfHeaders.RelocKinds | src/memory/elf.rs:107-124 | every relocation of an accepted file is the relative kind of its machine, aligned, with a bounded addend |
| ElfHeaders.CleanTags | src/memory/elf.rs:94-106 | no entry of its dynamic table is one of the unsupported tags |
| ElfHeaders.RelroHas | src/memory/elf.rs:57-60 | an image has such a region only if the file has such a header |
| ElfHeaders.LoadIs | src/memory/elf.rs:48-82 | every PT_LOAD header that covers memory has its segment, with the addresses, sizes and rights its bytes say |
| ElfHeaders.LoadHas | src/memory/elf.rs:48-82 | every segment comes from such a header |
| UserPlan.Choose | src/memory/user_layout.rs:16-20 | any draws place the code in the lower half of the window and the stack, aligned, above it |
| UserPlan.ChooseReaches | src/memory/user_layout.rs:16-20 | every placement of code, stack and stack pointer in the window can be drawn |
| UserPlan.CodeByte | src/memory/user.rs:166-177 | byte for byte the code, then zeroes, read-only and executable |
| UserPlan.SegPageBytes | src/memory/user.rs:276-292 | the page-by-page copy equals the byte-by-byte meaning of a segment |
| UserPlan.FixedByte | src/memory/user.rs:296-298 | a page after all relocations, byte by byte |
| UserPlan.LoadedByte | src/memory/user.rs:276-298 | every byte of every page of every segment after relocation; a page is writable if and only if its segment is and not all of its addresses are in the RELRO region |
| UserPlan.GuardedPage | src/memory/elf.rs:31-33 | a page is read-only if and only if every one of its addresses is in the RELRO region |
| UserLoad.Begin | src/memory/user.rs:145-152 | a fresh space under a fresh ID, or nothing taken |
| UserLoad.Undo | src/memory/user.rs:155-158 | a load given up leaves frames, spaces and IDs as they were |
| UserLoad.Restores | src/memory/user.rs:131-135 | a space made and torn down leaves exactly the frames that were free free |
| UserLoad.PlaceCode | src/memory/user.rs:166-177 | the code's pages, failing only for lack of frames |
| UserLoad.PlaceStack | src/memory/user.rs:178-188 | the stack's pages below its edge |
| UserLoad.Populate | src/memory/user.rs:162-198 | exactly the planned pages of a flat program |
| UserLoad.LoadProgram | src/memory/user.rs:140-160 | refused exactly for a bad size; fails only for lack of an ID or of frames, leaving nothing behind; otherwise exactly the planned pages, entry and stack |
| UserLoad.LoadThenRelease | src/memory/user.rs:131-160 | a flat program loaded and released: every frame and the ID are back |
| ElfLoad.Relocate | src/arch/amd64/memory.rs:222-236 | stores the word if and only if the target is an aligned address of a mapped page that is not executable |
| ElfLoad.ImageBias | src/memory/user_layout.rs:11-14 | the first multiple of the image's alignment above the drawn bias; the assertion holds of every accepted image |
| ElfLoad.ApplyFixes | src/memory/user.rs:296-298 | no relocation of an accepted image fails, and together they give the relocated pages |
| ElfLoad.LoadElf | src/memory/user.rs:268-311 | refused exactly when parse refuses; an accepted image fails only for lack of an ID or of frames, leaving nothing behind; otherwise exactly the planned pages, entry and stack, and through the page tables the program finds at every address what the file's own headers, its relocations and the stack layout say, with those rights, its startup block, and nothing else |
| ElfLoad.LoadElfThenRelease | src/memory/user.rs:268-311 | an ELF program loaded and released: every frame and the ID are back |
| ElfLoad.ProgramSees | src/memory/user.rs:276-298 | at every address of its segments' pages a loaded program sees, through the page tables, the file's bytes, zeroes after them and relocated words; writable if and only if the segment is and the RELRO region does not cover the page |
| ElfLoad.StackSeen | src/memory/user.rs:299-305 | the stack it sees: writable zeroes with the startup block at its top |
| ElfLoad.ProgramSeesOnly | src/memory/user.rs:268-311 | nothing else of the window is mapped, and no reachable page is both writable and executable |
| ElfLoad.LoadedRuns | src/memory/user.rs:268-311 | the plan of an accepted image, laid out, is a program: every byte of its segments, writable only outside the RELRO region, every relocated word equal to its addend moved with the image, the stack, and nothing else of the window |
| ElfLoad.SealedPage | src/memory/elf.rs:31-33 | a page is guarded if and only if some PT_GNU_RELRO header of the file covers every one of its addresses |
| ElfLoad.FileLoaded | src/memory/user.rs:268-311 | stated on the bytes of the file: at every address of every load header the processor finds the byte of the file, or zero past its end, writable if and only if the flags have the value 2 and no RELRO header covers the page, executable if and only if they have the value 1; a page of no header and not of the stack is not mapped |
| ElfLoad.StartupRead | src/memory/user.rs:299-305 | at the startup address the program reads the magic number, a guard word with a zero low byte that is at least 256, and two zeroes |
| ElfLoad.ProgramLoaded | src/memory/user.rs:268-311 | all of this together, of every accepted image |
| HeapPages.BackingIs | src/memory/slab.rs:13-19 | the preflight count is the pages plus every table they can touch |
| HeapPages.Backing.MapPage | src/arch/amd64/page_table.rs:135-208 | makes the missing tables and then the entry; its two errors exactly |
| HeapPages.Backing.MapHeapPages | src/arch/amd64/memory.rs:76-92 | after the preflight no step can fail |
| HeapPages.Backing.HeapExtend | src/arch/amd64/memory.rs:67-73 | all of the growth or none of it, and exactly when |
| KernelHeap.Placement | src/security/kaslr.rs:9-13 | any draw leaves the whole address budget below the limit |
| KernelHeap.PlacementReaches | src/security/kaslr.rs:9-13 | every placement can be drawn |
| KernelHeap.PlacementFits | src/arch/amd64/memory.rs:59-62 | so the heap can start from any placement |
| KernelHeap.TopFits | src/memory/heap.rs:96-103 | while slab records are left the address range is never exhausted |
| KernelHeap.KernelHeap.constructor | src/memory/heap.rs:73-77 | an empty heap on its first mapped 4 MiB |
| KernelHeap.KernelHeap.Back | src/memory/heap.rs:98-103 | maps what is missing below the new top, or changes nothing |
| KernelHeap.KernelHeap.Grow | src/memory/heap.rs:94-105 | one slab more on mapped pages; refused only for lack of frames, and then nothing changes |
| KernelHeap.KernelHeap.Reserve | src/memory/heap.rs:94-103 | an aligned place above everything in use, with pages behind it, or nothing changed |
| KernelHeap.KernelHeap.Allocate | src/memory/heap.rs:82-111 | the heap is never found corrupt; null only for a bad layout or, with the cache full, for want of slab records or frames, and then nothing changes; otherwise a slot nobody held, aligned and zero |
| KernelHeap.KernelHeap.Deallocate | src/memory/heap.rs:112-119 | fatal exactly when the pointer is not a live slot of the layout's cache |

## Left out

- FatDriver.Volume.Create: names are texts without U+FFFF, because other names do not read back (`RoundTrip`); a directory that loads has entries as the driver writes them, no stray long slots, no stale record behind its end marker (`InsertCut`), and no chain shared with anything else.
- FatDriver.Volume.Insert: the same conditions.
- FatDriver.Volume.Publish: the same conditions.
- FatDriver.Volume.Overwrite: the same conditions.
- FatDriver.Volume.Mkdir: the same conditions.
- FatDriver.Volume.Delete: the same conditions on the directory.
- FatDriver.Volume.CreateCut: where growing cannot tear a table entry, as on FAT16, FAT32 and a fixed root (`Unbreakable`); elsewhere `HalfLinkShows` decides.
- FatDriver.Volume.Read: covers every state a power cut can leave. The operations that write are covered on directories without stray long slots only; a cut insertion can leave some, which reading skips.
- FatDriver.Volume.Set: the table is a list of numbers here; `ListsSet` and `ListsHalfSet` tie it to the packed bytes.
- FatNames.RoundTrip: attributes are those the driver writes, and cluster and size fit the entry's fields.
- FatNames.DecodeUnits: the 128 upper characters of code page 437 are symbols of their own, and letter case is ASCII case.
- VirtioQueue.NetRx.Recv: which bytes are copied, not the bytes.
- Frames.FrameAllocator.constructor: the usable frames are given; where the bitmap is put and how ranges are set is not modelled.
- HeapPages.Backing.MapPage: counts free frames and the tables that exist rather than table entries.
- SlabHeap.HeldExactly: the slab of a pointer is found by counting rather than by bisection; both find the partition point of the ordered slabs.
- SlabHeap.Slabs.Add: the pages of a new slab are zero, as the frame allocator provides them, and at least 256 draws are at hand.
- AddressSpaces.Spaces.MapUserPage: the frame is one its caller has just taken for the page; the source asks nothing of it.
- AsidObject.Asids.Rollover: the generation is below its 64-bit limit; the source stops there.
- Assembly, MSRs, interrupt controllers, timers and all device registers.
- Memory ordering and lock implementations: a locked section is one step.
- The reschedule IPIs that on_tick sends when it wakes several sleepers, and tick statistics.
- A task's address space, user flags and stack fields; the reaper task itself.
- The pool's configure, which builds a new one.
- FSInfo hints, GPT and MBR discovery, path resolution through nested directories (a directory and the clusters of everything outside it are given), append_file, read_dir and metadata.
- The exFAT driver.
- Network transmit, the block driver, and wait timeouts.
- Contiguous and range allocation of frames and the shutdown scrub.
- arm64 page tables and heap mapping; huge pages, which never occur in a private tree.
- User-pointer checks and the copies to and from user memory.
- KFENCE, the syscall layer, drivers and the shell.
- Random words are parameters; bitmaps are sets or sequences of Booleans.
