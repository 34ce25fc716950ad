# Verified core of ruos

A Dafny 4.11 model of the parts of ruos (an SMP kernel with a software rasterizer) whose correctness is hardest to see
from the code, with proofs. `dafny verify dfyconfig.toml` checks the project.

`Common` holds the shared vocabulary.

- **Concurrency.** `TlbModel`, `TlbSafety`, `TlbFrames` and `TlbEffects` model page-table mutation and TLB shootdown as
  one state machine over all cores: each page-table write, invlpg, store to a shared variable, IPI, handler step and
  frame return is one step, and the hardware may fill or evict TLB entries between any two. `Inbox` does the same for
  the inter-core inbox and the halt decision of the run loop, `Reply` for reply futures split into their loads and
  stores, `Requests` for the two together, `Spsc` for the single-producer single-consumer byte ring with wrapping
  indices. The theorems are about every state of every run.
- **Allocation and timers in memory.** `Magazine` (the per-core free-list layer over talc), `Frames` (the frame bitmap
  and its boot-time initialisation) and `DelaySlots` (the table of sleeping futures) are classes whose methods work in
  place as the code does, each proved against the sets, maps and lists it represents; `DelayRuns` has the theorems over
  whole runs of polls, drops and ticks.
- **The rasterizer.** `RasterGeometry` (coverage and the top-left rule, over reals), `RasterShade` (interpolation,
  sampling, blending and the fast paths), `RasterBand`, `RasterBands` and `RasterPixels` (scanlines, bands, scenes),
  `RasterDiff`, `RasterFrames` and `RasterDamage` (what identifies a primitive, where it can draw, what must be
  repainted), `RasterPatches` (texture uploads), `RasterViews` (the renderer's state and what each call makes of it),
  `RasterRender` (the renderer object with its persistent canvas) and `RasterRuns` (whole runs, and three
  counterexamples). The reference for every drawing operation is `RasterBand.SceneAt`: the value of one pixel in a full
  repaint; `RasterPixels` says what that is over the index and vertex arrays themselves.
- **Disk layout.** `Octets`, `Bytes`, `Crc32`, `BlockDevice`, `Gpt`, `GptWriter`, `GptTheorems` and `GptOnDisk`: a disk
  that may fail any command, CRC-32 and what it always detects, the GPT reader and writer (UEFI Specification sections
  5.2.3, 5.3.2 and 5.3.3), and the partition views.
- **Services.** `Topo` (Kahn ordering with cycle report), `Schedule`, `ScheduleGrammar`, `ScheduleRoundTrip`, `Timers`
  and `TimerRuns` (schedules, their parser, and the timer scheduler over whole runs).

Where the code does not do what its comments promise, the model follows the code, a lemma shows the input, and another
states exactly when the promise holds:

- A repeated dependency is reported as a cycle: `Topo.RepeatedDependencyIsReported`, `Topo.ReportMeansCycleIff`.
- An ESP of no sectors parses as one sector: `GptTheorems.EmptyEspReadsAsOne`, `GptTheorems.ReportedExtents`.
- Release builds wrap u64 arithmetic, so that a timer's next instant need not lie ahead, for `every 0s`, for periods
  that wrap to nothing and for periods that reach over the end of the clock: `TimerRuns.EveryZeroRepeats`,
  `EveryWrapsToZero` and `EveryRunsOver`; `TimerRuns.RepeatsNothingIffAdvances`, `KeepsPeriodIff` and
  `CalendarExactIff`.
- The coverage rule that the code calls top-left owns, for its own winding and with y running down, top and right sides:
  `RasterGeometry.RectangleCovered`.
- Damage tracking misses primitives that change places: `RasterRuns.ReorderingMissed`, `RasterDiff.StableOrderIff`.
- It misses texels sampled just outside the uv box: `RasterRuns.SolidTexelMissed`, `RasterDamage.UvTestRightIff`.
- It mistakes vertices for indices, since the hashed words have no separators: `RasterRuns.SkippedIndicesMissed`,
  `RasterDiff.SameWordsIff`. With all indices in range this cannot happen (`RasterDamage.InRangeUnmistaken`).

Assumptions, all taken from the code:

- TLB: the ack timeout does not fire and the set of online cores does not change. `TlbFrames` also takes from the
  mapper's documentation that a caller of `map_page` owns the frame it maps.
- Damage tracking: equal hashes mean equal hashed words (`RasterDiff.Stream`). The coordinates of a scene are f32
  numbers: reals that survive `to_bits` and `from_bits` (`RasterDiff.Format`).
- Topological sort: node names are distinct.
- GPT: buffers are whole sectors; the random GUIDs are parameters.
- Allocator: callers free a block with the layout they allocated it with; talc hands out blocks disjoint from its live
  ones; a core is not interrupted inside the allocator.
- Delays: a `Delay` is polled and dropped on one core.

## Model

| member | source | states |
|---|---|---|
| `TlbSafety.NoStaleTranslationWhenUnlocked` | kernel/src/memory/mapper.rs:74-249 | In every reachable state of every interleaving in which MAPPER is free, each translation cached on each core is the one in the page table, frame and flags; also after `map_page`, which broadcasts nothing, and after the huge-page error return of `set_flags_range` |
| `TlbSafety.StaleTranslationIsBounded` | kernel/src/memory/tlb.rs:70-156 | While MAPPER is held, a stale translation exists only for a page of the running operation, and names either the page's present frame or one that operation has unmapped and not yet freed |
| `TlbSafety.RetiredTranslationUnreachable` | kernel/src/memory/mapper.rs:113-131 | A page whose unmap has finished is translated to its old frame by no core, for as long as it is not mapped back to that frame, whatever else is mapped, unmapped, freed or reallocated meanwhile |
| `TlbSafety.AllAnswered` | kernel/src/memory/tlb.rs:97-118 | When the ack counter reaches the number of other cores, each of them has finished its handler and no IPI is left |
| `TlbSafety.InvalidatedPage` | kernel/src/memory/tlb.rs:124-156 | The i-th address the handler invalidates lies in the i-th page of the range, although `unmap_page` and `set_flags` publish an unaligned address |
| `TlbSafety.ShootdownNotStuck` | kernel/src/memory/tlb.rs:97-118 | While an ack is missing, some other core has the IPI pending or is in its handler and can take its next step |
| `TlbSafety.StepKeeps` | kernel/src/memory/tlb.rs:70-156 | Every atomic step of the mutator, of a handler, and of the hardware (fill, evict) keeps the invariant that ties lock, published range, acks, handlers and TLB contents together |
| `TlbSafety.RunInv` | kernel/src/memory/mapper.rs:74-249 | The invariant holds in every reachable state |
| `TlbFrames.FreeFramesUnreachable` | kernel/src/memory/mapper.rs:214-249 | If callers map only frames they own, no core can reach a free frame (one the allocator may hand out again) through any cached 4 KiB translation, stale or not, in any interleaving |
| `TlbFrames.RunFrames` | kernel/src/memory/mapper.rs:214-249 | Free, mapped and in-flight frames stay disjoint, and no frame is mapped or in flight twice |
| `TlbEffects.OperationDone` | kernel/src/memory/mapper.rs:74-249 | From taking MAPPER to releasing it, in every interleaving: after an unmap no page of the range is mapped, and each page that was is set aside once, in order, with its frame; after a set_flags every mapped page below the first huge one has its old frame and the requested flags; a map is made exactly if the page was free, not under a huge page and its table frames were found; every other page is as it was when MAPPER was taken |
| `TlbEffects.FramesReturned` | kernel/src/memory/mapper.rs:240-248 | Each frame an unmap set aside is returned to the allocator, at a step of its own after MAPPER is released and before the core is idle again |
| `TlbEffects.UnlockedTableStays` | kernel/src/memory/mapper.rs:60-249 | While nobody holds MAPPER the page table does not change |
| `Spsc.PoppedIsPrefixOfAccepted` | kernel/src/pty/spsc.rs:29-47 | With every load and store of producer and consumer interleaved and 64-bit indices that wrap, the popped bytes are a prefix of the accepted ones and at most 4096 are unread |
| `Spsc.PopsReturnPushedBytes` | kernel/src/pty/spsc.rs:29-47 | Said over the calls: the bytes popped are, in order, a prefix of the arguments of those `push` calls during which `head` moved |
| `Spsc.PublishedAtTheEnd` | kernel/src/pty/spsc.rs:29-37 | `head` moves only at the last step of a `push`, so that none is published twice; a `push` that ends without that was refused |
| `Spsc.WriteHitsNoUnreadSlot` | kernel/src/pty/spsc.rs:29-47 | The slot a producer is about to write holds no unread byte and is not the one the consumer is about to read |
| `Spsc.PushRefusalHonest` | kernel/src/pty/spsc.rs:29-37 | `push` refuses a byte if and only if the ring was full in the earlier state of the run in which this very push read `tail` |
| `Spsc.PopRefusalHonest` | kernel/src/pty/spsc.rs:39-47 | `pop` returns nothing if and only if the ring was empty in the earlier state of the run in which this very pop read `head` |
| `Spsc.WrapDistance` | kernel/src/pty/spsc.rs:30-34 | The wrapping difference of two wrapped indices is their true distance while that is at most the capacity |
| `Spsc.RunInv` | kernel/src/pty/spsc.rs:29-47 | The ring invariant holds in every reachable state |
| `Reply.PendingIsWoken` | kernel/src/smp/inbox.rs:93-108 | Once completion has finished, a future whose last poll was Pending has been woken, through the waker handed to that very poll |
| `Reply.ReadyCarriesValue` | kernel/src/smp/inbox.rs:34-39 | Ready carries exactly the value the operation completed with, and only after it did |
| `Reply.PollAfterCompletionIsReady` | kernel/src/executor/mod.rs:70-89 | A poll that starts after `done` is set is Ready with the value after two steps of its own, whatever the completer does in between, and is never held up before that |
| `Reply.RunInv` | kernel/src/executor/mod.rs:58-89 | The invariant of poll and complete, split into their loads and stores, holds in every reachable state |
| `Inbox.MessagesRunInOrder` | kernel/src/smp/inbox.rs:116-138 | For every core and every interleaving: the messages whose execution it has begun, followed by those still queued, are exactly those of the posts to it, in order |
| `Inbox.WokenTaskIsPolled` | kernel/src/executor/mod.rs:325-345 | A woken task is on its core's run queue, and leaves it only when that core goes on to poll a set of tasks that holds it |
| `Inbox.HaltedCoreIsWoken` | kernel/src/executor/mod.rs:325-376 | A halted core with a queued message, a ready task or a set flag has an IPI raised that ends its halt, or some other core is between its enqueue and its IPI |
| `Inbox.SenderNotStuck` | kernel/src/executor/mod.rs:1138-1154 | A core in the middle of a post or a wake can go on, or is interrupted by a handler that can return |
| `Inbox.StepKeeps` | kernel/src/smp/inbox.rs:69-138 | Every step of the run loop, of a sender and of an interrupt handler keeps the "announced work" invariant |
| `Inbox.RunInv` | kernel/src/executor/mod.rs:325-376 | That invariant holds in every reachable state |
| `Requests.ReadyIsOwnResult` | kernel/src/smp/inbox.rs:83-134 | Inbox and reply slots as one machine, over every run: the value a caller's future yields is the result of the very operation it posted; the core it was posted to has taken that message out of its inbox, once only |
| `Requests.QueuedRunningOrAnswered` | kernel/src/smp/inbox.rs:83-134 | No request is lost: it is queued where it was posted, or that core is running it, or it is answered, and then a caller left Pending has been woken through its last poll's waker |
| `Requests.WakeReachesCaller` | kernel/src/smp/inbox.rs:34-38 | The wake that ends a completion puts the waiting task onto its core's run queue, and a halted core then has an interrupt raised or on its way |
| `Requests.RunInv` | kernel/src/smp/inbox.rs:83-134 | In every reachable state each request is filed with exactly one core, at most once, and its slot is untouched while it is queued |
| `DelaySlots.Delay.constructor` | kernel/src/executor/delay.rs:97-110 | The target is `now + n`, or the greatest tick count if that does not fit |
| `DelaySlots.DelayList.Poll` | kernel/src/executor/delay.rs:130-179 | Pending leaves the Delay in exactly one slot, with its own target, generation and this poll's waker; Ready comes at or after the target or when it had no slot and all 64 were taken, and leaves it in none; no other registration is touched |
| `DelaySlots.DelayList.FreeSlot` | kernel/src/executor/delay.rs:113-124 | Clears the Delay's own slot if it still owns it, and no other Delay's |
| `DelaySlots.DelayList.Drop` | kernel/src/executor/delay.rs:182-186 | No slot outlives its Delay |
| `DelaySlots.DelayList.Refresh` | kernel/src/executor/delay.rs:142-158 | The waker is renewed exactly when the Delay still owns its slot |
| `DelaySlots.DelayList.Register` | kernel/src/executor/delay.rs:159-177 | Takes a free slot under a fresh generation exactly when there is one |
| `DelaySlots.DelayList.TimerTick` | kernel/src/executor/delay.rs:198-211 | Wakes exactly the due registrations, in slot order, and empties their slots; a contended list is left as it is |
| `DelaySlots.DueWakersExact` | kernel/src/executor/delay.rs:198-211 | A waker is woken if and only if some due slot holds it |
| `DelayRuns.WokenInTime` | kernel/src/executor/delay.rs:130-211 | Over any run of polls, drops and ticks: a Delay whose last poll was Pending and which was not dropped has been woken, through that poll's waker, once a tick that got the lock is not before its target |
| `DelayRuns.WakesOnlyOwn` | kernel/src/executor/delay.rs:130-211 | Over any run: every wake is for a Delay not dropped and not polled since, through the waker of its last poll, and at the first tick (that got the lock) not before its target; no slot wakes another's waker |
| `Magazine.SizeClass` | kernel/src/memory/alloc_magazine.rs:45-56 | The smallest class that holds the request, or none for large or over-aligned ones |
| `Magazine.BackingServes` | kernel/src/memory/alloc_magazine.rs:45-56 | A block of the class is large enough and aligned for every request the class serves |
| `Magazine.MagazineAlloc.Alloc` | kernel/src/memory/alloc_magazine.rs:89-111 | With a block cached on this core for the class, the answer is the head of that list, which is unlinked, and talc is not asked; otherwise it is talc's answer for the canonical layout and no magazine changes. The block is new to its owner, large enough, aligned and disjoint from every other owner's. No other class and no other core's magazine is touched |
| `Magazine.MagazineAlloc.Dealloc` | kernel/src/memory/alloc_magazine.rs:113-133 | The block becomes the head of this core's list of its class, linked to the old head, or goes back to talc with talc's own layout when the list is full or the block is large; no other class and no other core's magazine is touched |
| `Magazine.FreeAndReuse` | kernel/src/memory/alloc_magazine.rs:89-133 | A core that frees a block and asks for one of the same class gets that block, and its magazine is as before |
| `Magazine.MagazineAlloc.OwnerWrites` | kernel/src/memory/alloc_magazine.rs:89-111 | An owner that writes anywhere inside its block breaks no free list |
| `Magazine.FreeListsEnd` | kernel/src/memory/alloc_magazine.rs:58-63 | Following the next pointers from any head visits `depth` (at most 64) different cached blocks and ends in null |
| `Magazine.OwnersApart` | kernel/src/memory/alloc_magazine.rs:89-133 | Any two owned blocks are disjoint |
| `Magazine.PopKeeps` | kernel/src/memory/alloc_magazine.rs:95-105 | Unlinking a head keeps every list linked, every cached block in one place, and talc's live blocks exactly owned plus cached |
| `Magazine.PushLinked` | kernel/src/memory/alloc_magazine.rs:119-127 | Linking a block keeps every list linked |
| `Frames.Frames.constructor` | kernel/src/memory/frames.rs:53-62 | All frames used, tail bits set |
| `Frames.Frames.MarkUsed` | kernel/src/memory/frames.rs:68-75 | Removes the frame from the free ones; idempotent, counted once |
| `Frames.Frames.MarkFree` | kernel/src/memory/frames.rs:77-84 | Adds the frame to the free ones if it exists; idempotent |
| `Frames.Frames.AllocateFrame` | kernel/src/memory/frames.rs:123-135 | Hands out the lowest free frame; none exactly when none is free |
| `Frames.Frames.AllocateContiguous` | kernel/src/memory/frames.rs:92-114 | Hands out the lowest run of n free frames; none exactly when n is 0 or there is no such run |
| `Frames.Frames.FreeContiguous` | kernel/src/memory/frames.rs:116-119 | Frees exactly the n frames that exist |
| `Frames.Frames.Counts` | kernel/src/memory/frames.rs:86-88 | `used` is the number of used frames, the rest is free |
| `Frames.TrailingOnes` | kernel/src/memory/frames.rs:123-130 | The position of the lowest clear bit of a word |
| `Frames.Init` | kernel/src/memory/frames.rs:149-199 | After boot the free frames are exactly those wholly inside a USABLE entry and untouched by the heap; the two error cases |
| `Frames.FreeRegion` | kernel/src/memory/frames.rs:173-181 | Bounds rounded inward: exactly the frames wholly inside the region |
| `Frames.ReserveHeap` | kernel/src/memory/frames.rs:183-194 | Bounds rounded outward: every frame the heap touches |
| `Frames.HighestUsable` | kernel/src/memory/frames.rs:160-168 | The greatest end of a USABLE entry |
| `Crc32.Crc` | kernel/src/crc32.rs:5-14 | The nested loops compute the checksum function |
| `Crc32.ChecksumDetects` | kernel/src/crc32.rs:5-14 | Any two inputs of equal length that differ only within four consecutive bytes have different checksums |
| `Crc32.WindowBack` | kernel/src/crc32.rs:8-12 | Four bytes fed into one register are told apart by the register after them |
| `Crc32.FoldInjective` | kernel/src/crc32.rs:7-12 | Different registers stay different whatever bytes follow |
| `Crc32.KnownVectors` | kernel/src/crc32.rs:19-21 | The published check values: the digits 1 to 9, no byte, one zero byte |
| `BlockDevice.Device.ReadBlocks` | kernel/src/blockdev.rs:44-46 | The addressed sectors, or an error exactly when out of range or the command fails |
| `BlockDevice.Device.WriteBlocks` | kernel/src/blockdev.rs:48-50 | The addressed sectors replaced; a failed command may leave anything in them, and nothing elsewhere |
| `BlockDevice.Partition.ReadBlocks` | kernel/src/blockdev.rs:114-121 | Sectors offset by the base, exactly when they lie inside the partition and on the disk |
| `BlockDevice.Partition.WriteBlocks` | kernel/src/blockdev.rs:122-129 | Whatever the outcome, nothing outside the partition changes; refused exactly when out of reach, then nothing changes at all |
| `Gpt.Parse` | kernel/src/gpt.rs:50-109 | Exactly the partitions of the header and array on the disk, and None if and only if there are none or the device fails the header command or, three times running, one of the array sectors this call reads |
| `Gpt.BearableIsReadable` | kernel/src/gpt.rs:50-109 | A device that fails no first command and no three in a row is read, whatever the disk holds |
| `Gpt.CheckHeader` | kernel/src/gpt.rs:52-77 | Signature, clamped header size, header checksum with its field zeroed, entry size and count |
| `Gpt.ReadEntries` | kernel/src/gpt.rs:81-105 | Exactly `num * 128` bytes of array and the partitions of its non-empty entries; fails if and only if the array is not all on the disk or one of its sectors fails three times running |
| `Gpt.ReadPersistently` | kernel/src/gpt.rs:84-96 | Up to three tries: the contents of a sector on the disk, and nothing if and only if all three fail |
| `GptWriter.AlignUp` | kernel/src/gpt.rs:118-120 | The least multiple not below x, or none when the addition leaves the u64 range |
| `GptTheorems.PlaceIff` | kernel/src/gpt.rs:160-187 | The layout is refused exactly when no aligned sector leaves room for the ESP before it and one usable sector after it |
| `GptWriter.BuildHeader` | kernel/src/gpt.rs:275-302 | The 92 header bytes at their offsets with the checksum of the header itself, zero-padded to a sector |
| `GptOnDisk.DiskAsSpecified` | kernel/src/gpt.rs:155-305 | After a successful write_layout, by byte offset on the disk: the protective MBR; in LBA 1 a header whose MyLBA is 1, AlternateLBA total-1 and array 2; in the last LBA one whose MyLBA is total-1, AlternateLBA 1 and array total-33; both with revision 1.0, usable range 34 to total-34 and the same disk GUID; and two identical arrays with types, own GUIDs, extents, no attributes and UTF-16 names, the other 126 entries zero |
| `GptOnDisk.ReadsAsSpecified` | kernel/src/gpt.rs:50-76 | By byte offset: which sectors the reader takes for a header, and what it reads from them |
| `GptWriter.WriteLayout` | kernel/src/gpt.rs:155-271 | Both refusals leave the disk untouched; it succeeds if and only if the five writes do, and then reports the extents and leaves MBR, two headers and two arrays in place; on every outcome, failed writes included, the sectors between the two tables are unchanged |
| `GptTheorems.PartitionsClearOfTables` | kernel/src/gpt.rs:169-187 | ESP and data partition are aligned, disjoint, inside usable space and clear of both copies; the data partition is not empty |
| `GptTheorems.HeaderReadsBack` | kernel/src/gpt.rs:56-78 | A built header is accepted and yields its entry LBA, count and array checksum |
| `GptTheorems.ArrayReadsBack` | kernel/src/gpt.rs:207-231 | The entry array yields exactly the ESP and the data partition |
| `GptTheorems.TablesReadBack` | kernel/src/gpt.rs:50-109 | A disk holding such tables parses to the same partitions from the primary and from the backup header |
| `GptTheorems.LayoutSurvivesPartitionWrites` | kernel/src/gpt.rs:155-271 | After `write_layout` and any sequence of writes, whole or torn, through the two partition views, the disk parses as exactly the ESP and the data partition, from either copy |
| `GptTheorems.ReportedExtents` | kernel/src/gpt.rs:37-41 | The reported extents are the parsed ones: always for data, and for the ESP exactly when it has at least one sector (an empty ESP parses as one) |
| `GptTheorems.EmptyEspReadsAsOne` | kernel/src/gpt.rs:37-41 | Counterexample: on 4096 sectors an ESP of no sectors is placed and reported empty, and parses as one sector |
| `GptTheorems.ArrayChangeRefused` | kernel/src/gpt.rs:106-107 | Any change within four consecutive bytes of the entry array makes `parse` return None |
| `GptTheorems.HeaderChangeRefused` | kernel/src/gpt.rs:56-65 | So does any change within four consecutive header bytes clear of the checksum field that keeps the clamped size at 92, or any change of the checksum field alone |
| `GptTheorems.HeaderByteRefused` | kernel/src/gpt.rs:56-65 | In particular any one changed byte of the 92 outside the size field |
| `GptTheorems.PaddingIgnored` | kernel/src/gpt.rs:60-65 | No change of the rest of the header sector matters |
| `GptTheorems.CorruptionRefused` | kernel/src/gpt.rs:50-109 | The array and one-byte header statements for every disk `write_layout` makes |
| `Topo.TopoSort` | kernel/src/service/topo.rs:7-31 | In names: every node is either ordered or reported, once; each ordered node comes after its in-set dependencies; a node is reported if and only if it reaches a cycle or a node with a repeated dependency |
| `Topo.EmitAll` | kernel/src/service/topo.rs:16-30 | Each emitted node is the first by index that those before it release; the rest is reported in table order |
| `Topo.OrderRespectsDependencies` | kernel/src/service/topo.rs:7-31 | Order and report together are a permutation of the nodes, and each emitted node comes after all its in-set dependencies |
| `Topo.ReportedExactly` | kernel/src/service/topo.rs:7-31 | A node is reported if and only if a cycle or a node with a repeated dependency is reachable from it |
| `Topo.ReportMeansCycleIff` | kernel/src/service/topo.rs:7-31 | The report means "reaches a cycle" exactly when every node with a repeated dependency reaches one anyway |
| `Topo.NothingReportedIffAcyclic` | kernel/src/service/topo.rs:7-31 | Without repeated dependencies, nothing is reported if and only if the graph is acyclic |
| `Topo.RepeatedDependencyIsReported` | kernel/src/service/topo.rs:9-14 | Counterexample: a node that lists one dependency twice is reported although nothing is cyclic |
| `Schedule.NextIsLeast` | kernel/src/service/schedule.rs:70-94 | For hourly, daily and weekly schedules the next firing is the least instant strictly after now that matches minute, hour and weekday, as long as one is left before the 64-bit clock ends; otherwise, because the sum wraps, it is not ahead of the clock |
| `Schedule.FieldsDetermined` | kernel/src/service/schedule.rs:67-70 | Hour, minute and second make up the time of day, 1970-01-01 was a Thursday, and the weekday goes on by one with every day |
| `Schedule.MatchWithinWeek` | kernel/src/service/schedule.rs:70-94 | A matching instant is left at every reading but those of the last eight days of the 64-bit clock |
| `Schedule.Parse` | kernel/src/service/schedule.rs:19-48 | Every accepted schedule has its fields in range and is of the kind its keyword names |
| `ScheduleGrammar.ParseIff` | kernel/src/service/schedule.rs:17-66 | The parser accepts exactly the sentences of the schedule grammar (keyword, argument, white space where it is allowed, plus signs, either case for weekdays), and reads each as what it spells |
| `ScheduleRoundTrip.ParseReadsShow` | kernel/src/service/schedule.rs:19-66 | Writing any schedule in its textual form and parsing it returns it |
| `ScheduleRoundTrip.SecondsRead` | kernel/src/service/schedule.rs:21-26 | `every Ns` and `boot+Ns` mean 100 N ticks if and only if that fits into 64 bits; otherwise 100 N modulo 2^64 |
| `Timers.TimerTable.Load` | kernel/src/service/mod.rs:541-547 | Arms the timer for its first firing; a second timer of the same name is skipped |
| `Timers.TimerTable.DueSnapshot` | kernel/src/service/mod.rs:406-411 | The enabled timers, each once, in order |
| `Timers.TimerTable.TimerFired` | kernel/src/service/mod.rs:416-426 | Records the firing, re-arms, disables boot+ timers; nothing for an index out of range |
| `Timers.TimerTable.Scan` | kernel/src/executor/mod.rs:926-947 | One pass fires exactly the due timers, each once, in order, and changes no other |
| `Timers.DueAmongExact` | kernel/src/executor/mod.rs:935-941 | A timer is started in a pass if and only if it is enabled and its instant has come |
| `TimerRuns.NoInstantFiresTwice` | kernel/src/service/mod.rs:413-426 | Over any run of passes, however the clocks jump, the instants of two firings increase strictly, if the next instant lies ahead at every reading |
| `TimerRuns.NextIsAheadIff` | kernel/src/service/schedule.rs:67-94 | The next instant lies ahead of the reading it is computed from exactly when: `every` has a positive period that does not reach over the end of the clock; a calendar schedule has a matching instant left |
| `TimerRuns.RepeatsNothingIffAdvances` | kernel/src/service/schedule.rs:70-76 | For any schedule and any set of clock readings: no run over them fires an instant twice if and only if the next instant lies ahead at each of them (which excludes `every 0s`, periods that wrap to zero, and readings from which the period wraps) |
| `TimerRuns.EveryZeroRepeats` | kernel/src/service/schedule.rs:21-23 | Counterexample: `every 0s` parses, and its next instant is never ahead |
| `TimerRuns.EveryWrapsToZero` | kernel/src/service/schedule.rs:21-23 | Counterexample: 2^62 seconds parse as `every 0s` |
| `TimerRuns.EveryRunsOver` | kernel/src/service/schedule.rs:74 | Counterexample: a period of 184467440737095516 seconds reaches over the end of the clock from tick 16 on; loaded then, it fires at every pass of every run |
| `TimerRuns.NeverAheadFiresAlways` | kernel/src/executor/mod.rs:926-947 | An interval timer whose next instant is at no reading ahead fires at every pass |
| `TimerRuns.StrictTicksRepeatNothing` | kernel/src/executor/mod.rs:926-947 | While the tick count increases strictly from pass to pass, as it does between sleeps of 100 ticks, `every N` repeats no instant for any N, wrapping or not |
| `TimerRuns.NotAheadRepeats` | kernel/src/executor/mod.rs:926-947 | Whenever the next instant is not ahead, two passes at one reading fire the same instant twice |
| `TimerRuns.EveryKeepsItsPeriod` | kernel/src/service/schedule.rs:74 | Two firings of `every N` are at least N ticks apart, if N ticks after each reading is within 64 bits |
| `TimerRuns.EveryFiresOnTime` | kernel/src/service/schedule.rs:74 | `every N` fires at the first pass that reads N ticks or more past the reading of its last firing or load, and at no pass before, as long as that instant fits into 64 bits |
| `TimerRuns.LastArmed` | kernel/src/service/mod.rs:413-426 | At every moment of every run, the armed instant and the remembered last firing are those of the last pass that fired the timer |
| `TimerRuns.KeepsPeriodIff` | kernel/src/service/schedule.rs:74 | Over any set of readings, `every N` keeps its period in all runs if and only if N is zero or no reading is within N ticks of the end of the clock |
| `TimerRuns.BootPlusFiresOnce` | kernel/src/service/mod.rs:424 | boot+N fires at the first pass that reads N ticks or more and at no other |
| `TimerRuns.CalendarFiresExactly` | kernel/src/executor/mod.rs:926-947 | While the clock does not run backwards, a calendar timer fires at a pass if and only if a matching instant has gone by since the pass before |
| `TimerRuns.CalendarExactIff` | kernel/src/executor/mod.rs:926-947 | Over any set of readings this holds in all runs if and only if each reading leaves a matching instant ahead |
| `RasterGeometry.CoversAnyOrder` | ruos-raster/src/lib.rs:874-895 | The order in which the vertices are given does not change which pixels a triangle covers |
| `RasterGeometry.SharedEdgeDrawnOnce` | ruos-raster/src/lib.rs:776-778 | Two triangles on opposite sides of a shared edge, each in any vertex order, draw no pixel both |
| `RasterGeometry.SharedEdgeDrawnExactlyOnce` | ruos-raster/src/lib.rs:972-981 | A pixel centre strictly inside the shared edge is drawn by exactly one of them |
| `RasterGeometry.RectangleCovered` | ruos-raster/src/lib.rs:773-778 | A rectangle of two triangles covers each point with x0 < x <= x1 and y0 <= y < y1 exactly once, and no other: the rule owns top and right sides |
| `RasterGeometry.InteriorCovered` | ruos-raster/src/lib.rs:972-981 | Every point strictly inside a triangle is covered, whatever the order of its vertices |
| `RasterGeometry.RowContiguous` | ruos-raster/src/lib.rs:960-987 | The pixels a triangle covers on a row are contiguous |
| `RasterGeometry.CoveredInPixelBox` | ruos-raster/src/lib.rs:897-905 | Covered pixels lie in the floor/ceil bounding box |
| `RasterGeometry.EdgesSumToArea` | ruos-raster/src/lib.rs:754-756 | The three edge functions sum to the area |
| `RasterShade.Sample` | ruos-raster/src/lib.rs:783-814 | A bilinear sample with clamped taps stays in 0..255 |
| `RasterShade.SampleAtCenter` | ruos-raster/src/lib.rs:783-814 | At the centre of a texel the sample is that texel |
| `RasterShade.SampleBetween` | ruos-raster/src/lib.rs:783-814 | Between neighbouring centres the sample is the weighted mean of the four texels |
| `RasterShade.OverIsRoundedSum` | ruos-raster/src/lib.rs:1030-1052 | For premultiplied input the clamp never bites: each channel is frag + dst * (1 - alpha), rounded to the nearest integer |
| `RasterShade.FragPremultiplied` | ruos-raster/src/lib.rs:1030-1035 | Vertex colour times texel stays premultiplied |
| `RasterShade.FragNeutral` | ruos-raster/src/lib.rs:1030-1035 | A white texel leaves the vertex colour and a white vertex the texel |
| `RasterBand.WeightsLocate` | ruos-raster/src/lib.rs:1008-1012 | The weights are the barycentric coordinates of the pixel centre |
| `RasterBand.VertexShaded` | ruos-raster/src/lib.rs:985-1030 | At a vertex, a triangle has that vertex's own colour, and samples the texture where that vertex points |
| `RasterShade.Over` | ruos-raster/src/lib.rs:1030-1052 | Premultiplied OVER with rounding and clamping keeps every colour at most alpha |
| `RasterShade.FastPathsAgree` | ruos-raster/src/lib.rs:912-1052 | The transparent, flat opaque, flat translucent and constant-texel paths write the pixel that interpolating, sampling and blending would |
| `RasterBand.RasterSpan` | ruos-raster/src/lib.rs:960-1053 | A scanline with its early exit leaves the row that testing every pixel would |
| `RasterBand.RasterTri` | ruos-raster/src/lib.rs:866-1054 | A triangle inside a clip and a band: drawn where it covers, elsewhere nothing changes |
| `RasterBand.FillRect` | ruos-raster/src/lib.rs:656-665 | The rows of the rectangle inside the band, and nothing else |
| `RasterBand.RasterBand` | ruos-raster/src/lib.rs:819-862 | Every damaged pixel of the band gets its full-repaint value whatever it held; no other pixel changes |
| `RasterBands.BandsAssembleFrame` | ruos-raster/src/lib.rs:602-665 | Any bands that cover the damaged rows, in any order, assemble the canvas that one full-height call draws |
| `RasterPixels.TopTriangleDrawn` | ruos-raster/src/lib.rs:819-862 | For every scene, over the index and vertex arrays themselves: the pixel is the last in-range triple of any primitive that covers it inside its clip, drawn over what the scene up to that triangle shows |
| `RasterPixels.TopTriangleShows` | ruos-raster/src/lib.rs:848-859 | Whichever triple of whichever primitive that is: if it is opaque and of one colour, the pixel has that colour; if it is white with one texture coordinate, that of its texel |
| `RasterPixels.UncoveredIsClear` | ruos-raster/src/lib.rs:819-862 | A pixel covered by no in-range triple of any primitive clipped to it has the clear colour |
| `RasterPixels.QuadShows` | ruos-raster/src/lib.rs:848-859 | A rectangle of two triangles drawn last shows its colour at exactly the pixels whose centre it holds, and nothing elsewhere |
| `RasterDiff.WordsDetermine` | ruos-raster/src/lib.rs:667-733 | Primitives that hash the same words draw the same pixels if all their indices are in range, or as many of one as of the other |
| `RasterDiff.SameWordsIff` | ruos-raster/src/lib.rs:675-733 | Of two primitives that hash the same words, the contents are the same if and only if as many indices are in range: the words have no separator between vertices and indices |
| `RasterDiff.InRangeTold` | ruos-raster/src/lib.rs:675-733 | With all indices in range, the hashed words tell how many there are |
| `RasterDiff.KeyDetermines` | ruos-raster/src/lib.rs:675-733 | Primitives with the same contents draw the same pixels, although skipped indices are not among the vertices hashed |
| `RasterDiff.InvisibleOutside` | ruos-raster/src/lib.rs:735-745 | A primitive draws nothing outside its bounding box |
| `RasterDiff.BboxTight` | ruos-raster/src/lib.rs:735-745 | The bounding box is no larger than the primitive: on the screen, inside the clip, and between its vertices |
| `RasterDiff.UnchangedPixel` | ruos-raster/src/lib.rs:459-484 | Where only layers common to both frames show, in the same order, both frames look alike |
| `RasterDiff.StableOrderIff` | ruos-raster/src/lib.rs:459-484 | Comparing frames by which primitives they share is right for every way of painting if and only if the shared ones come in the same order, and as often, in both |
| `RasterFrames.SampleAgrees` | ruos-raster/src/lib.rs:783-814 | A sample depends only on the texels its taps can touch |
| `RasterFrames.UndamagedPixel` | ruos-raster/src/lib.rs:434-522 | A pixel outside every removed, added or re-textured box is the same in a full repaint of either frame |
| `RasterDamage.PrimMeta` | ruos-raster/src/lib.rs:675-746 | One pass over the vertices and one over the indices compute the hashed words, the bounding box and the uv box |
| `RasterDamage.Diff` | ruos-raster/src/lib.rs:456-522 | The union of the boxes of removed, added and patched primitives |
| `RasterDamage.DamageSuffices` | ruos-raster/src/lib.rs:434-539 | Outside the damage rectangle, a full repaint of the new frame is what the old one left, if shared primitives keep their order, none is mistaken for another, and each samples what it did or is seen to be patched |
| `RasterDamage.DamageTight` | ruos-raster/src/lib.rs:455-539 | If everything removed, added or patched lies in some rectangle, so does the damage, but for one pixel of padding |
| `RasterDamage.InRangeUnmistaken` | ruos-raster/src/lib.rs:675-733 | No primitive is mistaken for another if all indices of both frames are in range |
| `RasterDamage.CoveredNoticed` | ruos-raster/src/lib.rs:484-521 | No changed texel goes unseen if the pixels of each uv box cover its taps |
| `RasterDamage.UvTestRightIff` | ruos-raster/src/lib.rs:502-519 | The uv test of plan_damage, which has no half-texel margin, is right about every patch of an atlas if and only if the pixels of the uv box cover the texels that bilinear samples from it touch |
| `RasterDamage.UntouchedAlike` | ruos-raster/src/lib.rs:484-521 | A primitive whose taps meet no recorded patch samples the same texels as in the last frame |
| `RasterRender.Raster.constructor` | ruos-raster/src/lib.rs:358-368 | An empty renderer, the start of every run |
| `RasterRender.Raster.SetTexture` | ruos-raster/src/lib.rs:373-430 | Takes the renderer from one state of a run to the next: whole atlas or patch; malformed calls change nothing; every texel that changed is on record |
| `RasterPatches.CopyPatch` | ruos-raster/src/lib.rs:395-405 | The patched texels are the patch's, all others unchanged |
| `RasterPatches.WholePatch` | ruos-raster/src/lib.rs:373-430 | Patching a whole atlas is replacing it |
| `RasterPatches.RetexturedTracked` | ruos-raster/src/lib.rs:373-430 | After any upload, every texel that differs from the last frame is in a patch on record |
| `RasterRender.Raster.SetClear` | ruos-raster/src/lib.rs:617-624 | Takes the renderer to the next state of a run: forgets canvas and last frame, so that the next frame is a full one |
| `RasterRender.Raster.PlanDamage` | ruos-raster/src/lib.rs:434-539 | A new canvas is damaged entirely; otherwise the padded union of what changed, or nothing |
| `RasterRender.Raster.Render` | ruos-raster/src/lib.rs:544-572 | Takes the renderer to the next state of a run: every damaged pixel gets its full-repaint value, every other keeps its own, whatever the canvas held. The canvas is a full repaint after reallocation, and otherwise if it was one of the last scene and damage tracking can tell the frames apart |
| `RasterViews.NextValid` | ruos-raster/src/lib.rs:373-624 | Every call leaves a valid state |
| `RasterViews.FrameExact` | ruos-raster/src/lib.rs:434-572 | A frame on a new canvas is exact, and so is a faithful one on an exact canvas |
| `RasterRuns.CanvasIsFullRepaint` | ruos-raster/src/lib.rs:434-624 | After any run of frames, resizes, texture updates and clear-colour changes the canvas equals, pixel for pixel, a full repaint of the latest scene, if every frame drawn onto a kept canvas is faithful |
| `RasterRuns.Play` | ruos-raster/src/lib.rs:358-624 | Every sequence of calls on a new renderer object is such a run, and ends in its last state |
| `RasterRuns.SameHashesNoDamage` | ruos-raster/src/lib.rs:470-484 | A frame that hashes the same words as the one before, and samples no patch, has no damage |
| `RasterRuns.ReorderingMissed` | ruos-raster/src/lib.rs:461-484 | Counterexample: two overlapping primitives that change places give no damage though the picture changes |
| `RasterRuns.SolidTexelMissed` | ruos-raster/src/lib.rs:502-519 | Counterexample: replacing the texel a solid primitive samples at uv (0, 0) gives no damage though the picture changes |
| `RasterRuns.SkippedIndicesMissed` | ruos-raster/src/lib.rs:700-733 | Counterexample, without any hash collision: a triangle replaced by no vertices and its own words as indices hashes the same words, so that there is no damage though the picture changes |

## Left out

- RasterRender.Raster.Render: exactness on a kept canvas is conditional on `RasterDamage.Faithful`. Each of its three conditions is exact for what the code looks at (`RasterDiff.StableOrderIff`, `RasterDiff.SameWordsIff`, `RasterDamage.UvTestRightIff`); a frame that fails one may still happen to look right, for instance behind an opaque primitive.
- RasterRuns.CanvasIsFullRepaint: conditional in the same way, frame by frame.
- RasterShade.FastPathsAgree: over reals; the rounding of f32 and f64, NaN, infinities and saturating casts are not modelled.
- RasterGeometry.SharedEdgeDrawnOnce: over reals, as above.
- RasterDiff.WordsDetermine: the FNV-1a hash is replaced by the words it is computed from; collisions are not modelled, nor are the two zeros of f32.
- RasterBand.RasterBand: pixels are addressed by row and column; the flattening into four bytes per pixel and the concurrent execution of bands on several cores are not modelled (a band touches only its own rows).
- RasterRender.Raster.PlanDamage: the canvas size `w * h * 4`, computed in u32 by the code, does not wrap; sizes at which it does are not modelled.
- RasterRender.Raster.SetTexture: pixels instead of bytes; the u32 and usize overflow checks on sizes are not modelled.
- DelaySlots.DelayList.Register: the generation counter does not wrap.
- DelaySlots.DelayList.Poll: the per-core lock and the disabling of interrupts around it appear only as atomicity of the methods.
- Magazine.MagazineAlloc.Alloc: addresses are unbounded; talc is any allocator that answers with blocks disjoint from its live ones.
- Frames.Init: sums of addresses do not overflow; a successful return carries the allocator instead of its counts, and logging is left out.
- TlbSafety.NoStaleTranslationWhenUnlocked: 4 KiB pages only; return values of the mapper, missing intermediate tables, the uninitialised mapper and the statistics counters are not modelled.
- TlbEffects.FramesReturned: `unmap_page` hands its frame to the caller; in the model the caller returns it at once, as the callers do.
- TlbSafety.ShootdownNotStuck: states that a step is enabled; no fairness or time bound.
- Inbox.HaltedCoreIsWoken: the compute pool and the wasm threads of the run loop are left out; no fairness or time bound.
- Requests.ReadyIsOwnResult: operations are pure functions of the message; `ExecReply`, which uses the same slot for a spawned task instead of an inbox message, is covered by `Reply` alone.
- Spsc.PoppedIsPrefixOfAccepted: sequentially consistent loads and stores stand for the acquire and release pairs.
- Reply.PendingIsWoken: sequentially consistent, as the code asks for.
- ScheduleRoundTrip.ParseReadsShow: trims ASCII white space only; error texts are not modelled.
- Timers.TimerTable.Scan: starting the unit is represented by the list of started timers; the lock is taken once per call.
- BlockDevice.Device.ReadBlocks: only 512-byte sectors; devices with other sector sizes appear as the refusals of `parse` and `write_layout`.
- GptTheorems.HeaderByteRefused: says nothing about the four bytes of the header size, which move the end of the checksummed range.
- Gpt.Parse: the primary header only, as in the code; that the backup copy would parse too is part of LayoutSurvivesPartitionWrites.
- `find_data`, `SectorScale`, `backoff_ticks`, the mesh wire codec, YAML and JSON, event and log rings: easier members.
- Device drivers, networking, SSH, FAT32, wasm, compositor, console: outside the model.
