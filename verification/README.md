# iso-light-k0: a verified model

This project models the parts of the iso-light-k0 kernel whose correctness is hardest to see
from the code, and proves properties of them in Dafny. `dafny verify dfyconfig.toml` checks it.

## What is modelled

**Virtual memory.** `Allocator` is the bitmap frame allocator, proved to be a set of free frames
over every run. `Radix` is a generic four-level table tree with an ownership tag per table frame;
`Paging`, `Spaces`, `VmRuns` and `VmSharing` build the x86_64 address spaces on it (tables, user
frames and free frames as one value), and `AddressSpace` is the same structure updated in place over
the bitmap allocator. `LinearMap` is the direct map. `Boot` goes from the memory map to the state in
which processes can be spawned. `Stage1`, `Stage1Tables` and `Stage1Runs` are the aarch64
tables drawn from their 24-table pool. `PageEntry` ties the leaves and descriptors of both to the bits
of 64-bit entries.

**Loading programs.** `Elf` and `ElfFaults` are the parser and what it guarantees; `UserMemory`, `Segments` and
`Loader` follow `spawn_elf` from a fresh address space to a recorded process, with user memory read
through the page tables. `SpawnPlan` computes the outcome beforehand, from the pages asked for and
the number of free frames alone. `ElfWriter` writes ELF files on its own account, and `Programs` says
what a process spawned from one finds in memory.

**HSM registry, buses and wire protocol.** `SoftBus` is the 64-byte software bus, `Wire` the frame
format, `Registry` the eight slots with their buses as one value, so that a hash request that
re-enters the registry while being served has a sequential meaning. `HsmSafety`, `HsmRuns`,
`HsmSecrets`, `HsmRights`, `HsmAudit`, `HsmTraffic` and `HsmAnswers` prove what runs of calls keep and
what each call answers. `HsmDevice` is the registry
updated in place: every slot owns a bus object with array storage, kept apart by an invariant, and a
nested request reaches the very objects the outer one is using; `HsmReplay` carries that to whole
runs. The value carries an event log that
no operation reads; properties over runs are stated on it.

**Audit ring.** `Audit` relates the 32-entry ring to the unbounded log; `AirGap` is the 456-byte
status reply.

**TLS.** `Hkdf` is HKDF-Expand and the label encoder, `Handshake` the PSK handshake with the key
schedule of each side, `HandshakeKeys` the same schedule written out and what its keys bind, `Records`
the record layer and the pool of connections, `RecordStreams` what a receiver accepts over any network.

**ML-DSA chunk protocol** (`Sign`, and whole sessions in `SignSessions`) and **entropy health tests** (`Health`) relate in-place code to
functions of whole inputs or histories.

## Conventions

- Addresses, counters and lengths are unbounded numbers; widths, wrap-around and saturation are
  written out where the code has them. Machine words that matter bit by bit are bit sequences.
- Physical memory is a map from frame numbers to tables or page contents; barriers, registers and
  cache maintenance have no effect in it. The registry, the signing session and the page tables are
  used by one core at a time, as the code assumes.
- Cryptographic primitives are function parameters: hash, MAC, AEAD, key agreement, signature scheme,
  attestation check. Random draws, the endpoint table and arguments copied from user memory are parameters of
  the calls; an argument whose range is not a user range is absent.
- The build modelled is the closed profile (no `tls-external` feature).

## Where code and comments disagree

The model follows the code.

- A hash request reports Ok for any slot whose bus yields 32 bytes, not only for a hash slot
  (`HsmTraffic.HashOutcome`, `HsmTraffic.EchoAnswersWithInput`).
- The relay is described as atomic; its source read is not undone on failure
  (`HsmTraffic.FailedRelay`).
- Enrolment is described as recording every outcome; a full registry, a bad init blob and a failed
  token draw are not recorded (`HsmRuns.EnrolmentAudited`).
- A snapshot is described as the ring's contents; in the 32 events after the total wraps it is
  shorter (`Audit.SnapshotComplete`).
- The label encoder checks lengths up to 255 but its buffer has 128 bytes (`Hkdf.BuildLabel`).
- A handshake that finds only one free slot is described as giving it back; it stays taken
  (`Handshake.FailedRun`).
- The application secrets are described as bound to the transcript up to the server's Finished; the
  handshake passes the one that includes the client's Finished (`Handshake.Finish`).
- Kernel mappings are described as shared by all spaces; one made later is seen only where the root
  entry already existed (`Spaces.LateKernelMapSeen`).

## Model

| member | source | states |
|---|---|---|
| Allocator.BitmapFrameAllocator.Alloc | src/allocator.rs:201-233 | hands out the lowest free frame, and none exactly when no frame is free; the free set loses that frame only, and the counter and the first-free-word hint stay correct |
| Allocator.BitmapFrameAllocator.Dealloc | src/allocator.rs:240-267 | reports an out-of-range frame and a double free exactly when they occur, without change; otherwise the frame becomes free |
| Allocator.BitmapFrameAllocator.MarkRangeFree | src/allocator.rs:133-157 | exactly the frames lying wholly inside the byte range are added to the free set |
| Allocator.BitmapFrameAllocator.MarkRangeUsed | src/allocator.rs:172-182 | exactly the frames meeting the byte range are removed from the free set |
| Boot.InitFromMemoryMap | src/allocator.rs:163-167 | starting with no free frame, exactly the frames lying wholly inside a usable region become free, however the regions overlap |
| Boot.StartAllocator | src/arch/x86_64/kernel_start.rs:341-370 | after the memory map and the two reservations the free frames are exactly the usable ones past the first megabyte and the kernel image |
| Allocator.Replay | src/allocator.rs:96-270 | any sequence of calls on the bitmap is the same sequence of steps on a set of free frames, and the counter is that set's size |
| Allocator.NeverHandedOutTwice | src/allocator.rs:201-267 | in every run, a frame handed out twice was released in between |
| Allocator.ReservedUntilReleased | src/allocator.rs:172-233 | in every run, a frame meeting a reserved range is not handed out before something releases it |
| Paging.PageNumber | src/arch/x86_64/mmu.rs:214-217 | the four table indices of an address are exactly its bits 47 to 12 |
| PageEntry.EntryRoundTrip | src/arch/x86_64/mmu.rs:154-174 | reading back a written 64-bit entry gives the masked address bits and the flags, with no-execute forced on writable pages |
| PageEntry.LeafIsEntry | src/arch/x86_64/mmu.rs:164-174 | the frame number and flags kept in a 4 KiB leaf of the table model are those the entry's bits hold |
| PageEntry.LargeLeafIsEntry | src/arch/x86_64/mmu.rs:177-186 | the same for a 2 MiB leaf, whose address keeps bits 21 to 51 |
| PageEntry.LeafDescIsWord | src/arch/aarch64/mmu.rs:318-344 | the assembled 64-bit word of a kernel page reads back, bit by bit, as a valid accessed page with the frame (bits 12 to 47), access, execute-never, memory-type and shareability bits of the descriptor in the model |
| PageEntry.LeafDescUserIsWord | src/arch/aarch64/mmu.rs:484-502 | the same for a user page |
| Paging.TableForGrown | src/arch/x86_64/mmu.rs:446-500 | building the missing tables of a walk changes no lookup under any root, touches no table of another subtree and overlaps no user frame |
| Paging.MapAtRefines | src/arch/x86_64/mmu.rs:272-296 | a mapping call adds exactly the requested leaf, or changes no lookup at all although empty tables may remain |
| Paging.MapPageWalks | src/arch/x86_64/mmu.rs:272-362 | after a successful map_page the page walks to the given address and every page differing in bits 47 to 12 walks as before |
| Paging.MapPageTranslates | src/arch/x86_64/mmu.rs:272-362 | after a successful map_page every address of the page leads to its own byte of the memory given |
| Paging.FailedMapKeepsWalks | src/arch/x86_64/mmu.rs:272-362 | a failing map_page leaves every walk of every address space as it was |
| Paging.MapPageOutcome | src/arch/x86_64/mmu.rs:272-296 | which error map_page reports: alignment, then writable and executable, then already mapped, then exactly when too few frames are free for the missing tables |
| Paging.Map2MiBOutcome | src/arch/x86_64/mmu.rs:389-419 | the same for map_2mib_page, which also refuses a region whose last-level table exists, even an empty one |
| Paging.MapUserPageOutcome | src/arch/x86_64/mmu.rs:308-324 | which error map_user_page reports: an address not aligned or not below bit 47, then a page already there, then too few free frames; never its own permissions |
| Paging.UserPageMapped | src/arch/x86_64/mmu.rs:308-324 | after a successful map_user_page the page is a 4 KiB leaf to the given memory with present and user set, writable exactly as asked and non-executable exactly when writable |
| Spaces.NewSpaceView | src/process.rs:173-187 | a new root that has inherited the kernel half, before the boot stack is added, sees the kernel's upper half and nothing below; every existing space and frame is unchanged |
| Spaces.UserMapIsolated | src/arch/x86_64/mmu.rs:308-324 | mapping a user page changes no lookup of any other space and no upper-half lookup of its own, and writes no table outside its own lower half |
| Spaces.UserMapKeepsSharing | src/arch/x86_64/mmu.rs:308-380 | user mappings keep every space's upper half identical to the kernel's |
| Spaces.LateKernelMapSeen | src/arch/x86_64/mmu.rs:376-380 | a kernel page mapped after a space inherited the kernel half is visible there exactly when its root entry was already present |
| VmRuns.RunRefinesMap | src/arch/x86_64/mmu.rs:272-419 | from any state, every run of mapping and space-creating calls over any number of spaces is a run of partial maps, cell by cell: for every lower-half page, and for every upper-half page asked for through one root only; `VmSharing.RunRefinesShared` covers the others |
| VmSharing.RunRefinesShared | src/arch/x86_64/mmu.rs:272-419 | every run of calls through any roots gives every page of every space, upper half included, exactly what successful calls put there through roots that shared its root entry at that moment; it asks that no two tables below the roots lead to one table, which holds from boot on |
| VmSharing.RunForked | src/arch/x86_64/mmu.rs:272-419 | every run of calls keeps that no two tables below the roots lead to one table |
| VmSharing.JoinedForGood | src/arch/x86_64/mmu.rs:272-380 | roots that share a root entry share it after every later run, and see the same below it |
| VmRuns.RunProvenance | src/arch/x86_64/mmu.rs:272-419 | in every run, what was mapped stays, and what became mapped was asked for by a successful call on that very page |
| VmRuns.RunWx | src/arch/x86_64/mmu.rs:164-418 | in every run no leaf of any table, 4 KiB or 2 MiB, is both writable and executable |
| VmRuns.RunSharesKernel | src/arch/x86_64/mmu.rs:272-419 | after every run of calls in any spaces, a space and the kernel it inherited from translate alike below every root entry that was present at inheritance |
| LinearMap.AllLinear | src/arch/x86_64/mmu.rs:613-645 | if every 2 MiB region is mapped, each physical address below the limit reads back through its linear address by a 2 MiB leaf that is present, writable, never executable and closed to user mode |
| LinearMap.CountExact | src/arch/x86_64/mmu.rs:613-645 | the linear map uses as many 2 MiB pages as the memory below 4 GiB needs, and not one more |
| AddressSpace.PageTables.AllocOrGetTable | src/arch/x86_64/mmu.rs:446-500 | the in-place table lookup is the value-level one: existing table, fresh cleared table, refused 2 MiB leaf or no frame |
| AddressSpace.PageTables.MapPage | src/arch/x86_64/mmu.rs:272-296 | the in-place walk and store compute the value-level map_page for every outcome |
| AddressSpace.PageTables.MapUserPage | src/arch/x86_64/mmu.rs:308-324 | the in-place call computes the value-level one for every outcome, refused outside the aligned lower half; on success the leaf has present and user set and write and no-execute as asked, bit by bit |
| AddressSpace.PageTables.Map2MiBPage | src/arch/x86_64/mmu.rs:389-419 | the same for 2 MiB pages |
| AddressSpace.PageTables.InheritKernelMappings | src/arch/x86_64/mmu.rs:376-380 | the copy loop replaces exactly the upper 256 root entries |
| AddressSpace.PageTables.AllocUserSpace | src/process.rs:173-187 | a fresh cleared root that has inherited the kernel half, before the boot stack is added, or an error with nothing changed |
| AddressSpace.PageTables.BuildLinearMap | src/arch/x86_64/mmu.rs:613-645 | the loop is the run of 2 MiB calls up to the first that fails, nothing mapped before is lost, and on success every physical address below the highest one and 4 GiB is linearly mapped |
| AddressSpace.PageTables.Replay | src/arch/x86_64/mmu.rs:272-419 | every run of calls on the tables in place is, state and results, the run on their value |
| Boot.RunSettled | src/arch/x86_64/mmu.rs:272-419 | in every run the root of every private table is still a table, user frames are whole pages and free frames lie in the addressable range |
| Boot.BootKernel | src/arch/x86_64/kernel_start.rs:341-466 | for every memory map, kernel image and linear offset, and whatever the kernel maps in its own space with failures ignored, start-up ends in a state that meets everything spawn_elf asks for, with no process, no writable and executable leaf, no two tables below the roots leading to one, and a completed linear map still in place |
| Stage1.LeafDesc | src/arch/aarch64/mmu.rs:318-344 | a kernel descriptor exists exactly for aligned, not both writable and executable requests, holds the frame and never pairs write with execute |
| Stage1.LeafDescUser | src/arch/aarch64/mmu.rs:484-502 | a user descriptor exists exactly for aligned addresses, never executes in the kernel, and a writable one never executes at all |
| Stage1.OneReference | src/arch/aarch64/mmu.rs:303-311 | each pool table is referenced by at most one entry of the whole structure |
| Stage1.MapDescRefines | src/arch/aarch64/mmu.rs:370-400 | map_desc adds exactly one page under one root, or changes no lookup under either root |
| Stage1.MapDescOutcome | src/arch/aarch64/mmu.rs:370-400 | map_desc fails exactly on a mapped page or when the pool cannot supply the missing tables |
| Stage1.MapDescTree | src/arch/aarch64/mmu.rs:370-400 | every map_desc, failing or not, keeps one parent per pool table |
| Stage1.TargetSafe | src/arch/aarch64/mmu.rs:350-554 | no argument of map_leaf, map_page or map_user_page leads to a page both writable and executable; user pages are reachable from EL0, never execute in the kernel, and user calls stay under the lower root |
| Stage1.TargetExact | src/arch/aarch64/mmu.rs:318-554 | the root and every attribute of the descriptor the three mapping calls ask for, from their arguments: user access, read-only, the two execute-never bits and device memory |
| Stage1.TargetRefused | src/arch/aarch64/mmu.rs:318-554 | exactly which arguments of the three calls are refused before any table is touched |
| Stage1.CalledOutcome | src/arch/aarch64/mmu.rs:350-554 | the exact outcome of the three mapping calls: the error their arguments deserve, an occupied page, a pool too small for the missing tables, or exactly one page added with every other page of both roots as before |
| Stage1Runs.ArmRunRefines | src/arch/aarch64/mmu.rs:350-554 | every run of map_leaf, map_page and map_user_page calls with any arguments is a run of one partial map per root, keeps one parent per table and shows no page both writable and executable |
| Stage1Runs.MappedForGood | src/arch/aarch64/mmu.rs:350-554 | a page once mapped reads the same after every later run |
| Stage1Runs.NeverRemapped | src/arch/aarch64/mmu.rs:350-554 | every later call for it is refused |
| Stage1Runs.UserRunsStayLow | src/arch/aarch64/mmu.rs:543-554 | no run of user calls changes a page of the kernel's root |
| Stage1Tables.Stage1Space.MapDescriptor | src/arch/aarch64/mmu.rs:370-400 | the in-place loop over levels computes the value-level map_desc |
| Stage1Tables.Stage1Space.MapPage | src/arch/aarch64/mmu.rs:511-533 | the in-place call computes the value-level one for every outcome; on success the address walks to the given page |
| Stage1Tables.Stage1Space.MapUserPage | src/arch/aarch64/mmu.rs:543-554 | the same for user pages |
| Stage1Tables.Stage1Space.MapRange | src/arch/aarch64/mmu.rs:406-426 | on success every page of the rounded range is mapped from its identity and its linear address; success or not, earlier mappings stay and nothing outside the range is mapped |
| Stage1Tables.RangeExact | src/arch/aarch64/mmu.rs:406-426 | the pages of a range reach past its last byte and not one page further |
| Stage1Tables.RangeWalks | src/arch/aarch64/mmu.rs:562-591 | every page of a mapped range walks back to itself from both addresses |
| Stage1Tables.Stage1Space.BuildStage1Map | src/arch/aarch64/mmu.rs:439-466 | on success text, rodata, data and the three device windows are mapped with their own permissions; success or not, earlier mappings stay |
| Stage1Tables.KernelSeen | src/arch/aarch64/mmu.rs:439-466 | after build_stage1_map every page of text, rodata, data and the three device windows is seen under both roots with its own attributes, and only text executes |
| Elf.Parse | src/elf.rs:147-270 | accepts exactly the files with clean headers and a user-half entry point, returns their PT_LOAD headers in order, and what it accepts can be loaded without leaving the file or the user half; a refused file gets the one error it deserves: of the file header, of the first faulty program header, or of the entry point |
| ElfFaults.TakenExactly | src/elf.rs:147-270 | the files taken, field by field: a header for this machine, program headers of 56 bytes, at most eight and inside the file, none of them dynamic, every loadable segment inside the file and the user half with a power-of-two alignment of at least a page, and an entry point below bit 47 |
| ElfFaults.FaultNamed | src/elf.rs:147-270 | the error of a refused file names a fault the file has, in its header, in one of its program headers, or in its entry point |
| Elf.FaultDecides | src/elf.rs:147-270 | no file deserves two errors, and an acceptable one deserves none |
| Elf.ScanHeaders | src/elf.rs:188-259 | the first faulty program header decides the error; without one all PT_LOAD headers are kept in order |
| Elf.LoadsAreLoadable | src/elf.rs:219-248 | each accepted PT_LOAD lies inside the file and below the user limit, page-rounded end included |
| ElfWriter.WrittenParses | src/elf.rs:147-270 | every file an independent writer lays out, header, program headers and contents, from an entry point and segments with permissions and bytes is accepted with exactly that entry point and exactly those segments in order, other headers skipped |
| ElfWriter.WritableAsWritten | src/elf.rs:133-136 | a segment counts as writable exactly when it was written with the write permission, whatever its other permissions |
| UserMemory.UserPageStep | src/process.rs:220-241 | one round of region mapping adds one cleared private frame at an unmapped page and disturbs nothing else |
| UserMemory.WriteShows | src/process.rs:460-479 | bytes copied into one page's frame show on that page only |
| Segments.CopyChunk | src/process.rs:460-479 | one round of the copy loop extends the copied prefix of the segment and keeps every other page's picture |
| Segments.SegmentReads | src/process.rs:438-481 | a loaded segment reads, byte by byte, as the file's bytes and then zero up to the page-rounded end |
| Segments.SegmentsStay | src/process.rs:389-481 | whatever is added to the space later, loaded segments stay loaded |
| Segments.UntouchedReads | src/process.rs:389-481 | spawning changes no byte any existing space can read |
| Loader.Processes.MapUserRegion | src/process.rs:220-241 | ends exactly as the plan foresees; on success every page of the region is a cleared frame of its own with its flags; in any case only the new space grows |
| Loader.Processes.CopyFile | src/process.rs:458-481 | the copy loop's walk never fails on a freshly mapped region, and it places the whole file part |
| Loader.Processes.LoadSegment | src/process.rs:438-481 | ends exactly as the plan foresees; on success the segment's bytes are in place on user pages that are writable and never execute, or read-only, as the write bit of its header says; in any case nothing that existed is touched |
| Loader.Processes.MapBootStack | src/process.rs:201-212 | ends exactly as the plan foresees; on success every page of the boot stack is mapped at its own address as kernel memory, writable and never executable |
| Loader.BootWalks | src/process.rs:201-212 | each page of the mapped boot stack walks to itself |
| Loader.Processes.MapUserStack | src/process.rs:300-319 | on success the stack is cleared, writable, fresh pages below the given top; bad sizes and addresses are refused |
| Loader.Processes.FindFreeSlot | src/process.rs:122-130 | the first empty process slot, or none exactly when all are taken |
| Loader.Processes.SpawnElf | src/process.rs:389-431 | starts a process exactly when the file is acceptable, a slot is free and the plan works out, and otherwise reports the first of these to fail, an unacceptable file with the error the parser owes it; a started process has boot stack, segments with their permissions and user stack in memory behind a root of its own with the kernel half, and the frames it took are exactly those of the plan; a failed call leaves the slots alone; no existing table or user frame changes by a bit and W^X is kept; the next call may follow |
| Programs.Start | src/process.rs:389-431 | spawn_elf on a written program: the file is never at fault, and a started process finds, address by address, every byte of every segment and zeros up to its size in memory on user pages writable exactly as written and never both writable and executable, a zeroed writable stack of 64 KiB below 0x7FFFFFFFF000, and the program's entry point |
| Loader.ForeseenFine | src/process.rs:170-431 | the plan works out exactly when boot stack, segments and user stack ask for different, well-placed pages and the free frames cover the root, one per user page and the missing tables of every walk |
| SpawnPlan.StepsOutcome | src/process.rs:201-241 | a series of page requests on a new space completes exactly when the pages differ and the frames suffice, and then exactly its cost has been taken |
| SpawnPlan.StepsError | src/process.rs:201-241 | different, well-placed pages fail only for want of frames |
| SpawnPlan.StepsClash | src/process.rs:201-241 | with frames enough up to there, the first page asked for twice is reported as already mapped and the first misplaced one as unaligned |
| SpawnPlan.MapFollows | src/arch/x86_64/mmu.rs:272-296 | each mapping call moves the set of mapped pages, the built part of every walk and the number of free frames exactly as computed from the pages mapped before |
| Audit.AuditRing.Enqueue | src/hsm_attest.rs:223-239 | the ring, its head and its wrapping total stand for the whole log with the new event appended |
| Audit.AuditRing.TakeSnapshot | src/hsm_attest.rs:252-270 | a snapshot is the oldest part of the last min(total, 32) events that fits, in order, with the wrapped total; the rest of the buffer is untouched |
| Audit.SnapshotComplete | src/hsm_attest.rs:252-270 | a full snapshot holds the last min(n, 32) events exactly when n is below 2^32 or n mod 2^32 is at least 32 |
| Audit.SnapshotNumbers | src/hsm_attest.rs:223-270 | before the total wraps, snapshot numbers are consecutive and end at total - 1 |
| Audit.EventsRoundTrip | src/bus.rs:308-317 | serialised events decode back to the events, wherever they lie in a buffer |
| Audit.StatusRoundTrip | src/bus.rs:287-325 | the wire status payload decodes back to count, total and events |
| Audit.AuditRing.StatusPayload | src/bus.rs:287-325 | the staging loop produces that payload for a full snapshot |
| AirGap.Enumerate | src/hsm_registry.rs:487-512 | lists the attached slots among the first ones that fit the buffer's length, in slot order, and leaves the rest of the buffer alone |
| AirGap.ListedExactly | src/hsm_registry.rs:487-512 | the listing names exactly the attached slots it was asked about |
| AirGap.StatusDecodes | src/air_gap.rs:344-393 | the 456-byte reply decodes back to the attached slots in order, padded with unused entries, and to the audit snapshot, with zeros everywhere else |
| AirGap.BuildStatus | src/air_gap.rs:344-393 | the two filling loops produce exactly that reply |
| AirGap.SysStatus | src/air_gap.rs:314-419 | a short buffer is refused unrecorded, a wrong token is refused and recorded once under code 2, a reply address outside user memory is refused unrecorded, and only a correct call gets the reply; the registry after it is the one the run step gives |
| Wire.HeaderRoundTrip | src/bus.rs:108-127 | every header survives encoding and parsing, whatever follows it |
| Wire.HeaderBytes | src/bus.rs:108-127 | every 16 bytes are the encoding of exactly the header they parse to |
| Wire.ReplyWellFormed | src/bus.rs:130-151 | a reply has the right magic, version and exact length, the response bit, and the request's identifier |
| Wire.ErrorWellFormed | src/bus.rs:154-171 | so does an error frame |
| Wire.ResponseIsNoRequest | src/bus.rs:743-755 | no frame the kernel emits, even extended, passes the request checks |
| SoftBus.EchoIsFifo | src/bus.rs:502-527 | over every run of writes and reads the bytes read are a prefix of the bytes accepted, at most 64 bytes are ever accepted, and the rest is what is unread |
| SoftBus.NonceInjective | src/bus.rs:556-558 | different counter values give different 96-bit nonces |
| SoftBus.SoftwareBus.Open | src/bus.rs:442-489 | opening accepts exactly the known roles with a zero tail, draws a key only for AES-GCM, and otherwise changes nothing |
| HsmAnswers.RolesOpened | src/bus.rs:442-489 | the first init byte chooses echo, hash or sealing, everything behind it must be zero, and only sealing needs a key; nothing is unread at first |
| HsmAnswers.SealedRead | src/bus.rs:544-576 | what is read back after a sealing write is the count as a nonce and the cipher's output under the slot's key and that nonce, and the count went up by one |
| HsmAnswers.HashedRead | src/bus.rs:528-542 | what is read back from a hash slot is the hash of the last data written |
| SoftBus.SoftwareBus.Read | src/bus.rs:502-511 | the oldest unread bytes that fit are copied out and consumed; the rest of the buffer is untouched |
| SoftBus.SoftwareBus.Write | src/bus.rs:513-578 | echo appends, hash and seal overwrite the ring, and every refusal leaves the bus as it was |
| SoftBus.SoftwareBus.Zeroize | src/bus.rs:612-625 | key, role, ring and cursors are all reset |
| HsmRuns.AttachInstalls | src/hsm_registry.rs:269-340 | a refused attach changes nothing; an accepted one fills the first empty slot with an empty bus of the requested kind, leaves the others alone and issues a capability that authenticates for the granted rights |
| HsmRuns.DetachWipes | src/hsm_registry.rs:385-415 | detach succeeds exactly for a capability with the slot's token and every right asked for (`HsmRights.DetachNeeds`), wipes exactly that slot, otherwise changes nothing and tells bad slot, empty slot and bad token apart, never Busy |
| HsmRights.UseNeeded | src/hsm_registry.rs:840-919 | a write or read through a capability without bit 0, or to a slot attached without it, is denied and changes nothing |
| HsmRights.RelayNeeds | src/hsm_registry.rs:934-1042 | a relay without bit 3 of the source or bit 4 of the destination, in the capability or in its slot, is denied and changes nothing |
| HsmRights.DetachNeeds | src/hsm_registry.rs:351-415 | a detach is refused with nothing changed when any bit it asks for is missing from the capability or its slot |
| HsmRights.HashNeeds | src/bus.rs:174-226 | a nested request whose capability, or the slot it names, lacks bit 0 is answered Denied and nothing changes |
| HsmRights.OnlyGrantedRights | src/hsm_registry.rs:269-415 | in every run from boot, a write, read, relay or detach that succeeds or changes any slot presents tokens that were issued earlier in that run for those slots with the rights that call needs |
| HsmRuns.EnrolmentAudited | src/hsm_registry.rs:546-712 | enrolment grants a slot exactly when its arguments are sound and attested, a slot is empty, a token is drawn and the bus opens; it appends one audit entry exactly when it grants, when well-posed arguments fail attestation, or for the network kind |
| HsmAnswers.EnrolmentBrings | src/hsm_registry.rs:546-712 | a granted enrolment brought 3732 bytes of key and signature that attest for its kind of bus and, for a wire bus, a registered endpoint; it gets the drawn token and all five rights in the first empty slot, with the key's fingerprint noted |
| HsmAnswers.EnrolReturns | src/hsm_registry.rs:546-712 | the code an enrolment returns, from its raw arguments and the slots, in the order the kernel looks |
| HsmAnswers.EnrolRecords | src/hsm_registry.rs:546-712 | the audit entry an enrolment leaves, field by field, and when it leaves none |
| HsmRuns.RunInv | src/hsm_registry.rs:197-415 | in every run each slot is wiped or attached with a nonzero token and an open bus, never in between |
| HsmSafety.WriteKeeps | src/bus.rs:722-780 | a write, nested requests included, keeps all invariants and never changes who holds a slot |
| HsmSafety.HashKeeps | src/bus.rs:174-226 | so does a hash request that re-enters the registry, and its reply is well formed with the request's identifier |
| HsmRuns.AnsweredOnce | src/bus.rs:702-780 | in every run, a frame read from a slot answers the request that slot took last, and nothing was read there since that request |
| HsmRuns.WriteTakes | src/bus.rs:722-780 | an accepted request found the bus idle and becomes the one the slot owes an answer to, even when nested requests went through the same slot |
| HsmRuns.ReadAnswers | src/bus.rs:702-719 | after any run, a successful read returns a well-formed response to the owed request, which would not be accepted as a request, and the debt is gone |
| HsmRuns.BusyRefuses | src/bus.rs:730-735 | in every run from boot, while a slot owes an answer, every write to it is refused and changes nothing |
| HsmSecrets.RevokedForGood | src/hsm_registry.rs:351-415 | in every run from boot whose issued tokens never repeat, once a capability was used to detach its slot, every capability carrying its token is denied by detach, write, read and relay, with nothing changed |
| HsmSecrets.NoncesNeverRepeat | src/bus.rs:544-576 | in every run from boot whose sealing keys never repeat, no two sealings, nested ones included, share key and nonce |
| HsmAudit.TrafficAppends | src/bus.rs:243-280 | reads, writes and relays, nested requests included, only append to the audit log, and only entries of re-attestations that carry the verdict on the key and signature presented |
| HsmAudit.RunAudit | src/hsm_registry.rs:546-712 | over every run, status calls included, the log only grows and numbers its entries, and holds exactly one entry per enrolment that was granted, failed attestation or named the network kind and per status call with a wrong token, under its code |
| HsmTraffic.NestingBound | src/bus.rs:174-226 | each nested request is at least 32 bytes shorter, so one write takes at most 128 requests, whatever its data |
| HsmTraffic.HashOutcome | src/bus.rs:174-226 | the exact answer to an authenticated hash request for every kind of target: the hash on a Blake3 slot whatever was unread, other bytes or Internal elsewhere, always Internal on a wire slot |
| HsmTraffic.NestingTaken | src/bus.rs:174-226 | the requests one write takes are exactly those found by unwrapping its data |
| HsmTraffic.EchoAnswersWithInput | src/bus.rs:174-226 | an Ok answer need not be a hash: the reply of an echo slot nothing was written to carries a 32-byte input unchanged |
| HsmTraffic.StatusAnswer | src/bus.rs:287-325 | the answer to a status request decodes to the audit snapshot of that moment |
| HsmAnswers.PingAnswer | src/bus.rs:229-231 | a ping is answered with an empty Ok frame, byte by byte, and changes nothing |
| HsmAnswers.UnknownAnswer | src/bus.rs:757-780 | an unknown command is answered with error 2 and changes nothing |
| HsmAnswers.AttestAnswer | src/bus.rs:243-280 | a re-attestation is answered Ok exactly when the signature attests and Denied otherwise, and recorded with that verdict and the key's fingerprint; a malformed one is answered BadFrame and leaves no trace |
| HsmAnswers.StatusRefused | src/bus.rs:287-325 | a status request with a payload is answered BadFrame and changes nothing |
| HsmAnswers.HashRefused | src/bus.rs:174-226 | a hash request too short for a capability is answered BadFrame and changes nothing |
| HsmAnswers.HashAnswer | src/bus.rs:174-226 | the answer of a hash slot is an Ok frame with the hash of everything behind the capability |
| HsmAnswers.WireHashAnswer | src/bus.rs:174-226 | a hash request to a wire slot always comes back as error 4 |
| HsmAnswers.WriteThenRead | src/bus.rs:702-780 | the frame read after an accepted write is the answer to the request in that write, as its header delimits it |
| Registry.CapRoundTrip | src/hsm_registry.rs:102-113 | a capability written to user memory reads back as itself, whatever follows it |
| HsmTraffic.RelayMoves | src/hsm_registry.rs:934-1042 | a relay between echo slots, one slot to itself included, succeeds exactly when the bytes are there and fit, and then moves exactly them in order and touches nothing else |
| HsmTraffic.FailedRelay | src/hsm_registry.rs:1003-1031 | a relay that fails after both capabilities are accepted, for every kind of source and destination, leaves everything unchanged exactly when the source had nothing to give, or when a hash slot is relayed to itself and its digest is a fixed point of the hash |
| HsmDevice.HsmRegistry.AttachSlot | src/hsm_registry.rs:269-340 | the slot scan and the field-by-field commit compute attach; the new bus is a storage object no other slot shares |
| HsmDevice.HsmRegistry.DetachSlot | src/hsm_registry.rs:385-415 | the detaching window and the wipe of the slot's own bus object compute detach |
| HsmDevice.HsmRegistry.WriteBus | src/bus.rs:722-780 | the dispatcher, recursive through the hash command, computes the bus write although the inner request works on the same array-backed buses, pending buffer included, that the outer one uses |
| HsmDevice.HsmRegistry.SysWrite | src/hsm_registry.rs:840-919 | the system call computes the checked write, its length and address errors exactly when they occur, and leaves the staging buffer all zero; `HsmRights.UseNeeded` says what the check asks |
| HsmDevice.HsmRegistry.SysRead | src/hsm_registry.rs:1065-1145 | the bytes leave the ring or the pending frame of the slot's own bus, in place, and reach the caller through a staging buffer; the buses after it, the frame consumed, stand for the read registry; length and address errors exactly when they occur, and the check is that of `HsmRights.UseNeeded` |
| HsmDevice.HsmRegistry.SysRelay | src/hsm_registry.rs:934-1042 | the system call computes the relay, its length and address errors exactly when they occur, and leaves the staging buffer all zero; `HsmRights.RelayNeeds` says what its checks ask |
| HsmDevice.HsmRegistry.SysAttach | src/hsm_registry.rs:546-712 | the system call computes the enrolment with its audit entry |
| HsmReplay.Replay | src/hsm_registry.rs:269-1145 | every run of attach, enrol, detach, write, read, relay and status calls on the registry in place, buses and audit ring included, is the run on its value |
| Sign.RunInv | src/sign_service.rs:162-427 | after every sequence of messages an idle service holds no nonzero byte, a finished one no input byte, and nothing lies beyond a declared length |
| Sign.ExecInv | src/sign_service.rs:299-389 | a failing execution changes nothing; a successful one wipes all inputs |
| Sign.PartCloses | src/sign_service.rs:231-297 | a part closes exactly when an accepted chunk ends at the declared length; bytes outside the chunk keep their values |
| Sign.Gathered | src/sign_service.rs:231-297 | key, auxiliary input and message sent as in-order pieces of any sizes up to 240 bytes are exactly what is executed |
| Sign.FetchedAll | src/sign_service.rs:391-415 | in-order output chunks concatenate to the whole output |
| Sign.RoundTrip | src/sign_service.rs:162-414 | begin, pieces in, one execution and chunks out equal the operation on the sender's inputs, errors included |
| SignSessions.KeygenSession | src/sign_service.rs:162-415 | a key generation session returns 3872 bytes: the public key of the seed, then its secret key; without a whole seed, those of the drawn randomness |
| SignSessions.SignSession | src/sign_service.rs:162-415 | a signing session returns the scheme's signature of the message under exactly the key sent, and refuses a key of another length |
| SignSessions.VerifySession | src/sign_service.rs:162-415 | a verification session returns the byte 1 exactly when the scheme accepts, and tells a rejected signature from a failed check |
| SignSessions.VerdictKept | src/sign_service.rs:299-389 | a finished session keeps a positive verdict exactly when it was a verification |
| SignSessions.RefusedSession | src/sign_service.rs:162-229 | any other operation or sizes, and only those, are refused as a whole: nothing is collected and nothing executed |
| SignSessions.SignedVerifies | src/sign_service.rs:162-427 | for a scheme that accepts its own signatures: sign in one session with the secret part fetched in another, verify in a third with the public part, and the third accepts, whatever states the sessions start in and however inputs are cut |
| Sign.SignService.HandleBegin | src/sign_service.rs:162-229 | accepts exactly an idle service with a known operation and fitting lengths, and starts from wiped buffers |
| Sign.SignService.HandleInChunk | src/sign_service.rs:231-297 | the three phases store into their buffer and advance as the one generic step |
| Sign.SignService.HandleExec | src/sign_service.rs:299-389 | computes the execution on the declared prefixes of the buffers; what each operation outputs is stated by `SignSessions.KeygenSession`, `SignSessions.SignSession` and `SignSessions.VerifySession` |
| Sign.SignService.HandleOutChunk | src/sign_service.rs:391-415 | returns the next at most 240 output bytes, empty past the end |
| Sign.SignService.HandleEnd | src/sign_service.rs:417-427 | wipes everything and returns to idle from any phase |
| Sign.SignService.Replay | src/sign_service.rs:162-427 | every sequence of messages to the service in place is the run on its value |
| Health.RunMeans | src/arch/common/entropy/health.rs:78-90 | the counted run is at least k exactly when the last k samples are equal |
| Health.CheckedFits | src/arch/common/entropy/health.rs:78-119 | the constant-size fields keep describing the whole history, and the verdict is the one the history determines: fail exactly on a run of 41, or on closing a 1024-sample window of kept samples with 793 equal to its first |
| Health.RecentMeans | src/arch/common/entropy/health.rs:92-96 | the two counters say exactly whether a failure occurred among the last k samples |
| Health.StreamHealth.Check | src/arch/common/entropy/health.rs:78-119 | the in-place evaluator returns that verdict on every stream, counters saturating |
| Health.StreamHealth.IsDisabled | src/arch/common/entropy/health.rs:70-72 | disabled exactly when one of the last 16 samples failed |
| Records.NonceInjective | src/tls/record.rs:48-55 | under one IV different sequence numbers give different nonces |
| RecordStreams.NonceBytes | src/tls/record.rs:48-55 | the nonce is the IV with the last eight bytes changed exactly where the big-endian sequence number has a bit |
| Records.NoncesDiffer | src/tls/record.rs:79-151 | over every run of sends under one key, no two successful ones share a nonce |
| Records.RecordRoundTrip | src/tls/record.rs:79-250 | with an AEAD whose opening undoes sealing, a record opens under equal keys to the plaintext with both counters advanced, exactly when the reader has room |
| RecordStreams.RecordBytes | src/tls/record.rs:57-151 | a record is type 23, version 3.3, the length, and the plaintext with its type sealed under the current nonce with those five bytes as associated data |
| RecordStreams.AcceptedBytes | src/tls/record.rs:164-250 | whatever is accepted has that form and opened, under the next nonce and its own header, to the plaintext and its type |
| RecordStreams.ReceivedInOrder | src/tls/record.rs:79-250 | over any network, when only the sender seals under the key, the plaintexts accepted are those sent, from the first on, in order and each once, whatever is dropped, repeated, reordered, altered or made up |
| Records.LoopbackStep | src/tls/handshake.rs:520-544 | between connections in step an exchange delivers the plaintext and keeps them in step, except exactly when the receiver's buffer is too small for a record already sent |
| Records.ConversationDelivers | src/tls/handshake.rs:520-544 | every conversation in both directions with large enough buffers returns each plaintext exactly or reports a failed send, and ends in step |
| Records.ConversationComplete | src/tls/handshake.rs:520-544 | with a cipher that never fails, short plaintexts and numbers to spare, every turn is delivered |
| Records.OutOfStepForGood | src/tls/handshake.rs:520-544 | once a record was sent into a buffer too small for it, no later conversation brings the two connections back in step |
| Records.ConnectionPool.SendReceive | src/tls/handshake.rs:520-544 | the exchange through the record buffer, on pooled connections found by handle, is the loopback of the pool for all handles, invalid ones and one connection to itself included; the buffer is written only on success |
| Records.ConnectionPool.Allocate | src/tls/mod.rs:278-288 | a new connection in the first empty slot, or PoolFull exactly when there is none |
| Records.ConnectionPool.CloseSlot | src/tls/mod.rs:302-312 | the slot becomes empty, the keys of the closed connection are zero, and no other slot changes |
| Handshake.InstalledInStep | src/tls/handshake.rs:464-504 | the two connections are in step exactly when each side's own derived keys agree in both directions; both start at sequence number zero |
| Handshake.ShakeOutcome | src/tls/handshake.rs:148-509 | for all primitives and draws: the handshake succeeds exactly when its draws do, the PSK is known with key material and the key exchange agrees, and then both sides hold equal application secrets, which `HandshakeKeys.ShakeSpelled` spells out; the binder, Finished, transcript-length and policy checks never fail, and the three possible errors are told apart, a known PSK without material being an HSM failure |
| HandshakeKeys.ShakeSpelled | src/tls/keyschedule.rs:130-290 | a successful handshake ends with the secrets of section 7.1 of RFC 8446 written out as nested MACs and hashes over the PSK, the shared secret and the bytes of the four messages, with every label spelled in bytes, on both sides |
| HandshakeKeys.InstalledKeys | src/tls/handshake.rs:464-504 | the keys and IVs in the pool after a successful run are those of the written-out schedule: the client writes and the server reads under the client's secret, and the other way round |
| HandshakeKeys.KeysBind | src/tls/keyschedule.rs:130-257 | two handshakes that arrive at the same client key had the same PSK, shared secret and messages, unless one of the seven corresponding MAC calls or the transcript hash collided |
| HandshakeKeys.TranscriptBinds | src/tls/handshake.rs:205-330 | equal messages carry the same PSK identity, suite, policy, random values and key shares |
| Handshake.HonestShake | src/tls/handshake.rs:148-509 | with symmetric key agreement and decapsulation undoing encapsulation, only a missing draw, an unknown PSK or a refused peer key makes it fail |
| Handshake.RunConnects | src/tls/handshake.rs:98-146 | a run succeeds exactly when two slots are free and the handshake does; it takes the first two free slots, which are then in step with fresh counters, and leaves every other slot as it was |
| Handshake.FailedRun | src/tls/handshake.rs:98-146 | a failed run leaves the pool as it was exactly when it did not find one single free slot; that slot it keeps, the pool is full, and a further run fails with nothing changed |
| Handshake.ConnectedTalk | src/tls/handshake.rs:98-544 | from a successful run on, every conversation of fitting plaintexts between the two connections is delivered in full |
| Records.DirectionalKeys.BuildNonce | src/tls/record.rs:48-55 | the byte loop computes the IV exclusive-or the padded big-endian sequence number |
| Records.DirectionalKeys.EncryptRecord | src/tls/record.rs:79-151 | computes the protected record in place, advancing the counter only on success |
| Records.DirectionalKeys.DecryptRecord | src/tls/record.rs:164-250 | computes the opened content; a failure leaves buffer and counter alone |
| Hkdf.Expand | src/crypto_service.rs:204-249 | the loop fills the buffer with the first L bytes of T(1), T(2), ... for every accepted L, each block the MAC over the one before it in the buffer, the info and its number, the counter never wrapping; it refuses longer outputs untouched |
| Hkdf.OkmChained | src/crypto_service.rs:204-249 | each 32 bytes of the output, the last ones possibly cut, are the MAC over the 32 before them, the info and their own number |
| Hkdf.ShorterIsPrefix | src/crypto_service.rs:204-249 | a shorter output is a prefix of a longer one |
| Hkdf.LabelInjective | src/tls/keyschedule.rs:37-79 | the label structure determines length, label and context |
| Hkdf.BuildLabel | src/tls/keyschedule.rs:37-79 | the cursor-based encoder produces that structure exactly when all of it fits the 128-byte buffer; past its length checks a store falls outside exactly for labels longer than 118 bytes, and everything else is refused |

## Left out

- Cryptographic primitives (BLAKE3, SHA-2, AES-GCM, ChaCha20-Poly1305, ML-DSA, ML-KEM, X25519, the DRBG): parameters without further laws, except where a result states them.
- Effective permissions: a leaf's own flags are modelled, not their combination with the flags of the tables above it, which on x86_64 carry no-execute and no user bit.
- Assembly, control registers, TLB and cache maintenance, boot stubs, interrupts and device drivers: no effect in the model.
- Constant-time comparison and volatile wiping: ordinary comparison and assignment.
- The process loader over aarch64 tables and its inherit_kernel_mappings: only the x86_64 loader is modelled.
- spawn_flat, load_flat_payload and entering ring 3: they would repeat the ELF path or have no content here.
- The Multiboot2 tag loop: the memory map is the list of usable regions it yields.
- The Detaching state is entered and left inside one call, so no run observes it.
- Ordering of accesses between cores: every structure is used by one core at a time.
- IPC endpoints, the PSK keystore, capability spaces, and the one-shot capability hand-out of air_gap.rs: small machines with little to prove.
- The handshake messages as in-place buffers and the transcript kept in each slot: messages and transcripts are values of one run.
- A handshake between two machines: the code offers only the loopback, in which both sides read one keystore and one shared secret.
- The attestation message and the boot challenge: inside the attestation parameter.
- handle_enumerate around the slot listing: argument checks only.
- VmRuns.RunRefinesMap: does not cover upper-half pages asked for through several roots, because `VmSharing.RunRefinesShared` states those with the sharing of root entries.
- Loader.Processes.SpawnElf: frames claimed by a call that fails stay claimed, as in the code; nothing is stated about reclaiming them.
- Records.LoopbackStep: what the receiver answers once out of step depends on the AEAD and is not stated.
