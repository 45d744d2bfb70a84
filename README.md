# skift core, modelled in Dafny

This project models the sequential core of the skift operating system and
proves properties of the model:

- **Kernel scheduler** (`Scheduler`, `src/kernel/hjert-core/sched.cpp`). One
  `schedule(span)` pass advances the time base and stamps the outgoing task.
  It gives the idle task the deadline `stamp + 1`. It evaluates every listed
  task once and evicts the EXITED ones in place. The RUNNABLE task with the
  smallest slice end becomes current; on a tie the task scanned last wins.
- **Tasks** (`Tasks`, `task.cpp`). The one-way capability mask
  (`ensure`/`pledge`), the EXITED/BLOCKED/RUNNABLE evaluation with its
  argument-less blocker, and the rule that the task lock is released before
  every yield. The lock is a ghost flag.
- **VMOs** (`Vmos`, `vmo.h`). A tagged union of allocated physical memory
  and a fixed DMA range.
- **Kernel entry** (`Entry`, `entry.cpp`). `validateAndDump` sums the FREE
  handover records. `enterUserspace` applies the ELF `PT_LOAD` mapping
  policy (System V gABI, chapter 5, "Program Header"), maps the handover
  payload and a 64 KiB stack, and creates and queues the init task. `init`
  runs the boot steps in order.
- **PS/2 driver** (`Ps2Defs`, `Ps2`; `ps2.h`, `ps2.cpp`). The i8042
  controller's polled register access, the keyboard's 0xE0 escape decoder,
  the mouse's 3/4-byte packet assembler with 9-bit deltas, and wheel
  detection. The ports are one stream of bytes that successive reads
  return. Every register access is recorded in a trace, and the contracts
  state the exact accesses each call made.
- **Settings navigation history** (`Settings`, `reduce.cpp`).
  Browser-style `GoTo`/`GoBack`/`GoForward` over a history and a cursor.
- **Integer affine transforms** (`Trans`, `trans.h`, `Trans2<int>`).
  The constructors, `applyVector`/`applyPoint`, `multiply`, the `*ed`
  helpers and `isIdentity`.
- **UI node tree** (`Ui`, `node.h`). Reconciling against a fresh node,
  parent links, event delivery to children, `query` and `bubble` along
  the parent chain.

Stateful code is modelled as classes whose methods change their fields and
are specified against functions of the old state. Pure code is modelled as
datatypes, functions and lemmas.

The opaque collaborators of the kernel (`Space::create`/`map`,
`Stack::create`, `Domain::create`, `Arch::createCtx`, `Arch::init`,
`Mem::init`, `Vmo::alloc`/`makeDma`, `kmm().pmm2Kmm`) answer from an
environment `Hal.Env`. It says, per call site, whether the call fails and
where an allocation or a mapping lands. The ELF and handover parsers are
given as values (`Entry.Image`, the record list, the `valid` verdict).
`Flags::has` is modelled as a bit-subset test (`value & flag == flag`).

The scheduler's tie-break follows the code. Line 56 of `sched.cpp` compares
with `<=`, so among RUNNABLE tasks with equal slice ends the last one
scanned wins, not the first.

## Model

| member | source | states |
|---|---|---|
| `Hal.AlignUp` | src/kernel/hjert-core/entry.cpp:77 | the least multiple of the page size that is at least `x` |
| `Hal.Max` | src/kernel/hjert-core/entry.cpp:77 | the larger of the two sizes |
| `Arch.CreateCtx` | src/kernel/hjert-core/task.cpp:55 | context creation fails exactly when a fault is reported, otherwise it holds exactly the given mode, ip, sp, kernel sp and arguments |
| `Arch.Cpu.Yield` | src/kernel/hjert-core/task.cpp:65 | a yield is appended to the CPU's event log |
| `Arch.Cpu.Activate` | src/kernel/hjert-core/task.cpp:97 | activating a space is appended to the CPU's log |
| `Arch.Cpu.Load` | src/kernel/hjert-core/task.cpp:99 | loading a context is appended to the CPU's log |
| `Arch.Cpu.EnableInterrupts` | src/kernel/hjert-core/entry.cpp:124 | enabling interrupts is appended to the CPU's log |
| `Vmos.Vmo.Type` | src/kernel/hjert-core/vmo.h:9 | every VMO carries the object tag VMO |
| `Vmos.Vmo.Range` | src/kernel/hjert-core/vmo.h:19 | the physical range is the allocated range, or the DMA range's start and size |
| `Vmos.Vmo.IsDma` | src/kernel/hjert-core/vmo.h:21-23 | `isDma`: the memory is the DMA variant; see `Vmos.KindIsExclusive` |
| `Vmos.MakeVmo` | src/kernel/hjert-core/vmo.h:17 | the constructor stores the memory variant unchanged, and `isDma` holds iff it is the DMA variant |
| `Vmos.Alloc` | src/kernel/hjert-core/vmo.h:13 | fails with exactly the reported fault; on success a non-DMA VMO over `size` bytes where the allocator placed it |
| `Vmos.MakeDma` | src/kernel/hjert-core/vmo.h:15 | fails with exactly the reported fault; on success a DMA VMO over exactly the given range |
| `Vmos.KindIsExclusive` | src/kernel/hjert-core/vmo.h:21-23 | a VMO's memory is exactly one of the two kinds, and `isDma` tells which |
| `Spaces.Space.Create` | src/kernel/hjert-core/entry.cpp:58 | fails with the reported fault, otherwise a fresh space with no mappings |
| `Spaces.Space.Map` | src/kernel/hjert-core/entry.cpp:85-101 | on failure nothing is mapped; on success the mapping is appended, at the given range or, without one, where the space places it with the VMO's size |
| `Spaces.Space.Activate` | src/kernel/hjert-core/task.cpp:96-97 | the space's activation is appended to the CPU's log |
| `Tasks.EnsureResult` | src/kernel/hjert-core/task.cpp:35-42 | `ensure(p)` succeeds iff the mask has every bit of `p`, else permission denied |
| `Tasks.PledgeResult` | src/kernel/hjert-core/task.cpp:44-50 | `pledge(p)` succeeds iff the mask has `p`, and the new mask is exactly `p`; else permission denied |
| `Tasks.PledgeOnlyNarrows` | src/kernel/hjert-core/task.cpp:44-50 | whatever the mask after a pledge grants, the mask before granted |
| `Tasks.RepledgeIsNoop` | src/kernel/hjert-core/task.cpp:44-50 | pledging the current mask succeeds and keeps it |
| `Tasks.NoEscalation` | src/kernel/hjert-core/task.cpp:35-50 | a capability `ensure` refuses cannot be pledged, and no successful pledge makes `ensure` grant it |
| `Tasks.EvaluateCases` | src/kernel/hjert-core/task.cpp:75-89 | EXITED is decided before the blocker; a blocker keeps the task BLOCKED and stays installed iff it returns `now`; RUNNABLE leaves no blocker; no exit and no blocker is RUNNABLE |
| `Tasks.Evaluate` | src/kernel/hjert-core/task.cpp:75-89 | the state `eval` returns, from the exit flag, the blocker and what the blocker answers; see `Tasks.EvaluateCases` |
| `Tasks.AfterEval` | src/kernel/hjert-core/task.cpp:81-86 | the blocker `eval` leaves: kept while it answers `now`, cleared otherwise; see `Tasks.EvaluateCases` |
| `Tasks.EvaluateIdempotent` | src/kernel/hjert-core/task.cpp:75-89 | with a blocker that answers the same on every call at a given stamp, evaluating again at that stamp gives the same state and blocker |
| `Tasks.Domain.Create` | src/kernel/hjert-core/entry.cpp:105 | fails with the reported fault, otherwise a fresh domain |
| `Tasks.Task.constructor` | src/kernel/hjert-core/task.cpp:25-33 | the task holds the given mode, stack, space and domain, with no blocker and no context; the pledge mask, slice end and signals start at their declared defaults |
| `Tasks.Task.Create` | src/kernel/hjert-core/task.cpp:10-19 | fails iff the stack allocation fails; on success a fresh task on that stack, without a context |
| `Tasks.Task.Acquire` | src/kernel/hjert-core/task.cpp:62 | takes the free task lock |
| `Tasks.Task.Release` | src/kernel/hjert-core/task.cpp:64 | frees the held task lock |
| `Tasks.Task.YieldUnlocked` | src/kernel/hjert-core/task.cpp:65 | a yield can only be issued while the task lock is free |
| `Tasks.Task.Ensure` | src/kernel/hjert-core/task.cpp:35-42 | the answer is `EnsureResult` of the mask; the lock is released and nothing else changes |
| `Tasks.Task.Pledge` | src/kernel/hjert-core/task.cpp:44-50 | on refusal the mask is unchanged and the error is permission denied; on success the mask becomes `p` |
| `Tasks.Task.Ready` | src/kernel/hjert-core/task.cpp:52-57 | a context-creation fault is passed on and the context kept; otherwise the context is built in the task's mode on its kernel stack |
| `Tasks.Task.Block` | src/kernel/hjert-core/task.cpp:59-67 | the blocker is installed, the lock released, then exactly one yield; the result is Ok |
| `Tasks.Task.Crash` | src/kernel/hjert-core/task.cpp:69-73 | the EXITED and CRASHED signals are raised |
| `Tasks.Task.Eval` | src/kernel/hjert-core/task.cpp:75-89 | the state and the blocker left behind are `Evaluate`/`AfterEval` of the exit flag, the old blocker and `now` |
| `Tasks.Task.Load` | src/kernel/hjert-core/task.cpp:95-100 | the CPU log gains the activation of the task's space, when it has one, and then the load of its context |
| `Tasks.Task.Enter` | src/kernel/hjert-core/task.cpp:102-105 | the mode becomes the given one, under the lock |
| `Tasks.Task.Leave` | src/kernel/hjert-core/task.cpp:107-117 | the mode becomes USER, and a yield follows, after the lock is released, exactly when the task was signalled to exit |
| `Scheduler.PickIndex` | src/kernel/hjert-core/sched.cpp:49-58 | the picked entry is RUNNABLE and ends no later than the idle deadline |
| `Scheduler.PickIsMinimal` | src/kernel/hjert-core/sched.cpp:55-58 | no RUNNABLE entry ends before the picked one, every later RUNNABLE entry ends strictly after it, and with no pick every RUNNABLE entry ends after the deadline |
| `Scheduler.Survivors` | src/kernel/hjert-core/sched.cpp:49-54 | the listed tasks whose evaluation was not EXITED, in list order, no more than were listed; see `Scheduler.SurvivorsAreKept` |
| `Scheduler.NothingPicked` | src/kernel/hjert-core/sched.cpp:45-61 | the idle task stays iff every RUNNABLE entry ends after the idle deadline |
| `Scheduler.IdleDeadlineLoses` | src/kernel/hjert-core/sched.cpp:47-56 | a RUNNABLE task whose slice ended by `stamp` is preferred to the idle task |
| `Scheduler.TieGoesToLast` | src/kernel/hjert-core/sched.cpp:55-57 | of two RUNNABLE tasks with equal slice ends, in any list, the earlier one is never picked, and some task is picked when that end is within the idle deadline |
| `Scheduler.EvictStep` | src/kernel/hjert-core/sched.cpp:54 | `removeAt(i--)` of an EXITED entry, or stepping past a kept one, keeps the list equal to the survivors so far followed by the unscanned rest |
| `Scheduler.KeptComplete` | src/kernel/hjert-core/sched.cpp:52-54 | every entry that is not EXITED is kept |
| `Scheduler.SurvivorsAreKept` | src/kernel/hjert-core/sched.cpp:49-54 | the surviving list is exactly the kept entries, in scan order |
| `Scheduler.SurvivorsMembership` | src/kernel/hjert-core/sched.cpp:52-54 | a task survives iff it was listed at a position that did not report EXITED |
| `Scheduler.EvalListed` | src/kernel/hjert-core/sched.cpp:50-51 | a listed task's state is `Evaluate` of the exit flag and blocker it had at the start of the pass, even when an earlier entry of the list already evaluated it (with a blocker that answers the same at a given stamp), and its blocker is then what that evaluation leaves |
| `Scheduler.Visit` | src/kernel/hjert-core/sched.cpp:50-58 | one iteration keeps the pass invariant: survivors so far plus the rest, the candidate and its slice end, the tasks' blockers |
| `Scheduler.Sweep` | src/kernel/hjert-core/sched.cpp:49-59 | each listed task is evaluated once, the list becomes the survivors in order, and the candidate is the `PickIndex` task or idle |
| `Scheduler.Sched.constructor` | src/kernel/hjert-core/sched.cpp:26-31 | the boot task is the only task and is previous, current and idle at once |
| `Scheduler.BootFault` | src/kernel/hjert-core/sched.cpp:15-17 | the first fault `Sched::init` meets: the space, then the boot stack, then the context |
| `Scheduler.Sched.Init` | src/kernel/hjert-core/sched.cpp:13-20 | fails with the first of the space, stack and context faults (`BootFault`) and succeeds iff there is none; on success a SUPER boot task with a space, readied at ip 0 and sp 0 with no arguments, alone in the scheduler |
| `Scheduler.Sched.Enqueue` | src/kernel/hjert-core/sched.cpp:33-37 | the task is appended, the result is Ok, and nothing else changes |
| `Scheduler.Sched.Advance` | src/kernel/hjert-core/sched.cpp:42-47 | the stamp grows by `span` and the previous task is the current one; the current task's slice ends at the new stamp unless it is the idle task, and the idle task's one tick later |
| `Scheduler.Sched.Schedule` | src/kernel/hjert-core/sched.cpp:39-62 | the stamp grows by `span`; previous is the old current; every listed task is evaluated once; the list becomes the survivors in order; the current task is the minimal RUNNABLE one (last on ties) or idle |
| `Entry.FreeTotalIsSumOfFree` | src/kernel/hjert-core/entry.cpp:26-38 | the total is the sum of the sizes of exactly the FREE records |
| `Entry.FreeTotal` | src/kernel/hjert-core/entry.cpp:26-38 | the running `totalFree` after the first `n` records; see `Entry.FreeTotalIsSumOfFree` |
| `Entry.FreeTotalIgnoresOthers` | src/kernel/hjert-core/entry.cpp:36-38 | the size of a record that is not FREE never changes the total |
| `Entry.ValidateAndDump` | src/kernel/hjert-core/entry.cpp:17-49 | fails with invalid input iff the payload is invalid, with nothing summed; otherwise the total is `FreeTotal` of all records |
| `Entry.FindFile` | src/kernel/hjert-core/entry.cpp:52 | the index of the first FILE record with that name, none iff there is no such record |
| `Entry.SegSize` | src/kernel/hjert-core/entry.cpp:77 | whole pages covering both the memory and the file size, less than a page above the larger |
| `Entry.Writable` | src/kernel/hjert-core/entry.cpp:79 | the header's flags include WRITE |
| `Entry.SegMapping` | src/kernel/hjert-core/entry.cpp:79-88 | the mapping a header gets; see `Entry.MappingPolicy` and `Entry.LoadHeadersMapped` |
| `Entry.SegWrite` | src/kernel/hjert-core/entry.cpp:80-84 | the copy a header gets; see `Entry.WholeSegmentCopied` |
| `Entry.Fit` | src/kernel/hjert-core/entry.cpp:84 | the copy is a prefix of the bytes no larger than the room, and the whole of them when they fit |
| `Entry.FaultSticks` | src/kernel/hjert-core/entry.cpp:72-89 | once a header has failed, loading fails with that fault |
| `Entry.MappingPolicy` | src/kernel/hjert-core/entry.cpp:79-88 | every segment mapping covers whole pages and is either a newly allocated non-DMA VMO mapped READ/WRITE at offset 0 or the shared ELF VMO mapped READ/EXEC |
| `Entry.LoadHeadersMapped` | src/kernel/hjert-core/entry.cpp:72-88 | each LOAD header gets its mapping, and headers that are not LOAD get none |
| `Entry.OneMappingPerLoad` | src/kernel/hjert-core/entry.cpp:72-88 | the number of segment mappings is the number of LOAD headers |
| `Entry.WholeSegmentCopied` | src/kernel/hjert-core/entry.cpp:80-84 | a writable segment whose bytes fit is copied whole to the start of its own allocation |
| `Entry.AllocsDisjoint` | src/kernel/hjert-core/entry.cpp:80 | the allocator gives distinct headers non-overlapping memory |
| `Entry.SegmentsDisjoint` | src/kernel/hjert-core/entry.cpp:80-85 | given a disjoint allocator, two writable segments' VMOs do not overlap, and each copy starts at its own VMO and fits in it |
| `Entry.Kmm.Copy` | src/kernel/hjert-core/entry.cpp:84 | the bytes that fit are written at the range's start |
| `Entry.LoadSegments` | src/kernel/hjert-core/entry.cpp:72-89 | fails iff some header faults, with the first fault; otherwise the space gains exactly the `Mappings` and memory exactly the `Writes`, in header order |
| `Entry.HandoverBase` | src/kernel/hjert-core/entry.cpp:92 | the payload address minus the kernel base, wrapped to `usize` |
| `Entry.BuildFault` | src/kernel/hjert-core/entry.cpp:58-101 | the first failure building the init space meets, in step order |
| `Entry.EnterFault` | src/kernel/hjert-core/entry.cpp:51-110 | the first failure `enterUserspace` meets: no init file, the space, the domain, the task's stack, then its context |
| `Entry.BuildSpace` | src/kernel/hjert-core/entry.cpp:58-102 | succeeds iff every step does, and fails with the first failure (`BuildFault`); once the space and the ELF VMO exist an invalid image is refused with invalid input; a fresh space holds the segments, then the handover and the 64 KiB stack, and memory holds the segments' bytes |
| `Entry.EnterUserspace` | src/kernel/hjert-core/entry.cpp:51-114 | succeeds iff every step does, and fails with the first failure (`EnterFault`); a missing init file is invalid input, and so is an invalid image once its space and VMO exist; on success exactly one fresh USER task with a space and a domain is appended, its context at the ELF entry with sp at the stack's end and the handover's address as argument; on failure the task list is unchanged |
| `Entry.KernelInit` | src/kernel/hjert-core/entry.cpp:116-134 | Arch, the handover check, Mem, Sched and userspace run in order and the first failure stops the boot with its error: the Arch or Mem fault, invalid input, `BootFault` or `EnterFault`; the free memory is summed once the handover is valid; interrupts are enabled iff Sched came up; on success the scheduler holds the boot task, current and in IDLE mode, and the USER init task |
| `Ps2Defs.Offset` | src/srvs/device-srv/ps2.h:61-63 | data is at offset 0; status and command share offset 4 |
| `Ps2Defs.StatusFlagsAreBits` | src/srvs/device-srv/ps2.h:23-32 | status flag `i` is bit `i`, the flags are pairwise disjoint, and `has` on a flag tests its bit |
| `Ps2Defs.SetConfigBit` | src/srvs/grund-device/ps2.cpp:94 | setting an interrupt-enable bit makes it set and keeps every other bit |
| `Ps2.I8042.ReadStatus` | src/srvs/grund-device/ps2.cpp:30-33 | one status read taking the next byte, or an I/O failure when none is left |
| `Ps2.I8042.WaitRead` | src/srvs/grund-device/ps2.cpp:35-43 | Ok iff at most 100000 status polls end at the first with OUT_BUF set; otherwise a timeout after exactly 100000 polls without it, or an I/O failure on an exhausted stream after fewer |
| `Ps2.I8042.WaitWrite` | src/srvs/grund-device/ps2.cpp:45-53 | Ok iff at most 100000 status polls end at the first with IN_BUF clear; otherwise a timeout after exactly 100000 polls, or an I/O failure on an exhausted stream after fewer |
| `Ps2.I8042.ReadData` | src/srvs/grund-device/ps2.cpp:55-59 | on success a wait for OUT_BUF then one data read of the returned byte; on failure no data is read |
| `Ps2.I8042.WriteData` | src/srvs/grund-device/ps2.cpp:61-65 | Ok iff a wait for IN_BUF to clear is followed by the data write |
| `Ps2.I8042.WriteCmd` | src/srvs/grund-device/ps2.cpp:67-71 | Ok iff a wait for IN_BUF to clear is followed by the command write |
| `Ps2.I8042.WriteConfig` | src/srvs/grund-device/ps2.cpp:75-79 | on success the WRITE_CONFIG command, then the configuration byte |
| `Ps2.I8042.ReadConfig` | src/srvs/grund-device/ps2.cpp:81-85 | on success the READ_CONFIG command, then a data read whose byte is returned |
| `Ps2.I8042.Flush` | src/srvs/grund-device/ps2.cpp:18-26 | on success the accesses are turns of a status read with OUT_BUF set followed by a polled data read, ended by a status read without it |
| `Ps2.DrainedReadsOneBytePerTurn` | src/srvs/grund-device/ps2.cpp:21-24 | a drained loop reads exactly one data byte per turn |
| `Ps2.ControllerInit` | src/srvs/grund-device/ps2.cpp:10-16 | an attach failure is passed on before any register access; otherwise the controller is flushed |
| `Ps2.EnablePort` | src/srvs/grund-device/ps2.cpp:91-95 | Ok iff the port's enable command, READ_CONFIG, the config read, WRITE_CONFIG and the config with the flag set were sent in that order |
| `Ps2.Keyboard.Init` | src/srvs/grund-device/ps2.cpp:89-100 | enables the main port and sets the first port's interrupt-enable bit |
| `Ps2.Keyboard.constructor` | src/srvs/device-srv/ps2.h:97-100 | a keyboard on the controller, not inside an escape, with no keys yet |
| `Ps2.Keyboard.Decode` | src/srvs/grund-device/ps2.cpp:110-119 | one byte moves the decoder by `KeyStep` |
| `Ps2.KeyStep` | src/srvs/grund-device/ps2.cpp:110-119 | one byte through the decoder: an escaped byte gives an upper-half key, 0xE0 escapes, any other byte gives a key; see `Ps2.EscapedKeys` |
| `Ps2.ScanKeys` | src/srvs/grund-device/ps2.cpp:106-121 | the decoder after a run of bytes; see `Ps2.ScanAppend` and `Ps2.ScanKeysShape` |
| `Ps2.Keyboard.Event` | src/srvs/grund-device/ps2.cpp:102-126 | only IRQ 1 touches the controller; the decoder ends at `ScanKeys` of the data bytes read; on success each byte was read after a status with OUT_BUF set and AUX_BUF clear, until a status without |
| `Ps2.ScanAppend` | src/srvs/grund-device/ps2.cpp:106-121 | bytes delivered over several interrupts decode as if delivered at once |
| `Ps2.ScanKeysShape` | src/srvs/grund-device/ps2.cpp:110-119 | keys are only added, at most one per byte, codes stay below 0x100, and the decoder ends escaped iff the last byte was an unescaped 0xE0 |
| `Ps2.EscapedKeys` | src/srvs/grund-device/ps2.cpp:110-119 | after 0xE0 a byte gives code `(data & 0x7F) + 0x80`; any other byte gives `data & 0x7F`; the two ranges do not meet |
| `Ps2.Signed` | src/srvs/grund-device/ps2.cpp:174 | `(i8)b`: in [-128, 127], negative iff bit 7, and equal to the byte modulo 256 |
| `Ps2.DecodePacket` | src/srvs/grund-device/ps2.cpp:163-175 | without a wheel the scroll is 0 |
| `Ps2.DecodedMove` | src/srvs/grund-device/ps2.cpp:163-175 | each delta lies in [-256, 255], is negative iff its sign flag (0x10, 0x20) is set, and keeps its byte as low eight bits; with a wheel the scroll is the signed fourth byte |
| `Ps2.AssembleAppend` | src/srvs/grund-device/ps2.cpp:185-220 | a packet split over several interrupts assembles as if its bytes came at once |
| `Ps2.AssembleKeepsCycle` | src/srvs/grund-device/ps2.cpp:190-217 | the cycle stays within a packet (at most 2, or 3 with a wheel) and movements are only added |
| `Ps2.UnsyncedBytesDropped` | src/srvs/grund-device/ps2.cpp:191-195 | bytes without bit 0x08 at the start of a packet leave the cycle at 0 and report nothing |
| `Ps2.PacketHead` | src/srvs/grund-device/ps2.cpp:191-210 | three bytes of a synchronised packet fill the first three slots and report nothing until the packet ends |
| `Ps2.PacketDecoded` | src/srvs/grund-device/ps2.cpp:190-217 | a synchronised packet of 3 bytes, or 4 with a wheel, fills the buffer, is reported as exactly one movement decoded from it, and leaves the cycle at 0 |
| `Ps2.Mouse.SendCmd` | src/srvs/grund-device/ps2.cpp:138-147 | the command is recorded as sent and answered by the device's reply |
| `Ps2.Mouse.Init` | src/srvs/grund-device/ps2.cpp:130-161 | Ok iff the auxiliary port is enabled with the second port's interrupt bit and the device answers every probe command; the wheel flag is set iff the last device id is 0x03 |
| `Ps2.Mouse.Probe` | src/srvs/grund-device/ps2.cpp:138-156 | defaults, reporting, the device id, sample rates 200, 100, 80 and the device id again are sent in order, each failure stopping the probe |
| `Ps2.Mouse.ProbeWheel` | src/srvs/grund-device/ps2.cpp:143-156 | the wheel flag is true iff the device id read after the three sample rates is 0x03, and unchanged on failure |
| `Ps2.Mouse.Decode` | src/srvs/grund-device/ps2.cpp:163-178 | reports the movement decoded from the packet |
| `Ps2.Mouse.Feed` | src/srvs/grund-device/ps2.cpp:190-217 | one byte moves the assembler by `MouseStep` |
| `Ps2.Mouse.Accept` | src/srvs/grund-device/ps2.cpp:190-217 | after one more byte the assembler is at `Assemble` of the bytes so far plus that byte |
| `Ps2.MouseStep` | src/srvs/grund-device/ps2.cpp:190-217 | one byte through the packet assembler; see `Ps2.PacketDecoded` and `Ps2.UnsyncedBytesDropped` |
| `Ps2.Assemble` | src/srvs/grund-device/ps2.cpp:185-220 | the assembler after a run of bytes; see `Ps2.AssembleAppend` and `Ps2.AssembleKeepsCycle` |
| `Ps2.Mouse.Event` | src/srvs/grund-device/ps2.cpp:181-225 | only IRQ 12 touches the controller; the assembler ends at `Assemble` of the data bytes read; on success each byte was read after a status with OUT_BUF and AUX_BUF both set, until a status without |
| `Settings.BackIndex` | src/apps/hideo-settings/reduce.cpp:18 | the intended back step: one back, clamped at the first page |
| `Settings.BackIndexAsWritten` | src/apps/hideo-settings/reduce.cpp:18 | the written back step stays a `usize` |
| `Settings.BackIndexAgrees` | src/apps/hideo-settings/reduce.cpp:18 | away from the first page the written back step is the intended one |
| `Settings.BackAtFirstPageEscapes` | src/apps/hideo-settings/reduce.cpp:18 | at the first page the written back step gives the largest `usize`, past the end of the history |
| `Settings.Next` | src/apps/hideo-settings/reduce.cpp:7-24 | every action keeps the cursor on a visited page |
| `Settings.GoToSamePage` | src/apps/hideo-settings/reduce.cpp:10-11 | going to the page already shown changes nothing |
| `Settings.GoToNewPage` | src/apps/hideo-settings/reduce.cpp:13-15 | going elsewhere keeps the pages up to the cursor, appends the page, has length old cursor + 2 and leaves the cursor on the new page |
| `Settings.MovesKeepHistory` | src/apps/hideo-settings/reduce.cpp:17-22 | back and forward keep the history; forward moves one on unless at the last page, back one back unless at the first |
| `Settings.BackUndoesGoTo` | src/apps/hideo-settings/reduce.cpp:13-18 | after going to a new page, back shows the page shown before |
| `Settings.ForwardUndoesBack` | src/apps/hideo-settings/reduce.cpp:17-22 | forward undoes back away from the first page, back undoes forward away from the last |
| `Settings.GoToClearsForward` | src/apps/hideo-settings/reduce.cpp:13-21 | after going to a new page there is nothing to go forward to |
| `Settings.Run` | src/apps/hideo-settings/reduce.cpp:7-24 | any series of actions keeps the cursor on a visited page |
| `Settings.RunKeepsFirstPage` | src/apps/hideo-settings/reduce.cpp:7-24 | the first page is never forgotten, and without a visit the history never changes |
| `Settings.State.Reduce` | src/apps/hideo-settings/reduce.cpp:7-24 | the state after `reduce` is `Next` of the state before, and the cursor stays on a visited page |
| `Settings.State.Value` | src/apps/hideo-settings/reduce.cpp:7 | the state as a history and a cursor |
| `Settings.State.Valid` | src/apps/hideo-settings/reduce.cpp:10 | the cursor is on a visited page, so `page()` exists |
| `Trans.Determined` | src/libs/karm-math/trans.h:62-64 | a transform is determined by where it sends the origin and the two unit points |
| `Trans.IdentityFixesPoints` | src/libs/karm-math/trans.h:109-113 | the default transform is the identity, and `isIdentity` holds iff every point is fixed |
| `Trans.TranslateMovesPoints` | src/libs/karm-math/trans.h:51-64 | a translation adds its offset to points and leaves vectors alone; `applyVector` ignores the origin |
| `Trans.ScaleStretches` | src/libs/karm-math/trans.h:47-60 | a scale multiplies each coordinate by its factor |
| `Trans.SkewShears` | src/libs/karm-math/trans.h:43-64 | a skew shears each axis along the other |
| `Trans.MultiplyComposes` | src/libs/karm-math/trans.h:55-75 | `a.multiply(b)` applies `a` first, then `b`, to vectors and to points |
| `Trans.MultiplyIdentity` | src/libs/karm-math/trans.h:66-75 | the identity is neutral on both sides |
| `Trans.MultiplyAssociative` | src/libs/karm-math/trans.h:66-75 | `multiply` is associative |
| `Trans.HelpersApplyAfter` | src/libs/karm-math/trans.h:81-95 | the `*ed` helpers apply their transform after `t`, and `scaled(s)` is `scaled(s, s)` |
| `Trans.SameKindCompose` | src/libs/karm-math/trans.h:47-75 | translations compose by adding offsets, scales by multiplying factors |
| `Trans.OrderMatters` | src/libs/karm-math/trans.h:66-75 | scaling then translating differs from translating then scaling |
| `Trans.Skew` | src/libs/karm-math/trans.h:43-45 | `skew(x, y)`; see `Trans.SkewShears` |
| `Trans.Scale` | src/libs/karm-math/trans.h:47-49 | `scale(x, y)`; see `Trans.ScaleStretches` |
| `Trans.Translate` | src/libs/karm-math/trans.h:51-53 | `translate(x, y)`; see `Trans.TranslateMovesPoints` |
| `Trans.ApplyVector` | src/libs/karm-math/trans.h:55-60 | the linear part applied to a vector; see `Trans.TranslateMovesPoints` |
| `Trans.ApplyPoint` | src/libs/karm-math/trans.h:62-64 | the linear part applied, then the origin added; see `Trans.Determined` |
| `Trans.Multiply` | src/libs/karm-math/trans.h:66-75 | `multiply`; see `Trans.MultiplyComposes` and `Trans.MultiplyAssociative` |
| `Trans.Skewed` | src/libs/karm-math/trans.h:81-83 | `skewed`; see `Trans.HelpersApplyAfter` |
| `Trans.Scaled` | src/libs/karm-math/trans.h:85-87 | `scaled(x, y)`; see `Trans.HelpersApplyAfter` |
| `Trans.ScaledBy` | src/libs/karm-math/trans.h:89-91 | `scaled(s)`; see `Trans.HelpersApplyAfter` |
| `Trans.Translated` | src/libs/karm-math/trans.h:93-95 | `translated`; see `Trans.HelpersApplyAfter` |
| `Trans.IsIdentity` | src/libs/karm-math/trans.h:109-113 | `isIdentity`; see `Trans.IdentityFixesPoints` |
| `Ui.Node.LeafNode` | src/libs/karm-ui/node.h:56-58 | a new leaf has no parent and no children |
| `Ui.Node.GroupNode` | src/libs/karm-ui/node.h:106-110 | the group holds the given children and each is attached to it |
| `Ui.Node.ProxyNode` | src/libs/karm-ui/node.h:187-189 | the proxy holds its child and the child is attached to it |
| `Ui.Node.Attach` | src/libs/karm-ui/node.h:79-81 | the parent becomes `p` |
| `Ui.Node.Detach` | src/libs/karm-ui/node.h:83-86 | the parent is cleared iff it is `p`, and unchanged otherwise |
| `Ui.Outcome` | src/libs/karm-ui/node.h:62-68 | NONE iff the other node has this node's type, otherwise the other node |
| `Ui.Node.Reconcile` | src/libs/karm-ui/node.h:62-68 | the outcome is `Outcome`; a node of the same type is absorbed by the container's reconcile, which leaves every child attached, while a leaf keeps its empty child list; the node keeps its container shape; a node of another type changes no child list and no parent link; a child that is dropped keeps its parent link, and so does this node when it is not among the children |
| `Ui.Node.ReconcileGroup` | src/libs/karm-ui/node.h:126-140 | the children become `Reconciled` of the old children and the other's, each attached to this group; a dropped child keeps its parent link, and so does this group when it is not among the children |
| `Ui.Node.ReconcileProxy` | src/libs/karm-ui/node.h:203-207 | the child is kept when the other's child has its type, replaced otherwise, and attached; a replaced child keeps its parent link, and so does this proxy when it is not among the children |
| `Ui.Reconciled` | src/libs/karm-ui/node.h:130-139 | the children after a group reconcile are as many as the other group's |
| `Ui.Pick` | src/libs/karm-ui/node.h:131-135 | child `i` after a group reconcile; see `Ui.ReconciledChildren` |
| `Ui.ReconciledChildren` | src/libs/karm-ui/node.h:131-135 | child `i` is kept when the types match, replaced by `them[i]` when they differ, and `them[i]` is inserted beyond the old length |
| `Ui.SameShapeKeepsChildren` | src/libs/karm-ui/node.h:126-140 | against a group of the same types, the children are kept, truncated to its length |
| `Ui.Node.Event` | src/libs/karm-ui/node.h:151-160 | an accepted event goes nowhere; otherwise children get it in order up to the first that accepts; the result is accepted iff some child accepted |
| `Ui.Reached` | src/libs/karm-ui/node.h:155-159 | an event reaches no more children than there are |
| `Ui.ReachedAt` | src/libs/karm-ui/node.h:155-159 | an event reaches the children up to and including the first that accepts it, or all of them |
| `Ui.Query` | src/libs/karm-ui/node.h:88-94 | the nearest node of the parent chain, the node itself first, whose type is `id`; null iff there is none |
| `Ui.Bubbled` | src/libs/karm-ui/node.h:70-73 | an accepted event goes no further; otherwise every ancestor sees it |

## Left out

- Logging (`logInfo`/`logError`), the key names of the PS/2 driver, and object labels have no effect on the modelled state.
- The x86_64 back end is not part of this model. The time span `schedule` receives is an input.
- Locks are ghost flags, and there is no model of concurrency or preemption.
- Reference counting and the lifetime of `Strong<>` handles are not modelled.
- `Task::self()` (`sched.cpp` `_curr`), `Task::save` and the trap frame are not modelled. `Entry.KernelInit` turns the scheduler's current task, the boot task, into the idle task.
- `Entry.KernelInit`: the idle loop does not return. `Ok` stands for reaching it. `retainEnable` on the CPU is not modelled.
- `Entry.ValidateAndDump`: the total is an unbounded number; the `usize` wrap of `totalFree` is not modelled. The total is returned rather than printed.
- `Scheduler.Sched.Schedule`: the stamp is an unbounded number. `TimeStamp` overflow is not modelled.
- `Tasks.Evaluate`, `Tasks.EvaluateIdempotent`, `Scheduler.EvalListed` and `Scheduler.Sched.Schedule`: a blocker is a pure function `poll` of the blocker. It answers the same on every call at a given stamp. The source's closure may answer differently when it is called again, for example on a second pass with a span of 0.
- `Tasks.Task.constructor`: the pledge mask (every pledge), the slice end (0) and the signals (none) are the member defaults in `task.h`, which is not part of this model. They are assumed.
- `Entry.MappingPolicy`: the physical allocator is not modelled. That distinct allocations do not overlap is the hypothesis `Entry.AllocsDisjoint` of `Entry.SegmentsDisjoint`, not a promise of the model. Allocation of the stack is not covered by it.
- `Entry.FindFile`: the handover parser's `fileByName` is assumed to return the first FILE record with the name.
- The ELF and handover parsers, `Space`, `Stack`, `Domain`, `Arch::createCtx`, `Arch::init`, `Mem::init`, `Vmo::alloc`/`makeDma` and `kmm()` are opaque. Their answers come from `Hal.Env` or are parameters.
- `Vmo::range()` has no body in `vmo.h`. `Vmos.Vmo.Range` returns the stored range of either variant.
- `Ps2.Keyboard.Event`: the result of `Device::event(e)` (dispatch to child nodes) is not modelled. The method returns Ok where the source returns that result.
- `Ps2.Mouse.Event`: likewise, the result of `Device::event(e)` is not modelled.
- `Ps2.ControllerInit`: attaching the devices is not part of this model. Its outcomes are parameters.
- `Ps2.Mouse.SendCmd`: the body of `sendCmd` and `getDeiceId` is not part of this model. The device's replies are the parameter `aux`.
- Writes to the controller's ports always succeed. Reads take bytes from one stream, and a read past its end is an I/O failure.
- `Ps2.Mouse.constructor`: the source leaves `_cycle`, `_buf` and `_hasWheel` uninitialised. The model starts them at 0, zero bytes and false.
- `Ps2.Keyboard.constructor`: the source leaves `_esc` uninitialised. The model starts it at false.
- The draining loops of `flush` and of both `event` methods have no bound in the source. They spin for as long as the device reports OUT_BUF. In the model the byte stream is finite, so every loop ends, and a device that never clears OUT_BUF cannot be expressed.
- Whether a key was pressed or released is kept as bit 7 of the byte, which is all the source reports.
- `Settings.State.Reduce`: uses the clamped back step, `Settings.BackIndex`, not the wrapping one as written. See Findings.
- `Settings.Next`, `Settings.Run`, `Settings.MovesKeepHistory` and `Settings.ForwardUndoesBack`: like `Settings.State.Reduce`, they are about the clamped back step.
- The settings `State` declaration, its initial history and `page()` live in `app.h`, which is not part of this model. `page()` is taken as the history entry under the cursor.
- The `usize` bounds on the history length are not modelled.
- Integer overflow of `Trans2<int>` arithmetic is not modelled. The coordinates are unbounded integers.
- `rotate`, `rotated`, `inverse`, `hasNan` and `Trans2<double>` use trigonometry, division and floating point, and are not modelled.
- `vec.h` is not part of this model. `Vec2` addition is taken to be component-wise.
- `Ui.Node.Reconcile`: a reused child's own reconcile against its counterpart is not modelled. The model covers one level of the tree. The container's reconcile is modelled, and so is the outcome each child's `reconcile` returns.
- `Ui.Node.Event`: how each child handles the event is an input (`accepts`).
- `Ui.Bubbled`: the `bubble` overrides of derived nodes are not modelled.
- `paint`, `layout`, `size`, `bound`, `visit` and the destructors of the UI nodes are not modelled.

## Findings

| source | as written | input that shows it | evidently intended | confidence | as-written member | corrected member |
|---|---|---|---|---|---|---|
| src/apps/hideo-settings/reduce.cpp:18 | `max(historyIndex - 1, 0uz)` subtracts in `usize` first, so at index 0 the difference wraps to 2^64 - 1 and `max` does not clamp | `GoBack` with `historyIndex == 0`, for any history | the cursor stays on the first page | not executed | `Settings.BackAtFirstPageEscapes` | `Settings.BackIndex` |

The as-written back step is `Settings.BackIndexAsWritten`.
`Settings.BackAtFirstPageEscapes` proves that at the first page it leaves
the cursor outside the history. `Settings.BackIndexAgrees` proves that
everywhere else it equals the clamped step. `Settings.BackIndex` is the
clamped step that `Settings.Next` and `Settings.State.Reduce` use. The
settings view only offers back when `canGoBack()` holds, so the wrap is
reachable through `reduce` alone.
