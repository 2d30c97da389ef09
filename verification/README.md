# Bounds monitors, driver protocols and a DMA buffer driver

This project models the three bodies of stateful C code in the benchmark corpus of the repository and proves what
they are there for.

- `bounds/` — the array-bounds-check monitors `abc.c`, `abc2.c`, `abc3.c` and `abc4.c`. A program is instrumented with
  calls into a monitor that guesses one block (or one bad address), prunes runs with `assume` and reports with `assert`.
  `BoundsProgram` describes such a program with symbolic pointers (a block and a distance from its base), the layouts
  that place its blocks, and the events a monitor sees. Each monitor is a class with the static variables of its C file,
  proved against a step function; guesses and skipped logs are explicit choices. Proved are soundness, completeness and
  both together as an exact characterisation of what is reported, for well-behaved programs and for arbitrary ones, the
  assume-guarantee treatment of stored pointers, and the simulations between the encodings. `TrackedArray`
  (`encoding-ex-1.c`) and `TrackedList` (`list1_check.c`) are two clients that inline the same idea.
- `drivers/` — the protocol automaton for one I/O request that the driver files share (`IrpProtocol`), with theorems
  about arbitrary sequences of kernel calls, and the four drivers `KbFilter`, `DiskPerf`, `CdAudio` and `Floppy` on top
  of it, each with the exact condition under which its `main` calls `errorFn`, for all inputs, in both variants of the
  file, and with the proof that it completes or hands down every request exactly once unless it queues it, also around
  the custom requests of the two drivers that send some.
- `videobuf/` — the videobuf-dma-contig driver in `03_sat.c`: physical contiguity of user pages (`UserPages`), memory
  acquired and given back on every path of a mapping (`VideoBuffers`, `MmapMapper`), and the reference count and lock
  of a mapping (`MapLifetime`). 64-bit and 32-bit wrap-around is modelled.

`dafny verify dfyconfig.toml` checks everything.

## Conventions

- Addresses, offsets and sizes in `bounds/` and all integers in `drivers/` are unbounded. In `videobuf/` machine words
  wrap explicitly.
- Everything read nondeterministically is a parameter, and so are the answers of external functions.
- `errorFn` and `ldv_error` do not return in C. Here they set a flag that nothing clears and execution goes on, so that
  "never called" is the flag being false at the end.
- The statements over whole runs speak of every program, layout, guess and choice sequence, or every sequence of calls,
  of any length.

## Findings

- `abc2.c`: an overflow through a pointer that has sunk below its block is not reported by any run that tracks this block
  (`MonitorBoundary.SunkenAccessIsMissed`), because the assume on the tracked pointer prunes the run. A run that tracks
  another block reports it when the sunken address happens to be that block's base
  (`MonitorBoundary.AliasedSunkenAccessIsReported`); a program with one block contains such an overflow that no run reports
  (`MonitorBoundary.SunkenOverflowIsNotReported`). With the blocks apart the exact boundary, for every program, is
  `MonitorBoundary.ReportedByIffSeen`.
- `abc4.c`: the bytes-left encoding misses exactly the underflows through pointers other than the base of the block
  (`DerefExactness`), and runs do reach them.
- `abc.c`: a move to address 0 makes the monitor forget its block (`FlagPointerMonitor.NullMoveHidesAnAlarm`). No pointer
  that stays inside its block gets there (`FlagPointerExactness.InsideRunsAgree`).
- `abc3.c`: an access downwards from its base is never reported. One upwards is reported exactly if it ends past its block,
  or starts from a base that lies so far below the block that the bad address fits in between, above the room of the
  earlier blocks (`BadPointerMonitor.ReportedIffSeen`). The assume marked optional is implied.
- `floppy_simpl4`: the count of references on the paged code is not dropped on the two early returns of `FloppyPnp`.
- `cdaudio_simpl1`: `SendSrbSynchronous` always fails, since its request is the constant 0. All code after a success of
  it is dead.
- `diskperf_simpl1`: the completion routine `DiskPerfIoCompletion` is never registered.
- `03_sat.c`: after a failed mmap the buffer still names the freed mapping, an uncached memory keeps its stale address
  when the remapping failed, and pages inserted before a failure stay inserted. If the allocator hands out the address of
  the freed mapping again, the last close of the new mapping gives back the memory of an uncached buffer a second
  time, or address 0 if that memory could not be allocated: `MmapMapper.MapAfterFailure` has the exact condition, and
  `MmapMapper.MemoryIsGivenBackTwice` the calls. The size of a user buffer can wrap, and then does not cover the buffer
  although the call may succeed (`UserPages.UserGet`, `UserPages.WrappedRequest`).

## Model

| member | source | states |
|---|---|---|
| MonitorExactness.ReportedIffViolated | benchmarks/seahorn/abc/abc2.c:50-167 | Exactness of the offset encoding in every configuration: for a program whose pointers stay inside their blocks (and are all logged, unless only base accesses are checked), some layout, guess and choices fail an assert if and only if some access leaves its block |
| MonitorBoundary.ReportedByIffSeen | benchmarks/seahorn/abc/abc2.c:50-167 | The exact boundary of completeness for every program and every configuration, with no assumption on its pointers, its log, its stores or its loads: with the blocks apart some run fails by call n if and only if one of the calls up to n is an overflow of known size; or leaves its block through a pointer at or above the block to which some moves lead without an access through the followed pointer while it is below; or, with the store checks on, stores a pointer into a block; in the last two cases with no pointer into that block loaded before |
| MonitorBoundary.SunkenAccessIsMissed | benchmarks/seahorn/abc/abc2.c:61-63 | In every program, layout and run: a run that tracks the accessed pointer's own block never fails at an access through a pointer below that block |
| MonitorBoundary.AliasedSunkenAccessIsReported | benchmarks/seahorn/abc/abc2.c:53-60 | For two blocks of any sizes, a sunken access whose address is the base of the other block is reported, by a run that tracks the other block |
| MonitorBoundary.OneBlockReportedIffSeen | benchmarks/seahorn/abc/abc2.c:50-167 | With at most one block the boundary is that of all runs in all layouts |
| MonitorBoundary.SunkenOverflowIsNotReported | benchmarks/seahorn/abc/abc2.c:61-63 | Completeness fails, in every configuration that looks at moved pointers, for a block of any size and any distance below it: an overflow through a pointer that far below the block violates the bounds, and no run in any layout reports it |
| MonitorBoundary.LoggedIsSeen | benchmarks/seahorn/abc/abc2.c:91-105 | Where the derivations are logged the boundary is read off the access: it is seen exactly if its pointer is not below its block and no pointer into the block was loaded before |
| MonitorBoundary.FailingAccessIsSeen | benchmarks/seahorn/abc/abc2.c:50-71 | An access at which any run fails, with the blocks apart, is such a violation |
| MonitorBoundary.FailingStoreIsSeen | benchmarks/seahorn/abc/abc2.c:129-137 | A store at which any run fails, with the blocks apart, stores a pointer into the tracked block, and no such pointer was loaded before |
| MonitorBoundary.EndsAreRead | benchmarks/seahorn/abc/abc2.c:107-137 | Programs that store only the ends of blocks, and load what they stored, load no pointer into a block |
| MonitorBoundary.SeenIsReported | benchmarks/seahorn/abc/abc2.c:50-167 | Every such call is reported by that call, in some layout with the blocks apart, whatever else the program does |
| MonitorBoundary.RunIsExplained | benchmarks/seahorn/abc/abc2.c:91-105 | Every live run has followed some moves of pointers into its own block, holds their sum as its offset, and has loaded no pointer into the block |
| MonitorBoundary.OwnBlockIsActive | benchmarks/seahorn/abc/abc2.c:145-156 | A live run that guessed a block is active exactly from the allocation of that block on |
| MonitorExactness.ViolationIsReported | benchmarks/seahorn/abc/abc2.c:50-167 | Every out-of-block access through a logged pointer at or above its block is reported in some layout with disjoint blocks, whatever else the program does, also in a program that allocates nothing |
| MonitorExactness.KnownViolationFails | benchmarks/seahorn/abc/abc2.c:78-84 | An access of known size and offset that overflows fails, or something before it does, in the run that guesses an empty block, in every layout above address 1, whatever the program loads |
| MonitorExactness.UntrackedRunsOn | benchmarks/seahorn/abc/abc2.c:140-167 | The run that guesses an empty block at address 1 tracks nothing, and no assume prunes it, in every layout above that address |
| MonitorExactness.CellsArePlaced | benchmarks/seahorn/abc/abc2.c:107-137 | What the memory cells hold as addresses is what the program stored as pointers, placed by the layout |
| MonitorCompleteness.EveryViolationFails | benchmarks/seahorn/abc/abc2.c:50-167 | Completeness: an access leaving its block through a pointer derived by logged moves that never sank below the block fails, at that access or before, in every layout with the block lowest, for some guesses and skips |
| MonitorCompleteness.TrackedViolationFails | benchmarks/seahorn/abc/abc2.c:50-71 | The same for any given choice of followed moves: the guesses that fail are the block itself and exactly those moves |
| MonitorCompleteness.RunFollows | benchmarks/seahorn/abc/abc2.c:91-167 | With these guesses no assume prunes the run: until something is reported the monitor state is the tracked block and the followed pointer |
| MonitorCompleteness.DerivedIsTrackable | benchmarks/seahorn/abc/abc2.c:91-105 | Every pointer with its derivation in the log is reached by following some subset of the logged moves without going below the base |
| MonitorCompleteness.AllocationFollows | benchmarks/seahorn/abc/abc2.c:145-156 | In a layout with the tracked block lowest no allocation is pruned, and the tracked one is recognised |
| MonitorCompleteness.MoveFollows | benchmarks/seahorn/abc/abc2.c:91-105 | A move is followed or skipped exactly as chosen |
| MonitorCompleteness.CheckFollows | benchmarks/seahorn/abc/abc2.c:50-84 | Accesses, loads and stores either fail or leave the monitor as it was |
| MonitorSoundness.NoFalseAlarm | benchmarks/seahorn/abc/abc2.c:50-167 | Soundness: if all pointers and accesses stay within the block they were derived from (one past the end allowed), no assert fails, for every layout, every tracked block and every pattern of skipped logs |
| MonitorSoundness.SeparationHolds | benchmarks/seahorn/abc/abc2.c:145-167 | Invariant of every surviving run: the tracked block lies below and apart from all others, and the tracked pointer is its base plus the offset |
| MonitorSoundness.StepKeepsSeparated | benchmarks/seahorn/abc/abc2.c:91-156 | Each call keeps that invariant |
| MonitorSoundness.LegalStepIsQuiet | benchmarks/seahorn/abc/abc2.c:50-137 | A call that stays inside its block neither fails nor moves the tracked pointer out of its block |
| MonitorSoundness.StaysInside | benchmarks/seahorn/abc/abc2.c:91-105 | In every live run of a program whose pointers stay inside their blocks the tracked pointer stays inside its block, also after violated accesses |
| MonitorSoundness.CellsHoldNoInterior | benchmarks/seahorn/abc/abc2.c:129-137 | The guarantee of stores, over whole runs: no memory cell ever holds a pointer into the tracked block other than its base |
| MonitorSoundness.StoredIsNotInterior | benchmarks/seahorn/abc/abc2.c:129-137 | A store that passes its assert, of a pointer not below its block, puts no interior pointer into the cell, even while the block is still unallocated |
| MonitorSoundness.LoadsNeverPrune | benchmarks/seahorn/abc/abc2.c:113-121 | The assumption at loads is discharged: if loads return what was stored, the load-time assume never prunes a run |
| BoundsProgram.AnyBlockCanBeLowest | benchmarks/seahorn/abc/abc2.c:145-156 | The layouts the allocation assumes ask for exist: any block of any program can be placed below all others, with all blocks above address 1, disjoint, and as far apart as one likes |
| OffsetMonitor.StoppedStays | benchmarks/seahorn/abc/abc2.c:26-27 | A run that was pruned or has failed stays so |
| OffsetMonitor.Monitor.Drive | benchmarks/seahorn/abc/abc2.c:29-38 | The C monitor, driven through any event sequence, ends exactly as the run function says |
| OffsetMonitor.Monitor.AbcInit | benchmarks/seahorn/abc/abc2.c:158-167 | Guesses the base and the size; prunes a base that is not positive and a negative size |
| OffsetMonitor.Monitor.AbcAlloc | benchmarks/seahorn/abc/abc2.c:145-156 | Activates on the guessed block, or requires the new block to lie above the guessed one |
| OffsetMonitor.Monitor.AbcLogPtr | benchmarks/seahorn/abc/abc2.c:91-105 | Follows the tracked pointer unless told to skip |
| OffsetMonitor.Monitor.AbcAssertValidPtr | benchmarks/seahorn/abc/abc2.c:50-71 | Checks accesses through the base and through the tracked pointer |
| OffsetMonitor.Monitor.AbcAssertValidOffset | benchmarks/seahorn/abc/abc2.c:78-84 | Checks an access of known offset and size |
| OffsetMonitor.Monitor.AbcLogLoadPtr | benchmarks/seahorn/abc/abc2.c:113-121 | Assumes that a loaded pointer is not interior to the tracked block |
| OffsetMonitor.Monitor.AbcLogStorePtr | benchmarks/seahorn/abc/abc2.c:129-137 | Asserts that a stored pointer is not interior to the tracked block |
| DerefMonitor.RunsAgreeUnlessMissed | benchmarks/seahorn/abc/abc4.c:53-168 | Simulation over whole runs: under the same choices both monitors are alive with bytes left plus offset equal to the size, are pruned by the same event, or fail at the same event, unless the reference monitor fails at a missed access that this one lets pass |
| DerefMonitor.StepsAgreeIffNotMissed | benchmarks/seahorn/abc/abc4.c:53-157 | Step for step they agree exactly on all events but accesses below the block through the tracked pointer; on those the reference fails and this one goes on |
| DerefMonitor.SameWithoutUnderflow | benchmarks/seahorn/abc/abc4.c:59-69 | With DISABLE_UNDERFLOW the two are indistinguishable |
| DerefMonitor.AlarmsAreShared | benchmarks/seahorn/abc/abc4.c:53-71 | Whatever this monitor reports, the reference monitor reports at the same event or before |
| DerefExactness.ReportedByIffSeen | benchmarks/seahorn/abc/abc4.c:53-168 | The exact boundary for every program and every configuration: of what the reference monitor can see, exactly the underflows through pointers other than the base of their block are not reported |
| DerefExactness.ReportedIffChecked | benchmarks/seahorn/abc/abc4.c:53-168 | For logged programs whose pointers stay inside their blocks: reported if and only if some access overflows upwards, underflows through the base of its block, or overflows with known size |
| DerefExactness.RunIsUpward | benchmarks/seahorn/abc/abc4.c:53-157 | As long as it has not failed, this monitor runs as the reference monitor without underflow checks |
| DerefExactness.DivergenceIsReached | benchmarks/seahorn/abc/abc4.c:66-69 | In every configuration that checks underflows of moved pointers, for every block and every distance into it, a run reaches a missed access: the reference monitor fails there and this one goes on |
| DerefMonitor.Monitor.Drive | benchmarks/seahorn/abc/abc4.c:32-41 | The C monitor, driven through any event sequence, ends exactly as the run function says |
| DerefMonitor.Monitor.AbcInit | benchmarks/seahorn/abc/abc4.c:159-168 | As in the offset encoding, with no bytes left |
| DerefMonitor.Monitor.AbcAlloc | benchmarks/seahorn/abc/abc4.c:145-157 | On activation the bytes left are the guessed size |
| DerefMonitor.Monitor.AbcLogPtr | benchmarks/seahorn/abc/abc4.c:91-105 | A followed move takes its distance from the bytes left |
| DerefMonitor.Monitor.AbcAssertValidPtr | benchmarks/seahorn/abc/abc4.c:53-71 | The tracked pointer is only checked against the bytes left |
| DerefMonitor.Monitor.AbcAssertValidOffset | benchmarks/seahorn/abc/abc4.c:78-84 | Checks an access of known offset and size |
| DerefMonitor.Monitor.AbcLogLoadPtr | benchmarks/seahorn/abc/abc4.c:113-121 | Assumes that a loaded pointer is not interior to the tracked block |
| DerefMonitor.Monitor.AbcLogStorePtr | benchmarks/seahorn/abc/abc4.c:129-137 | Asserts that a stored pointer is not interior to the tracked block |
| FlagPointerMonitor.RunsAgree | benchmarks/seahorn/abc/abc.c:49-148 | In every configuration: bisimulation with the offset encoding, built without the checks of loads and stores that this monitor does not have, over every run in which no accepted move lands on address 0; a nonzero pointer corresponds to the active flag |
| FlagPointerMonitor.RunsAgreeIffNeverNull | benchmarks/seahorn/abc/abc.c:49-148 | In every configuration, both directions over every run: the two monitors agree after each event of the run if and only if no accepted move in it lands on address 0 |
| FlagPointerExactness.InsideRunsAgree | benchmarks/seahorn/abc/abc.c:49-148 | In every configuration and every program whose pointers stay inside their blocks, legal accesses or not, every run ends as that of the offset encoding without load and store checks, for every layout, guess and choice |
| FlagPointerExactness.SameReports | benchmarks/seahorn/abc/abc.c:49-148 | Hence the two monitors report the same of these programs, in every configuration |
| FlagPointerExactness.ReportedIffViolated | benchmarks/seahorn/abc/abc.c:49-148 | And this monitor is exact in every configuration: of these programs, if logged or if only base accesses are checked, it reports those with an access that leaves its block; what they store and load does not matter |
| FlagPointerMonitor.StepsAgreeIffNotNull | benchmarks/seahorn/abc/abc.c:49-138 | In every configuration, step for step the two stay related exactly as long as no accepted move lands on address 0 |
| FlagPointerMonitor.NullMoveHidesAnAlarm | benchmarks/seahorn/abc/abc.c:90-104 | The condition is needed, in every configuration that follows moves: for every block, a move to address 0 makes this monitor forget it and pass an overflow that the reference reports |
| FlagPointerMonitor.Monitor.Drive | benchmarks/seahorn/abc/abc.c:28-37 | The C monitor, driven through any event sequence, ends exactly as the run function says |
| FlagPointerMonitor.Monitor.AbcInit | benchmarks/seahorn/abc/abc.c:140-148 | Guesses the block; the zero pointer means that it is not yet allocated |
| FlagPointerMonitor.Monitor.AbcAlloc | benchmarks/seahorn/abc/abc.c:128-138 | Allocation of the guessed block makes the pointer nonzero; every other block must lie above |
| FlagPointerMonitor.Monitor.AbcLogPtr | benchmarks/seahorn/abc/abc.c:90-104 | Follows the tracked pointer unless told to skip |
| FlagPointerMonitor.Monitor.AbcAssertValidPtr | benchmarks/seahorn/abc/abc.c:49-70 | Checks accesses through the base and through the tracked pointer |
| FlagPointerMonitor.Monitor.AbcAssertValidOffset | benchmarks/seahorn/abc/abc.c:77-83 | Checks an access of known offset and size |
| BadPointerMonitor.SameVerdictAsReference | benchmarks/seahorn/abc/abc3.c:48-130 | Two encodings, one verdict: on fully logged programs the bad-pointer monitor and the offset monitor without underflow checks report the same programs |
| BadPointerMonitor.ReportedIffSeen | benchmarks/seahorn/abc/abc3.c:48-130 | Exactness for every program, with no assumption on its pointers: some run fails if and only if some access reaches upwards past the end of its block, or reaches upwards from a base so far below the block that the bad address and the earlier blocks but one fit in between, or overflows with known size |
| BadPointerMonitor.ReportedIffOverflows | benchmarks/seahorn/abc/abc3.c:48-130 | Through bases that are not below their blocks, also past their end, exactly the upward overflows are reported |
| BadPointerMonitor.NoFalseAlarm | benchmarks/seahorn/abc/abc3.c:48-63 | Soundness for every program: a run that fails has made an access that can be seen |
| BadPointerMonitor.SeenIsReported | benchmarks/seahorn/abc/abc3.c:48-130 | Completeness for every program: whatever can be seen some run reports |
| BadPointerMonitor.PastTheEndIsReported | benchmarks/seahorn/abc/abc3.c:48-116 | The placement for an overflow: the block at address 2 and the bad address just past it, or at a base that is already further |
| BadPointerMonitor.FarBelowIsReported | benchmarks/seahorn/abc/abc3.c:48-116 | The placement for a base far below its block: the bad address at that base, with at most one earlier block below it |
| BadPointerMonitor.ReachingFails | benchmarks/seahorn/abc/abc3.c:48-63 | An access from at or below the bad address to at or above it fails, or something before it does |
| BadPointerMonitor.BlocksAreDivided | benchmarks/seahorn/abc/abc3.c:93-130 | Invariant of every surviving run: at most one block lies below the bad address, and every other one starts above it by more than the room of the blocks before it |
| BadPointerMonitor.AliveIffAdmitted | benchmarks/seahorn/abc/abc3.c:93-130 | Which runs go on, for every program, layout, guess and choice: a run that has not failed is alive if and only if its guess is consistent and every allocation so far had a positive address, read twice alike, and was the only one below the bad address and ended there, or lay above all the room taken so far; and then its state is determined by the allocations |
| BadPointerMonitor.StaysOnCourse | benchmarks/seahorn/abc/abc3.c:93-130 | A placement that leaves this room to every block is pruned by no assume |
| BadPointerMonitor.AllocationStaysOnCourse | benchmarks/seahorn/abc/abc3.c:93-116 | In such a placement each allocation passes its assumes and raises the top by its size, except for the one low block |
| BadPointerMonitor.Monitor.Drive | benchmarks/seahorn/abc/abc3.c:27-36 | The C monitor, driven through any event sequence, ends exactly as the run function says |
| BadPointerMonitor.StepKeepsDivided | benchmarks/seahorn/abc/abc3.c:93-116 | Each call keeps that invariant |
| BadPointerMonitor.TopStaysAboveBad | benchmarks/seahorn/abc/abc3.c:112-114 | With nonnegative sizes the assume marked optional is implied in every surviving run |
| BadPointerMonitor.StoppedStays | benchmarks/seahorn/abc/abc3.c:24-25 | A run that was pruned or has failed stays so |
| BadPointerMonitor.Monitor.AbcInit | benchmarks/seahorn/abc/abc3.c:118-130 | Guesses a positive bad address and a top above it |
| BadPointerMonitor.Monitor.AbcAlloc | benchmarks/seahorn/abc/abc3.c:93-116 | Places one block below the bad address, or the next block above the top |
| BadPointerMonitor.Monitor.AbcAssertValidPtr | benchmarks/seahorn/abc/abc3.c:48-52 | The base lies above the bad address or the access below it |
| BadPointerMonitor.Monitor.AbcAssertValidOffset | benchmarks/seahorn/abc/abc3.c:59-63 | Checks an access of known offset and size |
| TrackedArray.Harness | benchmarks/seahorn/abc/encoding-ex-1.c:30-91 | For every N, address, size and choices admitted by the assumes, and all four ways of compiling: both assertions hold in every iteration, a tracked pointer is its base plus the offset, it moves at most once, at the first choice to follow it, and the pairs compared by the assertions are as given for each iteration |
| TrackedArray.Loop | benchmarks/seahorn/abc/encoding-ex-1.c:51-88 | The loop for any input, admitted or not: it fails if and only if one of the comparisons it makes is out of bounds, and which comparisons it makes |
| TrackedArray.FirstMove | benchmarks/seahorn/abc/encoding-ex-1.c:56-66 | The iteration of that one move: no earlier iteration but the first chose to follow |
| TrackedList.World.MkFoo | benchmarks/seahorn/smc/list1_check.c:37-51 | A surviving call makes a Foo that is either the one tracked object at the start of the guessed range or lies above it, and keeps the invariant of all nodes |
| TrackedList.World.MkBar | benchmarks/seahorn/smc/list1_check.c:53-61 | A surviving call makes a Bar above the guessed range |
| TrackedList.World.Insert | benchmarks/seahorn/smc/list1_check.c:77-97 | Puts one new entry, itself above the guessed range, in front of the list and changes no other entry |
| TrackedList.World.InsertFoo | benchmarks/seahorn/smc/list1_check.c:111-113 | Any insertion of a fresh Foo keeps the list linked, every tag naming its constructor, and at most one Foo at the start of the range |
| TrackedList.World.InsertBar | benchmarks/seahorn/smc/list1_check.c:112-112 | Any insertion of a fresh Bar keeps them too |
| TrackedList.World.InsertAll | benchmarks/seahorn/smc/list1_check.c:93-113 | Any sequence of insertions: in every surviving run the list holds the inserted nodes in reverse, every tag still names its constructor, and at most one node, a Foo, sits at the start of the range |
| TrackedList.World.Walk | benchmarks/seahorn/smc/list1_check.c:115-134 | Over any linked list the walk visits at most four entries in order, and its assertion fails exactly if one of them is taken for a Bar at the tracked address; over tracked nodes that never happens, and a node is taken for a Bar exactly if it was made as one |
| TrackedList.World.Harness | benchmarks/seahorn/smc/list1_check.c:99-136 | Exactly which runs survive the assumes, and that they find Foo, Bar, Foo and do not fail |
| IrpProtocol.FinalsAreConserved | benchmarks/seahorn/bmc/cdaudio_simpl1_true-unreach-call_true-termination.cil.c:1886-2133 | Conservation over every unbounded error-free sequence of stub calls, custom requests included: completions plus final hand-downs equal the revivals by waits on custom requests, plus one if the request is finished |
| IrpProtocol.AtMostOnce | benchmarks/seahorn/bmc/cdaudio_simpl1_true-unreach-call_true-termination.cil.c:1886-2133 | Without custom requests an error-free sequence completes or finally hands down the request at most once |
| IrpProtocol.FinalIsForever | benchmarks/seahorn/bmc/cdaudio_simpl1_true-unreach-call_true-termination.cil.c:1985-1998 | Without custom requests DC, IPC and SKIP2 are never left by an error-free sequence |
| IrpProtocol.FinalLeftIffRevived | benchmarks/seahorn/bmc/cdaudio_simpl1_true-unreach-call_true-termination.cil.c:2007-2048 | A finished request is left, without error, exactly by a wait on a custom request |
| IrpProtocol.CustomIrpCompletesTwice | benchmarks/seahorn/bmc/diskperf_simpl1_true-unreach-call_true-termination.cil.c:980-1021 | The restriction is needed: with a custom request an error-free sequence completes the same request twice |
| IrpProtocol.HeldBackIsSignalled | benchmarks/seahorn/bmc/diskperf_simpl1_true-unreach-call_true-termination.cil.c:879-1021 | Wait safety over every sequence, custom requests included: whoever holds the request back has signalled its event, so no wait errs |
| IrpProtocol.InspectedWaitErrsIff | benchmarks/seahorn/bmc/cdaudio_simpl1_true-unreach-call_true-termination.cil.c:1900-2048 | The condition of wait safety is needed: a fresh request sent down with the inspecting routine and then waited for errs in the wait if and only if that routine asks for more processing and the answer is pending |
| IrpProtocol.PendingMustBeWaitedFor | benchmarks/seahorn/bmc/diskperf_simpl1_true-unreach-call_true-termination.cil.c:879-971 | After a pending answer to a held-back request an error-free sequence does nothing else to the request until it waits |
| IrpProtocol.ForwardComesBack | benchmarks/seahorn/bmc/diskperf_simpl1_true-unreach-call_true-termination.cil.c:243-294 | Sending a request down with a signalling completion routine, and waiting if needed, always brings it back to the driver, whatever the answer |
| IrpProtocol.FailedStays | benchmarks/seahorn/bmc/diskperf_simpl1_true-unreach-call_true-termination.cil.c:58-65 | Once errorFn has been called no later call undoes it |
| IrpProtocol.StepKeepsSignal | benchmarks/seahorn/bmc/diskperf_simpl1_true-unreach-call_true-termination.cil.c:879-1021 | Each call keeps the signal of a held-back request, and a wait adds no error |
| IrpProtocol.StepFacts | benchmarks/seahorn/bmc/diskperf_simpl1_true-unreach-call_true-termination.cil.c:840-1094 | What each single call can do to a finished or held-back request |
| IrpProtocol.ErrsIff | benchmarks/seahorn/bmc/diskperf_simpl1_true-unreach-call_true-termination.cil.c:840-1094 | Exactly which calls err, from any state: skipping, registering and completing outside NP, registering twice, marking pending twice, waiting for an unsignalled hold, and going down from a phase that does not allow it or with a routine that holds or pends once more |
| IrpProtocol.LegalCallDoes | benchmarks/seahorn/bmc/diskperf_simpl1_true-unreach-call_true-termination.cil.c:840-1094 | What each call does that does not err: the phase table of the protocol, with every field of the state that changes |
| IrpProtocol.Kernel.Load | benchmarks/seahorn/bmc/cdaudio_simpl1_true-unreach-call_true-termination.cil.c:1709-1780 | The loading phase: the state in which a dispatch routine receives its request, or an unloaded driver |
| IrpProtocol.Kernel.ErrorFn | benchmarks/seahorn/bmc/cdaudio_simpl1_true-unreach-call_true-termination.cil.c:61-68 | Recorded in a flag that nothing clears |
| IrpProtocol.Kernel.SkipLocation | benchmarks/seahorn/bmc/cdaudio_simpl1_true-unreach-call_true-termination.cil.c:372-393 | Legal only in NP, and leads to SKIP1 |
| IrpProtocol.Kernel.RegisterCompletion | benchmarks/seahorn/bmc/cdaudio_simpl1_true-unreach-call_true-termination.cil.c:1645-1679 | Legal only in NP and once |
| IrpProtocol.Kernel.StubMoreProcessingRequired | benchmarks/seahorn/bmc/cdaudio_simpl1_true-unreach-call_true-termination.cil.c:1886-1899 | Legal only in NP, and leads to MPR1 |
| IrpProtocol.Kernel.KeSetEvent | benchmarks/seahorn/bmc/cdaudio_simpl1_true-unreach-call_true-termination.cil.c:1999-2006 | Records the signal |
| IrpProtocol.Kernel.MarkPended | benchmarks/seahorn/bmc/cdaudio_simpl1_true-unreach-call_true-termination.cil.c:1574-1595 | Legal once |
| IrpProtocol.Kernel.SignalCompletion | benchmarks/seahorn/bmc/cdaudio_simpl1_true-unreach-call_true-termination.cil.c:137-146 | Signals the event and asks for more processing |
| IrpProtocol.Kernel.InspectCompletion | benchmarks/seahorn/bmc/cdaudio_simpl1_true-unreach-call_true-termination.cil.c:1574-1595 | Marks the request pending if the lower driver says so, and returns the status of the request |
| IrpProtocol.Kernel.RunCompletion | benchmarks/seahorn/bmc/cdaudio_simpl1_true-unreach-call_true-termination.cil.c:1900-1930 | The registered completion routine runs; if it asks for more processing the request is held back |
| IrpProtocol.Kernel.Answer | benchmarks/seahorn/bmc/cdaudio_simpl1_true-unreach-call_true-termination.cil.c:1931-1984 | The second half of the call-down stub: the lower driver answers, and the phase moves on |
| IrpProtocol.Kernel.CallDriver | benchmarks/seahorn/bmc/cdaudio_simpl1_true-unreach-call_true-termination.cil.c:1900-1984 | Runs the registered completion routine, and then moves NP to IPC, MPR1 to MPR3 or back to NP, and SKIP1 to SKIP2 with the answer of the lower driver; a final hand-down is counted |
| IrpProtocol.Kernel.CompleteRequest | benchmarks/seahorn/bmc/cdaudio_simpl1_true-unreach-call_true-termination.cil.c:1985-1998 | Legal only in NP, and leads to DC; counted |
| IrpProtocol.Kernel.KeWait | benchmarks/seahorn/bmc/diskperf_simpl1_true-unreach-call_true-termination.cil.c:980-1021 | Ends a signalled hold, else consumes a custom request and resets the phase to NP, else errs in MPR3; taking the request out of DC, IPC or SKIP2 is counted as a revival |
| IrpProtocol.Kernel.ForwardAndWait | benchmarks/seahorn/bmc/diskperf_simpl1_true-unreach-call_true-termination.cil.c:243-294 | Sending a request down synchronously: whatever the answer it comes back in NP, neither finished nor revived, with its event signalled exactly if it was not waited for |
| IrpProtocol.Kernel.BuildCustomIrp | benchmarks/seahorn/bmc/diskperf_simpl1_true-unreach-call_true-termination.cil.c:840-864 | Marks a custom request as outstanding even when none could be built |
| IrpProtocol.Kernel.FinalCheck | benchmarks/seahorn/bmc/cdaudio_simpl1_true-unreach-call_true-termination.cil.c:1828-1885 | Errs exactly for a loaded request whose status is not -1 and which is not pended in NP or MPR3, by phase, pended flag and status, with the four conditions in which the files differ as parameters; nothing else changes |
| KbFilter.Harness | benchmarks/seahorn/bmc/kbfiltr_simpl2_false-unreach-call_true-termination.cil.c:299-472 | Verdict pair: the lenient variant never calls errorFn; the strict one calls it exactly for PnP minor function 2 when the lower driver does not answer with success. Every request is completed or handed down exactly once. For every input, the phase in which the request is left, whether it is pended, the status returned and the status of the request itself |
| KbFilter.DispatchPnP | benchmarks/seahorn/bmc/kbfiltr_simpl2_true-unreach-call_true-termination.cil.c:87-300 | A start request comes back and is completed with the lower answer; every other request is handed down, and a remove request returns 0 whatever the answer |
| KbFilter.DispatchInternIoCtl | benchmarks/seahorn/bmc/kbfiltr_simpl2_true-unreach-call_true-termination.cil.c:828-1014 | Requests rejected by their parameters are completed with the error, all others are handed down |
| KbFilter.DispatchCreateClose | benchmarks/seahorn/bmc/kbfiltr_simpl2_true-unreach-call_true-termination.cil.c:635-670 | Handed down, after the status of the request may have been set to an error |
| KbFilter.DispatchPassThrough | benchmarks/seahorn/bmc/kbfiltr_simpl2_true-unreach-call_true-termination.cil.c:671-694 | Skipped and handed down with the lower answer |
| KbFilter.DispatchPower | benchmarks/seahorn/bmc/kbfiltr_simpl2_true-unreach-call_true-termination.cil.c:695-750 | Skipped and handed down through the power call |
| DiskPerf.Harness | benchmarks/seahorn/bmc/diskperf_simpl1_true-unreach-call_true-termination.cil.c:653-839 | For every load status and all inputs errorFn is never called; in spite of up to four custom requests with the completion routine still registered every request is completed or handed down exactly once, and no wait brings it back out of a final phase; a completed request does not return 259 and a handed-down one returns the answer of the lower driver. For every input, the phase in which the request is left, whether it is pended, the status returned and the status of the request itself |
| DiskPerf.RegisterDevice | benchmarks/seahorn/bmc/diskperf_simpl1_true-unreach-call_true-termination.cil.c:467-638 | One to four custom requests with the completion routine still registered: built and sent down are exactly the requests that the registration calls for, in order, and they leave the request being handled as it was found; the status is that of the last request made, and so are the answer and the signal left behind; none of it completes, hands down for good or revives the request |
| DiskPerf.Made | benchmarks/seahorn/bmc/diskperf_simpl1_true-unreach-call_true-termination.cil.c:467-638 | Which requests are made, in order: the number first, and never more than four; the contract of RegisterDevice ties the whole sequence to what goes down |
| DiskPerf.SendCustom | benchmarks/seahorn/bmc/diskperf_simpl1_true-unreach-call_true-termination.cil.c:506-530 | One custom request, built and if it is not null sent down: whatever the lower driver answers, no wait errs and the phase is NP again |
| DiskPerf.ForwardIrpSynchronous | benchmarks/seahorn/bmc/diskperf_simpl1_true-unreach-call_true-termination.cil.c:243-294 | The request comes back before the routine returns, with a status that is not pending |
| DiskPerf.StartDevice | benchmarks/seahorn/bmc/diskperf_simpl1_true-unreach-call_true-termination.cil.c:153-172 | The request goes down once and the custom requests after it; it is completed exactly once in spite of them and no wait revives it, with the status that is returned |
| DiskPerf.RemoveDevice | benchmarks/seahorn/bmc/diskperf_simpl1_true-unreach-call_true-termination.cil.c:173-192 | Completed with the status that is returned, after going down once; the exact state |
| DiskPerf.SendToNextDriver | benchmarks/seahorn/bmc/diskperf_simpl1_true-unreach-call_true-termination.cil.c:193-242 | Handed down with the lower answer, also for power requests |
| DiskPerf.DispatchPnP | benchmarks/seahorn/bmc/diskperf_simpl1_true-unreach-call_true-termination.cil.c:102-141 | Start and remove requests are completed here, with the lower answer or, if that was pending, the status they had; all others are handed down; every request goes down once, followed by the custom requests of the registration exactly for a start; it is finished exactly once |
| DiskPerf.DispatchDeviceControl | benchmarks/seahorn/bmc/diskperf_simpl1_true-unreach-call_true-termination.cil.c:360-441 | A performance query is completed with its exact status after a processor loop that ends for every count; all other requests end in IPC with the lower answer; it is finished exactly once |
| CdAudio.Harness | benchmarks/seahorn/bmc/cdaudio_simpl1_false-unreach-call_true-termination.cil.c:1723-1890 | Verdict pair: the lenient variant never calls errorFn; the strict one exactly when the inspecting completion routine marks the request pending and the lower driver returns something other than 259. Every request is completed or handed down exactly once, and no wait revives it. For every input, the phase in which the request is left, whether it is pended, the status returned and the status of the request itself |
| CdAudio.ControlHPCdr | benchmarks/seahorn/bmc/cdaudio_simpl1_true-unreach-call_true-termination.cil.c:1596-1644 | The read-TOC request ends in IPC, pended exactly if the lower driver says so; all others are handed down |
| CdAudio.Control535 | benchmarks/seahorn/bmc/cdaudio_simpl1_true-unreach-call_true-termination.cil.c:439-882 | A handled request is always completed with the error given by its parameters, whatever the device would have answered; all others are handed down |
| CdAudio.Control435 | benchmarks/seahorn/bmc/cdaudio_simpl1_true-unreach-call_true-termination.cil.c:900-1505 | Exactly two requests can be completed with success, the other handled ones are completed with the error given by their parameters, and the rest is handed down |
| CdAudio.ControlAtapi | benchmarks/seahorn/bmc/cdaudio_simpl1_true-unreach-call_true-termination.cil.c:1506-1563 | The play-audio request is completed with an error, all others are handed down |
| CdAudio.DispatchDeviceControl | benchmarks/seahorn/bmc/cdaudio_simpl1_true-unreach-call_true-termination.cil.c:318-371 | By changer model and control code: which requests are completed, with which status, which are handed down with the lower answer, and which goes down inspected; it is pended exactly in the HP-CDR case; the exact state in each case |
| CdAudio.DispatchPnP | benchmarks/seahorn/bmc/cdaudio_simpl1_true-unreach-call_true-termination.cil.c:224-317 | Completed with the status they had exactly for start requests and paging notifications, otherwise handed down with the lower answer; the exact state in each case |
| CdAudio.StartDevice | benchmarks/seahorn/bmc/cdaudio_simpl1_true-unreach-call_true-termination.cil.c:147-223 | The request comes back to the driver with the status it had |
| CdAudio.ForwardIrpSynchronous | benchmarks/seahorn/bmc/cdaudio_simpl1_true-unreach-call_true-termination.cil.c:1645-1679 | The wait that follows every answer never errs, and the request comes back |
| CdAudio.IsPlayActive | benchmarks/seahorn/bmc/cdaudio_simpl1_true-unreach-call_true-termination.cil.c:394-438 | Its wait leaves the request alone; it reports playing exactly for status 17 after a successful query |
| CdAudio.SendSrb | benchmarks/seahorn/bmc/cdaudio_simpl1_true-unreach-call_true-termination.cil.c:91-136 | Without a request block, as in both files, it fails at once whatever the device would have answered; with one it would return the answer, and its wait leaves the request alone |
| CdAudio.SendToNextDriver | benchmarks/seahorn/bmc/cdaudio_simpl1_true-unreach-call_true-termination.cil.c:372-393 | Skipped and handed down with the lower answer |
| CdAudio.SetStatusAndReturn | benchmarks/seahorn/bmc/cdaudio_simpl1_true-unreach-call_true-termination.cil.c:883-899 | Completed with the status that is returned |
| Floppy.Harness | benchmarks/seahorn/bmc/floppy_simpl4_false-unreach-call_true-termination.cil.c:673-845 | Verdict pair: the lenient variant never calls errorFn; the strict one exactly when a started device takes the stop or query-stop path, the request reaches the thread, and the lower driver returns something other than 259. Every request is completed or handed down exactly once and never revived by a wait, except that a queued one is left waiting and is neither. For every input, the phase in which the request is left, whether it is pended, the status returned and the status of the request itself |
| Floppy.Driver.DispatchPnP | benchmarks/seahorn/bmc/floppy_simpl4_true-unreach-call_true-termination.cil.c:166-439 | Removed, start, unqueueable stop and cancel requests are completed, each with its exact status; all others are handed down, with their status cleared for minor functions 2, 3, 4 and 6 and on the stop path, which alone pends; what goes down in each case, for a start the request and then the controller request; the count of references on the paged code is balanced except on the two early returns and for a newly created thread; every request is finished exactly once |
| Floppy.Driver.ServePnP | benchmarks/seahorn/bmc/floppy_simpl4_true-unreach-call_true-termination.cil.c:230-437 | The same for the switch over the minor function, where the count changes only for a newly created thread |
| Floppy.Driver.StartAnswer | benchmarks/seahorn/bmc/floppy_simpl4_true-unreach-call_true-termination.cil.c:440-607 | The status of a start: a controller request that is null or refused gives that failure; otherwise success exactly if ACPI or some interface type describes the device, and if no interface is tried the answer of the controller |
| Floppy.Driver.StopStarted | benchmarks/seahorn/bmc/floppy_simpl4_true-unreach-call_true-termination.cil.c:261-299 | The stop path: handed down although pended, or completed with an error if it cannot be queued |
| Floppy.Driver.QueueIrpToThread | benchmarks/seahorn/bmc/floppy_simpl4_true-unreach-call_true-termination.cil.c:103-165 | The request is pended exactly if the pending status is returned, and the reference taken for a new thread is kept exactly if the thread could be created |
| Floppy.Driver.StartDevice | benchmarks/seahorn/bmc/floppy_simpl4_true-unreach-call_true-termination.cil.c:440-607 | Completed exactly once, after a synchronous forward and a nested custom request neither of which finishes or revives it, with the failure of that request or the result of the search for a description; what goes down, and the exact state |
| Floppy.Driver.FdcDeviceIo | benchmarks/seahorn/bmc/floppy_simpl4_true-unreach-call_true-termination.cil.c:618-652 | One custom request, sent down if it could be built, with the completion routine still registered: the request comes back in NP, with the exact state and status |
| Floppy.Driver.QueryInterfaces | benchmarks/seahorn/bmc/floppy_simpl4_true-unreach-call_true-termination.cil.c:548-590 | The loop over interface types ends for any number of them, with success exactly if one of them answers |
| Floppy.Driver.CompleteAfterForward | benchmarks/seahorn/bmc/floppy_simpl4_true-unreach-call_true-termination.cil.c:320-360 | Forwarded synchronously and completed with the answer |
| Floppy.Driver.SkipAndCall | benchmarks/seahorn/bmc/floppy_simpl4_true-unreach-call_true-termination.cil.c:411-422 | Skipped and handed down with the lower answer |
| Floppy.Driver.QueueRequest | benchmarks/seahorn/bmc/floppy_simpl4_true-unreach-call_true-termination.cil.c:1588-1628 | Queued and pended with status 259, or refused and completed, with nothing else changed; the reference is kept exactly for a queued request |
| Floppy.Driver.DispatchDeviceControl | benchmarks/seahorn/bmc/floppy_simpl4_true-unreach-call_true-termination.cil.c:1189-1570 | Every request is queued, completed or handed down; which of these, with which status, and the change of the reference count all follow from the device state and the control code; every request is finished exactly once unless it is queued, and then not at all |
| Floppy.Driver.ControlStarted | benchmarks/seahorn/bmc/floppy_simpl4_true-unreach-call_true-termination.cil.c:1300-1570 | The switch over the control codes of a started device |
| UserPages.UserGet | benchmarks/seahorn/predabs/03_sat.c:4491-4593 | Returns 0 exactly when every address of the rounded range lies below the end of the VMA that was found, the last byte included (or, if the range wraps around, its end does), it has a page, and every page is mapped in the frame that follows the one before; then the bus address is the first frame plus the offset, and the size covers the buffer if and only if rounding did not wrap; every length beyond 2^64 whose first page is mapped succeeds with a single page; otherwise the error is that of the first page that faults |
| UserPages.InVmaMeans | benchmarks/seahorn/predabs/03_sat.c:4524-4531 | The range check: every address of the range is below the end of the VMA, and a range may end exactly there; a range that wraps around is judged by its wrapped end |
| UserPages.FollowPages | benchmarks/seahorn/predabs/03_sat.c:4536-4582 | The page loop stops at the first page that faults, with its code |
| UserPages.FaultlessIffContiguous | benchmarks/seahorn/predabs/03_sat.c:4543-4580 | Comparing each page with its predecessor is the same as page k lying in frame 0 plus k |
| UserPages.DeviceSeesEveryByte | benchmarks/seahorn/predabs/03_sat.c:4540-4582 | What contiguity is for: counting from the one bus address reaches the physical address of every byte of the user buffer, whenever the rounding does not wrap |
| VideoBuffers.PageAlignCoversUnlessWrapped | benchmarks/seahorn/predabs/03_sat.c:4510-4512 | The rounded size is the least whole number of pages covering offset plus length if and only if the 64-bit additions do not wrap |
| VideoBuffers.WrappedSize | benchmarks/seahorn/predabs/03_sat.c:4510-4512 | When the additions wrap the size is one page or none |
| UserPages.WrappedRequest | benchmarks/seahorn/predabs/03_sat.c:4510-4535 | Such a request exists: one byte short of 2^64, two bytes into a page |
| VideoBuffers.DmaMemory.DcAlloc | benchmarks/seahorn/predabs/03_sat.c:4160-4234 | Afterwards exactly what the memory owns has become live, or nothing; the acquisitions of a successful call in order; the size, address and status for every outcome of the allocation calls |
| VideoBuffers.DmaMemory.DcFree | benchmarks/seahorn/predabs/03_sat.c:4236-4263 | Gives back exactly what the memory owns, for a cached memory the DMA mapping before the pages, and forgets the address |
| VideoBuffers.GivenBack | benchmarks/seahorn/predabs/03_sat.c:4160-4263 | What a sequence of calls gained and then gave back, in any order, leaves nothing live and nothing stray |
| VideoBuffers.ReleasedInTurn | benchmarks/seahorn/predabs/03_sat.c:4236-4263 | Giving back is honest exactly if nothing is given back more often than it is live |
| VideoBuffers.Queue.Lock | benchmarks/seahorn/predabs/03_sat.c:4105-4120 | Takes the lock of the queue only without an external lock; errs if it is already held |
| VideoBuffers.Queue.Unlock | benchmarks/seahorn/predabs/03_sat.c:4122-4137 | The counterpart; errs if the lock is not held |
| MmapMapper.Mapper | benchmarks/seahorn/predabs/03_sat.c:4896-5126 | Returns 0 or -12, and 0 exactly when every call it makes succeeds. On 0 exactly the memory and the mapping object are newly live and the count is 1; for a cached buffer page k is inserted exactly if 4096 k is less than both the length of the range and the rounded size, at vm_start + 4096 k, as the page structure of the physical frame of byte 4096 k; an uncached one is remapped once, from its bus frame, with a length that is at most both and equal to one of them. On -12 nothing is newly live, although the buffer still names the freed mapping and the pages before the first that cannot be inserted stay |
| MmapMapper.LesserIsMapped | benchmarks/seahorn/predabs/03_sat.c:4996-5003 | The mapped size is the smaller of range and buffer, and its pages are those that begin inside both |
| MmapMapper.Populate | benchmarks/seahorn/predabs/03_sat.c:4990-5086 | The memory is live and mapped, or has been given back; an uncached memory keeps its stale address, and exactly the pages before the first failure stay in the range |
| MmapMapper.PopulateOrFree | benchmarks/seahorn/predabs/03_sat.c:4990-5126 | The same with the mapping object: either all is live, or nothing newly is |
| MmapMapper.MapMemory | benchmarks/seahorn/predabs/03_sat.c:5006-5086 | On failure exactly the memory of this call is given back, and the pages before the first failure stay |
| MmapMapper.InsertPages | benchmarks/seahorn/predabs/03_sat.c:5032-5086 | The page loop ends and has inserted exactly the pages in order, or those before the first that cannot be inserted, which stay |
| MmapMapper.InsertionsCoverTheRange | benchmarks/seahorn/predabs/03_sat.c:5032-5086 | The inserted pages lie inside the range of the user, start at its beginning, and the last one reaches the end of the mapped size |
| MmapMapper.MapAndUse | benchmarks/seahorn/predabs/03_sat.c:4473-4476 | The whole life of a mapping, with mappings compared by address: mapping a buffer returns 0 exactly when every call it makes succeeds; after it and any history of opens and closes, everything acquired is live while the mapping is; after the last close the buffer no longer refers to it, all releases were of live resources if and only if what other buffers holding this address own was live before, and nothing remains if they own nothing; the lock is free exactly if the presence of an external lock has not changed |
| MmapMapper.UseOnce | benchmarks/seahorn/predabs/03_sat.c:4265-4471 | One open or close of the mapping of a buffer of the queue |
| MmapMapper.UseAll | benchmarks/seahorn/predabs/03_sat.c:4265-4471 | Any history of opens and closes of a mapping that has just been made |
| MmapMapper.StaleBuffersCoveredIff | benchmarks/seahorn/predabs/03_sat.c:4390-4440 | If the other buffers holding the address are stale, the last close is honest if and only if none of them is uncached: what an uncached one names is given back although it is not live |
| MmapMapper.MapBuffer | benchmarks/seahorn/predabs/03_sat.c:4896-5126 | Mapping a buffer of a queue leaves alone what the other buffers own; when it fails nothing is newly live, and what the buffer then still names is stale, if it is uncached exactly if the memory it was offered was not live before |
| MmapMapper.MapAfterFailure | benchmarks/seahorn/predabs/03_sat.c:4390-4440 | A failed mmap, and then the whole life of another mapping whose object gets the freed address: after its last close only what was live was given back if and only if the buffer of the failed mmap is cached. An uncached one gives back a second time the memory that was released when its remapping failed, or, when it got no memory, address 0, which was never acquired |
| MmapMapper.MemoryIsGivenBackTwice | benchmarks/seahorn/predabs/03_sat.c:5012-5124 | The dishonest release is reached: for any two uncached buffers, with the remapping failing for the first, the second mapping returns 0, and its only close releases what is not live: the memory of the first a second time, or address 0 if there was none |
| MmapMapper.LastCloseSettles | benchmarks/seahorn/predabs/03_sat.c:4380-4462 | What the last close gives back, against what the mapping acquired |
| MmapMapper.Leading | benchmarks/seahorn/predabs/03_sat.c:5032-5086 | How many pages are inserted before the first that cannot be |
| MapLifetime.FreedExactly | benchmarks/seahorn/predabs/03_sat.c:4265-4471 | Over every history of opens and closes the mapping is freed exactly when some close brings the 32-bit count to 0 |
| MapLifetime.FreedWhenBalanced | benchmarks/seahorn/predabs/03_sat.c:4265-4471 | Below 2^32 uses that is exactly when it has been closed as often as opened |
| MapLifetime.WrappedCountIsNotFreed | benchmarks/seahorn/predabs/03_sat.c:4285-4299 | 2^32 - 1 further opens wrap the count to 0 without freeing anything, and the next close does not free it either |
| MapLifetime.CountIsBalance | benchmarks/seahorn/predabs/03_sat.c:4265-4340 | The count is opens less closes, modulo 2^32 |
| MapLifetime.VmOpen | benchmarks/seahorn/predabs/03_sat.c:4265-4301 | Counts one more use |
| MapLifetime.VmClose | benchmarks/seahorn/predabs/03_sat.c:4303-4471 | Frees exactly when the count becomes 0: then the buffers that hold the address of the mapping, and no others, lose their mapping, address and memory, and what they own and the mapping object are given back in table order, also when places share a buffer or a memory; said for each buffer of the table by comparing the address of its mapping |
| MapLifetime.Dismantle | benchmarks/seahorn/predabs/03_sat.c:4371-4466 | The locked part: the lock automaton is left free of errors and unlocked exactly if the presence of an external lock is the same at its end as at its start |
| MapLifetime.FreeBuffers | benchmarks/seahorn/predabs/03_sat.c:4380-4460 | The loop over the 32 places; a buffer or memory reached a second time gives back nothing, or null if it is uncached |
| MapLifetime.FreeTable | benchmarks/seahorn/predabs/03_sat.c:4380-4460 | The same, for given sets of buffers and memories |
| MapLifetime.FreeNext | benchmarks/seahorn/predabs/03_sat.c:4383-4457 | One turn of the loop |
| MapLifetime.FreePlace | benchmarks/seahorn/predabs/03_sat.c:4385-4450 | One place of the table |

## Left out

- Machine-word wrap-around of addresses in the bounds monitors, which the C comparisons of `int8_t *` would have.
- Disjointness of the untracked blocks in `abc3.c`: adding the size to the top does not establish it, so it is neither
  assumed nor claimed.
- MonitorExactness.ReportedIffViolated: asks that pointers stay inside their blocks, since pointers that leave them may meet
  pointers from other blocks.
- MonitorBoundary.ReportedByIffSeen: asks nothing of the pointers, but speaks of layouts that keep the blocks so far apart
  that they do not meet.
- `FIXED_SIZE` in `encoding-ex-1.c`, which only adds an assume.
- The printing in `list1_check.c`, and the list object itself: its head is a field of the program state.
- `IofCallDriver` and `PoCallDriver` are one method, since they allow the same three answers and change the state alike.
  How an answer comes about is left out: in `cdaudio_simpl1` (1900-1984) the first also answers 259 when the
  `Irp__PendingReturned` that it reads is set. In `diskperf_simpl1` (885-896, 1030-1042) the first takes every routine but
  0 for the second completion routine, where the second asks for routine 1.
- IrpProtocol.Kernel.KeWait: does not model the number it returns, because every caller ignores or overwrites it.
- Control codes and buffer lengths of the drivers that never reach the protocol state are compared as arbitrary
  parameters; the switch of `FloppyDeviceControl` is modelled by the branch taken.
- The inquiry at the end of `CdAudioStartDevice`, which cannot change the outcome.
- `MaximumInterfaceType` is 0 in the floppy files; the loop is modelled for any number of interface types.
- Device-extension fields, debug descriptors, inline assembly and unload routines of the drivers.
- `floppy_simpl3_*` and `kbfiltr_simpl1_*`, which repeat parts of the files that are modelled.
- In `03_sat.c`: the other queue operations, the other three mutex automata, debug output and the harness `main`.
- `videobuf_queue_cancel` is external. Of its effects only the possible change of the external lock is modelled; it is
  taken to preserve the mapping and the buffer table.
- The two endless loops after a null or wrong memory in `03_sat.c` (`BUG_ON`) are preconditions of the methods concerned.
- The page protection, flags and operations table of a VMA, which nothing in the model reads.
- MmapMapper.MapAndUse: asks that no two places of the buffer table lead to the same memory, which is how
  `__videobuf_alloc_vb` (benchmarks/seahorn/predabs/03_sat.c:4603-4611) lays buffers out, each memory right behind its buffer. `VmClose` itself
  does not ask it.
- The uses of a mapping after the close that frees it, which would be uses of freed memory.
- The range-analysis, devirtualisation and bounded-model-checking benchmarks, the scripts and the normalizer, which hold
  only single small claims or plumbing.
