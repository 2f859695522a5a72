# Verification model of the debugger core

This project models the parts of the debugger that hold state, bit-level arithmetic or
whole-run invariants, and proves what they keep. ptrace, wait4, tgkill and the tracee are an
abstract kernel (`Tracee.Kernel`): a byte map, per-thread registers, a set of queued SIGSTOPs
and a finite list of wait events, which is arbitrary. A wait on an empty list never returns;
results are then `None`, `Hung` or `NeverEnds`. The constant `honest` says whether the kernel also
withholds a report that the request before it rules out; all results hold for either value.

| file | contents |
|---|---|
| `Bytes`, `Bits`, `Memory` | machine integers written out as integers in range, single bits, memory as a map |
| `Tracee` | the abstract kernel |
| `Traps`, `DebugRegisters`, `Stoppoints`, `Protocol` | values and lemmas behind the process: int3 overlay, DR7 fields, slot allocation, thread table |
| `Process` | module `Debugger`: the process object with memory writes, sites, watchpoints and the all-stop protocol |
| `Leb128`, `CfiReader` | LEB128 and the section reader |
| `CallFrame`, `CallFrameEncoding`, `Unwinding`, `RegisterRules` | call frame instructions, their encoding, the interpreter, applying a row |
| `Prologue` | a machine, a compiler's description of what a function does, and UnwindFrame finding the caller from its bytes |
| `PointerEncoding`, `FrameEntries`, `FrameEncoding`, `FdeLookup` | encoded pointers, CIE and FDE parsing, their layout, the CIE cache, binary search in .eh_frame_hdr |
| `DwarfOps`, `DwarfMachine`, `DwarfEval`, `DwarfTrees`, `DwarfLocations` | DWARF expressions: operations, runs, the evaluation loop, compiled trees, location descriptions and branches |
| `Pieces` | bit copies, composite values, bit fields |
| `Classification`, `ArgumentPassing`, `InferiorCall` | calling convention and calls into the tracee |

Verify with `dafny verify dfyconfig.toml`.

What happened to the program is kept as a list of deeds (`Protocol.Deed`): reports taken, with the traps planted
at the time, threads found, a pc moved back onto its trap, and for inferior calls registers loaded and memory
written. The program's own memory, the registers of its threads and the events still to come are always what
replaying the deeds from the start gives (`Process.History`, `Protocol.Replay`), so an operation can change them
only by the deeds its contract allows.

## What the proofs found

- A second `Enable` of a software site saves the int3 itself, and a `Disable` of a disabled one
  writes a stale byte; `EnableSoftware` and `DisableSoftware` state the exact conditions under
  which the overlay survives. A second `Enable` of a hardware site loses a slot (`DoubleEnableLeaks`).
- `WriteMemory` over an enabled trap loses the trap; `WriteKeepsOverlay` gives the exact condition.
- A hit handler that asks to resume (as the one on `_dl_debug_state`, debugger/dynlib.go:120) makes
  waitOnSignalFor continue the thread while it sits on its own enabled trap. `TakeEvent` says exactly
  which events a handler resumes, and that such a thread then goes on from its trap; `HandlerTrapsAgain`
  gives one.
- swallowPendingSigstop and the wait inside a step-over do not look at the event they take. The ghost
  `missed` is set exactly when the event was not the queued SIGSTOP of a thread that had executed nothing,
  or not a stop after a single step (`SwallowPendingSigstop`, `StepThread`). With an honest kernel, which
  reports a queued SIGSTOP before anything else and a stop after a step (`Tracee.Obliging`), it is never set:
  `kernel.honest ==> !missed` is part of the table invariant and holds after every resume and at every prompt.
- New threads get no debug registers, and a stoppoint takes its slot from the DR7 of the current thread but
  writes it to all. On a thread whose registers matched the stoppoints they still do if and only if the two
  threads had the same slots taken for the same modes and sizes (`SiteFromThread`, `WatchFromThread`; for
  clearing `ControlDescribed`); for a new thread that means that no slot was in use (`BlankAgrees`). `covered`
  is the set of threads that hold the common values. No operation takes a thread from it as long as the current
  thread is in it, and as long as no thread is found while the process runs, all tracked threads are (`Session`).
- Internal sites share the ID -1, so removal by ID takes the first of them (`RemoveBreakpointSite`).
- The linear FDE scan computes the position of the CIE pointer with the entry offset added twice; it
  agrees with the binary search for the entry at offset 0 only (`LinearScanMisplaces`).
- Stopping early in an FDE gives the row before the first one above pc, whatever the locations do
  (`EarlyStopRow`); that is the row for pc if and only if no location above pc is followed by one that is
  not (`RowBeforeFirstAbove`). Ascending locations are sufficient (`AscendingStaysAbove`), and a program
  that comes back to pc fails (`EarlyStopMissesReturn`).
- An FDE whose range ends at or beyond 2^64 covers no address (`ContainsInterval`).
- A bit piece at an offset is right for every content of memory if and only if offset + size <=
  8 * ceil(size / 8), since only the bytes of its own size are read (`OffsetPiece`).
- What members across the eightbyte boundary have in the second eightbyte is counted to the first. A struct of
  placed and straddling members is classified rightly if and only if that adds no larger class to what the placed
  members give in the second eightbyte, nor to the first (`StraddlersMissed`, at two inputs `CrossingIsMissed`).
  Merging of classes is not associative (`MergeAssociates`).
- rsp is 16-aligned only when there are stack arguments (`AlignedOnlyWithStack`).
- restoreExprState copies the whole cache entry, the thread it is bound to and the debug registers
  included, into whichever thread is current. The thread that was current gets its registers back in the
  tracee on every exit. The cache entry is bound to the right thread if and only if the current thread is
  still the same one; otherwise what is read and written "of" the new thread is the old one's. The cached debug
  registers are right if and only if the call did not start on a hardware site, or that site took its own
  slot back, every lower one being taken (`EvaluateExpression`, `RetakeSame`). With the site alone in
  slot 1 it moves to slot 0 (`RetakenLower`), and the next stoppoint overwrites it (`RollbackLosesStoppoint`).

## Model

| member | source | states |
|---|---|---|
| `Debugger.Process.WriteMemory` | debugger/process.go:1053-1095 | memory becomes the byte-wise update of the region for every alignment and length; fails exactly when a touched aligned word is unmapped, and then only the bytes before that word are written |
| `Debugger.Process.WriteChunk` | debugger/process.go:1059-1092 | the read-modify-write of a partial word changes exactly the chunk's bytes |
| `Debugger.Process.ReadMemoryWithoutTraps` | debugger/process.go:1101-1113 | returns the program's own bytes of any region, whatever traps are planted |
| `Traps.StripTraps` | debugger/process.go:1107-1112 | patching the saved bytes over a raw read gives the program's own bytes |
| `Traps.PlantTrap` | debugger/breakpoint_site.go:105-115 | planting a trap keeps the overlay if and only if the site was disabled or hides an int3 of the program |
| `Traps.LiftTrap` | debugger/breakpoint_site.go:130-139 | lifting keeps the overlay if and only if the site was enabled or its saved byte is the program's own |
| `Traps.WriteKeepsOverlay` | debugger/process.go:1053-1095 | a debugger write keeps the overlay if and only if no trap in the region is overwritten with anything but an int3 the site hides |
| `Debugger.Process.EnableSoftware` | debugger/breakpoint_site.go:105-115 | memory and saved byte after Enable, failure exactly on an unmapped word, overlay kept if and only if not a repeat |
| `Debugger.Process.DisableSoftware` | debugger/breakpoint_site.go:130-139 | memory after Disable, overlay kept if and only if the byte written back is the program's own |
| `Debugger.Process.EnableSite` | debugger/breakpoint_site.go:94-116 | enabling a disabled site of either kind keeps overlay and slot bijection and changes that site only |
| `Debugger.Process.DisableSite` | debugger/breakpoint_site.go:121-140 | disabling an enabled site of either kind keeps overlay and slot bijection and changes that site only |
| `Debugger.Process.CreateBreakpointSite` | debugger/process.go:578-598 | a disabled site is appended, refused exactly when the address has one; internal sites get ID -1 |
| `Debugger.Process.RemoveBreakpointSite` | debugger/process.go:618-630 | removes the first site with the ID, restoring its byte or slot; fails exactly when there is none or that one is enabled and cannot be disabled |
| `DebugRegisters.FindFree` | debugger/process.go:1285-1292 | the lowest free slot, none exactly when all four are taken |
| `DebugRegisters.ArmHolds` | debugger/process.go:1251-1268 | a programmed slot decodes to its address, mode and size, and every other slot decodes as before |
| `DebugRegisters.DisarmHolds` | debugger/process.go:1139-1157 | clearing empties one slot and leaves the others as they were |
| `DebugRegisters.DisarmArm` | debugger/process.go:1139-1157 | clearing undoes programming if and only if the slot was clean |
| `DebugRegisters.ArmDisarm` | debugger/process.go:1251-1268 | programming again what was just cleared restores the registers |
| `DebugRegisters.RetakeSame` | debugger/process.go:1139-1292 | clearing a slot and programming the watch in the lowest free one leaves the registers as they were if and only if that slot watched it and every lower slot was taken |
| `DebugRegisters.RetakenLower` | debugger/process.go:1139-1292 | a lone stoppoint in slot 1 moves to slot 0 when it is cleared and set again |
| `DebugRegisters.RollbackLosesStoppoint` | debugger/expr.go:250-257 | with DR7 cached from before that move, the next stoppoint leaves no slot that watches the first, and a slot that watches address 0 |
| `DebugRegisters.HoldsUnique` | debugger/process.go:1296-1324 | a slot determines what it watches |
| `DebugRegisters.HoldsFires` | debugger/process.go:1296-1324 | as the processor reads DR7, a slot that holds an aligned watch traps exactly the accesses of its mode to its bytes |
| `Stoppoints.ArmSite` | debugger/breakpoint_site.go:94-103 | enabling a hardware site in a free slot keeps the bijection of stoppoints and slots |
| `Stoppoints.ArmWatch` | debugger/watchpoint.go:93-101 | the same for a watchpoint |
| `Stoppoints.DisarmSite` | debugger/breakpoint_site.go:121-128 | disabling a hardware site empties exactly its slot |
| `Stoppoints.DisarmWatch` | debugger/watchpoint.go:104-110 | disabling a watchpoint empties exactly its slot |
| `Stoppoints.DoubleEnableLeaks` | debugger/breakpoint_site.go:94-103 | a second Enable of a hardware site leaves a slot that nobody owns |
| `Stoppoints.SiteFromThread` | debugger/process.go:1228-1280 | a hardware site enabled from any thread, into the lowest slot free there, leaves the registers of another thread described by the stoppoints if and only if the two threads had the same slots taken alike |
| `Stoppoints.WatchFromThread` | debugger/process.go:1228-1280 | the same for a watchpoint, new or disabled before |
| `Stoppoints.ControlDescribed` | debugger/process.go:1129-1170 | the same for a DR7 that is written without a new stoppoint, as clearing does |
| `Stoppoints.BlankAgrees` | debugger/process.go:880-888 | a thread without debug registers agrees with the others if and only if no slot is in use |
| `Debugger.Process.SetHardwareStoppoint` | debugger/process.go:1228-1280 | fills the lowest free slot of the current thread and writes it, with DR7, to every tracked thread; fails exactly without registers, for a bad size or with four slots taken; covered threads stay covered exactly if the slots of the current one agree with theirs |
| `Debugger.Process.ClearHardwareStoppoint` | debugger/process.go:1129-1170 | empties the slot and writes it, with DR7, to every tracked thread; fails exactly for a bad index or without registers; covered threads stay covered exactly if the other slots of the current one agree with theirs |
| `Debugger.Process.CreateWatchpoint` | debugger/process.go:1342-1370 | appended and enabled; refused exactly for an execute mode, a bad size or alignment, a watched address or four slots taken |
| `Debugger.Process.EnableWatchpoint` | debugger/watchpoint.go:93-101 | keeps the bijection |
| `Debugger.Process.DisableWatchpoint` | debugger/watchpoint.go:104-110 | keeps the bijection |
| `Debugger.Process.RemoveWatchpoint` | debugger/process.go:1386-1398 | removes the first watchpoint with the ID and empties its slot; fails exactly when there is none or it is enabled and there are no registers |
| `Debugger.Process.constructor` | debugger/process.go:296-333 | a process just stopped is at a prompt: every invariant holds, nothing is missed, all threads are covered |
| `Debugger.Process.InspectStop` | debugger/process.go:905-947 | the registers are those of the tracee with the PC moved back if and only if a trap was hit by an enabled software site; a resume is asked for exactly by a hit handler that wants it or by a system call that is filtered, both on main stops only |
| `Debugger.Process.Await` | debugger/process.go:815-822 | a report changes the program's own memory by the stores that land and by nothing else, the registers by what it carries, and the overlay stays |
| `Debugger.Process.HandleSignal` | debugger/process.go:868-951 | when exactly a stop is swallowed, for each of the five grounds; for another thread during stop-all only the debugger's own SIGSTOP; the registers of the tracee and the cache afterwards; the whole new table entry |
| `Debugger.Process.TakeEvent` | debugger/process.go:812-846 | one turn of the wait loop takes one report and waits on exactly if that is a stop with one of handleSignal's five grounds or the exit of a thread other than the main one, and then no thread is recorded stopped that was not so before; any other stop is reported with its whole refined reason, which is also what the table then says; it blocks only when wait4 has nothing to report; table, cache and overlay are kept, and a hit handler that asks for it, exactly, has its thread continued on its own enabled trap |
| `Debugger.TurnTold` | debugger/process.go:812-863 | what a turn does tells whether its event was to be passed over, and what is reported of it |
| `Protocol.HandlerTrapsAgain` | debugger/process.go:824-828 | an event for which it does |
| `Debugger.Process.StopThread` | debugger/process.go:958-1000 | a forced stop leaves the entry in agreement with the kernel; handleSignal never asks to resume here |
| `Debugger.Process.StopRunningThreads` | debugger/process.go:958-1000 | afterwards no thread is running and PendingSigstop is set exactly for undelivered SIGSTOPs |
| `Debugger.Process.CleanupExitedThreads` | debugger/process.go:1004-1027 | exactly the dead threads but the reported one are forgotten; the main thread's exit is reported |
| `Debugger.Process.WaitOnSignalFor` | debugger/process.go:812-863 | over every event list, None only when a wait4 has nothing to report, and then every event taken was one to pass over; otherwise all but the last were, and what is returned is the whole reason of the last (unless the main thread is found dead while the others are stopped); a reported stop leaves no tracked thread running or dead, the current thread is the reported one with that reason in the table, the state matches, the table agrees with the kernel; memory and registers are what the reports taken, all with the same traps planted, have made of them |
| `Protocol.MainWaitTakes` | debugger/process.go:812-863 | the events of a wait are the first of those to come |
| `Protocol.SyscallsAlternate` | debugger/process.go:110-143 | the system call stops of a thread are entries and exits in turn, each with its own number |
| `Protocol.TrapsNamed` | debugger/process.go:144-168 | a SIGTRAP is named by its si_code, every other signal is left alone |
| `Protocol.CaughtReported` | debugger/process.go:783-795 | a system call stop is filtered exactly when the policy does not ask for it |
| `Debugger.Process.SwallowPendingSigstop` | debugger/process.go:1032-1041 | the entry is right afterwards if and only if the ignored event was the SIGSTOP; `missed` is set exactly when it was not, or the thread had run |
| `Debugger.Process.StepThread` | debugger/process.go:651-660 | one instruction with memory as it is; `missed` is set exactly when the report that follows is not a stop |
| `Debugger.Process.StepOverBreakpointForThread` | debugger/process.go:638-665 | one instruction with that site alone disabled, the same sites enabled afterwards even if a step failed; with nothing missed it fails if and only if the site cannot be disabled (hardware: the current thread is untracked; software: its eight bytes are not mapped), and blocks only when wait4 has nothing to report; memory and registers change by at most two reports taken with that trap lifted, not at all without an enabled site there; the debug registers and slots are as before if and only if a hardware site there takes its own slot back, and covered threads stay covered |
| `Debugger.CannotStepIs` | debugger/breakpoint_site.go:121-140 | when the one enabled site at an address cannot be disabled |
| `Debugger.Process.ResumeAllThreads` | debugger/process.go:761-779 | for any iteration order: each stopped thread on an enabled site steps exactly once with only that trap lifted, then each stopped thread is continued once with all traps in place; with nothing missed it fails if and only if some stopped thread sits on a site that cannot be disabled, and blocks only when wait4 has nothing to report; on every exit the log grew by such steps and then such continues, memory and registers by the reports of the steps; covered threads stay covered; with an honest kernel nothing is ever missed, even when blocked |
| `Debugger.Process.ContinueCommand` | debugger/process.go:761-863 | resume and wait keep every invariant between prompts; it comes to no stop only if an event was missed, wait4 has nothing to report, some stopped thread sits on a site that cannot be disabled, or the process is gone; memory and registers change by the reports of the steps, each with that thread's trap lifted, and then by those of the wait with all traps planted; covered threads stay covered |
| `Debugger.Process.Session` | debugger/process.go:578-1041 | any sequence of commands that set, enable, disable or delete sites and watchpoints, select a thread or continue, over any events, keeps overlay, slots, thread table and register cache; memory and registers are what the events have made of them; if no thread is found all tracked ones keep equal debug registers; with an honest kernel the table says what the threads do, without reserve |
| `Protocol.ReplayIs` | debugger/process.go:812-863 | memory, registers and remaining events are determined by the list of deeds |
| `Debugger.Process.SameMapped` | debugger/process.go:1053-1095 | what is mapped never changes |
| `Leb128.SlebRoundTrip` | debugger/cfi.go:127-147 | reading the canonical SLEB128 of any int64, wherever it stands, returns it and consumes exactly the encoding |
| `Leb128.UlebRoundTrip` | debugger/cfi.go:114-121 | the same for every uint64 |
| `CfiReading.Reader.ReadSLEB128` | debugger/cfi.go:127-147 | the or-and-shift loop yields the signed value of the run modulo 2^64, for runs of any length; or-ing in a group and the sign bits never meets a bit that is set |
| `CfiReading.OrIsNextGroup` | debugger/cfi.go:127-147 | or-ing in the next seven bits appends them, at any shift |
| `CfiReading.Reader.ReadULEB128` | debugger/cfi.go:114-121 | the value of the run, an error exactly when it does not fit |
| `CfiReading.Reader.ReadAddress` | debugger/cfi.go:153-241 | the pointer of every format and application at the reader's position |
| `CfiReading.AddressAdvances` | debugger/cfi.go:802-815 | a fixed-size pointer advances exactly encodedPtrSize bytes and fails exactly when they are missing |
| `CallFrameEncoding.DecodeEncode` | debugger/unwind.go:134-390 | decoding inverts encoding for every call frame instruction at any position, set_loc with every known pointer encoding |
| `Unwinding.UnwindContext.ExecuteCFIInstruction` | debugger/unwind.go:134-390 | the switch decodes and applies exactly the instruction at the reader |
| `Unwinding.UnwindContext.FindRow` | debugger/unwind.go:414-447 | the CIE loop and the early-stopping FDE loop compute the run of the bytes |
| `Unwinding.ProgramRoundTrip` | debugger/unwind.go:417-447 | an encoded program decodes to itself, behind any bytes and with every known pointer encoding |
| `Unwinding.UnwindRow` | debugger/unwind.go:414-447 | for every CIE and FDE that decode and run without error from a start not above pc, the interpreter ends with the rules of the row before the first one above pc of the complete table, and that row is the one for pc if and only if locations above pc stay above it |
| `CallFrame.EarlyStopRow` | debugger/unwind.go:435-447 | executing only while location <= pc gives the rules of the row before the first one above pc, for every program |
| `CallFrame.RowBeforeFirstAbove` | debugger/unwind.go:435-447 | that row is the one for pc if and only if locations above pc stay above it |
| `CallFrame.EarlyStop` | debugger/unwind.go:435-447 | whenever they do, executing only while location <= pc gives the last row with location <= pc |
| `CallFrame.AscendingStaysAbove` | debugger/unwind.go:435-447 | ascending locations do, for every pc |
| `CallFrame.RowForIsLast` | debugger/unwind.go:435-447 | that row is the last one not above pc |
| `CallFrame.EarlyStopMissesReturn` | debugger/unwind.go:435-447 | a program that comes back to pc, on which the claim fails |
| `CallFrame.RememberRestore` | debugger/unwind.go:372-385 | a balanced program between remember_state and restore_state changes nothing but the location, at any nesting depth |
| `CallFrame.BalancedKeepsStack` | debugger/unwind.go:372-385 | a balanced program never fails and leaves the stack below it alone |
| `Prologue.UnwindFrame` | debugger/unwind.go:407-450 | from the bytes of a CIE and an FDE to the caller's registers: an error exactly when the bytes have no row for pc, or its CFA or one of its rules cannot be computed |
| `Prologue.CallerRecovered` | debugger/unwind.go:134-559 | for every function built of pushes, pops, stack and frame pointer changes, register moves, stores and overwritten registers, described by any form of the call frame instructions with any alignment factors, every call of it and every pc in it, UnwindFrame on the machine stopped at pc gives the CFA and every register the caller had, save those described as lost; for rip the return address |
| `Prologue.RowAt` | debugger/unwind.go:134-447 | the description, executed until it passes pc, leaves the row that says where the CFA and each register are at pc |
| `Prologue.CpuFitsAt` | debugger/unwind.go:395-402 | what the function has executed at pc leaves the caller's values in those places |
| `Prologue.FrameFound` | debugger/unwind.go:455-559 | applying such a row to such a machine gives the CFA and the caller's values, for each kind of rule |
| `Prologue.OpeningRun` | debugger/unwind.go:417-429 | a CIE's instructions, in any of their forms, describe a call at its first instruction |
| `Prologue.PushesOk` | debugger/unwind.go:144-155 | any list of registers can be pushed and described with def_cfa_offset and offset as x86-64 compilers do, so the recovery holds of every such prologue |
| `RegisterRules.ExecuteUnwindRules` | debugger/unwind.go:455-559 | for any rule order the result is one simultaneous assignment from the old registers and the CFA, rsp defaulting to the CFA; an error exactly when the CFA or a rule cannot be computed |
| `RegisterRules.OrderIrrelevant` | debugger/unwind.go:485-556 | the assignment determines every byte of the register file |
| `RegisterRules.OffsetsDistinct` | debugger/register_info.go:125-148 | no two registers share storage |
| `RegisterRules.OffsetNames` | debugger/register_info.go:125-148 | a DWARF number's offset is that of the register of the same name in user_regs_struct, and exactly those of the psABI have one |
| `RegisterRules.Swap` | debugger/unwind.go:502-508 | rules saving two registers in each other exchange them |
| `RegisterRules.WriteRegisterValue` | debugger/unwind.go:575-578 | eight bytes change, little-endian |
| `FdeLookup.ParseCie` | debugger/cfi.go:421-561 | the CIE of a body as a function of its bytes, errors included |
| `FrameEncoding.CieRoundTrip` | debugger/cfi.go:408-561 | parsing an encoded CIE gives back every field, for either version and any augmentations, personality pointers of every known encoding included |
| `FrameEncoding.AugmentationRoundTrip` | debugger/cfi.go:502-553 | the augmentation characters consume exactly their data and the last encoding of a kind counts |
| `PointerEncoding.AddressRoundTrip` | debugger/cfi.go:153-241 | reading inverts storing an address in every fixed-size and LEB128 format, absolute, pc-relative and data-relative |
| `FrameEncoding.FdeRoundTrip` | debugger/cfi.go:566-603 | parsing an encoded FDE gives back location, range and code, for every known pointer encoding whose range they fit |
| `FrameEncoding.SectionRoundTrip` | debugger/cfi.go:608-655 | at the FDE's offset in a section the parser follows the backward pointer and finds both entries, for every known pointer encoding |
| `FdeLookup.CallFrameInformation.GetCie` | debugger/cfi.go:389-406 | every cache entry equals a fresh parse; the cache never changes an answer |
| `FdeLookup.CallFrameInformation.ParseFdeAtOffset` | debugger/cfi.go:608-655 | the FDE at an offset as a function of the section's bytes |
| `FdeLookup.TableTruncated` | debugger/cfi.go:684-696 | an entry that is there is preceded by entries that are there |
| `FdeLookup.AboveMonotone` | debugger/cfi.go:684-696 | the search predicate is monotone on sorted tables, cut short or not |
| `FdeLookup.CoveringUnique` | debugger/cfi.go:283-285 | at most one entry of a consistent table covers an address |
| `FrameEntries.ContainsInterval` | debugger/cfi.go:283-285 | an FDE covers its first address and all up to its end, and this is lost exactly for addresses from the start on when the end wraps |
| `FdeLookup.CallFrameInformation.Search` | debugger/cfi.go:684-696 | halving ends where the predicate turns true |
| `FdeLookup.CallFrameInformation.FdeForPcBinarySearch` | debugger/cfi.go:672-734 | for a consistent table the FDE that covers the address, an error exactly when there is none; for any table never an FDE that does not cover it |
| `FdeLookup.LinearScanMisplaces` | debugger/cfi.go:782-784 | the linear scan's CIE offset is right if and only if the entry is the first |
| `DwarfOps.OpRoundTrip` | debugger/dwarf_expr.go:236-700 | decoding inverts encoding for every operation at any position |
| `DwarfEval.Evaluator.Eval` | debugger/dwarf_expr.go:170-705 | the loop over stack, pieces and location computes the machine's run and its result |
| `DwarfEval.Evaluator.CurrentLocation` | debugger/dwarf_expr.go:213-231 | the location taken and what is left |
| `DwarfMachine.SameEnd` | debugger/dwarf_expr.go:236-700 | a run that ends has one outcome |
| `DwarfMachine.ForwardEnds` | debugger/dwarf_expr.go:606-626 | a program whose branches go forward ends within one step per byte |
| `DwarfMachine.FoldAppend` | debugger/dwarf_expr.go:236-700 | branch-free programs compose under concatenation |
| `DwarfMachine.RunStraight` | debugger/dwarf_expr.go:236-700 | running the bytes of branch-free code, wherever they stand, is executing its operations and going on behind it |
| `Bits.BitwiseBits` | debugger/dwarf_expr.go:502-515 | the bitwise operators work bit by bit |
| `DwarfTrees.ArithCommutes` | debugger/dwarf_expr.go:477-546 | every binary operator commutes with reduction to 64 bits, signed where the code is signed |
| `DwarfTrees.UnaryCommutes` | debugger/dwarf_expr.go:548-568 | the same for abs, neg and not |
| `DwarfTrees.CompileCorrect` | debugger/dwarf_expr.go:186-211 | the postfix code of any tree over constants, registers, the frame base, file addresses, the CFA, memory reads of any size, all operators and shared values (dup, over, pick, swap, rot, drop) pushes exactly its value modulo 2^64 and leaves the rest of the stack alone; it fails exactly when the tree has no value |
| `DwarfTrees.EvaluateTree` | debugger/dwarf_expr.go:236-700 | the same for the bytes of the code inside any expression |
| `DwarfLocations.EvaluatePlace` | debugger/dwarf_expr.go:186-231 | an expression that ends as an address, a literal after stack_value, a register after reg, implicit bytes or nothing is evaluated to that location, an error exactly when it has none |
| `DwarfLocations.EvaluateChunks` | debugger/dwarf_expr.go:186-231 | such expressions, each followed by piece or bit_piece, are evaluated to these pieces in order with their sizes and offsets |
| `DwarfLocations.ConditionalCorrect` | debugger/dwarf_expr.go:606-626 | bra and skip around two pieces of code leave the value of the one that the condition chooses |
| `DwarfOps.FixedConst` | debugger/dwarf_expr.go:287-341 | const1u to const8s push the number they carry, signed or not as their opcode says |
| `DwarfOps.UlebOps` | debugger/dwarf_expr.go:343-348 | constu pushes its number and piece takes whole bytes |
| `DwarfOps.SlebConst` | debugger/dwarf_expr.go:350-355 | consts pushes its number |
| `Pieces.MemcpyBits` | debugger/dwarf_loc.go:420-435 | exactly the target bit range changes; missing source bits count as 0 |
| `Pieces.ReadPieces` | debugger/dwarf_loc.go:317-345 | the result is the bitwise concatenation of the pieces, although the aligned path may copy over later ones; an error exactly when a piece cannot be read |
| `Pieces.TilingDetermines` | debugger/dwarf_loc.go:317-345 | pieces that tile a value determine it |
| `Pieces.OffsetPiece` | debugger/dwarf_loc.go:327-328 | a bit piece at an offset yields what memory holds, for every content of memory, if and only if its last bit lies in the bytes its size needs |
| `Pieces.OffsetPieceAssembled` | debugger/dwarf_loc.go:317-345 | what such a piece contributes to the value read is exactly that |
| `Pieces.FixupBitfieldData` | debugger/type.go:257-280 | the little-endian value is floor(LE(data) / 2^start) mod 2^size, and a shift up for a start below 0 |
| `Pieces.FieldOfStruct` | debugger/type.go:257-280 | with DW_AT_data_bit_offset the field has the struct's bits from that offset on |
| `Pieces.FieldFromTop` | debugger/type.go:257-280 | with DW_AT_bit_offset its bits are counted from the storage's most significant bit |
| `Pieces.LiteralCut` | debugger/dwarf_loc.go:348-378 | a literal read as n bytes is its value cut to them |
| `Pieces.BitsOfValue` | debugger/dwarf_loc.go:420-435 | the bits of a byte sequence are those of its little-endian value |
| `Classification.ClassifyType` | debugger/expr.go:559-673 | the loops and branches compute the recursive classification |
| `Classification.ClassifyIsMaximum` | debugger/expr.go:559-697 | for regular types the class of each eightbyte is the maximum over the scalars in it |
| `Classification.MemberOrderIrrelevant` | debugger/expr.go:626-658 | the order of members does not matter |
| `Classification.MembersMaximum` | debugger/expr.go:626-658 | members of regular types, wherever they lie, are classified by the maximum over what is looked at of them |
| `Classification.StraddlersMissed` | debugger/expr.go:626-658 | a struct of placed and straddling members is classified rightly if and only if the largest class of the straddling ones in the second eightbyte adds nothing to that of the placed ones there, and nothing to the first eightbyte |
| `Classification.CrossingIsMissed` | debugger/expr.go:635-650 | a nested struct on which it is not, and the same with a member behind it, on which it is |
| `Classification.MergeAssociates` | debugger/expr.go:676-697 | merging is associative if and only if no integer meets a clash from outside |
| `ArgumentPassing.CallSetup.SetupArguments` | debugger/expr.go:705-873 | registers, stack bytes, rsp and rax are those of the left-to-right allocator; an error exactly when a stack byte is unmapped |
| `ArgumentPassing.SlotsDistinct` | debugger/expr.go:769-836 | at most 6 and 8 registers are used and none twice |
| `ArgumentPassing.BankHolds` | debugger/expr.go:794-836 | every eightbyte passed in a register is found in the register of its slot |
| `ArgumentPassing.BankKeeps` | debugger/expr.go:794-836 | a register already given out is not overwritten by later arguments |
| `ArgumentPassing.NotSplit` | debugger/expr.go:780-836 | an argument of a regular type is passed whole, in the psABI's classes or on the stack |
| `ArgumentPassing.ScalarsInOrder` | debugger/expr.go:780-836 | among arguments that always go to the stack, scalars take the registers of their class in order: the n-th gets the n-th register if there is one and is on the stack otherwise |
| `ArgumentPassing.OversizedOnStack` | debugger/expr.go:559-673 | long double, and structs and arrays of more than 16 bytes, go to the stack however many registers are left |
| `ArgumentPassing.StackHolds` | debugger/expr.go:852-859 | stack arguments are contiguous, whole and in order |
| `ArgumentPassing.StackFits` | debugger/expr.go:839-850 | the base is 16-aligned and the area ends at or below the old rsp |
| `ArgumentPassing.AlignedOnlyWithStack` | debugger/expr.go:838-864 | rsp is 16-aligned if and only if there are stack arguments or it was before |
| `InferiorCalls.Target.RestoreExprState` | debugger/expr.go:250-264 | the thread that was saved has its registers back in the tracee; the current thread's cache entry is a copy of what was saved, bound to that thread and with its debug registers of then; handler and site list come back |
| `InferiorCalls.Target.InferiorMalloc` | debugger/expr.go:989-1067 | the function at the entry is run from the registers given: a call that came back has in the log the thread run from the call's pc, by a step if an enabled site is there and otherwise by a continue, with the traps in memory as planted; the address returned is the rax of the stop; it ends early only for a reason that lies in the events or in a site that cannot be disabled; every exit path undoes the call in the tracee, up to the events of the call and its stack bytes; the caches are right again if and only if the current thread is the same and a hardware site on malloc took its slot back |
| `InferiorCalls.Target.EvaluateExpression` | debugger/expr.go:117-223 | the call is refused if and only if malloc ended without memory or the stack bytes of the call are not mapped; a call that came back, and so its malloc, has in the log the thread run from the call's pc, a step if an enabled site is there and otherwise a continue, with the set-up bytes in memory; every exit path, with or without the nested malloc, leaves sites, handlers, overlay and the slots of the tracee as the sites say, and the registers of the thread that was current as before; memory and the other threads change by the events and the stack bytes of the calls only; the cache is bound rightly if and only if that thread is still the current one, and knows the debug registers if and only if the step-over took its slot back |
| `InferiorCalls.Target.EvaluateCommand` | debugger/expr.go:117-223 | after a call that came back, the debugger is at a prompt with every invariant intact if and only if both conditions hold |

## Left out

- Sites and watchpoints are values in a list, not shared objects: aliasing of `*BreakpointSite` pointers is not modelled.
- Program stores on top of an int3, mmap and munmap, and reuse of a thread ID while its debug registers are kept are not modelled.
- Kernel requests fail only for unmapped memory and threads that are not stopped; other ptrace errors are not modelled.
- Slicing out of range and failed type assertions, which panic, are modelled as errors.
- StepInstruction, StepIn, StepOver, RunUntilAddress and the thread lifecycle callback are left out.
- Processes that were launched without tracing, Close, Attach and /proc reading are left out.
- Watchpoint values (UpdateData) and GetCurrentHardwareStoppoint are left out.
- parseEhFrameHdr and fdeForPCLinear are left out, except for the offset the linear scan computes.
- CieRoundTrip: augmentation characters the code does not know and text-relative pointers, which it skips or answers with an error, have no encoding to invert; `ParseCie` covers them.
- AugmentationRoundTrip: the same.
- FdeForPcBinarySearch: offsets into the table must fit an int64, because wrap-around of i*pairSize is not modelled.
- ExecuteUnwindRules: rules and sources among the floating-point registers are excluded, because their storage is wider or aliased; expression rules use an arbitrary evaluator.
- CallerRecovered: the function's code up to pc is a straight line (`RememberRestore` covers the code behind an early return); that an expression in the description computes what the compiler says is a hypothesis, and so is that the stack does not overwrite itself by wrapping around.
- UnwindFrame: finding the FDE is `FdeForPcBinarySearch`, and the load bias is taken off by the caller; rows about floating-point registers are excluded as for ExecuteUnwindRules.
- Eval: takes a bound on the number of operations, because a backward branch may loop for ever; `SameEnd` shows that the bound does not matter to a run that ends.
- evalFrameBase is a parameter of the expression machine; location lists are left out.
- ReadPieces: whole-byte pieces must find as many bytes as they take, because a shorter source leaves older bytes standing; the pieces must not exceed the value.
- FixupBitfieldData: the field must not be larger than its storage, because the original writes out of bounds otherwise.
- StraddlersMissed: members across the boundary that are larger than an eightbyte are seen in both eightbytes; `MembersMaximum` says how they are counted.
- ClassifyIsMaximum: long double, unnamed members and aggregates across an eightbyte boundary are excluded.
- EvaluateExpression: parsing, function lookup, argument values and readReturnValue are left out; a call is given by the registers and stack bytes it sets up, which must not lie on a breakpoint site, and the entry point must be mapped. When malloc came back with memory but the caches no longer describe the current thread, or its debug registers, the rest of the call is not followed (`Strayed`); what holds then is what holds after malloc.
- Commands after a call that left the caches wrong are not modelled: the operations of `Process` start from caches that agree with the tracee.
- ELF and DIE parsing, disassembly, backtraces, formatting and the command line are left out.
