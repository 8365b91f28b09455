# RetroVM: a verified model of the record/replay machine and its debugger

RetroVM runs 32-bit instructions over 1 MiB of wrap-around memory, records the
answers of `IN` and `RAND` in a trace, replays and checks traces, saves and
restores checkpoints, and offers a debugger that steps backwards through a ring
of snapshots. This project models those parts as one machine and proves what
they promise, for all programs, inputs, traces and sessions.

`dafny verify dfyconfig.toml` checks everything.

## How the model is laid out

- `Words`, `Opcodes`, `Memory`, `DeltaLog`: integers of fixed width, instruction
  words, memory cells and the run-length-folded undo log.
- `Machine`: the machine as a value. A `Core` is what a program can observe (cycle,
  registers, pc, sp, flags, halt reason, memory, IO host); a `Machine` adds the
  undo log, the snapshot timer and the snapshot listener. `Step` is one iteration
  of the dispatch loop: fetch and advance, snapshot when the timer is due, stop if
  the listener asked for it, execute.
- `Instructions`: what each instruction does, in plain arithmetic on the bytes at pc,
  written independently of `Step` and proved to determine it.
- `Vm`, `DispatchLoops`: the engine class that updates memory, state and log in
  place, with its two dispatch loops, each method equal to the value-level
  function it implements.
- `UndoLog`, `RecordReplay`, `SaveRestore`: theorems over whole runs. A run may not
  end, so they are stated for every number of iterations.
- `Commands`: record, replay, save and restore as methods that drive the engine.
- `Debugger`, `DebuggerRefinement`, `SessionPath`, `LivePath`, `DebuggerLaws`,
  `History`, `DebugRepl`: the session as a state machine over commands and iterations,
  the same session with a ring of full machine copies, the proof that they cannot be
  told apart, the laws of stepping, resuming and breakpoints, how far back a session can
  go, and the class whose fields the commands update.
- `TraceFile`, `Assembler`, `Literals`, `Disassembler`, `SourceText`: the byte and text
  formats, and what a line of text means down to its effect on the machine.
- `Witnesses`: concrete programs on which stated intentions fail.

Callbacks are data. The IO hooks are a `Host`: either live, answering the n-th
event with `inputs(n)` for an arbitrary function `inputs`, or a trace with its
cursor. Since a run determines which opcode asks for its n-th event, one such
function stands for any behaviour of standard input and the random generator. The
log of a live host is the writer's frame list under `record`, and only a history
of the run elsewhere. The exception thrown by a replay hook is the host's `fault`.
Snapshot listeners are `Sink` values.

Methods that run a program take a bound on the number of iterations, `fuel`, and
say when it ran out.

## Where the code and its documentation disagree

The model follows the code.

- `README.md:459-461` says that after `back` the same frames are consumed in the same
  order, and the comment at `src/main.cpp:1285-1289` says that resuming sets pc back
  by 4 and the cycle by 1. `debug_resume` (`src/main.cpp:1450-1467`) does neither: the
  instruction fetched at a soft halt, or at the moment `back` returns to, is never
  executed. `ResumeLaw` says what a session computes instead. Resuming continues the
  uninterrupted program exactly when that instruction is inert (`ResumeIsExactIffInert`).
  Going forward after `back` repeats what the session did from there exactly when the
  session had itself lost the instruction at the target entry, by a soft halt there, or
  the instruction is inert (`BackIsExactIffInert`); back at the baseline nothing is lost
  (`BackToBaselineReplays`). `BackLosesFrame` and
  `StepLosesInstruction` give two-instruction programs on which going back, and stepping,
  lose an instruction.
- `README.md:295-299` says that memory is implicitly correct after `restore`. It reloads
  only the program image (`src/main.cpp:1158-1177`). `RestoreMatchesReplayIff` gives the
  exact condition and `RestoreLosesStores` a program for which `restore` reports
  success with a wrong register.
- The comment at `src/main.cpp:1309-1311` says that the disassembler mirrors the
  assembler's syntax. It prints LOAD and STORE addresses in brackets
  (`src/main.cpp:1328-1329`), which the assembler rejects; `DisassembleAssemble` covers
  the ten opcodes for which the round trip holds and shows that it fails for these two.
  `BracketsAside` shows that the brackets are the only obstacle.
- `README.md:436` gives the history a depth of 256 cycles. The ring keeps 256 entries, the
  current state's among them, so `back` reaches at most 255 cycles (`BackReaches`).
- `include/retrovm/opcodes.hpp:65` names a DIV remainder among the causes of the carry flag.
  DIV always clears it (`src/vm.cpp:451-472`), and the comment at `src/vm.cpp:475` calls jump
  targets aligned, but any 20-bit number is taken; `StepIffObeys` follows the code.
- `src/vm.cpp:137-144` asks for two equivalent dispatch loops. They differ when `run` is
  entered with the halt tag set; `DispatchEquivalence` has both directions.
- The comment at `src/main.cpp:1790-1793` says that an armed address is always comparable
  with the pc at fetch time. pc is not masked there (`src/main.cpp:1491-1500`), so the
  cell an address names can also be fetched through a pc at or above 0x100000.
  `ArmedCellRunsIffBeyondTop` shows that this is exactly when the breakpoint is passed,
  and `BreakpointIsPassed` gives a program on which it happens.
- `step N` is documented as running N cycles. Its target is computed in 64-bit
  arithmetic with 2^64 - 1 as a mark for "none" (`src/main.cpp:1641`); `StepIsExact` says
  what happens when cycle + N reaches it.

## Model

| member | source | states |
|---|---|---|
| Words.JoinOfBytes | src/vm.cpp:31-45 | Splitting a word into its four bytes, of which the k-th is the word shifted down 8k bits, and joining them again loses nothing |
| Words.BytesOfJoin | src/vm.cpp:31-45 | Joining any four bytes puts the first lowest and the last highest, and splitting the word again gives those bytes |
| Opcodes.DecodeOfEncode | include/retrovm/opcodes.hpp:36-48 | Each decoder recovers from an encoded word the argument masked to its field's width |
| Opcodes.EncodeOfDecode | include/retrovm/opcodes.hpp:36-48 | Every 32-bit word is the encoding of its four decoded fields |
| Memory.CellDistinct | src/vm.cpp:31-45 | The four bytes of a cell are distinct addresses, also where the cell wraps past the top of memory |
| Memory.LoadOfStore | src/vm.cpp:31-45 | A load from the cell last stored to returns the stored word, at any alignment and across the top of memory |
| Memory.StoreOfStore | include/retrovm/vm.hpp:185-195 | Of two writes to one cell only the second remains, so applying a folded burst's old value once is enough |
| Memory.StoreOfLoad | include/retrovm/vm.hpp:185-195 | Writing back the word a cell held before a STORE restores every byte of memory |
| Memory.LoadIs | src/vm.cpp:31-38 | A load is the sum of the four bytes from its address on, wrapping at 2^20, each 256 times the weight of the one before |
| Memory.StoreIs | src/vm.cpp:39-45 | Every byte of memory after a store: byte k of the word at address + k modulo 2^20, the old byte elsewhere |
| Memory.LogStoreIs | src/vm.cpp:381-403 | A STORE counts in the newest entry exactly when that is of the same address and below 255, and otherwise adds an entry with 4 KiB page, offset and the old word |
| Memory.UndoOfLogStore | src/vm.cpp:381-406 | Whether a STORE folds into the newest entry or pushes one, undoing the log after it gives what undoing it before gave |
| DeltaLog.FoldAppendsAddress | src/vm.cpp:388-402 | The addresses a log stands for, run counts expanded, grow by exactly the address of each STORE |
| DeltaLog.FoldKeepsCanonical | src/vm.cpp:388-402 | Adjacent entries share a cell only when the earlier holds 255 stores, and run counts stay in 1..255 |
| DeltaLog.CanonicalLength | src/vm.cpp:388-402 | The log's length is the sum of ceil(run/255) over the maximal runs of equal store addresses |
| DeltaLog.NoShorterLog | include/retrovm/vm.hpp:58-68 | No log of entries capped at 255 lists the same store addresses in fewer entries |
| Machine.ArithIsExact | src/vm.cpp:408-472 | The carry of ADD, SUB and MUL is exactly what the 32-bit result leaves out; DIV rounds down |
| Machine.FlagsReadBack | include/retrovm/opcodes.hpp:64-66 | ZF, CF and SF can be told apart in the mask, and SF is the result's top bit |
| Machine.SnapshotsAreTransparent | src/vm.cpp:333-361 | A listener that requests no halt leaves the program's states as they are without snapshots |
| Machine.CyclesOfRun | src/vm.cpp:335-337 | Every iteration of a run costs one cycle, whatever it does |
| Instructions.StepIffObeys | src/vm.cpp:333-517 | A step takes the machine to one state and no other: registers, flags, pc, sp, memory, halt reason, cycle and host in plain arithmetic for all twelve opcodes, the unknown ones, the DIV trap and failed replay frames |
| Instructions.RunObeys | src/vm.cpp:333-361 | So does each iteration of any run with any snapshot listener, unless the listener halts it; then only cycle, pc and the halt reason change |
| Instructions.BootIs | src/vm.cpp:69-76 | A loaded program starts with zero registers, pc and flags, sp at 0xFFFFC, its bytes at address 0 and zeros above |
| UndoLog.UndoGivesLastDrain | src/vm.cpp:104-127 | At every state of every run, undoing the pending log last to first yields memory as it was when the log was last drained |
| UndoLog.UndoEverything | src/vm.cpp:104-127 | Undoing the pending log and then every drained log, newest first, yields the memory the run began with |
| UndoLog.RewindThroughFiles | src/main.cpp:348-392 | The deltas of the emitted snapshots, with the pending ones, rewind a `snapshot` run to its boot image |
| UndoLog.RewindToAnyFile | src/main.cpp:348-392 | For every snapshot file, undoing the pending log and the files after it gives memory at the fetch where it was written |
| UndoLog.LogsListEveryStore | src/vm.cpp:388-402 | Drained and pending logs together list the address of every STORE executed, once and in order |
| UndoLog.StoresAreConserved | src/vm.cpp:388-402 | The run counts of all drained logs and the pending one sum to the number of STOREs executed |
| UndoLog.LogStaysCanonical | src/vm.cpp:388-402 | At every state, and so at every drain, the log is canonical if it was at the start, and has its minimal length |
| UndoLog.LogListsItsInterval | src/vm.cpp:388-402 | The pending log lists exactly the STOREs executed since the last drain, in as many entries as the sum of ceil(run/255) over the interval's runs of STOREs to one cell |
| UndoLog.SnapshotSchedule | src/vm.cpp:324-351 | With interval n the listener fires on every n-th fetch and no other, across any soft halts and resumptions; the timer stays in 1..n |
| DispatchLoops.DispatchEquivalence | src/vm.cpp:132-364 | The switch loop and the goto chain agree in states, logs, snapshots, events and halt reasons if and only if run is entered with the halt tag clear |
| DispatchLoops.LadderIsRun | src/vm.cpp:154-304 | The switch loop is the step function iterated until the machine halts or throws |
| DispatchLoops.ReturnIsRun | src/vm.cpp:154-364 | When either loop comes back it is in the state where the iterated step function stops |
| Vm.VM.constructor | src/vm.cpp:49-75 | A new engine has zeroed memory and registers, sp at the top slot and an empty log |
| Vm.VM.LoadProgram | src/vm.cpp:95-99 | The program is copied to address 0, the rest of memory kept; a program over 1 MiB is refused and changes nothing |
| Vm.VM.MemLoadU32 | src/vm.cpp:31-38 | Returns the sum of the four wrapped bytes, low byte first |
| Vm.VM.MemStoreU32 | src/vm.cpp:39-45 | Changes memory exactly as the store function, in place, and gives the value of every byte afterwards |
| Vm.VM.ApplyOldValue | include/retrovm/vm.hpp:185-195 | Writes a delta's old word back to its cell |
| Vm.VM.UndoDeltas | src/main.cpp:1703-1706 | Peeling a log off memory in place, newest first, gives the undone memory |
| Vm.VM.TakeSnapshot | src/vm.cpp:104-117 | Returns the CPU state with the pending log, and leaves the log empty |
| Vm.VM.MakeSnapshot | src/vm.cpp:119-127 | Drains the log, shows the snapshot to the listener, applies the halt it requests |
| Vm.VM.FetchNext | src/vm.cpp:335-339 | Fetches at the old pc, then advances pc by 4 with wrap-around, cycle by 1, and counts the timer down |
| Vm.VM.Next | src/vm.cpp:333-361 | Between two handlers: fetch, due snapshot, timer reload before the soft halt is honoured, trap of unknown opcodes |
| Vm.VM.LogStoreTo | src/vm.cpp:388-402 | Updates the log in place as the folding function says, before memory is written |
| Vm.VM.Alu | src/vm.cpp:408-472 | Destination register and flags get result and ZF, CF, SF of the operation; nothing else changes |
| Vm.VM.Input | src/vm.cpp:489-510 | IN and RAND take the host's answer at the current cycle; when the replay hook throws no register changes |
| Vm.VM.Handler | src/vm.cpp:366-519 | The twelve handlers update the machine in place as the execute function says, and return exactly where it says |
| Vm.VM.RunSwitch | src/vm.cpp:154-304 | The loop's in-place run equals the value-level ladder, bounded by fuel |
| Vm.VM.RunGoto | src/vm.cpp:318-364 | The chain's in-place run equals the value-level chain, bounded by fuel |
| Vm.VM.RunProgram | src/vm.cpp:132-364 | In either mode, when run comes back the machine is the stopped state of the iterated step function, with its reason |
| RecordReplay.InputsAgree | src/main.cpp:206-219 | A recording depends only on the inputs it has drawn |
| RecordReplay.LockstepStep | src/main.cpp:255-270 | One step keeps recording and replay in lockstep, or the replay throws because the next frame is missing or is not the event produced |
| RecordReplay.DivergenceIsLocalised | src/main.cpp:256-310 | Replay of any trace follows the recording fed with its values up to the least index whose frame's cycle or opcode is not that of the event, and stops there with the right fault |
| RecordReplay.FaultFreeIffPrefix | src/main.cpp:256-270 | Replay has not thrown if and only if the log of that recording is a prefix of the trace |
| RecordReplay.RecordingVerifies | src/main.cpp:239-326 | Replaying what a recording wrote passes through its states and, once halted, verifies |
| RecordReplay.ReplayCharacterisation | src/main.cpp:239-326 | Replay against a trace ends VERIFIED in a state if and only if some inputs make recording halt in that state having written exactly that trace |
| RecordReplay.VerifiedTracesAreIsolated | src/main.cpp:287-321 | Of two verified traces neither's values extend the other's: no proper prefix or extension of a verified trace verifies |
| RecordReplay.RecordedTraceIsWellFormed | src/vm.cpp:489-510 | Recorded frames have strictly increasing cycles from 1 to the run's, opcodes IN or RAND, one frame for each executed IN or RAND |
| SaveRestore.SaveStep | src/main.cpp:995-1040 | The save listener halts exactly at the target cycle with the target cursor, and saves pc - 4 |
| SaveRestore.SaveIffSavePoint | src/main.cpp:990-1105 | Save halts with CHECKPOINT exactly when replay reaches the target cycle with that many frames consumed, and saves replay's state there; otherwise it runs as replay |
| SaveRestore.SavePointIsReached | src/main.cpp:995-1105 | For a recorded trace every frame index is a save point, and the saved pc addresses the IN or RAND of that frame |
| SaveRestore.RestoredIsSavePoint | src/main.cpp:1137-1179 | With the frame's cycle minus 1 the restored core is replay's core at the save point in everything but memory |
| SaveRestore.StepsAgree | src/vm.cpp:333-406 | Two cores equal but for memory step alike if and only if the step fetches and loads no differing byte |
| SaveRestore.RunsCoincideIffCleanReads | src/vm.cpp:333-406 | Their runs coincide, instruction for instruction, if and only if no differing byte is read before being overwritten; memories then differ exactly in the bytes not yet overwritten |
| SaveRestore.OnlyStoredBytesChange | src/vm.cpp:381-406 | A run changes only bytes its STOREs write |
| SaveRestore.RestoreMatchesReplayIff | src/main.cpp:1125-1264 | For any trace and any save point in it, a restored run coincides with the full replay if and only if the replay reads no byte changed before the checkpoint until it is overwritten; then both verify or neither does |
| SaveRestore.RestoreOfRecording | src/main.cpp:1125-1264 | For a recorded trace all of that holds at every frame index: the checkpoint is taken, restored, and the same condition, final states and verdict apply |
| Commands.CmdRecord | src/main.cpp:196-230 | When it comes back, state and trace are those of the recording; it runs out of fuel only while the recording is still going |
| Commands.CmdReplay | src/main.cpp:239-326 | VERIFIED is announced only for traces that verify, any other verdict only for traces that never do; a divergence exactly with the fault thrown, otherwise the number of unread frames; fuel runs out only while the replay is still going |
| Commands.CmdSave | src/main.cpp:962-1111 | Range and size errors; a checkpoint, with replay's state, if the save point lies within the fuel and only if there is one; an abort is reported with the fault thrown, a miss with the halt reason of a replay that threw nothing |
| Commands.CmdRestore | src/main.cpp:1125-1264 | Range, zero-cycle and size errors, otherwise the verdict of running the restored core, with its fault or its number of unread frames, and fuel runs out only while that is still going |
| Commands.Conclude | src/main.cpp:284-325 | A throw is a divergence, unread frames are stragglers, and only then is the run verified |
| Commands.RecordedFileReplays | src/main.cpp:196-326 | The file a halted recording writes is read back whole, and replaying it verifies in the recorded state |
| DebuggerRefinement.StepTakenApart | src/main.cpp:1475-1517 | An iteration under the debugger: which halt is requested, what executes, what is logged and how memory is recovered |
| DebuggerRefinement.IterateRepresents | src/main.cpp:1475-1517 | Truncating the future, pushing a delta snapshot and evicting the oldest mirrors doing so with full copies |
| DebuggerRefinement.UndoRingLeadsBack | src/main.cpp:1701-1707 | Undoing ring entries downwards from one copy's memory gives the memory of any earlier copy |
| DebuggerRefinement.RewindRepresents | src/main.cpp:1701-1734 | `back` with deltas reaches the state that restoring the full copy reaches |
| DebuggerRefinement.DebuggerRefinesFullCopies | src/main.cpp:1475-1517 | At every point of every session the delta ring shows what a ring of full machine copies shows; undoing entry i from memory i gives memory i - 1 |
| DebuggerRefinement.TimeTravelIsExact | src/main.cpp:1683-1734 | `back n` restores all memory, registers, pc, sp, flags, cycle and replay cursor captured n cycles ago, through evictions and abandoned futures; live inputs stay read |
| DebuggerRefinement.RingInvariant | src/main.cpp:1505-1515 | Ring size 1..256, index inside it, empty log at each prompt, timer and interval 1, adjacent entries one cycle apart |
| History.DepthNext | src/main.cpp:1505-1515 | What every event does to the number of cycles `back` can undo: an iteration adds one up to 255, an accepted `back n` takes n, anything else leaves it |
| History.BackReaches | src/main.cpp:1683-1734 | After k iterations from a state with h cycles of history, `back n` goes back n cycles for each n from 1 to min(h + k, 255), and for any other n changes nothing |
| History.StartsIff | src/main.cpp:1450-1467 | `continue` and `step n` start a run exactly when the prompt's halt reason is none or one of the three soft ones, `step 0` excepted, and otherwise change nothing |
| DebuggerLaws.ResumeLaw | src/main.cpp:1450-1467 | States of any session are those of an uninterrupted run in which the instruction fetched at each soft halt, or where `back` returned to, is a one-cycle no-op; with live inputs and `back`, of such a run whose events are, in order, events of the session's log, fed exactly the inputs drawn there |
| DebuggerLaws.NoOpIffInert | src/vm.cpp:366-519 | An instruction changes nothing but pc and cycle if and only if its opcode, registers and cell meet a condition readable before it runs |
| DebuggerLaws.ResumeIsExactIffInert | src/main.cpp:1426-1467 | Resuming a soft halt continues the uninterrupted run if and only if the fetched instruction is inert; pc - 4 and cycle - 1 would always give back the core before the fetch |
| DebuggerLaws.BackIsExactIffInert | src/main.cpp:1708-1734 | `back` returns to where the session went on from if and only if a soft halt made the session lose the instruction at the target entry or that instruction is inert, and to where the program would be if and only if it is inert; with live inputs the same of CPU state and memory, where an IN or RAND that drew its register's own value also counts |
| LivePath.SessionStaysOnLivePath | src/main.cpp:1716-1734 | In every live session, `back` included, one oracle, answering with inputs the session drew, explains the present state, its surviving events and every ring entry up to it |
| DebuggerLaws.NoOpUpToHostIffSilent | src/vm.cpp:366-519 | With a live host an instruction changes nothing but pc, cycle and host if and only if it is inert or draws the value its register holds |
| DebuggerLaws.BackToBaselineReplays | src/main.cpp:1716-1734 | `back` to the surviving baseline and `continue` without breakpoints repeats the replay from the start |
| DebuggerLaws.ArmedBy | src/main.cpp:1812-1816 | Which pc `breakpoint addr` arms, and that it is addr itself only for aligned 20-bit addresses |
| History.DisarmedBy | src/main.cpp:1790-1797 | Which pc `breakpoint -d addr` disarms, and that nothing else changes |
| DebuggerLaws.BreakpointSafety | src/main.cpp:1491-1500 | In no session is an instruction fetched at an armed pc executed |
| DebuggerLaws.ArmedAreCells | src/main.cpp:1790-1817 | In every session the armed addresses are multiples of 4 inside memory |
| DebuggerLaws.ArmedCellRunsIffBeyondTop | src/main.cpp:1491-1500 | With no step boundary due, an instruction fetched from an armed cell is executed if and only if pc is at or above the top of memory |
| DebuggerLaws.ArmedFetchHalts | src/main.cpp:1477-1500 | A fetch at an armed pc ends the run, by step boundary first and else by breakpoint, changing only pc and cycle |
| DebuggerLaws.StepIsExact | src/main.cpp:1623-1643 | `step N` advances exactly N cycles unless a breakpoint, natural halt or divergence comes first; at 64-bit overflow it never stops by itself or stops after one |
| DebugRepl.CmdDebug.constructor | src/main.cpp:1918-1931 | Installing the sink and seeding the baseline gives the initial session |
| DebugRepl.CmdDebug.OnSnapshot | src/main.cpp:1477-1516 | The sink's in-place updates of ring, index, target and halt tag are those of the session |
| DebugRepl.CmdDebug.Push | src/main.cpp:1501-1515 | Entries beyond the current one are dropped, the new one appended, the oldest evicted beyond 256 |
| DebugRepl.CmdDebug.RunIteration | src/main.cpp:1475-1517 | One iteration of the engine with this sink is one iteration of the session |
| DebugRepl.CmdDebug.RunOn | src/main.cpp:1642-1643 | A run of the engine is that many iterations of the session |
| DebugRepl.CmdDebug.ResumeHalt | src/main.cpp:1450-1467 | Soft halts are cleared, natural halts refused with nothing changed |
| DebugRepl.CmdDebug.StepCommand | src/main.cpp:1623-1660 | `step` with 0, a refused halt or a target, followed by the run it starts |
| DebugRepl.CmdDebug.ContinueCommand | src/main.cpp:1742-1768 | `continue` without a target, followed by the run it starts |
| DebugRepl.CmdDebug.UndoEntries | src/main.cpp:1701-1707 | The two loops over entries and their deltas leave the memory that undoing the ring down to the target gives |
| DebugRepl.CmdDebug.BackCommand | src/main.cpp:1661-1741 | The loops of `back` over entries and deltas, and its refusals, reach the session's rewound state |
| DebugRepl.CmdDebug.BreakpointCommand | src/main.cpp:1803-1817 | The masked address joins the set |
| DebugRepl.CmdDebug.DeleteBreakpointCommand | src/main.cpp:1781-1802 | The masked address leaves the set |
| TraceFile.ReadOfFlush | src/trace.cpp:111-196 | Reading the flushed bytes of any frames returns them; the size is 16 + 16n |
| TraceFile.FlushOfRead | src/trace.cpp:111-196 | Re-flushing an accepted file reproduces it if and only if its reserved and padding bytes are zero |
| TraceFile.ReadIs | src/trace.cpp:84-127 | Exactly when a file is refused for each reason, from its bytes, and where an accepted one holds cycle, opcode and value of each frame |
| TraceFile.FlushIs | src/trace.cpp:161-196 | A flushed file is RVMTRACE, version 1, a zero word, and at 16 + 16i the i-th frame with zero padding, low bytes first |
| TraceFile.WriteLe | src/trace.cpp:43-45 | Stores the little-endian bytes in place and touches no other byte |
| TraceFile.ReadU32 | src/trace.cpp:46-50 | The high-to-low loop computes the little-endian value |
| TraceFile.TraceWriter.Append | src/trace.cpp:153-159 | The frame is appended |
| TraceFile.TraceWriter.FlushToFile | src/trace.cpp:161-196 | The mapped region holds header and frames byte for byte |
| TraceFile.OpenTrace | src/trace.cpp:84-135 | Each malformed file is refused with its reason; otherwise the reader serves the file's frames |
| TraceFile.TraceReader.FrameAtIndex | src/trace.cpp:145-149 | The i-th frame of the file, or nothing out of range |
| Literals.RegisterLiteral | src/assembler.cpp:48-55 | R or r and a decimal number name a register exactly when it is at most 7, and whatever follows the number is ignored |
| Literals.RegisterWithoutNumber | src/assembler.cpp:48-55 | R followed by text that begins no number is register 0 |
| Literals.SignedRegister | src/assembler.cpp:48-55 | A sign before the number is read, so that only zero can be negative |
| Literals.DecimalImmediate | src/assembler.cpp:74-90 | A decimal literal stands for its value exactly when that fits 20 bits |
| Literals.HexImmediate | src/assembler.cpp:74-90 | So does a hexadecimal one, with x in either case |
| Literals.OctalImmediate | src/assembler.cpp:74-90 | A leading 0 makes a literal octal |
| Literals.NegativeImmediate | src/assembler.cpp:74-90 | A negative literal is accepted only where 64-bit negation wraps around to 20 bits |
| Literals.ImmediateRejectsJunk | src/assembler.cpp:74-90 | Nothing may follow a decimal immediate |
| Literals.DigitsAre | src/assembler.cpp:80-81 | The hexadecimal digits of either case, their values, and that there are no others |
| Literals.PlaceValue | src/assembler.cpp:80-81 | Each digit of a literal counts its value times the base to the power of its place |
| Assembler.StripComma | src/assembler.cpp:57-60 | The two loops strip exactly the commas and blanks at both ends |
| Assembler.Trim | src/assembler.cpp:62-66 | The two loops strip exactly the blanks at both ends |
| Assembler.AssembleFile | src/assembler.cpp:98-192 | Accepts exactly the sources without a bad line, and emits the words of their instructions low byte first |
| Assembler.LoadOfImage | src/assembler.cpp:184-189 | After loading the emitted bytes the word at 4i is the i-th word |
| Assembler.AssembleToFetch | src/assembler.cpp:107-189 | The fetch at 4i decodes to the opcode, registers and immediate written in the i-th line that is not blank |
| Assembler.EmittedByte | src/assembler.cpp:184-189 | Byte 4i + k of the output is byte k, from the lowest, of the i-th word |
| SourceText.BlankIff | src/assembler.cpp:68-71 | A line is ignored if and only if there is only white space before its end or its comment |
| SourceText.LineMeans | src/assembler.cpp:107-181 | A line with any white space, commas, letter case, comment and surplus words means the opcode number of its mnemonic with the operands that opcode takes, or is bad |
| SourceText.EveryInstruction | src/assembler.cpp:33-46 | For all registers and 20-bit numbers, each of the twelve instructions as written gives its number and exactly those fields |
| SourceText.AcceptedIff | src/assembler.cpp:107-181 | A source is accepted if and only if it has no bad line |
| SourceText.LineExecutes | src/assembler.cpp:98-192 | From text to effect: with a source assembled and loaded, a step at 4i does to registers, flags, memory and pc what the i-th line that is not blank says |
| Disassembler.HexValue | src/main.cpp:1334-1338 | The printed hexadecimal digits of a number parse back to it |
| Disassembler.ParseImmText | src/assembler.cpp:74-90 | Every printed 20-bit immediate parses back to itself |
| Disassembler.DisassembleAssemble | src/main.cpp:1321-1340 | Assembling a disassembled word succeeds if and only if its opcode is valid and not LOAD or STORE, and gives it with unused fields zero |
| Disassembler.RoundTripOfCanonical | src/main.cpp:1321-1340 | The identical word comes back if and only if the fields its opcode ignores are zero |
| Disassembler.TextIs | src/main.cpp:1321-1340 | The text printed for every word, from its bits |
| Disassembler.HexIs | src/main.cpp:1334-1338 | Hexadecimal text is in lower case without leading zeros, the last digit the number modulo 16 |
| Disassembler.BracketsAside | src/main.cpp:1328-1329 | A printed LOAD or STORE without its brackets assembles to its opcode, register and address |
| Witnesses.RestoreLosesStores | src/main.cpp:1158-1177 | A recorded program whose restore consumes every frame and halts normally with a register other than replay's |
| Witnesses.StepLosesInstruction | src/main.cpp:1426-1467 | `step 1` then `continue` ends a two-instruction program with R0 = 0 where the program alone gives 5 |
| Witnesses.BackLosesFrame | src/main.cpp:1716-1734 | `back 1` and `continue` after a verified replay halts normally with its frame never consumed again and R0 = 0 |
| Witnesses.BreakpointIsPassed | src/main.cpp:1491-1500 | A program that stops at its breakpoint at 0 once and, continued, executes the instruction in that cell through pc 0x100000 |

## Left out

- StepIsExact: assumes the cycle counter is below 2^64 - 1; the counter itself is modelled without its 64-bit wrap-around, as are trace indices beyond 32 bits.
- Vm.VM.RunProgram: bounds the run by fuel, because a program need not halt; what it says holds for every bound.
- Vm.VM.Handler: one body for the two copies of each opcode's handler, which are textually alike; the loops around them are modelled separately.
- Vm.VM.MakeSnapshot: the file and save listeners are pure functions of their captured state; only the debugger's listener is modelled with fields updated in place.
- Literals.RegisterLiteral: `atoi` on integers without bound; a register number outside `int` is undefined in the original.
- Bit operations are modelled as the arithmetic they compute: shifts as division and multiplication by powers of two, masks as remainders, disjoint `or` as addition.
- IO hooks are always set and never request a halt; no command has an unset hook, which would turn IN and RAND into no-ops, or one that halts.
- Files, memory maps, standard input and the random generator: files are byte sequences, inputs an arbitrary function. A checkpoint that cannot be written is not modelled.
- Splitting source text into lines, and all messages, prompts and dumps, including the reason that `restore` prints after a divergence (`src/main.cpp:1225-1244`).
- The `.state` and `.snap` layouts: fixed-width copies of the values modelled here.
- The debugger's `save`, `where`, `regs` and argument parsing; `inspect` and `inspect_diff`; the benchmarks.
- `reset_cpu_for_reuse` and cache-line layout: no part in the commands modelled.
