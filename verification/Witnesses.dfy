/** Concrete programs on which stated intentions of the tools fail. */
module Witnesses {
  import opened Words
  import opened Opcodes
  import opened Memory
  import opened Machine
  import opened RecordReplay
  import opened SaveRestore
  import opened Debugger
  import opened DebuggerRefinement
  import opened DebuggerLaws
  import opened Assembler

  // ----- single steps -----

  lemma StepAt(c: Core, op: Byte, dst: Word, imm: Word)
    requires InstrAt(c) == Encode(op, dst, 0, imm) && op < OP_COUNT && dst < 8 && imm < IMM_LIMIT
    ensures op == OP_LI ==> CoreStep(c) == Fetch(c).(regs := c.regs[dst := imm])
    ensures op == OP_STORE ==> CoreStep(c) == Fetch(c).(mem := Store32(c.mem, imm, c.regs[dst]))
    ensures op == OP_LOAD ==> CoreStep(c) == Fetch(c).(regs := c.regs[dst := Load32(c.mem, imm)])
    ensures op == OP_HALT ==> CoreStep(c) == Fetch(c).(halted := Normal)
    ensures op == OP_IN ==>
              var (host, v) := Draw(c.host, c.cycle + 1, op);
              CoreStep(c) == if v.Some? then Fetch(c).(regs := c.regs[dst := v.value], host := host)
                             else Fetch(c).(host := host)
  {
    hide Load32, Store32, Encode, DecodeOp, DecodeDst, DecodeSrc, DecodeImm, Draw, Arith, Flags;
    DecodeOfEncode(op, dst, 0, imm);
  }

  lemma LoadElsewhere(m: Mem, a: nat, v: Word, b: nat)
    requires a + 3 < MEM_SIZE && b + 3 < MEM_SIZE && (b + 4 <= a || a + 4 <= b)
    ensures Load32(Store32(m, a, v), b) == Load32(m, b)
  {
    hide Cell, Join, ByteOf;
    CellInside(a);
    CellInside(b);
  }

  // ----- restore loses stores -----

  /** R0 := 7; mem[0x100] := R0; R1 := input; R2 := mem[0x100]; halt. */
  function StoreThenInput(): seq<Word> {
    [Encode(OP_LI, 0, 0, 7), Encode(OP_STORE, 0, 0, 0x100), Encode(OP_IN, 1, 0, 0),
     Encode(OP_LOAD, 2, 0, 0x100), Encode(OP_HALT, 0, 0, 0)]
  }

  lemma StoreThenInputCode(m: Mem)
    requires m == LoadImage(Emit(StoreThenInput()))
    ensures Load32(m, 0) == Encode(OP_LI, 0, 0, 7) && Load32(m, 4) == Encode(OP_STORE, 0, 0, 0x100)
    ensures Load32(m, 8) == Encode(OP_IN, 1, 0, 0) && Load32(m, 12) == Encode(OP_LOAD, 2, 0, 0x100)
    ensures Load32(m, 16) == Encode(OP_HALT, 0, 0, 0) && Load32(m, 0x100) == 0
  {
    hide Encode, Load32, Emit;
    var ws := StoreThenInput();
    LoadOfImage(ws, 0);
    LoadOfImage(ws, 1);
    LoadOfImage(ws, 2);
    LoadOfImage(ws, 3);
    LoadOfImage(ws, 4);
    LoadInside(m, 0x100);
  }

  /** The five states of the recording, up to what follows from them. */
  lemma StoreThenInputRecording(inputs: nat -> Word)
    ensures var p := Emit(StoreThenInput());
            var image := LoadImage(p);
            var q, r := Recording(p, inputs, 2), Recording(p, inputs, 5);
            && Live?(q) && q.cycle == 2 && q.pc == 8
            && q.regs == [7, 0, 0, 0, 0, 0, 0, 0] && q.mem == Store32(image, 0x100, 7)
            && q.host == Live(inputs, [])
            && r.halted == Normal && r.regs[2] == 7
            && r.host == Live(inputs, [Frame(3, OP_IN, inputs(0))])
  {
    hide Encode, Load32, Store32, Emit, CoreStep;
    var p := Emit(StoreThenInput());
    var image := LoadImage(p);
    var start := Boot(p, Live(inputs, []));
    StoreThenInputCode(image);
    var c0 := start;
    var c1 := CoreStep(c0);
    StepAt(c0, OP_LI, 0, 7);
    var c2 := CoreStep(c1);
    StepAt(c1, OP_STORE, 0, 0x100);
    var m := Store32(image, 0x100, 7);
    LoadElsewhere(image, 0x100, 7, 8);
    LoadElsewhere(image, 0x100, 7, 12);
    LoadElsewhere(image, 0x100, 7, 16);
    LoadOfStore(image, 0x100, 7);
    var c3 := CoreStep(c2);
    StepAt(c2, OP_IN, 1, 0);
    assert c3.host.log == [Frame(3, OP_IN, inputs(0))];
    var c4 := CoreStep(c3);
    StepAt(c3, OP_LOAD, 2, 0x100);
    var c5 := CoreStep(c4);
    StepAt(c4, OP_HALT, 0, 0);
    CoreRunNext(start, 0);
    CoreRunNext(start, 1);
    CoreRunNext(start, 2);
    CoreRunNext(start, 3);
    CoreRunNext(start, 4);
  }

  /**
   * A recorded trace whose replay verifies, and whose restore from frame 0 also consumes every frame
   * and halts normally, but with register 2 holding 0 where record and replay have 7: the STORE made
   * before the checkpoint is lost.
   */
  lemma RestoreLosesStores(inputs: nat -> Word)
    ensures var p := Emit(StoreThenInput());
            var r := Recording(p, inputs, 5);
            && r.host.Live? && |r.host.log| == 1
            && var trace := r.host.log;
            && Verified(Replaying(p, trace, 5)) && Replaying(p, trace, 5).regs[2] == 7
            && SavePoint(p, trace, 0)
            && var restored := Restored(p, trace, CheckpointOf(Replaying(p, trace, trace[0].cycle - 1), 0));
            && restored.Some?
            && Verified(CoreRun(restored.value, 3)) && CoreRun(restored.value, 3).regs[2] == 0
  {
    hide Encode, Load32, Store32, Emit, CoreStep, CoreRun;
    var p := Emit(StoreThenInput());
    var image := LoadImage(p);
    StoreThenInputRecording(inputs);
    StoreThenInputCode(image);
    var trace := Recording(p, inputs, 5).host.log;
    RecordingVerifies(p, inputs, 5);
    PrefixLockstep(p, inputs, 2, trace);
    SavePointIsReached(p, inputs, 5, 0);
    RestoredIsSavePoint(p, trace, 0);
    var c0 := Replaying(p, trace, 2).(mem := image);
    assert c0.host == Replay(trace, 0, NoFault);
    var c1 := CoreStep(c0);
    StepAt(c0, OP_IN, 1, 0);
    var c2 := CoreStep(c1);
    StepAt(c1, OP_LOAD, 2, 0x100);
    var c3 := CoreStep(c2);
    StepAt(c2, OP_HALT, 0, 0);
    ThreeSteps(c0);
  }

  lemma ThreeSteps(c: Core)
    ensures Live?(c) && Live?(CoreStep(c)) && Live?(CoreStep(CoreStep(c))) ==>
              CoreRun(c, 3) == CoreStep(CoreStep(CoreStep(c)))
  {
    hide CoreStep;
    CoreRunNext(c, 0);
    CoreRunNext(c, 1);
    CoreRunNext(c, 2);
  }

  // ----- a soft halt loses an instruction -----

  /** R0 := 5; halt. */
  function LoadFive(): seq<Word> {
    [Encode(OP_LI, 0, 0, 5), Encode(OP_HALT, 0, 0, 0)]
  }

  /** `step 1` then `continue` ends with R0 = 0; the uninterrupted program ends with R0 = 5. */
  lemma StepLosesInstruction(host: Host)
    requires !Faulted(host)
    ensures var c0 := Boot(Emit(LoadFive()), host);
            var s := After(Begin(c0), [StepCmd(1), Iterate, ContinueCmd, Iterate]);
            && CoreRun(c0, 2).halted == Normal && CoreRun(c0, 2).regs[0] == 5
            && s.m.core.halted == Normal && s.m.core.regs[0] == 0
  {
    hide Encode, Load32, Emit, CoreStep, Step, Request;
    var c0 := Boot(Emit(LoadFive()), host);
    LoadOfImage(LoadFive(), 0);
    LoadOfImage(LoadFive(), 1);
    StepAt(c0, OP_LI, 0, 5);
    StepAt(CoreStep(c0), OP_HALT, 0, 0);
    CoreRunNext(c0, 0);
    CoreRunNext(c0, 1);
    var s0 := Begin(c0);
    AfterFour(s0, StepCmd(1), Iterate, ContinueCmd, Iterate);
    var s1 := Apply(s0, StepCmd(1));
    StepTakenApart(s1.m);
    var s2 := Apply(s1, Iterate);
    assert s2.m.core == Fetch(c0).(halted := StepDone);
    var s3 := Apply(s2, ContinueCmd);
    StepTakenApart(s3.m);
    StepAt(Fetch(c0), OP_HALT, 0, 0);
  }

  lemma AfterFour(s: Session, a: Event, b: Event, c: Event, d: Event)
    requires HasRing(s.m)
    ensures After(s, [a, b, c, d]) == Apply(Apply(Apply(Apply(s, a), b), c), d)
  {
    hide Apply;
    var e0: seq<Event> := [];
    var e1, e2, e3 := [a], [a, b], [a, b, c];
    assert e1 == e0 + [a] && e2 == e1 + [b] && e3 == e2 + [c] && [a, b, c, d] == e3 + [d];
    AfterNext(s, e3, d);
    AfterNext(s, e2, c);
    AfterNext(s, e1, b);
    AfterNext(s, e0, a);
  }

  // ----- back loses a frame -----

  /** R0 := input; halt. */
  function ReadOne(): seq<Word> {
    [Encode(OP_IN, 0, 0, 0), Encode(OP_HALT, 0, 0, 0)]
  }

  /** A free run of the debugger captures the fetched core and executes. */
  lemma FreeIteration(r: FullCopy)
    requires HasCopy(r) && r.busy && r.targetCycle == NO_TARGET && r.breakpoints == {}
    requires |r.copies| == r.historyIndex + 1 < RING_CAP
    ensures RefApply(r, Iterate) ==
            r.(core := CoreStep(r.core), busy := Live?(CoreStep(r.core)),
               copies := r.copies + [Fetch(r.core)], historyIndex := r.historyIndex + 1)
  {
    hide CoreStep;
    assert r.copies[..r.historyIndex + 1] == r.copies;
  }

  lemma RefAfterThree(r: FullCopy, a: Event, b: Event, c: Event)
    requires HasCopy(r)
    ensures RefAfter(r, [a, b, c]) == RefApply(RefApply(RefApply(r, a), b), c)
  {
    hide RefApply;
    assert [a, b, c] == [a, b] + [c];
    RefAfterConcat(r, [a, b], [c]);
    RefAfterTwo(r, a, b);
    RefAfterOne(RefApply(RefApply(r, a), b), c);
  }

  /** The two states of the program under a replay host that holds its one frame. */
  lemma ReadOneReplay(v: Word)
    ensures var c0 := Boot(Emit(ReadOne()), Replay([Frame(1, OP_IN, v)], 0, NoFault));
            var c1 := CoreStep(c0);
            && Live?(c1) && c1.regs == [v, 0, 0, 0, 0, 0, 0, 0] && c1.host.Replay? && c1.host.cursor == 1
            && CoreStep(c1) == Fetch(c1).(halted := Normal)
            && CoreStep(Fetch(c0)) == Fetch(Fetch(c0)).(halted := Normal)
            && CoreRun(c0, 2) == CoreStep(c1)
  {
    hide Encode, Load32, Emit, CoreStep;
    var c0 := Boot(Emit(ReadOne()), Replay([Frame(1, OP_IN, v)], 0, NoFault));
    LoadOfImage(ReadOne(), 0);
    LoadOfImage(ReadOne(), 1);
    StepAt(c0, OP_IN, 0, 0);
    StepAt(CoreStep(c0), OP_HALT, 0, 0);
    StepAt(Fetch(c0), OP_HALT, 0, 0);
    CoreRunNext(c0, 0);
    CoreRunNext(c0, 1);
  }

  /**
   * A replay that verifies with R0 = v and its one frame consumed.  In the debugger, running it to the
   * end, going back one cycle, to before the IN executed, and continuing halts normally with the frame
   * never consumed again and R0 = 0.
   */
  lemma BackLosesFrame(v: Word)
    ensures var p := Emit(ReadOne());
            var trace := [Frame(1, OP_IN, v)];
            var c0 := Boot(p, Replay(trace, 0, NoFault));
            var first := After(Begin(c0), [ContinueCmd, Iterate, Iterate]).m.core;
            var again := After(Begin(c0), [ContinueCmd, Iterate, Iterate] + [BackCmd(1), ContinueCmd, Iterate]).m.core;
            && Verified(Replaying(p, trace, 2)) && Replaying(p, trace, 2) == first
            && first.regs[0] == v && Cursor(first.host) == 1
            && again.halted == Normal && again.regs[0] == 0 && Cursor(again.host) == 0
  {
    hide Encode, Load32, Emit, CoreStep, CoreRun, After, RefAfter, Undo, RefIterate;
    var c0 := Boot(Emit(ReadOne()), Replay([Frame(1, OP_IN, v)], 0, NoFault));
    var run, tail := [ContinueCmd, Iterate, Iterate], [BackCmd(1), ContinueCmd, Iterate];
    ReadOneReplay(v);
    DebuggerRefinesFullCopies(c0, run);
    DebuggerRefinesFullCopies(c0, run + tail);
    RefAfterThree(RefBegin(c0), ContinueCmd, Iterate, Iterate);
    var r1 := RefApply(RefBegin(c0), ContinueCmd);
    FreeIteration(r1);
    var r2 := RefApply(r1, Iterate);
    FreeIteration(r2);
    var r3 := RefApply(r2, Iterate);
    assert r3.copies == [c0, Fetch(c0), Fetch(r2.core)];
    RefAfterConcat(RefBegin(c0), run, tail);
    RefAfterThree(r3, BackCmd(1), ContinueCmd, Iterate);
    var r4 := RefApply(r3, BackCmd(1));
    assert r4.core == Fetch(c0);
    var r5 := RefApply(r4, ContinueCmd);
    FreeCore(r5);
  }

  lemma FreeCore(r: FullCopy)
    requires HasCopy(r) && r.busy && r.targetCycle == NO_TARGET && r.breakpoints == {}
    ensures RefApply(r, Iterate).core == CoreStep(r.core)
  {
    hide CoreStep;
  }

  // ----- a breakpoint is passed -----

  const WORDS := MEM_SIZE / 4

  /** Fills all of memory: R0 := 5; jump to the last cell; zeros; R1 := 1 in the last cell. */
  function WrapAround(): seq<Word> {
    seq(WORDS, i => WrapAroundWord(i))
  }

  function WrapAroundWord(i: int): Word {
    if i == 0 then Encode(OP_LI, 0, 0, 5)
    else if i == 1 then Encode(OP_JUMP, 0, 0, 0xFFFFC)
    else if i == WORDS - 1 then Encode(OP_LI, 1, 0, 1)
    else 0
  }

  lemma StepJump(c: Core, target: Word)
    requires InstrAt(c) == Encode(OP_JUMP, 0, 0, target) && target < IMM_LIMIT
    ensures CoreStep(c) == Fetch(c).(pc := target)
  {
    hide Load32, Encode, DecodeOp, DecodeDst, DecodeSrc, DecodeImm;
    DecodeOfEncode(OP_JUMP, 0, 0, target);
  }

  /** The first cell is also the one just beyond the top. */
  lemma CellsWrap(m: Mem)
    ensures Load32(m, MEM_SIZE) == Load32(m, 0)
  {
    hide Join;
    assert Cell(MEM_SIZE) == [0, 1, 2, 3] && Cell(0) == [0, 1, 2, 3];
  }

  /** The states of the program when the instruction in its first cell is not executed the first time. */
  lemma WrapAroundStates(host: Host)
    requires !Faulted(host)
    ensures var c1 := Fetch(Boot(Emit(WrapAround()), host));
            var c2 := CoreStep(c1);
            var c3 := CoreStep(c2);
            var c4 := CoreStep(c3);
            && c1.pc == 4 && Live?(c1) && c2.pc == 0xFFFFC && Live?(c2)
            && c3.pc == MEM_SIZE && Live?(c3) && c3.regs[0] == 0
            && c4.regs[0] == 5
  {
    hide Encode, Load32, Emit, CoreStep, WrapAround;
    var m := LoadImage(Emit(WrapAround()));
    var c1 := Fetch(Boot(Emit(WrapAround()), host));
    WrapAroundCode(m);
    StepJump(c1, 0xFFFFC);
    var c2 := CoreStep(c1);
    StepAt(c2, OP_LI, 1, 1);
    var c3 := CoreStep(c2);
    CellsWrap(m);
    StepAt(c3, OP_LI, 0, 5);
  }

  lemma WrapAroundCode(m: Mem)
    requires m == LoadImage(Emit(WrapAround()))
    ensures Load32(m, 0) == Encode(OP_LI, 0, 0, 5)
    ensures Load32(m, 4) == Encode(OP_JUMP, 0, 0, 0xFFFFC)
    ensures Load32(m, 0xFFFFC) == Encode(OP_LI, 1, 0, 1)
  {
    hide Encode, Load32, Emit;
    LoadOfImage(WrapAround(), 0);
    LoadOfImage(WrapAround(), 1);
    LoadOfImage(WrapAround(), WORDS - 1);
  }

  /** An iteration with no step target, at a pc that is not armed or that is. */
  lemma UnsteppedIteration(r: FullCopy)
    requires HasCopy(r) && r.busy && r.targetCycle == NO_TARGET
    ensures var u := RefApply(r, Iterate);
            && u.targetCycle == NO_TARGET && u.breakpoints == r.breakpoints
            && (r.core.pc !in r.breakpoints ==> u.core == CoreStep(r.core) && u.busy == Live?(u.core))
            && (r.core.pc in r.breakpoints ==> u.core == Fetch(r.core).(halted := Breakpoint) && !u.busy)
  {
    hide CoreStep;
  }

  lemma FirstStop(c0: Core) returns (r: FullCopy)
    requires Live?(c0) && c0.pc == 0
    ensures r == RefAfter(RefBegin(c0), [SetBreakpoint(0), ContinueCmd, Iterate])
    ensures HasCopy(r) && r.breakpoints == {0} && r.core == Fetch(c0).(halted := Breakpoint) && !r.busy
  {
    hide CoreStep, RefAfter, RefIterate;
    RefAfterThree(RefBegin(c0), SetBreakpoint(0), ContinueCmd, Iterate);
    r := RefApply(RefApply(RefBegin(c0), SetBreakpoint(0)), ContinueCmd);
    UnsteppedIteration(r);
    r := RefApply(r, Iterate);
  }

  /** Two iterations of a run continued at `c`, at pcs that are not armed. */
  lemma SecondPass(r: FullCopy, c: Core) returns (u: FullCopy)
    requires HasCopy(r) && !r.busy && r.core.halted == Breakpoint
    requires var c1 := r.core.(halted := Running);
             && c1.pc !in r.breakpoints && Live?(c1) && c == CoreStep(CoreStep(c1))
             && Live?(CoreStep(c1)) && CoreStep(c1).pc !in r.breakpoints && Live?(c)
    ensures u == RefAfter(r, [ContinueCmd, Iterate, Iterate])
    ensures HasCopy(u) && u.core == c && u.breakpoints == r.breakpoints && u.targetCycle == NO_TARGET && u.busy
  {
    hide CoreStep, RefAfter, RefIterate;
    RefAfterThree(r, ContinueCmd, Iterate, Iterate);
    u := RefApply(r, ContinueCmd);
    UnsteppedIteration(u);
    u := RefApply(u, Iterate);
    UnsteppedIteration(u);
    u := RefApply(u, Iterate);
  }

  /**
   * With a breakpoint armed at 0 a program stops there once, and after `continue` executes the
   * instruction in that very cell, fetched at pc 0x100000, without stopping.
   */
  lemma BreakpointIsPassed(host: Host)
    requires !Faulted(host)
    ensures var c0 := Boot(Emit(WrapAround()), host);
            var hit := After(Begin(c0), [SetBreakpoint(0), ContinueCmd, Iterate]);
            var es := [SetBreakpoint(0), ContinueCmd, Iterate] + [ContinueCmd, Iterate, Iterate];
            var s, s' := After(Begin(c0), es), After(Begin(c0), es + [Iterate]);
            && hit.m.core.halted == Breakpoint && hit.m.core.pc == 4
            && s.busy && 0 in s.m.sink.breakpoints && s.m.core.pc == MEM_SIZE && s.m.core.regs[0] == 0
            && s'.m.core.regs[0] == 5
  {
    hide Encode, Load32, Emit, WrapAround, CoreStep, After, RefAfter, Undo, RefApply, Mirrors, Sound;
    var c0 := Boot(Emit(WrapAround()), host);
    var first, tail := [SetBreakpoint(0), ContinueCmd, Iterate], [ContinueCmd, Iterate, Iterate];
    WrapAroundStates(host);
    DebuggerRefinesFullCopies(c0, first);
    DebuggerRefinesFullCopies(c0, first + tail);
    DebuggerRefinesFullCopies(c0, first + tail + [Iterate]);
    var r3 := FirstStop(c0);
    var r6 := SecondPass(r3, CoreStep(CoreStep(Fetch(c0))));
    RefAfterConcat(RefBegin(c0), first, tail);
    RefAfterConcat(RefBegin(c0), first + tail, [Iterate]);
    RefAfterOne(r6, Iterate);
    UnsteppedIteration(r6);
  }
}
