/**
 * The machine as a value and its step function: fetch, snapshot timer and sink,
 * execute.  `Core` is what a program can observe; `Machine` adds the undo log,
 * the snapshot timer and the sink that listens to it.
 */
module Machine {
  import opened Words
  import opened Opcodes
  import opened Memory

  type RegFile = r: seq<Word> | |r| == 8 witness [0, 0, 0, 0, 0, 0, 0, 0]
  type Program = p: seq<Byte> | |p| <= MEM_SIZE

  /** One IN/RAND event. */
  datatype Frame = Frame(cycle: nat, opcode: Byte, value: Word)

  /** What the replay hook threw, if anything. */
  datatype Fault = NoFault | PrematureEof | Mismatch

  /**
   * The IO hooks and the state they capture.  A live host answers the n-th IN or RAND
   * with `inputs(n)`, an arbitrary oracle, and logs the event; a replay host injects
   * the trace.
   */
  datatype Host =
    | Live(inputs: nat -> Word, log: seq<Frame>)
    | Replay(trace: seq<Frame>, cursor: nat, fault: Fault)

  datatype Core = Core(
    cycle: nat, regs: RegFile, pc: Word, sp: Word, flags: Word, halted: HaltReason,
    mem: Mem, host: Host)

  datatype Snapshot = Snapshot(
    cycle: nat, regs: RegFile, pc: Word, sp: Word, flags: Word, halted: HaltReason,
    deltas: seq<MemDelta>)

  /** A slot of the debugger's history ring. */
  datatype ReplSnapshot = ReplSnapshot(core: Snapshot, cursor: nat)

  datatype CheckpointState = CheckpointState(
    frameIndex: nat, halted: HaltReason, flags: Word, regs: RegFile, pc: Word, sp: Word)

  datatype Option<+T> = None | Some(value: T)

  const NO_TARGET := TWO_64 - 1
  const RING_CAP := 256

  /** The snapshot listeners of the commands, with the state each captures. */
  datatype Sink =
    | NoSink
    | FileSink(files: seq<Snapshot>)
    | SaveSink(atFrame: nat, targetCycle: nat, saved: Option<CheckpointState>)
    | DebugSink(ring: seq<ReplSnapshot>, historyIndex: nat, targetCycle: nat, breakpoints: set<Word>)

  datatype Machine = Machine(
    core: Core, deltas: seq<MemDelta>, snapInterval: Word, snapTimer: Word, sink: Sink)

  // ----- booting -----

  function LoadImage(p: Program): Mem {
    p + seq(MEM_SIZE - |p|, i => 0)
  }

  function Boot(p: Program, host: Host): Core {
    Core(0, [0, 0, 0, 0, 0, 0, 0, 0], 0, MEM_SIZE - 4, 0, Running, LoadImage(p), host)
  }

  // ----- host -----

  predicate Faulted(h: Host) {
    h.Replay? && !h.fault.NoFault?
  }

  function Cursor(h: Host): nat {
    if h.Replay? then h.cursor else 0
  }

  /** The host's answer to opcode `op` retiring at `cycle`; no value when the hook throws. */
  function Draw(h: Host, cycle: nat, op: Byte): (Host, Option<Word>) {
    match h
    case Live(inputs, log) =>
      var v := inputs(|log|);
      (h.(log := log + [Frame(cycle, op, v)]), Some(v))
    case Replay(trace, cursor, fault) =>
      if cursor >= |trace| then (h.(fault := PrematureEof), None)
      else if trace[cursor].cycle != cycle || trace[cursor].opcode != op then (h.(fault := Mismatch), None)
      else (h.(cursor := cursor + 1), Some(trace[cursor].value))
  }

  // ----- instructions -----

  function Flags(zero: bool, carry: bool, r: Word): Word {
    (if zero then FLAG_ZF else 0) + (if carry then FLAG_CF else 0) + (if r >= 0x8000_0000 then FLAG_SF else 0)
  }

  /** Each flag can be read back from its bit of the mask. */
  lemma FlagsReadBack(zero: bool, carry: bool, r: Word)
    ensures var f := Flags(zero, carry, r);
            && f < 8
            && (f / FLAG_ZF % 2 == 1 <==> zero)
            && (f / FLAG_CF % 2 == 1 <==> carry)
            && (f / FLAG_SF % 2 == 1 <==> r / 0x8000_0000 == 1)
  {
  }

  function Arith(op: nat, a: Word, b: Word): (Word, bool)
    requires op == OP_ADD || op == OP_SUB || op == OP_MUL || (op == OP_DIV && b != 0)
  {
    if op == OP_ADD then var r := Wrap32(a + b); (r, r < a)
    else if op == OP_SUB then (Wrap32(a - b), a < b)
    else if op == OP_MUL then (Wrap32(a * b), a * b > 0xFFFF_FFFF)
    else (a / b, false)
  }

  /** The carry is exactly what a result of 32 bits leaves out; DIV rounds down and leaves nothing. */
  lemma ArithIsExact(op: nat, a: Word, b: Word)
    requires op == OP_ADD || op == OP_SUB || op == OP_MUL || (op == OP_DIV && b != 0)
    ensures var (r, carry) := Arith(op, a, b);
            && (op == OP_ADD ==> a + b == r + if carry then TWO_32 else 0)
            && (op == OP_SUB ==> a - b == r - if carry then TWO_32 else 0)
            && (op == OP_MUL ==> (exists high: nat :: a * b == r + TWO_32 * high && (carry <==> high > 0)))
            && (op == OP_DIV ==> r * b <= a < r * b + b && !carry)
  {
    if op == OP_MUL {
      MulNonNegative(a, b);
      var high: nat := a * b / TWO_32;
      assert a * b == a * b % TWO_32 + TWO_32 * high;
    } else if op == OP_DIV {
      assert a == b * (a / b) + a % b;
    }
  }

  lemma MulNonNegative(a: nat, b: nat)
    ensures a * b >= 0
  {
  }

  /** The handler of instruction `w`, entered with pc and cycle already advanced. */
  function Execute(c: Core, w: Word): Core {
    var op, dst, src, imm := DecodeOp(w), DecodeDst(w), DecodeSrc(w), DecodeImm(w);
    if op >= OP_COUNT then c.(halted := UnknownOp)
    else if op == OP_HALT then c.(halted := Normal)
    else if op == OP_LOAD then c.(regs := c.regs[dst := Load32(c.mem, imm)])
    else if op == OP_STORE then c.(mem := Store32(c.mem, imm, c.regs[dst]))
    else if op == OP_DIV && c.regs[src] == 0 then c.(pc := Wrap32(c.pc - 4), halted := DivZero)
    else if op == OP_JUMP then c.(pc := imm)
    else if op == OP_JNZ then if c.regs[dst] != 0 then c.(pc := imm) else c
    else if op == OP_IN || op == OP_RAND then
      var (host, v) := Draw(c.host, c.cycle, op);
      if v.Some? then c.(regs := c.regs[dst := v.value], host := host) else c.(host := host)
    else if op == OP_LI then c.(regs := c.regs[dst := imm])
    else
      var (r, carry) := Arith(op, c.regs[dst], c.regs[src]);
      c.(regs := c.regs[dst := r], flags := Flags(r == 0, carry, r))
  }

  // ----- the observable machine, without snapshots -----

  /** Neither halted nor unwound by an exception. */
  predicate Live?(c: Core) {
    c.halted == Running && !Faulted(c.host)
  }

  function InstrAt(c: Core): Word {
    Load32(c.mem, c.pc)
  }

  function Fetch(c: Core): Core {
    c.(cycle := c.cycle + 1, pc := Wrap32(c.pc + 4))
  }

  function CoreStep(c: Core): Core {
    Execute(Fetch(c), InstrAt(c))
  }

  /** `n` iterations, or fewer if the machine stops first. */
  function CoreRun(c: Core, n: nat): Core
    decreases n
  {
    if n == 0 || !Live?(c) then c else CoreRun(CoreStep(c), n - 1)
  }

  // ----- the whole machine -----

  function SnapshotOf(c: Core, deltas: seq<MemDelta>): Snapshot {
    Snapshot(c.cycle, c.regs, c.pc, c.sp, c.flags, c.halted, deltas)
  }

  function DefaultEntry(): ReplSnapshot {
    ReplSnapshot(Snapshot(0, [0, 0, 0, 0, 0, 0, 0, 0], 0, 0, 0, Running, []), 0)
  }

  /** `std::deque::resize`. */
  function Resize(ring: seq<ReplSnapshot>, n: nat): seq<ReplSnapshot> {
    if n <= |ring| then ring[..n] else ring + seq(n - |ring|, i => DefaultEntry())
  }

  /** What the listener makes of snapshot `s`: its new state, and the halt it requests if any. */
  function Notify(sink: Sink, s: Snapshot, cursor: nat): (Sink, HaltReason) {
    match sink
    case NoSink => (sink, Running)
    case FileSink(files) => (FileSink(files + [s]), Running)
    case SaveSink(atFrame, targetCycle, saved) =>
      if saved.Some? || cursor != atFrame || s.cycle != targetCycle then (sink, Running)
      else
        var state := CheckpointState(atFrame, Checkpoint, s.flags, s.regs, Wrap32(s.pc - 4), s.sp);
        (sink.(saved := Some(state)), Checkpoint)
    case DebugSink(ring, historyIndex, targetCycle, breakpoints) =>
      var stepped := targetCycle != NO_TARGET && s.cycle >= targetCycle;
      var broken := !stepped && Wrap32(s.pc - 4) in breakpoints;
      var ring' := Resize(ring, historyIndex + 1) + [ReplSnapshot(s, cursor)];
      var sink' :=
        if |ring'| > RING_CAP then sink.(ring := ring'[1..])
        else sink.(ring := ring', historyIndex := historyIndex + 1);
      (if stepped then sink'.(targetCycle := NO_TARGET) else sink',
       if stepped then StepDone else if broken then Breakpoint else Running)
  }

  /** Fetch, advance and count down the snapshot timer. */
  function Tick(m: Machine): Machine {
    m.(core := Fetch(m.core), snapTimer := if m.snapInterval > 0 then Wrap32(m.snapTimer - 1) else m.snapTimer)
  }

  predicate Due(m: Machine) {
    m.snapInterval > 0 && Wrap32(m.snapTimer - 1) == 0
  }

  /** The halt the sink requests in the iteration that starts at `m`. */
  function Request(m: Machine): HaltReason {
    if Due(m) then Notify(m.sink, SnapshotOf(Fetch(m.core), m.deltas), Cursor(m.core.host)).1 else Running
  }

  /** The machine when the fetched instruction is about to be dispatched. */
  function Arrive(m: Machine): Machine {
    var t := Tick(m);
    if !Due(m) then t
    else
      var (sink, halt) := Notify(m.sink, SnapshotOf(t.core, m.deltas), Cursor(m.core.host));
      t.(deltas := [], snapTimer := m.snapInterval, sink := sink,
         core := if halt.Running? then t.core else t.core.(halted := halt))
  }

  function Dispatch(m: Machine, w: Word): Machine {
    m.(core := Execute(m.core, w),
       deltas := if DecodeOp(w) == OP_STORE then LogStore(m.deltas, m.core.mem, DecodeImm(w)) else m.deltas)
  }

  /** One iteration of the dispatch loop. */
  function Step(m: Machine): Machine {
    var a := Arrive(m);
    if Due(m) && !a.core.halted.Running? then a else Dispatch(a, InstrAt(m.core))
  }

  function Run(m: Machine, n: nat): Machine
    decreases n
  {
    if n == 0 || !Live?(m.core) then m else Run(Step(m), n - 1)
  }

  // ----- runs -----

  lemma {:induction false} CoreRunAdd(c: Core, a: nat, b: nat)
    ensures CoreRun(c, a + b) == CoreRun(CoreRun(c, a), b)
    decreases a
  {
    hide CoreStep;
    if a > 0 && Live?(c) {
      CoreRunAdd(CoreStep(c), a - 1, b);
    }
  }

  lemma CoreRunNext(c: Core, n: nat)
    ensures CoreRun(c, n + 1) == if Live?(CoreRun(c, n)) then CoreStep(CoreRun(c, n)) else CoreRun(c, n)
  {
    hide CoreStep;
    CoreRunAdd(c, n, 1);
    var d := CoreRun(c, n);
    if Live?(d) {
      assert CoreRun(CoreStep(d), 0) == CoreStep(d);
    }
  }

  lemma {:induction false} RunAdd(m: Machine, a: nat, b: nat)
    ensures Run(m, a + b) == Run(Run(m, a), b)
    decreases a
  {
    hide Step;
    if a > 0 && Live?(m.core) {
      RunAdd(Step(m), a - 1, b);
    }
  }

  lemma RunNext(m: Machine, n: nat)
    ensures Run(m, n + 1) == if Live?(Run(m, n).core) then Step(Run(m, n)) else Run(m, n)
  {
    hide Step;
    RunAdd(m, n, 1);
    var d := Run(m, n);
    if Live?(d.core) {
      assert Run(Step(d), 0) == Step(d);
    }
  }

  /** A step is the core's step, or the bare fetch of an instruction the sink refused. */
  lemma StepOnCore(m: Machine)
    requires m.core.halted.Running?
    ensures Step(m).core ==
            if Request(m).Running? then CoreStep(m.core) else Fetch(m.core).(halted := Request(m))
  {
  }

  /** A machine whose sink never asks for a halt shows the same states as one without snapshots. */
  lemma {:induction false} SnapshotsAreTransparent(m: Machine, n: nat)
    requires forall i :: 0 <= i < n ==> Request(Run(m, i)).Running?
    ensures Run(m, n).core == CoreRun(m.core, n)
  {
    hide Step, CoreStep, Request;
    if n > 0 {
      SnapshotsAreTransparent(m, n - 1);
      RunNext(m, n - 1);
      CoreRunNext(m.core, n - 1);
      assert Request(Run(m, n - 1)).Running?;
      if Live?(Run(m, n - 1).core) {
        StepOnCore(Run(m, n - 1));
      }
    }
  }

  /** Every iteration of a run costs exactly one cycle. */
  lemma {:induction false} CyclesOfRun(c: Core, n: nat)
    ensures CoreRun(c, n).cycle <= c.cycle + n
    ensures n > 0 && Live?(CoreRun(c, n - 1)) ==> CoreRun(c, n).cycle == c.cycle + n
    ensures Live?(CoreRun(c, n)) ==> CoreRun(c, n).cycle == c.cycle + n
  {
    hide CoreStep;
    if n > 0 {
      CyclesOfRun(c, n - 1);
      CoreRunNext(c, n - 1);
      CycleOfStep(CoreRun(c, n - 1));
    }
  }

  lemma CycleOfStep(c: Core)
    ensures CoreStep(c).cycle == c.cycle + 1
  {
    hide Load32, Store32, Draw, Arith, Flags;
  }

  /** Once stopped, a run stays where it stopped. */
  lemma StoppedStays(c: Core, n: nat, k: nat)
    requires n <= k && !Live?(CoreRun(c, n))
    ensures CoreRun(c, k) == CoreRun(c, n)
  {
    hide CoreStep;
    CoreRunAdd(c, n, k - n);
  }
}
