/** The record, replay, save and restore commands, driving the engine. */
module Commands {
  import opened Words
  import opened Opcodes
  import opened Memory
  import opened Machine
  import opened RecordReplay
  import opened SaveRestore
  import opened TraceFile
  import opened Vm

  /** How a replay or restore ended. */
  datatype Verdict =
    | TooLarge
    | OutOfRange
    | ZeroCycle
    | AllConsumed(reason: HaltReason)
    | Stragglers(unread: nat)
    | DivergenceDetected(fault: Fault)
    | StillRunning

  datatype SaveVerdict =
    | SaveTooLarge
    | SaveOutOfRange
    | SaveAborted(fault: Fault)
    | SaveMissed(reason: HaltReason)
    | Saved(state: CheckpointState)
    | SaveStillRunning

  /** A machine with snapshots off is its core. */
  lemma {:induction false} PlainRun(m: Machine, n: nat)
    requires m.snapInterval == 0
    ensures Run(m, n).core == CoreRun(m.core, n)
    decreases n
  {
    hide Execute, LogStore;
    if n > 0 && Live?(m.core) {
      PlainRun(Step(m), n - 1);
      StepOnCore(m);
    }
  }

  /** The verdict a stopped replay deserves: a throw first, then unread frames, else its halt reason. */
  predicate VerdictOf(v: Verdict, c: Core)
    requires c.host.Replay?
  {
    match v
    case DivergenceDetected(fault) => Faulted(c.host) && fault == c.host.fault
    case Stragglers(unread) => !Faulted(c.host) && unread > 0 && c.host.cursor + unread == |c.host.trace|
    case AllConsumed(reason) => !Faulted(c.host) && c.host.cursor >= |c.host.trace| && reason == c.halted
    case _ => false
  }

  method Booted(bytes: seq<Byte>, host: Host) returns (vm: VM, ok: bool)
    ensures fresh(vm) && fresh(vm.mem) && vm.Valid()
    ensures ok <==> |bytes| <= MEM_SIZE
    ensures ok ==> vm.View() == Machine(Boot(bytes, host), [], 0, 0, NoSink)
  {
    vm := new VM(host);
    ok := vm.LoadProgram(bytes);
    assert ok ==> vm.mem[..] == LoadImage(bytes);
  }

  method CmdRecord(bytes: seq<Byte>, inputs: nat -> Word, fuel: nat)
    returns (e: Exit, trace: seq<Frame>, vm: VM, ok: bool)
    ensures fresh(vm) && vm.Valid()
    ensures ok <==> |bytes| <= MEM_SIZE
    ensures ok && !e.OutOfFuel? ==>
              && vm.View().core == Recording(bytes, inputs, fuel + 1)
              && e == Halted(vm.View().core.halted) && !vm.View().core.halted.Running?
              && vm.View().core.host == Live(inputs, trace)
              && Recorded(bytes, trace, vm.View().core)
    ensures ok && e.OutOfFuel? ==> Live?(Recording(bytes, inputs, fuel))
  {
    hide CoreRun, Run;
    e, trace := OutOfFuel, [];
    vm, ok := Booted(bytes, Live(inputs, []));
    if ok {
      PlainRun(vm.View(), fuel + 1);
      PlainRun(vm.View(), fuel);
      RecordingHost(bytes, inputs, fuel + 1);
      e := vm.RunProgram(fuel);
      if !e.OutOfFuel? {
        trace := vm.io.log;
      }
    }
  }

  /** What is printed once `run` is back: a divergence, unread frames, or success. */
  method Conclude(vm: VM, e: Exit) returns (v: Verdict)
    requires vm.Valid() && vm.io.Replay? && vm.io.cursor <= |vm.io.trace|
    requires !e.OutOfFuel? ==> e == if Faulted(vm.io) then Threw(vm.io.fault) else Halted(vm.state.halted)
    ensures v.StillRunning? <==> e.OutOfFuel?
    ensures !e.OutOfFuel? ==>
              v == if Faulted(vm.io) then DivergenceDetected(vm.io.fault)
                   else if vm.io.cursor < |vm.io.trace| then Stragglers(|vm.io.trace| - vm.io.cursor)
                   else AllConsumed(vm.state.halted)
  {
    match e
    case OutOfFuel => v := StillRunning;
    case Threw(fault) => v := DivergenceDetected(fault);
    case Halted(reason) =>
      if vm.io.cursor < |vm.io.trace| {
        v := Stragglers(|vm.io.trace| - vm.io.cursor);
      } else {
        v := AllConsumed(reason);
      }
  }

  lemma {:induction false} ReplayKeepsTrace(c: Core, n: nat)
    requires c.host.Replay? && c.host.cursor <= |c.host.trace|
    ensures CoreRun(c, n).host.Replay? && CoreRun(c, n).host.trace == c.host.trace
    ensures c.host.cursor <= CoreRun(c, n).host.cursor <= |c.host.trace|
    decreases n
  {
    hide CoreStep;
    if n > 0 && Live?(c) {
      StepWithHost(c, c.host);
      ReplayKeepsTrace(CoreStep(c), n - 1);
    }
  }

  /** A replay that has stopped unverified never verifies. */
  lemma UnverifiedForGood(p: Program, trace: seq<Frame>, n: nat, s: Core)
    requires !Live?(Replaying(p, trace, n)) && !Verified(Replaying(p, trace, n))
    ensures !ReplayVerifies(p, trace, s)
  {
    hide CoreRun;
    if ReplayVerifies(p, trace, s) {
      var k: nat :| Verified(Replaying(p, trace, k)) && SameState(Replaying(p, trace, k), s);
      var start := Boot(p, Replay(trace, 0, NoFault));
      if k <= n {
        StoppedStays(start, k, n);
      } else {
        StoppedStays(start, n, k);
      }
      assert false;
    }
  }

  /** `replay` announces VERIFIED, when it comes back at all, exactly for the traces that verify. */
  method CmdReplay(bytes: seq<Byte>, trace: seq<Frame>, fuel: nat) returns (v: Verdict, vm: VM)
    ensures fresh(vm) && vm.Valid()
    ensures v.TooLarge? <==> |bytes| > MEM_SIZE
    ensures !v.OutOfRange? && !v.ZeroCycle?
    ensures v.AllConsumed? ==> ReplayVerifies(bytes, trace, vm.View().core)
    ensures v.Stragglers? || v.DivergenceDetected? ==> forall s :: !ReplayVerifies(bytes, trace, s)
    ensures v.AllConsumed? || v.Stragglers? || v.DivergenceDetected? ==>
              && |bytes| <= MEM_SIZE
              && var c := Replaying(bytes, trace, fuel + 1);
              && vm.View().core == c && !Live?(c) && c.host.Replay?
              && VerdictOf(v, c)
    ensures v.StillRunning? ==> |bytes| <= MEM_SIZE && Live?(Replaying(bytes, trace, fuel))
  {
    hide CoreRun, Run, ReplayVerifies;
    var ok;
    vm, ok := Booted(bytes, Replay(trace, 0, NoFault));
    if !ok {
      return TooLarge, vm;
    }
    var p: Program := bytes;
    PlainRun(vm.View(), fuel + 1);
    PlainRun(vm.View(), fuel);
    ReplayKeepsTrace(vm.View().core, fuel + 1);
    var e := vm.RunProgram(fuel);
    if e.OutOfFuel? {
      return StillRunning, vm;
    }
    assert vm.View().core == Replaying(p, trace, fuel + 1);
    v := Conclude(vm, e);
    if v.AllConsumed? {
      ItVerifiesAs(p, trace, fuel + 1, vm.View().core);
    } else {
      forall s ensures !ReplayVerifies(p, trace, s) {
        UnverifiedForGood(p, trace, fuel + 1, s);
      }
    }
  }

  /** What a halted recording writes to its trace file is read back whole, and replaying it verifies. */
  lemma RecordedFileReplays(p: Program, inputs: nat -> Word, n: nat)
    requires var r := Recording(p, inputs, n); !r.halted.Running? && r.cycle < TWO_64
    ensures var r := Recording(p, inputs, n);
            && r.host.Live?
            && Read(Flush(r.host.log)) == Frames(r.host.log)
            && ReplayVerifies(p, r.host.log, r)
  {
    hide CoreRun, Read, Flush;
    RecordedTraceIsWellFormed(p, inputs, n);
    ReadOfFlush(Recording(p, inputs, n).host.log);
    RecordingVerifies(p, inputs, n);
    ItVerifiesAs(p, Recording(p, inputs, n).host.log, n, Recording(p, inputs, n));
  }

  lemma ItVerifiesAs(p: Program, trace: seq<Frame>, n: nat, s: Core)
    requires Verified(Replaying(p, trace, n)) && SameState(Replaying(p, trace, n), s)
    ensures ReplayVerifies(p, trace, s)
  {
  }

  /** `save` writes a checkpoint exactly when replay reaches the save point, and writes its state. */
  method CmdSave(bytes: seq<Byte>, trace: seq<Frame>, atFrame: nat, fuel: nat) returns (v: SaveVerdict)
    ensures v.SaveOutOfRange? <==> atFrame >= |trace|
    ensures v.SaveTooLarge? <==> atFrame < |trace| && |bytes| > MEM_SIZE
    ensures v.Saved? ==> SavePoint(bytes, trace, atFrame)
                         && v.state == CheckpointOf(Replaying(bytes, trace, trace[atFrame].cycle - 1), atFrame)
    ensures v.SaveAborted? || v.SaveMissed? ==> !SavePoint(bytes, trace, atFrame)
    ensures v.SaveAborted? || v.SaveMissed? || v.Saved? ==>
              && atFrame < |trace| && |bytes| <= MEM_SIZE
              && var c := Saving(bytes, trace, atFrame, fuel + 1).core;
              && !Live?(c)
              && (v.SaveAborted? <==> Faulted(c.host))
              && (v.SaveAborted? ==> v.fault == c.host.fault)
              && (v.SaveMissed? ==> v.reason == c.halted != Checkpoint)
    ensures v.SaveStillRunning? ==> Live?(Saving(bytes, trace, atFrame, fuel).core)
    ensures atFrame < |trace| && |bytes| <= MEM_SIZE && SavePoint(bytes, trace, atFrame) && trace[atFrame].cycle <= fuel
            ==> v.Saved?
  {
    hide CoreRun, Run;
    if atFrame >= |trace| {
      return SaveOutOfRange;
    }
    var vm, ok := Booted(bytes, Replay(trace, 0, NoFault));
    if !ok {
      return SaveTooLarge;
    }
    var p: Program := bytes;
    vm.SetSnapshotInterval(1);
    vm.SetSnapshotSink(SaveSink(atFrame, trace[atFrame].cycle, None));
    assert vm.View() == SaveStart(p, trace, atFrame);
    SaveOutcome(p, trace, atFrame, fuel + 1);
    SaveIffSavePoint(p, trace, atFrame, fuel);
    var e := vm.RunProgram(fuel);
    match e
    case OutOfFuel => return SaveStillRunning;
    case Threw(fault) => return SaveAborted(fault);
    case Halted(reason) =>
      if reason != Checkpoint {
        return SaveMissed(reason);
      }
      if Cursor(vm.io) != atFrame {
        assert false;
      }
      return Saved(vm.sink.saved.value);
  }

  lemma NoCheckpointInReplay(c: Core, n: nat)
    requires !c.halted.Checkpoint?
    ensures !CoreRun(c, n).halted.Checkpoint?
    decreases n
  {
    hide Load32, Store32, Arith, Flags;
    if n > 0 && Live?(c) {
      NoCheckpointInReplay(CoreStep(c), n - 1);
    }
  }

  /** A save run that has stopped has saved if and only if it halted with CHECKPOINT. */
  lemma SaveOutcome(p: Program, trace: seq<Frame>, atFrame: nat, n: nat)
    requires atFrame < |trace|
    ensures var m := Saving(p, trace, atFrame, n);
            && m.sink.SaveSink?
            && (!Live?(m.core) ==> (m.core.halted.Checkpoint? <==> SavePoint(p, trace, atFrame)))
            && (m.core.halted.Checkpoint? ==>
                  && !Faulted(m.core.host) && Cursor(m.core.host) == atFrame && SavePoint(p, trace, atFrame)
                  && m.sink.saved == Some(CheckpointOf(Replaying(p, trace, trace[atFrame].cycle - 1), atFrame)))
  {
    hide CoreRun, Run;
    SaveIffSavePoint(p, trace, atFrame, n);
    var start := Boot(p, Replay(trace, 0, NoFault));
    NoCheckpointInReplay(start, n);
    var t := trace[atFrame].cycle;
    if SavePoint(p, trace, atFrame) && n < t && !Live?(Replaying(p, trace, n)) {
      StoppedStays(start, n, t - 1);
    }
  }

  /** `restore` runs the restored core against the rest of the trace. */
  method CmdRestore(bytes: seq<Byte>, trace: seq<Frame>, s: CheckpointState, fuel: nat) returns (v: Verdict, vm: VM)
    ensures vm.Valid()
    ensures v.OutOfRange? <==> s.frameIndex >= |trace|
    ensures v.ZeroCycle? <==> s.frameIndex < |trace| && trace[s.frameIndex].cycle == 0
    ensures v.TooLarge? <==> s.frameIndex < |trace| && trace[s.frameIndex].cycle != 0 && |bytes| > MEM_SIZE
    ensures v.AllConsumed? || v.Stragglers? || v.DivergenceDetected? ==>
              && |bytes| <= MEM_SIZE && Restored(bytes, trace, s).Some?
              && var c := CoreRun(Restored(bytes, trace, s).value, fuel + 1);
              && vm.View().core == c && !Live?(c)
              && (v.AllConsumed? <==> Verified(c))
              && c.host.Replay? && VerdictOf(v, c)
    ensures v.StillRunning? ==>
              && |bytes| <= MEM_SIZE && Restored(bytes, trace, s).Some?
              && Live?(CoreRun(Restored(bytes, trace, s).value, fuel))
  {
    hide CoreRun, Run;
    var ok;
    vm, ok := Booted(bytes, Replay(trace, s.frameIndex, NoFault));
    if s.frameIndex >= |trace| {
      return OutOfRange, vm;
    }
    if trace[s.frameIndex].cycle == 0 {
      return ZeroCycle, vm;
    }
    if !ok {
      return TooLarge, vm;
    }
    vm.SetState(VMState(trace[s.frameIndex].cycle - 1, s.regs, s.pc, s.sp, s.flags, Running, 0, 0));
    var p: Program := bytes;
    assert vm.View().core == Restored(p, trace, s).value;
    PlainRun(vm.View(), fuel + 1);
    PlainRun(vm.View(), fuel);
    ReplayKeepsTrace(vm.View().core, fuel + 1);
    var e := vm.RunProgram(fuel);
    if e.OutOfFuel? {
      return StillRunning, vm;
    }
    v := Conclude(vm, e);
  }
}
