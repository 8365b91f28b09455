/** `save` at a trace frame, and when `restore` from it repeats the full replay. */
module SaveRestore {
  import opened Words
  import opened Opcodes
  import opened Memory
  import opened Machine
  import opened RecordReplay

  // ----- save -----

  /** The machine of `save --at-frame=atFrame`, before it runs. */
  function SaveStart(p: Program, trace: seq<Frame>, atFrame: nat): Machine
    requires atFrame < |trace|
  {
    Machine(Boot(p, Replay(trace, 0, NoFault)), [], 1, 1, SaveSink(atFrame, trace[atFrame].cycle, None))
  }

  function Saving(p: Program, trace: seq<Frame>, atFrame: nat, n: nat): Machine
    requires atFrame < |trace|
  {
    Run(SaveStart(p, trace, atFrame), n)
  }

  /** Replay reaches the target cycle with exactly the frames before `atFrame` consumed. */
  predicate SavePoint(p: Program, trace: seq<Frame>, atFrame: nat)
    requires atFrame < |trace|
  {
    var t := trace[atFrame].cycle;
    t >= 1 && var q := Replaying(p, trace, t - 1); Live?(q) && q.host.Replay? && q.host.cursor == atFrame
  }

  /** The checkpoint of core `q`, whose next instruction consumes frame `atFrame`. */
  function CheckpointOf(q: Core, atFrame: nat): CheckpointState {
    CheckpointState(atFrame, Checkpoint, q.flags, q.regs, q.pc, q.sp)
  }

  lemma SaveStep(m: Machine)
    requires m.snapInterval == m.snapTimer == 1 && m.sink.SaveSink? && m.sink.saved.None? && Live?(m.core)
    ensures var s := Step(m);
            var hit := Cursor(m.core.host) == m.sink.atFrame && m.core.cycle + 1 == m.sink.targetCycle;
            && s.snapInterval == s.snapTimer == 1
            && s.sink == m.sink.(saved := if hit then Some(CheckpointOf(m.core, m.sink.atFrame)) else None)
            && s.core == if hit then Fetch(m.core).(halted := Checkpoint) else CoreStep(m.core)
  {
    hide Execute;
    assert Wrap32(Wrap32(m.core.pc + 4) - 4) == m.core.pc;
  }

  lemma {:induction false} ReplayHost(p: Program, trace: seq<Frame>, n: nat)
    ensures Replaying(p, trace, n).host.Replay? && Replaying(p, trace, n).host.trace == trace
  {
    hide Recording, Replaying;
    DivergenceIsLocalised(p, trace, n);
  }

  /**
   * `save` halts with CHECKPOINT exactly when replay reaches the save point, at its cycle, with the
   * state of replay there; otherwise it runs as replay does and saves nothing.
   */
  lemma {:induction false} SaveIffSavePoint(p: Program, trace: seq<Frame>, atFrame: nat, n: nat)
    requires atFrame < |trace|
    ensures var t, s := trace[atFrame].cycle, Saving(p, trace, atFrame, n);
            && s.sink.SaveSink?
            && if SavePoint(p, trace, atFrame) && n >= t then
                 var q := Replaying(p, trace, t - 1);
                 && s.core == Fetch(q).(halted := Checkpoint)
                 && s.sink.saved == Some(CheckpointOf(q, atFrame))
               else
                 && s.core == Replaying(p, trace, n)
                 && s.sink == SaveSink(atFrame, t, None)
                 && s.snapInterval == s.snapTimer == 1
  {
    hide Step, CoreStep;
    var t := trace[atFrame].cycle;
    var start := Boot(p, Replay(trace, 0, NoFault));
    if n > 0 {
      SaveIffSavePoint(p, trace, atFrame, n - 1);
      RunNext(SaveStart(p, trace, atFrame), n - 1);
      CoreRunNext(start, n - 1);
      ReplayHost(p, trace, n - 1);
      var m := Saving(p, trace, atFrame, n - 1);
      if Live?(m.core) {
        CyclesOfRun(start, n - 1);
        SaveStep(m);
      } else if n == t {
        assert !SavePoint(p, trace, atFrame);
      }
    }
  }

  /** The frame at index `i` of a log was written by the iteration its cycle names. */
  lemma {:induction false} FrameOrigin(p: Program, inputs: nat -> Word, n: nat, i: nat)
    requires Recording(p, inputs, n).host.Live? && i < |Recording(p, inputs, n).host.log|
    ensures var log := Recording(p, inputs, n).host.log;
            var k := log[i].cycle - 1;
            && 0 <= k < n
            && var c := Recording(p, inputs, k);
            && Live?(c) && c.host.Live? && c.host.log == log[..i] && OpAt(c) == log[i].opcode
  {
    hide CoreStep;
    RecordingHost(p, inputs, n);
    assert n > 0;
    CoreRunNext(Boot(p, Live(inputs, [])), n - 1);
    var c := Recording(p, inputs, n - 1);
    var log := Recording(p, inputs, n).host.log;
    RecordStep(c);
    if i < |c.host.log| {
      FrameOrigin(p, inputs, n - 1, i);
      assert log[..i] == c.host.log[..i];
    } else {
      CyclesOfRun(Boot(p, Live(inputs, [])), n - 1);
      assert log[..i] == c.host.log;
    }
  }

  /** Replay of a recorded trace reaches each frame's iteration with the frames before it consumed. */
  lemma FrameIsSavePoint(p: Program, inputs: nat -> Word, n: nat, atFrame: nat)
    requires Recording(p, inputs, n).host.Live? && atFrame < |Recording(p, inputs, n).host.log|
    ensures var trace := Recording(p, inputs, n).host.log;
            var t := trace[atFrame].cycle;
            && 1 <= t <= n && SavePoint(p, trace, atFrame)
            && OpAt(Replaying(p, trace, t - 1)) == trace[atFrame].opcode
            && Replaying(p, trace, t - 1).cycle == t - 1
  {
    hide Recording, Replaying, Load32, DecodeOp;
    var trace := Recording(p, inputs, n).host.log;
    FrameOrigin(p, inputs, n, atFrame);
    var t := trace[atFrame].cycle;
    PrefixLockstep(p, inputs, t - 1, trace);
    var q := Replaying(p, trace, t - 1);
    assert |trace[..q.host.cursor]| == q.host.cursor;
    ReplayCycle(p, trace, t - 1);
  }

  /**
   * For a trace recorded from the same program every frame is a save point: `save` halts there with
   * that many frames consumed, and the saved pc addresses the IN or RAND the frame records.
   */
  lemma SavePointIsReached(p: Program, inputs: nat -> Word, n: nat, atFrame: nat)
    requires Recording(p, inputs, n).host.Live? && atFrame < |Recording(p, inputs, n).host.log|
    ensures var trace := Recording(p, inputs, n).host.log;
            && SavePoint(p, trace, atFrame)
            && var t := trace[atFrame].cycle;
            && 1 <= t <= n
            && var s := Saving(p, trace, atFrame, t);
            && s.core.halted == Checkpoint && Cursor(s.core.host) == atFrame && s.sink.SaveSink?
            && s.sink.saved.Some? && s.core.cycle == t
            && IsEventOp(trace[atFrame].opcode)
            && DecodeOp(Load32(s.core.mem, s.sink.saved.value.pc)) == trace[atFrame].opcode
  {
    hide Saving, Recording, Replaying, Load32, DecodeOp;
    var trace := Recording(p, inputs, n).host.log;
    FrameIsSavePoint(p, inputs, n, atFrame);
    SaveIffSavePoint(p, trace, atFrame, trace[atFrame].cycle);
    RecordedTraceIsWellFormed(p, inputs, n);
  }

  lemma ReplayCycle(p: Program, trace: seq<Frame>, n: nat)
    ensures Live?(Replaying(p, trace, n)) ==> Replaying(p, trace, n).cycle == n
  {
    hide CoreRun;
    CyclesOfRun(Boot(p, Replay(trace, 0, NoFault)), n);
  }

  // ----- restore -----

  /** The core `restore` resumes from: the saved registers over a freshly loaded image. */
  function Restored(p: Program, trace: seq<Frame>, s: CheckpointState): Option<Core> {
    if s.frameIndex >= |trace| || trace[s.frameIndex].cycle == 0 then None
    else Some(Core(trace[s.frameIndex].cycle - 1, s.regs, s.pc, s.sp, s.flags, Running, LoadImage(p),
                   Replay(trace, s.frameIndex, NoFault)))
  }

  /** What `save` wrote restores to the core of replay at the save point, all but its memory. */
  lemma RestoredIsSavePoint(p: Program, trace: seq<Frame>, atFrame: nat)
    requires atFrame < |trace| && SavePoint(p, trace, atFrame)
    ensures var q := Replaying(p, trace, trace[atFrame].cycle - 1);
            Restored(p, trace, CheckpointOf(q, atFrame)) == Some(q.(mem := LoadImage(p)))
  {
    hide CoreRun;
    ReplayHost(p, trace, trace[atFrame].cycle - 1);
    ReplayCycle(p, trace, trace[atFrame].cycle - 1);
  }

  function CellSet(addr: nat): set<nat> {
    set i | i in Cell(addr)
  }

  function Diff(a: Mem, b: Mem): set<nat> {
    set i: nat | i < MEM_SIZE && a[i] != b[i]
  }

  /** The bytes the next iteration fetches or loads. */
  function Reads(c: Core): set<nat> {
    CellSet(c.pc) + if DecodeOp(InstrAt(c)) == OP_LOAD then CellSet(DecodeImm(InstrAt(c))) else {}
  }

  /** The bytes the next iteration overwrites. */
  function Writes(c: Core): set<nat> {
    if DecodeOp(InstrAt(c)) == OP_STORE then CellSet(DecodeImm(InstrAt(c))) else {}
  }

  /** The bytes of `dirty` not yet overwritten after `n` iterations. */
  function StillDirty(c: Core, dirty: set<nat>, n: nat): set<nat>
    decreases n
  {
    if n == 0 || !Live?(c) then dirty else StillDirty(CoreStep(c), dirty - Writes(c), n - 1)
  }

  /** For `n` iterations no byte of `dirty` is fetched or loaded before it is overwritten. */
  predicate CleanReads(c: Core, dirty: set<nat>, n: nat)
    decreases n
  {
    n == 0 || !Live?(c) || (Reads(c) !! dirty && CleanReads(CoreStep(c), dirty - Writes(c), n - 1))
  }

  /** For `n` iterations two runs agree in every instruction fetched and all but memory. */
  ghost predicate Coincide(c: Core, r: Core, n: nat)
    decreases n
  {
    && r == c.(mem := r.mem)
    && (n > 0 && Live?(c) ==> InstrAt(r) == InstrAt(c) && Coincide(CoreStep(c), CoreStep(r), n - 1))
  }

  lemma LoadEqIffBytesEq(a: Mem, b: Mem, addr: nat)
    ensures Load32(a, addr) == Load32(b, addr) <==> CellSet(addr) !! Diff(a, b)
  {
    var c := Cell(addr);
    BytesOfJoin(a[c[0]], a[c[1]], a[c[2]], a[c[3]]);
    BytesOfJoin(b[c[0]], b[c[1]], b[c[2]], b[c[3]]);
    if Load32(a, addr) == Load32(b, addr) {
      var x, y := [a[c[0]], a[c[1]], a[c[2]], a[c[3]]], [b[c[0]], b[c[1]], b[c[2]], b[c[3]]];
      assert x == y;
      forall k | 0 <= k < 4 ensures c[k] !in Diff(a, b) {
        assert x[k] == y[k];
      }
    } else {
      assert exists k :: 0 <= k < 4 && a[c[k]] != b[c[k]];
      var k :| 0 <= k < 4 && a[c[k]] != b[c[k]];
      assert c[k] in CellSet(addr) && c[k] in Diff(a, b);
    }
  }

  lemma DiffOfStores(a: Mem, b: Mem, addr: nat, v: Word)
    ensures Diff(Store32(a, addr, v), Store32(b, addr, v)) == Diff(a, b) - CellSet(addr)
  {
    forall i: nat | i < MEM_SIZE
      ensures Store32(a, addr, v)[i] != Store32(b, addr, v)[i] <==> a[i] != b[i] && i !in CellSet(addr)
    {
      StoreAt(a, addr, v, i);
      StoreAt(b, addr, v, i);
    }
  }

  /** Two cores equal but for memory step alike exactly when the step reads no differing byte. */
  lemma StepsAgree(c: Core, r: Core)
    requires r == c.(mem := r.mem) && Live?(c)
    ensures Reads(c) !! Diff(c.mem, r.mem) <==>
            InstrAt(r) == InstrAt(c) && CoreStep(r) == CoreStep(c).(mem := CoreStep(r).mem)
    ensures InstrAt(r) == InstrAt(c) ==>
              Diff(CoreStep(c).mem, CoreStep(r).mem) == Diff(c.mem, r.mem) - Writes(c)
  {
    hide Load32, Store32, CellSet, Diff, Draw, Arith;
    var w := InstrAt(c);
    LoadEqIffBytesEq(c.mem, r.mem, c.pc);
    LoadEqIffBytesEq(c.mem, r.mem, DecodeImm(w));
    DiffOfStores(c.mem, r.mem, DecodeImm(w), c.regs[DecodeDst(w)]);
    if InstrAt(r) == w && DecodeOp(w) == OP_LOAD {
      var d := DecodeDst(w);
      assert CoreStep(c).regs[d] == Load32(c.mem, DecodeImm(w));
      assert CoreStep(r).regs[d] == Load32(r.mem, DecodeImm(w));
    }
  }

  /**
   * Two cores equal but for memory run alike, instruction for instruction, exactly when no byte in
   * which their memories differ is fetched or loaded before it is overwritten.  While they do, their
   * memories differ in precisely the bytes not yet overwritten.
   */
  lemma {:induction false} RunsCoincideIffCleanReads(c: Core, r: Core, n: nat)
    requires r == c.(mem := r.mem)
    ensures Coincide(c, r, n) <==> CleanReads(c, Diff(c.mem, r.mem), n)
    ensures Coincide(c, r, n) ==>
              && CoreRun(r, n) == CoreRun(c, n).(mem := CoreRun(r, n).mem)
              && Diff(CoreRun(c, n).mem, CoreRun(r, n).mem) == StillDirty(c, Diff(c.mem, r.mem), n)
    decreases n
  {
    hide CoreStep, Reads, Writes, Diff, InstrAt;
    if n > 0 && Live?(c) {
      StepsAgree(c, r);
      var c', r' := CoreStep(c), CoreStep(r);
      if r' == c'.(mem := r'.mem) {
        RunsCoincideIffCleanReads(c', r', n - 1);
      }
    }
  }

  /** The bytes the STOREs of a run write. */
  function StoredBytes(c: Core, n: nat): set<nat>
    decreases n
  {
    if n == 0 || !Live?(c) then {} else Writes(c) + StoredBytes(CoreStep(c), n - 1)
  }

  lemma StepStores(c: Core, i: nat)
    requires i < MEM_SIZE && i !in Writes(c)
    ensures CoreStep(c).mem[i] == c.mem[i]
  {
    hide Load32, Store32, Draw, Arith;
    StoreAt(c.mem, DecodeImm(InstrAt(c)), c.regs[DecodeDst(InstrAt(c))], i);
  }

  /** Memory changes only where STOREs wrote. */
  lemma {:induction false} OnlyStoredBytesChange(c: Core, n: nat)
    ensures Diff(CoreRun(c, n).mem, c.mem) <= StoredBytes(c, n)
    decreases n
  {
    hide CoreStep, Writes;
    if n > 0 && Live?(c) {
      var c' := CoreStep(c);
      OnlyStoredBytesChange(c', n - 1);
      forall i | i in Diff(CoreRun(c, n).mem, c.mem) ensures i in StoredBytes(c, n) {
        if i !in Writes(c) {
          StepStores(c, i);
          assert i in Diff(CoreRun(c', n - 1).mem, c'.mem);
        }
      }
    }
  }

  /**
   * Restoring what `save` wrote at any save point of any trace gives a run that coincides with the full
   * replay from there on exactly when that replay never fetches or loads a byte that STOREs had changed
   * by then, before overwriting it.
   */
  lemma RestoreMatchesReplayIff(p: Program, trace: seq<Frame>, atFrame: nat, steps: nat)
    requires atFrame < |trace| && SavePoint(p, trace, atFrame)
    ensures var t := trace[atFrame].cycle;
            && t >= 1
            && var saved := Saving(p, trace, atFrame, t).sink;
            && saved.SaveSink? && saved.saved.Some?
            && var restored := Restored(p, trace, saved.saved.value);
            && restored.Some?
            && var q := Replaying(p, trace, t - 1);
            && var dirty := Diff(q.mem, LoadImage(p));
            && dirty <= StoredBytes(Boot(p, Replay(trace, 0, NoFault)), t - 1)
            && (Coincide(q, restored.value, steps) <==> CleanReads(q, dirty, steps))
            && (CleanReads(q, dirty, steps) ==>
                  var full, again := Replaying(p, trace, t - 1 + steps), CoreRun(restored.value, steps);
                  && again == full.(mem := again.mem)
                  && Diff(full.mem, again.mem) == StillDirty(q, dirty, steps)
                  && (Verified(full) <==> Verified(again)))
  {
    hide Run, CoreRun, Diff, Coincide, CleanReads, StillDirty, StoredBytes;
    var t := trace[atFrame].cycle;
    var start := Boot(p, Replay(trace, 0, NoFault));
    SaveIffSavePoint(p, trace, atFrame, t);
    RestoredIsSavePoint(p, trace, atFrame);
    var q := Replaying(p, trace, t - 1);
    var r := q.(mem := LoadImage(p));
    OnlyStoredBytesChange(start, t - 1);
    RunsCoincideIffCleanReads(q, r, steps);
    CoreRunAdd(start, t - 1, steps);
  }

  /** In particular, a recorded trace can be restored at every frame, under that condition on its own replay. */
  lemma RestoreOfRecording(p: Program, inputs: nat -> Word, n: nat, atFrame: nat, steps: nat)
    requires Recording(p, inputs, n).host.Live? && atFrame < |Recording(p, inputs, n).host.log|
    ensures var trace := Recording(p, inputs, n).host.log;
            var t := trace[atFrame].cycle;
            && t >= 1
            && var saved := Saving(p, trace, atFrame, t).sink;
            && saved.SaveSink? && saved.saved.Some?
            && var restored := Restored(p, trace, saved.saved.value);
            && restored.Some?
            && var q := Replaying(p, trace, t - 1);
            && var dirty := Diff(q.mem, LoadImage(p));
            && dirty <= StoredBytes(Boot(p, Replay(trace, 0, NoFault)), t - 1)
            && (Coincide(q, restored.value, steps) <==> CleanReads(q, dirty, steps))
            && (CleanReads(q, dirty, steps) ==>
                  var full, again := Replaying(p, trace, t - 1 + steps), CoreRun(restored.value, steps);
                  && again == full.(mem := again.mem)
                  && Diff(full.mem, again.mem) == StillDirty(q, dirty, steps)
                  && (Verified(full) <==> Verified(again)))
  {
    hide Run, CoreRun, Recording, Replaying, Diff, Coincide, CleanReads, StillDirty, StoredBytes, SavePoint;
    SavePointIsReached(p, inputs, n, atFrame);
    RestoreMatchesReplayIff(p, Recording(p, inputs, n).host.log, atFrame, steps);
  }
}
