/** Record and replay: which traces verify, and where any other trace diverges. */
module RecordReplay {
  import opened Words
  import opened Opcodes
  import opened Machine

  /** `record`: run with live inputs, logging every event. */
  function Recording(p: Program, inputs: nat -> Word, n: nat): Core {
    CoreRun(Boot(p, Live(inputs, [])), n)
  }

  /** `replay`: run against a trace. */
  function Replaying(p: Program, trace: seq<Frame>, n: nat): Core {
    CoreRun(Boot(p, Replay(trace, 0, NoFault)), n)
  }

  /** The run returned without throwing and consumed every frame. */
  predicate Verified(c: Core) {
    !c.halted.Running? && c.host.Replay? && c.host.fault.NoFault? && c.host.cursor == |c.host.trace|
  }

  /** Equal in everything but the host: cycle, registers, pc, sp, flags, halt reason and all memory. */
  ghost predicate SameState(c: Core, d: Core) {
    c.(host := d.host) == d
  }

  /** The inputs a trace records. */
  function Values(trace: seq<Frame>): nat -> Word {
    (i: nat) => if i < |trace| then trace[i].value else 0
  }

  predicate IsEventOp(op: nat) {
    op == OP_IN || op == OP_RAND
  }

  function OpAt(c: Core): Byte {
    DecodeOp(InstrAt(c))
  }

  /** The event a live host logs in the step from `c`, as a list. */
  function EventOf(c: Core): seq<Frame>
    requires c.host.Live?
  {
    if IsEventOp(OpAt(c)) then [Frame(c.cycle + 1, OpAt(c), c.host.inputs(|c.host.log|))] else []
  }

  /** The number of IN and RAND instructions executed in `n` iterations. */
  function EventCount(c: Core, n: nat): nat
    decreases n
  {
    if n == 0 || !Live?(c) then 0
    else (if IsEventOp(OpAt(c)) then 1 else 0) + EventCount(CoreStep(c), n - 1)
  }

  // ----- one step under two hosts -----

  /** Two hosts that give the same answer take the machine to the same state. */
  lemma StepWithHost(c: Core, h: Host)
    requires IsEventOp(OpAt(c)) ==>
               Draw(c.host, c.cycle + 1, OpAt(c)).1 == Draw(h, c.cycle + 1, OpAt(c)).1
    ensures CoreStep(c.(host := h)) ==
            CoreStep(c).(host := if IsEventOp(OpAt(c)) then Draw(h, c.cycle + 1, OpAt(c)).0 else h)
    ensures CoreStep(c).host == if IsEventOp(OpAt(c)) then Draw(c.host, c.cycle + 1, OpAt(c)).0 else c.host
  {
  }

  lemma RecordStep(c: Core)
    requires c.host.Live?
    ensures CoreStep(c).host == Live(c.host.inputs, c.host.log + EventOf(c))
  {
    StepWithHost(c, c.host);
    assert c.host.log + [] == c.host.log;
  }

  /** A live run keeps its oracle and only appends to its log. */
  lemma {:induction false} RecordingHost(p: Program, inputs: nat -> Word, n: nat)
    ensures Recording(p, inputs, n).host.Live?
    ensures Recording(p, inputs, n).host.inputs == inputs
    ensures n > 0 ==> Recording(p, inputs, n - 1).host.Live?
                      && Recording(p, inputs, n - 1).host.log <= Recording(p, inputs, n).host.log
  {
    hide CoreStep;
    if n > 0 {
      RecordingHost(p, inputs, n - 1);
      CoreRunNext(Boot(p, Live(inputs, [])), n - 1);
      RecordStep(Recording(p, inputs, n - 1));
    }
  }

  /** A recording depends only on the inputs it drew. */
  lemma {:induction false} InputsAgree(p: Program, f: nat -> Word, g: nat -> Word, n: nat)
    requires Recording(p, f, n).host.Live?
    requires forall i :: 0 <= i < |Recording(p, f, n).host.log| ==> f(i) == g(i)
    ensures Recording(p, g, n) == Recording(p, f, n).(host := Live(g, Recording(p, f, n).host.log))
  {
    hide CoreStep;
    var c0, d0 := Boot(p, Live(f, [])), Boot(p, Live(g, []));
    if n > 0 {
      RecordingHost(p, f, n);
      InputsAgree(p, f, g, n - 1);
      CoreRunNext(c0, n - 1);
      CoreRunNext(d0, n - 1);
      var c := Recording(p, f, n - 1);
      if Live?(c) {
        RecordingHost(p, f, n - 1);
        RecordStep(c);
        var k := |c.host.log|;
        if IsEventOp(OpAt(c)) {
          assert |Recording(p, f, n).host.log| == k + 1;
          assert f(k) == g(k);
        }
        StepWithHost(c, Live(g, c.host.log));
      }
    }
  }

  // ----- lockstep -----

  /** A recording and a replay in the same state, the log being what the replay consumed. */
  ghost predicate Lockstep(r: Core, q: Core) {
    && r.host.Live? && q.host.Replay? && q.host.fault.NoFault?
    && q.host.cursor <= |q.host.trace|
    && r.host.log == q.host.trace[..q.host.cursor]
    && SameState(q, r)
  }

  /** The replay stopped at `k`, the first index where the trace departs from the recording's log. */
  predicate DivergedAt(h: Host, log: seq<Frame>, k: nat) {
    && h.Replay? && h.cursor == k < |log| && k <= |h.trace|
    && log[..k] == h.trace[..k]
    && (if k == |h.trace| then h.fault.PrematureEof?
        else h.fault.Mismatch? && (h.trace[k].cycle != log[k].cycle || h.trace[k].opcode != log[k].opcode))
  }

  lemma LockstepStep(r: Core, q: Core)
    requires Lockstep(r, q) && r.host.inputs == Values(q.host.trace)
    ensures var r', q' := CoreStep(r), CoreStep(q);
            && q'.host.Replay? && q'.host.trace == q.host.trace
            && if Faulted(q'.host) then DivergedAt(q'.host, r.host.log + EventOf(r), q.host.cursor)
               else Lockstep(r', q')
  {
    hide CoreStep;
    RecordStep(r);
    var k, trace := q.host.cursor, q.host.trace;
    StepWithHost(q, q.host);
    assert OpAt(q) == OpAt(r);
    if IsEventOp(OpAt(r)) {
      var log' := r.host.log + EventOf(r);
      if k < |trace| && trace[k].cycle == r.cycle + 1 && trace[k].opcode == OpAt(r) {
        assert trace[k] == EventOf(r)[0];
        assert trace[..k + 1] == log';
        StepWithHost(r, q.host);
        assert r.(host := q.host) == q;
      } else {
        assert log'[..k] == trace[..k];
      }
    } else {
      StepWithHost(r, q.host);
      assert r.(host := q.host) == q;
    }
  }

  /**
   * Replaying any trace follows the recording fed with the trace's values, until the least index
   * at which a frame's cycle or opcode is not that of the event the program produces.
   */
  lemma {:induction false} DivergenceIsLocalised(p: Program, trace: seq<Frame>, n: nat)
    ensures var r, q := Recording(p, Values(trace), n), Replaying(p, trace, n);
            && r.host.Live? && q.host.Replay? && q.host.trace == trace
            && if Faulted(q.host) then DivergedAt(q.host, r.host.log, q.host.cursor) else Lockstep(r, q)
  {
    hide CoreStep;
    if n == 0 {
      assert trace[..0] == [];
    } else {
      DivergenceIsLocalised(p, trace, n - 1);
      RecordingHost(p, Values(trace), n);
      RecordingHost(p, Values(trace), n - 1);
      CoreRunNext(Boot(p, Live(Values(trace), [])), n - 1);
      CoreRunNext(Boot(p, Replay(trace, 0, NoFault)), n - 1);
      var r, q := Recording(p, Values(trace), n - 1), Replaying(p, trace, n - 1);
      RecordStep(r);
      if !Faulted(q.host) && Live?(r) {
        LockstepStep(r, q);
      }
    }
  }

  /** Replay is free of faults exactly while the log of that recording is a prefix of the trace. */
  lemma FaultFreeIffPrefix(p: Program, trace: seq<Frame>, n: nat)
    ensures Recording(p, Values(trace), n).host.Live?
    ensures !Faulted(Replaying(p, trace, n).host) <==> Recording(p, Values(trace), n).host.log <= trace
  {
    hide CoreRun;
    DivergenceIsLocalised(p, trace, n);
  }

  // ----- characterisation -----

  /** Replaying `trace` ends VERIFIED in state `s`. */
  ghost predicate ReplayVerifies(p: Program, trace: seq<Frame>, s: Core) {
    exists n :: Verified(Replaying(p, trace, n)) && SameState(Replaying(p, trace, n), s)
  }

  /** With some inputs, recording halts in state `s` having written exactly `trace`. */
  ghost predicate Recorded(p: Program, trace: seq<Frame>, s: Core) {
    exists inputs: nat -> Word, n: nat ::
      var r := Recording(p, inputs, n);
      !r.halted.Running? && r.host == Live(inputs, trace) && SameState(r, s)
  }

  /** A verified replay is the recording, step for step, with the trace's own values as inputs. */
  lemma VerifiedIsRecording(p: Program, trace: seq<Frame>, n: nat)
    requires Verified(Replaying(p, trace, n))
    ensures Recording(p, Values(trace), n).host == Live(Values(trace), trace)
    ensures SameState(Replaying(p, trace, n), Recording(p, Values(trace), n))
  {
    hide CoreRun;
    DivergenceIsLocalised(p, trace, n);
    RecordingHost(p, Values(trace), n);
    assert trace[..|trace|] == trace;
  }

  /** A trace that extends what a recording has logged so far is replayed in lockstep with it. */
  lemma PrefixLockstep(p: Program, inputs: nat -> Word, n: nat, trace: seq<Frame>)
    requires Recording(p, inputs, n).host.Live? && Recording(p, inputs, n).host.log <= trace
    ensures Lockstep(Recording(p, inputs, n), Replaying(p, trace, n))
    ensures Replaying(p, trace, n).host.trace == trace
  {
    hide CoreRun;
    LoggedValues(p, inputs, n);
    InputsAgree(p, inputs, Values(trace), n);
    FaultFreeIffPrefix(p, trace, n);
    DivergenceIsLocalised(p, trace, n);
  }

  /** Replaying what a recording wrote verifies, and passes through the recording's states. */
  lemma RecordingVerifies(p: Program, inputs: nat -> Word, n: nat)
    ensures var r := Recording(p, inputs, n);
            && r.host.Live?
            && Lockstep(r, Replaying(p, r.host.log, n))
            && (!r.halted.Running? ==> Verified(Replaying(p, r.host.log, n)))
  {
    hide CoreRun;
    RecordingHost(p, inputs, n);
    var trace := Recording(p, inputs, n).host.log;
    PrefixLockstep(p, inputs, n, trace);
    var q := Replaying(p, trace, n);
    assert |trace[..q.host.cursor]| == q.host.cursor;
  }

  /** Frame `i` of a log holds the i-th input. */
  lemma {:induction false} LoggedValues(p: Program, inputs: nat -> Word, n: nat)
    ensures Recording(p, inputs, n).host.Live?
    ensures forall i :: 0 <= i < |Recording(p, inputs, n).host.log| ==>
                          Recording(p, inputs, n).host.log[i].value == inputs(i)
  {
    hide CoreStep;
    RecordingHost(p, inputs, n);
    if n > 0 {
      LoggedValues(p, inputs, n - 1);
      RecordingHost(p, inputs, n - 1);
      CoreRunNext(Boot(p, Live(inputs, [])), n - 1);
      RecordStep(Recording(p, inputs, n - 1));
    }
  }

  /** VERIFIED characterises exactly the genuine traces, with the state each ends in. */
  lemma ReplayCharacterisation(p: Program, trace: seq<Frame>, s: Core)
    ensures ReplayVerifies(p, trace, s) <==> Recorded(p, trace, s)
  {
    hide CoreRun, Recording, Replaying;
    if ReplayVerifies(p, trace, s) {
      var n :| Verified(Replaying(p, trace, n)) && SameState(Replaying(p, trace, n), s);
      VerifiedIsRecording(p, trace, n);
      var r := Recording(p, Values(trace), n);
      assert !r.halted.Running? && r.host == Live(Values(trace), trace) && SameState(r, s);
    }
    if Recorded(p, trace, s) {
      var inputs: nat -> Word, n: nat :|
        var r := Recording(p, inputs, n);
        !r.halted.Running? && r.host == Live(inputs, trace) && SameState(r, s);
      RecordingVerifies(p, inputs, n);
      assert Verified(Replaying(p, trace, n)) && SameState(Replaying(p, trace, n), s);
    }
  }

  /**
   * Of two verified traces of a program, neither's values extend the other's: in particular no
   * proper prefix and no proper extension of a verified trace is ever verified.
   */
  lemma VerifiedTracesAreIsolated(p: Program, a: seq<Frame>, b: seq<Frame>, m: nat, n: nat)
    requires Verified(Replaying(p, a, m)) && Verified(Replaying(p, b, n))
    requires |a| <= |b| && forall i :: 0 <= i < |a| ==> a[i].value == b[i].value
    ensures a == b && SameState(Replaying(p, a, m), Replaying(p, b, n))
  {
    hide CoreRun;
    VerifiedIsRecording(p, a, m);
    VerifiedIsRecording(p, b, n);
    InputsAgree(p, Values(a), Values(b), m);
    var start := Boot(p, Live(Values(b), []));
    if m <= n {
      StoppedStays(start, m, n);
    } else {
      StoppedStays(start, n, m);
    }
  }

  // ----- what a recorded trace looks like -----

  predicate WellFormed(log: seq<Frame>, cycles: nat) {
    && (forall i :: 0 <= i < |log| ==> 1 <= log[i].cycle <= cycles && IsEventOp(log[i].opcode))
    && forall i, j :: 0 <= i < j < |log| ==> log[i].cycle < log[j].cycle
  }

  lemma {:induction false} EventCountNext(c: Core, n: nat)
    ensures EventCount(c, n + 1) ==
            EventCount(c, n) + if Live?(CoreRun(c, n)) && IsEventOp(OpAt(CoreRun(c, n))) then 1 else 0
    decreases n
  {
    hide CoreStep;
    if n > 0 && Live?(c) {
      EventCountNext(CoreStep(c), n - 1);
    } else if Live?(c) {
      assert EventCount(CoreStep(c), 0) == 0;
    }
  }

  /** Recorded frames have increasing cycles from 1, IN or RAND opcodes, and one frame per event. */
  lemma {:induction false} RecordedTraceIsWellFormed(p: Program, inputs: nat -> Word, n: nat)
    ensures var r := Recording(p, inputs, n);
            && r.host.Live? && WellFormed(r.host.log, r.cycle)
            && |r.host.log| == EventCount(Boot(p, Live(inputs, [])), n)
  {
    hide CoreStep, EventCount;
    var start := Boot(p, Live(inputs, []));
    RecordingHost(p, inputs, n);
    if n == 0 {
      EventCountZero(start);
    } else {
      RecordedTraceIsWellFormed(p, inputs, n - 1);
      CoreRunNext(start, n - 1);
      EventCountNext(start, n - 1);
      var c := Recording(p, inputs, n - 1);
      RecordStep(c);
      CycleOfStep(c);
    }
  }

  lemma EventCountZero(c: Core)
    ensures EventCount(c, 0) == 0
  {
  }
}
