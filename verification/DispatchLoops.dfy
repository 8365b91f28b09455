/** The two dispatch loops of `VM::run`: the `while`/`switch` ladder and the computed-goto chain. */
module DispatchLoops {
  import opened Words
  import opened Opcodes
  import opened Memory
  import opened Machine

  /** The handler of `w` leaves `run`, by returning or by throwing, instead of going on. */
  predicate HandlerReturns(c: Core, w: Word) {
    var op := DecodeOp(w);
    || op == OP_HALT
    || (op == OP_DIV && c.regs[DecodeSrc(w)] == 0)
    || ((op == OP_IN || op == OP_RAND) && Draw(c.host, c.cycle, op).1.None?)
  }

  // ----- the ladder: the halt tag is tested before every iteration -----

  datatype Loop = AtHead(m: Machine) | Exited(m: Machine)

  function SwitchBody(m: Machine): Loop {
    var a, w := Arrive(m), InstrAt(m.core);
    if Due(m) && !a.core.halted.Running? then Exited(a)
    else if DecodeOp(w) >= OP_COUNT then Exited(a.(core := a.core.(halted := UnknownOp)))
    else if HandlerReturns(a.core, w) then Exited(Dispatch(a, w))
    else AtHead(Dispatch(a, w))
  }

  function SwitchRun(m: Machine, n: nat): Loop {
    if n == 0 then AtHead(m)
    else
      var b := SwitchRun(m, n - 1);
      if b.Exited? then b
      else if !b.m.core.halted.Running? then Exited(b.m)
      else SwitchBody(b.m)
  }

  // ----- the chain: every handler ends by dispatching the next instruction itself -----

  datatype Chain = AtLabel(m: Machine, w: Word) | Returned(m: Machine)

  function TailDispatch(m: Machine): Chain {
    var a, w := Arrive(m), InstrAt(m.core);
    if Due(m) && !a.core.halted.Running? then Returned(a)
    else if DecodeOp(w) >= OP_COUNT then Returned(a.(core := a.core.(halted := UnknownOp)))
    else AtLabel(a, w)
  }

  function Label(m: Machine, w: Word): Chain {
    if HandlerReturns(m.core, w) then Returned(Dispatch(m, w)) else TailDispatch(Dispatch(m, w))
  }

  /** The chain after `n` handlers. */
  function GotoRun(m: Machine, n: nat): Chain {
    if n == 0 then TailDispatch(m)
    else
      var b := GotoRun(m, n - 1);
      if b.Returned? then b else Label(b.m, b.w)
  }

  /** A loop position as the chain sees it: at its head the next instruction is dispatched. */
  function AsChain(l: Loop): Chain {
    if l.Exited? then Returned(l.m) else TailDispatch(l.m)
  }

  lemma HandlerGoesOn(m: Machine, w: Word)
    requires m.core.halted.Running? && DecodeOp(w) < OP_COUNT
    ensures !HandlerReturns(m.core, w) ==> Dispatch(m, w).core.halted.Running?
  {
    hide Load32, Store32, LogStore;
  }

  lemma SwitchBodyGoesOn(m: Machine)
    requires m.core.halted.Running?
    ensures SwitchBody(m).AtHead? ==> SwitchBody(m).m.core.halted.Running?
  {
    hide Dispatch, HandlerReturns;
    HandlerGoesOnHere(Arrive(m), InstrAt(m.core));
  }

  lemma HandlerGoesOnHere(m: Machine, w: Word)
    ensures m.core.halted.Running? && DecodeOp(w) < OP_COUNT && !HandlerReturns(m.core, w)
            ==> Dispatch(m, w).core.halted.Running?
  {
    hide Dispatch, HandlerReturns;
    if m.core.halted.Running? && DecodeOp(w) < OP_COUNT {
      HandlerGoesOn(m, w);
    }
  }

  lemma {:induction false} ChainFollowsLadder(m: Machine, n: nat)
    requires m.core.halted.Running?
    ensures GotoRun(m, n) == AsChain(SwitchRun(m, n))
    ensures SwitchRun(m, n).AtHead? ==> SwitchRun(m, n).m.core.halted.Running?
  {
    hide Arrive, Dispatch, HandlerReturns;
    if n > 0 {
      ChainFollowsLadder(m, n - 1);
      var b := SwitchRun(m, n - 1);
      if b.AtHead? {
        SwitchBodyGoesOn(b.m);
      }
    }
  }

  lemma {:induction false} LadderRefusesHalted(m: Machine, n: nat)
    requires !m.core.halted.Running?
    ensures n > 0 ==> SwitchRun(m, n) == Exited(m)
  {
    hide SwitchBody;
    if n > 1 {
      LadderRefusesHalted(m, n - 1);
    } else if n == 1 {
      assert SwitchRun(m, 0) == AtHead(m);
    }
  }

  lemma ChainCycle(m: Machine)
    ensures GotoRun(m, 1).m.core.cycle > m.core.cycle
  {
    hide Load32, Store32, LogStore, Draw;
  }

  /**
   * The two loops produce the same states, logs, snapshots, events and halt reasons exactly when
   * the machine enters `run` with its halt tag clear: otherwise the ladder returns at once and the
   * chain executes an instruction.
   */
  lemma DispatchEquivalence(m: Machine)
    ensures (forall n :: GotoRun(m, n) == AsChain(SwitchRun(m, n))) <==> m.core.halted.Running?
  {
    hide Arrive, Dispatch, HandlerReturns, GotoRun, SwitchRun;
    if m.core.halted.Running? {
      forall n ensures GotoRun(m, n) == AsChain(SwitchRun(m, n)) {
        ChainFollowsLadder(m, n);
      }
    } else {
      LadderRefusesHalted(m, 1);
      ChainCycle(m);
      assert GotoRun(m, 1) != AsChain(SwitchRun(m, 1));
    }
  }

  lemma BodyIsStep(m: Machine)
    requires Live?(m.core)
    ensures SwitchBody(m).m == Step(m)
    ensures SwitchBody(m).AtHead? <==> Live?(Step(m).core)
  {
    hide Load32, Store32, LogStore, Arith, Flags;
  }

  /** The ladder is the step function iterated. */
  lemma {:induction false} LadderIsRun(m: Machine, n: nat)
    requires Live?(m.core)
    ensures SwitchRun(m, n).m == Run(m, n)
    ensures SwitchRun(m, n).AtHead? <==> Live?(Run(m, n).core)
  {
    hide Step, SwitchBody;
    if n > 0 {
      LadderIsRun(m, n - 1);
      RunNext(m, n - 1);
      if Live?(Run(m, n - 1).core) {
        BodyIsStep(Run(m, n - 1));
      }
    }
  }

  /** When either loop comes back, it has reached the state where the iterated step function stops. */
  lemma ReturnIsRun(m: Machine, n: nat)
    requires Live?(m.core)
    ensures SwitchRun(m, n).Exited? ==> SwitchRun(m, n).m == Run(m, n + 1) && !Live?(Run(m, n + 1).core)
    ensures GotoRun(m, n).Returned? ==> GotoRun(m, n).m == Run(m, n + 1) && !Live?(Run(m, n + 1).core)
  {
    hide Arrive, Dispatch, HandlerReturns, Step, SwitchBody;
    LadderIsRun(m, n);
    ChainFollowsLadder(m, n);
    RunNext(m, n);
    var b := SwitchRun(m, n);
    if b.AtHead? {
      BodyIsStep(b.m);
      TailReturns(b.m);
    }
  }

  lemma TailReturns(m: Machine)
    ensures TailDispatch(m).Returned? ==> SwitchBody(m) == Exited(TailDispatch(m).m)
  {
    hide Arrive, Dispatch, HandlerReturns;
  }
}
