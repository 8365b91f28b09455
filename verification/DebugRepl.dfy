/** The interactive debugger, its ring and replay cursor updated in place, against the session as a value. */
module DebugRepl {
  import opened Words
  import opened Opcodes
  import opened Memory
  import opened Machine
  import opened DispatchLoops
  import opened Debugger
  import opened DebuggerLaws
  import opened Vm

  class CmdDebug {
    const vm: VM
    var ring: seq<ReplSnapshot>
    var historyIndex: nat
    var targetCycle: nat
    var breakpoints: set<Word>
    var running: bool

    ghost predicate Valid()
      reads this
    {
      vm.Valid() && historyIndex < |ring|
    }

    /** What holds between commands and between iterations: a snapshot is due every cycle. */
    ghost predicate Ready()
      reads this, vm, vm.mem
    {
      && Valid()
      && vm.state.snapInterval == vm.state.snapTimer == 1
      && (running ==> Live?(vm.View().core))
    }

    ghost function View(): (s: Session)
      reads this, vm, vm.mem
      requires Valid()
      ensures HasRing(s.m)
    {
      Session(vm.View().(sink := DebugSink(ring, historyIndex, targetCycle, breakpoints)), running)
    }

    /** Installs the sink and seeds the ring with the loaded program's baseline. */
    constructor (loaded: VM)
      requires loaded.Valid()
      requires loaded.deltas == []
      modifies loaded
      ensures Ready() && vm == loaded
      ensures View() == Begin(old(loaded.View()).core)
    {
      vm := loaded;
      targetCycle := NO_TARGET;
      breakpoints := {};
      running := false;
      ring := [];
      historyIndex := 0;
      new;
      loaded.SetSnapshotInterval(1);
      var baseline := loaded.TakeSnapshot();
      ring := [ReplSnapshot(baseline, Cursor(loaded.io))];
    }

    /** The snapshot sink: step boundary, else breakpoint; then push onto the ring. */
    method OnSnapshot(s: Snapshot)
      requires Valid()
      requires s.cycle == vm.state.cycleCount && s.pc == vm.state.pc
      modifies this`ring, this`historyIndex, this`targetCycle, vm`state
      ensures Valid()
      ensures var (sink', halt) := Notify(old(View()).m.sink, s, Cursor(old(vm.io)));
              View() == old(View()).(m := old(View()).m.(sink := sink',
                          core := if halt.Running? then old(View()).m.core else old(View()).m.core.(halted := halt)))
    {
      hide Resize;
      if targetCycle != NO_TARGET && s.cycle >= targetCycle {
        targetCycle := NO_TARGET;
        vm.RequestHalt(StepDone);
      } else if Wrap32(s.pc - 4) in breakpoints {
        vm.RequestHalt(Breakpoint);
      }
      Push(ReplSnapshot(s, Cursor(vm.io)));
    }

    /** Drops the entries beyond the current one, appends `e`, evicts the oldest beyond the cap. */
    method Push(e: ReplSnapshot)
      requires historyIndex < |ring|
      modifies this`ring, this`historyIndex
      ensures var ring' := Resize(old(ring), old(historyIndex) + 1) + [e];
              && ring == (if |ring'| > 256 then ring'[1..] else ring')
              && historyIndex == (if |ring'| > 256 then old(historyIndex) else old(historyIndex) + 1)
              && historyIndex < |ring|
    {
      ring := Resize(ring, historyIndex + 1);
      ring := ring + [e];
      if |ring| > RING_CAP {
        ring := ring[1..];
      } else {
        historyIndex := historyIndex + 1;
      }
    }

    /** One iteration of `vm.run()` with this sink installed. */
    method RunIteration()
      requires Ready() && running
      modifies this, vm, vm.mem
      ensures Ready() && View() == Apply(old(View()), Iterate)
    {
      hide Execute, LogStore, HandlerReturns, Notify;
      ghost var m := View().m;
      BodyIsStep(m);
      var w, due := vm.FetchNext();
      var s := vm.TakeSnapshot();
      OnSnapshot(s);
      vm.ReloadTimer();
      assert View().m == Arrive(m);
      if !vm.state.halted.Running? {
        running := false;
        return;
      }
      if DecodeOp(w) >= OP_COUNT {
        vm.RequestHalt(UnknownOp);
        running := false;
      } else {
        var out := vm.Handler(w);
        running := !out;
      }
    }

    /** `vm.run()` for at most `fuel` more iterations. */
    method RunOn(fuel: nat)
      requires Ready()
      modifies this, vm, vm.mem
      ensures Ready() && View() == After(old(View()), Iterations(fuel))
    {
      hide Apply;
      var i := 0;
      while i < fuel && running
        invariant 0 <= i <= fuel && Ready()
        invariant View() == After(old(View()), Iterations(i))
      {
        ghost var before := View();
        IterationsNext(old(View()), i);
        RunIteration();
        i := i + 1;
      }
      IdleIterations(old(View()), i, fuel);
    }

    /** `debug_resume`: clears a soft halt, refuses a natural one. */
    method ResumeHalt() returns (resumed: bool)
      requires Valid()
      modifies vm`state
      ensures Valid() && resumed == Resume(old(vm.View()).core).Some?
      ensures vm.View() == if resumed then old(vm.View()).(core := Resume(old(vm.View()).core).value)
                           else old(vm.View())
    {
      if vm.state.halted.Running? {
        return true;
      }
      match vm.state.halted
      case Breakpoint | StepDone | Checkpoint =>
        vm.SetState(vm.state.(halted := Running));
        return true;
      case _ =>
        return false;
    }

    method StepCommand(n: U64, fuel: nat)
      requires Ready() && Prompting(View())
      modifies this, vm, vm.mem
      ensures Ready() && View() == After(Apply(old(View()), StepCmd(n)), Iterations(fuel))
    {
      ghost var before := View();
      NothingRuns(before, fuel);
      if n == 0 {
        return;
      }
      var resumed := ResumeHalt();
      if !resumed {
        return;
      }
      targetCycle := (vm.state.cycleCount + n) % TWO_64;
      running := true;
      assert View() == Apply(before, StepCmd(n));
      RunOn(fuel);
    }

    method ContinueCommand(fuel: nat)
      requires Ready() && Prompting(View())
      modifies this, vm, vm.mem
      ensures Ready() && View() == After(Apply(old(View()), ContinueCmd), Iterations(fuel))
    {
      ghost var before := View();
      NothingRuns(before, fuel);
      var resumed := ResumeHalt();
      if !resumed {
        return;
      }
      targetCycle := NO_TARGET;
      running := true;
      assert View() == Apply(before, ContinueCmd);
      RunOn(fuel);
    }

    /** Peels the deltas of the current entry down to the one after `to` off memory. */
    method UndoEntries(to: nat)
      requires Valid() && to <= historyIndex
      modifies vm.mem
      ensures vm.mem[..] == UndoRing(old(vm.mem[..]), ring, historyIndex, to)
    {
      hide Undo;
      var i := historyIndex;
      while i > to
        invariant to <= i <= historyIndex
        invariant UndoRing(vm.mem[..], ring, i, to) == UndoRing(old(vm.mem[..]), ring, historyIndex, to)
      {
        vm.UndoDeltas(ring[i].core.deltas);
        i := i - 1;
      }
    }

    /** `back n`: peel the deltas off memory entry by entry, then restore the target's CPU state and cursor. */
    method BackCommand(n: U64)
      requires Ready() && Prompting(View())
      modifies this, vm, vm.mem
      ensures Ready() && View() == Apply(old(View()), BackCmd(n))
    {
      if n == 0 || n > historyIndex {
        return;
      }
      hide UndoRing;
      var to := historyIndex - n;
      UndoEntries(to);
      var tgt := ring[to].core;
      vm.SetState(vm.state.(cycleCount := tgt.cycle, regs := tgt.regs, pc := tgt.pc, sp := tgt.sp,
                            flags := tgt.flags, halted := tgt.halted));
      if vm.io.Replay? {
        vm.io := vm.io.(cursor := ring[to].cursor);
      }
      historyIndex := to;
    }

    method BreakpointCommand(addr: U64)
      requires Ready() && Prompting(View())
      modifies this`breakpoints
      ensures Ready() && View() == Apply(old(View()), SetBreakpoint(addr))
    {
      breakpoints := breakpoints + {addr % MEM_SIZE / 4 * 4};
    }

    method DeleteBreakpointCommand(addr: U64)
      requires Ready() && Prompting(View())
      modifies this`breakpoints
      ensures Ready() && View() == Apply(old(View()), DeleteBreakpoint(addr))
    {
      breakpoints := breakpoints - {addr % MEM_SIZE / 4 * 4};
    }
  }

  lemma IterationsNext(s: Session, i: nat)
    requires HasRing(s.m)
    ensures After(s, Iterations(i + 1)) == Apply(After(s, Iterations(i)), Iterate)
  {
    hide Apply;
    assert Iterations(i + 1) == Iterations(i) + [Iterate];
    AfterNext(s, Iterations(i), Iterate);
  }

  /** Iterating a session that is not running changes nothing. */
  lemma {:induction false} IdleIterations(s: Session, i: nat, n: nat)
    requires HasRing(s.m) && i <= n
    requires !After(s, Iterations(i)).busy || i == n
    ensures After(s, Iterations(n)) == After(s, Iterations(i))
    decreases n
  {
    hide Step;
    if i < n {
      IdleIterations(s, i, n - 1);
      IterationsNext(s, n - 1);
    }
  }

  lemma NothingRuns(s: Session, n: nat)
    requires HasRing(s.m)
    ensures !s.busy ==> After(s, Iterations(n)) == s
  {
    hide Apply;
    assert Iterations(0) == [];
    if !s.busy {
      IdleIterations(s, 0, n);
    }
  }
}
