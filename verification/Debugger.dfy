/**
 * The debugger session as a value, command by command and iteration by iteration, and the
 * debugger it should be indistinguishable from: one whose ring holds full copies of the machine.
 */
module Debugger {
  import opened Words
  import opened Opcodes
  import opened Memory
  import opened Machine

  /** `busy` while `vm.run()` has not returned to the prompt. */
  datatype Session = Session(m: Machine, busy: bool)

  type U64 = x: int | 0 <= x < TWO_64

  /** A command read at the prompt, or one iteration of the dispatch loop a command started. */
  datatype Event =
    | StepCmd(n: U64)
    | ContinueCmd
    | BackCmd(n: U64)
    | SetBreakpoint(addr: U64)
    | DeleteBreakpoint(addr: U64)
    | Iterate

  /** Breakpoint addresses are cut to 20 bits and aligned to 4. */
  function BreakpointPc(addr: U64): Word {
    addr % MEM_SIZE / 4 * 4
  }

  predicate HasRing(m: Machine) {
    m.sink.DebugSink? && m.sink.historyIndex < |m.sink.ring|
  }

  function BaselineEntry(c: Core): ReplSnapshot {
    ReplSnapshot(SnapshotOf(c, []), Cursor(c.host))
  }

  function Begin(c: Core): Session {
    Session(Machine(c, [], 1, 1, DebugSink([BaselineEntry(c)], 0, NO_TARGET, {})), false)
  }

  /** `debug_resume`: clears a soft halt, refuses a natural one. */
  function Resume(c: Core): Option<Core> {
    if c.halted.Running? then Some(c)
    else if Soft(c.halted) then Some(c.(halted := Running))
    else None
  }

  /** The target of `step n`, in 64-bit arithmetic. */
  function StepTarget(cycle: nat, n: U64): nat {
    (cycle + n) % TWO_64
  }

  /** Undoes ring entries `from` down to `to + 1`. */
  function UndoRing(m: Mem, ring: seq<ReplSnapshot>, from: nat, to: nat): Mem
    requires from < |ring|
    decreases from
  {
    if from <= to then m else UndoRing(Undo(m, ring[from].core.deltas), ring, from - 1, to)
  }

  /** `back n`: undo memory, then take the rest from the target entry. */
  function Rewind(m: Machine, n: nat): Machine
    requires HasRing(m) && n <= m.sink.historyIndex
  {
    var c, ring, from := m.core, m.sink.ring, m.sink.historyIndex;
    var to := from - n;
    var s := ring[to].core;
    var host := if c.host.Replay? then c.host.(cursor := ring[to].cursor) else c.host;
    m.(core := Core(s.cycle, s.regs, s.pc, s.sp, s.flags, s.halted, UndoRing(c.mem, ring, from, to), host),
       sink := m.sink.(historyIndex := to))
  }

  /** Starts `vm.run()` towards `target` if the halt can be resumed. */
  function RunTo(s: Session, target: nat): Session
    requires HasRing(s.m)
  {
    match Resume(s.m.core)
    case None => s
    case Some(c) => Session(s.m.(core := c, sink := s.m.sink.(targetCycle := target)), true)
  }

  /** Commands are read only once a run has returned, and not after a divergence ended the session. */
  predicate Prompting(s: Session) {
    !s.busy && !Faulted(s.m.core.host)
  }

  function Apply(s: Session, e: Event): (s': Session)
    requires HasRing(s.m)
    ensures HasRing(s'.m)
  {
    if e.Iterate? then
      if !s.busy then s else var m := Step(s.m); Session(m, Live?(m.core))
    else if !Prompting(s) then s
    else match e
      case StepCmd(n) => if n == 0 then s else RunTo(s, StepTarget(s.m.core.cycle, n))
      case ContinueCmd => RunTo(s, NO_TARGET)
      case BackCmd(n) => if n == 0 || n > s.m.sink.historyIndex then s else s.(m := Rewind(s.m, n))
      case SetBreakpoint(a) =>
        s.(m := s.m.(sink := s.m.sink.(breakpoints := s.m.sink.breakpoints + {BreakpointPc(a)})))
      case DeleteBreakpoint(a) =>
        s.(m := s.m.(sink := s.m.sink.(breakpoints := s.m.sink.breakpoints - {BreakpointPc(a)})))
      case Iterate => s
  }

  function After(s: Session, es: seq<Event>): (s': Session)
    requires HasRing(s.m)
    ensures HasRing(s'.m)
  {
    if es == [] then s else Apply(After(s, es[..|es| - 1]), es[|es| - 1])
  }

  // ----- the debugger with full copies -----

  datatype FullCopy = FullCopy(
    core: Core, copies: seq<Core>, historyIndex: nat, targetCycle: nat, breakpoints: set<Word>, busy: bool)

  predicate HasCopy(r: FullCopy) {
    r.historyIndex < |r.copies|
  }

  function RefBegin(c: Core): FullCopy {
    FullCopy(c, [c], 0, NO_TARGET, {}, false)
  }

  /** The soft halt due when the next instruction of `r` has been fetched. */
  function SoftHalt(r: FullCopy): HaltReason {
    if r.targetCycle != NO_TARGET && r.core.cycle + 1 >= r.targetCycle then StepDone
    else if r.core.pc in r.breakpoints then Breakpoint
    else Running
  }

  /** Drops the abandoned future, keeps a copy of the machine, evicts the oldest beyond 256. */
  function Remember(r: FullCopy, c: Core): (r': FullCopy)
    requires HasCopy(r)
    ensures HasCopy(r')
  {
    var copies := r.copies[..r.historyIndex + 1] + [c];
    if |copies| > RING_CAP then r.(copies := copies[1..])
    else r.(copies := copies, historyIndex := r.historyIndex + 1)
  }

  function RefIterate(r: FullCopy): (r': FullCopy)
    requires HasCopy(r)
    ensures HasCopy(r')
  {
    var f := Fetch(r.core);
    var halt := SoftHalt(r);
    var core := if halt.Running? then CoreStep(r.core) else f.(halted := halt);
    Remember(r, f).(core := core, busy := Live?(core),
                    targetCycle := if halt.StepDone? then NO_TARGET else r.targetCycle)
  }

  /** Live inputs cannot be un-read; a replay cursor can. */
  function RefRewind(r: FullCopy, n: nat): FullCopy
    requires HasCopy(r) && n <= r.historyIndex
  {
    var copy := r.copies[r.historyIndex - n];
    r.(core := if r.core.host.Replay? then copy else copy.(host := r.core.host),
       historyIndex := r.historyIndex - n)
  }

  function RefRunTo(r: FullCopy, target: nat): FullCopy {
    match Resume(r.core)
    case None => r
    case Some(c) => r.(core := c, targetCycle := target, busy := true)
  }

  function RefApply(r: FullCopy, e: Event): (r': FullCopy)
    requires HasCopy(r)
    ensures HasCopy(r')
  {
    if e.Iterate? then
      if !r.busy then r else RefIterate(r)
    else if r.busy || Faulted(r.core.host) then r
    else match e
      case StepCmd(n) => if n == 0 then r else RefRunTo(r, StepTarget(r.core.cycle, n))
      case ContinueCmd => RefRunTo(r, NO_TARGET)
      case BackCmd(n) => if n == 0 || n > r.historyIndex then r else RefRewind(r, n)
      case SetBreakpoint(a) => r.(breakpoints := r.breakpoints + {BreakpointPc(a)})
      case DeleteBreakpoint(a) => r.(breakpoints := r.breakpoints - {BreakpointPc(a)})
      case Iterate => r
  }

  function RefAfter(r: FullCopy, es: seq<Event>): (r': FullCopy)
    requires HasCopy(r)
    ensures HasCopy(r')
  {
    if es == [] then r else RefApply(RefAfter(r, es[..|es| - 1]), es[|es| - 1])
  }
}
