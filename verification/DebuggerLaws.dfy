/** What resuming, stepping and breakpoints amount to over whole sessions. */
module DebuggerLaws {
  import opened Words
  import opened Opcodes
  import opened Memory
  import opened Machine
  import opened Debugger
  import opened RecordReplay
  import opened DebuggerRefinement
  import opened SessionPath
  import opened LivePath

  // ----- the resume law -----

  /**
   * The resume law: the states of any session, with any use of step, continue, back and breakpoints, are
   * those of an uninterrupted run in which each instruction fetched at a soft halt, or at the moment
   * `back` returned to, was a no-op of one cycle.  In a replay session, and in a live one without `back`,
   * that run has the session's own host.  In a live session its events are those of the session's log
   * that `back` has not abandoned, in order, and it is fed exactly the inputs drawn there.
   */
  lemma ResumeLaw(c0: Core, es: seq<Event>)
    requires Live?(c0)
    ensures var c, skips := After(Begin(c0), es).m.core, Path(RefBegin(c0), es);
            && c.cycle == c0.cycle + |skips|
            && (c0.host.Replay? || (forall e :: e in es ==> !e.BackCmd?) ==>
                  && Awake(c) == SkipRun(c0, skips)
                  && ((forall i :: 0 <= i < |skips| ==> !skips[i]) ==> Awake(c) == CoreRun(c0, |skips|)))
            && (c0.host.Live? ==>
                  exists f: nat -> Word, kept: seq<nat> ::
                    && Surviving(kept, SkipRun(Fed(c0, f), skips), c, c0)
                    && SameState(Awake(c), SkipRun(Fed(c0, f), skips))
                    && ((forall i :: 0 <= i < |skips| ==> !skips[i]) ==>
                          SameState(Awake(c), CoreRun(Fed(c0, f), |skips|))))
  {
    hide After, RefAfter, Path, SkipRun, CoreRun, Undo, Surviving;
    var skips := Path(RefBegin(c0), es);
    DebuggerRefinesFullCopies(c0, es);
    if c0.host.Replay? || forall e :: e in es ==> !e.BackCmd? {
      SessionStaysOnPath(c0, es);
      SkipRunWithoutSkips(c0, skips);
    }
    if c0.host.Live? {
      SessionStaysOnLivePath(c0, es);
      var f: nat -> Word, kept: seq<nat> :| OnLivePath(RefAfter(RefBegin(c0), es), c0, skips, f, kept);
      SkipRunWithoutSkips(Fed(c0, f), skips);
      assert Surviving(kept, SkipRun(Fed(c0, f), skips), After(Begin(c0), es).m.core, c0);
    }
  }

  // ----- what a soft halt loses -----

  /** Executing the next instruction of `c` would change nothing but pc and cycle. */
  predicate Inert(c: Core) {
    var w := InstrAt(c);
    var op, dst, src, imm := DecodeOp(w), DecodeDst(w), DecodeSrc(w), DecodeImm(w);
    if op == OP_LOAD || op == OP_STORE then c.regs[dst] == Load32(c.mem, imm)
    else if op == OP_LI then c.regs[dst] == imm
    else if op == OP_JUMP then Wrap32(c.pc + 4) == imm
    else if op == OP_JNZ then c.regs[dst] == 0 || Wrap32(c.pc + 4) == imm
    else if op == OP_DIV && c.regs[src] == 0 then false
    else if op == OP_ADD || op == OP_SUB || op == OP_MUL || op == OP_DIV then
      var (r, carry) := Arith(op, c.regs[dst], c.regs[src]);
      r == c.regs[dst] && Flags(r == 0, carry, r) == c.flags
    else false
  }

  lemma StoreKeepsMemoryIff(m: Mem, addr: nat, v: Word)
    ensures Store32(m, addr, v) == m <==> Load32(m, addr) == v
  {
    hide Load32, Store32;
    LoadOfStore(m, addr, v);
    StoreOfStore(m, addr, v, Load32(m, addr));
    StoreOfLoad(m, addr, v);
  }

  lemma NoOpIffInert(c: Core)
    requires Live?(c)
    ensures CoreStep(c) == Fetch(c) <==> Inert(c)
  {
    hide Load32, Store32, Arith, Flags;
    var w := InstrAt(c);
    var op, dst := DecodeOp(w), DecodeDst(w);
    StoreKeepsMemoryIff(c.mem, DecodeImm(w), c.regs[dst]);
    var s, f := CoreStep(c), Fetch(c);
    if s.regs == f.regs {
      assert s.regs[dst] == f.regs[dst];
    }
    assert f.regs[dst := f.regs[dst]] == f.regs;
  }

  /**
   * A soft halt followed by a resume loses the fetched instruction: the run goes on as the
   * uninterrupted one does exactly when that instruction is inert.  Setting pc back by 4 and the
   * cycle by 1 instead would give back precisely the core before the fetch.
   */
  lemma ResumeIsExactIffInert(c0: Core, es: seq<Event>)
    requires Live?(c0)
    requires var s := After(Begin(c0), es); s.busy && !Request(s.m).Running?
    ensures var c, h := After(Begin(c0), es).m.core, After(Begin(c0), es + [Iterate]).m.core;
            && Soft(h.halted)
            && (Awake(h) == CoreStep(c) <==> Inert(c))
            && h.cycle > 0 && h.(pc := Wrap32(h.pc - 4), cycle := h.cycle - 1, halted := Running) == c
  {
    hide After, RefAfter, Undo, CoreStep, Step, Inert, Request;
    var s := After(Begin(c0), es);
    AfterNext(Begin(c0), es, Iterate);
    DebuggerRefinesFullCopies(c0, es);
    StepTakenApart(s.m);
    NoOpIffInert(s.m.core);
    assert Wrap32(Wrap32(s.m.core.pc + 4) - 4) == s.m.core.pc;
  }

  lemma AfterNext(s: Session, es: seq<Event>, e: Event)
    requires HasRing(s.m)
    ensures After(s, es + [e]) == Apply(After(s, es), e)
  {
    hide Apply;
    assert (es + [e])[..|es|] == es;
  }

  /** Executing the next instruction of `c` would change nothing but pc, cycle and the host. */
  predicate Silent(c: Core)
    requires c.host.Live?
  {
    Inert(c) || (IsEventOp(OpAt(c)) && c.host.inputs(|c.host.log|) == c.regs[DecodeDst(InstrAt(c))])
  }

  lemma NoOpUpToHostIffSilent(c: Core)
    requires Live?(c) && c.host.Live?
    ensures SameState(Fetch(c), CoreStep(c)) <==> Silent(c)
  {
    hide Load32, Store32, Arith, Flags, Inert;
    NoOpIffInert(c);
    StepWithHost(c, c.host);
    var dst := DecodeDst(InstrAt(c));
    assert c.regs[dst := c.regs[dst]] == c.regs;
    if IsEventOp(OpAt(c)) {
      var v := c.host.inputs(|c.host.log|);
      assert CoreStep(c).regs == c.regs[dst := v];
      assert c.regs[dst := v][dst] == v;
      EventsAreNotInert(c);
    }
  }

  lemma EventsAreNotInert(c: Core)
    requires IsEventOp(OpAt(c))
    ensures !Inert(c)
  {
  }

  /**
   * `back n` to an entry other than the baseline returns to the moment an instruction had been fetched
   * but not executed.  That is the state the session itself went on from, at that cycle of its path,
   * exactly when a soft halt had made it lose the instruction there too, or the instruction is inert; and
   * it is where the uninterrupted program would be exactly when the instruction is inert.  In a live
   * session the same holds of the CPU state and memory, along the path fed with the inputs that survive
   * on it, where an IN or RAND is harmless to lose if it drew the value its register already held.
   */
  lemma BackIsExactIffInert(c0: Core, es: seq<Event>, n: U64)
    requires Live?(c0)
    requires var s := After(Begin(c0), es);
             && Prompting(s) && 1 <= n <= s.m.sink.historyIndex && s.m.core.cycle - n > c0.cycle
    ensures var s, skips := After(Begin(c0), es), Path(RefBegin(c0), es);
            var back := Apply(s, BackCmd(n)).m.core;
            var k := s.m.core.cycle - n - c0.cycle;
            && 0 < k < |skips|
            && (c0.host.Replay? ==>
                  var x := SkipRun(c0, skips[..k - 1]);
                  && Live?(x) && back == Fetch(x) && (back == CoreStep(x) <==> Inert(x))
                  && (back == SkipRun(c0, skips[..k]) <==> skips[k - 1] || Inert(x)))
            && (c0.host.Live? ==>
                  exists f: nat -> Word, kept: seq<nat> ::
                    && Surviving(kept, SkipRun(Fed(c0, f), skips), s.m.core, c0)
                    && SameState(Awake(s.m.core), SkipRun(Fed(c0, f), skips))
                    && var x := SkipRun(Fed(c0, f), skips[..k - 1]);
                    && Live?(x) && x.host.Live?
                    && SameState(back, Fetch(x)) && (SameState(back, CoreStep(x)) <==> Silent(x))
                    && (SameState(back, SkipRun(Fed(c0, f), skips[..k])) <==> skips[k - 1] || Silent(x)))
  {
    hide After, RefAfter, Fetch, CoreStep, Inert, Path, Apply, SkipRun, Silent, OnPath, Sound, Surviving, SameState,
      OnLivePath, CopyOnLivePath, CopyOnPath, CopySound;
    var s, r, skips := After(Begin(c0), es), RefAfter(RefBegin(c0), es), Path(RefBegin(c0), es);
    var copy := BackTarget(c0, es, n);
    var back := Apply(s, BackCmd(n)).m.core;
    ResumeLaw(c0, es);
    if c0.host.Replay? {
      SessionStaysOnPath(c0, es);
      CopyOfPath(r, c0, skips, r.historyIndex - n);
      CaptureIsFetch(copy, c0, skips);
    } else {
      SessionStaysOnLivePath(c0, es);
      var f: nat -> Word, kept: seq<nat> :| OnLivePath(r, c0, skips, f, kept);
      AwakeOnLivePath(r, c0, skips, f, kept);
      CaptureIsFetchLive(copy, back, c0, skips, f);
    }
  }

  lemma AwakeOnLivePath(r: FullCopy, c0: Core, skips: seq<bool>, f: nat -> Word, kept: seq<nat>)
    requires OnLivePath(r, c0, skips, f, kept)
    ensures Surviving(kept, SkipRun(Fed(c0, f), skips), r.core, c0)
    ensures SameState(Awake(r.core), SkipRun(Fed(c0, f), skips))
    ensures forall j :: 0 <= j <= r.historyIndex ==> CopyOnLivePath(r.copies[j], c0, skips, f)
  {
    hide SkipRun, Surviving, CopyOnLivePath;
  }

  lemma PathUpTo(c: Core, skips: seq<bool>, k: nat)
    requires 0 < k <= |skips|
    ensures SkipRun(c, skips[..k]) ==
            var x := SkipRun(c, skips[..k - 1]);
            if !Live?(x) then x else if skips[k - 1] then Fetch(x) else CoreStep(x)
  {
    hide SkipRun, CoreStep;
    SkipRunNext(c, skips[..k - 1], skips[k - 1]);
    assert skips[..k] == skips[..k - 1] + [skips[k - 1]];
  }

  lemma CopyOfPath(r: FullCopy, c0: Core, skips: seq<bool>, j: nat)
    requires OnPath(r, c0, skips) && j <= r.historyIndex
    ensures CopyOnPath(r.copies[j], c0, skips)
  {
    hide CopyOnPath;
  }

  /** The copy that `back n` goes to. */
  lemma BackTarget(c0: Core, es: seq<Event>, n: U64) returns (copy: Core)
    requires Live?(c0)
    requires var s := After(Begin(c0), es); Prompting(s) && 1 <= n <= s.m.sink.historyIndex
    ensures var s, r := After(Begin(c0), es), RefAfter(RefBegin(c0), es);
            var back := Apply(s, BackCmd(n)).m.core;
            && s.m.core == r.core
            && n <= r.historyIndex < |r.copies| && copy == r.copies[r.historyIndex - n]
            && back == copy.(host := back.host) && (c0.host.Replay? ==> back == copy)
            && copy.cycle + n == s.m.core.cycle
            && Live?(copy) && (copy.host.Replay? <==> c0.host.Replay?)
  {
    hide After, RefAfter, Undo, Apply;
    var r := RefAfter(RefBegin(c0), es);
    TimeTravelIsExact(c0, es, n);
    DebuggerRefinesFullCopies(c0, es);
    copy := r.copies[r.historyIndex - n];
    assert CopySound(copy, c0);
  }

  lemma CaptureIsFetchLive(copy: Core, back: Core, c0: Core, skips: seq<bool>, f: nat -> Word)
    requires Live?(copy) && copy.host.Live? && CopyOnLivePath(copy, c0, skips, f) && copy.cycle > c0.cycle
    requires back == copy.(host := back.host)
    ensures var k := copy.cycle - c0.cycle;
            && k <= |skips|
            && var x := SkipRun(Fed(c0, f), skips[..k - 1]);
            && Live?(x) && x.host.Live?
            && SameState(back, Fetch(x)) && (SameState(back, CoreStep(x)) <==> Silent(x))
            && (SameState(back, SkipRun(Fed(c0, f), skips[..k])) <==> skips[k - 1] || Silent(x))
  {
    hide CoreStep, Silent, SkipRun;
    var k := copy.cycle - c0.cycle;
    var x := SkipRun(Fed(c0, f), skips[..k - 1]);
    SkipRunNext(Fed(c0, f), skips[..k - 1], true);
    SkipRunHost(c0, f, skips[..k - 1]);
    PathUpTo(Fed(c0, f), skips, k);
    if Live?(x) {
      NoOpUpToHostIffSilent(x);
    }
  }

  lemma CaptureIsFetch(copy: Core, c0: Core, skips: seq<bool>)
    requires Live?(copy) && CopyOnPath(copy, c0, skips) && copy.cycle > c0.cycle
    ensures var k := copy.cycle - c0.cycle;
            && k <= |skips|
            && var x := SkipRun(c0, skips[..k - 1]);
            && Live?(x) && copy == Fetch(x)
            && (copy == CoreStep(x) <==> Inert(x))
            && (copy == SkipRun(c0, skips[..k]) <==> skips[k - 1] || Inert(x))
  {
    hide CoreStep, Inert, SkipRun;
    var k := copy.cycle - c0.cycle;
    SkipRunNext(c0, skips[..k - 1], true);
    PathUpTo(c0, skips, k);
    NoOpIffInert(SkipRun(c0, skips[..k - 1]));
  }

  // ----- back to the baseline -----

  function Iterations(n: nat): (es: seq<Event>)
    ensures |es| == n && forall i :: 0 <= i < n ==> es[i] == Iterate
  {
    seq(n, i => Iterate)
  }

  lemma {:induction false} RefAfterConcat(r: FullCopy, a: seq<Event>, b: seq<Event>)
    requires HasCopy(r)
    ensures RefAfter(r, a + b) == RefAfter(RefAfter(r, a), b)
    decreases |b|
  {
    hide RefApply;
    if b == [] {
      assert a + b == a;
    } else {
      assert (a + b)[..|a + b| - 1] == a + b[..|b| - 1];
      RefAfterConcat(r, a, b[..|b| - 1]);
    }
  }

  lemma {:induction false} FreeRun(r: FullCopy, n: nat)
    requires HasCopy(r) && r.busy && Live?(r.core) && r.targetCycle == NO_TARGET && r.breakpoints == {}
    ensures var u := RefAfter(r, Iterations(n));
            && u.core == CoreRun(r.core, n)
            && (u.busy <==> Live?(u.core)) && u.targetCycle == NO_TARGET && u.breakpoints == {}
  {
    hide CoreStep;
    if n > 0 {
      FreeRun(r, n - 1);
      CoreRunNext(r.core, n - 1);
      assert Iterations(n)[..n - 1] == Iterations(n - 1);
    }
  }

  /**
   * In a replay session whose baseline has not been evicted, `back` to it and `continue` with no
   * breakpoint armed repeats the replay from the start, state for state.
   */
  lemma BackToBaselineReplays(c0: Core, es: seq<Event>, depth: U64, n: nat)
    requires Live?(c0) && c0.host.Replay?
    requires var s := After(Begin(c0), es);
             && Prompting(s) && 1 <= depth == s.m.sink.historyIndex
             && s.m.sink.ring[0].core.cycle == c0.cycle && s.m.sink.breakpoints == {}
    ensures After(Begin(c0), es + ([BackCmd(depth), ContinueCmd] + Iterations(n))).m.core == CoreRun(c0, n)
  {
    hide After, RefAfter, Undo, CoreStep;
    var s, r := After(Begin(c0), es), RefAfter(RefBegin(c0), es);
    DebuggerRefinesFullCopies(c0, es);
    assert EntryOf(s.m.sink.ring[0], r.copies[0]) && CopySound(r.copies[0], c0);
    var back := BackCmd(depth);
    var r1 := RefApply(r, back);
    assert r1.core == c0;
    var r2 := RefApply(r1, ContinueCmd);
    assert r2.core == c0 && r2.busy && r2.targetCycle == NO_TARGET && r2.breakpoints == {};
    RefAfterTwo(r, back, ContinueCmd);
    RefAfterConcat(r, [back, ContinueCmd], Iterations(n));
    RefAfterConcat(RefBegin(c0), es, [back, ContinueCmd] + Iterations(n));
    FreeRun(r2, n);
    DebuggerRefinesFullCopies(c0, es + ([back, ContinueCmd] + Iterations(n)));
  }

  lemma RefAfterOne(r: FullCopy, e: Event)
    requires HasCopy(r)
    ensures RefAfter(r, [e]) == RefApply(r, e)
  {
    hide RefApply;
    assert [e][..0] == [];
  }

  lemma RefAfterTwo(r: FullCopy, a: Event, b: Event)
    requires HasCopy(r)
    ensures RefAfter(r, [a, b]) == RefApply(RefApply(r, a), b)
  {
    hide RefApply;
    assert [a, b] == [a] + [b];
    RefAfterConcat(r, [a], [b]);
    RefAfterOne(r, a);
    RefAfterOne(RefApply(r, a), b);
  }

  // ----- breakpoints -----

  /** A pc is armed by `breakpoint addr` exactly when it is `addr` cut to 20 bits and aligned. */
  lemma ArmedBy(s: Session, addr: U64, pc: Word)
    requires HasRing(s.m) && Prompting(s)
    ensures pc in Apply(s, SetBreakpoint(addr)).m.sink.breakpoints <==>
            pc in s.m.sink.breakpoints || (pc < 0x10_0000 && pc % 4 == 0 && pc <= addr % 0x10_0000 < pc + 4)
    ensures BreakpointPc(addr) == addr <==> addr < 0x10_0000 && addr % 4 == 0
  {
  }

  /** The instructions a session executes: each pc with the breakpoints armed at the time. */
  function Executed(s: Session, es: seq<Event>): seq<(Word, set<Word>)>
    requires HasRing(s.m)
  {
    if es == [] then []
    else
      var b := After(s, es[..|es| - 1]);
      Executed(s, es[..|es| - 1]) +
      if es[|es| - 1].Iterate? && b.busy && Request(b.m).Running? then [(b.m.core.pc, b.m.sink.breakpoints)] else []
  }

  /** In no session is an instruction fetched at an armed pc executed. */
  lemma {:induction false} BreakpointSafety(c0: Core, es: seq<Event>)
    requires Live?(c0)
    ensures forall i :: 0 <= i < |Executed(Begin(c0), es)| ==>
                          Executed(Begin(c0), es)[i].0 !in Executed(Begin(c0), es)[i].1
  {
    hide After, RefAfter, Undo, Step, CoreStep, Request;
    if es != [] {
      var front := es[..|es| - 1];
      BreakpointSafety(c0, front);
      DebuggerRefinesFullCopies(c0, front);
      if After(Begin(c0), front).busy {
        StepTakenApart(After(Begin(c0), front).m);
      }
    }
  }

  /** Only cells of memory can be armed, and only at multiples of 4. */
  lemma {:induction false} ArmedAreCells(c0: Core, es: seq<Event>)
    ensures forall b :: b in RefAfter(RefBegin(c0), es).breakpoints ==> b < MEM_SIZE && b % 4 == 0
  {
    hide RefIterate, RefRewind;
    if es != [] {
      ArmedAreCells(c0, es[..|es| - 1]);
      IterateKeepsBreakpoints(RefAfter(RefBegin(c0), es[..|es| - 1]));
      RewindKeepsBreakpoints(RefAfter(RefBegin(c0), es[..|es| - 1]));
    }
  }

  lemma IterateKeepsBreakpoints(r: FullCopy)
    requires HasCopy(r)
    ensures RefIterate(r).breakpoints == r.breakpoints
  {
    hide CoreStep;
  }

  lemma RewindKeepsBreakpoints(r: FullCopy)
    requires HasCopy(r)
    ensures forall n: nat :: n <= r.historyIndex ==> RefRewind(r, n).breakpoints == r.breakpoints
  {
  }

  /**
   * pc is not masked where breakpoints are compared with it, so a cell of memory can be fetched through
   * pcs beyond the top.  With no step boundary due, the instruction in an armed cell is stopped at
   * exactly when pc is below the top of memory, and executed otherwise.
   */
  lemma ArmedCellRunsIffBeyondTop(c0: Core, es: seq<Event>)
    requires Live?(c0)
    requires var s := After(Begin(c0), es);
             && s.busy && s.m.core.pc % MEM_SIZE in s.m.sink.breakpoints
             && (s.m.sink.targetCycle == NO_TARGET || s.m.core.cycle + 1 < s.m.sink.targetCycle)
    ensures var s := After(Begin(c0), es);
            Request(s.m).Running? <==> s.m.core.pc >= MEM_SIZE
  {
    hide After, RefAfter, Undo, Step, CoreStep, Request, Mirrors, Notify, Fetch;
    DebuggerRefinesFullCopies(c0, es);
    ArmedAreCells(c0, es);
    var m := After(Begin(c0), es).m;
    StepTakenApart(m);
    ArmedOnlyBelowTop(m.sink.breakpoints, m.core.pc);
  }

  lemma ArmedOnlyBelowTop(armed: set<Word>, pc: Word)
    requires forall b :: b in armed ==> b < MEM_SIZE
    requires pc % MEM_SIZE in armed
    ensures pc in armed <==> pc < MEM_SIZE
  {
  }

  /** Fetching at an armed pc ends the run with a soft halt, having changed only pc and cycle. */
  lemma ArmedFetchHalts(c0: Core, es: seq<Event>)
    requires Live?(c0)
    requires var s := After(Begin(c0), es); s.busy && s.m.core.pc in s.m.sink.breakpoints
    ensures var s, s' := After(Begin(c0), es), After(Begin(c0), es + [Iterate]);
            && !s'.busy
            && s'.m.core == Fetch(s.m.core).(halted := s'.m.core.halted)
            && s'.m.core.halted == if s.m.sink.targetCycle != NO_TARGET && s.m.core.cycle + 1 >= s.m.sink.targetCycle
                                   then StepDone else Breakpoint
  {
    hide After, RefAfter, Undo, Step, CoreStep, Request;
    AfterNext(Begin(c0), es, Iterate);
    DebuggerRefinesFullCopies(c0, es);
    StepTakenApart(After(Begin(c0), es).m);
  }

  // ----- step n -----

  /** The cycle at which `step n` from `cycle` stops by itself; none when the target is the "no target" mark. */
  function StepStop(cycle: nat, n: U64): Option<nat> {
    if cycle + n < 0xFFFF_FFFF_FFFF_FFFF then Some(cycle + n)
    else if cycle + n == 0xFFFF_FFFF_FFFF_FFFF then None
    else Some(cycle + 1)
  }

  /** What a run towards `stop` may have become after so many iterations. */
  predicate StepOutcome(c: Core, busy: bool, armed: set<Word>, start: nat, stop: Option<nat>, iterations: nat) {
    && (stop.Some? ==> c.cycle <= stop.value)
    && (busy ==> c.cycle == start + iterations && Live?(c) && (stop.Some? ==> c.cycle < stop.value))
    && (c.halted.StepDone? ==> stop.Some? && c.cycle == stop.value)
    && !c.halted.Checkpoint?
    && (!busy ==> !Live?(c) && (c.halted.Breakpoint? ==> Wrap32(c.pc - 4) in armed))
  }

  lemma StepRunIteration(r: FullCopy, start: nat, n: U64, k: nat)
    requires HasCopy(r) && r.busy && r.targetCycle == StepTarget(start, n)
    requires n >= 1 && start < NO_TARGET && StepOutcome(r.core, r.busy, r.breakpoints, start, StepStop(start, n), k)
    ensures var u := RefIterate(r);
            && StepOutcome(u.core, u.busy, u.breakpoints, start, StepStop(start, n), k + 1)
            && (u.busy ==> u.targetCycle == StepTarget(start, n))
  {
    hide CoreStep, Wrap32, StepTarget;
    CoreStepFacts(r.core);
    WrapBack(r.core.pc);
    TargetVersusStop(start, n);
  }

  lemma WrapBack(pc: Word)
    ensures Wrap32(Wrap32(pc + 4) - 4) == pc
  {
  }

  lemma TargetVersusStop(start: nat, n: U64)
    requires n >= 1 && start < NO_TARGET
    ensures StepStop(start, n).None? <==> StepTarget(start, n) == NO_TARGET
    ensures start + n < NO_TARGET ==> StepTarget(start, n) == start + n
    ensures start + n > NO_TARGET ==> StepTarget(start, n) <= start
  {
    if start + n > NO_TARGET {
      assert (start + n) % TWO_64 == start + n - TWO_64;
    }
  }

  lemma {:induction false} StepRun(r: FullCopy, n: U64, k: nat)
    requires HasCopy(r) && !r.busy && Resume(r.core).Some? && !Faulted(r.core.host)
    requires n >= 1 && r.core.cycle < NO_TARGET
    ensures var u := RefAfter(RefApply(r, StepCmd(n)), Iterations(k));
            && StepOutcome(u.core, u.busy, u.breakpoints, r.core.cycle, StepStop(r.core.cycle, n), k)
            && (u.busy ==> u.targetCycle == StepTarget(r.core.cycle, n))
  {
    hide RefIterate, Resume, StepTarget;
    var t := RefApply(r, StepCmd(n));
    ResumeFacts(r.core);
    if k > 0 {
      StepRun(r, n, k - 1);
      assert Iterations(k)[..k - 1] == Iterations(k - 1);
      var b := RefAfter(t, Iterations(k - 1));
      if b.busy {
        StepRunIteration(b, r.core.cycle, n, k - 1);
      }
    }
  }

  lemma ResumeFacts(c: Core)
    ensures Resume(c).Some? ==> Resume(c).value == c.(halted := Running)
  {
  }

  /**
   * `step n` at any prompt of any session advances exactly `n` cycles unless a breakpoint, a natural
   * halt or a divergence comes first, provided cycle + n is below 2^64 - 1; when it is not, the
   * command either never stops by itself or stops after one cycle.
   */
  lemma StepIsExact(c0: Core, es: seq<Event>, n: U64, k: nat)
    requires Live?(c0) && n >= 1
    requires var s := After(Begin(c0), es);
             Prompting(s) && Resume(s.m.core).Some? && s.m.core.cycle < 0xFFFF_FFFF_FFFF_FFFF
    ensures var start := After(Begin(c0), es).m.core.cycle;
            var u := After(Begin(c0), es + ([StepCmd(n)] + Iterations(k)));
            && StepOutcome(u.m.core, u.busy, u.m.sink.breakpoints, start, StepStop(start, n), k)
            && (u.m.core.halted.StepDone? ==> (u.m.core.cycle == start + n <==> start + n < 0xFFFF_FFFF_FFFF_FFFF))
            && (start + n < 0xFFFF_FFFF_FFFF_FFFF && k >= n ==> !u.busy)
  {
    hide After, RefAfter, Undo, CoreStep, Step, Resume, RefApply;
    var tail := [StepCmd(n)] + Iterations(k);
    DebuggerRefinesFullCopies(c0, es);
    DebuggerRefinesFullCopies(c0, es + tail);
    var r := RefAfter(RefBegin(c0), es);
    RefAfterConcat(RefBegin(c0), es, tail);
    RefAfterConcat(r, [StepCmd(n)], Iterations(k));
    RefAfterOne(r, StepCmd(n));
    StepRun(r, n, k);
  }
}
