/** How far back a session can go, and what its other commands accept and refuse. */
module History {
  import opened Words
  import opened Opcodes
  import opened Memory
  import opened Machine
  import opened Debugger
  import opened DebuggerRefinement
  import opened DebuggerLaws

  // ----- how far back -----

  /** The cycles that can be undone when `n` have been captured after the oldest entry. */
  function AtMost255(n: nat): nat {
    if n < 255 then n else 255
  }

  /**
   * Every iteration makes one more cycle reachable, up to 255, because the ring keeps 256 entries; an
   * accepted `back n` spends n of them; nothing else changes their number.
   */
  lemma DepthNext(c0: Core, es: seq<Event>, e: Event)
    requires Live?(c0)
    ensures var s, s' := After(Begin(c0), es), After(Begin(c0), es + [e]);
            var h := s.m.sink.historyIndex;
            s'.m.sink.historyIndex ==
            if e.Iterate? then if s.busy then AtMost255(h + 1) else h
            else if e.BackCmd? && Prompting(s) && e.n <= h then h - e.n
            else h
  {
    hide After, Step, Undo, RefAfter;
    AfterNext(Begin(c0), es, e);
    RingInvariant(c0, es);
    if e.Iterate? && After(Begin(c0), es).busy {
      StepOfSession(c0, es);
    }
  }

  lemma StepOfSession(c0: Core, es: seq<Event>)
    requires Live?(c0) && After(Begin(c0), es).busy
    ensures var m := After(Begin(c0), es).m;
            && Step(m).core.cycle == m.core.cycle + 1
            && Step(m).sink == Notify(m.sink, SnapshotOf(Fetch(m.core), m.deltas), Cursor(m.core.host)).0
  {
    hide After, Step, Undo, RefAfter, Notify, CoreStep, Request;
    var m := After(Begin(c0), es).m;
    DebuggerRefinesFullCopies(c0, es);
    StepTakenApart(m);
    CoreStepFacts(m.core);
  }

  lemma {:induction false} DepthOfRun(c0: Core, es: seq<Event>, k: nat)
    requires Live?(c0) && forall i :: 0 <= i < k ==> After(Begin(c0), es + Iterations(i)).busy
    ensures var s, u := After(Begin(c0), es), After(Begin(c0), es + Iterations(k));
            && u.m.sink.historyIndex == AtMost255(s.m.sink.historyIndex + k)
            && u.m.core.cycle == s.m.core.cycle + k
  {
    hide After, Step;
    RingInvariant(c0, es);
    if k == 0 {
      assert es + Iterations(0) == es;
    } else {
      var front := es + Iterations(k - 1);
      DepthOfRun(c0, es, k - 1);
      assert es + Iterations(k) == front + [Iterate];
      assert After(Begin(c0), front).busy;
      DepthNext(c0, front, Iterate);
      StepOfSession(c0, front);
      AfterNext(Begin(c0), front, Iterate);
    }
  }

  /**
   * After a run of `k` iterations from a state in which `h` cycles could be undone, exactly the last
   * min(h + k, 255) can: `back n` goes back n cycles for each such n, and otherwise changes nothing.
   */
  lemma BackReaches(c0: Core, es: seq<Event>, k: nat, n: U64)
    requires Live?(c0) && forall i :: 0 <= i < k ==> After(Begin(c0), es + Iterations(i)).busy
    requires Prompting(After(Begin(c0), es + Iterations(k)))
    ensures var s, u := After(Begin(c0), es), After(Begin(c0), es + Iterations(k));
            var reach := AtMost255(s.m.sink.historyIndex + k);
            var back := Apply(u, BackCmd(n));
            && u.m.core.cycle == s.m.core.cycle + k
            && (1 <= n <= reach ==> back.m.core.cycle == u.m.core.cycle - n && back.m.sink.historyIndex == reach - n)
            && (n == 0 || n > reach ==> back == u)
  {
    hide After, Apply;
    DepthOfRun(c0, es, k);
    BackOrRefused(c0, es + Iterations(k), n);
  }

  lemma BackOrRefused(c0: Core, es: seq<Event>, n: U64)
    requires Live?(c0) && Prompting(After(Begin(c0), es))
    ensures var u := After(Begin(c0), es);
            var h, back := u.m.sink.historyIndex, Apply(u, BackCmd(n));
            && (1 <= n <= h ==> back.m.core.cycle == u.m.core.cycle - n && back.m.sink.historyIndex == h - n)
            && (n == 0 || n > h ==> back == u)
  {
    hide After, RefAfter, Rewind;
    var u := After(Begin(c0), es);
    AfterNext(Begin(c0), es, BackCmd(n));
    DepthNext(c0, es, BackCmd(n));
    if 1 <= n <= u.m.sink.historyIndex {
      TimeTravelIsExact(c0, es, n);
    }
  }

  // ----- what is accepted -----

  /**
   * A command starts a run exactly at a prompt whose halt reason is none, a breakpoint, a finished step or
   * a checkpoint, `step 0` excepted; otherwise it changes nothing.
   */
  lemma StartsIff(s: Session, n: U64)
    requires HasRing(s.m) && !s.busy
    ensures var resumable := Prompting(s) && s.m.core.halted in {Running, Breakpoint, StepDone, Checkpoint};
            && (Apply(s, ContinueCmd).busy <==> resumable)
            && (Apply(s, StepCmd(n)).busy <==> resumable && n != 0)
            && (!resumable ==> Apply(s, ContinueCmd) == s)
            && (!resumable || n == 0 ==> Apply(s, StepCmd(n)) == s)
  {
  }

  /** `breakpoint -d addr` disarms exactly the pc that `breakpoint addr` arms, and changes nothing else. */
  lemma DisarmedBy(s: Session, addr: U64, pc: Word)
    requires HasRing(s.m) && Prompting(s)
    ensures var s' := Apply(s, DeleteBreakpoint(addr));
            && (pc in s'.m.sink.breakpoints <==>
                pc in s.m.sink.breakpoints && !(pc < 0x10_0000 && pc % 4 == 0 && pc <= addr % 0x10_0000 < pc + 4))
            && s' == s.(m := s.m.(sink := s.m.sink.(breakpoints := s'.m.sink.breakpoints)))
  {
  }
}
