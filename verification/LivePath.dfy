/**
 * The path of a session with live inputs.  Inputs drawn on a stretch that `back` abandons are gone, so
 * the state is that of a run fed only with the inputs drawn on the surviving path.
 */
module LivePath {
  import opened Words
  import opened Opcodes
  import opened Machine
  import opened RecordReplay
  import opened Debugger
  import opened DebuggerRefinement
  import opened SessionPath

  /** `c` with the oracle `f` in place of its host. */
  function Fed(c: Core, f: nat -> Word): Core {
    c.(host := Live(f, []))
  }

  ghost predicate CopyOnLivePath(copy: Core, c0: Core, skips: seq<bool>, f: nat -> Word) {
    && c0.cycle <= copy.cycle <= c0.cycle + |skips|
    && SameState(copy, SkipRun(Fed(c0, f), Cut(skips, copy.cycle - c0.cycle)))
  }

  /**
   * The events of the fed run `x` are, in order, those events of the session at `c` that `back` has not
   * abandoned, at the places `kept` of the session's log, and its inputs are the ones drawn there.
   */
  ghost predicate Surviving(kept: seq<nat>, x: Core, c: Core, c0: Core) {
    && x.host.Live? && c.host.Live? && c0.host.Live?
    && c.host.inputs == c0.host.inputs && |c0.host.log| <= |c.host.log|
    && |kept| == |x.host.log|
    && (forall i :: 0 <= i < |kept| ==>
                      && |c0.host.log| <= kept[i] < |c.host.log|
                      && x.host.log[i] == c.host.log[kept[i]]
                      && x.host.inputs(i) == c0.host.inputs(kept[i]))
    && forall i, j :: 0 <= i < j < |kept| ==> kept[i] < kept[j]
  }

  ghost predicate OnLivePath(r: FullCopy, c0: Core, skips: seq<bool>, f: nat -> Word, kept: seq<nat>) {
    && HasCopy(r)
    && r.core.cycle == c0.cycle + |skips|
    && SameState(Awake(r.core), SkipRun(Fed(c0, f), skips))
    && Surviving(kept, SkipRun(Fed(c0, f), skips), r.core, c0)
    && forall j :: 0 <= j <= r.historyIndex ==> CopyOnLivePath(r.copies[j], c0, skips, f)
  }

  // ----- runs fed with an oracle -----

  lemma {:induction false} SkipRunHost(c0: Core, f: nat -> Word, skips: seq<bool>)
    ensures SkipRun(Fed(c0, f), skips).host.Live? && SkipRun(Fed(c0, f), skips).host.inputs == f
    ensures forall i :: 0 <= i <= |skips| ==>
                          && SkipRun(Fed(c0, f), skips[..i]).host.Live?
                          && SkipRun(Fed(c0, f), skips[..i]).host.log <= SkipRun(Fed(c0, f), skips).host.log
  {
    hide CoreStep;
    if skips == [] {
      assert skips[..0] == [];
    } else {
      var front := skips[..|skips| - 1];
      SkipRunHost(c0, f, front);
      RecordStep(SkipRun(Fed(c0, f), front));
      forall i | 0 <= i <= |skips|
        ensures SkipRun(Fed(c0, f), skips[..i]).host.Live?
        ensures SkipRun(Fed(c0, f), skips[..i]).host.log <= SkipRun(Fed(c0, f), skips).host.log
      {
        assert skips[..i] == if i == |skips| then skips else front[..i];
        assert front[..|front|] == front;
      }
    }
  }

  /** The path to a capture has the events of a first part of the whole path. */
  lemma CutDrawsLess(c0: Core, f: nat -> Word, skips: seq<bool>, i: nat)
    requires i <= |skips|
    ensures SkipRun(Fed(c0, f), Cut(skips, i)).host.Live? && SkipRun(Fed(c0, f), skips).host.Live?
    ensures SkipRun(Fed(c0, f), Cut(skips, i)).host.log <= SkipRun(Fed(c0, f), skips).host.log
  {
    hide CoreStep, SkipRun;
    SkipRunHost(c0, f, skips);
    if i > 0 {
      SkipRunNext(Fed(c0, f), skips[..i - 1], true);
    } else {
      assert skips[..0] == [];
    }
  }

  /** Only the inputs drawn matter. */
  lemma {:induction false} SkipInputsAgree(c0: Core, f: nat -> Word, g: nat -> Word, skips: seq<bool>)
    requires SkipRun(Fed(c0, f), skips).host.Live?
    requires forall i :: 0 <= i < |SkipRun(Fed(c0, f), skips).host.log| ==> f(i) == g(i)
    ensures SkipRun(Fed(c0, g), skips) ==
            SkipRun(Fed(c0, f), skips).(host := Live(g, SkipRun(Fed(c0, f), skips).host.log))
  {
    hide CoreStep;
    if skips != [] {
      var front := skips[..|skips| - 1];
      SkipRunHost(c0, f, front);
      var b := SkipRun(Fed(c0, f), front);
      RecordStep(b);
      SkipInputsAgree(c0, f, g, front);
      if Live?(b) && !skips[|skips| - 1] {
        var k := |b.host.log|;
        if IsEventOp(OpAt(b)) {
          assert |SkipRun(Fed(c0, f), skips).host.log| == k + 1;
          assert f(k) == g(k);
        }
        StepWithHost(b, Live(g, b.host.log));
      }
    }
  }

  function Override(f: nat -> Word, k: nat, v: Word): nat -> Word {
    (i: nat) => if i == k then v else f(i)
  }

  /** Changing an input not yet drawn changes neither the path's state nor any capture on it. */
  lemma OverrideKeepsCopy(copy: Core, c0: Core, skips: seq<bool>, f: nat -> Word, k: nat, v: Word)
    requires CopyOnLivePath(copy, c0, skips, f)
    requires SkipRun(Fed(c0, f), skips).host.Live? && |SkipRun(Fed(c0, f), skips).host.log| <= k
    ensures CopyOnLivePath(copy, c0, skips, Override(f, k, v))
  {
    hide SkipRun, Cut, CoreStep;
    var i := copy.cycle - c0.cycle;
    CutDrawsLess(c0, f, skips, i);
    SkipInputsAgree(c0, f, Override(f, k, v), Cut(skips, i));
  }

  /** Cores that differ only in their live hosts step alike if those hosts answer alike. */
  lemma StepAlike(c: Core, x: Core)
    requires SameState(c, x) && c.host.Live? && x.host.Live?
    requires IsEventOp(OpAt(c)) ==> c.host.inputs(|c.host.log|) == x.host.inputs(|x.host.log|)
    ensures SameState(CoreStep(c), CoreStep(x))
  {
    hide CoreStep;
    StepWithHost(x, c.host);
    assert x.(host := c.host) == c;
  }

  // ----- sessions -----

  lemma LiveCopyStays(copy: Core, c0: Core, skips: seq<bool>, skip: bool, f: nat -> Word)
    requires CopyOnLivePath(copy, c0, skips, f)
    ensures CopyOnLivePath(copy, c0, skips + [skip], f)
  {
    hide SkipRun;
    CutOfLonger(skips, skip, copy.cycle - c0.cycle);
  }

  lemma LiveCapture(c: Core, c0: Core, skips: seq<bool>, skip: bool, f: nat -> Word)
    requires Live?(c) && SameState(c, SkipRun(Fed(c0, f), skips)) && c.cycle == c0.cycle + |skips|
    ensures CopyOnLivePath(Fetch(c), c0, skips + [skip], f)
  {
    hide CoreStep, SkipRun;
    CutAtEnd(skips, skip);
    SkipRunHost(c0, f, skips);
    SkipRunNext(Fed(c0, f), skips, true);
  }

  /** The core of an iteration follows the path extended by its mark, if the oracle answers as the host does. */
  lemma LiveCoreFollows(r: FullCopy, c0: Core, skips: seq<bool>, f: nat -> Word)
    requires HasCopy(r) && Live?(r.core) && r.core.host.Live?
    requires SameState(r.core, SkipRun(Fed(c0, f), skips))
    requires SkipRun(Fed(c0, f), skips).host.Live?
    requires SoftHalt(r).Running? && IsEventOp(OpAt(r.core)) ==>
               r.core.host.inputs(|r.core.host.log|) == f(|SkipRun(Fed(c0, f), skips).host.log|)
    ensures SameState(Awake(RefIterate(r).core), SkipRun(Fed(c0, f), skips + [!SoftHalt(r).Running?]))
  {
    hide CoreStep, SkipRun;
    var x := SkipRun(Fed(c0, f), skips);
    SkipRunHost(c0, f, skips);
    SkipRunNext(Fed(c0, f), skips, !SoftHalt(r).Running?);
    CoreStepFacts(r.core);
    if SoftHalt(r).Running? {
      StepAlike(r.core, x);
    }
  }

  /** Answering the next event as the host will leaves the surviving events as they are. */
  lemma SurvivingUnderOverride(kept: seq<nat>, x: Core, c: Core, c0: Core, v: Word)
    requires Surviving(kept, x, c, c0)
    ensures Surviving(kept, x.(host := Live(Override(x.host.inputs, |kept|, v), x.host.log)), c, c0)
  {
  }

  /** Both runs draw the event `e`. */
  lemma SurvivingEvent(kept: seq<nat>, x: Core, x': Core, c: Core, c': Core, c0: Core, e: Frame)
    requires Surviving(kept, x, c, c0)
    requires x'.host == Live(x.host.inputs, x.host.log + [e]) && c'.host == Live(c.host.inputs, c.host.log + [e])
    requires x.host.inputs(|x.host.log|) == c.host.inputs(|c.host.log|)
    ensures Surviving(kept + [|c.host.log|], x', c', c0)
  {
  }

  lemma EventAlike(c: Core, x: Core)
    requires SameState(c, x) && c.host.Live? && x.host.Live?
    requires IsEventOp(OpAt(c)) ==> c.host.inputs(|c.host.log|) == x.host.inputs(|x.host.log|)
    ensures EventOf(c) == EventOf(x)
  {
    assert InstrAt(c) == InstrAt(x);
  }

  /** A step of both runs from the same state, answered alike, adds the session's event if there is one. */
  lemma SurvivingStep(kept: seq<nat>, x: Core, c: Core, c0: Core) returns (kept': seq<nat>)
    requires Surviving(kept, x, c, c0) && SameState(c, x)
    requires IsEventOp(OpAt(c)) ==> c.host.inputs(|c.host.log|) == x.host.inputs(|x.host.log|)
    ensures Surviving(kept', CoreStep(x), CoreStep(c), c0)
  {
    hide CoreStep, Surviving, SameState, OpAt;
    SurvivingLength(kept, x, c, c0);
    RecordStep(x);
    RecordStep(c);
    EventAlike(c, x);
    if IsEventOp(OpAt(c)) {
      SurvivingEvent(kept, x, CoreStep(x), c, CoreStep(c), c0, EventOf(c)[0]);
      kept' := kept + [|c.host.log|];
    } else {
      assert x.host.log + [] == x.host.log && c.host.log + [] == c.host.log;
      SurvivingHosts(kept, x, CoreStep(x), c, CoreStep(c), c0);
      kept' := kept;
    }
  }

  lemma SurvivingHosts(kept: seq<nat>, x: Core, x': Core, c: Core, c': Core, c0: Core)
    requires Surviving(kept, x, c, c0) && x'.host == x.host && c'.host == c.host
    ensures Surviving(kept, x', c', c0)
  {
  }

  lemma SurvivingIteration(r: FullCopy, c0: Core, skips: seq<bool>, g: nat -> Word, kept: seq<nat>)
    returns (kept': seq<nat>)
    requires HasCopy(r) && Live?(r.core)
    requires SameState(r.core, SkipRun(Fed(c0, g), skips))
    requires Surviving(kept, SkipRun(Fed(c0, g), skips), r.core, c0)
    requires r.core.host.inputs(|r.core.host.log|) == g(|kept|)
    ensures Surviving(kept', SkipRun(Fed(c0, g), skips + [!SoftHalt(r).Running?]), RefIterate(r).core, c0)
  {
    hide CoreStep, SkipRun;
    var x := SkipRun(Fed(c0, g), skips);
    SkipRunHost(c0, g, skips);
    SkipRunNext(Fed(c0, g), skips, !SoftHalt(r).Running?);
    kept' := kept;
    if SoftHalt(r).Running? {
      kept' := SurvivingStep(kept, x, r.core, c0);
    }
  }

  lemma IterateOnLivePath(r: FullCopy, c0: Core, skips: seq<bool>, f: nat -> Word, kept: seq<nat>)
    returns (g: nat -> Word, kept': seq<nat>)
    requires Sound(r, c0) && OnLivePath(r, c0, skips, f, kept) && r.busy && c0.host.Live?
    ensures OnLivePath(RefIterate(r), c0, skips + [!SoftHalt(r).Running?], g, kept')
  {
    hide CoreStep, SkipRun, Cut, CopyOnLivePath, Surviving;
    var skip := !SoftHalt(r).Running?;
    var v := r.core.host.inputs(|r.core.host.log|);
    SkipRunHost(c0, f, skips);
    SurvivingLength(kept, SkipRun(Fed(c0, f), skips), r.core, c0);
    g := Override(f, |kept|, v);
    SkipInputsAgree(c0, f, g, skips);
    SurvivingUnderOverride(kept, SkipRun(Fed(c0, f), skips), r.core, c0, v);
    kept' := SurvivingIteration(r, c0, skips, g, kept);
    forall j | 0 <= j <= r.historyIndex ensures CopyOnLivePath(r.copies[j], c0, skips + [skip], g) {
      OverrideKeepsCopy(r.copies[j], c0, skips, f, |kept|, v);
      LiveCopyStays(r.copies[j], c0, skips, skip, g);
    }
    LiveCapture(r.core, c0, skips, skip, g);
    LiveCoreFollows(r, c0, skips, g);
    CoreStepFacts(r.core);
    var copies := r.copies[..r.historyIndex + 1] + [Fetch(r.core)];
    assert RefIterate(r).copies == if |copies| > RING_CAP then copies[1..] else copies;
    assert forall j :: 0 <= j < |copies| ==> CopyOnLivePath(copies[j], c0, skips + [skip], g);
  }

  lemma SurvivingLength(kept: seq<nat>, x: Core, c: Core, c0: Core)
    requires Surviving(kept, x, c, c0)
    ensures x.host.Live? && c.host.Live? && |kept| == |x.host.log|
  {
  }

  /** Cutting the path keeps the events up to the cut. */
  lemma SurvivingCut(kept: seq<nat>, x: Core, y: Core, c: Core, c0: Core) returns (kept': seq<nat>)
    requires Surviving(kept, x, c, c0)
    requires y.host.Live? && y.host.inputs == x.host.inputs && y.host.log <= x.host.log
    ensures Surviving(kept', y, c, c0)
  {
    kept' := kept[..|y.host.log|];
  }

  lemma RewindOnLivePath(r: FullCopy, c0: Core, skips: seq<bool>, n: nat, f: nat -> Word, kept: seq<nat>)
    returns (kept': seq<nat>)
    requires Sound(r, c0) && OnLivePath(r, c0, skips, f, kept) && !r.busy && c0.host.Live?
    requires 1 <= n <= r.historyIndex
    ensures n <= |skips| && OnLivePath(RefRewind(r, n), c0, Cut(skips, |skips| - n), f, kept')
  {
    hide CoreStep, SkipRun, Cut, Surviving;
    var to := r.historyIndex - n;
    CopyCycles(r, c0, to, r.historyIndex);
    assert CopySound(r.copies[to], c0);
    var k := |skips| - n;
    CutOfCut(skips, k, k);
    forall j | 0 <= j <= to ensures CopyOnLivePath(r.copies[j], c0, Cut(skips, k), f) {
      CopyCycles(r, c0, j, to);
      assert CopyOnLivePath(r.copies[j], c0, skips, f);
      CutOfCut(skips, r.copies[j].cycle - c0.cycle, k);
    }
    assert CopyOnLivePath(r.copies[to], c0, Cut(skips, k), f);
    SkipRunHost(c0, f, skips);
    SkipRunHost(c0, f, Cut(skips, k));
    CutDrawsLess(c0, f, skips, k);
    kept' := SurvivingCut(kept, SkipRun(Fed(c0, f), skips), SkipRun(Fed(c0, f), Cut(skips, k)), r.core, c0);
    var y := SkipRun(Fed(c0, f), Cut(skips, k));
    SurvivingHosts(kept', y, y, r.core, RefRewind(r, n).core, c0);
  }

  lemma ApplyOnLivePath(r: FullCopy, c0: Core, skips: seq<bool>, e: Event, f: nat -> Word, kept: seq<nat>)
    returns (g: nat -> Word, kept': seq<nat>)
    requires Sound(r, c0) && OnLivePath(r, c0, skips, f, kept) && c0.host.Live?
    ensures OnLivePath(RefApply(r, e), c0, PathNext(r, skips, e), g, kept')
  {
    hide RefIterate, RefRewind, SkipRun, CopyOnLivePath, Cut, Surviving;
    g, kept' := f, kept;
    match e
    case Iterate =>
      if r.busy {
        g, kept' := IterateOnLivePath(r, c0, skips, f, kept);
      }
    case BackCmd(n) =>
      if !r.busy && 1 <= n <= r.historyIndex {
        kept' := RewindOnLivePath(r, c0, skips, n, f, kept);
      }
    case _ =>
      var x := SkipRun(Fed(c0, f), skips);
      SurvivingHosts(kept, x, x, r.core, RefApply(r, e).core, c0);
  }

  /** Every live session, `back` included, follows its path under the inputs that survive on it. */
  lemma {:induction false} SessionStaysOnLivePath(c0: Core, es: seq<Event>)
    requires Live?(c0) && c0.host.Live?
    ensures Sound(RefAfter(RefBegin(c0), es), c0)
    ensures exists f: nat -> Word, kept: seq<nat> ::
              OnLivePath(RefAfter(RefBegin(c0), es), c0, Path(RefBegin(c0), es), f, kept)
  {
    hide RefApply, PathNext, Sound, OnLivePath;
    DebuggerRefinesFullCopies(c0, es);
    if es == [] {
      LivePathBegins(c0);
      assert OnLivePath(RefAfter(RefBegin(c0), es), c0, Path(RefBegin(c0), es), c0.host.inputs, []);
    } else {
      var front, e := es[..|es| - 1], es[|es| - 1];
      SessionStaysOnLivePath(c0, front);
      var r, skips := RefAfter(RefBegin(c0), front), Path(RefBegin(c0), front);
      var f: nat -> Word, kept: seq<nat> :| OnLivePath(r, c0, skips, f, kept);
      var g, kept' := ApplyOnLivePath(r, c0, skips, e, f, kept);
      assert OnLivePath(RefAfter(RefBegin(c0), es), c0, Path(RefBegin(c0), es), g, kept');
    }
  }

  lemma LivePathBegins(c0: Core)
    requires Live?(c0) && c0.host.Live?
    ensures OnLivePath(RefBegin(c0), c0, [], c0.host.inputs, [])
  {
  }
}
