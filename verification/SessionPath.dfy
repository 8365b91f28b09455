/** The path a session takes through the program: which fetched instructions were executed. */
module SessionPath {
  import opened Opcodes
  import opened Machine
  import opened Debugger
  import opened DebuggerRefinement

  /** A core with a soft halt cleared. */
  function Awake(c: Core): Core {
    if Soft(c.halted) then c.(halted := Running) else c
  }

  /** An uninterrupted run in which the iterations marked `true` fetch their instruction but do not execute it. */
  function SkipRun(c: Core, skips: seq<bool>): Core {
    if skips == [] then c
    else
      var b := SkipRun(c, skips[..|skips| - 1]);
      if !Live?(b) then b else if skips[|skips| - 1] then Fetch(b) else CoreStep(b)
  }

  /** The path to the capture made in iteration `i`: the instruction fetched there is not executed. */
  function Cut(skips: seq<bool>, i: nat): seq<bool>
    requires i <= |skips|
  {
    if i == 0 then [] else skips[..i - 1] + [true]
  }

  /** The path of a session: one mark an iteration, set at each soft halt; `back` cuts it. */
  function PathNext(r: FullCopy, skips: seq<bool>, e: Event): seq<bool> {
    if e.Iterate? && r.busy then skips + [!SoftHalt(r).Running?]
    else if e.BackCmd? && !r.busy && !Faulted(r.core.host) && 1 <= e.n <= r.historyIndex && e.n <= |skips|
    then Cut(skips, |skips| - e.n)
    else skips
  }

  function Path(r: FullCopy, es: seq<Event>): seq<bool>
    requires HasCopy(r)
  {
    if es == [] then []
    else PathNext(RefAfter(r, es[..|es| - 1]), Path(r, es[..|es| - 1]), es[|es| - 1])
  }

  ghost predicate OnPath(r: FullCopy, c0: Core, skips: seq<bool>) {
    && HasCopy(r)
    && r.core.cycle == c0.cycle + |skips|
    && Awake(r.core) == SkipRun(c0, skips)
    && forall j :: 0 <= j <= r.historyIndex ==> CopyOnPath(r.copies[j], c0, skips)
  }

  ghost predicate CopyOnPath(copy: Core, c0: Core, skips: seq<bool>) {
    && c0.cycle <= copy.cycle <= c0.cycle + |skips|
    && copy == SkipRun(c0, Cut(skips, copy.cycle - c0.cycle))
  }

  lemma SkipRunNext(c: Core, skips: seq<bool>, skip: bool)
    ensures SkipRun(c, skips + [skip]) ==
            var b := SkipRun(c, skips); if !Live?(b) then b else if skip then Fetch(b) else CoreStep(b)
  {
    hide CoreStep;
    assert (skips + [skip])[..|skips|] == skips;
  }

  lemma CutOfLonger(skips: seq<bool>, skip: bool, i: nat)
    requires i <= |skips|
    ensures Cut(skips + [skip], i) == Cut(skips, i)
  {
    if i > 0 {
      assert (skips + [skip])[..i - 1] == skips[..i - 1];
    }
  }

  lemma CutOfCut(skips: seq<bool>, i: nat, k: nat)
    requires i <= k <= |skips|
    ensures |Cut(skips, k)| == k && Cut(Cut(skips, k), i) == Cut(skips, i)
  {
    if i > 0 {
      assert Cut(skips, k)[..i - 1] == skips[..i - 1];
    }
  }

  lemma CutAtEnd(skips: seq<bool>, skip: bool)
    ensures Cut(skips + [skip], |skips| + 1) == skips + [true]
  {
  }

  lemma CopyStaysOnPath(copy: Core, c0: Core, skips: seq<bool>, skip: bool)
    requires CopyOnPath(copy, c0, skips)
    ensures CopyOnPath(copy, c0, skips + [skip])
  {
    hide SkipRun;
    CutOfLonger(skips, skip, copy.cycle - c0.cycle);
  }

  lemma CaptureOnPath(c: Core, c0: Core, skips: seq<bool>, skip: bool)
    requires Live?(c) && c == SkipRun(c0, skips) && c.cycle == c0.cycle + |skips|
    ensures CopyOnPath(Fetch(c), c0, skips + [skip])
  {
    hide CoreStep;
    CutAtEnd(skips, skip);
    SkipRunNext(c0, skips, true);
  }

  lemma IterateOnPath(r: FullCopy, c0: Core, skips: seq<bool>)
    requires Sound(r, c0) && OnPath(r, c0, skips) && r.busy
    ensures OnPath(RefIterate(r), c0, skips + [!SoftHalt(r).Running?])
  {
    hide CoreStep, SkipRun, Cut, CopyOnPath;
    var skip := !SoftHalt(r).Running?;
    var f := Fetch(r.core);
    CoreStepFacts(r.core);
    SkipRunNext(c0, skips, skip);
    forall j | 0 <= j <= r.historyIndex ensures CopyOnPath(r.copies[j], c0, skips + [skip]) {
      CopyStaysOnPath(r.copies[j], c0, skips, skip);
    }
    CaptureOnPath(r.core, c0, skips, skip);
    var copies := r.copies[..r.historyIndex + 1] + [f];
    assert RefIterate(r).copies == if |copies| > RING_CAP then copies[1..] else copies;
    assert forall j :: 0 <= j < |copies| ==> CopyOnPath(copies[j], c0, skips + [skip]);
  }

  lemma RewindOnPath(r: FullCopy, c0: Core, skips: seq<bool>, n: nat)
    requires Sound(r, c0) && OnPath(r, c0, skips) && !r.busy && c0.host.Replay?
    requires 1 <= n <= r.historyIndex
    ensures n <= |skips| && OnPath(RefRewind(r, n), c0, Cut(skips, |skips| - n))
  {
    hide CoreStep, SkipRun, Cut;
    var to := r.historyIndex - n;
    CopyCycles(r, c0, to, r.historyIndex);
    assert CopySound(r.copies[to], c0);
    var k := |skips| - n;
    CutOfCut(skips, k, k);
    forall j | 0 <= j <= to ensures CopyOnPath(r.copies[j], c0, Cut(skips, k)) {
      CopyCycles(r, c0, j, to);
      assert CopyOnPath(r.copies[j], c0, skips);
      CutOfCut(skips, r.copies[j].cycle - c0.cycle, k);
    }
  }

  lemma ApplyOnPath(r: FullCopy, c0: Core, skips: seq<bool>, e: Event)
    requires Sound(r, c0) && OnPath(r, c0, skips) && (c0.host.Replay? || !e.BackCmd?)
    ensures OnPath(RefApply(r, e), c0, PathNext(r, skips, e))
  {
    hide RefIterate, RefRewind, SkipRun, CopyOnPath, Cut;
    match e
    case Iterate =>
      if r.busy {
        IterateOnPath(r, c0, skips);
      }
    case BackCmd(n) =>
      if !r.busy && 1 <= n <= r.historyIndex {
        RewindOnPath(r, c0, skips, n);
      }
    case _ =>
  }

  lemma {:induction false} SessionStaysOnPath(c0: Core, es: seq<Event>)
    requires Live?(c0) && (c0.host.Replay? || forall e :: e in es ==> !e.BackCmd?)
    ensures Sound(RefAfter(RefBegin(c0), es), c0)
    ensures OnPath(RefAfter(RefBegin(c0), es), c0, Path(RefBegin(c0), es))
  {
    hide RefApply, PathNext, Sound;
    DebuggerRefinesFullCopies(c0, es);
    if es != [] {
      var front, e := es[..|es| - 1], es[|es| - 1];
      assert e in es;
      SessionStaysOnPath(c0, front);
      ApplyOnPath(RefAfter(RefBegin(c0), front), c0, Path(RefBegin(c0), front), e);
    }
  }

  lemma {:induction false} SkipRunWithoutSkips(c: Core, skips: seq<bool>)
    ensures (forall i :: 0 <= i < |skips| ==> !skips[i]) ==> SkipRun(c, skips) == CoreRun(c, |skips|)
  {
    hide CoreStep;
    if skips != [] {
      SkipRunWithoutSkips(c, skips[..|skips| - 1]);
      CoreRunNext(c, |skips| - 1);
    }
  }
}
