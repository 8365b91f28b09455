/** The delta ring is indistinguishable from a ring of full copies, through every session. */
module DebuggerRefinement {
  import opened Words
  import opened Opcodes
  import opened Memory
  import opened Machine
  import opened UndoLog
  import opened Debugger

  /** A ring entry is the copy without its memory, and with the deltas that lead back one entry. */
  predicate EntryOf(e: ReplSnapshot, copy: Core) {
    e == ReplSnapshot(SnapshotOf(copy, e.core.deltas), Cursor(copy.host))
  }

  /** A ring of entries stands for a ring of copies. */
  predicate Mirrors(ring: seq<ReplSnapshot>, copies: seq<Core>) {
    && |ring| == |copies|
    && (forall i :: 0 <= i < |copies| ==> EntryOf(ring[i], copies[i]))
    && forall i :: 0 < i < |copies| ==> Undo(copies[i].mem, ring[i].core.deltas) == copies[i - 1].mem
  }

  /** What holds between the debugger and the one with full copies. */
  ghost predicate Represents(s: Session, r: FullCopy) {
    && HasRing(s.m) && HasCopy(r)
    && s.busy == r.busy && s.m.core == r.core
    && s.m.snapInterval == s.m.snapTimer == 1
    && s.m.sink.historyIndex == r.historyIndex
    && s.m.sink.targetCycle == r.targetCycle
    && s.m.sink.breakpoints == r.breakpoints
    && Mirrors(s.m.sink.ring, r.copies)
    && Undo(s.m.core.mem, s.m.deltas) == r.copies[r.historyIndex].mem
    && (!s.busy ==> s.m.deltas == [])
  }

  /** What holds of the debugger with full copies, started at `c0`. */
  ghost predicate Sound(r: FullCopy, c0: Core) {
    && HasCopy(r) && |r.copies| <= RING_CAP
    && (r.busy ==> Live?(r.core))
    && (r.core.host.Replay? <==> c0.host.Replay?)
    && (c0.host.Replay? ==> r.core.host.trace == c0.host.trace)
    && r.core.cycle == r.copies[r.historyIndex].cycle
    && CopiesSound(r.copies, c0)
  }

  ghost predicate CopiesSound(copies: seq<Core>, c0: Core) {
    && (forall i :: 0 <= i < |copies| ==> CopySound(copies[i], c0))
    && (forall i :: 0 < i < |copies| ==> copies[i].cycle == copies[i - 1].cycle + 1)
  }

  ghost predicate CopySound(copy: Core, c0: Core) {
    && Live?(copy)
    && (copy.host.Replay? <==> c0.host.Replay?)
    && (c0.host.Replay? ==> copy.host.trace == c0.host.trace)
    && c0.cycle <= copy.cycle
    && (copy.cycle == c0.cycle ==> copy == c0)
  }

  // ----- one iteration -----

  lemma CoreStepFacts(c: Core)
    requires Live?(c)
    ensures CoreStep(c).cycle == c.cycle + 1
    ensures CoreStep(c).host.Replay? <==> c.host.Replay?
    ensures c.host.Replay? ==> CoreStep(c).host.trace == c.host.trace
    ensures DecodeOp(InstrAt(c)) == OP_STORE ==> Live?(CoreStep(c))
    ensures !Soft(CoreStep(c).halted)
  {
  }

  lemma CopiesPush(copies: seq<Core>, k: nat, c: Core, c0: Core)
    requires CopiesSound(copies, c0) && k < |copies|
    requires CopySound(c, c0) && c.cycle == copies[k].cycle + 1
    ensures CopiesSound(copies[..k + 1] + [c], c0)
    ensures CopiesSound((copies[..k + 1] + [c])[1..], c0)
  {
    hide CopySound;
    var copies' := copies[..k + 1] + [c];
    assert forall i :: 0 <= i < |copies'| ==> CopySound(copies'[i], c0);
    assert forall i :: 0 < i < |copies'| ==> copies'[i].cycle == copies'[i - 1].cycle + 1;
    assert forall i :: 0 <= i < |copies'| - 1 ==> copies'[1..][i] == copies'[i + 1];
  }

  lemma IterateSound(r: FullCopy, c0: Core)
    requires Sound(r, c0) && r.busy
    ensures Sound(RefIterate(r), c0)
  {
    hide CoreStep, CopiesSound;
    CoreStepFacts(r.core);
    CaptureIsSound(r, c0);
    CopiesPush(r.copies, r.historyIndex, Fetch(r.core), c0);
    assert (r.copies[..r.historyIndex + 1] + [Fetch(r.core)])[r.historyIndex + 1] == Fetch(r.core);
  }

  lemma CaptureIsSound(r: FullCopy, c0: Core)
    requires Sound(r, c0) && r.busy
    ensures CopySound(Fetch(r.core), c0)
  {
    assert CopySound(r.copies[r.historyIndex], c0);
  }

  /** The iteration of a machine that snapshots every cycle, taken apart. */
  lemma StepTakenApart(m: Machine)
    requires HasRing(m) && m.snapInterval == m.snapTimer == 1 && Live?(m.core)
    ensures Request(m) == if m.sink.targetCycle != NO_TARGET && m.core.cycle + 1 >= m.sink.targetCycle then StepDone
                          else if m.core.pc in m.sink.breakpoints then Breakpoint else Running
    ensures Step(m).core == if Request(m).Running? then CoreStep(m.core) else Fetch(m.core).(halted := Request(m))
    ensures Step(m).snapInterval == Step(m).snapTimer == 1
    ensures !Request(m).Running? || DecodeOp(InstrAt(m.core)) != OP_STORE ==> Step(m).deltas == []
    ensures Step(m).sink == Notify(m.sink, SnapshotOf(Fetch(m.core), m.deltas), Cursor(m.core.host)).0
    ensures Undo(Step(m).core.mem, Step(m).deltas) == m.core.mem
  {
    hide Execute, Undo, LogStore;
    StepUndo(m);
    assert Wrap32(Wrap32(m.core.pc + 4) - 4) == m.core.pc;
  }

  lemma MirrorsPush(ring: seq<ReplSnapshot>, copies: seq<Core>, k: nat, e: ReplSnapshot, c: Core)
    requires Mirrors(ring, copies) && k < |copies|
    requires EntryOf(e, c) && Undo(c.mem, e.core.deltas) == copies[k].mem
    ensures Mirrors(ring[..k + 1] + [e], copies[..k + 1] + [c])
    ensures Mirrors((ring[..k + 1] + [e])[1..], (copies[..k + 1] + [c])[1..])
  {
    hide Undo;
    var ring', copies' := ring[..k + 1] + [e], copies[..k + 1] + [c];
    assert forall i :: 0 <= i < |copies'| ==> EntryOf(ring'[i], copies'[i]);
    assert forall i :: 0 < i < |copies'| ==> Undo(copies'[i].mem, ring'[i].core.deltas) == copies'[i - 1].mem;
    assert forall i :: 0 <= i < |copies'| - 1 ==> ring'[1..][i] == ring'[i + 1] && copies'[1..][i] == copies'[i + 1];
  }

  lemma IterateRepresents(s: Session, r: FullCopy, c0: Core)
    requires Represents(s, r) && Sound(r, c0) && s.busy
    ensures Represents(Apply(s, Iterate), RefIterate(r))
  {
    hide CoreStep, Step, Undo, Request, Mirrors;
    var m, k := s.m, r.historyIndex;
    StepTakenApart(m);
    CoreStepFacts(m.core);
    SameLength(m.sink.ring, r.copies);
    var f := Fetch(r.core);
    var e := ReplSnapshot(SnapshotOf(f, m.deltas), Cursor(m.core.host));
    MirrorsPush(m.sink.ring, r.copies, k, e, f);
    assert (r.copies[..k + 1] + [f])[k + 1] == f;
  }

  lemma SameLength(ring: seq<ReplSnapshot>, copies: seq<Core>)
    requires Mirrors(ring, copies)
    ensures |ring| == |copies|
  {
  }

  // ----- rewinding -----

  lemma {:induction false} UndoRingLeadsBack(s: Session, r: FullCopy, from: nat, to: nat)
    requires Represents(s, r) && to <= from < |r.copies|
    ensures UndoRing(r.copies[from].mem, s.m.sink.ring, from, to) == r.copies[to].mem
    decreases from
  {
    hide Undo;
    if from > to {
      UndoRingLeadsBack(s, r, from - 1, to);
    }
  }

  lemma RewindRepresents(s: Session, r: FullCopy, c0: Core, n: nat)
    requires Represents(s, r) && Sound(r, c0) && Prompting(s) && n <= r.historyIndex
    ensures Represents(s.(m := Rewind(s.m, n)), RefRewind(r, n))
    ensures Sound(RefRewind(r, n), c0)
  {
    hide UndoRing;
    var from, to := r.historyIndex, r.historyIndex - n;
    assert s.m.core.mem == r.copies[from].mem;
    UndoRingLeadsBack(s, r, from, to);
    assert EntryOf(s.m.sink.ring[to], r.copies[to]);
    assert CopySound(r.copies[to], c0);
    assert Rewind(s.m, n).core == RefRewind(r, n).core;
  }

  // ----- sessions -----

  lemma {:induction false} ApplyRepresents(s: Session, r: FullCopy, c0: Core, e: Event)
    requires Represents(s, r) && Sound(r, c0)
    ensures Represents(Apply(s, e), RefApply(r, e))
    ensures Sound(RefApply(r, e), c0)
  {
    hide Step, CoreStep, RefIterate, Undo, Rewind, RefRewind;
    match e
    case Iterate =>
      if s.busy {
        IterateRepresents(s, r, c0);
        IterateSound(r, c0);
      }
    case BackCmd(n) =>
      if Prompting(s) && n <= r.historyIndex {
        RewindRepresents(s, r, c0, n);
      }
    case _ =>
  }

  /** At every point of every session the debugger shows what the one with full copies shows. */
  lemma {:induction false} DebuggerRefinesFullCopies(c0: Core, es: seq<Event>)
    requires Live?(c0)
    ensures Represents(After(Begin(c0), es), RefAfter(RefBegin(c0), es))
    ensures Sound(RefAfter(RefBegin(c0), es), c0)
  {
    hide Apply, RefApply, Undo;
    if es == [] {
      UndoOfEmpty(c0.mem);
    } else {
      var front := es[..|es| - 1];
      DebuggerRefinesFullCopies(c0, front);
      ApplyRepresents(After(Begin(c0), front), RefAfter(RefBegin(c0), front), c0, es[|es| - 1]);
    }
  }

  /**
   * Time travel: at any prompt, `back n` within the ring restores all memory, the registers, pc, sp,
   * flags, cycle count and replay cursor of the moment that ring entry was captured, `n` cycles ago; live
   * inputs already read stay read.
   */
  lemma TimeTravelIsExact(c0: Core, es: seq<Event>, n: U64)
    requires Live?(c0)
    requires var s := After(Begin(c0), es); Prompting(s) && 1 <= n <= s.m.sink.historyIndex
    ensures var s, r := After(Begin(c0), es), RefAfter(RefBegin(c0), es);
            var s' := Apply(s, BackCmd(n));
            && 1 <= n <= r.historyIndex < |r.copies|
            && var copy := r.copies[r.historyIndex - n];
            && s'.m.core == copy.(host := s'.m.core.host)
            && (c0.host.Replay? ==> s'.m.core == copy)
            && (c0.host.Live? ==> s'.m.core.host == s.m.core.host)
            && s'.m.core.cycle == s.m.core.cycle - n
            && s'.m.deltas == [] && Prompting(s')
  {
    hide Apply, RefIterate, Mirrors, Undo, After, RefAfter;
    var s, r := After(Begin(c0), es), RefAfter(RefBegin(c0), es);
    DebuggerRefinesFullCopies(c0, es);
    ApplyRepresents(s, r, c0, BackCmd(n));
    assert CopySound(r.copies[r.historyIndex - n], c0);
    CopyCycles(r, c0, r.historyIndex - n, r.historyIndex);
  }

  lemma {:induction false} CopyCycles(r: FullCopy, c0: Core, i: nat, j: nat)
    requires Sound(r, c0) && i <= j < |r.copies|
    ensures r.copies[j].cycle == r.copies[i].cycle + (j - i)
    decreases j
  {
    if i < j {
      CopyCycles(r, c0, i, j - 1);
    }
  }

  /** The ring of every session: its bounds, the drained log at each prompt, one cycle between entries. */
  lemma RingInvariant(c0: Core, es: seq<Event>)
    requires Live?(c0)
    ensures var s := After(Begin(c0), es);
            var sink := s.m.sink;
            && 1 <= |sink.ring| <= 256 && sink.historyIndex < |sink.ring|
            && s.m.snapInterval == s.m.snapTimer == 1
            && (!s.busy ==> s.m.deltas == [])
            && s.m.core.cycle == sink.ring[sink.historyIndex].core.cycle
            && (forall i :: 0 <= i < |sink.ring| ==> sink.ring[i].core.halted == Running)
            && (forall i, j :: 0 <= i <= j < |sink.ring| ==>
                                 sink.ring[j].core.cycle == sink.ring[i].core.cycle + (j - i))
  {
    hide After, RefAfter, Undo;
    var s, r := After(Begin(c0), es), RefAfter(RefBegin(c0), es);
    DebuggerRefinesFullCopies(c0, es);
    forall i | 0 <= i < |s.m.sink.ring|
      ensures s.m.sink.ring[i].core.halted == Running && s.m.sink.ring[i].core.cycle == r.copies[i].cycle
    {
      assert EntryOf(s.m.sink.ring[i], r.copies[i]) && CopySound(r.copies[i], c0);
    }
    forall i, j | 0 <= i <= j < |s.m.sink.ring|
      ensures s.m.sink.ring[j].core.cycle == s.m.sink.ring[i].core.cycle + (j - i)
    {
      CopyCycles(r, c0, i, j);
    }
  }
}
