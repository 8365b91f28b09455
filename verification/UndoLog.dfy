/** The undo log over whole runs: inversion, conservation, canonical form, and when it is drained. */
module UndoLog {
  import opened Words
  import opened Opcodes
  import opened Memory
  import opened DeltaLog
  import opened Machine

  // ----- inversion -----

  /** The log that the iteration starting at `m` hands to its sink. */
  function Drained(m: Machine): seq<MemDelta> {
    if Due(m) then m.deltas else []
  }

  /** Everything drained in a run of `n` iterations, oldest first. */
  function Drains(m: Machine, n: nat): seq<MemDelta>
    decreases n
  {
    if n == 0 || !Live?(m.core) then [] else Drained(m) + Drains(Step(m), n - 1)
  }

  /** Memory when the log was last drained, or at the start if it never was. */
  function LastDrain(m: Machine, n: nat): Mem {
    if n == 0 then m.core.mem
    else
      var before := Run(m, n - 1);
      if Live?(before.core) && Due(before) then before.core.mem else LastDrain(m, n - 1)
  }

  lemma ExecuteUndo(m: Machine, w: Word)
    ensures Undo(Dispatch(m, w).core.mem, Dispatch(m, w).deltas) == Undo(m.core.mem, m.deltas)
  {
    hide Undo;
    UndoOfLogStore(m.core.mem, m.deltas, DecodeImm(w), m.core.regs[DecodeDst(w)]);
  }

  /** One iteration keeps what undoing the log gives, unless it drains the log first. */
  lemma StepUndo(m: Machine)
    ensures Undo(Step(m).core.mem, Step(m).deltas) == if Due(m) then m.core.mem else Undo(m.core.mem, m.deltas)
  {
    hide Dispatch;
    var a := Arrive(m);
    assert a.core.mem == m.core.mem;
    assert Undo(a.core.mem, a.deltas) == if Due(m) then m.core.mem else Undo(m.core.mem, m.deltas);
    ExecuteUndo(a, InstrAt(m.core));
  }

  /** At every state of every run, undoing the pending log gives memory as it was at the last drain. */
  lemma {:induction false} UndoGivesLastDrain(m: Machine, n: nat)
    requires m.deltas == []
    ensures Undo(Run(m, n).core.mem, Run(m, n).deltas) == LastDrain(m, n)
  {
    hide Step, Undo;
    if n == 0 {
      UndoOfEmpty(m.core.mem);
    } else {
      UndoGivesLastDrain(m, n - 1);
      RunNext(m, n - 1);
      StepUndo(Run(m, n - 1));
    }
  }

  lemma UndoOfEmpty(m: Mem)
    ensures Undo(m, []) == m
  {
  }

  /** Undoing the pending log and then every drained one leads back to where the run began. */
  lemma {:induction false} UndoEverything(m: Machine, n: nat)
    ensures Undo(Run(m, n).core.mem, Drains(m, n) + Run(m, n).deltas) == Undo(m.core.mem, m.deltas)
    decreases n
  {
    hide Step, Undo;
    if n == 0 || !Live?(m.core) {
      assert [] + m.deltas == m.deltas;
    } else {
      var s, r, d := Step(m), Run(m, n), Drained(m);
      UndoEverything(s, n - 1);
      assert Drains(m, n) + r.deltas == d + (Drains(s, n - 1) + r.deltas);
      UndoOfConcat(r.core.mem, d, Drains(s, n - 1) + r.deltas);
      StepUndo(m);
      UndoOfEmpty(Undo(s.core.mem, s.deltas));
    }
  }

  // ----- the snapshot files of one run -----

  function FlatDeltas(files: seq<Snapshot>): seq<MemDelta> {
    if files == [] then [] else FlatDeltas(files[..|files| - 1]) + files[|files| - 1].deltas
  }

  lemma StepFiles(m: Machine)
    requires m.sink.FileSink?
    ensures Step(m).sink.FileSink?
    ensures FlatDeltas(Step(m).sink.files) == FlatDeltas(m.sink.files) + Drained(m)
  {
    hide Execute;
    if Due(m) {
      var files := m.sink.files + [SnapshotOf(Fetch(m.core), m.deltas)];
      assert Step(m).sink.files == files;
      assert files[..|files| - 1] == m.sink.files;
    }
  }

  lemma {:induction false} FilesHoldDrains(m: Machine, n: nat)
    requires m.sink.FileSink?
    ensures Run(m, n).sink.FileSink?
    ensures FlatDeltas(Run(m, n).sink.files) == FlatDeltas(m.sink.files) + Drains(m, n)
    decreases n
  {
    hide Step, FlatDeltas;
    if n > 0 && Live?(m.core) {
      StepFiles(m);
      FilesHoldDrains(Step(m), n - 1);
    }
  }

  /** The deltas of the snapshot files, with the pending ones, rewind any run to its boot image. */
  lemma RewindThroughFiles(m: Machine, n: nat)
    requires m.sink == FileSink([]) && m.deltas == []
    ensures Run(m, n).sink.FileSink?
    ensures Undo(Run(m, n).core.mem, FlatDeltas(Run(m, n).sink.files) + Run(m, n).deltas) == m.core.mem
  {
    hide Step, Run, Drains;
    FilesHoldDrains(m, n);
    assert FlatDeltas([]) == [];
    assert FlatDeltas(m.sink.files) + Drains(m, n) == Drains(m, n);
    UndoEverything(m, n);
  }

  lemma {:induction false} FlatConcat(a: seq<Snapshot>, b: seq<Snapshot>)
    ensures FlatDeltas(a + b) == FlatDeltas(a) + FlatDeltas(b)
    decreases |b|
  {
    if b == [] {
      assert a + b == a;
    } else {
      assert (a + b)[..|a + b| - 1] == a + b[..|b| - 1];
      FlatConcat(a, b[..|b| - 1]);
    }
  }

  /** Iteration `i` of the run from `m` writes the next file, of the machine as it is there. */
  ghost predicate WritesFile(m: Machine, i: nat, j: nat) {
    var b := Run(m, i);
    Live?(b.core) && Due(b) && b.sink.FileSink? && |b.sink.files| == j
  }

  lemma StepAppendsFile(m: Machine)
    requires m.sink.FileSink?
    ensures Step(m).sink ==
            FileSink(m.sink.files + if Due(m) then [SnapshotOf(Fetch(m.core), m.deltas)] else [])
  {
    hide Execute;
    assert m.sink.files + [] == m.sink.files;
  }

  lemma {:induction false} FilesGrow(m: Machine, n: nat)
    requires m.sink.FileSink?
    ensures Run(m, n).sink.FileSink? && m.sink.files <= Run(m, n).sink.files
    decreases n
  {
    hide Step;
    if n > 0 && Live?(m.core) {
      StepAppendsFile(m);
      FilesGrow(Step(m), n - 1);
    }
  }

  /** Every file beyond those there at the start was written by some iteration of the run. */
  lemma {:induction false} FileHasOrigin(m: Machine, n: nat, j: nat)
    requires m.sink.FileSink? && Run(m, n).sink.FileSink? && |m.sink.files| <= j < |Run(m, n).sink.files|
    ensures exists i :: 0 <= i < n && WritesFile(m, i, j)
  {
    hide Step;
    FilesGrow(m, n - 1);
    RunNext(m, n - 1);
    var b := Run(m, n - 1);
    StepAppendsFile(b);
    if j < |b.sink.files| {
      FileHasOrigin(m, n - 1, j);
    } else {
      assert WritesFile(m, n - 1, j);
    }
  }

  /** Undoing the pending log and the files after the one iteration `i` wrote gives memory as it was then. */
  lemma RewindToIteration(m: Machine, n: nat, i: nat, j: nat)
    requires m.sink.FileSink? && i < n && WritesFile(m, i, j)
    ensures var b, r := Run(m, i), Run(m, n);
            && r.sink.FileSink? && j < |r.sink.files|
            && r.sink.files[j] == SnapshotOf(Fetch(b.core), b.deltas)
            && Undo(r.core.mem, FlatDeltas(r.sink.files[j + 1..]) + r.deltas) == b.core.mem
  {
    hide Step, Undo, FlatDeltas, Drains, SnapshotOf;
    var b := Run(m, i);
    var next := Step(b);
    RunNext(m, i);
    RunAdd(m, i + 1, n - i - 1);
    StepAppendsFile(b);
    StepUndo(b);
    FilesGrow(next, n - i - 1);
    FilesHoldDrains(next, n - i - 1);
    UndoEverything(next, n - i - 1);
    var before, after := next.sink.files, Run(m, n).sink.files;
    assert after == before + after[j + 1..];
    FlatConcat(before, after[j + 1..]);
    var d := Drains(next, n - i - 1);
    assert FlatDeltas(after[j + 1..]) == (FlatDeltas(before) + FlatDeltas(after[j + 1..]))[|FlatDeltas(before)|..]
                                      == (FlatDeltas(before) + d)[|FlatDeltas(before)|..] == d;
  }

  /**
   * Every snapshot file is a point to rewind to: undoing the pending log and the deltas of the later
   * files gives the memory of the iteration that wrote it.
   */
  lemma RewindToAnyFile(m: Machine, n: nat, j: nat)
    requires m.sink == FileSink([]) && Run(m, n).sink.FileSink? && j < |Run(m, n).sink.files|
    ensures exists i :: 0 <= i < n && WritesFile(m, i, j)
                        && Run(m, n).sink.files[j] == SnapshotOf(Fetch(Run(m, i).core), Run(m, i).deltas)
                        && Undo(Run(m, n).core.mem, FlatDeltas(Run(m, n).sink.files[j + 1..]) + Run(m, n).deltas)
                           == Run(m, i).core.mem
  {
    hide Run, Undo, FlatDeltas, SnapshotOf;
    FileHasOrigin(m, n, j);
    var i :| 0 <= i < n && WritesFile(m, i, j);
    RewindToIteration(m, n, i, j);
  }

  // ----- conservation and canonical form -----

  /** The STORE that the iteration starting at `m` executes, as a list of its address. */
  function StoreOf(m: Machine): seq<nat> {
    var w := InstrAt(m.core);
    if Request(m).Running? && DecodeOp(w) == OP_STORE then [DecodeImm(w)] else []
  }

  /** The addresses of the STOREs a run executes, in order. */
  function StoreTrace(m: Machine, n: nat): seq<nat>
    decreases n
  {
    if n == 0 || !Live?(m.core) then [] else StoreOf(m) + StoreTrace(Step(m), n - 1)
  }

  lemma StepLog(m: Machine)
    requires m.core.halted.Running? && Canonical(m.deltas)
    ensures Canonical(Step(m).deltas)
    ensures Expand(Drained(m)) + Expand(Step(m).deltas) == Expand(m.deltas) + StoreOf(m)
  {
    hide Execute, LogStore;
    var a, w := Arrive(m), InstrAt(m.core);
    assert Canonical(a.deltas);
    assert a.core.mem == m.core.mem;
    assert Expand([]) == [];
    FoldAppendsAddress(a.deltas, a.core.mem, DecodeImm(w));
    FoldKeepsCanonical(a.deltas, a.core.mem, DecodeImm(w));
    assert Step(m).deltas == if StoreOf(m) == [] then a.deltas else LogStore(a.deltas, a.core.mem, DecodeImm(w));
    assert Expand(a.deltas) + [] == Expand(a.deltas);
  }

  /** The drained logs and the pending one list exactly the STOREs executed, each once and in order. */
  lemma {:induction false} LogsListEveryStore(m: Machine, n: nat)
    requires Canonical(m.deltas)
    ensures Expand(Drains(m, n)) + Expand(Run(m, n).deltas) == Expand(m.deltas) + StoreTrace(m, n)
    decreases n
  {
    hide Step, StoreOf, Drained, Expand, Canonical;
    if n == 0 || !Live?(m.core) {
      ExpandOfEmpty();
    } else {
      var s := Step(m);
      StepLog(m);
      LogsListEveryStore(s, n - 1);
      ExpandConcat(Drained(m), Drains(s, n - 1));
      Regroup(Expand(Drained(m)), Expand(Drains(s, n - 1)), Expand(Run(s, n - 1).deltas),
              Expand(s.deltas), StoreTrace(s, n - 1), Expand(m.deltas), StoreOf(m));
    }
  }

  lemma ExpandOfEmpty()
    ensures Expand([]) == []
  {
  }

  lemma Regroup(a: seq<nat>, b: seq<nat>, c: seq<nat>, d: seq<nat>, e: seq<nat>, f: seq<nat>, g: seq<nat>)
    requires b + c == d + e && a + d == f + g
    ensures (a + b) + c == f + (g + e)
  {
    assert (a + b) + c == a + (b + c) == a + (d + e) == (a + d) + e == (f + g) + e == f + (g + e);
  }

  /** The run counts of all logs sum to the number of STOREs executed. */
  lemma StoresAreConserved(m: Machine, n: nat)
    requires m.deltas == []
    ensures SumRuns(Drains(m, n)) + SumRuns(Run(m, n).deltas) == |StoreTrace(m, n)|
  {
    hide Step, Run, Drains, StoreTrace;
    LogsListEveryStore(m, n);
    ExpandLength(Drains(m, n));
    ExpandLength(Run(m, n).deltas);
    ExpandLength(m.deltas);
  }

  /** The addresses of the STOREs executed since the log was last drained. */
  function SinceDrain(m: Machine, n: nat): seq<nat> {
    if n == 0 then []
    else
      var b := Run(m, n - 1);
      if !Live?(b.core) then SinceDrain(m, n - 1)
      else if Due(b) then StoreOf(b)
      else SinceDrain(m, n - 1) + StoreOf(b)
  }

  /**
   * The log of each interval lists exactly the STOREs executed in it, in as many entries as the sum of
   * ceil(run / 255) over the interval's runs of STOREs to one cell.
   */
  lemma {:induction false} LogListsItsInterval(m: Machine, n: nat)
    requires m.deltas == []
    ensures Expand(Run(m, n).deltas) == SinceDrain(m, n)
    ensures |Run(m, n).deltas| == MinEntries(SinceDrain(m, n))
  {
    hide Step, StoreOf, Drained, Expand, MinEntries, Canonical;
    CanonicalOfEmpty();
    LogStaysCanonical(m, n);
    if n == 0 {
      ExpandOfEmpty();
    } else {
      LogListsItsInterval(m, n - 1);
      RunNext(m, n - 1);
      LogStaysCanonical(m, n - 1);
      var b := Run(m, n - 1);
      if Live?(b.core) {
        IntervalStep(b);
      }
    }
  }

  lemma CanonicalOfEmpty()
    ensures Canonical([])
  {
  }

  lemma IntervalStep(m: Machine)
    requires m.core.halted.Running? && Canonical(m.deltas)
    ensures Expand(Step(m).deltas) == if Due(m) then StoreOf(m) else Expand(m.deltas) + StoreOf(m)
  {
    hide Step, StoreOf, Expand, Canonical;
    ExpandOfEmpty();
    StepLog(m);
    var d, e, f, g := Expand(Drained(m)), Expand(Step(m).deltas), Expand(m.deltas), StoreOf(m);
    assert d + e == f + g;
    if Due(m) {
      assert d == f;
      assert e == (d + e)[|d|..] == (f + g)[|f|..] == g;
    } else {
      assert d + e == e;
    }
  }

  /** Every log is canonical when it is drained and at every other moment. */
  lemma {:induction false} LogStaysCanonical(m: Machine, n: nat)
    requires Canonical(m.deltas)
    ensures Canonical(Run(m, n).deltas)
    ensures |Run(m, n).deltas| == MinEntries(Expand(Run(m, n).deltas))
    decreases n
  {
    hide Step, Canonical, Expand, MinEntries;
    if n == 0 || !Live?(m.core) {
      CanonicalLength(m.deltas);
    } else {
      StepLog(m);
      LogStaysCanonical(Step(m), n - 1);
    }
  }

  // ----- the snapshot schedule -----

  /** The machine with a soft halt cleared, as the debugger resumes it. */
  function Resumed(m: Machine): Machine {
    if Soft(m.core.halted) then m.(core := m.core.(halted := Running)) else m
  }

  /** `k` fetches, each soft halt on the way being resumed. */
  function Drive(m: Machine, k: nat): Machine {
    if k == 0 then m else Step(Resumed(Drive(m, k - 1)))
  }

  lemma StepTimer(m: Machine)
    ensures Step(m).snapInterval == m.snapInterval
    ensures Step(m).snapTimer ==
            if m.snapInterval == 0 then m.snapTimer
            else if Due(m) then m.snapInterval else Wrap32(m.snapTimer - 1)
  {
    hide Execute;
  }

  lemma ModNext(k: nat, n: nat)
    requires n > 0
    ensures (k + 1) % n == if k % n == n - 1 then 0 else k % n + 1
  {
    var q, r := k / n, k % n;
    assert k + 1 == n * q + (r + 1);
    if r == n - 1 {
      assert k + 1 == n * (q + 1);
      ModUnique(k + 1, n, q + 1, 0);
    } else {
      ModUnique(k + 1, n, q, r + 1);
    }
  }

  lemma ModUnique(x: nat, n: nat, q: nat, r: nat)
    requires 0 <= r < n && x == n * q + r
    ensures x % n == r
  {
    var q', r' := x / n, x % n;
    assert n * q' + r' == n * q + r;
    if q > q' {
      MulGap(n, q, q');
    } else if q < q' {
      MulGap(n, q', q);
    }
  }

  lemma MulGap(n: nat, a: nat, b: nat)
    requires a > b
    ensures n * a >= n * b + n
  {
    assert n * a == n * b + n * (a - b);
    assert n * (a - b) == n * (a - b - 1) + n;
  }

  /** With interval `n` the sink fires on every n-th fetch and on no other, whatever soft halts intervene. */
  lemma {:induction false} SnapshotSchedule(m: Machine, k: nat)
    requires m.snapInterval == m.snapTimer > 0
    ensures Drive(m, k).snapInterval == m.snapInterval
    ensures Drive(m, k).snapTimer == m.snapInterval - k % m.snapInterval
    ensures Due(Resumed(Drive(m, k))) <==> (k + 1) % m.snapInterval == 0
  {
    hide Step, Resumed, Due;
    var n := m.snapInterval;
    Schedule(k, n);
    if k > 0 {
      var before := Resumed(Drive(m, k - 1));
      SnapshotSchedule(m, k - 1);
      Schedule(k - 1, n);
      ResumedTimer(Drive(m, k - 1));
      StepTimerNext(before, n - (k - 1) % n);
    }
    ResumedTimer(Drive(m, k));
    DueTimer(Resumed(Drive(m, k)));
  }

  /** The countdown from `n` after `k` ticks, reloaded at each zero. */
  lemma Schedule(k: nat, n: nat)
    requires n > 0
    ensures 1 <= n - k % n <= n
    ensures k == 0 ==> k % n == 0
    ensures (k + 1) % n == 0 <==> n - k % n == 1
    ensures n - (k + 1) % n == if n - k % n == 1 then n else n - k % n - 1
  {
    if k == 0 {
      ModUnique(0, n, 0, 0);
    }
    ModNext(k, n);
  }

  lemma StepTimerNext(m: Machine, t: nat)
    requires m.snapInterval > 0 && m.snapTimer == t > 0
    ensures Step(m).snapInterval == m.snapInterval
    ensures Step(m).snapTimer == if t == 1 then m.snapInterval else t - 1
  {
    hide Step, Due;
    StepTimer(m);
    DueTimer(m);
  }

  lemma ResumedTimer(m: Machine)
    ensures Resumed(m).snapInterval == m.snapInterval && Resumed(m).snapTimer == m.snapTimer
  {
  }

  lemma DueTimer(m: Machine)
    requires m.snapInterval > 0 && m.snapTimer > 0
    ensures Due(m) <==> m.snapTimer == 1
  {
  }
}
