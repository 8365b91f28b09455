/**
 * What the run-length fold keeps: the log lists every STORE address in order,
 * and does so in as few entries as a cap of 255 stores an entry allows.
 */
module DeltaLog {
  import opened Opcodes
  import opened Memory

  function Repeat(a: nat, n: nat): (s: seq<nat>)
    ensures |s| == n
  {
    seq(n, i => a)
  }

  /** The store addresses a log stands for, oldest first. */
  function Expand(log: seq<MemDelta>): seq<nat> {
    if log == [] then [] else Repeat(Addr(log[0]), log[0].runCount) + Expand(log[1..])
  }

  predicate ValidLog(log: seq<MemDelta>) {
    forall i :: 0 <= i < |log| ==> ValidDelta(log[i])
  }

  /** Adjacent entries share a cell only when the earlier one is full. */
  predicate Canonical(log: seq<MemDelta>) {
    && ValidLog(log)
    && forall i :: 0 <= i < |log| - 1 && Addr(log[i]) == Addr(log[i + 1]) ==> log[i].runCount == RUN_CAP
  }

  function SumRuns(log: seq<MemDelta>): nat {
    if log == [] then 0 else log[0].runCount + SumRuns(log[1..])
  }

  /** Length of the leading run of equal addresses. */
  function Lead(s: seq<nat>): (k: nat)
    ensures k <= |s|
    ensures s != [] ==> k > 0
  {
    if |s| <= 1 then |s| else if s[0] == s[1] then 1 + Lead(s[1..]) else 1
  }

  /** The sum of ceil(run / 255) over the maximal runs of equal addresses. */
  function MinEntries(s: seq<nat>): nat
    decreases |s|
  {
    if s == [] then 0 else (Lead(s) + RUN_CAP - 1) / RUN_CAP + MinEntries(s[Lead(s)..])
  }

  lemma {:induction false} ExpandConcat(a: seq<MemDelta>, b: seq<MemDelta>)
    ensures Expand(a + b) == Expand(a) + Expand(b)
  {
    if a == [] {
      assert a + b == b;
    } else {
      assert (a + b)[1..] == a[1..] + b;
      ExpandConcat(a[1..], b);
    }
  }

  lemma {:induction false} ExpandLength(log: seq<MemDelta>)
    ensures |Expand(log)| == SumRuns(log)
  {
    if log != [] {
      ExpandLength(log[1..]);
    }
  }

  lemma ExpandOne(d: MemDelta)
    ensures Expand([d]) == Repeat(Addr(d), d.runCount)
  {
    assert [d][1..] == [];
  }

  lemma CellOfAddr(d: MemDelta, imm: nat)
    requires ValidDelta(d) && imm < IMM_LIMIT
    ensures Addr(d) == imm <==> d.page == Page(imm) && d.offset == Offset(imm)
  {
    assert Page(imm) * 4096 + Offset(imm) == imm;
  }

  /** Folding a STORE into the log appends its address to the addresses the log lists. */
  lemma FoldAppendsAddress(log: seq<MemDelta>, m: Mem, imm: nat)
    requires ValidLog(log) && imm < IMM_LIMIT
    ensures Expand(LogStore(log, m, imm)) == Expand(log) + [imm]
  {
    hide Expand, Repeat, Load32;
    var log' := LogStore(log, m, imm);
    var n := |log|;
    if |log'| == n {
      var front := log[..n - 1];
      var last, last' := log[n - 1], log'[n - 1];
      CellOfAddr(last, imm);
      assert log == front + [last];
      assert log' == front + [last'];
      ExpandConcat(front, [last]);
      ExpandConcat(front, [last']);
      ExpandOne(last);
      ExpandOne(last');
      RepeatNext(imm, last.runCount);
    } else {
      var d := log'[n];
      CellOfAddr(d, imm);
      ExpandConcat(log, [d]);
      ExpandOne(d);
      RepeatNext(imm, 0);
    }
  }

  lemma RepeatNext(a: nat, n: nat)
    ensures Repeat(a, n + 1) == Repeat(a, n) + [a]
    ensures Repeat(a, 1) == [a]
  {
  }

  /** Folding a STORE into a canonical log leaves it canonical. */
  lemma FoldKeepsCanonical(log: seq<MemDelta>, m: Mem, imm: nat)
    requires Canonical(log) && imm < IMM_LIMIT
    ensures Canonical(LogStore(log, m, imm))
  {
    var log' := LogStore(log, m, imm);
    var n := |log|;
    if n > 0 {
      CellOfAddr(log[n - 1], imm);
    }
    if |log'| == n {
      assert forall i :: 0 <= i < n ==> Addr(log'[i]) == Addr(log[i]);
    } else {
      CellOfAddr(log'[n], imm);
      assert forall i :: 0 <= i < n ==> log'[i] == log[i];
    }
  }

  lemma {:induction false} LeadOfRepeat(a: nat, r: nat, rest: seq<nat>)
    requires r > 0
    ensures Lead(Repeat(a, r) + rest) == r + if rest != [] && rest[0] == a then Lead(rest) else 0
  {
    var s := Repeat(a, r) + rest;
    if r == 1 {
      assert s[1..] == rest;
    } else {
      assert s[1..] == Repeat(a, r - 1) + rest;
      LeadOfRepeat(a, r - 1, rest);
    }
  }

  lemma MinEntriesHead(s: seq<nat>, n: nat)
    requires s != [] && Lead(s) == n
    ensures MinEntries(s) == (n + RUN_CAP - 1) / RUN_CAP + MinEntries(s[n..])
  {
    hide Lead;
  }

  lemma MinEntriesOfRepeat(a: nat, r: nat, rest: seq<nat>)
    requires r > 0
    ensures var k := if rest != [] && rest[0] == a then Lead(rest) else 0;
            && MinEntries(Repeat(a, r) + rest) == (r + k + RUN_CAP - 1) / RUN_CAP + MinEntries(rest[k..])
            && MinEntries(rest) == (k + RUN_CAP - 1) / RUN_CAP + MinEntries(rest[k..])
  {
    hide Lead, MinEntries, Repeat;
    var k := if rest != [] && rest[0] == a then Lead(rest) else 0;
    LeadOfRepeat(a, r, rest);
    var s := Repeat(a, r) + rest;
    assert s[r + k..] == rest[k..];
    MinEntriesHead(s, r + k);
    if k == 0 {
      assert rest[0..] == rest;
    } else {
      MinEntriesHead(rest, k);
    }
  }

  lemma ExpandHead(log: seq<MemDelta>)
    requires ValidLog(log) && log != []
    ensures Expand(log) != [] && Expand(log)[0] == Addr(log[0])
  {
    assert ValidDelta(log[0]);
  }

  /** A canonical log has exactly ceil(run / 255) entries for every maximal run. */
  lemma {:induction false} CanonicalLength(log: seq<MemDelta>)
    requires Canonical(log)
    ensures |log| == MinEntries(Expand(log))
  {
    if log != [] {
      var rest := log[1..];
      assert Canonical(rest) by {
        assert forall i :: 0 <= i < |rest| ==> rest[i] == log[i + 1];
      }
      CanonicalLength(rest);
      MinEntriesOfRepeat(Addr(log[0]), log[0].runCount, Expand(rest));
      if rest != [] {
        ExpandHead(rest);
        assert rest[0] == log[1];
      }
      assert ValidDelta(log[0]);
    }
  }

  /** No log whose entries hold at most 255 stores lists the same addresses in fewer entries. */
  lemma {:induction false} NoShorterLog(log: seq<MemDelta>)
    requires ValidLog(log)
    ensures |log| >= MinEntries(Expand(log))
  {
    if log != [] {
      var rest := log[1..];
      assert ValidLog(rest) by {
        assert forall i :: 0 <= i < |rest| ==> rest[i] == log[i + 1];
      }
      NoShorterLog(rest);
      assert ValidDelta(log[0]);
      MinEntriesOfRepeat(Addr(log[0]), log[0].runCount, Expand(rest));
    }
  }
}
