/** The 1 MiB arena and the undo log that STORE writes. */
module Memory {
  import opened Words
  import opened Opcodes

  const MEM_SIZE := 0x10_0000
  const RUN_CAP := 255

  type Mem = m: seq<Byte> | |m| == MEM_SIZE witness seq(MEM_SIZE, i => 0)

  /** The four bytes of the cell at `addr`; addresses wrap at the top of the arena. */
  function Cell(addr: nat): (c: seq<nat>)
    ensures |c| == 4
    ensures forall i :: 0 <= i < 4 ==> c[i] < MEM_SIZE
  {
    [addr % MEM_SIZE, (addr + 1) % MEM_SIZE, (addr + 2) % MEM_SIZE, (addr + 3) % MEM_SIZE]
  }

  function Load32(m: Mem, addr: nat): Word {
    var c := Cell(addr);
    Join(m[c[0]], m[c[1]], m[c[2]], m[c[3]])
  }

  function Store32(m: Mem, addr: nat, v: Word): Mem {
    var c := Cell(addr);
    m[c[0] := ByteOf(v, 0)][c[1] := ByteOf(v, 1)][c[2] := ByteOf(v, 2)][c[3] := ByteOf(v, 3)]
  }

  /** One folded burst of STOREs to a cell, with the word the cell held before it. */
  datatype MemDelta = MemDelta(runCount: nat, page: Byte, offset: nat, oldValue: Word)

  predicate ValidDelta(d: MemDelta) {
    1 <= d.runCount <= RUN_CAP && d.offset < 4096
  }

  function Addr(d: MemDelta): nat {
    d.page * 4096 + d.offset
  }

  function Page(imm: nat): Byte {
    imm / 4096 % 256
  }

  function Offset(imm: nat): nat {
    imm % 4096
  }

  function ApplyOldValue(m: Mem, d: MemDelta): Mem {
    Store32(m, Addr(d), d.oldValue)
  }

  /** What STORE to `imm` does to the log, before it writes memory. */
  function LogStore(log: seq<MemDelta>, m: Mem, imm: nat): seq<MemDelta> {
    var n := |log|;
    if n > 0 && log[n - 1].page == Page(imm) && log[n - 1].offset == Offset(imm)
       && log[n - 1].runCount < RUN_CAP
    then log[n - 1 := log[n - 1].(runCount := log[n - 1].runCount + 1)]
    else log + [MemDelta(1, Page(imm), Offset(imm), Load32(m, imm))]
  }

  /** Peels the log off memory, newest entry first. */
  function Undo(m: Mem, log: seq<MemDelta>): Mem
    decreases |log|
  {
    if log == [] then m
    else Undo(ApplyOldValue(m, log[|log| - 1]), log[..|log| - 1])
  }

  // ----- cells -----

  /** Away from the top of the arena a cell is four consecutive bytes. */
  lemma CellInside(addr: nat)
    requires addr + 3 < MEM_SIZE
    ensures Cell(addr) == [addr, addr + 1, addr + 2, addr + 3]
  {
    assert addr % MEM_SIZE == addr && (addr + 1) % MEM_SIZE == addr + 1;
    assert (addr + 2) % MEM_SIZE == addr + 2 && (addr + 3) % MEM_SIZE == addr + 3;
  }

  /** The four bytes of a cell are distinct. */
  lemma CellDistinct(addr: nat)
    ensures forall i, j :: 0 <= i < j < 4 ==> Cell(addr)[i] != Cell(addr)[j]
  {
    var a := addr % MEM_SIZE;
    assert (addr + 1) % MEM_SIZE == if a + 1 < MEM_SIZE then a + 1 else a + 1 - MEM_SIZE;
    assert (addr + 2) % MEM_SIZE == if a + 2 < MEM_SIZE then a + 2 else a + 2 - MEM_SIZE;
    assert (addr + 3) % MEM_SIZE == if a + 3 < MEM_SIZE then a + 3 else a + 3 - MEM_SIZE;
  }

  lemma StoreAt(m: Mem, addr: nat, v: Word, i: nat)
    requires i < MEM_SIZE
    ensures i !in Cell(addr) ==> Store32(m, addr, v)[i] == m[i]
    ensures forall k :: 0 <= k < 4 && Cell(addr)[k] == i ==> Store32(m, addr, v)[i] == ByteOf(v, k)
  {
    hide Cell, ByteOf;
    CellDistinct(addr);
  }

  /** The little-endian number in the four bytes from `a` on, wrapping at 2^20. */
  function WordAt(m: Mem, a: nat): nat {
    var b0: nat, b1: nat := m[a % 0x10_0000], m[(a + 1) % 0x10_0000];
    var b2: nat, b3: nat := m[(a + 2) % 0x10_0000], m[(a + 3) % 0x10_0000];
    b0 + 0x100 * b1 + 0x1_0000 * b2 + 0x100_0000 * b3
  }

  lemma LoadIs(m: Mem, a: nat)
    ensures Load32(m, a) == WordAt(m, a)
  {
  }

  /** The byte at `i` once `v` has been stored at `a`. */
  function StoredByte(m: Mem, a: nat, v: Word, i: nat): nat
    requires i < 0x10_0000
  {
    if i == a % 0x10_0000 then v % 256
    else if i == (a + 1) % 0x10_0000 then v / 256 % 256
    else if i == (a + 2) % 0x10_0000 then v / 0x1_0000 % 256
    else if i == (a + 3) % 0x10_0000 then v / 0x100_0000 % 256
    else m[i]
  }

  /** Every byte of memory after a store. */
  lemma StoreIs(m: Mem, a: nat, v: Word)
    ensures forall i :: 0 <= i < 0x10_0000 ==> Store32(m, a, v)[i] == StoredByte(m, a, v, i)
  {
    forall i | 0 <= i < 0x10_0000 ensures Store32(m, a, v)[i] == StoredByte(m, a, v, i) {
      StoreAt(m, a, v, i);
    }
  }

  /** A load after a store to the same cell sees the stored word. */
  lemma LoadOfStore(m: Mem, addr: nat, v: Word)
    ensures Load32(Store32(m, addr, v), addr) == v
  {
    hide Cell, ByteOf, Join;
    CellDistinct(addr);
    JoinOfBytes(v);
  }

  /** Only the last of two stores to a cell remains visible. */
  lemma StoreOfStore(m: Mem, addr: nat, v: Word, w: Word)
    ensures Store32(Store32(m, addr, v), addr, w) == Store32(m, addr, w)
  {
    hide Cell, ByteOf;
    CellDistinct(addr);
  }

  /** Writing back the word a cell held undoes a store to it. */
  lemma StoreOfLoad(m: Mem, addr: nat, v: Word)
    ensures Store32(Store32(m, addr, v), addr, Load32(m, addr)) == m
  {
    hide Cell, ByteOf, Join;
    CellDistinct(addr);
    var c := Cell(addr);
    BytesOfJoin(m[c[0]], m[c[1]], m[c[2]], m[c[3]]);
    var w := Load32(m, addr);
    assert forall k :: 0 <= k < 4 ==> Bytes(w)[k] == m[c[k]];
    assert forall k :: 0 <= k < 4 ==> Bytes(w)[k] == ByteOf(w, k);
  }

  // ----- the log entry -----

  /**
   * A STORE to `imm` counts one more in the newest entry if that has the same 4 KiB page and offset and
   * fewer than 255 STOREs, and otherwise adds an entry with the word the cell holds.
   */
  lemma LogStoreIs(log: seq<MemDelta>, m: Mem, imm: nat)
    requires imm < 0x10_0000 && forall i :: 0 <= i < |log| ==> ValidDelta(log[i])
    ensures var n, log' := |log|, LogStore(log, m, imm);
            if n > 0 && log[n - 1].page * 4096 + log[n - 1].offset == imm && log[n - 1].runCount < 255
            then log' == log[..n - 1] + [log[n - 1].(runCount := log[n - 1].runCount + 1)]
            else log' == log + [MemDelta(1, imm / 4096, imm % 4096, WordAt(m, imm))]
  {
    hide Load32, WordAt;
    LoadIs(m, imm);
    if log != [] {
      PageAndOffset(imm);
    }
  }

  // ----- undo -----

  lemma PageAndOffset(imm: nat)
    requires imm < IMM_LIMIT
    ensures Page(imm) * 4096 + Offset(imm) == imm
  {
  }

  /** Undoing the log after a STORE gives what undoing it before the STORE gave. */
  lemma UndoOfLogStore(m: Mem, log: seq<MemDelta>, imm: nat, v: Word)
    requires imm < IMM_LIMIT
    ensures Undo(Store32(m, imm, v), LogStore(log, m, imm)) == Undo(m, log)
  {
    hide Store32, Load32, Page, Offset;
    var n := |log|;
    var log' := LogStore(log, m, imm);
    PageAndOffset(imm);
    if |log'| == n {
      StoreOfStore(m, imm, v, log[n - 1].oldValue);
      assert log'[..n - 1] == log[..n - 1];
    } else {
      StoreOfLoad(m, imm, v);
      assert log'[..n] == log;
    }
  }

  lemma {:induction false} UndoOfConcat(m: Mem, a: seq<MemDelta>, b: seq<MemDelta>)
    ensures Undo(m, a + b) == Undo(Undo(m, b), a)
    decreases |b|
  {
    if b == [] {
      assert a + b == a;
    } else {
      var n := |b|;
      assert (a + b)[|a + b| - 1] == b[n - 1];
      assert (a + b)[..|a + b| - 1] == a + b[..n - 1];
      UndoOfConcat(ApplyOldValue(m, b[n - 1]), a, b[..n - 1]);
    }
  }
}
