/** The `.trace` file: its bytes, its reader and its writer. */
module TraceFile {
  import opened Words
  import opened Machine

  const HEADER_SIZE := 16
  const FRAME_SIZE := 16
  const MAGIC: seq<Byte> := [0x52, 0x56, 0x4D, 0x54, 0x52, 0x41, 0x43, 0x45]
  const VERSION: Word := 1

  datatype ReadResult =
    | EmptyFile
    | TooSmall
    | BadMagic
    | BadVersion(version: Word)
    | Ragged
    | Frames(frames: seq<Frame>)

  // ----- little-endian numbers -----

  function Pow256(n: nat): nat {
    if n == 0 then 1 else 256 * Pow256(n - 1)
  }

  function LeBytes(v: nat, n: nat): (b: seq<Byte>)
    ensures |b| == n
  {
    if n == 0 then [] else [v % 256] + LeBytes(v / 256, n - 1)
  }

  function LeValue(b: seq<Byte>): nat {
    if b == [] then 0 else b[0] + 256 * LeValue(b[1..])
  }

  lemma {:induction false} ValueOfBytes(v: nat, n: nat)
    requires v < Pow256(n)
    ensures LeValue(LeBytes(v, n)) == v
  {
    if n > 0 {
      ValueOfBytes(v / 256, n - 1);
      assert LeBytes(v, n)[1..] == LeBytes(v / 256, n - 1);
    }
  }

  lemma {:induction false} BytesOfValue(b: seq<Byte>)
    ensures LeBytes(LeValue(b), |b|) == b
    ensures LeValue(b) < Pow256(|b|)
  {
    if b != [] {
      BytesOfValue(b[1..]);
      assert LeValue(b) % 256 == b[0] && LeValue(b) / 256 == LeValue(b[1..]);
      assert b == [b[0]] + b[1..];
    }
  }

  lemma Powers()
    ensures Pow256(4) == TWO_32 && Pow256(8) == TWO_64
  {
    assert Pow256(1) == 256 && Pow256(2) == 0x1_0000 && Pow256(3) == 0x100_0000;
    assert Pow256(4) == TWO_32 && Pow256(5) == 256 * TWO_32 && Pow256(6) == 0x1_0000 * TWO_32;
    assert Pow256(7) == 0x100_0000 * TWO_32;
  }

  // ----- the layout -----

  function FrameBytes(f: Frame): (b: seq<Byte>)
    ensures |b| == FRAME_SIZE
  {
    LeBytes(f.cycle, 8) + [f.opcode, 0, 0, 0] + LeBytes(f.value, 4)
  }

  function Value32(b: seq<Byte>): Word
    requires |b| == 4
  {
    BytesOfValue(b);
    Powers();
    LeValue(b)
  }

  function FrameAt(b: seq<Byte>, i: nat): Frame
    requires HEADER_SIZE + FRAME_SIZE * (i + 1) <= |b|
  {
    var at := HEADER_SIZE + FRAME_SIZE * i;
    Frame(LeValue(b[at..at + 8]), b[at + 8], Value32(b[at + 12..at + 16]))
  }

  function Header(): (b: seq<Byte>)
    ensures |b| == HEADER_SIZE
  {
    MAGIC + LeBytes(VERSION, 4) + LeBytes(0, 4)
  }

  function Body(frames: seq<Frame>): (b: seq<Byte>)
    ensures |b| == FRAME_SIZE * |frames|
  {
    if frames == [] then [] else Body(frames[..|frames| - 1]) + FrameBytes(frames[|frames| - 1])
  }

  function Flush(frames: seq<Frame>): seq<Byte> {
    Header() + Body(frames)
  }

  function FramesFrom(b: seq<Byte>, n: nat): seq<Frame>
    requires HEADER_SIZE + FRAME_SIZE * n <= |b|
  {
    seq(n, i requires 0 <= i < n => FrameAt(b, i))
  }

  function Read(b: seq<Byte>): ReadResult {
    if |b| == 0 then EmptyFile
    else if |b| < HEADER_SIZE then TooSmall
    else if b[..8] != MAGIC then BadMagic
    else if Value32(b[8..12]) != VERSION then BadVersion(Value32(b[8..12]))
    else if (|b| - HEADER_SIZE) % FRAME_SIZE != 0 then Ragged
    else Frames(FramesFrom(b, (|b| - HEADER_SIZE) / FRAME_SIZE))
  }

  // ----- round trips -----

  /** Cycle counters are 64-bit in the file. */
  predicate Storable(frames: seq<Frame>) {
    forall i :: 0 <= i < |frames| ==> frames[i].cycle < TWO_64
  }

  /** The bytes of the i-th frame after the header. */
  function Slot(b: seq<Byte>, i: nat): seq<Byte>
    requires FRAME_SIZE * (i + 1) <= |b|
  {
    b[FRAME_SIZE * i..FRAME_SIZE * i + FRAME_SIZE]
  }

  lemma {:induction false} BodyAt(frames: seq<Frame>, i: nat)
    requires i < |frames|
    ensures Slot(Body(frames), i) == FrameBytes(frames[i])
  {
    var n := |frames| - 1;
    if i < n {
      BodyAt(frames[..n], i);
    }
  }

  lemma FrameOfBytes(b: seq<Byte>, i: nat, f: Frame)
    requires HEADER_SIZE + FRAME_SIZE * (i + 1) <= |b| && f.cycle < TWO_64
    requires b[HEADER_SIZE + FRAME_SIZE * i..HEADER_SIZE + FRAME_SIZE * i + FRAME_SIZE] == FrameBytes(f)
    ensures FrameAt(b, i) == f
  {
    hide LeBytes, LeValue, Pow256;
    var at := HEADER_SIZE + FRAME_SIZE * i;
    var c := FrameBytes(f);
    assert b[at..at + 16] == c;
    assert b[at..at + 8] == c[..8] == LeBytes(f.cycle, 8);
    assert b[at + 8] == c[8];
    assert b[at + 12..at + 16] == c[12..16] == LeBytes(f.value, 4);
    Powers();
    ValueOfBytes(f.cycle, 8);
    ValueOfBytes(f.value, 4);
  }

  /** Reading what was flushed gives back every frame; the file has 16 bytes and 16 more for each. */
  lemma ReadOfFlush(frames: seq<Frame>)
    requires Storable(frames)
    ensures Read(Flush(frames)) == Frames(frames)
    ensures |Flush(frames)| == HEADER_SIZE + FRAME_SIZE * |frames|
  {
    hide Body, FrameBytes, FrameAt, LeValue, LeBytes, Pow256;
    var b := Flush(frames);
    HeaderFields(b);
    forall i | 0 <= i < |frames| ensures FrameAt(b, i) == frames[i] {
      BodyAt(frames, i);
      var at := HEADER_SIZE + FRAME_SIZE * i;
      assert b[at..at + FRAME_SIZE] == Body(frames)[FRAME_SIZE * i..FRAME_SIZE * i + FRAME_SIZE];
      FrameOfBytes(b, i, frames[i]);
    }
    assert FramesFrom(b, |frames|) == frames;
  }

  lemma HeaderFields(b: seq<Byte>)
    requires |b| >= HEADER_SIZE && b[..HEADER_SIZE] == Header()
    ensures b[..8] == MAGIC && Value32(b[8..12]) == VERSION
  {
    hide LeBytes, LeValue, Pow256;
    var h := b[..HEADER_SIZE];
    assert b[..8] == h[..8] == MAGIC;
    assert b[8..12] == h[8..12] == LeBytes(VERSION, 4);
    Powers();
    ValueOfBytes(VERSION, 4);
  }

  /** The reserved header word and the padding of every frame are zero. */
  predicate ZeroPadding(b: seq<Byte>)
    requires |b| >= HEADER_SIZE
  {
    && b[12..16] == [0, 0, 0, 0]
    && forall i :: 0 <= i < (|b| - HEADER_SIZE) / FRAME_SIZE ==> PaddingOf(b, i) == [0, 0, 0]
  }

  function PaddingOf(b: seq<Byte>, i: nat): seq<Byte>
    requires HEADER_SIZE + FRAME_SIZE * (i + 1) <= |b|
  {
    b[HEADER_SIZE + FRAME_SIZE * i + 9..HEADER_SIZE + FRAME_SIZE * i + 12]
  }

  lemma FrameBytesOf(b: seq<Byte>, i: nat)
    requires HEADER_SIZE + FRAME_SIZE * (i + 1) <= |b|
    ensures var at := HEADER_SIZE + FRAME_SIZE * i;
            FrameBytes(FrameAt(b, i)) == b[at..at + FRAME_SIZE] <==> PaddingOf(b, i) == [0, 0, 0]
  {
    hide LeBytes, LeValue;
    var at := HEADER_SIZE + FRAME_SIZE * i;
    var d := b[at..at + FRAME_SIZE];
    BytesOfValue(b[at..at + 8]);
    BytesOfValue(b[at + 12..at + 16]);
    assert FrameBytes(FrameAt(b, i)) == b[at..at + 8] + [b[at + 8], 0, 0, 0] + b[at + 12..at + 16];
    assert d[..8] == b[at..at + 8] && d[8] == b[at + 8] && d[12..] == b[at + 12..at + 16];
    assert PaddingOf(b, i) == d[9..12] by {
      assert forall k :: 0 <= k < 3 ==> PaddingOf(b, i)[k] == b[at + 9 + k] == d[9 + k];
    }
    FrameLayout(d, FrameAt(b, i).opcode);
  }

  lemma FrameLayout(d: seq<Byte>, op: Byte)
    requires |d| == FRAME_SIZE && d[8] == op
    ensures d[..8] + [op, 0, 0, 0] + d[12..] == d <==> d[9..12] == [0, 0, 0]
  {
    var c := d[..8] + [op, 0, 0, 0] + d[12..];
    assert c[9..12] == [0, 0, 0];
    if d[9..12] == [0, 0, 0] {
      assert d[9] == d[9..12][0] && d[10] == d[9..12][1] && d[11] == d[9..12][2];
      assert forall k :: 0 <= k < FRAME_SIZE ==> c[k] == d[k];
    }
  }

  lemma BodyEquals(frames: seq<Frame>, b: seq<Byte>)
    requires |b| == FRAME_SIZE * |frames|
    ensures Body(frames) == b <==> forall i :: 0 <= i < |frames| ==> Slot(b, i) == FrameBytes(frames[i])
  {
    hide Body, FrameBytes, Slot;
    forall i | 0 <= i < |frames| ensures Slot(Body(frames), i) == FrameBytes(frames[i]) {
      BodyAt(frames, i);
    }
    if forall i :: 0 <= i < |frames| ==> Slot(b, i) == FrameBytes(frames[i]) {
      forall k | 0 <= k < |b| ensures Body(frames)[k] == b[k] {
        InSlot(|frames|, k);
        ByteOfSlot(Body(frames), k / FRAME_SIZE, k % FRAME_SIZE);
        ByteOfSlot(b, k / FRAME_SIZE, k % FRAME_SIZE);
      }
    }
  }

  lemma InSlot(n: nat, k: nat)
    requires k < FRAME_SIZE * n
    ensures k == FRAME_SIZE * (k / FRAME_SIZE) + k % FRAME_SIZE && k / FRAME_SIZE < n
  {
  }

  lemma ByteOfSlot(b: seq<Byte>, i: nat, j: nat)
    requires FRAME_SIZE * (i + 1) <= |b| && j < FRAME_SIZE
    ensures b[FRAME_SIZE * i + j] == Slot(b, i)[j]
  {
  }

  /** Flushing what was read gives back an accepted file exactly when its reserved and padding bytes are zero. */
  lemma FlushOfRead(b: seq<Byte>)
    requires Read(b).Frames?
    ensures Storable(Read(b).frames)
    ensures Flush(Read(b).frames) == b <==> ZeroPadding(b)
  {
    hide LeValue, LeBytes, FrameBytes, Pow256;
    var n := (|b| - HEADER_SIZE) / FRAME_SIZE;
    var frames := Read(b).frames;
    var rest := b[HEADER_SIZE..];
    Powers();
    forall i | 0 <= i < n
      ensures frames[i].cycle < TWO_64
      ensures Slot(rest, i) == FrameBytes(frames[i]) <==> PaddingOf(b, i) == [0, 0, 0]
    {
      var at := HEADER_SIZE + FRAME_SIZE * i;
      BytesOfValue(b[at..at + 8]);
      FrameBytesOf(b, i);
      assert Slot(rest, i) == b[at..at + FRAME_SIZE];
    }
    BodyEquals(frames, rest);
    BytesOfValue(b[8..12]);
    HeaderEquals(b);
    assert b == b[..HEADER_SIZE] + rest;
    assert Flush(frames)[..HEADER_SIZE] == Header() && Flush(frames)[HEADER_SIZE..] == Body(frames);
  }

  lemma HeaderEquals(b: seq<Byte>)
    requires |b| >= HEADER_SIZE && b[..8] == MAGIC && b[8..12] == LeBytes(VERSION, 4)
    ensures b[..HEADER_SIZE] == Header() <==> b[12..16] == [0, 0, 0, 0]
  {
    assert b[..HEADER_SIZE] == b[..8] + b[8..12] + b[12..16];
    assert LeBytes(0, 4) == [0, 0, 0, 0] by {
      assert LeBytes(0, 3) == [0] + LeBytes(0, 2);
      assert LeBytes(0, 1) == [0] + LeBytes(0, 0);
    }
    assert Header()[12..16] == [0, 0, 0, 0];
  }

  // ----- the layout, byte by byte -----

  /** The 16 bytes at `at` hold `f`: cycle in 0-7, opcode in 8, value in 12-15, low bytes first. */
  predicate HoldsFrame(b: seq<Byte>, at: nat, f: Frame)
    requires at + 16 <= |b|
  {
    && f.cycle == Number32(b, at) + 0x1_0000_0000 * Number32(b, at + 4)
    && f.opcode == b[at + 8]
    && f.value == Number32(b, at + 12)
  }

  function Number32(b: seq<Byte>, at: nat): nat
    requires at + 4 <= |b|
  {
    var b0: nat, b1: nat, b2: nat, b3: nat := b[at], b[at + 1], b[at + 2], b[at + 3];
    b0 + 0x100 * b1 + 0x1_0000 * b2 + 0x100_0000 * b3
  }

  predicate HasMagic(b: seq<Byte>)
    requires |b| >= 8
  {
    forall k :: 0 <= k < 8 ==> b[k] == "RVMTRACE"[k] as nat
  }

  lemma MagicIs(b: seq<Byte>)
    requires |b| >= 8
    ensures b[..8] == MAGIC <==> HasMagic(b)
  {
    assert forall k :: 0 <= k < 8 ==> MAGIC[k] == "RVMTRACE"[k] as nat;
    assert forall k :: 0 <= k < 8 ==> b[..8][k] == b[k];
  }

  lemma LeHead(b: seq<Byte>, lo: nat, hi: nat)
    requires lo < hi <= |b|
    ensures LeValue(b[lo..hi]) == b[lo] + 256 * LeValue(b[lo + 1..hi])
  {
    assert b[lo..hi][1..] == b[lo + 1..hi];
  }

  lemma LeFour(b: seq<Byte>, lo: nat, hi: nat)
    requires lo + 4 <= hi <= |b|
    ensures LeValue(b[lo..hi]) == Number32(b, lo) + 0x1_0000_0000 * LeValue(b[lo + 4..hi])
  {
    hide LeValue;
    LeHead(b, lo, hi);
    LeHead(b, lo + 1, hi);
    LeHead(b, lo + 2, hi);
    LeHead(b, lo + 3, hi);
  }

  lemma LeNone(b: seq<Byte>, at: nat)
    requires at <= |b|
    ensures LeValue(b[at..at]) == 0
  {
  }

  lemma FrameAtIs(b: seq<Byte>, i: nat)
    requires 16 + 16 * (i + 1) <= |b|
    ensures HoldsFrame(b, 16 + 16 * i, FrameAt(b, i))
  {
    hide LeValue, Number32;
    var at := 16 + 16 * i;
    LeFour(b, at, at + 8);
    LeFour(b, at + 4, at + 8);
    LeFour(b, at + 12, at + 16);
    LeNone(b, at + 8);
    LeNone(b, at + 16);
  }

  /** Why a file is refused, and what an accepted one holds. */
  lemma ReadIs(b: seq<Byte>)
    ensures Read(b).EmptyFile? <==> |b| == 0
    ensures Read(b).TooSmall? <==> 0 < |b| < 16
    ensures Read(b).BadMagic? <==> |b| >= 16 && !HasMagic(b)
    ensures |b| >= 16 && HasMagic(b) ==>
              && (Read(b).BadVersion? <==> Number32(b, 8) != 1)
              && (Read(b).BadVersion? ==> Read(b).version == Number32(b, 8))
              && (Read(b).Ragged? <==> Number32(b, 8) == 1 && |b| % 16 != 0)
    ensures Read(b).Frames? ==>
              && |b| == 16 + 16 * |Read(b).frames|
              && forall i :: 0 <= i < |Read(b).frames| ==> HoldsFrame(b, 16 + 16 * i, Read(b).frames[i])
  {
    hide LeValue, Number32, HasMagic, HoldsFrame, FrameAt;
    if |b| >= 16 {
      MagicIs(b);
      LeFour(b, 8, 12);
      LeNone(b, 12);
      forall i | 0 <= i < (|b| - 16) / 16 ensures HoldsFrame(b, 16 + 16 * i, FrameAt(b, i)) {
        FrameAtIs(b, i);
      }
    }
  }

  /** A flushed file: the magic, version 1, a reserved word of zero and 16 bytes for each frame. */
  lemma FlushIs(frames: seq<Frame>)
    requires Storable(frames)
    ensures var b := Flush(frames);
            && |b| == 16 + 16 * |frames| && HasMagic(b) && Number32(b, 8) == 1 && Number32(b, 12) == 0
            && forall i :: 0 <= i < |frames| ==>
                             && HoldsFrame(b, 16 + 16 * i, frames[i])
                             && b[16 + 16 * i + 9] == b[16 + 16 * i + 10] == b[16 + 16 * i + 11] == 0
  {
    hide HasMagic, HoldsFrame, Flush, Read;
    var b := Flush(frames);
    ReadOfFlush(frames);
    ReadIs(b);
    FlushOfRead(b);
    assert b[12..16] == [0, 0, 0, 0] && |b[12..16]| == 4;
    assert b[12] == b[12..16][0] && b[13] == b[12..16][1] && b[14] == b[12..16][2] && b[15] == b[12..16][3];
    forall i | 0 <= i < |frames|
      ensures b[16 + 16 * i + 9] == b[16 + 16 * i + 10] == b[16 + 16 * i + 11] == 0
    {
      var p := PaddingOf(b, i);
      assert p == [0, 0, 0];
      assert b[16 + 16 * i + 9] == p[0] && b[16 + 16 * i + 10] == p[1] && b[16 + 16 * i + 11] == p[2];
    }
  }

  // ----- the writer and the reader -----

  /** Stores the `n` low bytes of `v`, least significant first. */
  method WriteLe(p: array<Byte>, at: nat, v: nat, n: nat)
    requires at + n <= p.Length
    modifies p
    ensures p[..at] == old(p[..at])
    ensures p[at..at + n] == LeBytes(v, n)
    ensures p[at + n..] == old(p[at + n..])
    ensures forall i :: 0 <= i < p.Length && !(at <= i < at + n) ==> p[i] == old(p[i])
  {
    var shifted, i := v, 0;
    while i < n
      invariant 0 <= i <= n
      invariant p[at..at + i] + LeBytes(shifted, n - i) == LeBytes(v, n)
      invariant forall k :: 0 <= k < p.Length && !(at <= k < at + n) ==> p[k] == old(p[k])
    {
      ghost var done := p[at..at + i];
      p[at + i] := shifted % 256;
      assert p[at..at + i + 1] == done + [(shifted % 256) as Byte];
      shifted, i := shifted / 256, i + 1;
    }
  }

  /** Loads a 32-bit number, most significant byte first. */
  method ReadU32(p: array<Byte>, at: nat) returns (r: Word)
    requires at + 4 <= p.Length
    ensures r == Value32(p[at..at + 4])
  {
    var v: nat, i := 0, 4;
    while i > 0
      invariant 0 <= i <= 4
      invariant v == LeValue(p[at + i..at + 4]) && v < Pow256(4 - i)
    {
      i := i - 1;
      v := v * 256 + p[at + i];
      assert p[at + i..at + 4][1..] == p[at + i + 1..at + 4];
    }
    Powers();
    r := v;
  }

  /** Stores a frame over zeroed bytes. */
  method WriteFrame(p: array<Byte>, at: nat, f: Frame)
    requires at + FRAME_SIZE <= p.Length
    requires p[at + 9..at + 12] == [0, 0, 0]
    modifies p
    ensures p[..at] == old(p[..at])
    ensures p[at..at + FRAME_SIZE] == FrameBytes(f)
    ensures p[at + FRAME_SIZE..] == old(p[at + FRAME_SIZE..])
  {
    hide LeBytes;
    WriteLe(p, at, f.cycle, 8);
    assert p[at + 9..at + 12] == [0, 0, 0];
    p[at + 8] := f.opcode;
    assert p[at..at + 8] == LeBytes(f.cycle, 8);
    WriteLe(p, at + 12, f.value, 4);
    assert p[at..at + 8] == LeBytes(f.cycle, 8) && p[at + 8] == f.opcode && p[at + 9..at + 12] == [0, 0, 0];
    assert p[at..at + FRAME_SIZE] == p[at..at + 8] + [p[at + 8]] + p[at + 9..at + 12] + p[at + 12..at + 16];
  }

  method WriteHeader(p: array<Byte>)
    requires HEADER_SIZE <= p.Length
    modifies p
    ensures p[..HEADER_SIZE] == Header()
    ensures p[HEADER_SIZE..] == old(p[HEADER_SIZE..])
  {
    hide LeBytes;
    forall i | 0 <= i < 8 {
      p[i] := MAGIC[i];
    }
    assert p[..8] == MAGIC;
    WriteLe(p, 8, VERSION, 4);
    assert p[..8] == MAGIC;
    WriteLe(p, 12, 0, 4);
    assert p[..8] == MAGIC && p[8..12] == LeBytes(VERSION, 4);
    assert p[..HEADER_SIZE] == p[..8] + p[8..12] + p[12..16];
  }

  class TraceWriter {
    var frames: seq<Frame>

    constructor ()
      ensures frames == []
    {
      frames := [];
    }

    method Append(cycle: nat, opcode: Byte, value: Word)
      modifies this
      ensures frames == old(frames) + [Frame(cycle, opcode, value)]
    {
      frames := frames + [Frame(cycle, opcode, value)];
    }

    method FlushToFile() returns (p: array<Byte>)
      ensures fresh(p) && p[..] == Flush(frames)
    {
      hide FrameBytes, Header, Written;
      p := new Byte[HEADER_SIZE + FRAME_SIZE * |frames|](i => 0);
      WriteHeader(p);
      NothingWritten(p[..], frames);
      var n := 0;
      while n < |frames|
        invariant 0 <= n <= |frames|
        invariant Written(p[..], frames, n)
      {
        ghost var before := p[..];
        PaddingIsZero(before, frames, n);
        WriteFrame(p, HEADER_SIZE + FRAME_SIZE * n, frames[n]);
        FrameWritten(before, p[..], frames, n);
        n := n + 1;
      }
      AllWritten(p[..], frames);
    }
  }

  // ----- what has been flushed after `n` frames -----

  predicate Written(b: seq<Byte>, frames: seq<Frame>, n: nat) {
    && n <= |frames| && |b| == HEADER_SIZE + FRAME_SIZE * |frames|
    && b[..HEADER_SIZE] == Header()
    && b[HEADER_SIZE..HEADER_SIZE + FRAME_SIZE * n] == Body(frames[..n])
    && AllZero(b[HEADER_SIZE + FRAME_SIZE * n..])
  }

  lemma NothingWritten(b: seq<Byte>, frames: seq<Frame>)
    requires |b| == HEADER_SIZE + FRAME_SIZE * |frames| && b[..HEADER_SIZE] == Header()
    requires AllZero(b[HEADER_SIZE..])
    ensures Written(b, frames, 0)
  {
  }

  lemma PaddingIsZero(b: seq<Byte>, frames: seq<Frame>, n: nat)
    requires Written(b, frames, n) && n < |frames|
    ensures var at := HEADER_SIZE + FRAME_SIZE * n; at + FRAME_SIZE <= |b| && b[at + 9..at + 12] == [0, 0, 0]
  {
    hide Header, Body;
    var at := HEADER_SIZE + FRAME_SIZE * n;
    assert b[at + 9..at + 12] == b[at..][9..12];
  }

  lemma FrameWritten(b: seq<Byte>, c: seq<Byte>, frames: seq<Frame>, n: nat)
    requires Written(b, frames, n) && n < |frames| && |c| == |b|
    requires var at := HEADER_SIZE + FRAME_SIZE * n;
             && c[..at] == b[..at] && c[at..at + FRAME_SIZE] == FrameBytes(frames[n])
             && c[at + FRAME_SIZE..] == b[at + FRAME_SIZE..]
    ensures Written(c, frames, n + 1)
  {
    hide Header, FrameBytes;
    var at := HEADER_SIZE + FRAME_SIZE * n;
    assert c[..HEADER_SIZE] == c[..at][..HEADER_SIZE] == b[..at][..HEADER_SIZE] == b[..HEADER_SIZE];
    assert c[HEADER_SIZE..at] == c[..at][HEADER_SIZE..] == b[..at][HEADER_SIZE..] == b[HEADER_SIZE..at];
    assert c[HEADER_SIZE..at + FRAME_SIZE] == c[HEADER_SIZE..at] + c[at..at + FRAME_SIZE];
    assert frames[..n + 1][..n] == frames[..n];
    assert b[at + FRAME_SIZE..] == b[at..][FRAME_SIZE..];
  }

  lemma AllWritten(b: seq<Byte>, frames: seq<Frame>)
    requires Written(b, frames, |frames|)
    ensures b == Flush(frames)
  {
    assert frames[..|frames|] == frames;
    assert b == b[..HEADER_SIZE] + b[HEADER_SIZE..];
  }

  predicate AllZero(b: seq<Byte>) {
    forall i :: 0 <= i < |b| ==> b[i] == 0
  }

  /** A mapped trace file that passed validation. */
  class TraceReader {
    const map_: array<Byte>
    var frameCount: nat

    ghost predicate Valid()
      reads this, map_
    {
      Read(map_[..]).Frames? && |Read(map_[..]).frames| == frameCount
    }

    constructor (p: array<Byte>, n: nat)
      requires Read(p[..]).Frames? && n == |Read(p[..]).frames|
      ensures map_ == p && frameCount == n && Valid()
    {
      map_, frameCount := p, n;
    }

    method FrameAtIndex(i: nat) returns (f: Option<Frame>)
      requires Valid()
      ensures f == if i < frameCount then Some(Read(map_[..]).frames[i]) else None
    {
      if i >= frameCount {
        return None;
      }
      var at := HEADER_SIZE + FRAME_SIZE * i;
      var cycle := LeValue(map_[at..at + 8]);
      var value := ReadU32(map_, at + 12);
      f := Some(Frame(cycle, map_[at + 8], value));
      assert map_[..][at..at + 8] == map_[at..at + 8];
      assert map_[..][at + 12..at + 16] == map_[at + 12..at + 16];
    }
  }

  /** Validates a mapped file; on success the reader serves exactly the frames of the file. */
  method OpenTrace(p: array<Byte>) returns (error: Option<ReadResult>, reader: TraceReader?)
    ensures match Read(p[..])
            case Frames(frames) => reader != null && fresh(reader) && reader.map_ == p && reader.Valid() && error.None?
            case other => reader == null && error == Some(other)
  {
    if p.Length == 0 {
      return Some(EmptyFile), null;
    }
    if p.Length < HEADER_SIZE {
      return Some(TooSmall), null;
    }
    assert p[..][..8] == p[..8] && p[..][8..12] == p[8..12];
    if p[..8] != MAGIC {
      return Some(BadMagic), null;
    }
    var version := ReadU32(p, 8);
    if version != VERSION {
      return Some(BadVersion(version)), null;
    }
    if (p.Length - HEADER_SIZE) % FRAME_SIZE != 0 {
      return Some(Ragged), null;
    }
    reader := new TraceReader(p, (p.Length - HEADER_SIZE) / FRAME_SIZE);
    error := None;
  }
}
