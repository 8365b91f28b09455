/**
 * What each instruction does to everything a program can observe, in plain arithmetic on the bytes
 * that memory holds at pc.
 */
module Instructions {
  import opened Words
  import opened Opcodes
  import opened Memory
  import opened Machine

  /** The mask an ALU result sets: bit 0 for zero, bit 1 for carry, borrow or overflow, bit 2 for the sign. */
  function Mask(r: Word, carry: bool): nat {
    (if r == 0 then 1 else 0) + (if carry then 2 else 0) + (if r >= 0x8000_0000 then 4 else 0)
  }

  /** From `c` to `d`, pc goes to the next word, to the target of a jump taken, or stays at a trapped DIV. */
  predicate MovesPc(op: nat, a: Word, b: Word, imm: nat, c: Core, d: Core) {
    d.pc == if op == 7 || (op == 8 && a != 0) then imm
            else if op == 6 && b == 0 then c.pc
            else (c.pc + 4) % 0x1_0000_0000
  }

  predicate Halts(op: nat, b: Word, c: Core, d: Core) {
    d.halted == if op == 0 then Normal
                else if op == 6 && b == 0 then DivZero
                else if op >= 12 then UnknownOp
                else c.halted
  }

  /** What ADD, SUB, MUL and DIV leave in their destination, and the flags. */
  predicate Computes(op: nat, a: Word, b: Word, r: Word, c: Core, d: Core) {
    if op == 3 then r == (a + b) % 0x1_0000_0000 && d.flags == Mask(r, a + b >= 0x1_0000_0000)
    else if op == 4 then r == (a - b) % 0x1_0000_0000 && d.flags == Mask(r, a < b)
    else if op == 5 then r == (a * b) % 0x1_0000_0000 && d.flags == Mask(r, a * b >= 0x1_0000_0000)
    else if op == 6 && b != 0 then r == a / b && d.flags == Mask(r, false)
    else d.flags == c.flags
  }

  /** IN and RAND take the host's next answer, or a replayed frame of the same cycle and opcode. */
  ghost predicate Asks(op: nat, a: Word, r: Word, c: Core, d: Core) {
    if op != 9 && op != 10 then d.host == c.host
    else match c.host
      case Live(inputs, log) =>
        r == inputs(|log|) && d.host == Live(inputs, log + [Frame(c.cycle + 1, op, r)])
      case Replay(trace, cursor, _) =>
        if cursor < |trace| && trace[cursor].cycle == c.cycle + 1 && trace[cursor].opcode == op
        then r == trace[cursor].value && d.host == c.host.(cursor := cursor + 1)
        else r == a && d.host == c.host.(fault := if cursor < |trace| then Mismatch else PrematureEof)
  }

  /** The instruction with these fields, executed in `c`, gives `d`. */
  ghost predicate Does(op: nat, dst: nat, src: nat, imm: nat, c: Core, d: Core)
    requires dst < 8 && src < 8
  {
    var a, b, r := c.regs[dst], c.regs[src], d.regs[dst];
    && d.cycle == c.cycle + 1 && d.sp == c.sp
    && MovesPc(op, a, b, imm, c, d)
    && Halts(op, b, c, d)
    && Computes(op, a, b, r, c, d)
    && Asks(op, a, r, c, d)
    && (op == 1 ==> r == WordAt(c.mem, imm))
    && (op == 11 ==> r == imm)
    && (op == 0 || op == 2 || op == 7 || op == 8 || op >= 12 || (op == 6 && b == 0) ==> r == a)
    && (forall k :: 0 <= k < 8 && k != dst ==> d.regs[k] == c.regs[k])
    && forall i :: 0 <= i < 0x10_0000 ==> d.mem[i] == if op == 2 then StoredByte(c.mem, imm, a, i) else c.mem[i]
  }

  /** From `c` to `d` the instruction whose little-endian word is in memory at pc is executed. */
  ghost predicate Obeys(c: Core, d: Core) {
    var w := WordAt(c.mem, c.pc);
    Does(w / 0x400_0000, w / 0x80_0000 % 8, w / 0x10_0000 % 8, w % 0x10_0000, c, d)
  }

  lemma ExecuteDoes(c: Core, w: Word)
    ensures Does(w / 0x400_0000, w / 0x80_0000 % 8, w / 0x10_0000 % 8, w % 0x10_0000, c, Execute(Fetch(c), w))
  {
    hide Does, Execute, Fetch;
    var op := w / 0x400_0000;
    if 3 <= op <= 6 {
      AluDoes(c, w);
    } else if op == 9 || op == 10 {
      InputDoes(c, w);
    } else {
      MoveDoes(c, w);
    }
  }

  lemma AluDoes(c: Core, w: Word)
    requires 3 <= w / 0x400_0000 <= 6
    ensures Does(w / 0x400_0000, w / 0x80_0000 % 8, w / 0x10_0000 % 8, w % 0x10_0000, c, Execute(Fetch(c), w))
  {
    hide Load32, Store32, StoredByte, WordAt, Draw, DecodeOp, DecodeDst, DecodeSrc, DecodeImm, Arith, Flags, Mask;
    FieldsAre(w);
    var a, b := c.regs[DecodeDst(w)], c.regs[DecodeSrc(w)];
    PcRestored(c.pc);
    if !(DecodeOp(w) == 6 && b == 0) {
      ArithIs(DecodeOp(w), a, b);
      MaskIs(Arith(DecodeOp(w), a, b).0, Arith(DecodeOp(w), a, b).1);
    }
  }

  lemma InputDoes(c: Core, w: Word)
    requires w / 0x400_0000 == 9 || w / 0x400_0000 == 10
    ensures Does(w / 0x400_0000, w / 0x80_0000 % 8, w / 0x10_0000 % 8, w % 0x10_0000, c, Execute(Fetch(c), w))
  {
    hide Load32, Store32, StoredByte, WordAt, Arith, Flags, Mask, DecodeOp, DecodeDst, DecodeSrc, DecodeImm;
    FieldsAre(w);
  }

  lemma MoveDoes(c: Core, w: Word)
    requires var op := w / 0x400_0000; !(3 <= op <= 6) && op != 9 && op != 10
    ensures Does(w / 0x400_0000, w / 0x80_0000 % 8, w / 0x10_0000 % 8, w % 0x10_0000, c, Execute(Fetch(c), w))
  {
    hide Load32, Store32, StoredByte, WordAt, Arith, Flags, Mask, DecodeOp, DecodeDst, DecodeSrc, DecodeImm, Draw;
    FieldsAre(w);
    LoadIs(c.mem, DecodeImm(w));
    StoreIs(c.mem, DecodeImm(w), c.regs[DecodeDst(w)]);
  }

  lemma FieldsAre(w: Word)
    ensures DecodeOp(w) == w / 0x400_0000 && DecodeDst(w) == w / 0x80_0000 % 8
    ensures DecodeSrc(w) == w / 0x10_0000 % 8 && DecodeImm(w) == w % 0x10_0000
  {
  }

  lemma ArithIs(op: nat, a: Word, b: Word)
    requires 3 <= op <= 6 && (op == 6 ==> b != 0)
    ensures var (r, carry) := Arith(op, a, b);
            && (op == 3 ==> r == (a + b) % 0x1_0000_0000 && (carry <==> a + b >= 0x1_0000_0000))
            && (op == 4 ==> r == (a - b) % 0x1_0000_0000 && (carry <==> a < b))
            && (op == 5 ==> r == (a * b) % 0x1_0000_0000 && (carry <==> a * b >= 0x1_0000_0000))
            && (op == 6 ==> r == a / b && !carry)
  {
  }

  lemma MaskIs(r: Word, carry: bool)
    ensures Flags(r == 0, carry, r) == Mask(r, carry)
  {
  }

  lemma PcRestored(pc: Word)
    ensures Wrap32(Wrap32(pc + 4) - 4) == pc
  {
  }

  /** The effects named determine the next state. */
  lemma DoesIsDeterministic(op: nat, dst: nat, src: nat, imm: nat, c: Core, d: Core, e: Core)
    requires dst < 8 && src < 8
    requires Does(op, dst, src, imm, c, d) && Does(op, dst, src, imm, c, e)
    ensures d == e
  {
    hide StoredByte, Mask;
    assert d.regs[dst] == e.regs[dst];
    assert d.regs == e.regs;
    assert d.mem == e.mem;
  }

  /** The step of the machine is the one state the law allows. */
  lemma StepIffObeys(c: Core, d: Core)
    ensures Obeys(c, d) <==> d == CoreStep(c)
  {
    hide Does, Execute, Load32, WordAt;
    var w := InstrAt(c);
    LoadIs(c.mem, c.pc);
    ExecuteDoes(c, w);
    if Obeys(c, d) {
      DoesIsDeterministic(w / 0x400_0000, w / 0x80_0000 % 8, w / 0x10_0000 % 8, w % 0x10_0000, c, d, CoreStep(c));
    }
  }

  /**
   * Each iteration of any run, whatever listens to its snapshots, obeys the law, unless the listener
   * halts it: then only cycle, pc and the halt reason have changed.
   */
  lemma RunObeys(m: Machine, n: nat)
    requires Live?(Run(m, n).core)
    ensures var c, d := Run(m, n).core, Run(m, n + 1).core;
            if Request(Run(m, n)).Running? then Obeys(c, d)
            else d == c.(cycle := c.cycle + 1, pc := (c.pc + 4) % 0x1_0000_0000, halted := Request(Run(m, n)))
  {
    hide Run, Step, CoreStep, Obeys, Request;
    RunNext(m, n);
    StepOnCore(Run(m, n));
    StepIffObeys(Run(m, n).core, CoreStep(Run(m, n).core));
  }

  /** The machine a program starts in. */
  lemma BootIs(p: Program, host: Host)
    ensures var c := Boot(p, host);
            && c.cycle == 0 && c.pc == 0 && c.sp == 0xF_FFFC && c.flags == 0 && c.halted == Running && c.host == host
            && (forall k :: 0 <= k < 8 ==> c.regs[k] == 0)
            && (forall i :: 0 <= i < 0x10_0000 ==> c.mem[i] == if i < |p| then p[i] else 0)
  {
  }
}
