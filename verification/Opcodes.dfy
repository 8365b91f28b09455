/** Instruction words and halt reasons. */
module Opcodes {
  import opened Words

  const OP_HALT: Byte := 0x00
  const OP_LOAD: Byte := 0x01
  const OP_STORE: Byte := 0x02
  const OP_ADD: Byte := 0x03
  const OP_SUB: Byte := 0x04
  const OP_MUL: Byte := 0x05
  const OP_DIV: Byte := 0x06
  const OP_JUMP: Byte := 0x07
  const OP_JNZ: Byte := 0x08
  const OP_IN: Byte := 0x09
  const OP_RAND: Byte := 0x0A
  const OP_LI: Byte := 0x0B
  const OP_COUNT: Byte := 0x0C

  datatype HaltReason =
    | Running
    | Normal
    | DivZero
    | UnknownOp
    | TraceEof
    | Diverged
    | Checkpoint
    | Breakpoint
    | StepDone

  /** The soft halts, the only ones the debugger resumes. */
  predicate Soft(h: HaltReason) {
    h.Breakpoint? || h.StepDone? || h.Checkpoint?
  }

  const FLAG_ZF: Word := 1
  const FLAG_CF: Word := 2
  const FLAG_SF: Word := 4

  const IMM_LIMIT := 0x10_0000

  /** Every argument is masked to the width of its field. */
  function Encode(op: Word, dst: Word, src: Word, imm: Word): Word {
    op % 64 * 0x400_0000 + dst % 8 * 0x80_0000 + src % 8 * 0x10_0000 + imm % IMM_LIMIT
  }

  function DecodeOp(w: Word): (op: nat)
    ensures op < 64
  {
    w / 0x400_0000
  }

  function DecodeDst(w: Word): (r: nat)
    ensures r < 8
  {
    w / 0x80_0000 % 8
  }

  function DecodeSrc(w: Word): (r: nat)
    ensures r < 8
  {
    w / 0x10_0000 % 8
  }

  function DecodeImm(w: Word): (imm: nat)
    ensures imm < IMM_LIMIT
  {
    w % IMM_LIMIT
  }

  lemma DecodeOfEncode(op: Word, dst: Word, src: Word, imm: Word)
    ensures var w := Encode(op, dst, src, imm);
            && DecodeOp(w) == op % 64
            && DecodeDst(w) == dst % 8
            && DecodeSrc(w) == src % 8
            && DecodeImm(w) == imm % IMM_LIMIT
  {
    var w := Encode(op, dst, src, imm);
    assert w / 0x10_0000 == op % 64 * 64 + dst % 8 * 8 + src % 8;
    assert w / 0x80_0000 == op % 64 * 8 + dst % 8;
  }

  lemma EncodeOfDecode(w: Word)
    ensures Encode(DecodeOp(w), DecodeDst(w), DecodeSrc(w), DecodeImm(w)) == w
  {
    var a := w / 0x10_0000;
    var b := a / 8;
    assert w / 0x80_0000 == b;
    assert w / 0x400_0000 == b / 8;
    assert w == a * 0x10_0000 + w % 0x10_0000;
    assert a == b * 8 + a % 8;
    assert b == b / 8 * 8 + b % 8;
  }
}
