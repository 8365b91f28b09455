/** The disassembler's text, and which of it the assembler takes back. */
module Disassembler {
  import opened Words
  import opened Opcodes
  import opened Machine
  import opened Assembler

  // ----- printing -----

  function DigitChar(d: nat): char
    requires d < 16
  {
    if d < 10 then '0' + d as char else 'a' + (d - 10) as char
  }

  /** `%x`. */
  function Hex(n: nat): string {
    if n < 16 then [DigitChar(n)] else Hex(n / 16) + [DigitChar(n % 16)]
  }

  function RegText(r: nat): string
    requires r < 8
  {
    ['R', DigitChar(r)]
  }

  function ImmText(imm: nat): string {
    "0x" + Hex(imm)
  }

  /** The mnemonic and the blanks that pad it to its column. */
  function Mnemonic(op: nat): (string, string)
    requires op < OP_COUNT
  {
    if op == OP_HALT then ("HALT", "")
    else if op == OP_LOAD then ("LOAD", "  ")
    else if op == OP_STORE then ("STORE", " ")
    else if op == OP_ADD then ("ADD", "   ")
    else if op == OP_SUB then ("SUB", "   ")
    else if op == OP_MUL then ("MUL", "   ")
    else if op == OP_DIV then ("DIV", "   ")
    else if op == OP_JUMP then ("JUMP", "  ")
    else if op == OP_JNZ then ("JNZ", "   ")
    else if op == OP_IN then ("IN", "    ")
    else if op == OP_RAND then ("RAND", "  ")
    else ("LI", "    ")
  }

  /** First operand and, for the opcodes that have one, ", " and the second. */
  function OperandText(op: nat, dst: nat, src: nat, imm: nat): (string, string)
    requires op < OP_COUNT && dst < 8 && src < 8
  {
    if op == OP_HALT then ("", "")
    else if op == OP_LOAD || op == OP_STORE then (RegText(dst), "[" + ImmText(imm) + "]")
    else if op == OP_JUMP then (ImmText(imm), "")
    else if op == OP_IN || op == OP_RAND then (RegText(dst), "")
    else if op == OP_JNZ || op == OP_LI then (RegText(dst), ImmText(imm))
    else (RegText(dst), RegText(src))
  }

  function UnknownText(op: nat): string {
    "  opcode 0x" + (if op < 16 then "0" else "") + Hex(op) + " (unrecognized)"
  }

  function Disassemble(w: Word): string {
    var op := DecodeOp(w);
    if op >= OP_COUNT then "???" + UnknownText(op)
    else
      var (name, gap) := Mnemonic(op);
      var (a, b) := OperandText(op, DecodeDst(w), DecodeSrc(w), DecodeImm(w));
      name + gap + a + if b == "" then "" else ", " + b
  }

  /** The instruction `w` stands for, with the fields its opcode ignores set to zero. */
  function Meaning(w: Word): Instr
    requires DecodeOp(w) < OP_COUNT
  {
    var op, dst, src, imm := DecodeOp(w), DecodeDst(w), DecodeSrc(w), DecodeImm(w);
    if op == OP_HALT then Instr(op, 0, 0, 0)
    else if op == OP_JUMP then Instr(op, 0, 0, imm)
    else if op == OP_IN || op == OP_RAND then Instr(op, dst, 0, 0)
    else if op == OP_LOAD || op == OP_STORE || op == OP_JNZ || op == OP_LI then Instr(op, dst, 0, imm)
    else Instr(op, dst, src, 0)
  }

  // ----- hexadecimal -----

  predicate HexDigits(s: string) {
    forall i :: 0 <= i < |s| ==> DigitOf(s[i]) < 16
  }

  lemma DigitOfChar(d: nat)
    requires d < 16
    ensures DigitOf(DigitChar(d)) == d
    ensures !IsCommaOrSpace(DigitChar(d)) && DigitChar(d) != ';' && DigitChar(d) != '\0' && DigitChar(d) != 'x'
  {
  }

  lemma {:induction false} HexValue(n: nat)
    ensures Hex(n) != [] && HexDigits(Hex(n)) && NumValue(Hex(n), 16) == n
    ensures Plain(Hex(n))
  {
    DigitOfChar(n % 16);
    if n < 16 {
      assert Hex(n)[..0] == [];
      assert NumValue([], 16) == 0;
    } else {
      HexValue(n / 16);
      assert Hex(n)[..|Hex(n)| - 1] == Hex(n / 16);
    }
  }

  /** No character that ends a token, a comment or a C string. */
  predicate Plain(s: string) {
    forall i :: 0 <= i < |s| ==> !IsCommaOrSpace(s[i]) && s[i] != ';' && s[i] != '\0'
  }

  lemma PlainCString(s: string)
    requires Plain(s)
    ensures CString(s) == s
  {
    SpanIs(s, c => c != '\0', |s|);
  }

  function HexDigit(d: nat): char
    requires d < 16
  {
    "0123456789abcdef"[d]
  }

  lemma DigitIs(d: nat)
    requires d < 16
    ensures DigitChar(d) == HexDigit(d)
    ensures HexDigit(d) == '0' <==> d == 0
  {
  }

  /** The text of `%x`: lower-case digits, the lowest last, without leading zeros. */
  lemma {:induction false} HexIs(n: nat)
    ensures n < 16 ==> Hex(n) == [HexDigit(n)]
    ensures n >= 16 ==> Hex(n) == Hex(n / 16) + [HexDigit(n % 16)]
    ensures Hex(n) != [] && (Hex(n)[0] == '0' <==> n == 0)
  {
    hide HexDigit, DigitChar;
    DigitIs(n % 16);
    if n >= 16 {
      HexIs(n / 16);
    }
  }

  // ----- operands -----

  lemma ParseRegText(r: nat)
    requires r < 8
    ensures ParseReg(RegText(r)) == Some(r) && Plain(RegText(r))
  {
    var d := [DigitChar(r)];
    DigitOfChar(r);
    assert RegText(r)[1..] == d;
    PlainCString(d);
    SpanIs(d, IsSpace, 0);
    assert d[0..] == d;
    SpanIs(d, c => DigitOf(c) < 10, 1);
    assert d[..1] == d && d[..0] == [];
    assert NumValue([], 10) == 0;
    assert NumValue(d, 10) == r;
  }

  lemma ParseImmText(imm: nat)
    requires imm < IMM_LIMIT
    ensures ParseImm(ImmText(imm)) == Some(imm) && Plain(ImmText(imm))
  {
    hide Hex, NumValue, CString, Span, DigitOf;
    HexValue(imm);
    var s, h := ImmText(imm), Hex(imm);
    assert Plain(s);
    PlainCString(s);
    SpanIs(s, IsSpace, 0);
    assert s[0..] == s && s[2..] == h;
    assert s[0] == '0' && s[1] == 'x' && s[2] == h[0];
    assert Radix(s) == (16, h);
    SpanIs(h, c => DigitOf(c) < 16, |h|);
    assert h[..|h|] == h && h[|h|..] == [];
  }

  lemma ParseImmBracketed(imm: nat)
    ensures ParseImm("[" + ImmText(imm) + "]").None? && Plain("[" + ImmText(imm) + "]")
  {
    HexValue(imm);
    var s := "[" + ImmText(imm) + "]";
    assert Plain(s);
    PlainCString(s);
    SpanIs(s, IsSpace, 0);
    assert s[0..] == s && s[0] == '[';
    SpanIs(s, c => DigitOf(c) < 10, 0);
  }

  // ----- tokens -----

  lemma NextTokenIs(s: string, gap: string, tok: string, rest: string)
    requires s == gap + tok + rest
    requires forall i :: 0 <= i < |gap| ==> IsSpace(gap[i])
    requires forall i :: 0 <= i < |tok| ==> !IsSpace(tok[i])
    requires rest != [] ==> IsSpace(rest[0])
    requires tok == [] ==> rest == []
    ensures NextToken(s) == (tok, rest)
  {
    var u := tok + rest;
    assert s == gap + u;
    assert forall i :: 0 <= i < |gap| ==> s[i] == gap[i];
    if u != [] {
      assert s[|gap|] == u[0];
    }
    SpanIs(s, IsSpace, |gap|);
    assert s[|gap|..] == u;
    SpanIs(u, c => !IsSpace(c), |tok|);
    assert u[..|tok|] == tok && u[|tok|..] == rest;
  }

  lemma StripPlain(s: string)
    requires Plain(s)
    ensures Strip(s, IsCommaOrSpace) == s && Strip(s, IsSpace) == s
  {
  }

  lemma StripTrailingComma(s: string)
    requires Plain(s)
    ensures Strip(s + ",", IsCommaOrSpace) == s
  {
    assert (s + ",")[..|s|] == s;
    StripPlain(s);
  }

  /** A line of a name and at most two operands, as the disassembler lays it out. */
  lemma LineOf(name: string, gap: string, a: string, b: string)
    requires name != "" && Plain(name) && Plain(a) && Plain(b)
    requires forall i :: 0 <= i < |gap| ==> gap[i] == ' '
    requires (a == "" ==> b == "" && gap == "") && (a != "" ==> gap != "")
    ensures ParseLine(name + gap + a + if b == "" then "" else ", " + b) ==
            var op := OpcodeOf(Upper(name));
            if op.None? then Bad else ParseOperands(op.value, a, b)
  {
    hide Upper, OpcodeOf, ParseOperands, Strip, NextToken, Span;
    var tail := if b == "" then "" else ", " + b;
    var line := name + gap + a + tail;
    TrimmedLine(line);
    var aTok := if b == "" then a else a + ",";
    var rest2 := if b == "" then "" else " " + b;
    NextTokenIs(line, "", name, gap + a + tail);
    assert gap + a + tail == gap + aTok + rest2;
    NextTokenIs(gap + a + tail, gap, aTok, rest2);
    NextTokenIs(rest2, if b == "" then "" else " ", b, "");
    StripPlain(a);
    StripPlain(b);
    StripTrailingComma(a);
  }

  /** A line without comment that begins and ends with visible characters is its own trimmed form. */
  lemma TrimmedLine(line: string)
    requires line != [] && !IsSpace(line[0]) && !IsSpace(line[|line| - 1])
    requires forall i :: 0 <= i < |line| ==> line[i] != ';'
    ensures Strip(StripComment(line), IsSpace) == line
  {
    SpanIs(line, c => c != ';', |line|);
    assert line[..|line|] == line;
  }

  lemma UpperOfUpper(s: string)
    requires forall i :: 0 <= i < |s| ==> !('a' <= s[i] <= 'z')
    ensures Upper(s) == s
  {
  }

  lemma MnemonicIsOpcode(op: nat)
    requires op < OP_COUNT
    ensures var (name, gap) := Mnemonic(op);
            && name != "" && Plain(name) && Upper(name) == name && OpcodeOf(name) == Some(op)
            && (forall i :: 0 <= i < |gap| ==> gap[i] == ' ') && (gap == "" <==> op == OP_HALT)
  {
    hide Upper;
    UpperOfUpper(Mnemonic(op).0);
  }

  lemma OperandsParse(w: Word)
    requires DecodeOp(w) < OP_COUNT
    ensures var op := DecodeOp(w);
            var (a, b) := OperandText(op, DecodeDst(w), DecodeSrc(w), DecodeImm(w));
            && Plain(a) && Plain(b) && (a == "" <==> op == OP_HALT) && (a == "" ==> b == "")
            && ParseOperands(op, a, b) == if op == OP_LOAD || op == OP_STORE then Bad else Good(Meaning(w))
  {
    hide ParseReg, ParseImm, RegText, ImmText;
    ParseRegText(DecodeDst(w));
    ParseRegText(DecodeSrc(w));
    ParseImmText(DecodeImm(w));
    ParseImmBracketed(DecodeImm(w));
    assert RegText(DecodeDst(w)) != "" && ImmText(DecodeImm(w)) != "" by {
      TextsAreVisible(DecodeDst(w), DecodeImm(w));
    }
  }

  lemma TextsAreVisible(r: nat, imm: nat)
    requires r < 8
    ensures RegText(r) != "" && ImmText(imm) != ""
  {
  }

  /**
   * Assembling the disassembler's line for `w` gives back the instruction, unused fields zeroed, exactly
   * when its opcode is valid and neither LOAD nor STORE, whose bracketed addresses the assembler rejects.
   */
  lemma DisassembleAssemble(w: Word)
    ensures var l := ParseLine(Disassemble(w));
            && (l.Good? <==> DecodeOp(w) < OP_COUNT && DecodeOp(w) != OP_LOAD && DecodeOp(w) != OP_STORE)
            && (l.Good? ==> l.instr == Meaning(w))
            && !l.Blank?
  {
    hide ParseLine, ParseOperands, Meaning, Mnemonic, OperandText, OpcodeOf, Upper, Plain;
    var op := DecodeOp(w);
    if op < OP_COUNT {
      MnemonicIsOpcode(op);
      OperandsParse(w);
      var (name, gap) := Mnemonic(op);
      var (a, b) := OperandText(op, DecodeDst(w), DecodeSrc(w), DecodeImm(w));
      LineOf(name, gap, a, b);
    } else {
      UnknownOpcodeLine(w);
    }
  }

  // ----- the text itself -----

  lemma TwoHexDigits(n: nat)
    requires n < 64
    ensures (if n < 16 then "0" else "") + Hex(n) == [HexDigit(n / 16), HexDigit(n % 16)]
  {
    DigitIs(n % 16);
    DigitIs(n / 16);
  }

  /** What is printed for `w`, from its bits. */
  lemma TextIs(w: Word)
    ensures var op, r, s, imm := w / 0x400_0000, w / 0x80_0000 % 8, w / 0x10_0000 % 8, w % 0x10_0000;
            var x, y, t := "R" + [HexDigit(r)], "R" + [HexDigit(s)], "0x" + Hex(imm);
            && (op == 0 ==> Disassemble(w) == "HALT")
            && (op == 1 ==> Disassemble(w) == "LOAD  " + x + ", [" + t + "]")
            && (op == 2 ==> Disassemble(w) == "STORE " + x + ", [" + t + "]")
            && (op == 3 ==> Disassemble(w) == "ADD   " + x + ", " + y)
            && (op == 4 ==> Disassemble(w) == "SUB   " + x + ", " + y)
            && (op == 5 ==> Disassemble(w) == "MUL   " + x + ", " + y)
            && (op == 6 ==> Disassemble(w) == "DIV   " + x + ", " + y)
            && (op == 7 ==> Disassemble(w) == "JUMP  " + t)
            && (op == 8 ==> Disassemble(w) == "JNZ   " + x + ", " + t)
            && (op == 9 ==> Disassemble(w) == "IN    " + x)
            && (op == 10 ==> Disassemble(w) == "RAND  " + x)
            && (op == 11 ==> Disassemble(w) == "LI    " + x + ", " + t)
            && (op >= 12 ==> Disassemble(w) ==
                             "???  opcode 0x" + [HexDigit(op / 16), HexDigit(op % 16)] + " (unrecognized)")
  {
    hide Hex, HexDigit, Disassemble, Mnemonic, OperandText;
    var op, r, s, imm := w / 0x400_0000, w / 0x80_0000 % 8, w / 0x10_0000 % 8, w % 0x10_0000;
    if op >= 12 {
      UnknownIs(w);
    } else {
      ColumnIs(op);
      OperandsAre(op, r, s, imm);
      LineIs(w);
    }
  }

  lemma UnknownIs(w: Word)
    requires w / 0x400_0000 >= 12
    ensures var op := w / 0x400_0000;
            Disassemble(w) == "???  opcode 0x" + [HexDigit(op / 16), HexDigit(op % 16)] + " (unrecognized)"
  {
    hide Hex, HexDigit;
    var op := w / 0x400_0000;
    TwoHexDigits(op);
    Regrouped("???", "  opcode 0x", if op < 16 then "0" else "", Hex(op), " (unrecognized)");
    UnknownPrefix();
  }

  lemma PrefixOf(a: string, b: string, c: string, d: string)
    ensures a + (b + c) + d == a + b + c + d
  {
  }

  lemma UnknownPrefix()
    ensures "???" + "  opcode 0x" == "???  opcode 0x"
  {
  }

  lemma Regrouped(a: string, b: string, c: string, d: string, e: string)
    ensures a + (b + c + d + e) == (a + b) + (c + d) + e
    ensures a + b + c + (d + e) == (a + b) + c + d + e
  {
  }

  lemma LineIs(w: Word)
    requires w / 0x400_0000 < 12
    ensures var op := w / 0x400_0000;
            var (a, b) := OperandText(op, w / 0x80_0000 % 8, w / 0x10_0000 % 8, w % 0x10_0000);
            Disassemble(w) == Mnemonic(op).0 + Mnemonic(op).1 + a + if b == "" then "" else ", " + b
  {
    hide OperandText, Mnemonic;
  }

  /** The mnemonic in its column of six characters, HALT excepted. */
  lemma ColumnIs(op: nat)
    requires op < 12
    ensures var column := Mnemonic(op).0 + Mnemonic(op).1;
            && (op == 0 ==> column == "HALT") && (op == 1 ==> column == "LOAD  ")
            && (op == 2 ==> column == "STORE ") && (op == 3 ==> column == "ADD   ")
            && (op == 4 ==> column == "SUB   ") && (op == 5 ==> column == "MUL   ")
            && (op == 6 ==> column == "DIV   ") && (op == 7 ==> column == "JUMP  ")
            && (op == 8 ==> column == "JNZ   ") && (op == 9 ==> column == "IN    ")
            && (op == 10 ==> column == "RAND  ") && (op == 11 ==> column == "LI    ")
  {
  }

  lemma OperandsAre(op: nat, r: nat, s: nat, imm: nat)
    requires op < 12 && r < 8 && s < 8
    ensures var x, y, t := "R" + [HexDigit(r)], "R" + [HexDigit(s)], "0x" + Hex(imm);
            var text := OperandText(op, r, s, imm);
            && x != "" && y != "" && t != ""
            && (op == 0 ==> text == ("", ""))
            && (op == 1 || op == 2 ==> text == (x, "[" + t + "]") && text.1 != "")
            && (3 <= op <= 6 ==> text == (x, y))
            && (op == 7 ==> text == (t, ""))
            && (op == 8 || op == 11 ==> text == (x, t))
            && (op == 9 || op == 10 ==> text == (x, ""))
  {
    hide Hex, HexDigit, DigitChar;
    DigitIs(r);
    DigitIs(s);
    assert "R" + [HexDigit(r)] == RegText(r) && "R" + [HexDigit(s)] == RegText(s);
  }

  /** Without its brackets the printed LOAD or STORE is assembled back, too. */
  lemma BracketsAside(w: Word)
    requires w / 0x400_0000 == 1 || w / 0x400_0000 == 2
    ensures var r, t := w / 0x80_0000 % 8, "0x" + Hex(w % 0x10_0000);
            var pre := (if w / 0x400_0000 == 1 then "LOAD  " else "STORE ") + "R" + [HexDigit(r)] + ", ";
            && Disassemble(w) == pre + "[" + t + "]"
            && ParseLine(pre + t) == Good(Instr(w / 0x400_0000, r, 0, w % 0x10_0000))
  {
    hide ParseLine, ParseReg, ParseImm, Hex, OpcodeOf, Upper, Plain, Disassemble, Mnemonic, HexDigit, DigitChar;
    var op, r, imm := w / 0x400_0000, w / 0x80_0000 % 8, w % 0x10_0000;
    TextIs(w);
    DigitIs(r);
    assert RegText(r) == "R" + [HexDigit(r)];
    MnemonicIsOpcode(op);
    ParseRegText(r);
    ParseImmText(imm);
    TextsAreVisible(r, imm);
    var (name, gap) := Mnemonic(op);
    ColumnIs(op);
    LineOf(name, gap, RegText(r), ImmText(imm));
    Regrouped(name, gap, RegText(r), ", ", ImmText(imm));
    PrefixOf(name + gap, "R", [HexDigit(r)], ", ");
  }

  lemma UnknownTextShape(op: nat)
    ensures var t := UnknownText(op);
            && t != "" && t[0] == ' ' && t[|t| - 1] == ')'
            && forall i :: 0 <= i < |t| ==> t[i] != ';'
  {
    hide Hex, NumValue;
    HexValue(op);
  }

  lemma UnknownOpcodeLine(w: Word)
    requires DecodeOp(w) >= OP_COUNT
    ensures ParseLine(Disassemble(w)).Bad?
  {
    hide ParseOperands, NextToken, Strip, StripComment, UnknownText, DecodeOp, Mnemonic, OperandText, Upper;
    var t := UnknownText(DecodeOp(w));
    UnknownTextShape(DecodeOp(w));
    var line := "???" + t;
    assert line[|line| - 1] == t[|t| - 1];
    TrimmedLine(line);
    assert line == "" + "???" + t;
    NextTokenIs(line, "", "???", t);
    UpperOfUpper("???");
  }

  lemma EncodeFields(w: Word, i: Instr)
    requires ValidInstr(i)
    ensures EncodeInstr(i) == w <==> i == Instr(DecodeOp(w), DecodeDst(w), DecodeSrc(w), DecodeImm(w))
  {
    hide Encode, DecodeOp, DecodeDst, DecodeSrc, DecodeImm;
    EncodeOfDecode(w);
    FieldsOf(i);
  }

  /** The whole word comes back exactly when the fields its opcode ignores are zero. */
  lemma RoundTripOfCanonical(w: Word)
    requires ParseLine(Disassemble(w)).Good? && DecodeOp(w) < OP_COUNT
    ensures EncodeInstr(ParseLine(Disassemble(w)).instr) == w <==>
            Meaning(w) == Instr(DecodeOp(w), DecodeDst(w), DecodeSrc(w), DecodeImm(w))
  {
    hide *;
    DisassembleAssemble(w);
    EncodeFields(w, ParseLine(Disassemble(w)).instr);
  }
}
