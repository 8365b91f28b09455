/** The line assembler: text to instruction words, words to little-endian bytes. */
module Assembler {
  import opened Words
  import opened Opcodes
  import opened Memory
  import opened Machine

  // ----- characters and strings -----

  predicate IsSpace(c: char) {
    c == ' ' || '\t' <= c <= '\r'
  }

  function ToUpper(c: char): char {
    if 'a' <= c <= 'z' then c - 'a' + 'A' else c
  }

  predicate IsCommaOrSpace(c: char) {
    c == ',' || IsSpace(c)
  }

  /** `s` without its longest tail, then its longest head, of characters in `drop`. */
  function Strip(s: string, drop: char -> bool): string {
    StripHead(StripTail(s, drop), drop)
  }

  function StripTail(s: string, drop: char -> bool): string {
    if s != [] && drop(s[|s| - 1]) then StripTail(s[..|s| - 1], drop) else s
  }

  function StripHead(s: string, drop: char -> bool): string {
    if s != [] && drop(s[0]) then StripHead(s[1..], drop) else s
  }

  /** The length of the longest head of `s` whose characters satisfy `p`. */
  function Span(s: string, p: char -> bool): (n: nat)
    ensures n <= |s|
    ensures forall i :: 0 <= i < n ==> p(s[i])
    ensures n < |s| ==> !p(s[n])
  {
    if s != [] && p(s[0]) then 1 + Span(s[1..], p) else 0
  }

  lemma {:induction false} SpanIs(s: string, p: char -> bool, n: nat)
    requires n <= |s| && (forall i :: 0 <= i < n ==> p(s[i])) && (n < |s| ==> !p(s[n]))
    ensures Span(s, p) == n
  {
    if n > 0 {
      SpanIs(s[1..], p, n - 1);
    }
  }

  function StripComment(line: string): string {
    line[..Span(line, c => c != ';')]
  }

  /** `stream >> token`: the token and the rest; the token is empty at the end of the stream. */
  function NextToken(s: string): (string, string) {
    var u := s[Span(s, IsSpace)..];
    var n := Span(u, c => !IsSpace(c));
    (u[..n], u[n..])
  }

  /** A C string ends at its first NUL. */
  function CString(s: string): string {
    s[..Span(s, c => c != '\0')]
  }

  // ----- numbers -----

  /** The value of a digit, 36 when it is none. */
  function DigitOf(c: char): nat {
    if '0' <= c <= '9' then (c - '0') as nat
    else if 'a' <= c <= 'z' then (c - 'a') as nat + 10
    else if 'A' <= c <= 'Z' then (c - 'A') as nat + 10
    else 36
  }

  function NumValue(s: string, base: nat): nat {
    if s == [] then 0 else NumValue(s[..|s| - 1], base) * base + DigitOf(s[|s| - 1])
  }

  predicate IsSign(c: char) {
    c == '+' || c == '-'
  }

  /** `atoi`, on integers without bound. */
  function Atoi(tok: string): int {
    var u := CString(tok)[Span(CString(tok), IsSpace)..];
    var digits := if u != [] && IsSign(u[0]) then u[1..] else u;
    var v: int := NumValue(digits[..Span(digits, c => DigitOf(c) < 10)], 10);
    if u != [] && u[0] == '-' then -v else v
  }

  predicate HasHexPrefix(s: string) {
    |s| >= 3 && s[0] == '0' && (s[1] == 'x' || s[1] == 'X') && DigitOf(s[2]) < 16
  }

  /** `strtoul(tok, &end, 0)` on 64-bit longs: the value and what `end` points at. */
  function StrToUl(tok: string): (nat, string) {
    var s := CString(tok);
    var u := s[Span(s, IsSpace)..];
    var signed := u != [] && IsSign(u[0]);
    var (base, digits) := Radix(if signed then u[1..] else u);
    var n := Span(digits, c => DigitOf(c) < base);
    var v := NumValue(digits[..n], base);
    if n == 0 then (0, s)
    else if v >= TWO_64 then (TWO_64 - 1, digits[n..])
    else (if signed && u[0] == '-' then (TWO_64 - v) % TWO_64 else v, digits[n..])
  }

  /** The base an unsigned literal is written in, and its digits. */
  function Radix(s: string): (nat, string) {
    if HasHexPrefix(s) then (16, s[2..])
    else if s != [] && s[0] == '0' then (8, s)
    else (10, s)
  }

  function ParseReg(tok: string): (r: Option<nat>)
    ensures r.Some? ==> r.value < 8
  {
    if |tok| < 2 || ToUpper(tok[0]) != 'R' then None
    else
      var n := Atoi(tok[1..]);
      if 0 <= n <= 7 then Some(n) else None
  }

  function ParseImm(tok: string): (r: Option<nat>)
    ensures r.Some? ==> r.value < IMM_LIMIT
  {
    if tok == [] then None
    else
      var (v, end) := StrToUl(tok);
      if end != [] || v > 0xFFFFF then None else Some(v)
  }

  // ----- lines -----

  /** The fields of one instruction. */
  datatype Instr = Instr(op: Byte, dst: nat, src: nat, imm: nat)

  predicate ValidInstr(i: Instr) {
    i.op < OP_COUNT && i.dst < 8 && i.src < 8 && i.imm < IMM_LIMIT
  }

  datatype Line = Blank | Bad | Good(instr: Instr)

  function OpcodeOf(name: string): (op: Option<Byte>)
    ensures op.Some? ==> op.value < OP_COUNT
  {
    if name == "HALT" then Some(OP_HALT)
    else if name == "LOAD" then Some(OP_LOAD)
    else if name == "STORE" then Some(OP_STORE)
    else if name == "ADD" then Some(OP_ADD)
    else if name == "SUB" then Some(OP_SUB)
    else if name == "MUL" then Some(OP_MUL)
    else if name == "DIV" then Some(OP_DIV)
    else if name == "JUMP" then Some(OP_JUMP)
    else if name == "JNZ" then Some(OP_JNZ)
    else if name == "IN" then Some(OP_IN)
    else if name == "RAND" then Some(OP_RAND)
    else if name == "LI" then Some(OP_LI)
    else None
  }

  function Upper(s: string): (u: string)
    ensures |u| == |s|
  {
    seq(|s|, i requires 0 <= i < |s| => ToUpper(s[i]))
  }

  function ParseOperands(op: Byte, a: string, b: string): (l: Line)
    requires op < OP_COUNT
    ensures !l.Blank? && (l.Good? ==> ValidInstr(l.instr))
  {
    if op == OP_HALT then Good(Instr(op, 0, 0, 0))
    else if op == OP_JUMP then
      var imm := ParseImm(a);
      if imm.None? then Bad else Good(Instr(op, 0, 0, imm.value))
    else
      var dst := ParseReg(a);
      if dst.None? then Bad
      else if op == OP_IN || op == OP_RAND then Good(Instr(op, dst.value, 0, 0))
      else if op == OP_ADD || op == OP_SUB || op == OP_MUL || op == OP_DIV then
        var src := ParseReg(b);
        if src.None? then Bad else Good(Instr(op, dst.value, src.value, 0))
      else
        var imm := ParseImm(b);
        if imm.None? then Bad else Good(Instr(op, dst.value, 0, imm.value))
  }

  function ParseTokens(opText: string, a: string, b: string): (l: Line)
    ensures !l.Blank? && (l.Good? ==> ValidInstr(l.instr))
  {
    var op := OpcodeOf(Upper(opText));
    if op.None? then Bad else ParseOperands(op.value, Strip(a, IsCommaOrSpace), Strip(b, IsCommaOrSpace))
  }

  function ParseLine(raw: string): (l: Line)
    ensures l.Good? ==> ValidInstr(l.instr)
  {
    var line := Strip(StripComment(raw), IsSpace);
    if line == [] then Blank
    else
      var (opText, rest) := NextToken(line);
      var (a, rest') := NextToken(rest);
      var (b, _) := NextToken(rest');
      ParseTokens(opText, a, b)
  }

  function EncodeInstr(i: Instr): Word
    requires ValidInstr(i)
  {
    Encode(i.op, i.dst, i.src, i.imm)
  }

  /** The instructions of a source, blank lines dropped; none when a line is bad. */
  function ParseSource(lines: seq<string>): (r: Option<seq<Instr>>)
    ensures r.Some? ==> forall i :: 0 <= i < |r.value| ==> ValidInstr(r.value[i])
  {
    if lines == [] then Some([])
    else
      var front, last := ParseSource(lines[..|lines| - 1]), ParseLine(lines[|lines| - 1]);
      if front.None? || last.Bad? then None
      else if last.Blank? then front
      else Some(front.value + [last.instr])
  }

  function EncodeAll(instrs: seq<Instr>): seq<Word>
    requires forall i :: 0 <= i < |instrs| ==> ValidInstr(instrs[i])
  {
    seq(|instrs|, i requires 0 <= i < |instrs| => EncodeInstr(instrs[i]))
  }

  function Emit(words: seq<Word>): (b: seq<Byte>)
    ensures |b| == 4 * |words|
  {
    if words == [] then [] else Emit(words[..|words| - 1]) + Bytes(words[|words| - 1])
  }

  // ----- from the listing to the fetch -----

  lemma {:induction false} EmitAt(words: seq<Word>, i: nat)
    requires i < |words|
    ensures Emit(words)[4 * i..4 * i + 4] == Bytes(words[i])
  {
    var n := |words| - 1;
    if i < n {
      EmitAt(words[..n], i);
    }
  }

  /** Byte `4i + k` of the file written is the k-th lowest byte of the i-th word. */
  lemma EmittedByte(words: seq<Word>, i: nat, k: nat)
    requires i < |words| && k < 4
    ensures Emit(words)[4 * i + k] == words[i] / [1, 0x100, 0x1_0000, 0x100_0000][k] % 256
  {
    hide Emit, Bytes;
    EmitAt(words, i);
    FourAt(Emit(words), 4 * i, Bytes(words[i]));
    BytesAre(words[i], k);
  }

  lemma BytesAre(w: Word, k: nat)
    requires k < 4
    ensures Bytes(w)[k] == w / [1, 0x100, 0x1_0000, 0x100_0000][k] % 256
  {
  }

  lemma LoadInside(m: Mem, a: nat)
    requires a + 3 < MEM_SIZE
    ensures Load32(m, a) == Join(m[a], m[a + 1], m[a + 2], m[a + 3])
  {
    hide Cell, Join;
    CellInside(a);
  }

  /** After loading, the word at address 4i is the i-th emitted. */
  lemma LoadOfImage(words: seq<Word>, i: nat)
    requires i < |words| && 4 * |words| <= MEM_SIZE
    ensures Load32(LoadImage(Emit(words)), 4 * i) == words[i]
  {
    hide Load32, Join, ByteOf, Bytes, Emit, LoadImage;
    EmitAt(words, i);
    var a, image := 4 * i, LoadImage(Emit(words));
    var e := Bytes(words[i]);
    FourAt(Emit(words), a, e);
    ImageHolds(Emit(words), a);
    LoadInside(image, a);
    JoinOfFour(words[i]);
  }

  lemma FourAt(b: seq<Byte>, a: nat, e: seq<Byte>)
    requires a + 4 <= |b| && b[a..a + 4] == e
    ensures |e| == 4 && b[a] == e[0] && b[a + 1] == e[1] && b[a + 2] == e[2] && b[a + 3] == e[3]
  {
  }

  lemma ImageHolds(b: seq<Byte>, a: nat)
    requires a + 4 <= |b| <= MEM_SIZE
    ensures forall k :: a <= k < a + 4 ==> LoadImage(b)[k] == b[k]
  {
  }

  lemma JoinOfFour(w: Word)
    ensures Join(Bytes(w)[0], Bytes(w)[1], Bytes(w)[2], Bytes(w)[3]) == w
  {
    JoinOfBytes(w);
  }

  /** The line the i-th instruction comes from: the i-th that is not blank. */
  function SourceLines(lines: seq<string>): seq<string> {
    if lines == [] then []
    else SourceLines(lines[..|lines| - 1]) + if ParseLine(lines[|lines| - 1]).Blank? then [] else [lines[|lines| - 1]]
  }

  lemma {:induction false} InstrsOfLines(lines: seq<string>)
    requires ParseSource(lines).Some?
    ensures var instrs := ParseSource(lines).value;
            && |instrs| == |SourceLines(lines)|
            && forall i :: 0 <= i < |instrs| ==> ParseLine(SourceLines(lines)[i]) == Good(instrs[i])
  {
    hide ParseLine;
    if lines != [] {
      InstrsOfLines(lines[..|lines| - 1]);
    }
  }

  /**
   * For every accepted source that fits in memory, the fetch at 4i decodes to the opcode, registers and
   * immediate written in the i-th line that is not blank.
   */
  lemma AssembleToFetch(lines: seq<string>, i: nat)
    requires ParseSource(lines).Some? && 4 * |ParseSource(lines).value| <= MEM_SIZE
    requires i < |SourceLines(lines)|
    ensures var words := EncodeAll(ParseSource(lines).value);
            var w := Load32(LoadImage(Emit(words)), 4 * i);
            && |words| == |SourceLines(lines)| && w == words[i]
            && ParseLine(SourceLines(lines)[i]) == Good(Instr(DecodeOp(w), DecodeDst(w), DecodeSrc(w), DecodeImm(w)))
  {
    hide ParseLine, Load32, Encode, DecodeOp, DecodeDst, DecodeSrc, DecodeImm, Emit, ParseSource, SourceLines;
    InstrsOfLines(lines);
    LoadOfImage(EncodeAll(ParseSource(lines).value), i);
    FieldsOf(ParseSource(lines).value[i]);
  }

  lemma FieldsOf(i: Instr)
    requires ValidInstr(i)
    ensures var w := EncodeInstr(i); i == Instr(DecodeOp(w), DecodeDst(w), DecodeSrc(w), DecodeImm(w))
  {
    hide Encode, DecodeOp, DecodeDst, DecodeSrc, DecodeImm;
    DecodeOfEncode(i.op, i.dst, i.src, i.imm);
  }

  // ----- the loops of the assembler -----

  method StripComma(s: string) returns (r: string)
    ensures r == Strip(s, IsCommaOrSpace)
  {
    r := s;
    while r != [] && (r[|r| - 1] == ',' || IsSpace(r[|r| - 1]))
      invariant StripTail(r, IsCommaOrSpace) == StripTail(s, IsCommaOrSpace)
      decreases |r|
    {
      r := r[..|r| - 1];
    }
    while r != [] && (r[0] == ',' || IsSpace(r[0]))
      invariant StripHead(r, IsCommaOrSpace) == Strip(s, IsCommaOrSpace)
      decreases |r|
    {
      r := r[1..];
    }
  }

  method Trim(s: string) returns (r: string)
    ensures r == Strip(s, IsSpace)
  {
    r := s;
    while r != [] && IsSpace(r[|r| - 1])
      invariant StripTail(r, IsSpace) == StripTail(s, IsSpace)
      decreases |r|
    {
      r := r[..|r| - 1];
    }
    while r != [] && IsSpace(r[0])
      invariant StripHead(r, IsSpace) == Strip(s, IsSpace)
      decreases |r|
    {
      r := r[1..];
    }
  }

  method ReadLine(raw: string) returns (l: Line)
    ensures l == ParseLine(raw)
  {
    hide Strip, NextToken, OpcodeOf, ParseOperands;
    var line := Trim(StripComment(raw));
    if line == [] {
      return Blank;
    }
    var (opText, rest) := NextToken(line);
    var (a, rest') := NextToken(rest);
    var (b, _) := NextToken(rest');
    a := StripComma(a);
    b := StripComma(b);
    var op := OpcodeOf(Upper(opText));
    l := if op.None? then Bad else ParseOperands(op.value, a, b);
  }

  /** Writes every word low byte first. */
  method EmitWords(words: seq<Word>) returns (bytes: seq<Byte>)
    ensures bytes == Emit(words)
  {
    bytes := [];
    var i := 0;
    while i < |words|
      invariant 0 <= i <= |words|
      invariant bytes == Emit(words[..i])
    {
      var w := words[i];
      bytes := bytes + [ByteOf(w, 0), ByteOf(w, 1), ByteOf(w, 2), ByteOf(w, 3)];
      assert words[..i + 1][..i] == words[..i];
      i := i + 1;
    }
    assert words[..i] == words;
  }

  /** Assembles line by line, stopping at the first bad one, and emits the words. */
  method AssembleFile(lines: seq<string>) returns (ok: bool, words: seq<Word>, bytes: seq<Byte>)
    ensures ok <==> ParseSource(lines).Some?
    ensures ok ==> words == EncodeAll(ParseSource(lines).value) && bytes == Emit(words)
  {
    hide ParseLine, Encode, Emit;
    words, bytes := [], [];
    var n := 0;
    while n < |lines|
      invariant 0 <= n <= |lines|
      invariant ParseSource(lines[..n]).Some? && words == EncodeAll(ParseSource(lines[..n]).value)
    {
      assert lines[..n + 1][..n] == lines[..n];
      var parsed := ReadLine(lines[n]);
      match parsed {
        case Blank =>
        case Bad =>
          BadLineRejects(lines, n);
          return false, words, bytes;
        case Good(instr) =>
          words := words + [EncodeInstr(instr)];
      }
      n := n + 1;
    }
    assert lines[..n] == lines;
    bytes := EmitWords(words);
    ok := true;
  }

  lemma {:induction false} BadLineRejects(lines: seq<string>, n: nat)
    requires n < |lines| && ParseLine(lines[n]).Bad?
    ensures ParseSource(lines).None?
  {
    hide ParseLine;
    if n < |lines| - 1 {
      BadLineRejects(lines[..|lines| - 1], n);
    }
  }
}
