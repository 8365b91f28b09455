/**
 * What a line of assembly means, from its characters: white space, commas, comments, letter case, the
 * twelve mnemonics and their operands.
 */
module SourceText {
  import opened Words
  import opened Opcodes
  import opened Memory
  import opened Machine
  import opened Assembler
  import opened Disassembler
  import opened Literals
  import opened Instructions

  const WHITE := " \t\n\U{000B}\U{000C}\r"

  predicate White(s: string) {
    forall i :: 0 <= i < |s| ==> s[i] in WHITE
  }

  /** Neither white space nor the start of a comment. */
  predicate Visible(s: string) {
    forall i :: 0 <= i < |s| ==> s[i] !in WHITE && s[i] != ';'
  }

  lemma WhiteIsSpace(c: char)
    ensures IsSpace(c) <==> c in WHITE
  {
    assert WHITE[0] == ' ' && WHITE[1] == '\t' && WHITE[2] == '\n';
    assert WHITE[3] == '\U{000B}' && WHITE[4] == '\U{000C}' && WHITE[5] == '\r';
  }

  // ----- what is stripped -----

  lemma {:induction false} StripsTail(s: string, t: string, drop: char -> bool)
    requires forall i :: 0 <= i < |t| ==> drop(t[i])
    requires s != [] ==> !drop(s[|s| - 1])
    ensures StripTail(s + t, drop) == s
    decreases |t|
  {
    if t == [] {
      assert s + t == s;
    } else {
      assert (s + t)[..|s + t| - 1] == s + t[..|t| - 1];
      StripsTail(s, t[..|t| - 1], drop);
    }
  }

  lemma {:induction false} StripsHead(t: string, s: string, drop: char -> bool)
    requires forall i :: 0 <= i < |t| ==> drop(t[i])
    requires s != [] ==> !drop(s[0])
    ensures StripHead(t + s, drop) == s
    decreases |t|
  {
    if t == [] {
      assert t + s == s;
    } else {
      assert (t + s)[1..] == t[1..] + s;
      StripsHead(t[1..], s, drop);
    }
  }

  lemma StripsEnds(head: string, s: string, tail: string, drop: char -> bool)
    requires forall i :: 0 <= i < |head| ==> drop(head[i])
    requires forall i :: 0 <= i < |tail| ==> drop(tail[i])
    requires s != [] && !drop(s[0]) && !drop(s[|s| - 1])
    ensures Strip(head + s + tail, drop) == s
  {
    StripsTail(head + s, tail, drop);
    StripsHead(head, s, drop);
  }

  lemma {:induction false} StripsAll(s: string, drop: char -> bool)
    ensures StripTail(s, drop) == [] <==> forall i :: 0 <= i < |s| ==> drop(s[i])
  {
    if s != [] && drop(s[|s| - 1]) {
      StripsAll(s[..|s| - 1], drop);
      assert forall i :: 0 <= i < |s| - 1 ==> s[..|s| - 1][i] == s[i];
    }
  }

  lemma {:induction false} TailLeft(s: string, drop: char -> bool)
    ensures StripTail(s, drop) != [] ==> !drop(StripTail(s, drop)[|StripTail(s, drop)| - 1])
  {
    if s != [] && drop(s[|s| - 1]) {
      TailLeft(s[..|s| - 1], drop);
    }
  }

  lemma {:induction false} HeadLeft(s: string, drop: char -> bool)
    requires s != [] && !drop(s[|s| - 1])
    ensures StripHead(s, drop) != []
  {
    if drop(s[0]) {
      HeadLeft(s[1..], drop);
    }
  }

  /** A line is ignored exactly when there is nothing but white space before its end or its comment. */
  lemma BlankIff(raw: string)
    ensures ParseLine(raw).Blank? <==>
            exists n: nat :: n <= |raw| && (n == |raw| || raw[n] == ';') && White(raw[..n])
  {
    hide Strip, NextToken, ParseTokens;
    var k := Span(raw, c => c != ';');
    var text := StripComment(raw);
    assert forall i :: 0 <= i < k ==> text[i] == raw[i];
    NothingLeft(text);
    if White(text) {
      assert White(raw[..k]);
    }
    if n: nat :| n <= |raw| && (n == |raw| || raw[n] == ';') && White(raw[..n]) {
      assert forall i :: 0 <= i < n ==> raw[i] == raw[..n][i] && raw[i] != ';';
      SpanIs(raw, c => c != ';', n);
      assert White(text);
    }
  }

  lemma NothingLeft(s: string)
    ensures Strip(s, IsSpace) == [] <==> White(s)
  {
    forall i | 0 <= i < |s| ensures IsSpace(s[i]) <==> s[i] in WHITE {
      WhiteIsSpace(s[i]);
    }
    StripsAll(s, IsSpace);
    TailLeft(s, IsSpace);
    if StripTail(s, IsSpace) != [] {
      HeadLeft(StripTail(s, IsSpace), IsSpace);
    }
  }

  // ----- the words of a line -----

  /** The parts of a line with up to three words and more that is ignored. */
  predicate Layout(lead: string, name: string, g1: string, a: string, g2: string, b: string, more: string,
                   trail: string, comment: string)
  {
    && White(lead) && White(g1) && White(g2) && White(trail)
    && name != "" && Visible(name) && Visible(a) && Visible(b)
    && (forall i :: 0 <= i < |more| ==> more[i] != ';')
    && (a == "" <==> g1 == "") && (b == "" <==> g2 == "") && (a == "" ==> b == "") && (b == "" ==> more == "")
    && (more != "" ==> more[0] in WHITE && more[|more| - 1] !in WHITE)
    && (comment != "" ==> comment[0] == ';')
  }

  function LineText(lead: string, name: string, g1: string, a: string, g2: string, b: string, more: string,
                    trail: string, comment: string): string
  {
    lead + (name + g1 + a + g2 + b + more) + trail + comment
  }

  lemma WordsOf(lead: string, name: string, g1: string, a: string, g2: string, b: string, more: string,
                trail: string, comment: string)
    requires Layout(lead, name, g1, a, g2, b, more, trail, comment)
    ensures ParseLine(LineText(lead, name, g1, a, g2, b, more, trail, comment)) == ParseTokens(name, a, b)
  {
    hide ParseTokens, Strip, StripComment, NextToken, Layout;
    var core := name + g1 + a + g2 + b + more;
    CoreOf(lead, name, g1, a, g2, b, more, trail, comment);
    TextOf(lead, core, trail, comment);
    CoreWords(lead, name, g1, a, g2, b, more, trail, comment);
  }

  lemma CoreOf(lead: string, name: string, g1: string, a: string, g2: string, b: string, more: string,
               trail: string, comment: string)
    requires Layout(lead, name, g1, a, g2, b, more, trail, comment)
    ensures var core := name + g1 + a + g2 + b + more;
            && core != "" && core[0] !in WHITE && core[|core| - 1] !in WHITE
            && (forall i :: 0 <= i < |core| ==> core[i] != ';')
            && White(lead) && White(trail) && (comment != "" ==> comment[0] == ';')
  {
    assert forall c :: c in WHITE ==> c != ';';
  }

  lemma TextOf(lead: string, core: string, trail: string, comment: string)
    requires core != "" && core[0] !in WHITE && core[|core| - 1] !in WHITE
    requires forall i :: 0 <= i < |core| ==> core[i] != ';'
    requires White(lead) && White(trail) && (comment != "" ==> comment[0] == ';')
    ensures Strip(StripComment(lead + core + trail + comment), IsSpace) == core
  {
    hide Strip;
    var text := lead + core + trail;
    assert forall c :: c in WHITE ==> c != ';';
    SpanIs(text + comment, c => c != ';', |text|);
    assert (text + comment)[..|text|] == text;
    forall c ensures IsSpace(c) <==> c in WHITE {
      WhiteIsSpace(c);
    }
    StripsEnds(lead, core, trail, IsSpace);
  }

  lemma CoreWords(lead: string, name: string, g1: string, a: string, g2: string, b: string, more: string,
                  trail: string, comment: string)
    requires Layout(lead, name, g1, a, g2, b, more, trail, comment)
    ensures var tail2 := g2 + b + more;
            var tail1 := g1 + a + tail2;
            && NextToken(name + g1 + a + g2 + b + more) == (name, tail1)
            && NextToken(tail1) == (a, tail2) && NextToken(tail2) == (b, more)
  {
    hide NextToken, IsSpace;
    forall c ensures IsSpace(c) <==> c in WHITE {
      WhiteIsSpace(c);
    }
    var tail2 := g2 + b + more;
    var tail1 := g1 + a + tail2;
    assert name + g1 + a + g2 + b + more == "" + name + tail1;
    NextTokenIs("" + name + tail1, "", name, tail1);
    NextTokenIs(tail1, g1, a, tail2);
    NextTokenIs(tail2, g2, b, more);
  }

  // ----- the meaning of a line -----

  /** `name` is the mnemonic `upper`, in letters of either case. */
  predicate Spells(name: string, upper: string) {
    && |name| == |upper|
    && forall i :: 0 <= i < |name| ==> name[i] == upper[i] || name[i] as int == upper[i] as int + 32
  }

  predicate Capitals(s: string) {
    forall i :: 0 <= i < |s| ==> 'A' <= s[i] <= 'Z'
  }

  lemma UpperIs(name: string, upper: string)
    requires Capitals(upper)
    ensures Upper(name) == upper <==> Spells(name, upper)
  {
    if Upper(name) == upper {
      assert forall i :: 0 <= i < |name| ==> Upper(name)[i] == ToUpper(name[i]);
    }
  }

  function RegOnly(op: Byte, a: string): Line {
    if ParseReg(a).Some? then Good(Instr(op, ParseReg(a).value, 0, 0)) else Bad
  }

  function RegReg(op: Byte, a: string, b: string): Line {
    if ParseReg(a).Some? && ParseReg(b).Some? then Good(Instr(op, ParseReg(a).value, ParseReg(b).value, 0)) else Bad
  }

  function RegImm(op: Byte, a: string, b: string): Line {
    if ParseReg(a).Some? && ParseImm(b).Some? then Good(Instr(op, ParseReg(a).value, 0, ParseImm(b).value)) else Bad
  }

  /** The instruction set as written: each mnemonic's number and operands. */
  function Meant(name: string, a: string, b: string): Line {
    if Spells(name, "HALT") then Good(Instr(0, 0, 0, 0))
    else if Spells(name, "LOAD") then RegImm(1, a, b)
    else if Spells(name, "STORE") then RegImm(2, a, b)
    else if Spells(name, "ADD") then RegReg(3, a, b)
    else if Spells(name, "SUB") then RegReg(4, a, b)
    else if Spells(name, "MUL") then RegReg(5, a, b)
    else if Spells(name, "DIV") then RegReg(6, a, b)
    else if Spells(name, "JUMP") then if ParseImm(a).Some? then Good(Instr(7, 0, 0, ParseImm(a).value)) else Bad
    else if Spells(name, "JNZ") then RegImm(8, a, b)
    else if Spells(name, "IN") then RegOnly(9, a)
    else if Spells(name, "RAND") then RegOnly(10, a)
    else if Spells(name, "LI") then RegImm(11, a, b)
    else Bad
  }

  predicate Commas(s: string) {
    forall k :: 0 <= k < |s| ==> s[k] == ','
  }

  /** `word` is the operand `a` with any commas around it. */
  ghost predicate Holds(word: string, a: string) {
    && (a != "" ==> a[0] != ',' && a[|a| - 1] != ',')
    && exists head, tail :: Commas(head) && Commas(tail) && word == head + a + tail
  }

  lemma CommasStripped(word: string, a: string)
    requires Visible(word) && Holds(word, a)
    ensures Strip(word, IsCommaOrSpace) == a
  {
    hide Strip;
    var head, tail :| Commas(head) && Commas(tail) && word == head + a + tail;
    assert forall k :: 0 <= k < |a| ==> a[k] == word[|head| + k];
    CommasAround(head, a, tail);
  }

  lemma HoldsItself(a: string)
    requires a != "" ==> a[0] != ',' && a[|a| - 1] != ','
    ensures Holds(a, a) && Holds(a + ",", a)
  {
    assert Commas("") && Commas(",");
    assert a == "" + a + "" && a + "," == "" + a + ",";
  }

  lemma CommasAround(head: string, a: string, tail: string)
    requires Commas(head) && Commas(tail) && Visible(a)
    requires a != "" ==> a[0] != ',' && a[|a| - 1] != ','
    ensures Strip(head + a + tail, IsCommaOrSpace) == a
  {
    hide IsSpace;
    if a == "" {
      assert head + a + tail == head + tail;
      StripsAll(head + tail, IsCommaOrSpace);
    } else {
      WhiteIsSpace(a[0]);
      WhiteIsSpace(a[|a| - 1]);
      StripsEnds(head, a, tail, IsCommaOrSpace);
    }
  }

  lemma NamedTokens(name: string, wordA: string, wordB: string, a: string, b: string)
    requires Strip(wordA, IsCommaOrSpace) == a && Strip(wordB, IsCommaOrSpace) == b
    ensures ParseTokens(name, wordA, wordB) == Meant(name, a, b)
  {
    hide Strip, ParseReg, ParseImm, Upper, Spells;
    Names(name);
  }

  lemma Names(name: string)
    ensures var u := Upper(name);
            && (u == "HALT" <==> Spells(name, "HALT")) && (u == "LOAD" <==> Spells(name, "LOAD"))
            && (u == "STORE" <==> Spells(name, "STORE")) && (u == "ADD" <==> Spells(name, "ADD"))
            && (u == "SUB" <==> Spells(name, "SUB")) && (u == "MUL" <==> Spells(name, "MUL"))
            && (u == "DIV" <==> Spells(name, "DIV")) && (u == "JUMP" <==> Spells(name, "JUMP"))
            && (u == "JNZ" <==> Spells(name, "JNZ")) && (u == "IN" <==> Spells(name, "IN"))
            && (u == "RAND" <==> Spells(name, "RAND")) && (u == "LI" <==> Spells(name, "LI"))
  {
    hide Upper, Spells;
    UpperIs(name, "HALT");
    UpperIs(name, "LOAD");
    UpperIs(name, "STORE");
    UpperIs(name, "ADD");
    UpperIs(name, "SUB");
    UpperIs(name, "MUL");
    UpperIs(name, "DIV");
    UpperIs(name, "JUMP");
    UpperIs(name, "JNZ");
    UpperIs(name, "IN");
    UpperIs(name, "RAND");
    UpperIs(name, "LI");
  }

  /**
   * A line of up to three words, in white space of any kind and before any comment, means what its
   * mnemonic says of its next two words, freed of commas; words after those are ignored.
   */
  lemma LineMeans(lead: string, name: string, g1: string, wordA: string, g2: string, wordB: string, more: string,
                  trail: string, comment: string, a: string, b: string)
    requires Layout(lead, name, g1, wordA, g2, wordB, more, trail, comment)
    requires Holds(wordA, a) && Holds(wordB, b)
    ensures ParseLine(LineText(lead, name, g1, wordA, g2, wordB, more, trail, comment)) == Meant(name, a, b)
  {
    hide ParseLine, LineText, Holds, ParseTokens, Meant, Strip;
    WordsOf(lead, name, g1, wordA, g2, wordB, more, trail, comment);
    CommasStripped(wordA, a);
    CommasStripped(wordB, b);
    NamedTokens(name, wordA, wordB, a, b);
  }

  // ----- the twelve mnemonics -----

  /** An operand that needs no stripping. */
  predicate Operand(a: string) {
    a != "" && Visible(a) && a[0] != ',' && a[|a| - 1] != ','
  }

  lemma TwoOperandLine(name: string, a: string, b: string)
    requires name != "" && Visible(name) && Operand(a) && Operand(b)
    ensures ParseLine(name + " " + a + ", " + b) == Meant(name, a, b)
  {
    hide ParseLine, Meant, Holds;
    HoldsItself(a);
    HoldsItself(b);
    LineMeans("", name, " ", a + ",", " ", b, "", "", "", a, b);
    assert LineText("", name, " ", a + ",", " ", b, "", "", "") == name + " " + a + ", " + b;
  }

  lemma OneOperandLine(name: string, a: string)
    requires name != "" && Visible(name) && Operand(a)
    ensures ParseLine(name + " " + a) == Meant(name, a, "")
  {
    hide ParseLine, Meant, Holds;
    HoldsItself(a);
    HoldsItself("");
    LineMeans("", name, " ", a, "", "", "", "", "", a, "");
    assert LineText("", name, " ", a, "", "", "", "", "") == name + " " + a;
  }

  lemma BareLine(name: string)
    requires name != "" && Visible(name)
    ensures ParseLine(name) == Meant(name, "", "")
  {
    hide ParseLine, Meant, Holds;
    HoldsItself("");
    LineMeans("", name, "", "", "", "", "", "", "", "", "");
    assert LineText("", name, "", "", "", "", "", "", "") == name;
  }

  lemma MeantBy(a: string, b: string)
    ensures Meant("HALT", a, b) == Good(Instr(0, 0, 0, 0))
    ensures Meant("LOAD", a, b) == RegImm(1, a, b) && Meant("STORE", a, b) == RegImm(2, a, b)
    ensures Meant("ADD", a, b) == RegReg(3, a, b) && Meant("SUB", a, b) == RegReg(4, a, b)
    ensures Meant("MUL", a, b) == RegReg(5, a, b) && Meant("DIV", a, b) == RegReg(6, a, b)
    ensures Meant("JUMP", a, b) == if ParseImm(a).Some? then Good(Instr(7, 0, 0, ParseImm(a).value)) else Bad
    ensures Meant("JNZ", a, b) == RegImm(8, a, b)
    ensures Meant("IN", a, b) == RegOnly(9, a) && Meant("RAND", a, b) == RegOnly(10, a)
    ensures Meant("LI", a, b) == RegImm(11, a, b)
  {
    hide RegImm, RegReg, RegOnly, ParseImm, Spells;
    forall u, v {
      SpelledAlike(u, v);
    }
  }

  lemma SpelledAlike(u: string, v: string)
    ensures Spells(u, u)
    ensures Spells(u, v) && u != "" ==> |u| == |v| && (u[0] == v[0] || u[0] as int == v[0] as int + 32)
  {
  }

  /** `R` and a digit, and a hexadecimal address, are operands that stand for their numbers. */
  lemma OperandTexts(r: nat, imm: nat)
    requires r < 8 && imm < 0x10_0000
    ensures ParseReg("R" + [HexDigit(r)]) == Some(r) && Operand("R" + [HexDigit(r)])
    ensures ParseImm("0x" + Hex(imm)) == Some(imm) && Operand("0x" + Hex(imm))
  {
    hide ParseReg, ParseImm, HexDigit, Hex, DigitChar;
    DigitIs(r);
    assert "R" + [HexDigit(r)] == RegText(r);
    ParseRegText(r);
    ParseImmText(imm);
    TextsAreVisible(r, imm);
    assert RegText(r) != "" && ImmText(imm) != "";
    PlainIsOperand(RegText(r));
    PlainIsOperand(ImmText(imm));
  }

  lemma PlainIsOperand(s: string)
    requires Plain(s) && s != ""
    ensures Operand(s)
  {
    hide IsSpace;
    forall i | 0 <= i < |s| ensures s[i] !in WHITE {
      WhiteIsSpace(s[i]);
    }
  }

  lemma NamesAreVisible()
    ensures Visible("HALT") && Visible("LOAD") && Visible("STORE") && Visible("ADD") && Visible("SUB")
    ensures Visible("MUL") && Visible("DIV") && Visible("JUMP") && Visible("JNZ") && Visible("IN")
    ensures Visible("RAND") && Visible("LI")
  {
    hide Visible;
    CapitalsAreVisible("HALT");
    CapitalsAreVisible("LOAD");
    CapitalsAreVisible("STORE");
    CapitalsAreVisible("ADD");
    CapitalsAreVisible("SUB");
    CapitalsAreVisible("MUL");
    CapitalsAreVisible("DIV");
    CapitalsAreVisible("JUMP");
    CapitalsAreVisible("JNZ");
    CapitalsAreVisible("IN");
    CapitalsAreVisible("RAND");
    CapitalsAreVisible("LI");
  }

  lemma CapitalsAreVisible(s: string)
    requires Capitals(s)
    ensures Visible(s)
  {
    forall i | 0 <= i < |s| ensures s[i] !in WHITE {
      WhiteIsSpace(s[i]);
    }
  }

  /** Every instruction, written out, assembles to its number and its fields. */
  lemma EveryInstruction(r: nat, s: nat, imm: nat)
    requires r < 8 && s < 8 && imm < 0x10_0000
    ensures var x, y, t := "R" + [HexDigit(r)], "R" + [HexDigit(s)], "0x" + Hex(imm);
            && ParseLine("HALT") == Good(Instr(0, 0, 0, 0))
            && ParseLine("LOAD" + " " + x + ", " + t) == Good(Instr(1, r, 0, imm))
            && ParseLine("STORE" + " " + x + ", " + t) == Good(Instr(2, r, 0, imm))
            && ParseLine("ADD" + " " + x + ", " + y) == Good(Instr(3, r, s, 0))
            && ParseLine("SUB" + " " + x + ", " + y) == Good(Instr(4, r, s, 0))
            && ParseLine("MUL" + " " + x + ", " + y) == Good(Instr(5, r, s, 0))
            && ParseLine("DIV" + " " + x + ", " + y) == Good(Instr(6, r, s, 0))
            && ParseLine("JUMP" + " " + t) == Good(Instr(7, 0, 0, imm))
            && ParseLine("JNZ" + " " + x + ", " + t) == Good(Instr(8, r, 0, imm))
            && ParseLine("IN" + " " + x) == Good(Instr(9, r, 0, 0))
            && ParseLine("RAND" + " " + x) == Good(Instr(10, r, 0, 0))
            && ParseLine("LI" + " " + x + ", " + t) == Good(Instr(11, r, 0, imm))
  {
    hide ParseLine, ParseReg, ParseImm, HexDigit, Hex, Meant, Operand, Visible;
    NamesAreVisible();
    var x, y, t := "R" + [HexDigit(r)], "R" + [HexDigit(s)], "0x" + Hex(imm);
    OperandTexts(r, imm);
    OperandTexts(s, imm);
    BareLine("HALT");
    MeantBy("", "");
    TwoOperandLine("LOAD", x, t);
    TwoOperandLine("STORE", x, t);
    TwoOperandLine("ADD", x, y);
    TwoOperandLine("SUB", x, y);
    TwoOperandLine("MUL", x, y);
    TwoOperandLine("DIV", x, y);
    OneOperandLine("JUMP", t);
    TwoOperandLine("JNZ", x, t);
    OneOperandLine("IN", x);
    OneOperandLine("RAND", x);
    TwoOperandLine("LI", x, t);
    MeantBy(x, t);
    MeantBy(x, y);
    MeantBy(t, "");
    MeantBy(x, "");
  }

  // ----- sources -----

  /** A source is accepted exactly when it has no bad line. */
  lemma {:induction false} AcceptedIff(lines: seq<string>)
    ensures ParseSource(lines).Some? <==> forall i :: 0 <= i < |lines| ==> !ParseLine(lines[i]).Bad?
  {
    hide ParseLine;
    if lines != [] {
      AcceptedIff(lines[..|lines| - 1]);
      assert forall i :: 0 <= i < |lines| - 1 ==> lines[..|lines| - 1][i] == lines[i];
    }
  }

  /**
   * From text to effect: with an accepted source loaded and pc at 4i, a step does what the i-th line that
   * is not blank says, in the arithmetic of `Does`, as long as the program has not overwritten that word.
   */
  lemma LineExecutes(lines: seq<string>, i: nat, c: Core)
    requires ParseSource(lines).Some? && 4 * |ParseSource(lines).value| <= MEM_SIZE
    requires i < |SourceLines(lines)| && c.pc == 4 * i
    requires var image := LoadImage(Emit(EncodeAll(ParseSource(lines).value)));
             forall k :: 4 * i <= k < 4 * i + 4 && k < MEM_SIZE ==> c.mem[k] == image[k]
    ensures var l := ParseLine(SourceLines(lines)[i]);
            l.Good? && Does(l.instr.op, l.instr.dst, l.instr.src, l.instr.imm, c, CoreStep(c))
  {
    hide ParseLine, ParseSource, SourceLines, Emit, Load32, Does, CoreStep, LoadImage;
    AssembleToFetch(lines, i);
    var image := LoadImage(Emit(EncodeAll(ParseSource(lines).value)));
    InstrsOfLines(lines);
    LoadInside(c.mem, 4 * i);
    LoadInside(image, 4 * i);
    StepIffObeys(c, CoreStep(c));
    LoadIs(c.mem, c.pc);
    FieldsAre(Load32(image, 4 * i));
  }
}
