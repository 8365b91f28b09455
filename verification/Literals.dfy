/** Which register and immediate texts the assembler accepts, and the numbers they stand for. */
module Literals {
  import opened Opcodes
  import opened Machine
  import opened Words
  import opened Assembler

  predicate Digits(s: string, base: nat) {
    s != [] && forall i :: 0 <= i < |s| ==> DigitOf(s[i]) < base
  }

  /** A number, if it fits the 20-bit field. */
  function Bounded(v: nat): Option<nat> {
    if v < IMM_LIMIT then Some(v) else None
  }

  lemma DigitChars(s: string, base: nat)
    requires Digits(s, base) && base <= 16
    ensures forall i :: 0 <= i < |s| ==> s[i] != '\0' && !IsSpace(s[i]) && !IsSign(s[i]) && s[i] != 'x' && s[i] != 'X'
  {
  }

  lemma CStringOfClean(s: string)
    requires forall i :: 0 <= i < |s| ==> s[i] != '\0'
    ensures CString(s) == s
  {
    SpanIs(s, c => c != '\0', |s|);
  }

  /** The C string of clean text followed by anything begins with that text. */
  lemma CStringAfterClean(s: string, rest: string)
    requires forall i :: 0 <= i < |s| ==> s[i] != '\0'
    ensures CString(s + rest) == s + CString(rest)
  {
    var n := Span(rest, c => c != '\0');
    var t := s + rest;
    assert forall i :: 0 <= i < |s| ==> t[i] == s[i];
    assert forall i :: |s| <= i < |t| ==> t[i] == rest[i - |s|];
    SpanIs(t, c => c != '\0', |s| + n);
    assert t[..|s| + n] == s + rest[..n];
  }

  // ----- digits -----

  /** The hexadecimal digits, their values and that there are no others. */
  lemma DigitsAre(c: char, d: nat)
    ensures d < 16 ==> DigitOf("0123456789abcdef"[d]) == d
    ensures d < 6 ==> DigitOf("ABCDEF"[d]) == 10 + d
    ensures DigitOf(c) < 16 <==> '0' <= c <= '9' || 'a' <= c <= 'f' || 'A' <= c <= 'F'
  {
  }

  function Power(base: nat, n: nat): nat {
    if n == 0 then 1 else base * Power(base, n - 1)
  }

  /** Numbers are positional: each digit counts its value times the base to the power of its place. */
  lemma {:induction false} PlaceValue(s: string, base: nat, i: nat)
    requires i < |s|
    ensures NumValue(s, base) ==
            NumValue(s[..i], base) * Power(base, |s| - i)
            + DigitOf(s[i]) * Power(base, |s| - i - 1) + NumValue(s[i + 1..], base)
    decreases |s|
  {
    hide DigitOf;
    var n := |s| - 1;
    if i < n {
      var front := s[..n];
      PlaceValue(front, base, i);
      assert front[..i] == s[..i] && s[i + 1..][..n - i - 1] == front[i + 1..];
      PlaceShift(NumValue(s[..i], base), Power(base, n - i), DigitOf(s[i]), Power(base, n - i - 1),
                 NumValue(front[i + 1..], base), base);
    } else {
      assert s[i + 1..] == [] && Power(base, 0) == 1 && Power(base, 1) == base;
    }
  }

  lemma PlaceShift(u: nat, p: nat, d: nat, q: nat, v: nat, base: nat)
    ensures (u * p + d * q + v) * base == u * (base * p) + d * (base * q) + v * base
  {
  }

  // ----- registers -----

  /** The number `atoi` reads from text that begins with a digit: the digits before anything else. */
  lemma AtoiOfDigits(d: string, rest: string)
    requires Digits(d, 10) && (rest == [] || DigitOf(rest[0]) >= 10)
    ensures Atoi(d + rest) == NumValue(d, 10)
  {
    hide NumValue, CString, Span, DigitOf;
    DigitChars(d, 10);
    CStringAfterClean(d, rest);
    var s := d + CString(rest);
    assert s[0] == d[0];
    SpanIs(s, IsSpace, 0);
    assert s[0..] == s;
    assert forall i :: 0 <= i < |d| ==> s[i] == d[i];
    CStringHead(rest);
    SpanIs(s, c => DigitOf(c) < 10, |d|);
    assert s[..|d|] == d;
  }

  lemma CStringHead(s: string)
    ensures CString(s) != [] ==> s != [] && CString(s)[0] == s[0]
  {
  }

  /**
   * R or r and a decimal number name a register exactly when the number is at most 7; whatever follows
   * the number is ignored.
   */
  lemma RegisterLiteral(r: char, d: string, rest: string)
    requires ToUpper(r) == 'R' && Digits(d, 10) && (rest == [] || DigitOf(rest[0]) >= 10)
    ensures ParseReg([r] + d + rest) == if NumValue(d, 10) <= 7 then Some(NumValue(d, 10)) else None
  {
    hide Atoi, NumValue, DigitOf;
    AtoiOfDigits(d, rest);
    assert ([r] + d + rest)[1..] == d + rest;
  }

  /** R followed by text that does not begin a number is register 0. */
  lemma RegisterWithoutNumber(r: char, text: string)
    requires ToUpper(r) == 'R' && text != []
    requires DigitOf(text[0]) >= 10 && !IsSign(text[0]) && !IsSpace(text[0])
    ensures ParseReg([r] + text) == Some(0)
  {
    hide DigitOf, CString;
    CStringHead(text);
    var s := CString(text);
    SpanIs(s, IsSpace, 0);
    assert s[0..] == s;
    SpanIs(s, c => DigitOf(c) < 10, 0);
    assert s[..0] == [];
    assert ([r] + text)[1..] == text;
  }

  /** A sign is read too: a positive number as without it, a negative one only if it is zero. */
  lemma SignedRegister(r: char, sign: char, d: string)
    requires ToUpper(r) == 'R' && IsSign(sign) && Digits(d, 10)
    ensures var v := NumValue(d, 10);
            ParseReg([r, sign] + d) == if v == 0 || (sign == '+' && v <= 7) then Some(v) else None
  {
    hide NumValue, CString, Span, DigitOf;
    DigitChars(d, 10);
    var u := [sign] + d;
    assert forall i :: 1 <= i < |u| ==> u[i] == d[i - 1];
    CStringOfClean(u);
    SpanIs(u, IsSpace, 0);
    assert u[0..] == u && u[1..] == d;
    SpanIs(d, c => DigitOf(c) < 10, |d|);
    assert d[..|d|] == d;
    assert ([r, sign] + d)[1..] == u;
  }

  // ----- immediates -----

  /** A literal without sign: its radix's digits and nothing else. */
  lemma UnsignedLiteral(tok: string, base: nat, d: string)
    requires tok != [] && Radix(tok) == (base, d) && Digits(d, base) && base <= 16
    requires forall i :: 0 <= i < |tok| ==> tok[i] != '\0'
    requires !IsSpace(tok[0]) && !IsSign(tok[0])
    ensures ParseImm(tok) == Bounded(NumValue(d, base))
  {
    hide NumValue, CString, Span, DigitOf, Radix;
    CStringOfClean(tok);
    SpanIs(tok, IsSpace, 0);
    assert tok[0..] == tok;
    SpanIs(d, c => DigitOf(c) < base, |d|);
    assert d[..|d|] == d && d[|d|..] == [];
  }

  lemma {:induction false} LeadingZero(d: string, base: nat)
    ensures NumValue("0" + d, base) == NumValue(d, base)
    decreases |d|
  {
    var s := "0" + d;
    if d == [] {
      assert s[..0] == [] && NumValue([], base) == 0;
    } else {
      assert s[..|s| - 1] == "0" + d[..|d| - 1];
      LeadingZero(d[..|d| - 1], base);
    }
  }

  /** Decimal literals, which do not begin with 0. */
  lemma DecimalImmediate(d: string)
    requires Digits(d, 10) && d[0] != '0'
    ensures ParseImm(d) == Bounded(NumValue(d, 10))
  {
    hide NumValue;
    DigitChars(d, 10);
    UnsignedLiteral(d, 10, d);
  }

  /** Hexadecimal literals, with either case of x. */
  lemma HexImmediate(x: char, d: string)
    requires Digits(d, 16) && (x == 'x' || x == 'X')
    ensures ParseImm(['0', x] + d) == Bounded(NumValue(d, 16))
  {
    hide NumValue, DigitOf;
    DigitChars(d, 16);
    var tok := ['0', x] + d;
    assert tok[2] == d[0] && tok[2..] == d;
    UnsignedLiteral(tok, 16, d);
  }

  /** Octal literals: a leading 0 changes the radix, not only the look, of a number. */
  lemma OctalImmediate(d: string)
    requires Digits(d, 8)
    ensures ParseImm("0" + d) == Bounded(NumValue(d, 8))
  {
    hide NumValue;
    DigitChars(d, 8);
    var tok := "0" + d;
    assert tok[1] == d[0];
    assert forall i :: 1 <= i < |tok| ==> tok[i] == d[i - 1];
    UnsignedLiteral(tok, 8, tok);
    LeadingZero(d, 8);
  }

  /** Unlike after a register number, nothing may follow a decimal immediate. */
  lemma ImmediateRejectsJunk(d: string, rest: string)
    requires Digits(d, 10) && d[0] != '0'
    requires rest != [] && DigitOf(rest[0]) >= 10 && rest[0] != '\0'
    ensures ParseImm(d + rest).None?
  {
    hide NumValue, CString, Span, DigitOf;
    DigitChars(d, 10);
    CStringAfterClean(d, rest);
    CStringOfVisible(rest);
    var s := d + CString(rest);
    assert s[0] == d[0];
    SpanIs(s, IsSpace, 0);
    assert s[0..] == s;
    assert forall i :: 0 <= i < |d| ==> s[i] == d[i];
    assert s[|d|] == rest[0];
    SpanIs(s, c => DigitOf(c) < 10, |d|);
    assert s[|d|..] == CString(rest);
  }

  /**
   * A minus sign negates in 64 bits: a negative immediate is accepted only where that wraps around to a
   * small number.
   */
  lemma NegativeImmediate(d: string)
    requires Digits(d, 10) && d[0] != '0'
    ensures var v := NumValue(d, 10);
            ParseImm("-" + d) == if v >= TWO_64 then None else Bounded((TWO_64 - v) % TWO_64)
  {
    hide NumValue, CString, Span, DigitOf;
    DigitChars(d, 10);
    var tok := "-" + d;
    assert forall i :: 1 <= i < |tok| ==> tok[i] == d[i - 1];
    CStringOfClean(tok);
    SpanIs(tok, IsSpace, 0);
    assert tok[0..] == tok && tok[1..] == d;
    SpanIs(d, c => DigitOf(c) < 10, |d|);
    assert d[..|d|] == d && d[|d|..] == [];
  }

  lemma CStringOfVisible(s: string)
    requires s != [] && s[0] != '\0'
    ensures CString(s) != [] && CString(s)[0] == s[0]
  {
  }
}
