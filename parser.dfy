/** The assembler core: number parsing, expression evaluation, statement
    dispatch with memory reference instruction encoding, and the multi-pass
    driver.

    The parser reads the lexer through its `This`/`Next` window. Here the
    lexer is the stream of lexemes it produces (`Lexer.Lexemes`) and a
    cursor `at`: `This` is the lexeme at `at` (the zero lexeme before the
    first Advance, when `at` is -1), `Next` the one after it, and both stay
    on the final end-of-file lexeme once it is reached
    (`Lexer.StepsFollowStream`). Go panics become a `Halted` status and the
    skip-to-end-of-line loops, which spin forever when the file ends first,
    become a `Hung` status. */
module Assembler {
  import opened Wrappers
  import opened Bits
  import opened Numerals
  import opened Lexer
  import opened Symbols
  import Exporter

  // Octal constants of the source, in hexadecimal.
  /** The location counter NewParser starts from, 0o200. */
  const InitialLc: int := 0x80
  /** mdepth: the largest number of passes. */
  const MaxDepth: int := 10
  /** The indirect bit, 0o400. */
  const IndirectBit: int := 0x100
  /** The zero-page mask 0b111101111111 (0o7577): clears bit 7 (0o200) and
      every bit above bit 11. */
  const ZeroPageMask: int := 0xF7F

  const NumberError: string := "Number error (Too large?)"
  const OperandError: string := "unknown expression operand"
  const OperationError: string := "unknown operation"
  const UnsupportedError: string := "unsupported operation in expression"
  const SyntaxPanic: string := "error: unknown syntax"

  // ---------------------------------------------------------------------
  // The lexeme stream and the cursor

  /** What the lexer guarantees: the stream ends in end of file and no
      lexeme is empty. */
  predicate ValidStream(ls: seq<Lexeme>)
  {
    |ls| > 0 && ls[|ls| - 1].kind == EndOfFile && forall i :: 0 <= i < |ls| ==> |ls[i].bytes| > 0
  }

  lemma LexerStreamValid(lines: seq<seq<Byte>>)
    requires WellFormedLines(lines)
    ensures ValidStream(Lexemes(lines))
  {
  }

  function ThisAt(ls: seq<Lexeme>, at: int): Lexeme
    requires -1 <= at < |ls|
  {
    if at < 0 then ZeroLexeme else ls[at]
  }

  function NextAt(ls: seq<Lexeme>, at: int): Lexeme
    requires 0 < |ls| && -1 <= at < |ls|
  {
    ls[if at + 1 < |ls| then at + 1 else |ls| - 1]
  }

  /** The cursor after Advance: one lexeme on, except at the end. */
  function Advanced(ls: seq<Lexeme>, at: int): (r: int)
    requires 0 < |ls| && -1 <= at < |ls|
    ensures 0 <= r < |ls| && at <= r
    ensures r == at ==> at == |ls| - 1
    ensures ThisAt(ls, r) == NextAt(ls, at)
  {
    if at + 1 < |ls| then at + 1 else at
  }

  // ---------------------------------------------------------------------
  // parseNumber

  /** parseNumber on the bytes of a number lexeme: octal by default; when
      there are more than two bytes and the second is a letter, `d` selects
      decimal for the bytes after it and any other letter Go's base-prefix
      rules on the whole lexeme. None stands for the "Number error" panic. */
  function ParseNumber(b: seq<Byte>): (r: Option<int>)
    ensures r.Some? ==> 0 <= r.value <= MaxInt16
  {
    if |b| > 2 && IsLetter(b[1]) then
      if b[1] == 'd' then ParseInt16(b[2..], 10) else ParseInt16Auto(b)
    else ParseInt16(b, 8)
  }

  /** An octal numeral reads back as its value, up to 16 signed bits. */
  lemma ParseNumberOctal(n: nat)
    ensures ParseNumber(OctalDigits(n)) == (if n <= MaxInt16 then Some(n) else None)
  {
    OctalRoundTrip(n);
  }

  /** A `0d` numeral reads back as its decimal value, up to 16 signed bits. */
  lemma ParseNumberDecimal(n: nat)
    ensures ParseNumber("0d" + DecimalDigits(n)) == (if n <= MaxInt16 then Some(n) else None)
  {
    var s := "0d" + DecimalDigits(n);
    assert s[2..] == DecimalDigits(n);
    DecimalDigitsValue(n);
  }

  /** A `0x`, `0o` or `0b` numeral (either case of the letter) reads as the
      digits after the prefix in base 16, 8 or 2, when they are all digits of
      that base and the value fits in 16 signed bits; otherwise it is the
      number error. */
  lemma {:induction false} ParseNumberPrefixed(s: seq<Byte>, p: Byte)
    requires |s| > 0 && Lower(p) in {'x', 'o', 'b'}
    ensures var base := if Lower(p) == 'x' then 16 else if Lower(p) == 'o' then 8 else 2;
      ParseNumber(['0', p] + s) ==
        (if AllDigits(s, base) && DigitsValue(s, base) <= MaxInt16 then Some(DigitsValue(s, base)) else None)
  {
    var b := ['0', p] + s;
    assert b[0] == '0' && b[1] == p && b[2..] == s;
    assert IsLetter(p) && p != 'd';
  }

  /** Only the second byte selects the base: `5d12` reads as decimal 12,
      `0x19` as hexadecimal, an 8 is no octal digit, and 0o100000 is out of
      range. */
  lemma ParseNumberExamples()
    ensures ParseNumber("5d12") == Some(12)
    ensures ParseNumber("0x19") == Some(25)
    ensures ParseNumber("0b101") == Some(5)
    ensures ParseNumber("8") == None
    ensures ParseNumber("100000") == None
  {
    DecimalAfterAnyDigit();
    HexPrefix();
    BinaryPrefix();
    OctalOverflow();
  }

  lemma DecimalAfterAnyDigit()
    ensures ParseNumber("5d12") == Some(12)
  {
    assert "5d12"[2..] == "12";
    assert DigitsValue("12", 10) == 12 by {
      assert "12"[..1] == "1";
      assert "1"[..0] == "";
    }
  }

  lemma HexPrefix()
    ensures ParseNumber("0x19") == Some(25)
  {
    assert "0x19"[2..] == "19";
    assert DigitsValue("19", 16) == 25 by {
      assert "19"[..1] == "1";
      assert "1"[..0] == "";
    }
  }

  lemma BinaryPrefix()
    ensures ParseNumber("0b101") == Some(5)
  {
    assert "0b101"[2..] == "101";
    assert DigitsValue("101", 2) == 5 by {
      assert "101"[..2] == "10";
      assert "10"[..1] == "1";
      assert "1"[..0] == "";
    }
  }

  lemma OctalOverflow()
    ensures ParseNumber("100000") == None
  {
    OctalPowers();
  }

  lemma OctalPowers()
    ensures DigitsValue("100000", 8) == 32768
  {
    assert DigitsValue("1", 8) == 1 by { assert "1"[..0] == ""; }
    AppendZero("1", 8);
    assert "1" + "0" == "10";
    AppendZero("10", 8);
    assert "10" + "0" == "100";
    AppendZero("100", 8);
    assert "100" + "0" == "1000";
    AppendZero("1000", 8);
    assert "1000" + "0" == "10000";
    AppendZero("10000", 8);
    assert "10000" + "0" == "100000";
  }

  // ---------------------------------------------------------------------
  // parseExpression

  /** One operand of an expression: a defined symbol's value, a number, a
      symbol the table lacks, or a panic. */
  datatype Operand = Value(v: int) | Missing | Fault(reason: string)

  function OperandOf(lx: Lexeme, tab: map<string, Symbol>): (r: Operand)
    requires |lx.bytes| > 0
    ensures r.Missing? <==> IsLetter(lx.bytes[0]) && lx.bytes !in tab
    ensures r.Value? && IsLetter(lx.bytes[0]) ==> lx.bytes in tab && r.v == tab[lx.bytes].val
    ensures r.Value? && !IsLetter(lx.bytes[0]) ==> IsDigit(lx.bytes[0]) && ParseNumber(lx.bytes) == Some(r.v)
    ensures r.Fault? <==> !IsLetter(lx.bytes[0]) && (!IsDigit(lx.bytes[0]) || ParseNumber(lx.bytes).None?)
    ensures r.Fault? ==> r.reason == (if IsDigit(lx.bytes[0]) then NumberError else OperandError)
  {
    if IsLetter(lx.bytes[0]) then
      if lx.bytes in tab then Value(tab[lx.bytes].val) else Missing
    else if IsDigit(lx.bytes[0]) then
      match ParseNumber(lx.bytes)
      case Some(v) => Value(v)
      case None => Fault(NumberError)
    else Fault(OperandError)
  }

  /** The result of a step that moves the cursor: a value and the new
      cursor, a panic, or a loop that never ends. */
  datatype Outcome<T> = Done(val: T, at: int) | Panicked(reason: string) | Diverged

  /** The skip loop `for This.Type != EOL { Advance }`: the first end of
      line at or after `at`, or None when the stream ends first, where the
      loop would spin on the end-of-file lexeme forever. */
  function SkipToEol(ls: seq<Lexeme>, at: int): (r: Option<int>)
    requires ValidStream(ls) && 0 <= at < |ls|
    ensures r.Some? ==> at <= r.value < |ls| && ls[r.value].kind == EndOfLine
    ensures r.Some? ==> forall j :: at <= j < r.value ==> ls[j].kind != EndOfLine
    ensures r.None? ==> forall j :: at <= j < |ls| ==> ls[j].kind != EndOfLine
    decreases |ls| - at
  {
    if ls[at].kind == EndOfLine then Some(at)
    else if at == |ls| - 1 then None
    else SkipToEol(ls, at + 1)
  }

  function Unresolved(skip: Option<int>, name: string): Outcome<(int, string)>
  {
    match skip
    case None => Diverged
    case Some(j) => Done((-1, name), j)
  }

  /** `. <sign> B`: the location counter plus or minus B. */
  function EvalDotSign(ls: seq<Lexeme>, at: int, lc: int, tab: map<string, Symbol>): (r: Outcome<(int, string)>)
    requires ValidStream(ls) && 0 <= at < |ls|
    ensures r.Done? ==> at <= r.at < |ls|
    ensures var sign, b := ls[Advanced(ls, at)].bytes, ls[Advanced(ls, Advanced(ls, at))];
      && (r.Done? ==> r.at == Advanced(ls, Advanced(ls, at)))
      && (r.Done? && r.val.1 == "" ==>
            && OperandOf(b, tab).Value? && sign in {"+", "-"}
            && r.val.0 == (if sign == "+" then lc + OperandOf(b, tab).v else lc - OperandOf(b, tab).v))
      && (r.Done? && r.val.1 != "" <==> OperandOf(b, tab).Missing?)
      && (r.Done? && r.val.1 != "" ==> r.val == (-1, b.bytes))
      && (r.Panicked? <==> OperandOf(b, tab).Fault? || (OperandOf(b, tab).Value? && sign !in {"+", "-"}))
  {
    var a1 := Advanced(ls, at);
    var a2 := Advanced(ls, a1);
    var sign := ls[a1].bytes;
    match OperandOf(ls[a2], tab)
    case Missing => Done((-1, ls[a2].bytes), a2)
    case Fault(e) => Panicked(e)
    case Value(b) =>
      if sign == "-" then Done((lc - b, ""), a2)
      else if sign == "+" then Done((lc + b, ""), a2)
      else Panicked(OperationError)
  }

  /** `<sign> A`: plus or minus A, with no folding to 12 bits. */
  function EvalSigned(ls: seq<Lexeme>, at: int, tab: map<string, Symbol>): (r: Outcome<(int, string)>)
    requires ValidStream(ls) && 0 <= at < |ls|
    ensures r.Done? ==> at <= r.at < |ls|
    ensures var sign, a := ls[at].bytes, ls[Advanced(ls, at)];
      && (r.Done? ==> r.at == Advanced(ls, at))
      && (r.Done? && r.val.1 == "" ==>
            && OperandOf(a, tab).Value? && sign in {"+", "-"}
            && r.val.0 == (if sign == "+" then OperandOf(a, tab).v else -OperandOf(a, tab).v))
      && (r.Done? && r.val.1 != "" <==> OperandOf(a, tab).Missing?)
      && (r.Done? && r.val.1 != "" ==> r.val == (-1, a.bytes))
      && (r.Panicked? <==> OperandOf(a, tab).Fault? || (OperandOf(a, tab).Value? && sign !in {"+", "-"}))
  {
    var sign := ls[at].bytes;
    var a1 := Advanced(ls, at);
    match OperandOf(ls[a1], tab)
    case Missing => Done((-1, ls[a1].bytes), a1)
    case Fault(e) => Panicked(e)
    case Value(a) =>
      if sign == "-" then Done((a * -1, ""), a1)
      else if sign == "+" then Done((a, ""), a1)
      else Panicked(OperationError)
  }

  /** `A <sign> B`. An unknown operand makes the lexer skip to the end of
      the line, and the name reported is A's even when B is the unknown. */
  function EvalBinary(ls: seq<Lexeme>, at: int, tab: map<string, Symbol>): (r: Outcome<(int, string)>)
    requires ValidStream(ls) && 0 <= at < |ls|
    ensures r.Done? ==> at <= r.at < |ls|
    ensures var a, sign, b := ls[at], ls[Advanced(ls, at)].bytes, ls[Advanced(ls, Advanced(ls, at))];
      && (r.Done? && r.val.1 == "" ==>
            && OperandOf(a, tab).Value? && OperandOf(b, tab).Value? && sign in {"+", "-"}
            && r.at == Advanced(ls, Advanced(ls, at))
            && r.val.0 == (if sign == "+" then OperandOf(a, tab).v + OperandOf(b, tab).v
                           else OperandOf(a, tab).v - OperandOf(b, tab).v))
      && (r.Done? && r.val.1 != "" ==> r.val == (-1, a.bytes) && ls[r.at].kind == EndOfLine)
      && (OperandOf(a, tab).Value? && OperandOf(b, tab).Value? && sign in {"+", "-"} ==> r.Done? && r.val.1 == "")
  {
    var start := ls[at].bytes;
    match OperandOf(ls[at], tab)
    case Missing => Unresolved(SkipToEol(ls, at), start)
    case Fault(e) => Panicked(e)
    case Value(a) =>
      var a1 := Advanced(ls, at);
      var a2 := Advanced(ls, a1);
      var sign := ls[a1].bytes;
      match OperandOf(ls[a2], tab)
      case Missing => Unresolved(SkipToEol(ls, a2), start)
      case Fault(e) => Panicked(e)
      case Value(b) =>
        if sign == "-" then Done((a - b, ""), a2)
        else if sign == "+" then Done((a + b, ""), a2)
        else Panicked(UnsupportedError)
  }

  /** `A B`: the bitwise or of two defined symbols; numbers are not looked
      at, and a missing symbol gives the name "error". */
  function EvalPair(ls: seq<Lexeme>, at: int, tab: map<string, Symbol>): (r: Outcome<(int, string)>)
    requires ValidStream(ls) && 0 <= at < |ls|
    ensures r.Done? && r.at == Advanced(ls, at)
    ensures var a, b := ls[at].bytes, ls[Advanced(ls, at)].bytes;
      && (a in tab && b in tab ==> r.val == (Or(tab[a].val, tab[b].val), ""))
      && (a !in tab || b !in tab ==> r.val == (-1, "error"))
  {
    var a1 := Advanced(ls, at);
    var start := ls[at].bytes;
    var operand := ls[a1].bytes;
    if start in tab && operand in tab then Done((Or(tab[start].val, tab[operand].val), ""), a1)
    else Done((-1, "error"), a1)
  }

  /** A lone operand before a comment or the end of the line. */
  function EvalSingle(ls: seq<Lexeme>, at: int, tab: map<string, Symbol>): (r: Outcome<(int, string)>)
    requires ValidStream(ls) && 0 <= at < |ls|
    ensures r.Done? ==> r.at == at
    ensures r.Done? <==> !OperandOf(ls[at], tab).Fault?
    ensures r.Done? && r.val.1 == "" <==> OperandOf(ls[at], tab).Value?
    ensures r.Done? && r.val.1 == "" ==> r.val.0 == OperandOf(ls[at], tab).v
    ensures r.Done? && r.val.1 != "" ==> r.val == (-1, ls[at].bytes)
  {
    match OperandOf(ls[at], tab)
    case Value(v) => Done((v, ""), at)
    case Missing => Done((-1, ls[at].bytes), at)
    case Fault(e) => Panicked(e)
  }

  /** parseExpression with `This` at `at`: a value with the empty name, or
      -1 with the name that stopped it, and the cursor after it. */
  function EvalExpression(ls: seq<Lexeme>, at: int, lc: int, tab: map<string, Symbol>): (r: Outcome<(int, string)>)
    requires ValidStream(ls) && 0 <= at < |ls|
    ensures r.Done? ==> at <= r.at < |ls|
  {
    var cur := ls[at];
    var next := NextAt(ls, at);
    if cur.kind == Punct then
      if cur.bytes[0] == '.' then
        if next.kind == Punct then EvalDotSign(ls, at, lc, tab)
        else if next.kind == Comment || next.kind == EndOfLine then Done((lc, ""), at)
        else Done((-1, "error"), at)
      else EvalSigned(ls, at, tab)
    else if next.kind == Punct then EvalBinary(ls, at, tab)
    else if next.kind == Sym then EvalPair(ls, at, tab)
    else if next.kind == Comment || next.kind == EndOfLine then EvalSingle(ls, at, tab)
    else Panicked(SyntaxPanic)
  }

  /** An expression that is not resolved reports -1 and a name: "error", or
      the bytes of a lexeme it read. */
  lemma UnresolvedNames(ls: seq<Lexeme>, at: int, lc: int, tab: map<string, Symbol>)
    requires ValidStream(ls) && 0 <= at < |ls|
    ensures var r := EvalExpression(ls, at, lc, tab);
      r.Done? && r.val.1 != "" ==>
        r.val.0 == -1 && (r.val.1 == "error" || exists j :: at <= j <= r.at && r.val.1 == ls[j].bytes)
  {
    var r := EvalExpression(ls, at, lc, tab);
    if r.Done? && r.val.1 != "" && r.val.1 != "error" {
      var cur, next := ls[at], NextAt(ls, at);
      if cur.kind == Punct && cur.bytes[0] == '.' {
        assert r == EvalDotSign(ls, at, lc, tab);
        assert r.val.1 == ls[r.at].bytes;
      } else if cur.kind == Punct {
        assert r == EvalSigned(ls, at, tab);
        assert r.val.1 == ls[r.at].bytes;
      } else {
        assert r.val.1 == ls[at].bytes;
      }
    }
  }

  /** In `A <sign> B` with an unknown operand the lexer ends on the end of
      line and the name is A's, whether A or B is the unknown one. */
  lemma BinaryReportsFirstOperand(ls: seq<Lexeme>, at: int, lc: int, tab: map<string, Symbol>)
    requires ValidStream(ls) && 0 <= at < |ls|
    requires ls[at].kind != Punct && NextAt(ls, at).kind == Punct
    ensures var r := EvalExpression(ls, at, lc, tab);
      r.Done? && r.val.1 != "" ==> r.val == (-1, ls[at].bytes) && ls[r.at].kind == EndOfLine
  {
  }

  /** The value of each resolved form of an expression, read off the
      lexemes: `.` alone is the location counter; `. ± B` is lc ± B; `± A`
      is ±A; `A ± B` is A ± B; `A B` is the bitwise or of two defined
      symbols; a lone operand is its value. */
  lemma DotValue(ls: seq<Lexeme>, at: int, lc: int, tab: map<string, Symbol>)
    requires ValidStream(ls) && 0 <= at < |ls|
    requires ls[at].kind == Punct && ls[at].bytes == "."
    requires ls[at + 1].kind in {Comment, EndOfLine}
    ensures EvalExpression(ls, at, lc, tab) == Done((lc, ""), at)
  {
  }

  lemma DotSignValue(ls: seq<Lexeme>, at: int, lc: int, tab: map<string, Symbol>, b: int)
    requires ValidStream(ls) && 0 <= at < |ls|
    requires ls[at].kind == Punct && ls[at].bytes == "."
    requires ls[at + 1].kind == Punct && ls[at + 1].bytes in {"+", "-"}
    requires OperandOf(ls[at + 2], tab) == Value(b)
    ensures EvalExpression(ls, at, lc, tab) == Done((if ls[at + 1].bytes == "+" then lc + b else lc - b, ""), at + 2)
  {
    assert NextAt(ls, at).kind == Punct;
    assert EvalExpression(ls, at, lc, tab) == EvalDotSign(ls, at, lc, tab);
  }

  lemma SignedValue(ls: seq<Lexeme>, at: int, lc: int, tab: map<string, Symbol>, a: int)
    requires ValidStream(ls) && 0 <= at < |ls|
    requires ls[at].kind == Punct && ls[at].bytes in {"+", "-"}
    requires OperandOf(ls[at + 1], tab) == Value(a)
    ensures EvalExpression(ls, at, lc, tab) == Done((if ls[at].bytes == "+" then a else -a, ""), at + 1)
  {
  }

  lemma BinaryValue(ls: seq<Lexeme>, at: int, lc: int, tab: map<string, Symbol>, a: int, b: int)
    requires ValidStream(ls) && 0 <= at < |ls| - 2
    requires ls[at].kind != Punct && OperandOf(ls[at], tab) == Value(a)
    requires ls[at + 1].kind == Punct && ls[at + 1].bytes in {"+", "-"}
    requires OperandOf(ls[at + 2], tab) == Value(b)
    ensures EvalExpression(ls, at, lc, tab) == Done((if ls[at + 1].bytes == "+" then a + b else a - b, ""), at + 2)
  {
  }

  lemma PairValue(ls: seq<Lexeme>, at: int, lc: int, tab: map<string, Symbol>)
    requires ValidStream(ls) && 0 <= at < |ls| - 1
    requires ls[at].kind != Punct && ls[at + 1].kind == Sym
    ensures var a, b := ls[at].bytes, ls[at + 1].bytes;
      EvalExpression(ls, at, lc, tab) ==
        Done(if a in tab && b in tab then (Or(tab[a].val, tab[b].val), "") else (-1, "error"), at + 1)
  {
  }

  lemma SingleValue(ls: seq<Lexeme>, at: int, lc: int, tab: map<string, Symbol>, v: int)
    requires ValidStream(ls) && 0 <= at < |ls| - 1
    requires ls[at].kind != Punct && ls[at + 1].kind in {Comment, EndOfLine}
    requires OperandOf(ls[at], tab) == Value(v)
    ensures EvalExpression(ls, at, lc, tab) == Done((v, ""), at)
  {
  }

  /** What does not resolve: `.` before anything but punctuation, a comment
      or the end of the line gives -1 and "error"; an operand followed by a
      number, an unknown byte or the end of file is the syntax panic; an
      operand that is neither a symbol nor a number, or a number out of
      range, is a panic wherever it stands. */
  lemma ExpressionErrors(ls: seq<Lexeme>, at: int, lc: int, tab: map<string, Symbol>)
    requires ValidStream(ls) && 0 <= at < |ls|
    ensures var r, cur, next := EvalExpression(ls, at, lc, tab), ls[at], NextAt(ls, at);
      && (cur.kind == Punct && cur.bytes == "." && next.kind !in {Punct, Comment, EndOfLine} ==>
            r == Done((-1, "error"), at))
      && (cur.kind != Punct && next.kind in {Num, Unknown, EndOfFile} ==> r == Panicked(SyntaxPanic))
      && (cur.kind != Punct && next.kind in {Punct, Comment, EndOfLine} && OperandOf(cur, tab).Fault? ==>
            r == Panicked(OperandOf(cur, tab).reason))
  {
  }

  lemma OperandMonotone(lx: Lexeme, tab: map<string, Symbol>, tab': map<string, Symbol>)
    requires |lx.bytes| > 0
    requires forall n :: n in tab ==> n in tab' && tab'[n] == tab[n]
    ensures OperandOf(lx, tab).Value? ==> OperandOf(lx, tab') == OperandOf(lx, tab)
    ensures OperandOf(lx, tab).Fault? ==> OperandOf(lx, tab') == OperandOf(lx, tab)
  {
  }

  /** Defining more symbols never changes an expression that was resolved:
      a value once computed in a pass is computed the same way in every
      later pass whose table extends it. */
  lemma EvalMonotone(ls: seq<Lexeme>, at: int, lc: int, tab: map<string, Symbol>, tab': map<string, Symbol>)
    requires ValidStream(ls) && 0 <= at < |ls|
    requires forall n :: n in tab ==> n in tab' && tab'[n] == tab[n]
    ensures var r := EvalExpression(ls, at, lc, tab);
      r.Done? && r.val.1 == "" ==> EvalExpression(ls, at, lc, tab') == r
  {
    var a1 := Advanced(ls, at);
    var a2 := Advanced(ls, a1);
    OperandMonotone(ls[at], tab, tab');
    OperandMonotone(ls[a1], tab, tab');
    OperandMonotone(ls[a2], tab, tab');
  }

  // ---------------------------------------------------------------------
  // Memory reference instructions

  /** The word of an MRI: the address, with the indirect bit or-ed in when
      the I flag is given, masked with 0o7577 when the Z flag is given, then
      or-ed with the opcode. No page check is made and the current-page bit
      is never set. */
  function EncodeMri(addr: int, indirect: bool, zeroPage: bool, opcode: int): (r: int)
    ensures 0 <= addr && 0 <= opcode ==> opcode <= r <= addr + IndirectBit + opcode
    ensures 0 <= addr && 0 <= opcode && zeroPage ==> r <= ZeroPageMask + opcode
  {
    var w1 := if indirect then Or(addr, IndirectBit) else addr;
    var w2 := if zeroPage then And(w1, ZeroPageMask) else w1;
    if 0 <= addr && 0 <= opcode then
      OrBounded(addr, IndirectBit);
      AndBounded(w1, ZeroPageMask);
      AndBelow(w1, ZeroPageMask);
      OrBounded(w2, opcode);
      Or(w2, opcode)
    else Or(w2, opcode)
  }

  lemma IndirectLayout(addr: int)
    requires 0 <= addr < 0x100
    ensures Or(addr, IndirectBit) == addr + IndirectBit
  {
    Pow2Values();
    OrDisjoint(addr, IndirectBit, 8);
  }

  /** The Z mask keeps the low twelve bits and clears bit 7. */
  lemma ZeroPageMaskClears(x: int)
    requires x >= 0
    ensures And(x, ZeroPageMask) == x % 0x1000 - ((x / 0x80) % 2) * 0x80
  {
    Pow2Values();
    AndClearBit(x, 7, 12);
  }

  lemma ZeroPageLayout(w: int)
    requires 0 <= w < 0x200
    ensures And(w, ZeroPageMask) == (w / 0x100) * 0x100 + w % 0x80
  {
    ZeroPageMaskClears(w);
    var q, r := w / 0x100, w % 0x100;
    var b, t := r / 0x80, r % 0x80;
    DivModUnique(w, 0x1000, 0, w);
    DivModUnique(w, 0x80, 2 * q + b, t);
    DivModUnique(2 * q + b, 2, q, b);
  }

  /** Or of a word below 0o1000 with an MRI opcode is their sum. */
  lemma OrOpcode(w: int, opcode: int)
    requires 0 <= w < 0x200 && IsMriOpcode(opcode)
    ensures Or(w, opcode) == w + opcode
  {
    Pow2Values();
    DivModUnique(opcode, Pow2(9), opcode / 0x200, 0);
    OrDisjoint(w, opcode, 9);
  }

  /** For an address within the first two pages the word is the opcode,
      the indirect bit and the address, with bit 7 (which the hardware
      reads as "current page") cleared by the Z flag. */
  lemma MriLayout(addr: int, indirect: bool, zeroPage: bool, opcode: int)
    requires 0 <= addr < 0x100 && IsMriOpcode(opcode)
    ensures EncodeMri(addr, indirect, zeroPage, opcode) ==
      opcode + (if indirect then IndirectBit else 0) + (if zeroPage then addr % 0x80 else addr)
  {
    var i := if indirect then IndirectBit else 0;
    var w1 := if indirect then Or(addr, IndirectBit) else addr;
    if indirect {
      IndirectLayout(addr);
    }
    var w2 := if zeroPage then And(w1, ZeroPageMask) else w1;
    if zeroPage {
      ZeroPageLayout(w1);
      DivModUnique(w1, 0x100, if indirect then 1 else 0, addr);
      DivModUnique(w1, 0x80, (if indirect then 2 else 0) + addr / 0x80, addr % 0x80);
    }
    OrOpcode(w2, opcode);
  }

  /** The Z flag also drops every bit above bit 11 of the address. */
  lemma ZeroPageTruncates(addr: int)
    requires addr >= 0
    ensures EncodeMri(addr, false, true, 0) == addr % 0x1000 - ((addr / 0x80) % 2) * 0x80
  {
    ZeroPageMaskClears(addr);
    var w := And(addr, ZeroPageMask);
    AndBounded(addr, ZeroPageMask);
    assert Or(w, 0) == w;
  }

  /** Without a page check an address beyond the first two pages spills
      into the opcode: `TAD` of address 0o2000 assembles to 0o3000, the
      word of `DCA 0`. */
  lemma MriAddressSpills()
    ensures EncodeMri(0x400, false, false, 0x200) == 0x600
  {
    Pow2Values();
    OrCommutes(0x400, 0x200);
    OrDisjoint(0x200, 0x400, 10);
  }

  // ---------------------------------------------------------------------
  // Statements

  /** The parser's state in a pass: the cursor, the location counter, the
      memory image, the symbol table and the another-pass flag. */
  datatype Machine = Machine(at: int, lc: int, mem: Exporter.Memory, tab: map<string, Symbol>, apass: bool)

  /** Running: the statement finished and the pass goes on; PassEnd: end
      of file; Halted: a panic; Hung: a loop that never ends. */
  datatype Status = Running | PassEnd | Halted(reason: string) | Hung

  /** A word-producing statement's effect: store the value at `lc` when it
      resolved, otherwise ask for another pass; `lc` moves on either way. */
  function StoreWord(m: Machine, v: int, name: string): (r: Machine)
    ensures r.at == m.at && r.lc == m.lc + 1 && r.tab == m.tab
    ensures name == "" ==> r.mem == m.mem[m.lc := v] && r.mem[m.lc] == v && r.apass == m.apass
    ensures name != "" ==> r.mem == m.mem && r.apass
  {
    if name != "" then m.(apass := true, lc := m.lc + 1)
    else m.(mem := m.mem[m.lc := v], lc := m.lc + 1)
  }

  /** Evaluate the expression at `at` and store its word. */
  function WordStatement(ls: seq<Lexeme>, m: Machine): (r: (Status, Machine))
    requires ValidStream(ls) && 0 <= m.at < |ls|
    ensures r.0 == Running ==> m.at <= r.1.at < |ls|
  {
    match EvalExpression(ls, m.at, m.lc, m.tab)
    case Panicked(e) => (Halted(e), m)
    case Diverged => (Hung, m)
    case Done((v, name), a) => (Running, StoreWord(m.(at := a), v, name))
  }

  /** The optional I and Z flags after an MRI mnemonic at `at`, each
      recognised by the first byte of a symbol, and the cursor on the
      address expression. */
  function MriFlags(ls: seq<Lexeme>, at: int): (r: (bool, bool, int))
    requires ValidStream(ls) && 0 <= at < |ls|
    ensures at <= r.2 < |ls|
    ensures var i := Advanced(ls, at);
      r.0 <==> ls[i].kind == Sym && ls[i].bytes[0] == 'I'
    ensures var z := if r.0 then Advanced(ls, Advanced(ls, at)) else Advanced(ls, at);
      && (r.1 <==> ls[z].kind == Sym && ls[z].bytes[0] == 'Z')
      && r.2 == (if r.1 then Advanced(ls, z) else z)
  {
    var a0 := Advanced(ls, at);
    var indirect := ls[a0].kind == Sym && ls[a0].bytes[0] == 'I';
    var a1 := if indirect then Advanced(ls, a0) else a0;
    var zeroPage := ls[a1].kind == Sym && ls[a1].bytes[0] == 'Z';
    (indirect, zeroPage, if zeroPage then Advanced(ls, a1) else a1)
  }

  /** The flags are recognised by the first byte alone: in `TAD INDEX` the
      operand INDEX is taken for the I flag, and the address expression
      starts after it. */
  lemma FlagByFirstByte(l: int)
    ensures var ls := [Lexeme(Sym, "TAD", l, 1), Lexeme(Sym, "INDEX", l, 5), Lexeme(EndOfLine, "\n", l, 10),
                       Lexeme(EndOfFile, "\0", l + 1, 1)];
      MriFlags(ls, 0) == (true, false, 2)
  {
  }

  /** An MRI whose mnemonic is at `at`: the flags, then the address
      expression, stored as the encoded word. */
  function MriStatement(ls: seq<Lexeme>, m: Machine, opcode: int): (r: (Status, Machine))
    requires ValidStream(ls) && 0 <= m.at < |ls|
    ensures r.0 == Running ==> m.at <= r.1.at < |ls|
    ensures var (i, z, a) := MriFlags(ls, m.at); var e := EvalExpression(ls, a, m.lc, m.tab);
      && (r.0 == Running <==> e.Done?)
      && (e.Done? ==> r.1.at == e.at && r.1.lc == m.lc + 1 && r.1.tab == m.tab)
      && (e.Done? && e.val.1 == "" ==> r.1.mem == m.mem[m.lc := EncodeMri(e.val.0, i, z, opcode)] && r.1.apass == m.apass)
      && (e.Done? && e.val.1 != "" ==> r.1.mem == m.mem && r.1.apass)
  {
    var (indirect, zeroPage, a2) := MriFlags(ls, m.at);
    MriFinish(EvalExpression(ls, a2, m.lc, m.tab), m, indirect, zeroPage, opcode)
  }

  /** The end of an MRI statement once its address expression is evaluated:
      store the encoded word, or pass the panic or hang on. */
  function MriFinish(o: Outcome<(int, string)>, m: Machine, indirect: bool, zeroPage: bool, opcode: int): (r: (Status, Machine))
    ensures r.0 == Running <==> o.Done?
    ensures o.Done? ==> r.1 == StoreWord(m.(at := o.at), EncodeMri(o.val.0, indirect, zeroPage, opcode), o.val.1)
  {
    match o
    case Panicked(e) => (Halted(e), m)
    case Diverged => (Hung, m)
    case Done((v, name), a) => (Running, StoreWord(m.(at := a), EncodeMri(v, indirect, zeroPage, opcode), name))
  }

  /** `* expr`: set the location counter; an unresolved operand is fatal. */
  function OriginStatement(ls: seq<Lexeme>, m: Machine): (r: (Status, Machine))
    requires ValidStream(ls) && 0 <= m.at < |ls|
    ensures r.0 == Running ==> m.at <= r.1.at < |ls|
    ensures var e := EvalExpression(ls, Advanced(ls, m.at), m.lc, m.tab);
      && (r.0 == Running <==> e.Done? && e.val.1 == "")
      && (r.0 == Running ==> r.1 == m.(at := e.at, lc := e.val.0))
      && (e.Done? && e.val.1 != "" ==> r.0 == Halted("Unknown symbol: " + e.val.1))
      && (r.0 != Running ==> r.1 == m)
  {
    var a := Advanced(ls, m.at);
    match EvalExpression(ls, a, m.lc, m.tab)
    case Panicked(e) => (Halted(e), m)
    case Diverged => (Hung, m)
    case Done((v, name), a') =>
      if name != "" then (Halted("Unknown symbol: " + name), m)
      else (Running, m.(at := a', lc := v))
  }

  /** parseSymbolDefinition, `S = expr`: bind S as an SI symbol when the
      expression resolves, otherwise ask for another pass. */
  function Definition(ls: seq<Lexeme>, m: Machine): (r: (Status, Machine))
    requires ValidStream(ls) && 0 <= m.at < |ls|
    ensures r.0 == Running ==> m.at <= r.1.at < |ls|
    ensures var e := EvalExpression(ls, Advanced(ls, Advanced(ls, m.at)), m.lc, m.tab);
      && (r.0 == Running <==> e.Done?)
      && r.1.mem == m.mem && r.1.lc == m.lc
      && (e.Done? && e.val.1 == "" ==>
            r.1.tab == m.tab[ls[m.at].bytes := Symbol(Si, e.val.0)] && r.1.apass == m.apass)
      && (e.Done? && e.val.1 != "" ==> r.1.tab == m.tab && r.1.apass)
  {
    var name := ls[m.at].bytes;
    var a := Advanced(ls, Advanced(ls, m.at));
    match EvalExpression(ls, a, m.lc, m.tab)
    case Panicked(e) => (Halted(e), m)
    case Diverged => (Hung, m)
    case Done((v, s), a') =>
      if s == "" then (Running, m.(at := a', tab := m.tab[name := Symbol(Si, v)]))
      else (Running, m.(at := a', apass := true))
  }

  /** parseLabel, `S ,`: bind S as a LABEL to the location counter. */
  function LabelStatement(ls: seq<Lexeme>, m: Machine): (r: (Status, Machine))
    requires ValidStream(ls) && 0 <= m.at < |ls|
    ensures r.0 == Running && m.at <= r.1.at < |ls|
    ensures r.1.tab == m.tab[ls[m.at].bytes := Symbol(SymType.Label, m.lc)]
    ensures r.1.tab[ls[m.at].bytes].kind == SymType.Label && r.1.tab[ls[m.at].bytes].val == m.lc
    ensures r.1.mem == m.mem && r.1.lc == m.lc && r.1.apass == m.apass
  {
    var name := ls[m.at].bytes;
    (Running, m.(at := Advanced(ls, m.at), tab := m.tab[name := Symbol(SymType.Label, m.lc)]))
  }

  /** A statement that starts with punctuation: an origin, a word, or
      nothing. */
  function PunctStatement(ls: seq<Lexeme>, m: Machine): (r: (Status, Machine))
    requires ValidStream(ls) && 0 <= m.at < |ls| && ls[m.at].kind == Punct
    ensures m.at <= r.1.at < |ls|
    ensures r.0 != PassEnd
    ensures ls[m.at].bytes[0] !in {'*', '.', '-', '+'} ==> r == (Running, m)
  {
    var c := ls[m.at].bytes[0];
    if c == '*' then OriginStatement(ls, m)
    else if c == '.' || c == '-' || c == '+' then WordStatement(ls, m)
    else (Running, m)
  }

  /** A statement that starts with a symbol: a definition, a label or a
      word when punctuation other than `.` follows; otherwise an MRI or a
      word. */
  function SymbolStatement(ls: seq<Lexeme>, m: Machine): (r: (Status, Machine))
    requires ValidStream(ls) && 0 <= m.at < |ls| && ls[m.at].kind == Sym
    ensures m.at <= r.1.at < |ls|
    ensures r.0 != PassEnd
    ensures var next := NextAt(ls, m.at);
      next.kind == Punct && next.bytes[0] !in {'.', '=', ',', '-', '+'} ==> r == (Running, m)
  {
    var cur := ls[m.at];
    var next := NextAt(ls, m.at);
    if next.kind == Punct && next.bytes[0] != '.' then
      var c := next.bytes[0];
      if c == '=' then Definition(ls, m)
      else if c == ',' then LabelStatement(ls, m)
      else if c == '-' || c == '+' then WordStatement(ls, m)
      else (Running, m)
    else if cur.bytes in m.tab && m.tab[cur.bytes].kind == Mri then
      MriStatement(ls, m, m.tab[cur.bytes].val)
    else WordStatement(ls, m)
  }

  /** A number: stored at `lc` as it reads, or the number-error panic. */
  function NumberStatement(ls: seq<Lexeme>, m: Machine): (r: (Status, Machine))
    requires ValidStream(ls) && 0 <= m.at < |ls|
    ensures r.0 == Running <==> ParseNumber(ls[m.at].bytes).Some?
    ensures r.0 == Running ==> r.1 == StoreWord(m, ParseNumber(ls[m.at].bytes).value, "")
    ensures r.0 != Running ==> r == (Halted(NumberError), m)
  {
    match ParseNumber(ls[m.at].bytes)
    case None => (Halted(NumberError), m)
    case Some(v) => (Running, m.(mem := m.mem[m.lc := v], lc := m.lc + 1))
  }

  /** One turn of the parse loop: Advance, then dispatch on `This`. */
  function Statement(ls: seq<Lexeme>, m: Machine): (r: (Status, Machine))
    requires ValidStream(ls) && -1 <= m.at < |ls|
    ensures 0 <= r.1.at < |ls|
    ensures r.0 == Running ==> m.at < r.1.at
    ensures var a := Advanced(ls, m.at);
      && (r.0 == PassEnd <==> ls[a].kind == EndOfFile)
      && (ls[a].kind in {Comment, EndOfLine, Unknown, EndOfFile} ==> r.1 == m.(at := a))
  {
    var m1 := m.(at := Advanced(ls, m.at));
    match ls[m1.at].kind
    case Punct => PunctStatement(ls, m1)
    case Sym => SymbolStatement(ls, m1)
    case Num => NumberStatement(ls, m1)
    case EndOfFile => (PassEnd, m1)
    case _ => (Running, m1)
  }

  /** Whether the statement after `at` is an origin, `* expr`. */
  predicate IsOrigin(ls: seq<Lexeme>, at: int)
    requires ValidStream(ls) && -1 <= at < |ls|
  {
    var cur := ls[Advanced(ls, at)];
    cur.kind == Punct && cur.bytes[0] == '*'
  }

  /** What a statement may do to the image and the flag: write at most the
      word at `lc`, keep every other word, and never withdraw a request for
      another pass. */
  ghost predicate KeepsImage(m: Machine, r: Machine)
  {
    && m.mem.Keys <= r.mem.Keys <= m.mem.Keys + {m.lc}
    && (forall k :: k in m.mem && k != m.lc ==> r.mem[k] == m.mem[k])
    && (m.apass ==> r.apass)
  }

  lemma StoreWordFrame(m: Machine, v: int, name: string)
    ensures KeepsImage(m, StoreWord(m, v, name)) && StoreWord(m, v, name).lc == m.lc + 1
    ensures StoreWord(m, v, name).tab == m.tab
  {
  }

  lemma WordStatementFrame(ls: seq<Lexeme>, m: Machine)
    requires ValidStream(ls) && 0 <= m.at < |ls|
    ensures var r := WordStatement(ls, m).1;
      KeepsImage(m, r) && (r.lc == m.lc || r.lc == m.lc + 1) && r.tab == m.tab
  {
    match EvalExpression(ls, m.at, m.lc, m.tab)
    case Done((v, name), a) => StoreWordFrame(m.(at := a), v, name);
    case Panicked(_) =>
    case Diverged =>
  }

  lemma MriStatementFrame(ls: seq<Lexeme>, m: Machine, opcode: int)
    requires ValidStream(ls) && 0 <= m.at < |ls|
    ensures var r := MriStatement(ls, m, opcode).1;
      KeepsImage(m, r) && (r.lc == m.lc || r.lc == m.lc + 1) && r.tab == m.tab
  {
    var (indirect, zeroPage, a2) := MriFlags(ls, m.at);
    var o := EvalExpression(ls, a2, m.lc, m.tab);
    if o.Done? {
      StoreWordFrame(m.(at := o.at), EncodeMri(o.val.0, indirect, zeroPage, opcode), o.val.1);
    }
  }

  lemma DefinitionFrame(ls: seq<Lexeme>, m: Machine)
    requires ValidStream(ls) && 0 <= m.at < |ls|
    ensures var r := Definition(ls, m).1;
      && r.mem == m.mem && r.lc == m.lc && (m.apass ==> r.apass)
      && (MriWellFormed(m.tab) ==> MriWellFormed(r.tab))
  {
  }

  lemma SymbolStatementFrame(ls: seq<Lexeme>, m: Machine)
    requires ValidStream(ls) && 0 <= m.at < |ls| && ls[m.at].kind == Sym
    ensures var r := SymbolStatement(ls, m).1;
      && KeepsImage(m, r) && (r.lc == m.lc || r.lc == m.lc + 1)
      && (MriWellFormed(m.tab) ==> MriWellFormed(r.tab))
  {
    var cur := ls[m.at];
    var next := NextAt(ls, m.at);
    if next.kind == Punct && next.bytes[0] != '.' {
      if next.bytes[0] == '=' {
        DefinitionFrame(ls, m);
      } else if next.bytes[0] != ',' {
        WordStatementFrame(ls, m);
      }
    } else if cur.bytes in m.tab && m.tab[cur.bytes].kind == Mri {
      MriStatementFrame(ls, m, m.tab[cur.bytes].val);
    } else {
      WordStatementFrame(ls, m);
    }
  }

  lemma PunctStatementFrame(ls: seq<Lexeme>, m: Machine)
    requires ValidStream(ls) && 0 <= m.at < |ls| && ls[m.at].kind == Punct
    ensures var r := PunctStatement(ls, m).1;
      && KeepsImage(m, r) && r.tab == m.tab
      && (ls[m.at].bytes[0] != '*' ==> r.lc == m.lc || r.lc == m.lc + 1)
  {
    if ls[m.at].bytes[0] != '*' {
      WordStatementFrame(ls, m);
    }
  }

  /** A statement writes at most the word at `lc` and keeps every other
      word; apart from an origin it moves `lc` by at most one. */
  lemma StatementFrame(ls: seq<Lexeme>, m: Machine)
    requires ValidStream(ls) && -1 <= m.at < |ls|
    ensures var r := Statement(ls, m).1;
      && KeepsImage(m, r)
      && (!IsOrigin(ls, m.at) ==> r.lc == m.lc || r.lc == m.lc + 1)
  {
    var m1 := m.(at := Advanced(ls, m.at));
    var kind := ls[m1.at].kind;
    if kind == Punct {
      PunctStatementFrame(ls, m1);
    } else if kind == Sym {
      SymbolStatementFrame(ls, m1);
    }
  }

  /** A statement binds symbols only as SI or LABEL, so MRI bindings keep
      their opcodes. */
  lemma StatementKeepsMris(ls: seq<Lexeme>, m: Machine)
    requires ValidStream(ls) && -1 <= m.at < |ls|
    requires MriWellFormed(m.tab)
    ensures MriWellFormed(Statement(ls, m).1.tab)
  {
    var m1 := m.(at := Advanced(ls, m.at));
    var kind := ls[m1.at].kind;
    if kind == Punct {
      PunctStatementFrame(ls, m1);
    } else if kind == Sym {
      SymbolStatementFrame(ls, m1);
    }
  }

  /** A word statement that runs moves `lc` by exactly one and stores the
      value at the old `lc` when it resolves; otherwise it leaves memory
      alone and asks for another pass. */
  lemma WordStatementEffect(ls: seq<Lexeme>, m: Machine)
    requires ValidStream(ls) && 0 <= m.at < |ls|
    ensures var e := EvalExpression(ls, m.at, m.lc, m.tab); var r := WordStatement(ls, m);
      e.Done? ==>
        (&& r.0 == Running && r.1.lc == m.lc + 1 && r.1.tab == m.tab
         && (if e.val.1 == "" then r.1.mem == m.mem[m.lc := e.val.0] && r.1.apass == m.apass
             else r.1.mem == m.mem && r.1.apass))
  {
  }

  /** `* expr`: a resolved value becomes the location counter and nothing
      else changes; an unresolved one is the "Unknown symbol" panic. */
  lemma OriginEffect(ls: seq<Lexeme>, m: Machine)
    requires ValidStream(ls) && -1 <= m.at < |ls| && IsOrigin(ls, m.at)
    ensures var a := Advanced(ls, m.at); var e := EvalExpression(ls, Advanced(ls, a), m.lc, m.tab);
      var r := Statement(ls, m);
      && (e.Done? && e.val.1 == "" ==> r == (Running, m.(at := e.at, lc := e.val.0)))
      && (e.Done? && e.val.1 != "" ==> r.0 == Halted("Unknown symbol: " + e.val.1) && r.1.mem == m.mem)
      && (e.Panicked? ==> r.0 == Halted(e.reason))
  {
  }

  /** `S = expr`: a resolved value binds S as an SI symbol, an unresolved
      one asks for another pass; memory and `lc` are left alone. */
  lemma DefinitionEffect(ls: seq<Lexeme>, m: Machine)
    requires ValidStream(ls) && -1 <= m.at < |ls|
    requires var a := Advanced(ls, m.at);
      ls[a].kind == Sym && NextAt(ls, a).kind == Punct && NextAt(ls, a).bytes[0] == '='
    ensures var a := Advanced(ls, m.at); var e := EvalExpression(ls, Advanced(ls, Advanced(ls, a)), m.lc, m.tab);
      var r := Statement(ls, m);
      e.Done? ==>
        && r.0 == Running && r.1.at == e.at && r.1.mem == m.mem && r.1.lc == m.lc
        && (if e.val.1 == "" then r.1.tab == m.tab[ls[a].bytes := Symbol(Si, e.val.0)] && r.1.apass == m.apass
            else r.1.tab == m.tab && r.1.apass)
  {
  }

  /** `S ,`: S is bound as a LABEL to the location counter; nothing else
      changes. */
  lemma LabelEffect(ls: seq<Lexeme>, m: Machine)
    requires ValidStream(ls) && -1 <= m.at < |ls|
    requires var a := Advanced(ls, m.at);
      ls[a].kind == Sym && NextAt(ls, a).kind == Punct && NextAt(ls, a).bytes[0] == ','
    ensures var a := Advanced(ls, m.at);
      Statement(ls, m) == (Running, m.(at := Advanced(ls, a), tab := m.tab[ls[a].bytes := Symbol(SymType.Label, m.lc)]))
  {
  }

  /** An MRI mnemonic not followed by `=`, `,`, `+` or `-`: the word
      `EncodeMri` of the address, flags and opcode is stored at `lc` when the
      address resolves, otherwise another pass is asked for and nothing is
      stored; `lc` moves on by one either way. */
  lemma MriEffect(ls: seq<Lexeme>, m: Machine)
    requires ValidStream(ls) && -1 <= m.at < |ls|
    requires var a := Advanced(ls, m.at); var next := NextAt(ls, a);
      && ls[a].kind == Sym && !(next.kind == Punct && next.bytes[0] != '.')
      && ls[a].bytes in m.tab && m.tab[ls[a].bytes].kind == Mri
    ensures var a := Advanced(ls, m.at); var (i, z, a2) := MriFlags(ls, a);
      var e := EvalExpression(ls, a2, m.lc, m.tab); var r := Statement(ls, m);
      e.Done? ==>
        && r.0 == Running && r.1.at == e.at && r.1.lc == m.lc + 1 && r.1.tab == m.tab
        && (if e.val.1 == "" then
              r.1.mem == m.mem[m.lc := EncodeMri(e.val.0, i, z, m.tab[ls[a].bytes].val)] && r.1.apass == m.apass
            else r.1.mem == m.mem && r.1.apass)
  {
  }

  /** A number statement stores the number at `lc` and moves `lc` on; a
      number out of range is the number-error panic. */
  lemma NumberEffect(ls: seq<Lexeme>, m: Machine)
    requires ValidStream(ls) && -1 <= m.at < |ls| && ls[Advanced(ls, m.at)].kind == Num
    ensures var a := Advanced(ls, m.at); var r := Statement(ls, m);
      match ParseNumber(ls[a].bytes)
      case Some(v) => r == (Running, m.(at := a, mem := m.mem[m.lc := v], lc := m.lc + 1))
      case None => r == (Halted(NumberError), m.(at := a))
  {
  }

  // ---------------------------------------------------------------------
  // Passes

  /** The parse loop of one pass, up to end of file or a panic. */
  function RunPass(ls: seq<Lexeme>, m: Machine): (r: (Status, Machine))
    requires ValidStream(ls) && -1 <= m.at < |ls|
    ensures r.0 != Running
    ensures 0 <= r.1.at < |ls|
    decreases |ls| - m.at
  {
    var (st, m') := Statement(ls, m);
    if st == Running then RunPass(ls, m') else (st, m')
  }

  /** Over a pass memory keeps every word it had (later words may replace
      earlier ones), the MRI bindings keep their opcodes, and a request for
      another pass is never withdrawn. */
  lemma {:induction false} RunPassFrame(ls: seq<Lexeme>, m: Machine)
    requires ValidStream(ls) && -1 <= m.at < |ls|
    ensures m.mem.Keys <= RunPass(ls, m).1.mem.Keys
    ensures MriWellFormed(m.tab) ==> MriWellFormed(RunPass(ls, m).1.tab)
    ensures m.apass ==> RunPass(ls, m).1.apass
    decreases |ls| - m.at
  {
    var (st, m') := Statement(ls, m);
    StatementFrame(ls, m);
    if MriWellFormed(m.tab) {
      StatementKeepsMris(ls, m);
    }
    if st == Running {
      RunPassFrame(ls, m');
    }
  }

  /** The state a new pass starts from: the lexer rewound, `lc` at 0 (not
      the initial 0o200) and the flag cleared; memory and symbols kept. */
  function Restart(m: Machine): (r: Machine)
    ensures r.mem == m.mem && r.tab == m.tab && r.at == -1 && r.lc == 0 && !r.apass
  {
    m.(at := -1, lc := 0, apass := false)
  }

  /** The pass loop from pass number `depth`: the final status and state
      and the number of passes made. */
  function Passes(ls: seq<Lexeme>, m: Machine, depth: int): (r: (Status, Machine, int))
    requires ValidStream(ls) && -1 <= m.at < |ls| && 1 <= depth <= MaxDepth
    ensures depth <= r.2 <= MaxDepth
    decreases MaxDepth - depth, 1
  {
    PassesAfter(ls, RunPass(ls, m), depth)
  }

  /** The decision at the end of pass number `depth`: another pass from the
      restarted state when the pass reached end of file asking for one and
      the limit is not reached, otherwise stop with that pass's result. */
  function PassesAfter(ls: seq<Lexeme>, pass: (Status, Machine), depth: int): (r: (Status, Machine, int))
    requires ValidStream(ls) && 1 <= depth <= MaxDepth
    ensures depth <= r.2 <= MaxDepth
    decreases MaxDepth - depth, 0
  {
    var (st, m') := pass;
    if st == PassEnd && m'.apass && depth < MaxDepth then Passes(ls, Restart(m'), depth + 1)
    else (st, m', depth)
  }

  /** The state NewParser leaves: lexer before its first Advance, `lc` at
      0o200, empty memory. */
  function Initial(tab: map<string, Symbol>): Machine
  {
    Machine(-1, InitialLc, map[], tab, false)
  }

  /** parseP8Assembly from a new parser. */
  function Assemble(ls: seq<Lexeme>, tab: map<string, Symbol>): (r: (Status, Machine, int))
    requires ValidStream(ls)
    ensures 1 <= r.2 <= MaxDepth
  {
    Passes(ls, Initial(tab), 1)
  }

  /** "Parsing failed": the pass count reached the limit. */
  predicate Failed(r: (Status, Machine, int))
  {
    r.0 == PassEnd && r.2 >= MaxDepth
  }

  /** The driver makes between one and ten passes; it stops early only on
      a panic, a hang or a pass that resolved everything, and a run that
      stops before the limit at end of file has resolved everything. */
  lemma {:induction false} PassesBound(ls: seq<Lexeme>, m: Machine, depth: int)
    requires ValidStream(ls) && -1 <= m.at < |ls| && 1 <= depth <= MaxDepth
    ensures var r := Passes(ls, m, depth);
      && depth <= r.2 <= MaxDepth
      && r.0 != Running
      && (r.0 == PassEnd && r.2 < MaxDepth ==> !r.1.apass)
      && m.mem.Keys <= r.1.mem.Keys
      && (MriWellFormed(m.tab) ==> MriWellFormed(r.1.tab))
    decreases MaxDepth - depth, 1
  {
    RunPassFrame(ls, m);
    PassesAfterBound(ls, RunPass(ls, m), depth, m);
  }

  /** PassesBound after pass number `depth`, given what the pass kept of
      the state `m` it started from. */
  lemma {:induction false} PassesAfterBound(ls: seq<Lexeme>, pass: (Status, Machine), depth: int, m: Machine)
    requires ValidStream(ls) && 1 <= depth <= MaxDepth && pass.0 != Running
    requires m.mem.Keys <= pass.1.mem.Keys && (MriWellFormed(m.tab) ==> MriWellFormed(pass.1.tab))
    ensures var r := PassesAfter(ls, pass, depth);
      && depth <= r.2 <= MaxDepth
      && r.0 != Running
      && (r.0 == PassEnd && r.2 < MaxDepth ==> !r.1.apass)
      && m.mem.Keys <= r.1.mem.Keys
      && (MriWellFormed(m.tab) ==> MriWellFormed(r.1.tab))
    decreases MaxDepth - depth, 0
  {
    var (st, m') := pass;
    if st == PassEnd && m'.apass && depth < MaxDepth {
      PassesBound(ls, Restart(m'), depth + 1);
    }
  }

  /** A pass is repeated only on request: when the first pass resolves
      everything the result is that pass, and the run did not fail. */
  lemma OnePassSuffices(ls: seq<Lexeme>, tab: map<string, Symbol>)
    requires ValidStream(ls)
    requires !RunPass(ls, Initial(tab)).1.apass
    ensures Assemble(ls, tab) == (RunPass(ls, Initial(tab)).0, RunPass(ls, Initial(tab)).1, 1)
    ensures !Failed(Assemble(ls, tab))
  {
  }

  /** A second pass starts exactly when the first ends at end of file with
      an unresolved reference, and it starts at location 0. */
  lemma SecondPassStart(ls: seq<Lexeme>, tab: map<string, Symbol>)
    requires ValidStream(ls)
    requires RunPass(ls, Initial(tab)).0 == PassEnd && RunPass(ls, Initial(tab)).1.apass
    ensures Assemble(ls, tab) == Passes(ls, Restart(RunPass(ls, Initial(tab)).1), 2)
    ensures Assemble(ls, tab).2 >= 2
  {
    var r := Passes(ls, Restart(RunPass(ls, Initial(tab)).1), 2);
  }

  // ---------------------------------------------------------------------
  // The Parser object

  class Parser {
    /** The lexer, as the stream it produces; `at` is its cursor. */
    const lexemes: seq<Lexeme>
    const symtab: SymbolTable
    const mdepth: int
    var at: int
    var lc: int
    var mem: Exporter.Memory
    var apass: bool
    var pdepth: int

    ghost predicate Valid()
      reads this
    {
      ValidStream(lexemes) && -1 <= at < |lexemes| && mdepth == MaxDepth
    }

    function State(): Machine
      reads this, symtab
    {
      Machine(at, lc, mem, symtab.entries, apass)
    }

    /** NewParser: `lc` at 0o200, empty memory, at most ten passes. */
    constructor (ls: seq<Lexeme>, st: SymbolTable)
      requires ValidStream(ls)
      ensures Valid() && lexemes == ls && symtab == st
      ensures State() == Initial(st.entries) && pdepth == 0
    {
      lexemes := ls;
      symtab := st;
      mdepth := MaxDepth;
      at := -1;
      lc := InitialLc;
      mem := map[];
      apass := false;
      pdepth := 0;
    }

    /** The lexer's Advance: `This` becomes `Next`. */
    method Advance()
      requires Valid()
      modifies this
      ensures Valid() && State() == old(State()).(at := Advanced(lexemes, old(at)))
      ensures pdepth == old(pdepth)
    {
      if at + 1 < |lexemes| {
        at := at + 1;
      }
    }

    /** The operand block parseExpression repeats: look up a symbol, parse
        a number, or panic. */
    method Operand() returns (o: Operand)
      requires Valid() && at >= 0
      ensures o == OperandOf(lexemes[at], symtab.entries)
    {
      var b := lexemes[at].bytes;
      if IsLetter(b[0]) {
        var sym := symtab.Get(b);
        if sym.Some? {
          return Value(sym.value.val);
        }
        return Missing;
      } else if IsDigit(b[0]) {
        var n := ParseNumber(b);
        if n.None? {
          return Fault(NumberError);
        }
        return Value(n.value);
      }
      return Fault(OperandError);
    }

    /** Skip to the end of the line; false where the Go loop would spin on
        the end-of-file lexeme for ever. */
    method SkipToEndOfLine() returns (ok: bool)
      requires Valid() && at >= 0
      modifies this
      ensures Valid() && ok == SkipToEol(lexemes, old(at)).Some?
      ensures lc == old(lc) && mem == old(mem) && apass == old(apass)
      ensures ok ==> State() == old(State()).(at := SkipToEol(lexemes, old(at)).value)
      ensures pdepth == old(pdepth)
    {
      while lexemes[at].kind != EndOfLine
        invariant Valid() && at >= 0
        invariant SkipToEol(lexemes, at) == SkipToEol(lexemes, old(at))
        invariant State() == old(State()).(at := at) && pdepth == old(pdepth)
        decreases |lexemes| - at
      {
        if at == |lexemes| - 1 {
          return false;
        }
        Advance();
      }
      return true;
    }

    /** parseExpression. */
    method ParseExpression() returns (o: Outcome<(int, string)>)
      requires Valid() && at >= 0
      modifies this
      ensures Valid() && o == EvalExpression(lexemes, old(at), lc, symtab.entries)
      ensures o.Done? ==> State() == old(State()).(at := o.at)
      ensures lc == old(lc) && mem == old(mem) && apass == old(apass) && pdepth == old(pdepth)
    {
      var start := lexemes[at].bytes;
      if lexemes[at].kind == Punct {
        if start[0] == '.' {
          if NextAt(lexemes, at).kind == Punct {
            var a := lc;
            Advance();
            var sign := lexemes[at].bytes;
            Advance();
            var operand := lexemes[at].bytes;
            var b := Operand();
            match b
            case Missing => return Done((-1, operand), at);
            case Fault(e) => return Panicked(e);
            case Value(bv) =>
              if sign == "-" {
                return Done((a - bv, ""), at);
              } else if sign == "+" {
                return Done((a + bv, ""), at);
              }
              return Panicked(OperationError);
          } else if NextAt(lexemes, at).kind == Comment || NextAt(lexemes, at).kind == EndOfLine {
            return Done((lc, ""), at);
          }
        } else {
          var sign := start;
          Advance();
          var operand := lexemes[at].bytes;
          var a := Operand();
          match a
          case Missing => return Done((-1, operand), at);
          case Fault(e) => return Panicked(e);
          case Value(av) =>
            if sign == "-" {
              return Done((av * -1, ""), at);
            } else if sign == "+" {
              return Done((av, ""), at);
            }
            return Panicked(OperationError);
        }
      } else if NextAt(lexemes, at).kind == Punct {
        o := ParseBinary();
        return;
      } else if NextAt(lexemes, at).kind == Sym {
        Advance();
        var operand := lexemes[at].bytes;
        var sSym := symtab.Get(start);
        var eSym := symtab.Get(operand);
        if sSym.Some? && eSym.Some? {
          return Done((Or(sSym.value.val, eSym.value.val), ""), at);
        }
      } else if NextAt(lexemes, at).kind == Comment || NextAt(lexemes, at).kind == EndOfLine {
        var a := Operand();
        match a
        case Value(v) => return Done((v, ""), at);
        case Fault(e) => return Panicked(e);
        case Missing =>
        return Done((-1, start), at);
      } else {
        return Panicked(SyntaxPanic);
      }
      return Done((-1, "error"), at);
    }

    /** The `A <sign> B` branch of parseExpression. */
    method ParseBinary() returns (o: Outcome<(int, string)>)
      requires Valid() && at >= 0
      modifies this
      ensures Valid() && o == EvalBinary(lexemes, old(at), symtab.entries)
      ensures o.Done? ==> State() == old(State()).(at := o.at)
      ensures lc == old(lc) && mem == old(mem) && apass == old(apass) && pdepth == old(pdepth)
    {
      var start := lexemes[at].bytes;
      var a := Operand();
      match a
      case Fault(e) => return Panicked(e);
      case Missing =>
        var ok := SkipToEndOfLine();
        if !ok {
          return Diverged;
        }
        return Done((-1, start), at);
      case Value(av) =>
        Advance();
        var sign := lexemes[at].bytes;
        Advance();
        var b := Operand();
        match b
        case Fault(e) => return Panicked(e);
        case Missing =>
          var ok := SkipToEndOfLine();
          if !ok {
            return Diverged;
          }
          return Done((-1, start), at);
        case Value(bv) =>
          if sign == "-" {
            return Done((av - bv, ""), at);
          } else if sign == "+" {
            return Done((av + bv, ""), at);
          }
          return Panicked(UnsupportedError);
    }

    /** The word-producing block of the parse loop: evaluate, store at `lc`
        or ask for another pass, then move `lc` on. */
    method ParseWord() returns (st: Status)
      requires Valid() && at >= 0
      modifies this
      ensures Valid() && st == WordStatement(lexemes, old(State())).0
      ensures st == Running ==> State() == WordStatement(lexemes, old(State())).1
      ensures pdepth == old(pdepth)
    {
      var o := ParseExpression();
      match o
      case Panicked(e) => return Halted(e);
      case Diverged => return Hung;
      case Done((inst, expr), _) =>
        Deposit(inst, expr);
        return Running;
    }

    /** parseSymbolDefinition. */
    method ParseSymbolDefinition() returns (st: Status)
      requires Valid() && at >= 0
      modifies this, symtab
      ensures Valid() && st == Definition(lexemes, old(State())).0
      ensures st == Running ==> State() == Definition(lexemes, old(State())).1
      ensures pdepth == old(pdepth)
    {
      var symbol := lexemes[at].bytes;
      Advance();
      Advance();
      var o := ParseExpression();
      match o
      case Panicked(e) => return Halted(e);
      case Diverged => return Hung;
      case Done((value, str), _) =>
        if str == "" {
          symtab.Set(symbol, value);
        } else {
          apass := true;
        }
        return Running;
    }

    /** parseLabel. */
    method ParseLabel()
      requires Valid() && at >= 0
      modifies this, symtab
      ensures Valid() && State() == LabelStatement(lexemes, old(State())).1
      ensures pdepth == old(pdepth)
    {
      var symbol := lexemes[at].bytes;
      Advance();
      symtab.Label(symbol, lc);
    }

    /** Store a word at `lc`, or ask for another pass when it names an
        unresolved symbol; `lc` moves on either way. */
    method Deposit(v: int, name: string)
      requires Valid()
      modifies this
      ensures Valid() && State() == StoreWord(old(State()), v, name)
      ensures pdepth == old(pdepth)
    {
      if name != "" {
        apass := true;
      } else {
        mem := mem[lc := v];
      }
      lc := lc + 1;
    }

    /** The I and Z flags after an MRI mnemonic. */
    method ParseMriFlags() returns (indirect: bool, zeroPage: bool)
      requires Valid() && at >= 0
      modifies this
      ensures Valid() && (indirect, zeroPage, at) == MriFlags(lexemes, old(at))
      ensures State() == old(State()).(at := at) && pdepth == old(pdepth)
    {
      Advance();
      indirect, zeroPage := false, false;
      if lexemes[at].kind == Sym && lexemes[at].bytes[0] == 'I' {
        indirect := true;
        Advance();
      }
      if lexemes[at].kind == Sym && lexemes[at].bytes[0] == 'Z' {
        zeroPage := true;
        Advance();
      }
    }

    /** A memory reference instruction whose mnemonic is `This`. */
    method ParseMri(opcode: int) returns (st: Status)
      requires Valid() && at >= 0
      modifies this
      ensures Valid() && st == MriStatement(lexemes, old(State()), opcode).0
      ensures st == Running ==> State() == MriStatement(lexemes, old(State()), opcode).1
      ensures pdepth == old(pdepth)
    {
      ghost var m := State();
      var indirect, zeroPage := ParseMriFlags();
      var o := ParseExpression();
      assert MriStatement(lexemes, m, opcode) == MriFinish(o, m, indirect, zeroPage, opcode);
      match o
      case Panicked(e) => return Halted(e);
      case Diverged => return Hung;
      case Done((result, expr), _) =>
        var w := EncodeWord(result, indirect, zeroPage, opcode);
        Deposit(w, expr);
        return Running;
    }

    /** The address with the flag bits applied, or-ed with the opcode. */
    static method EncodeWord(result: int, indirect: bool, zeroPage: bool, opcode: int) returns (w: int)
      ensures w == EncodeMri(result, indirect, zeroPage, opcode)
    {
      w := result;
      if indirect {
        w := Or(w, IndirectBit);
      }
      if zeroPage {
        w := And(w, ZeroPageMask);
      }
      w := Or(w, opcode);
    }

    /** One turn of the parse loop. */
    method ParseStatement() returns (st: Status)
      requires Valid()
      modifies this, symtab
      ensures Valid() && st == Statement(lexemes, old(State())).0
      ensures st == Running || st == PassEnd ==> State() == Statement(lexemes, old(State())).1
      ensures pdepth == old(pdepth)
    {
      Advance();
      var cur := lexemes[at];
      match cur.kind
      case Punct =>
        if cur.bytes[0] == '*' {
          Advance();
          var o := ParseExpression();
          match o
          case Panicked(e) => return Halted(e);
          case Diverged => return Hung;
          case Done((v, str), _) =>
            if str != "" {
              return Halted("Unknown symbol: " + str);
            }
            lc := v;
        } else if cur.bytes[0] == '.' || cur.bytes[0] == '-' || cur.bytes[0] == '+' {
          st := ParseWord();
          return;
        }
        return Running;
      case Sym =>
        var next := NextAt(lexemes, at);
        if next.kind == Punct && next.bytes[0] != '.' {
          if next.bytes[0] == '=' {
            st := ParseSymbolDefinition();
            return;
          } else if next.bytes[0] == ',' {
            ParseLabel();
          } else if next.bytes[0] == '-' || next.bytes[0] == '+' {
            st := ParseWord();
            return;
          }
          return Running;
        }
        var sym := symtab.Get(cur.bytes);
        if sym.Some? && sym.value.kind == Mri {
          st := ParseMri(sym.value.val);
        } else {
          st := ParseWord();
        }
      case Num =>
        var inst := ParseNumber(cur.bytes);
        if inst.None? {
          return Halted(NumberError);
        }
        mem := mem[lc := inst.value];
        lc := lc + 1;
        return Running;
      case EndOfFile =>
        return PassEnd;
      case _ =>
        return Running;
    }

    /** The parse loop of one pass: statements until end of file, a panic
        or a hang. */
    method ParsePass() returns (st: Status)
      requires Valid()
      modifies this, symtab
      ensures Valid() && st == RunPass(lexemes, old(State())).0
      ensures st == PassEnd ==> State() == RunPass(lexemes, old(State())).1
      ensures pdepth == old(pdepth)
    {
      ghost var pass := RunPass(lexemes, State());
      st := Running;
      while st == Running
        invariant Valid() && pdepth == old(pdepth)
        invariant st == Running ==> RunPass(lexemes, State()) == pass
        invariant st != Running ==> st == pass.0 && (st == PassEnd ==> State() == pass.1)
        decreases if st == Running then |lexemes| - at + 1 else 0
      {
        st := ParseStatement();
      }
    }

    /** parseP8Assembly: passes until one resolves everything, a panic or a
        hang, or the pass limit; `failed` is the "Parsing failed" report. */
    method ParseP8Assembly() returns (st: Status, failed: bool)
      requires Valid() && 0 <= pdepth < mdepth
      modifies this, symtab
      ensures Valid()
      ensures var r := Passes(lexemes, old(State()), old(pdepth) + 1);
        && st == r.0
        && (st == PassEnd ==> State() == r.1 && pdepth == r.2)
        && failed == Failed(r)
    {
      pdepth := pdepth + 1;
      ghost var goal := Passes(lexemes, State(), pdepth);
      var again := true;
      st, failed := Running, false;
      while again
        invariant Valid() && 1 <= pdepth <= mdepth
        invariant again ==> Passes(lexemes, State(), pdepth) == goal
        invariant !again ==> st == goal.0 && (st == PassEnd ==> State() == goal.1 && pdepth == goal.2)
        invariant !again ==> failed == Failed(goal)
        decreases again, mdepth - pdepth
      {
        st, again := NextPass();
        failed := !again && st == PassEnd && pdepth >= mdepth;
      }
    }

    /** One pass, then the decision at its end: go round again (with the
        lexer rewound, `lc` at 0 and the flag cleared) or stop. */
    method NextPass() returns (st: Status, again: bool)
      requires Valid() && 1 <= pdepth <= mdepth
      modifies this, symtab
      ensures Valid() && 1 <= pdepth <= mdepth
      ensures var r := Passes(lexemes, old(State()), old(pdepth));
        && (again ==> pdepth == old(pdepth) + 1 && Passes(lexemes, State(), pdepth) == r)
        && (!again ==> st == r.0 && (st == PassEnd ==> State() == r.1 && pdepth == r.2))
    {
      ghost var before := State();
      st := ParsePass();
      if st != PassEnd {
        return st, false;
      }
      if apass && pdepth < mdepth {
        pdepth := pdepth + 1;
        at := -1;
        lc := 0;
        apass := false;
        assert State() == Restart(RunPass(lexemes, before).1);
        return st, true;
      }
      return st, false;
    }
  }
}
