/** The line-buffer lexer of the assembler.

    The input file is the sequence of lines that `bufio.Scanner` yields with
    the custom split function `scanLines`; the `Lexer` object keeps a
    two-lexeme window (`This`, `Next`), the current line, the scan position
    in it and the line number, and `Advance` classifies the next lexeme by
    fixed byte rules. Each mutating method is proved against a function on
    a `ScanState` value (`NextLine`, `SkipBlanks`, `Lex`); the properties
    of the lexer are lemmas about those functions. */
module Lexer {
  import opened Wrappers

  /** A byte, written as the character with the same code so that source
      text and symbol names read as literals (Go's `string(bytes)` is then
      the byte sequence itself). */
  type Byte = c: char | c as int < 256

  datatype LexType = Sym | Punct | Num | Comment | EndOfLine | EndOfFile | Unknown

  datatype Lexeme = Lexeme(kind: LexType, bytes: seq<Byte>, line: int, col: int)

  /** Go's zero value of a Lexeme: type 0 (SYMBOL), no bytes. It is `This`
      after construction, before the parser's first Advance. */
  const ZeroLexeme: Lexeme := Lexeme(Sym, [], 0, 0)

  // ---------------------------------------------------------------------
  // Byte classes

  predicate IsDigit(c: Byte)
  {
    ('0' <= c <= '9') || c == 'x' || c == 'b' || c == 'o' || c == 'd'
  }

  predicate IsLetter(c: Byte)
  {
    ('A' <= c <= 'Z') || ('a' <= c <= 'z')
  }

  predicate IsAlphaNum(c: Byte)
  {
    IsDigit(c) || IsLetter(c)
  }

  predicate IsPunctuation(c: Byte)
  {
    c == '=' || c == '*' || c == ',' || c == '.' || c == '-' || c == '+'
  }

  predicate IsBlank(c: Byte)
  {
    c == ' ' || c == '\t'
  }

  /** The digit and letter classes overlap in exactly the four base letters,
      so a number lexeme may hold letters and a symbol may hold digits. */
  lemma DigitLetterOverlap(c: Byte)
    ensures IsDigit(c) && IsLetter(c) <==> c == 'x' || c == 'b' || c == 'o' || c == 'd'
    ensures IsAlphaNum(c) <==> ('0' <= c <= '9') || ('A' <= c <= 'Z') || ('a' <= c <= 'z')
  {
  }

  // ---------------------------------------------------------------------
  // Splitting the input into lines (scanLines and bufio.Scanner)

  /** bytes.IndexByte: the first index of `b` in `data`, if any. */
  function IndexByte(data: seq<Byte>, b: Byte): (r: Option<nat>)
    ensures r.Some? ==> r.value < |data| && data[r.value] == b
    ensures r.Some? ==> forall j :: 0 <= j < r.value ==> data[j] != b
    ensures r.None? ==> forall j :: 0 <= j < |data| ==> data[j] != b
  {
    if data == [] then None
    else if data[0] == b then Some(0)
    else match IndexByte(data[1..], b)
      case None => None
      case Some(i) => Some(i + 1)
  }

  /** The split function `scanLines`: how many bytes to consume and the
      token to yield. A line keeps its newline; a final line without one
      gets a 0 byte appended; empty data at EOF yields nothing. */
  function SplitLine(data: seq<Byte>, atEOF: bool): (r: (nat, Option<seq<Byte>>))
    ensures r.1.Some? ==> 1 <= r.0 <= |data|
  {
    if atEOF && |data| == 0 then (0, None)
    else match IndexByte(data, '\n')
      case Some(i) => (i + 1, Some(data[..i + 1]))
      case None => if atEOF then (|data|, Some(data + ['\0'])) else (0, None)
  }

  /** The tokens a Scanner with `SplitLine` yields over the whole input. */
  function ScanLines(data: seq<Byte>): (r: seq<seq<Byte>>)
    ensures |r| <= |data| && (r == [] <==> data == [])
    decreases |data|
  {
    var (advance, token) := SplitLine(data, true);
    match token
    case None => []
    case Some(t) => [t] + ScanLines(data[advance..])
  }

  predicate Terminated(l: seq<Byte>)
  {
    |l| > 0 && (l[|l| - 1] == '\n' || l[|l| - 1] == '\0')
  }

  predicate WellFormedLines(lines: seq<seq<Byte>>)
  {
    forall i :: 0 <= i < |lines| ==> Terminated(lines[i])
  }

  function Flatten(lines: seq<seq<Byte>>): seq<Byte>
  {
    if lines == [] then [] else lines[0] + Flatten(lines[1..])
  }

  /** Every line ends in a newline or the appended 0, a newline occurs only
      at the end of a line, and only the last line can end in 0. */
  lemma {:induction false} ScanLinesShape(data: seq<Byte>)
    ensures WellFormedLines(ScanLines(data))
    ensures forall i, j :: 0 <= i < |ScanLines(data)| && 0 <= j < |ScanLines(data)[i]| - 1 ==> ScanLines(data)[i][j] != '\n'
    ensures forall i :: 0 <= i < |ScanLines(data)| - 1 ==> ScanLines(data)[i][|ScanLines(data)[i]| - 1] == '\n'
    decreases |data|
  {
    if data != [] {
      var (advance, token) := SplitLine(data, true);
      ScanLinesShape(data[advance..]);
      var rest := ScanLines(data[advance..]);
      assert ScanLines(data) == [token.value] + rest;
      match IndexByte(data, '\n')
      case Some(k) =>
      case None =>
        assert data[advance..] == [];
    }
  }

  /** Joining the lines gives back the input, plus the 0 byte when the
      input does not end in a newline. */
  lemma {:induction false} ScanLinesFlatten(data: seq<Byte>)
    ensures Flatten(ScanLines(data)) ==
      if data == [] || data[|data| - 1] == '\n' then data else data + ['\0']
    decreases |data|
  {
    if data != [] {
      var (advance, token) := SplitLine(data, true);
      var rest := data[advance..];
      ScanLinesFlatten(rest);
      assert ScanLines(data) == [token.value] + ScanLines(rest);
      assert Flatten(ScanLines(data)) == token.value + Flatten(ScanLines(rest));
      match IndexByte(data, '\n')
      case Some(k) =>
        assert data == data[..k + 1] + rest;
        if rest != [] {
          assert rest[|rest| - 1] == data[|data| - 1];
        }
      case None =>
        assert rest == [];
    }
  }

  // ---------------------------------------------------------------------
  // Scanner state and the functions the Lexer methods are proved against

  /** The mutable scanning state of a Lexer: how many lines the Scanner has
      handed out, the line number, the line buffer and the scan position
      (-1 once no line is left). */
  datatype ScanState = ScanState(lineIdx: nat, lineNum: int, line: seq<Byte>, pos: int)

  predicate ValidState(lines: seq<seq<Byte>>, s: ScanState)
  {
    && s.lineIdx <= |lines|
    && ((s.pos == -1 && s.line == [] && s.lineIdx == |lines|)
        || (0 < s.lineIdx && s.line == lines[s.lineIdx - 1] && 0 <= s.pos < |s.line|))
  }

  /** readLine: take the Scanner's next line, or mark the end of input. */
  function NextLine(lines: seq<seq<Byte>>, s: ScanState): (r: ScanState)
    requires s.lineIdx <= |lines|
    requires WellFormedLines(lines)
    ensures ValidState(lines, r)
    ensures r.lineNum == s.lineNum + 1
  {
    if s.lineIdx < |lines| then ScanState(s.lineIdx + 1, s.lineNum + 1, lines[s.lineIdx], 0)
    else ScanState(s.lineIdx, s.lineNum + 1, [], -1)
  }

  /** skipWhitespace: the position of the first byte at or after `pos` that
      is not a space or tab, never beyond the line length; -1 stays -1. */
  function SkipBlanks(line: seq<Byte>, pos: int): (r: int)
    requires -1 <= pos <= |line|
    ensures pos == -1 ==> r == -1
    ensures pos >= 0 ==> pos <= r <= |line|
    ensures pos >= 0 ==> forall k :: pos <= k < r ==> IsBlank(line[k])
    ensures pos >= 0 && r < |line| ==> !IsBlank(line[r])
    decreases |line| - pos
  {
    if pos == |line| || pos == -1 then pos
    else if IsBlank(line[pos]) then SkipBlanks(line, pos + 1)
    else pos
  }

  /** The end of the run that starts a symbol (letters and digits) or a
      number (digits and base letters), scanning from `p`. */
  function RunEnd(line: seq<Byte>, p: nat, digitsOnly: bool): (e: nat)
    requires p <= |line|
    ensures p <= e <= |line|
    ensures forall k :: p <= k < e ==> if digitsOnly then IsDigit(line[k]) else IsAlphaNum(line[k])
    ensures e < |line| ==> !(if digitsOnly then IsDigit(line[e]) else IsAlphaNum(line[e]))
    decreases |line| - p
  {
    if p < |line| && (if digitsOnly then IsDigit(line[p]) else IsAlphaNum(line[p]))
    then RunEnd(line, p + 1, digitsOnly)
    else p
  }

  /** A line in a well-formed input ends in a byte that no run, blank or
      line end continues past. */
  lemma TerminatorStops(line: seq<Byte>)
    requires Terminated(line)
    ensures !IsBlank(line[|line| - 1]) && !IsAlphaNum(line[|line| - 1])
  {
  }

  /** In a valid state the current line, if any, ends in such a byte. */
  lemma StateStops(lines: seq<seq<Byte>>, s: ScanState)
    requires WellFormedLines(lines) && ValidState(lines, s)
    ensures s.pos >= 0 ==> !IsBlank(s.line[|s.line| - 1]) && !IsAlphaNum(s.line[|s.line| - 1])
    ensures s.pos >= 0 ==> s.line[|s.line| - 1] == '\n' || s.line[|s.line| - 1] == '\0'
  {
  }

  /** The loop after an end-of-line lexeme: while the scan position is on a
      newline, read the next line and skip its leading blanks. */
  function SkipBlankLines(lines: seq<seq<Byte>>, s: ScanState): (r: ScanState)
    requires WellFormedLines(lines) && ValidState(lines, s) && s.pos >= 0
    ensures ValidState(lines, r)
    ensures r.pos == -1 || r.line[r.pos] != '\n'
    ensures r.lineIdx >= s.lineIdx
    decreases |lines| - s.lineIdx
  {
    if s.line[s.pos] == '\n' then
      var s1 := NextLine(lines, s);
      if s1.pos == -1 then s1
      else
        TerminatorStops(s1.line);
        SkipBlankLines(lines, s1.(pos := SkipBlanks(s1.line, s1.pos)))
    else s
  }

  /** After skipping blanks in a valid state the scan position is still on
      a byte of the line (or -1): the line's last byte is not blank. */
  lemma SkipBlanksValid(lines: seq<seq<Byte>>, s: ScanState)
    requires WellFormedLines(lines) && ValidState(lines, s)
    ensures ValidState(lines, s.(pos := SkipBlanks(s.line, s.pos)))
  {
    StateStops(lines, s);
  }

  /** The lexeme that starts at the scan position of `s` (blanks already
      skipped), and the state after it. */
  function Classify(lines: seq<seq<Byte>>, s: ScanState): (r: (Lexeme, ScanState))
    requires WellFormedLines(lines) && ValidState(lines, s)
    ensures ValidState(lines, r.1)
    ensures |r.0.bytes| > 0
    ensures r.0.line == s.lineNum && r.0.col == s.pos + 1
  {
    StateStops(lines, s);
    var p := s.pos;
    var col := p + 1;
    var ln := s.lineNum;
    if p == -1 || s.line[p] == '\0' || s.line[p] == '$' then
      (Lexeme(EndOfFile, ['\0'], ln, col), s)
    else
      var c := s.line[p];
      if c == '\n' || c == ';' then ClassifyEndOfLine(lines, s)
      else ClassifyInLine(lines, s)
  }

  /** An end-of-line lexeme at a newline or `;`: step over the `;`, then
      skip the lines that hold only blanks. */
  function ClassifyEndOfLine(lines: seq<seq<Byte>>, s: ScanState): (r: (Lexeme, ScanState))
    requires WellFormedLines(lines) && ValidState(lines, s) && s.pos >= 0
    requires s.line[s.pos] in {'\n', ';'}
    ensures ValidState(lines, r.1)
    ensures |r.0.bytes| > 0
    ensures r.0.line == s.lineNum && r.0.col == s.pos + 1
  {
    StateStops(lines, s);
    var p := s.pos;
    var s2 := s.(pos := if s.line[p] == ';' then p + 1 else p);
    (Lexeme(EndOfLine, ['\n'], s.lineNum, p + 1), SkipBlankLines(lines, s2))
  }

  /** A lexeme that starts inside a line: a comment, punctuation, a symbol,
      a number or a single unknown byte. */
  function ClassifyInLine(lines: seq<seq<Byte>>, s: ScanState): (r: (Lexeme, ScanState))
    requires WellFormedLines(lines) && ValidState(lines, s) && s.pos >= 0
    requires s.line[s.pos] !in {'\0', '$', '\n', ';'}
    ensures ValidState(lines, r.1) && r.1 == s.(pos := r.1.pos) && s.pos < r.1.pos
    ensures |r.0.bytes| > 0
    ensures r.0.line == s.lineNum && r.0.col == s.pos + 1
  {
    StateStops(lines, s);
    var p := s.pos;
    var col := p + 1;
    var ln := s.lineNum;
    var c := s.line[p];
    if c == '/' then
      (Lexeme(Comment, s.line[p..|s.line| - 1], ln, col), s.(pos := |s.line| - 1))
    else if IsPunctuation(c) then
      (Lexeme(Punct, s.line[p..p + 1], ln, col), s.(pos := p + 1))
    else if IsLetter(c) then
      var e := RunEnd(s.line, p + 1, false);
      (Lexeme(Sym, s.line[p..e], ln, col), s.(pos := e))
    else if IsDigit(c) then
      var e := RunEnd(s.line, p + 1, true);
      (Lexeme(Num, s.line[p..e], ln, col), s.(pos := e))
    else
      (Lexeme(Unknown, s.line[p..p + 1], ln, col), s.(pos := p + 1))
  }

  /** Scanning one lexeme from state `s`: the body of Advance after it has
      moved `Next` into `This`. Returns the new `Next` and the new state. */
  function Lex(lines: seq<seq<Byte>>, s: ScanState): (r: (Lexeme, ScanState))
    requires WellFormedLines(lines) && ValidState(lines, s)
    ensures ValidState(lines, r.1)
    ensures |r.0.bytes| > 0
  {
    SkipBlanksValid(lines, s);
    Classify(lines, s.(pos := SkipBlanks(s.line, s.pos)))
  }

  /** The state NewLexer (and Reset) produce: the first line read, then one
      Advance. */
  function Start(lines: seq<seq<Byte>>): (r: (Lexeme, ScanState))
    requires WellFormedLines(lines)
    ensures ValidState(lines, r.1)
  {
    Lex(lines, NextLine(lines, ScanState(0, 0, [], 0)))
  }

  // ---------------------------------------------------------------------
  // Properties of Lex

  /** The new lexeme carries the current line number and the 1-based column
      of its first byte, found after skipping blanks. */
  lemma LexPosition(lines: seq<seq<Byte>>, s: ScanState)
    requires WellFormedLines(lines) && ValidState(lines, s)
    ensures Lex(lines, s).0.line == s.lineNum
    ensures Lex(lines, s).0.col == SkipBlanks(s.line, s.pos) + 1
  {
  }

  /** End of input: no line left, or a 0 or `$` byte. The lexeme is `[0]`
      and the position stays on that byte, so lexing again yields the same
      end-of-file lexeme from the same state. */
  lemma EndOfFileIsSticky(lines: seq<seq<Byte>>, s: ScanState)
    requires WellFormedLines(lines) && ValidState(lines, s)
    requires Lex(lines, s).0.kind == EndOfFile
    ensures var p := SkipBlanks(s.line, s.pos);
      p == -1 || s.line[p] == '\0' || s.line[p] == '$'
    ensures Lex(lines, s).0.bytes == ['\0']
    ensures Lex(lines, s).1 == s.(pos := SkipBlanks(s.line, s.pos))
    ensures Lex(lines, Lex(lines, s).1) == Lex(lines, s)
  {
    if s.pos >= 0 {
      TerminatorStops(s.line);
    }
  }

  /** The shape of every lexeme kind, as a slice of the current line. */
  lemma LexemeShapes(lines: seq<seq<Byte>>, s: ScanState)
    requires WellFormedLines(lines) && ValidState(lines, s)
    ensures var (lx, s') := Lex(lines, s); var p := SkipBlanks(s.line, s.pos);
      && (lx.kind == EndOfLine ==>
            p >= 0 && (s.line[p] == '\n' || s.line[p] == ';') && lx.bytes == ['\n']
            && (s'.pos == -1 || s'.line[s'.pos] != '\n'))
      && (lx.kind in {Comment, Punct, Sym, Num, Unknown} ==> p >= 0 && InLineShape(s.(pos := p), lx, s'))
  {
    SkipBlanksValid(lines, s);
    var s1 := s.(pos := SkipBlanks(s.line, s.pos));
    if s1.pos >= 0 && s1.line[s1.pos] !in {'\0', '$', '\n', ';'} {
      InLineShapes(lines, s1);
    }
  }

  /** The shape of a lexeme `lx` found at the position of `s`, which leaves
      the state `s'`. */
  predicate InLineShape(s: ScanState, lx: Lexeme, s': ScanState)
    requires 0 <= s.pos < |s.line|
  {
    var p := s.pos;
    && |lx.bytes| > 0
    && (lx.kind == Comment ==>
          lx.bytes == s.line[p..|s.line| - 1] && lx.bytes[0] == '/'
          && s'.line == s.line && s'.pos == |s.line| - 1)
    && (lx.kind == Punct ==>
          lx.bytes == s.line[p..p + 1] && IsPunctuation(lx.bytes[0]) && s'.pos == p + 1)
    && (lx.kind == Sym ==>
          p < s'.pos < |s.line| && lx.bytes == s.line[p..s'.pos] && IsLetter(lx.bytes[0])
          && (forall k :: 0 <= k < |lx.bytes| ==> IsAlphaNum(lx.bytes[k]))
          && !IsAlphaNum(s.line[s'.pos]))
    && (lx.kind == Num ==>
          p < s'.pos < |s.line| && lx.bytes == s.line[p..s'.pos] && '0' <= lx.bytes[0] <= '9'
          && (forall k :: 0 <= k < |lx.bytes| ==> IsDigit(lx.bytes[k]))
          && !IsDigit(s.line[s'.pos]))
    && (lx.kind == Unknown ==>
          lx.bytes == s.line[p..p + 1] && s'.pos == p + 1
          && !IsAlphaNum(lx.bytes[0]) && !IsPunctuation(lx.bytes[0])
          && lx.bytes[0] !in {'\0', '$', '\n', ';', '/', ' ', '\t'})
  }

  lemma InLineShapes(lines: seq<seq<Byte>>, s: ScanState)
    requires WellFormedLines(lines) && ValidState(lines, s) && s.pos >= 0
    requires s.line[s.pos] !in {'\0', '$', '\n', ';'} && !IsBlank(s.line[s.pos])
    ensures var (lx, s') := ClassifyInLine(lines, s);
      lx.kind in {Comment, Punct, Sym, Num, Unknown} && InLineShape(s, lx, s')
  {
    var c := s.line[s.pos];
    if c == '/' || IsPunctuation(c) {
      TerminatorStops(s.line);
    } else if IsLetter(c) || IsDigit(c) {
      RunShape(lines, s);
    }
  }

  /** A symbol or number lexeme ends before the line's terminator. */
  lemma RunShape(lines: seq<seq<Byte>>, s: ScanState)
    requires WellFormedLines(lines) && ValidState(lines, s) && s.pos >= 0
    requires s.line[s.pos] != '/' && !IsPunctuation(s.line[s.pos])
    requires IsLetter(s.line[s.pos]) || IsDigit(s.line[s.pos])
    ensures var (lx, s') := ClassifyInLine(lines, s);
      lx.kind in {Sym, Num} && InLineShape(s, lx, s')
  {
    var p, last := s.pos, |s.line| - 1;
    TerminatorStops(s.line);
    var digitsOnly := !IsLetter(s.line[p]);
    assert RunEnd(s.line, p + 1, digitsOnly) < |s.line| by {
      assert s.line[last] == '\n' || s.line[last] == '\0';
    }
  }

  /** The bytes left to scan: the rest of the current line and all lines
      the Scanner has not handed out yet. */
  function Remaining(lines: seq<seq<Byte>>, s: ScanState): nat
    requires s.lineIdx <= |lines|
  {
    |Flatten(lines[s.lineIdx..])| + (if 0 <= s.pos <= |s.line| then |s.line| - s.pos else 0)
  }

  lemma FlattenCons(lines: seq<seq<Byte>>, i: nat)
    requires i < |lines|
    ensures |Flatten(lines[i..])| == |lines[i]| + |Flatten(lines[i + 1..])|
  {
    assert lines[i..][1..] == lines[i + 1..];
  }

  lemma {:induction false} SkipBlankLinesConsumes(lines: seq<seq<Byte>>, s: ScanState)
    requires WellFormedLines(lines) && ValidState(lines, s) && s.pos >= 0
    ensures Remaining(lines, SkipBlankLines(lines, s)) <= Remaining(lines, s)
    ensures s.line[s.pos] == '\n' ==> Remaining(lines, SkipBlankLines(lines, s)) < Remaining(lines, s)
    decreases |lines| - s.lineIdx
  {
    if s.line[s.pos] == '\n' {
      var s1 := NextLine(lines, s);
      if s1.pos != -1 {
        FlattenCons(lines, s.lineIdx);
        TerminatorStops(s1.line);
        SkipBlankLinesConsumes(lines, s1.(pos := SkipBlanks(s1.line, s1.pos)));
      }
    }
  }

  /** Every lexeme other than end-of-file consumes input, so repeated
      Advance reaches the end of the file. */
  lemma LexConsumes(lines: seq<seq<Byte>>, s: ScanState)
    requires WellFormedLines(lines) && ValidState(lines, s)
    ensures Remaining(lines, Lex(lines, s).1) <= Remaining(lines, s)
    ensures Lex(lines, s).0.kind != EndOfFile ==> Remaining(lines, Lex(lines, s).1) < Remaining(lines, s)
  {
    if s.pos >= 0 {
      TerminatorStops(s.line);
      var p := SkipBlanks(s.line, s.pos);
      var c := s.line[p];
      if c == '\n' || c == ';' {
        var s2 := s.(pos := if c == ';' then p + 1 else p);
        SkipBlankLinesConsumes(lines, s2);
      }
    }
  }

  // ---------------------------------------------------------------------
  // The lexeme stream

  /** The lexemes successive Advance calls scan from state `s`, up to and
      including the first end-of-file lexeme. */
  function LexemesFrom(lines: seq<seq<Byte>>, s: ScanState): (r: seq<Lexeme>)
    requires WellFormedLines(lines) && ValidState(lines, s)
    ensures |r| > 0 && r[0] == Lex(lines, s).0
    ensures r[|r| - 1].kind == EndOfFile
    ensures forall i :: 0 <= i < |r| - 1 ==> r[i].kind != EndOfFile
    ensures forall i :: 0 <= i < |r| ==> |r[i].bytes| > 0
    decreases Remaining(lines, s)
  {
    var (lx, s') := Lex(lines, s);
    LexConsumes(lines, s);
    if lx.kind == EndOfFile then [lx] else [lx] + LexemesFrom(lines, s')
  }

  /** The whole lexeme stream of a file: what `Next` holds after NewLexer,
      then after each Advance. */
  function Lexemes(lines: seq<seq<Byte>>): (r: seq<Lexeme>)
    requires WellFormedLines(lines)
    ensures |r| > 0 && r[|r| - 1].kind == EndOfFile
    ensures forall i :: 0 <= i < |r| ==> |r[i].bytes| > 0
  {
    LexemesFrom(lines, NextLine(lines, ScanState(0, 0, [], 0)))
  }

  /** The lexeme and state after `k` scans from `s`. */
  function Steps(lines: seq<seq<Byte>>, s: ScanState, k: nat): (r: (Lexeme, ScanState))
    requires WellFormedLines(lines) && ValidState(lines, s) && k >= 1
    ensures ValidState(lines, r.1)
    decreases k
  {
    if k == 1 then Lex(lines, s) else Steps(lines, Lex(lines, s).1, k - 1)
  }

  /** The k-th scan yields the k-th lexeme of the stream, and the last one,
      end of file, forever after: the parser may read the lexer as this
      sequence with a clamped index. */
  lemma {:induction false} StepsFollowStream(lines: seq<seq<Byte>>, s: ScanState, k: nat)
    requires WellFormedLines(lines) && ValidState(lines, s) && k >= 1
    ensures var ls := LexemesFrom(lines, s);
      Steps(lines, s, k).0 == ls[if k - 1 < |ls| then k - 1 else |ls| - 1]
    decreases k
  {
    var (lx, s') := Lex(lines, s);
    if k > 1 {
      StepsFollowStream(lines, s', k - 1);
      if lx.kind == EndOfFile {
        EndOfFileIsSticky(lines, s);
        assert s' == s.(pos := SkipBlanks(s.line, s.pos));
        EndOfFileStays(lines, s, k);
      }
    }
  }

  /** Once a scan from `s` gives end of file, every further scan gives it
      again. */
  lemma {:induction false} EndOfFileStays(lines: seq<seq<Byte>>, s: ScanState, k: nat)
    requires WellFormedLines(lines) && ValidState(lines, s) && k >= 1
    requires Lex(lines, s).0.kind == EndOfFile
    ensures Steps(lines, s, k) == Lex(lines, s)
    decreases k
  {
    if k > 1 {
      EndOfFileIsSticky(lines, s);
      var s' := Lex(lines, s).1;
      EndOfFileStays(lines, s', k - 1);
    }
  }

  // ---------------------------------------------------------------------
  // The Lexer object

  class Lexer {
    /** The file, as the Scanner splits it. */
    const lines: seq<seq<Byte>>
    /** Lines handed out by the Scanner so far. */
    var lineIdx: nat
    var lineNum: int
    var line: seq<Byte>
    var pos: int
    var This: Lexeme
    var Next: Lexeme

    function State(): ScanState
      reads this
    {
      ScanState(lineIdx, lineNum, line, pos)
    }

    ghost predicate Valid()
      reads this
    {
      WellFormedLines(lines) && ValidState(lines, State())
    }

    /** NewLexer: read the first line and scan the first lexeme into Next. */
    constructor (data: seq<Byte>)
      ensures lines == ScanLines(data) && Valid()
      ensures This == ZeroLexeme && (Next, State()) == Start(lines)
    {
      lines := ScanLines(data);
      lineIdx, lineNum, line, pos := 0, 0, [], 0;
      This, Next := ZeroLexeme, ZeroLexeme;
      new;
      ScanLinesShape(data);
      ReadLine();
      Advance();
    }

    /** Rewind to the start of the file: the same line number, position,
        line and Next as NewLexer gives; This keeps the old Next. */
    method Reset()
      requires Valid()
      modifies this
      ensures Valid()
      ensures This == old(Next) && (Next, State()) == Start(lines)
    {
      lineNum := 0;
      pos := 0;
      lineIdx := 0;
      ReadLine();
      Advance();
    }

    method ReadLine()
      requires WellFormedLines(lines) && lineIdx <= |lines|
      modifies this
      ensures Valid()
      ensures State() == NextLine(lines, old(State()))
      ensures This == old(This) && Next == old(Next)
    {
      if lineIdx < |lines| {
        line := lines[lineIdx];
        lineIdx := lineIdx + 1;
        pos := 0;
      } else {
        line := [];
        pos := -1;
      }
      lineNum := lineNum + 1;
    }

    method SkipWhitespace()
      requires -1 <= pos <= |line|
      modifies this
      ensures State() == old(State()).(pos := SkipBlanks(old(line), old(pos)))
      ensures This == old(This) && Next == old(Next)
    {
      var leng := |line|;
      if pos == leng || pos == -1 {
        return;
      }
      var c := line[pos];
      while IsBlank(c)
        invariant State() == old(State()).(pos := pos)
        invariant This == old(This) && Next == old(Next)
        invariant leng == |line| && 0 <= pos < leng && c == line[pos]
        invariant SkipBlanks(line, pos) == SkipBlanks(line, old(pos))
        decreases leng - pos
      {
        pos := pos + 1;
        if pos == leng {
          break;
        } else {
          c := line[pos];
        }
      }
    }

    /** The end-of-line branch of Advance: step over a `;`, then skip lines
        that are empty or hold only blanks. */
    method ScanEndOfLine()
      requires Valid() && pos >= 0 && line[pos] in {'\n', ';'}
      requires Next == Lexeme(Unknown, [], lineNum, pos + 1)
      modifies this
      ensures Valid() && This == old(This)
      ensures (Next, State()) == ClassifyEndOfLine(lines, old(State()))
    {
      Next := Next.(kind := EndOfLine, bytes := ['\n']);
      TerminatorStops(line);
      if line[pos] == ';' {
        pos := pos + 1;
      }
      SkipEmptyLines();
    }

    /** While the scan position is on a newline, read the next line and
        skip its leading blanks. */
    method SkipEmptyLines()
      requires Valid() && pos >= 0
      modifies this
      ensures Valid() && State() == SkipBlankLines(lines, old(State()))
      ensures This == old(This) && Next == old(Next)
    {
      while line[pos] == '\n'
        invariant Valid() && pos >= 0
        invariant This == old(This) && Next == old(Next)
        invariant SkipBlankLines(lines, State()) == SkipBlankLines(lines, old(State()))
        decreases |lines| - lineIdx
      {
        ReadLine();
        if pos == -1 {
          return;
        }
        TerminatorStops(line);
        SkipWhitespace();
      }
    }

    /** The symbol and number loops of Advance: move past the run that
        starts at the current byte. */
    method ScanRun(digitsOnly: bool)
      requires Valid() && 0 <= pos && pos + 1 < |line|
      modifies this
      ensures State() == old(State()).(pos := RunEnd(old(line), old(pos) + 1, digitsOnly))
      ensures This == old(This) && Next == old(Next)
    {
      var p := pos + 1;
      var c := line[p];
      while if digitsOnly then IsDigit(c) else IsAlphaNum(c)
        invariant old(pos) < p < |line| && c == line[p]
        invariant RunEnd(line, p, digitsOnly) == RunEnd(line, old(pos) + 1, digitsOnly)
        decreases |line| - p
      {
        p := p + 1;
        if p == |line| {
          break;
        }
        c := line[p];
      }
      pos := p;
    }

    /** Move Next into This and scan a new Next. */
    method Advance()
      requires Valid()
      modifies this
      ensures Valid()
      ensures This == old(Next)
      ensures (Next, State()) == Lex(lines, old(State()))
    {
      ghost var s0 := State();
      SkipBlanksValid(lines, s0);
      This := Next;
      Next := Lexeme(Unknown, [], lineNum, 0);
      SkipWhitespace();
      ghost var s1 := State();
      StateStops(lines, s1);
      Next := Next.(col := pos + 1);
      if pos == -1 || line[pos] == '\0' || line[pos] == '$' {
        Next := Next.(kind := EndOfFile, bytes := ['\0']);
        assert Lex(lines, s0) == Classify(lines, s1) == (Next, s1);
        return;
      }
      if line[pos] == '\n' || line[pos] == ';' {
        assert Lex(lines, s0) == Classify(lines, s1) == ClassifyEndOfLine(lines, s1);
        ScanEndOfLine();
        return;
      }
      assert Lex(lines, s0) == Classify(lines, s1) == ClassifyInLine(lines, s1);
      ScanInLine();
    }

    /** The branches of Advance for a lexeme inside the line. */
    method ScanInLine()
      requires Valid() && pos >= 0 && line[pos] !in {'\0', '$', '\n', ';'}
      requires Next == Lexeme(Unknown, [], lineNum, pos + 1)
      modifies this
      ensures Valid() && This == old(This)
      ensures (Next, State()) == ClassifyInLine(lines, old(State()))
    {
      StateStops(lines, State());
      if line[pos] == '/' {
        Next := Next.(kind := Comment, bytes := line[pos..|line| - 1]);
        pos := |line| - 1;
        return;
      }
      if IsPunctuation(line[pos]) {
        Next := Next.(kind := Punct, bytes := line[pos..pos + 1]);
        pos := pos + 1;
        return;
      }
      if IsLetter(line[pos]) {
        var start := pos;
        ScanRun(false);
        Next := Next.(kind := Sym, bytes := line[start..pos]);
      } else if IsDigit(line[pos]) {
        var start := pos;
        ScanRun(true);
        Next := Next.(kind := Num, bytes := line[start..pos]);
      } else {
        Next := Next.(bytes := line[pos..pos + 1]);
        pos := pos + 1;
      }
    }
  }
}
