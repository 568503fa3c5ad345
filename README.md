# mkasm core: a PAL assembler for the PDP-8, in Dafny

This project models the core of `mkasm`, a two-level assembler for
programs in PDP-8 assembly language. The model covers five parts.

- **The lexer** (`lexer.dfy`, module `Lexer`).
  - The `scanLines` split function cuts the file into lines. A line keeps
    its newline, and a final unterminated line gets a 0 byte.
  - A `Lexer` object keeps a two-lexeme window (`This`, `Next`).
  - `Advance` classifies the next lexeme by fixed byte rules: symbol,
    number, punctuation, comment, end of line, end of file or unknown.
- **The symbol table** (`symbols.dfy`, module `Symbols`).
  - Names are bound to a kind (pseudo-op, MRI, SI, label) and a value.
  - The default dictionary holds the PDP-8 mnemonics.
- **The parser** (`parser.dfy`, module `Assembler`).
  - `parseNumber` reads numerals: octal by default, or with a `0d`, `0x`,
    `0o` or `0b` base.
  - `parseExpression` evaluates five small grammars: `A`, `±A`, `A±B`,
    `. ±B` and the symbol pair `A B`.
  - Each statement is dispatched by kind: origin `*`, definition `=`, label
    `,`, memory reference instruction with `I`/`Z` flags, or a data word.
  - The multi-pass driver repeats passes until nothing is unresolved, up to
    ten passes.
- **The exporters** (`exporter.dfy`, module `Exporter`). They write the
  memory image in three formats:
  - a P-object text: octal words, with origin words marked by `0o170000`;
  - a RIM paper tape: leader bytes, then 4 bytes per word;
  - a URL `?core=` list.

  They also produce the used/free size report.
- **The diagnostics accumulator** (`errors.dfy`, module `Diagnostics`).
  - Two lists are appended to in lockstep: the lexemes and their messages.
  - `formatErrorMsg` puts the banner on an error message.

Two support modules hold arithmetic the core needs:

- `bits.dfy` (`Bits`) models Go's `|` and `&` on two's-complement
  integers.
- `numerals.dfy` (`Numerals`) models `strconv.ParseInt(s, base, 16)` and
  the `%o` verb of `fmt`.

`wrappers.dfy` holds `Option`.

## How the model is built

Each imperative part of the source is modelled the same way.

- A Dafny class or method does the work. Examples are `Lexer.Lexer.Advance`,
  `Assembler.Parser.ParseStatement`, `Exporter.ExportRim` and
  `Diagnostics.ErrorList.UndefinedSymbols`.
- Each such method is proved to compute a function on values: `Lex`,
  `Statement`, `RimTape`, and so on.
- The properties are lemmas about those functions. Examples are
  round trips, frame conditions and the behaviour of the pass loop.

How values and failures are represented:

- Memory is `map<int, int>`. Go's `m[addr]` on an unused address reads 0
  (`Exporter.Word`).
- A Go `panic` is a `Halted`/`Panicked` outcome.
- A loop in the source that never terminates is a `Hung`/`Diverged`
  outcome. This is the skip-to-end-of-line loop when the file ends first.

Where the code differs from what its comments describe, the model follows
the code. These places are stated
in the contracts:

- No page check is made, and the current-page bit 0o200 is never set
  (`Assembler.MriAddressSpills`).
- The `Z` mask 0o7577 also drops every bit above bit 11
  (`Assembler.ZeroPageTruncates`).
- The `I` and `Z` flags are recognised by the first byte of any symbol
  (`Assembler.MriFlags`, `Assembler.FlagByFirstByte`).
- A later pass restarts the location counter at 0, not at 0o200
  (`Assembler.Restart`).
- In `A ± B` with an unknown `B`, the name reported is `A`'s
  (`Assembler.BinaryReportsFirstOperand`).
- An unknown byte is an `UNKNOWN` lexeme, not a fatal error.
- The base is chosen by the second byte alone, so `5d12` reads as decimal
  12.

## Model

| member | source | states |
|---|---|---|
| Lexer.DigitLetterOverlap | lexer.go:234-253 | the digit class and the letter class share exactly `x`, `b`, `o`, `d`; the alphanumeric class is the ASCII letters and digits |
| Lexer.IndexByte | lexer.go:195 | the result is the first position holding the byte, and None exactly when the byte is absent |
| Lexer.ScanLines | lexer.go:189-205 | every line yielded consumes at least one byte, and the input yields no line exactly when it is empty |
| Lexer.SplitLine | lexer.go:191-205 | a yielded token consumes at least one byte and no more than the data |
| Lexer.ScanLinesShape | lexer.go:189-205 | every line ends in a newline or the appended 0; a newline occurs only at the end of a line; every line but the last ends in a newline |
| Lexer.ScanLinesFlatten | lexer.go:189-205 | the lines joined give back the file, plus a 0 byte when it does not end in a newline |
| Lexer.NextLine | lexer.go:207-217 | readLine leaves a valid state (the next line at position 0, or -1 when no line is left) and advances the line number by one |
| Lexer.SkipBlanks | lexer.go:219-232 | the position is the first byte at or after the start that is not a space or tab, never past the line end; -1 stays -1 |
| Lexer.RunEnd | lexer.go:150-181 | a symbol or number run covers only bytes of its class and stops at the first byte outside it |
| Lexer.SkipBlankLines | lexer.go:123-130 | after an end of line the scan rests on a byte that is not a newline, or at the end of input, and never moves back in the file |
| Lexer.SkipBlanksValid | lexer.go:101-102 | skipping blanks in a valid state keeps the position on a byte of the line |
| Lexer.Classify | lexer.go:104-186 | the lexeme is non-empty and carries the line number and the 1-based column of its first byte |
| Lexer.ClassifyEndOfLine | lexer.go:114-131 | an end of line gives a non-empty lexeme at the current line and column, and leaves a valid state |
| Lexer.ClassifyInLine | lexer.go:134-186 | a comment, punctuation, symbol, number or unknown byte gives a non-empty lexeme at the current column and strictly moves the position forward within the same line |
| Lexer.Lex | lexer.go:92-187 | scanning one lexeme yields a non-empty lexeme and a valid state |
| Lexer.Start | lexer.go:52-70 | NewLexer's first line and first scan leave a valid state |
| Lexer.LexPosition | lexer.go:96-105 | the new lexeme carries the current line number and the column after skipped blanks |
| Lexer.EndOfFileIsSticky | lexer.go:107-112 | end of file is no line left or a 0 or `$` byte; its lexeme is `[0]`; scanning again from the new state yields it again |
| Lexer.LexemeShapes | lexer.go:114-186 | each lexeme kind is its slice of the line: end of line is `\n` or `;` with blank lines skipped; a comment runs from `/` to the line end; punctuation is one of `=*,.-+`; a symbol is letter-initial and alphanumeric; a number is digit-initial; an unknown lexeme is one byte of no other class |
| Lexer.InLineShapes | lexer.go:134-186 | a byte that is not blank, end of file or end of line starts a comment, punctuation, symbol, number or unknown lexeme of exactly its shape |
| Lexer.RunShape | lexer.go:150-181 | a letter starts a symbol and a digit a number; the run is letter-first alphanumeric (or all digits), ends before the line's last byte and stops at the first byte outside its class |
| Lexer.SkipBlankLinesConsumes | lexer.go:123-130 | skipping blank lines never adds input, and strictly consumes it when it starts on a newline |
| Lexer.LexConsumes | lexer.go:92-187 | every lexeme other than end of file consumes input |
| Lexer.LexemesFrom | lexer.go:90-187 | successive scans yield a stream that starts with the next lexeme, ends in exactly one end-of-file lexeme and holds no empty lexeme |
| Lexer.Lexemes | lexer.go:52-70 | the stream of a whole file ends in end of file and holds no empty lexeme |
| Lexer.Steps | lexer.go:90-93 | k scans leave a valid state |
| Lexer.StepsFollowStream | lexer.go:90-112 | the k-th scan yields the k-th lexeme of the stream, and the end-of-file lexeme ever after |
| Lexer.EndOfFileStays | lexer.go:107-112 | once a scan yields end of file, every further scan yields it from the same state |
| Lexer.Lexer.constructor | lexer.go:52-70 | NewLexer splits the file into lines, reads the first line and scans the first lexeme into Next |
| Lexer.Lexer.Reset | lexer.go:72-88 | Reset restores NewLexer's line, position and Next; This takes the old Next |
| Lexer.Lexer.ReadLine | lexer.go:207-217 | the state becomes NextLine of the old state; the lexeme window is unchanged |
| Lexer.Lexer.SkipWhitespace | lexer.go:219-232 | only the position moves, to SkipBlanks of the old one |
| Lexer.Lexer.SkipEmptyLines | lexer.go:123-130 | the loop over empty lines leaves the state `SkipBlankLines` of the old one and the lexeme window unchanged |
| Lexer.Lexer.ScanEndOfLine | lexer.go:114-131 | the end-of-line lexeme and the new state are `ClassifyEndOfLine` of the old state |
| Lexer.Lexer.ScanRun | lexer.go:150-181 | only the position moves, to the end of the symbol or number run |
| Lexer.Lexer.ScanInLine | lexer.go:134-186 | the in-line lexeme and the new state are `ClassifyInLine` of the old state; This is unchanged |
| Lexer.Lexer.Advance | lexer.go:92-187 | This becomes the old Next, and (Next, state) is Lex of the old state |
| Symbols.SymbolTable.constructor | symbols.go:17 | the table holds the given bindings |
| Symbols.SymbolTable.Get | symbols.go:19-26 | a binding is returned exactly when the name is bound, and it is the table's binding |
| Symbols.SymbolTable.Set | symbols.go:28-35 | the name is bound as SI with the value; every other name keeps its binding; MRI opcodes stay well formed |
| Symbols.SymbolTable.Label | symbols.go:37-44 | the name is bound as LABEL with the value; every other name keeps its binding; MRI opcodes stay well formed |
| Symbols.EntriesMap | symbols.go:46-115 | the dictionary's names are exactly the names listed |
| Symbols.EntriesMapFrom | symbols.go:46-115 | every binding of the dictionary is one of the listed entries |
| Symbols.EntriesMapLookup | symbols.go:46-115 | a listed entry whose name is not listed again is the name's binding |
| Symbols.PseudoFacts | symbols.go:47-50 | EXPUNGE, FIXTAB and FIXMRI are pseudo-ops with value -1 |
| Symbols.MriFacts | symbols.go:52-58 | AND to JMP are MRIs with opcodes 0, 0o1000, ..., 0o5000 |
| Symbols.Group1Facts | symbols.go:60-74 | the group 1 operate instructions are SI symbols in 0o7000..0o7240, none an MRI name |
| Symbols.Group2Facts | symbols.go:76-87 | the group 2 operate instructions are SI symbols in 0o7402..0o7604, none an MRI name |
| Symbols.IotFacts | symbols.go:89-114 | the IOT instructions are SI symbols in 0o6001..0o6046, none an MRI name |
| Symbols.EntryFacts | symbols.go:46-115 | what each listed entry binds, by its position in the list |
| Symbols.DefaultMris | symbols.go:52-58 | exactly six default symbols are MRIs, AND to JMP, with opcodes 0o1000 apart |
| Symbols.DefaultValueRanges | symbols.go:46-115 | default SI values lie in 0o6001..0o7604, pseudo-ops are -1, and no default is a label |
| Symbols.DefaultWellFormed | symbols.go:46-115 | every default MRI carries one of the six opcodes |
| Numerals.Digits16 | parser.go:199-207 | a value is returned only for a string of digits of the base, and it is the string's value in 0..32767 |
| Numerals.ParseInt16 | parser.go:199-207 | an empty string is rejected, and a result lies in 0..32767 |
| Numerals.ParseInt16Auto | parser.go:200-203 | with base 0, an empty string is rejected, and a result lies in 0..32767 |
| Numerals.OctalDigits | exporter.go:26-29 | `%o` of a non-negative value is octal digits with no leading zero |
| Numerals.DecimalDigits | parser.go:196-199 | decimal digits of a non-negative value |
| Numerals.FormatOctal | exporter.go:91-98 | `%o` writes a minus sign for a negative value, then the octal digits of its magnitude |
| Numerals.OctalDigitsValue | exporter.go:26-29 | the octal digits written read back as the value |
| Numerals.DecimalDigitsValue | parser.go:196-199 | the decimal digits written read back as the value |
| Numerals.OctalRoundTrip | parser.go:205-208 | `ParseInt(s, 8, 16)` of a value's octal digits gives the value when it fits in 16 signed bits, an error otherwise |
| Numerals.AppendZero | parser.go:205-208 | a trailing 0 digit multiplies a numeral's value by its base |
| Bits.AndLowMask | exporter.go:66-68 | `x & (2^n - 1)` is `x mod 2^n` |
| Bits.AndShifted | exporter.go:66 | `x & (m * 2^k)` is `2^k * ((x >> k) & m)` |
| Bits.OrDisjoint | parser.go:140-148 | or of a value below 2^n with a multiple of 2^n is their sum |
| Bits.OrCommutes | parser.go:148 | or is commutative |
| Bits.AndBounded | parser.go:143-145 | and with a non-negative mask lies between 0 and the mask |
| Bits.AndClearBit | parser.go:143-145 | and with n low ones except bit k keeps the low n bits and clears bit k |
| Bits.AndBelow | parser.go:143-145 | and with any mask never exceeds a non-negative operand |
| Bits.OrBounded | parser.go:140-148 | or of two non-negative values is at least each and at most their sum |
| Assembler.LexerStreamValid | lexer.go:107-112 | the lexer's stream is one the parser can read: it ends in end of file and holds no empty lexeme |
| Assembler.Advanced | lexer.go:92-93 | Advance moves the cursor one lexeme on, except on the final end of file; This is then the old Next |
| Assembler.ParseNumber | parser.go:189-216 | a numeral's value, when there is one, lies in 0..32767 |
| Assembler.ParseNumberOctal | parser.go:205-208 | a plain octal numeral reads as its value, or fails above 32767 |
| Assembler.ParseNumberDecimal | parser.go:196-199 | a `0d` numeral reads as its decimal value, or fails above 32767 |
| Assembler.ParseNumberPrefixed | parser.go:200-203 | a `0x`, `0o` or `0b` numeral (either case) reads as the digits after the prefix in base 16, 8 or 2 when they fit in 16 signed bits, otherwise it is the number error |
| Assembler.ParseNumberExamples | parser.go:193-212 | `5d12` is 12, `0x19` is 25, `0b101` is 5; `8` and `100000` are number errors |
| Assembler.DecimalAfterAnyDigit | parser.go:193-199 | the base is chosen by the second byte alone: `5d12` reads as decimal 12 |
| Assembler.HexPrefix | parser.go:200-203 | `0x19` reads as hexadecimal 25 |
| Assembler.BinaryPrefix | parser.go:200-203 | `0b101` reads as binary 5 |
| Assembler.OctalPowers | parser.go:205-208 | the octal numeral `100000` has value 32768 |
| Assembler.OctalOverflow | parser.go:205-212 | `100000` overflows 16 signed bits and is a number error |
| Assembler.OperandOf | parser.go:233-245 | a letter-initial operand is its symbol's value, or missing when the table lacks it; a digit-initial one is its parseNumber value, or the number-error panic; any other operand is the "unknown expression operand" panic |
| Assembler.SkipToEol | parser.go:301-305 | the skip ends on the first end of line at or after the cursor, or reports that none exists (the Go loop never ends) |
| Assembler.EvalDotSign | parser.go:225-258 | `. + B` is lc + B and `. - B` is lc - B, with the cursor on B; an unknown B gives -1 and B's name; any other sign, or a bad operand, panics |
| Assembler.EvalSigned | parser.go:262-292 | `+ A` is A and `- A` is -A, with no folding to 12 bits; an unknown A gives -1 and A's name; any other sign, or a bad operand, panics |
| Assembler.EvalBinary | parser.go:293-345 | `A + B` is A + B and `A - B` is A - B, with the cursor on B, whenever both operands resolve and the sign is `+` or `-`; an unknown operand gives -1 with A's name on an end of line |
| Assembler.EvalPair | parser.go:347-356 | `A B` is the bitwise or of the two symbols' values when both are defined, and -1 with "error" otherwise; the cursor ends on B |
| Assembler.EvalSingle | parser.go:357-369 | a lone operand is its value; an unknown symbol gives -1 and its name; a bad operand panics; the cursor stays |
| Assembler.EvalExpression | parser.go:218-376 | parseExpression leaves the cursor within the stream, not before its start; the value of each form is stated by the lemmas below |
| Assembler.DotValue | parser.go:259-261 | `.` before a comment or end of line is the location counter |
| Assembler.DotSignValue | parser.go:225-258 | `. ± B` with B resolved is lc ± B, and the cursor rests on B |
| Assembler.SignedValue | parser.go:262-292 | `± A` with A resolved is ±A, and the cursor rests on A |
| Assembler.BinaryValue | parser.go:293-345 | `A ± B` with both resolved is A ± B, and the cursor rests on B |
| Assembler.PairValue | parser.go:347-356 | `A B` is the bitwise or of two defined symbols, else -1 with "error"; the cursor rests on B |
| Assembler.SingleValue | parser.go:357-369 | a resolved lone operand before a comment or end of line is its value |
| Assembler.ExpressionErrors | parser.go:218-376 | `.` before anything else gives -1 with "error"; an operand followed by a number, an unknown byte or end of file is the syntax panic; a bad lone or leading operand panics |
| Assembler.UnresolvedNames | parser.go:218-376 | an unresolved expression reports -1 with `error` or the bytes of a lexeme it read |
| Assembler.BinaryReportsFirstOperand | parser.go:296-328 | in `A ± B` with an unknown operand, the cursor ends on an end of line and the name is A's, whichever operand is unknown |
| Assembler.OperandMonotone | parser.go:268-279 | a value or a panic for an operand survives any extension of the table |
| Assembler.EvalMonotone | parser.go:218-376 | an expression that resolves gives the same result under any table that extends this one |
| Assembler.IndirectLayout | parser.go:140-142 | the `I` bit 0o400 adds to an address below 0o400 |
| Assembler.ZeroPageLayout | parser.go:143-145 | the `Z` mask keeps bit 8 and the low seven bits of a word below 0o1000 |
| Assembler.ZeroPageMaskClears | parser.go:143-145 | for a non-negative word the `Z` mask keeps the low twelve bits and clears bit 7 |
| Assembler.OrOpcode | parser.go:148 | or-ing an MRI opcode onto a word below 0o1000 adds it |
| Assembler.MriLayout | parser.go:140-149 | for an address below 0o400 the word is opcode + indirect bit + address, with bit 7 cleared by `Z` |
| Assembler.EncodeMri | parser.go:140-148 | for a non-negative address and opcode the word lies between the opcode and address + 0o400 + opcode, and below 0o7577 + opcode under `Z` |
| Assembler.ZeroPageTruncates | parser.go:143-145 | `Z` also drops every bit above bit 11 |
| Assembler.MriAddressSpills | parser.go:140-149 | with no page check, `TAD` of address 0o2000 assembles to the word of `DCA 0` |
| Assembler.MriFlags | parser.go:119-133 | the I flag is any symbol whose first byte is `I` after the mnemonic, the Z flag any symbol starting with `Z` after that, and each flag found moves the cursor one lexeme on |
| Assembler.FlagByFirstByte | parser.go:123-127 | in `TAD INDEX` the operand INDEX is taken for the I flag |
| Assembler.WordStatement | parser.go:82-89 | a word statement that runs leaves the cursor within the stream, not before its start |
| Assembler.StoreWord | parser.go:82-89 | a resolved word is stored at `lc`, an unresolved one asks for another pass instead; `lc` moves on by one; the cursor and symbols are kept |
| Assembler.MriStatement | parser.go:116-161 | a resolved address stores `EncodeMri` of it, the flags and the opcode at `lc`; an unresolved one stores nothing and asks for another pass; `lc` moves on by one; a panic or hang stops the statement |
| Assembler.MriFinish | parser.go:136-151 | the statement runs exactly when the address expression finished, and then stores the encoded word |
| Assembler.OriginStatement | parser.go:68-74 | a resolved value becomes `lc` and nothing else changes; an unresolved operand is the "Unknown symbol" panic |
| Assembler.Definition | parser.go:378-389 | a resolved value binds the symbol as SI; an unresolved one asks for another pass; memory and `lc` are kept |
| Assembler.LabelStatement | parser.go:391-395 | the symbol is bound as LABEL to `lc`; memory, `lc` and the flag are kept |
| Assembler.PunctStatement | parser.go:65-90 | punctuation other than `*`, `.`, `-`, `+` is skipped with nothing changed; the cursor stays in the stream |
| Assembler.SymbolStatement | parser.go:92-162 | a symbol followed by punctuation other than `.`, `=`, `,`, `-`, `+` is skipped with nothing changed; the cursor stays in the stream |
| Assembler.StoreWordFrame | parser.go:82-89 | storing a word keeps every address in use and the symbols, and moves `lc` on by one |
| Assembler.WordStatementFrame | parser.go:82-89 | a data word keeps every address in use and the symbols, and moves `lc` by at most one |
| Assembler.MriStatementFrame | parser.go:116-161 | an MRI statement keeps every address in use and the symbols, and moves `lc` by at most one |
| Assembler.DefinitionFrame | parser.go:378-389 | a definition keeps memory and `lc`, never withdraws a request for another pass, and keeps MRI opcodes well formed |
| Assembler.SymbolStatementFrame | parser.go:92-162 | a statement led by a symbol keeps every address in use, moves `lc` by at most one and keeps MRI opcodes well formed |
| Assembler.PunctStatementFrame | parser.go:65-90 | a statement led by punctuation keeps every address in use and the symbols; apart from an origin it moves `lc` by at most one |
| Assembler.Statement | parser.go:59-171 | every turn advances and one that runs on moves the cursor strictly forward; the pass ends exactly at end of file; a comment, end of line or unknown lexeme changes nothing else |
| Assembler.NumberStatement | parser.go:164-167 | a number runs exactly when parseNumber accepts it, and then stores it as a resolved word; otherwise it is the number-error panic and nothing changes |
| Assembler.StatementFrame | parser.go:63-171 | a statement writes at most the word at `lc` and keeps every other word; apart from an origin it moves `lc` by at most one; a request for another pass is never withdrawn |
| Assembler.StatementKeepsMris | parser.go:93-99 | statements bind only SI and LABEL symbols, so MRI opcodes stay well formed |
| Assembler.WordStatementEffect | parser.go:82-89 | a resolved word is stored at `lc`; an unresolved one leaves memory alone and requests another pass; `lc` moves on by one either way |
| Assembler.OriginEffect | parser.go:68-74 | `* expr` sets `lc` to a resolved value and changes nothing else; an unresolved operand is the "Unknown symbol" panic |
| Assembler.DefinitionEffect | parser.go:95-96 | `S = expr` binds S as SI to a resolved value, or asks for another pass; memory and `lc` are kept |
| Assembler.LabelEffect | parser.go:97-98 | `S ,` binds S as LABEL to `lc`; nothing else changes |
| Assembler.MriEffect | parser.go:113-161 | an MRI stores `EncodeMri` of the address, flags and opcode at `lc`, or asks for another pass without storing; `lc` moves on by one |
| Assembler.NumberEffect | parser.go:164-167 | a number is stored at `lc` and `lc` moves on; an out-of-range number is the number-error panic |
| Assembler.RunPass | parser.go:58-172 | a pass ends at end of file, on a panic or on a hang, with the cursor in the stream |
| Assembler.RunPassFrame | parser.go:58-172 | over a pass memory keeps every address it had, MRI opcodes stay well formed, and a request for another pass is kept |
| Assembler.Restart | parser.go:177-182 | a new pass rewinds the lexer, starts `lc` at 0, clears the flag, and keeps memory and symbols |
| Assembler.Passes | parser.go:174-186 | the pass count stays between the current pass and ten |
| Assembler.PassesAfter | parser.go:174-186 | after a pass the pass count stays between the current pass and ten |
| Assembler.PassesAfterBound | parser.go:174-186 | from a finished pass the driver ends stopped, within ten passes, resolved if it ended before the limit, keeping addresses and MRI opcodes |
| Assembler.PassesBound | parser.go:174-186 | the driver makes at most ten passes; a run that reaches end of file before the limit has resolved everything; memory addresses and MRI opcodes are kept |
| Assembler.Assemble | parser.go:44-187 | parsing from a new parser makes between one and ten passes |
| Assembler.OnePassSuffices | parser.go:174-186 | when the first pass resolves everything, that pass is the result and parsing has not failed |
| Assembler.SecondPassStart | parser.go:174-182 | a second pass runs exactly on an unresolved first pass that reached end of file, and starts from the restarted state |
| Assembler.Parser.constructor | parser.go:33-42 | NewParser: `lc` at 0o200, empty memory, at most ten passes, no pass made |
| Assembler.Parser.Advance | lexer.go:92-93 | the cursor moves as `Advanced` says; nothing else changes |
| Assembler.Parser.Operand | parser.go:233-245 | the operand block gives `OperandOf` of This: a symbol's value, a number, missing, or a panic |
| Assembler.Parser.SkipToEndOfLine | parser.go:301-305 | the loop succeeds exactly when an end of line follows, and then rests on it |
| Assembler.Parser.ParseExpression | parser.go:218-376 | the result is `EvalExpression` from the old cursor, whose values the value lemmas state; on success the cursor is where it says |
| Assembler.Parser.ParseBinary | parser.go:293-345 | the result is `EvalBinary` from the old cursor: A ± B, or -1 with A's name on an end of line |
| Assembler.Parser.ParseWord | parser.go:82-89 | status and new state are `WordStatement` of the old state |
| Assembler.Parser.ParseSymbolDefinition | parser.go:378-389 | status and new state are `Definition` of the old state: the SI binding, or a request for another pass |
| Assembler.Parser.ParseLabel | parser.go:391-395 | the new state is `LabelStatement` of the old state: the LABEL binding to `lc` |
| Assembler.Parser.ParseMriFlags | parser.go:119-133 | the flags and the new cursor are `MriFlags` of the old cursor: the first byte of a following symbol; nothing else changes |
| Assembler.Parser.EncodeWord | parser.go:140-148 | the word is `EncodeMri` of the address, flags and opcode, which `MriLayout` describes |
| Assembler.Parser.Deposit | parser.go:136-161 | the new state is `StoreWord` of the old: the word stored at `lc` or another pass requested, then `lc` moves on |
| Assembler.Parser.ParseMri | parser.go:116-161 | status and new state are `MriStatement` of the old state: the encoded word stored at `lc`, or another pass requested |
| Assembler.Parser.ParseStatement | parser.go:59-171 | status and new state are `Statement` of the old state, whose effects the effect lemmas state |
| Assembler.Parser.ParsePass | parser.go:58-172 | status and, at end of file, the new state are `RunPass` of the old state |
| Assembler.Parser.NextPass | parser.go:58-186 | one pass and the restart decision: either another pass starts from a state with the same `Passes` result, or the status, state and pass count are `Passes` of the old state |
| Assembler.Parser.ParseP8Assembly | parser.go:44-187 | status, final state and pass count are `Passes` from the current pass; `failed` is the "Parsing failed" condition |
| Exporter.Ascending | exporter.go:16-20 | the key slice holds each used address exactly once |
| Exporter.AscendingIncreasing | exporter.go:20 | after `sort.Ints` the keys are strictly increasing |
| Exporter.SortedKeys | exporter.go:16-20 | the keys are the used addresses in ascending order |
| Exporter.OriginWordValue | exporter.go:25-27 | for an address in 0..0o7777, `addr \| 0o170000` is the address plus 0o170000; it is an origin word, and its low twelve bits are the address |
| Exporter.PObjectFrom | exporter.go:22-32 | each entry writes its word, preceded by at most one origin word |
| Exporter.PObjectTextStep | exporter.go:23-32 | the text of the entries is the first entry's lines followed by the rest |
| Exporter.PObjectLoopStep | exporter.go:23-32 | one loop turn writes the origin line (if the address does not follow on) and the word line of `keys[i]` |
| Exporter.ExportPObject | exporter.go:15-33 | the text written is the P-object text of the image |
| Exporter.ReadWordsLine | exporter.go:26-29 | a line of octal digits reads as its value, followed by the rest |
| Exporter.ReadLines | exporter.go:26-29 | the lines written for non-negative words read back as those words |
| Exporter.LoadPObjectStep | exporter.go:12-14 | loading the first entry's words stores its word at its address |
| Exporter.LoadPObjectFrom | exporter.go:12-32 | loading the words written for a run of entries adds exactly those entries to memory |
| Exporter.PObjectRoundTrip | exporter.go:12-33 | reading back a written .po text restores the image, when addresses and words fit in twelve bits |
| Exporter.PObjectTextReads | exporter.go:26-29 | the .po text reads back as the word stream |
| Exporter.PObjectWordsLoad | exporter.go:12-32 | the loader rebuilds the image from the word stream |
| Exporter.RimBody | exporter.go:64-69 | four bytes are punched per entry |
| Exporter.RimLoopStep | exporter.go:64-69 | one loop turn punches the address bytes and data bytes of `keys[i]` |
| Exporter.ExportRim | exporter.go:54-75 | the bytes written are the RIM tape of the image |
| Exporter.LowSix | exporter.go:66-68 | `byte(x & 0o77)` is the low six bits |
| Exporter.HighSix | exporter.go:66-68 | `byte((x & 0o7700) >> 6)` is bits 6 to 11 |
| Exporter.SixBitHalves | exporter.go:66-68 | both bytes are below 0o100 and join to the low twelve bits |
| Exporter.MarkedHigh | exporter.go:45-46 | the 0o100 mark adds to a six-bit byte |
| Exporter.RimEntryLayout | exporter.go:40-53 | the first byte has 0o100 set and 0o200 clear; the other three are below 0o100; the halves join to the low twelve bits of address and word |
| Exporter.RimTapeLength | exporter.go:61-70 | the tape has two leader bytes, four bytes per entry and two trailer bytes |
| Exporter.LoadRimStep | exporter.go:40-51 | reading the first four bytes stores the entry's twelve-bit word at its address |
| Exporter.LoadRimBody | exporter.go:40-51 | reading the body stores every entry with its twelve-bit word |
| Exporter.Framed | exporter.go:51-53 | a tape framed by leader and trailer is read as its body |
| Exporter.RimTapeReads | exporter.go:35-75 | the punched tape reads back as the image with words cut to twelve bits |
| Exporter.RimRoundTrip | exporter.go:35-75 | reading back a written tape gives every address with the low twelve bits of its word |
| Exporter.UrlLoopStep | exporter.go:88-102 | one loop turn appends the origin token (if the address does not follow on) and the word token of `keys[i]`, with a comma unless it is the last |
| Exporter.ExportUrl | exporter.go:79-104 | the link is the base, `?core=` and the URL entries of the image |
| Exporter.UrlTokensStep | exporter.go:90-99 | the tokens of one entry are its origin token (if any) and its word token |
| Exporter.UrlMatchesPObject | exporter.go:86-102 | the `core=` list is the P-object word stream as comma-separated tokens: `*0<addr>` for an origin, `0<word>` for a word |
| Exporter.UrlIsPObject | exporter.go:79-104 | the whole link is the base, `?core=` and the joined tokens of the P-object words |
| Exporter.ExportSize | exporter.go:194-199 | as written: used is the number of words, the total is 0o7777 and free is 0o7777 minus the words used |
| Exporter.ExportSizeFullMemory | exporter.go:195-197 | as written, an image using all 4096 addresses reports -1 free words |
| Exporter.MemorySize | exporter.go:194-199 | corrected report: used + free is the 4096 addresses |
| Exporter.MemorySizeCounts | exporter.go:194-199 | corrected report: free is exactly the number of unused addresses, between 0 and 4096 |
| Diagnostics.ParseMessage | errors.go:23-43 | a stored message read back into a category and text reproduces the message |
| Diagnostics.MessageReadsBack | errors.go:23-43 | every message the reporters store reads back as the report that made it; no category's prefix begins another's, and the bare "undefined symbol" is none of them |
| Diagnostics.MessageInjective | errors.go:23-43 | different reports store different messages |
| Diagnostics.FormatErrorMsg | errors.go:62-64 | the banner `****> Error: `, then the message, then a newline |
| Diagnostics.ErrorMsgText | errors.go:62-64 | the message recovered from a printed line is the line without banner and newline |
| Diagnostics.FormatErrorMsgReadsBack | errors.go:62-64 | the message is recovered from the line formatErrorMsg prints |
| Diagnostics.ErrorList.constructor | errors.go:11-12 | the lists start empty |
| Diagnostics.ErrorList.SyntaxError | errors.go:23-26 | appends the lexeme and `syntax error: ` + msg, so the lists stay in lockstep |
| Diagnostics.ErrorList.IllegalReferenceError | errors.go:28-31 | appends the lexeme and `illegal reference: ` + msg, so the lists stay in lockstep |
| Diagnostics.ErrorList.UndefinedSymbolError | errors.go:33-36 | appends the lexeme and `undefined symbol: ` + msg, so the lists stay in lockstep |
| Diagnostics.ErrorList.UndefinedSymbols | errors.go:38-43 | appends every unresolved lexeme in order, each with the message `undefined symbol` |
| Diagnostics.ErrorList.ResetErrors | errors.go:45-48 | both lists are empty |
| Diagnostics.ErrorList.HasErrors | errors.go:50-52 | true exactly when there is an error: the lexeme list, and so the message list, is non-empty |

## Left out

- `mkasm.go` is not part of this model. It handles command-line flags,
  opening and writing files, and choosing a format.
- `exportListing` is not part of this model. It is a listing printer over
  source text the parser does not keep.
- `PrintErrors`, `printLine` and `UnknownLexeme` are not modelled. They
  re-read the source file, print to the terminal and call `os.Exit`.
- The `fmt` progress messages are not modelled. These are "Making pass",
  "Another pass required" and the "Parsing failed" print. The last one is
  the `failed` result of `Assembler.Parser.ParseP8Assembly`.
- Exporter.ExportPObject and Exporter.ExportRim return the text or bytes.
  They do not write to an `io.Writer`, so the write error and its panic
  are not modelled.
- Exporter.ExportUrl returns the link instead of printing it.
- The inverse of the URL format: no reader exists. The round-trip partner
  is the P-object word stream (`Exporter.UrlMatchesPObject`).
- Integers are unbounded. Go's 64-bit wrap-around of `+`, `-` and `*` in
  expressions and the location counter is not modelled. Values stay far
  from that range for 16-bit numerals.
- Numerals.ParseInt16 and Numerals.ParseInt16Auto do not accept a sign or
  underscores. `strconv` allows these, but a number lexeme can never hold
  them: its bytes are digits and base letters only.
- Lexer.Lexer.Reset does not model the `Seek` error and its panic. The
  file is an immutable byte sequence.
- The 64 KiB token limit of `bufio.Scanner` is not modelled. A longer line
  stops the Go scanner; here it is read whole.
- Assembler.Parser reads the lexer as the stream of lexemes it produces
  (`Lexer.Lexemes`) with a cursor, not as a live `Lexer` object.
  `Lexer.StepsFollowStream` proves that the two agree.
- Assembler.Parser.ParseP8Assembly returns `Halted` where Go panics. The
  panic's unwinding out of the program is not modelled.
- Diagnostics.ErrorList.UndefinedSymbols stores each unresolved lexeme as
  its own value. This is the per-iteration loop variable of Go 1.22 and
  later. With older Go, `&l` makes every entry alias the last lexeme. The
  module's Go version is not part of this model.
- Diagnostics.ErrorList holds the package-level `ErrorLexemes` and
  `ErrorStrings` slices. `p.undef` is not among the parser fields shown,
  so it is a parameter.
- Lexemes are stored by value. In Go a lexeme's `Bytes` is a slice of
  the scanner's current line (lexer.go:137-184, 210). A later `Scan` may
  reuse that buffer, so a stored lexeme's bytes can change once the input
  outgrows the scanner's first buffer. This aliasing is not modelled:
  here a lexeme keeps the bytes it was scanned with.
- Statement, PunctStatement and SymbolStatement: their own ensures state
  the cursor, the end of the pass and the statements that change nothing.
  The effect of each statement kind is stated by `Assembler.OriginEffect`,
  `Assembler.DefinitionEffect`, `Assembler.LabelEffect`,
  `Assembler.MriEffect`, `Assembler.NumberEffect` and
  `Assembler.WordStatementEffect`.
- EvalExpression: its own ensures state the cursor. The value of each
  form is stated by `Assembler.DotValue`, `Assembler.DotSignValue`,
  `Assembler.SignedValue`, `Assembler.BinaryValue`, `Assembler.PairValue`,
  `Assembler.SingleValue` and `Assembler.ExpressionErrors`.

## Findings

| source | as written | input that shows it | evidently intended | confidence | as-written member | corrected member |
|---|---|---|---|---|---|---|
| exporter.go:195-197 | the total is 0o7777 = 4095 words, but the address space 0..0o7777 has 4096 words | an image that uses every address 0..0o7777 reports `free: -1` | the total is 0o10000 = 4096, so free counts the unused addresses | not executed | Exporter.ExportSizeFullMemory | Exporter.MemorySizeCounts |
