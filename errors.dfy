/** The diagnostics accumulator: the batched structural errors of a pass
    (syntax error, illegal reference, undefined symbol), each kept as the
    offending lexeme and a message, and the banner every reported error is
    printed under. */
module Diagnostics {
  import opened Wrappers
  import opened Lexer

  /** The three categories a caller reports an error under. */
  datatype Category = Syntax | IllegalReference | Undefined

  /** The text a reported message starts with, by category. */
  function Prefix(c: Category): string
  {
    match c
    case Syntax => "syntax error: "
    case IllegalReference => "illegal reference: "
    case Undefined => "undefined symbol: "
  }

  /** The message the end-of-passes report gives each unresolved symbol. */
  const Unresolved: string := "undefined symbol"

  /** The banner of a printed error. */
  const Banner: string := "****> Error: "

  /** A stored message, read back: a category with the caller's text, or the
      bare unresolved-symbol message. */
  datatype Entry = Reported(category: Category, detail: string) | StillUndefined

  function Message(e: Entry): string
  {
    match e
    case Reported(c, detail) => Prefix(c) + detail
    case StillUndefined => Unresolved
  }

  predicate StartsWith(s: string, p: string)
  {
    |p| <= |s| && s[..|p|] == p
  }

  /** Reads a stored message back into its category and text; None for a
      message no report produces. */
  function ParseMessage(s: string): (r: Option<Entry>)
    ensures r.Some? ==> Message(r.value) == s
  {
    if StartsWith(s, Prefix(Syntax)) then Some(Reported(Syntax, s[|Prefix(Syntax)|..]))
    else if StartsWith(s, Prefix(IllegalReference)) then Some(Reported(IllegalReference, s[|Prefix(IllegalReference)|..]))
    else if StartsWith(s, Prefix(Undefined)) then Some(Reported(Undefined, s[|Prefix(Undefined)|..]))
    else if s == Unresolved then Some(StillUndefined)
    else None
  }

  /** No message starts with the prefix of another category, and the bare
      unresolved message is none of them: every stored message says which
      report made it and with what text. */
  lemma {:induction false} MessageReadsBack(e: Entry)
    ensures ParseMessage(Message(e)) == Some(e)
  {
    var s := Message(e);
    match e
    case Reported(c, detail) =>
      assert s[..|Prefix(c)|] == Prefix(c);
      assert s[|Prefix(c)|..] == detail;
      assert s[0] == Prefix(c)[0];
    case StillUndefined =>
      assert !StartsWith(s, Prefix(Syntax)) by { assert s[0] != Prefix(Syntax)[0]; }
      assert !StartsWith(s, Prefix(IllegalReference)) by { assert s[0] != Prefix(IllegalReference)[0]; }
  }

  /** Different reports leave different messages. */
  lemma MessageInjective(e1: Entry, e2: Entry)
    requires Message(e1) == Message(e2)
    ensures e1 == e2
  {
    MessageReadsBack(e1);
    MessageReadsBack(e2);
  }

  /** formatErrorMsg: the banner, the message and a newline. */
  function FormatErrorMsg(msg: string): (r: string)
    ensures |r| == |Banner| + |msg| + 1
    ensures StartsWith(r, Banner) && r[|r| - 1] == '\n'
    ensures r[|Banner|..|r| - 1] == msg
  {
    Banner + msg + "\n"
  }

  /** The message inside a printed error line. */
  function ErrorMsgText(line: string): (r: Option<string>)
    ensures r.Some? ==> |line| == |Banner| + |r.value| + 1
  {
    if |line| > |Banner| && StartsWith(line, Banner) && line[|line| - 1] == '\n'
    then Some(line[|Banner|..|line| - 1])
    else None
  }

  lemma FormatErrorMsgReadsBack(msg: string)
    ensures ErrorMsgText(FormatErrorMsg(msg)) == Some(msg)
  {
  }

  /** The same message repeated n times. */
  function Repeat(s: string, n: nat): (r: seq<string>)
    ensures |r| == n && forall i :: 0 <= i < n ==> r[i] == s
  {
    if n == 0 then [] else Repeat(s, n - 1) + [s]
  }

  /** The package-level lists ErrorLexemes and ErrorStrings: the i-th message
      belongs to the i-th lexeme. */
  class ErrorList {
    var lexemes: seq<Lexeme>
    var messages: seq<string>

    /** The two lists grow and are reset together. */
    ghost predicate Valid()
      reads this
    {
      |lexemes| == |messages|
    }

    /** The lists as (lexeme, entry) pairs, where every message reads back. */
    ghost predicate Readable()
      reads this
    {
      Valid() && forall i :: 0 <= i < |messages| ==> ParseMessage(messages[i]).Some?
    }

    /** The zero value of the two slices: no errors. */
    constructor ()
      ensures Readable() && lexemes == [] && messages == []
    {
      lexemes := [];
      messages := [];
    }

    /** Appends one report under a category. */
    method Report(c: Category, lm: Lexeme, msg: string)
      requires Readable()
      modifies this
      ensures Readable()
      ensures lexemes == old(lexemes) + [lm]
      ensures messages == old(messages) + [Message(Reported(c, msg))]
    {
      MessageReadsBack(Reported(c, msg));
      lexemes := lexemes + [lm];
      messages := messages + [Prefix(c) + msg];
    }

    method SyntaxError(lm: Lexeme, msg: string)
      requires Readable()
      modifies this
      ensures Readable()
      ensures lexemes == old(lexemes) + [lm]
      ensures messages == old(messages) + [Message(Reported(Syntax, msg))]
    {
      Report(Syntax, lm, msg);
    }

    method IllegalReferenceError(lm: Lexeme, msg: string)
      requires Readable()
      modifies this
      ensures Readable()
      ensures lexemes == old(lexemes) + [lm]
      ensures messages == old(messages) + [Message(Reported(IllegalReference, msg))]
    {
      Report(IllegalReference, lm, msg);
    }

    method UndefinedSymbolError(lm: Lexeme, msg: string)
      requires Readable()
      modifies this
      ensures Readable()
      ensures lexemes == old(lexemes) + [lm]
      ensures messages == old(messages) + [Message(Reported(Undefined, msg))]
    {
      Report(Undefined, lm, msg);
    }

    /** UndefinedSymbols: one entry per unresolved reference, in order, each
        under the bare unresolved message. */
    method UndefinedSymbols(undef: seq<Lexeme>)
      requires Readable()
      modifies this
      ensures Readable()
      ensures lexemes == old(lexemes) + undef
      ensures messages == old(messages) + Repeat(Message(StillUndefined), |undef|)
    {
      MessageReadsBack(StillUndefined);
      for i := 0 to |undef|
        invariant Readable()
        invariant lexemes == old(lexemes) + undef[..i]
        invariant messages == old(messages) + Repeat(Unresolved, i)
      {
        assert undef[..i + 1] == undef[..i] + [undef[i]];
        lexemes := lexemes + [undef[i]];
        messages := messages + [Unresolved];
      }
      assert undef[..|undef|] == undef;
    }

    method ResetErrors()
      modifies this
      ensures Readable() && lexemes == [] && messages == []
    {
      lexemes := [];
      messages := [];
    }

    method HasErrors() returns (r: bool)
      requires Valid()
      ensures r <==> |lexemes| > 0
      ensures r <==> |messages| > 0
    {
      r := |lexemes| > 0;
    }
  }
}
