/**
 * The scanner (src/scanner.ts): it turns the source text into tokens on demand.
 *
 * `NextToken` says what one call of `scan` finds from a position: it skips
 * whitespace, then reads a number, a string, one of the punctuators (preferring
 * the two-character operators), or a word, which is a keyword or an identifier.
 * The `Scanner` class keeps the closure variables `pos`, `tokenPos`, `token` and
 * `tokenValue` as fields and its methods are proved to move them as `NextToken`
 * says. An error the source throws is returned as a `ScanError` value.
 */
module Scanning {
  import opened Ast
  import Numbers

  /* ---------------- character classes ---------------- */

  /** Line feed, carriage return, tab, vertical tab, form feed and space. */
  predicate IsWhitespace(c: char) {
    c == '\n' || c == '\r' || c == '\t' || c == 11 as char || c == 12 as char || c == ' '
  }

  predicate IsDigit(c: char) {
    Numbers.IsDigit(c)
  }

  predicate IsIdentifierStart(c: char) {
    ('A' <= c <= 'Z') || ('a' <= c <= 'z') || c == '_' || c == '$'
  }

  predicate IsIdentifierPart(c: char) {
    IsIdentifierStart(c) || IsDigit(c)
  }

  /** The character classes a scanning loop runs over. */
  datatype CharClass = Blank | Digit | WordPart | NotQuote

  predicate InClass(k: CharClass, c: char) {
    match k
    case Blank => IsWhitespace(c)
    case Digit => IsDigit(c)
    case WordPart => IsIdentifierPart(c)
    case NotQuote => c != '"'
  }

  /** Where a run of characters of class `k` starting at `from` stops. */
  function RunEnd(text: string, from: nat, k: CharClass): (e: nat)
    requires from <= |text|
    ensures from <= e <= |text|
    ensures forall i :: from <= i < e ==> InClass(k, text[i])
    ensures e < |text| ==> !InClass(k, text[e])
    decreases |text| - from
  {
    if from < |text| && InClass(k, text[from]) then RunEnd(text, from + 1, k) else from
  }

  /* ---------------- keywords and punctuators ---------------- */

  /** `textToKeyword`. */
  function KeywordKind(w: string): (r: Option<SyntaxKind>)
    ensures r.Some? ==> IsKeyword(r.value)
  {
    if w == "else" then Some(SyntaxKind.ElseKeyword)
    else if w == "function" then Some(SyntaxKind.FunctionKeyword)
    else if w == "let" then Some(SyntaxKind.LetKeyword)
    else if w == "if" then Some(SyntaxKind.IfKeyword)
    else if w == "while" then Some(SyntaxKind.WhileKeyword)
    else if w == "for" then Some(SyntaxKind.ForKeyword)
    else if w == "in" then Some(SyntaxKind.InKeyword)
    else if w == "return" then Some(SyntaxKind.ReturnKeyword)
    else if w == "true" then Some(SyntaxKind.TrueKeyword)
    else if w == "false" then Some(SyntaxKind.FalseKeyword)
    else if w == "delete" then Some(SyntaxKind.DeleteKeyword)
    else None
  }

  predicate IsKeyword(k: SyntaxKind) {
    k in {SyntaxKind.ElseKeyword, SyntaxKind.FunctionKeyword, SyntaxKind.LetKeyword, SyntaxKind.IfKeyword,
          SyntaxKind.WhileKeyword, SyntaxKind.ForKeyword, SyntaxKind.InKeyword, SyntaxKind.ReturnKeyword,
          SyntaxKind.TrueKeyword, SyntaxKind.FalseKeyword, SyntaxKind.DeleteKeyword}
  }

  /** The spelling of a keyword kind: the inverse of `KeywordKind`. */
  function Spelling(k: SyntaxKind): string
    requires IsKeyword(k)
  {
    if k == SyntaxKind.ElseKeyword then "else"
    else if k == SyntaxKind.FunctionKeyword then "function"
    else if k == SyntaxKind.LetKeyword then "let"
    else if k == SyntaxKind.IfKeyword then "if"
    else if k == SyntaxKind.WhileKeyword then "while"
    else if k == SyntaxKind.ForKeyword then "for"
    else if k == SyntaxKind.InKeyword then "in"
    else if k == SyntaxKind.ReturnKeyword then "return"
    else if k == SyntaxKind.TrueKeyword then "true"
    else if k == SyntaxKind.FalseKeyword then "false"
    else "delete"
  }

  /** The keyword table is a bijection between the eleven spellings and the keyword kinds. */
  lemma KeywordTable(w: string, k: SyntaxKind)
    ensures IsKeyword(k) ==> KeywordKind(Spelling(k)) == Some(k)
    ensures KeywordKind(w) == Some(k) ==> IsKeyword(k) && w == Spelling(k)
  {
  }

  /** The punctuators that are one character and never the start of a longer one. */
  function SingleCharToken(c: char): Option<SyntaxKind> {
    match c
    case '{' => Some(SyntaxKind.OpenBraceToken)
    case '}' => Some(SyntaxKind.CloseBraceToken)
    case '(' => Some(SyntaxKind.OpenParenToken)
    case ')' => Some(SyntaxKind.CloseParenToken)
    case '[' => Some(SyntaxKind.OpenBracketToken)
    case ']' => Some(SyntaxKind.CloseBracketToken)
    case ';' => Some(SyntaxKind.SemicolonToken)
    case ',' => Some(SyntaxKind.CommaToken)
    case '.' => Some(SyntaxKind.DotToken)
    case ':' => Some(SyntaxKind.ColonToken)
    case '?' => Some(SyntaxKind.QuestionToken)
    case '*' => Some(SyntaxKind.AsteriskToken)
    case '/' => Some(SyntaxKind.SlashToken)
    case _ => None
  }

  /**
   * The punctuators that may be followed by a second character: the character
   * `first`, the one that makes the pair, and the kinds of the short and long forms.
   */
  datatype Pair = Pair(second: char, short: SyntaxKind, long: SyntaxKind)

  function PairToken(c: char): Option<Pair> {
    match c
    case '=' => Some(Pair('=', SyntaxKind.EqualsToken, SyntaxKind.EqualsEqualsToken))
    case '+' => Some(Pair('+', SyntaxKind.PlusToken, SyntaxKind.PlusPlusToken))
    case '-' => Some(Pair('-', SyntaxKind.MinusToken, SyntaxKind.MinusMinusToken))
    case '<' => Some(Pair('=', SyntaxKind.LessThanToken, SyntaxKind.LessThanEqualsToken))
    case '>' => Some(Pair('=', SyntaxKind.GreaterThanToken, SyntaxKind.GreaterThanEqualsToken))
    case _ => None
  }

  /* ---------------- what one scan finds ---------------- */

  /** A thrown `Scanner Error at <pos>: <message>`. */
  datatype ScanError = ScanError(pos: nat, message: string)

  /** The text of the thrown error. */
  function ErrorText(e: ScanError): string {
    "Scanner Error at " + Numbers.NatToString(e.pos) + ": " + e.message
  }

  const LeadingZero := "Numeric literal cannot start with 0"
  const Unterminated := "Unterminated string literal"

  /** The outcome of one `scan`: the new `token`, `tokenPos`, `pos` and `tokenValue`, or the error. */
  datatype ScanResult =
    | Scanned(kind: SyntaxKind, tokenPos: nat, pos: nat, value: string)
    | Failure(error: ScanError)

  /** `scanNumber` from `start`, a digit. */
  function NumberAt(text: string, start: nat): (r: ScanResult)
    requires start < |text| && IsDigit(text[start])
  {
    if text[start] == '0' && start + 1 < |text| && IsDigit(text[start + 1]) then Failure(ScanError(start, LeadingZero))
    else
      var e := RunEnd(text, start + 1, Digit);
      Scanned(SyntaxKind.NumericLiteral, start, e, text[start..e])
  }

  /** `scanString` from `start`, a double quote. */
  function StringAt(text: string, start: nat): (r: ScanResult)
    requires start < |text|
  {
    var close := RunEnd(text, start + 1, NotQuote);
    if close >= |text| then Failure(ScanError(close, Unterminated))
    else Scanned(SyntaxKind.StringLiteral, start, close + 1, text[start + 1..close])
  }

  /** `scanIdentifier` from `start`: any character, then identifier parts. */
  function WordAt(text: string, start: nat): (r: ScanResult)
    requires start < |text|
  {
    var e := RunEnd(text, start + 1, WordPart);
    var w := text[start..e];
    Scanned(if KeywordKind(w).Some? then KeywordKind(w).value else SyntaxKind.Identifier, start, e, w)
  }

  /**
   * One `scan` from `pos`, with `value` the current `tokenValue` (a punctuator
   * leaves it as it was). The token starts at the first non-whitespace position;
   * it is at least one character long unless it is the end of the text.
   */
  function NextToken(text: string, pos: nat, value: string): (r: ScanResult)
    requires pos <= |text|
    ensures r.Scanned? ==> pos <= r.tokenPos <= r.pos <= |text|
    ensures r.Scanned? ==> forall i :: pos <= i < r.tokenPos ==> IsWhitespace(text[i])
    ensures r.Scanned? && r.tokenPos < |text| ==> !IsWhitespace(text[r.tokenPos]) && r.tokenPos < r.pos
    ensures r.Scanned? && r.kind == SyntaxKind.EndOfFileToken <==> r.Scanned? && r.tokenPos == |text|
    ensures r.Scanned? && r.kind == SyntaxKind.EndOfFileToken ==> r.pos == |text| && r.value == ""
    ensures r.Failure? ==> r.error.pos <= |text|
  {
    var start := RunEnd(text, pos, Blank);
    if start == |text| then Scanned(SyntaxKind.EndOfFileToken, start, start, "")
    else
      var ch := text[start];
      if IsDigit(ch) then NumberAt(text, start)
      else if ch == '"' then StringAt(text, start)
      else if PairToken(ch).Some? then
        var p := PairToken(ch).value;
        if start + 1 < |text| && text[start + 1] == p.second then Scanned(p.long, start, start + 2, value)
        else Scanned(p.short, start, start + 1, value)
      else if SingleCharToken(ch).Some? then Scanned(SingleCharToken(ch).value, start, start + 1, value)
      else WordAt(text, start)
  }

  /* ---------------- properties of one scan ---------------- */

  /** At the end of the text `scan` returns end-of-file with an empty value, and keeps doing so. */
  lemma EndOfFileIsSticky(text: string, pos: nat, value: string)
    requires pos <= |text| && RunEnd(text, pos, Blank) == |text|
    ensures NextToken(text, pos, value) == Scanned(SyntaxKind.EndOfFileToken, |text|, |text|, "")
    ensures NextToken(text, |text|, "") == Scanned(SyntaxKind.EndOfFileToken, |text|, |text|, "")
  {
  }

  /** A run of all whitespace then `rest`: the scan starts where the whitespace ends. */
  lemma {:induction false} WhitespaceIsSkipped(blanks: string, rest: string, value: string)
    requires forall i :: 0 <= i < |blanks| ==> IsWhitespace(blanks[i])
    requires rest != [] && !IsWhitespace(rest[0])
    ensures var r := NextToken(blanks + rest, 0, value);
      r.Scanned? ==> r.tokenPos == |blanks|
  {
    SkipRun(blanks + rest, 0, |blanks|);
  }

  /** Over a whitespace run, `RunEnd` stops at its end. */
  lemma {:induction false} SkipRun(text: string, from: nat, stop: nat)
    requires from <= stop < |text|
    requires forall i :: from <= i < stop ==> IsWhitespace(text[i])
    requires !IsWhitespace(text[stop])
    ensures RunEnd(text, from, Blank) == stop
    decreases stop - from
  {
    if from < stop {
      SkipRun(text, from + 1, stop);
    }
  }

  /** Whether a scan of `blanks + rest` fails does not depend on the whitespace in front. */
  lemma ShiftScan(blanks: string, rest: string, value: string)
    requires forall i :: 0 <= i < |blanks| ==> IsWhitespace(blanks[i])
    requires rest != [] && !IsWhitespace(rest[0])
    ensures NextToken(blanks + rest, 0, value).Failure? == NextToken(rest, 0, value).Failure?
  {
    var text := blanks + rest;
    var n := |blanks|;
    SkipRun(text, 0, n);
    SkipRun(rest, 0, 0);
    assert text[n] == rest[0];
    forall k | n + 1 <= k <= |text|
      ensures RunEnd(text, k, NotQuote) == RunEnd(rest, k - n, NotQuote) + n
    {
      ShiftRun(blanks, rest, k, NotQuote);
    }
    if n + 1 < |text| {
      assert text[n + 1] == rest[1];
    }
  }

  /** A run in `blanks + rest` is the same run in `rest`, shifted. */
  lemma {:induction false} ShiftRun(blanks: string, rest: string, k: nat, c: CharClass)
    requires |blanks| <= k <= |blanks + rest|
    ensures RunEnd(blanks + rest, k, c) == RunEnd(rest, k - |blanks|, c) + |blanks|
    decreases |blanks + rest| - k
  {
    var text := blanks + rest;
    if k < |text| {
      assert text[k] == rest[k - |blanks|];
      ShiftRun(blanks, rest, k + 1, c);
    }
  }

  /**
   * A word scans as its keyword kind, or as `Identifier`, with the word itself as
   * the value and the token text.
   */
  lemma WordScansAsKeywordOrIdentifier(w: string, rest: string, value: string)
    requires |w| >= 1 && IsIdentifierStart(w[0]) && forall i :: 0 <= i < |w| ==> IsIdentifierPart(w[i])
    requires rest == [] || !IsIdentifierPart(rest[0])
    ensures NextToken(w + rest, 0, value)
      == Scanned(if KeywordKind(w).Some? then KeywordKind(w).value else SyntaxKind.Identifier, 0, |w|, w)
  {
    var text := w + rest;
    assert text[0] == w[0];
    WordRun(text, 1, |w|);
    assert text[..|w|] == w;
  }

  /** Over a run of identifier parts, `RunEnd` stops at its end. */
  lemma {:induction false} WordRun(text: string, from: nat, stop: nat)
    requires from <= stop <= |text|
    requires forall i :: from <= i < stop ==> IsIdentifierPart(text[i])
    requires stop < |text| ==> !IsIdentifierPart(text[stop])
    ensures RunEnd(text, from, WordPart) == stop
    decreases stop - from
  {
    if from < stop {
      WordRun(text, from + 1, stop);
    }
  }

  /**
   * The two-character operators `==`, `++`, `--`, `<=` and `>=` win over their
   * one-character prefixes; `=`, `+`, `-`, `<` or `>` that is last in the text or
   * not followed by its partner character is the one-character token.
   */
  lemma LongestOperator(text: string, pos: nat, value: string)
    requires pos < |text| && RunEnd(text, pos, Blank) == pos
    ensures pos + 2 <= |text| && text[pos..pos + 2] == "==" ==>
      NextToken(text, pos, value) == Scanned(SyntaxKind.EqualsEqualsToken, pos, pos + 2, value)
    ensures pos + 2 <= |text| && text[pos..pos + 2] == "++" ==>
      NextToken(text, pos, value) == Scanned(SyntaxKind.PlusPlusToken, pos, pos + 2, value)
    ensures pos + 2 <= |text| && text[pos..pos + 2] == "--" ==>
      NextToken(text, pos, value) == Scanned(SyntaxKind.MinusMinusToken, pos, pos + 2, value)
    ensures pos + 2 <= |text| && text[pos..pos + 2] == "<=" ==>
      NextToken(text, pos, value) == Scanned(SyntaxKind.LessThanEqualsToken, pos, pos + 2, value)
    ensures pos + 2 <= |text| && text[pos..pos + 2] == ">=" ==>
      NextToken(text, pos, value) == Scanned(SyntaxKind.GreaterThanEqualsToken, pos, pos + 2, value)
    ensures text[pos] == '=' && (pos + 1 == |text| || text[pos + 1] != '=') ==>
      NextToken(text, pos, value) == Scanned(SyntaxKind.EqualsToken, pos, pos + 1, value)
    ensures text[pos] == '+' && (pos + 1 == |text| || text[pos + 1] != '+') ==>
      NextToken(text, pos, value) == Scanned(SyntaxKind.PlusToken, pos, pos + 1, value)
    ensures text[pos] == '-' && (pos + 1 == |text| || text[pos + 1] != '-') ==>
      NextToken(text, pos, value) == Scanned(SyntaxKind.MinusToken, pos, pos + 1, value)
    ensures text[pos] == '<' && (pos + 1 == |text| || text[pos + 1] != '=') ==>
      NextToken(text, pos, value) == Scanned(SyntaxKind.LessThanToken, pos, pos + 1, value)
    ensures text[pos] == '>' && (pos + 1 == |text| || text[pos + 1] != '=') ==>
      NextToken(text, pos, value) == Scanned(SyntaxKind.GreaterThanToken, pos, pos + 1, value)
  {
    if pos + 2 <= |text| {
      var two := text[pos..pos + 2];
      assert two[0] == text[pos] && two[1] == text[pos + 1];
    }
  }

  /** `0` followed by a digit is an error at the `0`; a `0` followed by anything else is the number 0. */
  lemma LeadingZeros(text: string, pos: nat, value: string)
    requires pos < |text| && RunEnd(text, pos, Blank) == pos && text[pos] == '0'
    ensures pos + 1 < |text| && IsDigit(text[pos + 1]) ==>
      NextToken(text, pos, value) == Failure(ScanError(pos, LeadingZero))
    ensures !(pos + 1 < |text| && IsDigit(text[pos + 1])) ==>
      NextToken(text, pos, value) == Scanned(SyntaxKind.NumericLiteral, pos, pos + 1, "0")
  {
    if !(pos + 1 < |text| && IsDigit(text[pos + 1])) {
      assert RunEnd(text, pos + 1, Digit) == pos + 1;
    }
  }

  /** A number token's value is its text: a run of digits, not starting with `0` unless it is `0`. */
  lemma NumberValue(text: string, pos: nat, value: string)
    requires pos <= |text|
    ensures var r := NextToken(text, pos, value);
      r.Scanned? && r.kind == SyntaxKind.NumericLiteral ==>
        r.value == text[r.tokenPos..r.pos] && |r.value| >= 1 && Numbers.AllDigits(r.value)
        && (r.value[0] == '0' ==> |r.value| == 1)
        && (r.pos < |text| ==> !IsDigit(text[r.pos]))
  {
    var start := RunEnd(text, pos, Blank);
    if start < |text| && IsDigit(text[start]) {
      NumberAtFacts(text, start);
    }
  }

  /** A number scanned from `start` is the canonical digit run that starts there. */
  lemma NumberAtFacts(text: string, start: nat)
    requires start < |text| && IsDigit(text[start])
    ensures var r := NumberAt(text, start);
      r.Scanned? ==>
        r.value == text[start..r.pos] && |r.value| >= 1 && Numbers.AllDigits(r.value)
        && (r.value[0] == '0' ==> |r.value| == 1)
        && (r.pos < |text| ==> !IsDigit(text[r.pos]))
  {
    var e := RunEnd(text, start + 1, Digit);
    assert forall i :: 0 <= i < e - start ==> text[start..e][i] == text[start + i];
  }

  /**
   * A string token runs from a quote to the next quote, and its value is what lies
   * between them; with no closing quote the scan fails at the end of the text.
   */
  lemma StringValue(text: string, pos: nat, value: string)
    requires pos < |text| && RunEnd(text, pos, Blank) == pos && text[pos] == '"'
    ensures var r := NextToken(text, pos, value);
      (r.Failure? <==> forall i :: pos < i < |text| ==> text[i] != '"')
      && (r.Failure? ==> r.error == ScanError(|text|, Unterminated))
      && (r.Scanned? ==>
            r.kind == SyntaxKind.StringLiteral && r.tokenPos == pos
            && text[r.pos - 1] == '"' && r.value == text[pos + 1..r.pos - 1]
            && forall i :: 0 <= i < |r.value| ==> r.value[i] != '"')
  {
  }

  /**
   * What the parser may rely on about a token's value: a number is its own
   * canonical run of digits, an identifier is its own non-keyword word, and a
   * string value holds no double quote.
   */
  predicate TokenFacts(text: string, tokenPos: nat, pos: nat, kind: SyntaxKind, value: string) {
    tokenPos <= pos <= |text|
    && (kind == SyntaxKind.NumericLiteral ==>
          value == text[tokenPos..pos] && |value| >= 1 && Numbers.AllDigits(value)
          && (value[0] == '0' ==> |value| == 1))
    && (kind == SyntaxKind.Identifier ==>
          value == text[tokenPos..pos] && |value| >= 1 && KeywordKind(value).None?)
    && (kind == SyntaxKind.StringLiteral ==> forall i :: 0 <= i < |value| ==> value[i] != '"')
  }

  /** Every successful scan establishes `TokenFacts` for the token it found. */
  lemma ScannedTokenFacts(text: string, pos: nat, value: string)
    requires pos <= |text|
    ensures var r := NextToken(text, pos, value);
      r.Scanned? ==> TokenFacts(text, r.tokenPos, r.pos, r.kind, r.value)
  {
    var start := RunEnd(text, pos, Blank);
    if start < |text| && IsDigit(text[start]) {
      NumberAtFacts(text, start);
    } else if start < |text| && text[start] == '"' {
      StringValue(text, start, value);
    }
  }

  /* ---------------- the scanner ---------------- */

  /** The four closure variables `lookAhead` saves and restores. */
  datatype ScanState = ScanState(pos: nat, tokenPos: nat, token: SyntaxKind, tokenValue: string)

  class Scanner {
    const text: string
    var pos: nat
    var tokenPos: nat
    var token: SyntaxKind
    var tokenValue: string

    ghost predicate Valid()
      reads this
    {
      tokenPos <= pos <= |text|
    }

    /** `createScanner(text)`. */
    constructor (text: string)
      ensures this.text == text && Valid()
      ensures pos == 0 && tokenPos == 0 && token == SyntaxKind.Unknown && tokenValue == ""
    {
      this.text := text;
      pos := 0;
      tokenPos := 0;
      token := SyntaxKind.Unknown;
      tokenValue := "";
    }

    function State(): ScanState
      reads this
    {
      ScanState(pos, tokenPos, token, tokenValue)
    }

    /** `getTokenText`: the text of the current token. */
    function GetTokenText(): (s: string)
      requires Valid()
      reads this
      ensures |s| == pos - tokenPos && forall i :: 0 <= i < |s| ==> s[i] == text[tokenPos + i]
    {
      text[tokenPos..pos]
    }

    /** The fields after a successful scan, or the error. */
    predicate Became(r: ScanResult, kind: SyntaxKind, err: Option<ScanError>)
      reads this
    {
      match r
      case Scanned(k, tp, p, v) => err.None? && kind == k && token == k && tokenPos == tp && pos == p && tokenValue == v
      case Failure(e) => err == Some(e)
    }

    /** `scan`: skip whitespace, then read one token. */
    method Scan() returns (kind: SyntaxKind, err: Option<ScanError>)
      requires Valid()
      modifies this
      ensures Valid()
      ensures Became(NextToken(text, old(pos), old(tokenValue)), kind, err)
    {
      ghost var start := RunEnd(text, pos, Blank);
      ghost var value := tokenValue;
      while true
        invariant old(pos) <= pos <= |text| && tokenPos <= pos
        invariant RunEnd(text, pos, Blank) == start && tokenValue == value
        decreases |text| - pos
      {
        tokenPos := pos;
        if pos >= |text| {
          tokenValue := "";
          token := SyntaxKind.EndOfFileToken;
          return token, None;
        }
        var ch := text[pos];
        if IsWhitespace(ch) {
          pos := pos + 1;
          continue;
        }
        assert start == pos;
        if IsDigit(ch) {
          kind, err := ScanNumber();
          return;
        }
        if ch == '"' {
          kind, err := ScanString();
          return;
        }
        var pair := PairToken(ch);
        if pair.Some? {
          if pos + 1 < |text| && text[pos + 1] == pair.value.second {
            pos := pos + 2;
            token := pair.value.long;
          } else {
            pos := pos + 1;
            token := pair.value.short;
          }
          return token, None;
        }
        var single := SingleCharToken(ch);
        if single.Some? {
          pos := pos + 1;
          token := single.value;
          return token, None;
        }
        kind, err := ScanIdentifier();
        return;
      }
    }

    /** `scanNumber`: a leading `0` must stand alone, then the digits. */
    method ScanNumber() returns (kind: SyntaxKind, err: Option<ScanError>)
      requires Valid() && pos < |text| && IsDigit(text[pos]) && tokenPos == pos
      modifies this
      ensures Valid()
      ensures Became(NumberAt(text, old(pos)), kind, err)
    {
      var start := pos;
      if text[pos] == '0' && pos + 1 < |text| && IsDigit(text[pos + 1]) {
        return token, Some(ScanError(pos, LeadingZero));
      }
      pos := pos + 1;
      while pos < |text| && IsDigit(text[pos])
        invariant start < pos <= |text| && tokenPos == start
        invariant RunEnd(text, pos, Digit) == RunEnd(text, start + 1, Digit)
        decreases |text| - pos
      {
        pos := pos + 1;
      }
      tokenValue := text[start..pos];
      token := SyntaxKind.NumericLiteral;
      return token, None;
    }

    /** `scanString`: up to the next double quote, which must be there. */
    method ScanString() returns (kind: SyntaxKind, err: Option<ScanError>)
      requires Valid() && pos < |text| && tokenPos == pos
      modifies this
      ensures Valid()
      ensures Became(StringAt(text, old(pos)), kind, err)
    {
      var start := pos;
      pos := pos + 1;
      while pos < |text|
        invariant start < pos <= |text| && tokenPos == start
        invariant RunEnd(text, pos, NotQuote) == RunEnd(text, start + 1, NotQuote)
        decreases |text| - pos
      {
        if text[pos] == '"' {
          break;
        }
        pos := pos + 1;
      }
      if pos >= |text| {
        return token, Some(ScanError(pos, Unterminated));
      }
      tokenValue := text[start + 1..pos];
      pos := pos + 1;
      token := SyntaxKind.StringLiteral;
      return token, None;
    }

    /** `scanIdentifier`: the current character and the identifier parts after it; keywords by table. */
    method ScanIdentifier() returns (kind: SyntaxKind, err: Option<ScanError>)
      requires Valid() && pos < |text| && tokenPos == pos
      modifies this
      ensures Valid()
      ensures Became(WordAt(text, old(pos)), kind, err)
    {
      var start := pos;
      pos := pos + 1;
      while pos < |text| && IsIdentifierPart(text[pos])
        invariant start < pos <= |text| && tokenPos == start
        invariant RunEnd(text, pos, WordPart) == RunEnd(text, start + 1, WordPart)
        decreases |text| - pos
      {
        pos := pos + 1;
      }
      var value := text[start..pos];
      tokenValue := value;
      var keyword := KeywordKind(value);
      token := if keyword.Some? then keyword.value else SyntaxKind.Identifier;
      return token, None;
    }

    /** The restoring half of `lookAhead`: put back the four saved variables. */
    method Restore(saved: ScanState)
      requires saved.tokenPos <= saved.pos <= |text|
      modifies this
      ensures State() == saved && Valid()
    {
      pos := saved.pos;
      tokenPos := saved.tokenPos;
      token := saved.token;
      tokenValue := saved.tokenValue;
    }
  }

  /** Every successful scan that is not at the end of the text moves `pos` forward. */
  lemma ScanAdvances(text: string, pos: nat, value: string)
    requires pos <= |text|
    ensures var r := NextToken(text, pos, value);
      r.Scanned? && r.kind != SyntaxKind.EndOfFileToken ==> pos < r.pos
  {
  }
}
