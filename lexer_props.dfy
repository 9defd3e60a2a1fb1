/** Properties of the JSON5 lexer: numeric literal errors, signs, string escapes,
    unterminated strings and comments, and the end-of-input behaviour of the hex
    literal states. */
module Json5LexerProps {
  import opened Wrappers
  import opened Json5Util
  import opened Json5Values
  import opened Json5Lexer

  // ---------------------------------------------------------------- numbers

  /** A leading `.` must be followed by a digit. */
  lemma LeadingDotNeedsDigit(u: UnicodeTables, src: string, ps: ParseState, cur: Cursor, v: LexVars)
    requires cur.pos <= |src| && v.state == DecimalPointLeading
    ensures var r := LexStep(u, src, ps, cur, v);
      (r.Throw? <==> !IsDigitOpt(Peek(src, cur.pos))) &&
      (r.Throw? ==> r.error == InvalidCharAt(src, cur)) &&
      (r.Continue? ==> r.vars.state == DecimalFraction && r.vars.buffer == v.buffer + [src[cur.pos]])
  {
  }

  /** `0x` / `0X` must be followed by a hex digit. */
  lemma HexPrefixNeedsHexDigit(u: UnicodeTables, src: string, ps: ParseState, cur: Cursor, v: LexVars)
    requires cur.pos <= |src| && v.state == Hexadecimal
    ensures var r := LexStep(u, src, ps, cur, v);
      (r.Throw? <==> !IsHexDigitOpt(Peek(src, cur.pos))) &&
      (r.Throw? ==> r.error == InvalidCharAt(src, cur))
  {
  }

  /** After `e` / `E` comes an optional sign and then at least one digit. */
  lemma ExponentNeedsDigit(u: UnicodeTables, src: string, ps: ParseState, cur: Cursor, v: LexVars)
    requires cur.pos <= |src| && (v.state == DecimalExponent || v.state == DecimalExponentSign)
    ensures var r := LexStep(u, src, ps, cur, v);
      var c := Peek(src, cur.pos);
      var signAllowed := v.state == DecimalExponent && (c == Some('+') || c == Some('-'));
      (r.Throw? <==> !signAllowed && !IsDigitOpt(c)) &&
      (r.Continue? ==> r.vars.state == (if signAllowed then DecimalExponentSign else DecimalExponentInteger))
  {
  }

  /** A leading `-` sets the sign multiplier to -1; `+` leaves it as it was. */
  lemma SignMultiplier(u: UnicodeTables, src: string, ps: ParseState, cur: Cursor, v: LexVars)
    requires cur.pos < |src| && v.state == Value && (src[cur.pos] == '-' || src[cur.pos] == '+')
    ensures var r := LexStep(u, src, ps, cur, v);
      r.Continue? && r.vars.state == Sign && r.cur.pos == cur.pos + 1 &&
      r.vars.sign == (if src[cur.pos] == '-' then -1 else v.sign)
  {
  }

  predicate NumberState(s: LexState) {
    s in {Sign, Zero, DecimalInteger, DecimalPointLeading, DecimalPoint, DecimalFraction,
          DecimalExponent, DecimalExponentSign, DecimalExponentInteger, Hexadecimal, HexadecimalInteger}
  }

  /** One step in a number state stays in a number state with the same sign, or
      returns a numeric token with that sign (or NaN). */
  lemma NumberStepKeepsSign(u: UnicodeTables, src: string, ps: ParseState, cur: Cursor, v: LexVars)
    requires cur.pos <= |src| && NumberState(v.state)
    ensures var r := LexStep(u, src, ps, cur, v);
      (r.Continue? ==> NumberState(r.vars.state) && r.vars.sign == v.sign) &&
      (r.Emit? ==>
         r.token.kind.Numeric? && (r.token.kind.n.sign == v.sign || r.token.kind.n == Number(1, "NaN")))
  {
  }

  /** Once in a number, the sign is never changed again: every numeric token the
      loop returns carries the sign it had on entry (NaN aside, which is unsigned). */
  lemma {:induction false} NumberKeepsSign(u: UnicodeTables, src: string, ps: ParseState, cur: Cursor, v: LexVars)
    requires cur.pos <= |src|
    requires NumberState(v.state)
    ensures var r := Lex(u, src, ps, cur, v);
      r.Ok? ==> (r.value.0.kind.Numeric? &&
        (r.value.0.kind.n.sign == v.sign || r.value.0.kind.n == Number(1, "NaN")))
    decreases Measure(src, cur, v)
  {
    StepDecreases(u, src, ps, cur, v);
    NumberStepKeepsSign(u, src, ps, cur, v);
    match LexStep(u, src, ps, cur, v)
    case Continue(next, w) => NumberKeepsSign(u, src, ps, next, w);
    case Emit(_, _) =>
    case Throw(_) =>
  }

  // ---------------------------------------------------------------- escapes

  /** `\0` followed by a digit, and `\1` to `\9`, are errors. */
  lemma DigitEscapesRejected(src: string, cur: Cursor)
    requires cur.pos < |src| && IsDigit(src[cur.pos])
    requires src[cur.pos] == '0' ==> IsDigitOpt(Peek(src, cur.pos + 1))
    ensures Escape(src, cur).Err? && Escape(src, cur).error.kind.InvalidChar?
    ensures Escape(src, cur).error.kind.c ==
      if src[cur.pos] == '0' then src[cur.pos + 1] else src[cur.pos]
  {
  }

  /** `\0` not followed by a digit is the NUL character. */
  lemma NulEscape(src: string, cur: Cursor)
    requires cur.pos < |src| && src[cur.pos] == '0' && !IsDigitOpt(Peek(src, cur.pos + 1))
    ensures Escape(src, cur) == Ok(("\0", Advance(src, cur)))
  {
  }

  /** `\x` takes exactly two hex digits and yields the character they spell. */
  lemma HexEscapeExact(src: string, cur: Cursor)
    requires cur.pos < |src| && src[cur.pos] == 'x'
    ensures var r := Escape(src, cur);
      (r.Ok? <==> cur.pos + 3 <= |src| && AllHexDigits(src[cur.pos + 1..cur.pos + 3])) &&
      (r.Ok? ==> r.value.1.pos == cur.pos + 3 && |r.value.0| == 1 &&
                 r.value.0[0] as int == HexValue(src[cur.pos + 1..cur.pos + 3]))
  {
  }

  /** `\u` takes exactly four hex digits; anything else is a syntax error. Four
      digits that spell a character other than a surrogate yield that character. */
  lemma UnicodeEscapeExact(src: string, cur: Cursor)
    requires cur.pos < |src| && src[cur.pos] == 'u'
    ensures var r := Escape(src, cur);
      var digits := cur.pos + 5 <= |src| && AllHexDigits(src[cur.pos + 1..cur.pos + 5]);
      (!digits ==> r.Err? && r.error.kind != UnrepresentableEscape) &&
      (digits && !IsSurrogate(HexValue(src[cur.pos + 1..cur.pos + 5])) ==>
         r.Ok? && r.value.1.pos == cur.pos + 5 && |r.value.0| == 1 &&
         r.value.0[0] as int == HexValue(src[cur.pos + 1..cur.pos + 5]))
  {
    EscapeUnicode(src, cur);
  }

  /** `\u` in a string hands over to the reading of its code unit. */
  lemma EscapeUnicode(src: string, cur: Cursor)
    requires cur.pos < |src| && src[cur.pos] == 'u'
    ensures Advance(src, cur) == Cursor(cur.pos + 1, cur.line, cur.column + 1)
    ensures Escape(src, cur) == StringUnicodeEscape(src, Advance(src, cur))
  {
  }

  /** An escaped surrogate pair, `\uD83D\uDE00` say, yields the one character
      whose UTF-16 encoding is the two escaped code units. */
  lemma SurrogatePairEscape(src: string, cur: Cursor)
    requires cur.pos + 11 <= |src| && src[cur.pos] == 'u' && src[cur.pos + 5] == '\\' && src[cur.pos + 6] == 'u'
    requires AllHexDigits(src[cur.pos + 1..cur.pos + 5]) && AllHexDigits(src[cur.pos + 7..cur.pos + 11])
    requires IsHighSurrogate(HexValue(src[cur.pos + 1..cur.pos + 5]))
    requires IsLowSurrogate(HexValue(src[cur.pos + 7..cur.pos + 11]))
    ensures var r := Escape(src, cur);
      r.Ok? && r.value.1.pos == cur.pos + 11 && |r.value.0| == 1 &&
      Utf16Units(r.value.0[0]) == [HexValue(src[cur.pos + 1..cur.pos + 5]), HexValue(src[cur.pos + 7..cur.pos + 11])]
  {
    EscapeUnicode(src, cur);
    StringSurrogatePair(src, Advance(src, cur));
  }

  /** The same, from the first hex digit of the high surrogate. */
  lemma StringSurrogatePair(src: string, cur: Cursor)
    requires cur.pos + 10 <= |src| && src[cur.pos + 4] == '\\' && src[cur.pos + 5] == 'u'
    requires AllHexDigits(src[cur.pos..cur.pos + 4]) && AllHexDigits(src[cur.pos + 6..cur.pos + 10])
    requires IsHighSurrogate(HexValue(src[cur.pos..cur.pos + 4]))
    requires IsLowSurrogate(HexValue(src[cur.pos + 6..cur.pos + 10]))
    ensures var r := StringUnicodeEscape(src, cur);
      r.Ok? && r.value.1.pos == cur.pos + 10 && |r.value.0| == 1 &&
      Utf16Units(r.value.0[0]) == [HexValue(src[cur.pos..cur.pos + 4]), HexValue(src[cur.pos + 6..cur.pos + 10])]
  {
    var hi := HexValue(src[cur.pos..cur.pos + 4]);
    var lo := HexValue(src[cur.pos + 6..cur.pos + 10]);
    PairCodePointUnits(hi, lo);
    var after := UnicodeEscape(src, cur).value.1;
    assert after.pos == cur.pos + 4;
    var second := Advance(src, Advance(src, after));
    assert second.pos == cur.pos + 6;
    assert UnicodeEscape(src, second).Ok?;
  }

  /** In an identifier, `\u` naming a surrogate is `invalidIdentifier`: the
      generated ID_Start and ID_Continue expressions match surrogates only in
      pairs, so `isIdStartChar` and `isIdContinueChar` reject a lone one. */
  lemma IdentifierSurrogateEscape(u: UnicodeTables, src: string, cur: Cursor, v: LexVars)
    requires cur.pos + 5 <= |src| && src[cur.pos] == 'u'
    requires AllHexDigits(src[cur.pos + 1..cur.pos + 5]) && IsSurrogate(HexValue(src[cur.pos + 1..cur.pos + 5]))
    ensures var r := IdentifierNameStartEscapeState(u, src, cur, v);
      r.Throw? && r.error == SyntaxError(InvalidIdentifierChar, cur.line, cur.column)
    ensures var r := IdentifierNameEscapeState(u, src, cur, v);
      r.Throw? && r.error == SyntaxError(InvalidIdentifierChar, cur.line, cur.column)
  {
    assert UnicodeEscape(src, Advance(src, cur)).Ok?;
  }

  /** A backslash before a line terminator contributes nothing; CR LF counts as one
      terminator. */
  lemma LineContinuation(src: string, cur: Cursor)
    requires cur.pos < |src| && IsLineTerminator(src[cur.pos])
    ensures var r := Escape(src, cur);
      r.Ok? && r.value.0 == "" &&
      r.value.1.pos == if src[cur.pos] == '\r' && Peek(src, cur.pos + 1) == Some('\n') then cur.pos + 2 else cur.pos + 1
  {
  }

  // ---------------------------------------------------------------- unterminated input

  /** A raw line feed or carriage return inside a string is an error, and so is the
      end of the input. */
  lemma StringNeedsClosingQuote(u: UnicodeTables, src: string, ps: ParseState, cur: Cursor, v: LexVars)
    requires cur.pos <= |src| && v.state == String
    requires Peek(src, cur.pos) in {None, Some('\n'), Some('\r')}
    ensures var r := LexStep(u, src, ps, cur, v);
      r.Throw? && r.error == InvalidCharAt(src, cur) &&
      (cur.pos == |src| ==> r.error.kind == InvalidEndOfInput)
  {
  }

  /** No `*` directly followed by `/` from position p on. */
  predicate NoCommentClose(src: string, p: nat) {
    forall i :: p <= i && i + 1 < |src| ==> !(src[i] == '*' && src[i + 1] == '/')
  }

  /** A block comment that is never closed ends in an invalid-end-of-input error. */
  lemma {:induction false} UnterminatedBlockComment(u: UnicodeTables, src: string, ps: ParseState, cur: Cursor, v: LexVars)
    requires cur.pos <= |src| && NoCommentClose(src, cur.pos)
    requires v.state == MultiLineComment ||
             (v.state == MultiLineCommentAsterisk && Peek(src, cur.pos) != Some('/'))
    ensures var r := Lex(u, src, ps, cur, v);
      r.Err? && r.error.kind == InvalidEndOfInput
    decreases |src| - cur.pos
  {
    StepDecreases(u, src, ps, cur, v);
    match LexStep(u, src, ps, cur, v)
    case Continue(next, w) =>
      assert next.pos == cur.pos + 1;
      assert w.state == MultiLineCommentAsterisk ==> src[cur.pos] == '*';
      UnterminatedBlockComment(u, src, ps, next, w);
    case Emit(_, _) =>
    case Throw(_) =>
  }

  predicate NoLineTerminator(src: string, p: nat) {
    forall i :: p <= i < |src| ==> !IsLineTerminator(src[i])
  }

  /** A line comment that runs to the end of the input ends with an `eof` token. */
  lemma {:induction false} LineCommentEndsAtEof(u: UnicodeTables, src: string, ps: ParseState, cur: Cursor, v: LexVars)
    requires cur.pos <= |src| && NoLineTerminator(src, cur.pos) && v.state == SingleLineComment
    ensures var r := Lex(u, src, ps, cur, v);
      r.Ok? && r.value.0.kind == Eof && r.value.1.pos == |src|
    decreases |src| - cur.pos
  {
    StepDecreases(u, src, ps, cur, v);
    match LexStep(u, src, ps, cur, v)
    case Continue(next, w) => LineCommentEndsAtEof(u, src, ps, next, w);
    case Emit(_, _) =>
    case Throw(_) =>
  }

  // ---------------------------------------------------------------- hex literal at end of input

  /** `hexadecimalInteger` as written: `util.isHexDigit(undefined)` holds, and
      `buffer += read()` then appends "undefined" without moving the cursor. */
  function HexadecimalIntegerStateAsWritten(src: string, cur: Cursor, v: LexVars): (r: Step)
    requires cur.pos <= |src|
    ensures r.Continue? ==> r.vars.state == HexadecimalInteger
  {
    var c := Peek(src, cur.pos);
    if IsHexDigitAsWritten(c) then
      Continue(Advance(src, cur), v.(state := HexadecimalInteger, buffer := v.buffer + JsString(c)))
    else EmitHere(cur, Numeric(Number(v.sign, v.buffer)))
  }

  /** `hexadecimal` as written. */
  function HexadecimalStateAsWritten(src: string, cur: Cursor, v: LexVars): (r: Step)
    requires cur.pos <= |src|
    ensures r.Continue? ==> r.vars.state == HexadecimalInteger
  {
    var c := Peek(src, cur.pos);
    if IsHexDigitAsWritten(c) then
      Continue(Advance(src, cur), v.(state := HexadecimalInteger, buffer := v.buffer + JsString(c)))
    else Throw(InvalidCharAt(src, cur))
  }

  /** k turns of the loop in `lex()` in the hex states, as written. */
  function HexRunAsWritten(src: string, cur: Cursor, v: LexVars, k: nat): Step
    requires cur.pos <= |src| && (v.state == Hexadecimal || v.state == HexadecimalInteger)
    decreases k
  {
    if k == 0 then Continue(cur, v)
    else
      var r := if v.state == Hexadecimal then HexadecimalStateAsWritten(src, cur, v)
               else HexadecimalIntegerStateAsWritten(src, cur, v);
      match r
      case Continue(next, w) => if next.pos <= |src| then HexRunAsWritten(src, next, w, k - 1) else r
      case _ => r
  }

  /** As written, a hex literal that ends the input (`0x`, `0x1F`) makes no
      progress: after any number of turns the lexer is still in
      `hexadecimalInteger` at the end of the input, having appended "undefined"
      once per turn. An engine stops this only when the buffer outgrows its
      maximum string length and throws a `RangeError`, which unbounded strings
      do not model. */
  lemma {:induction false} HexLiteralAtEndLoopsAsWritten(src: string, cur: Cursor, v: LexVars, k: nat)
    requires cur.pos == |src| && (v.state == Hexadecimal || v.state == HexadecimalInteger)
    ensures var r := HexRunAsWritten(src, cur, v, k);
      r.Continue? && r.cur.pos == |src| && |r.vars.buffer| == |v.buffer| + 9 * k &&
      (k > 0 ==> r.vars.state == HexadecimalInteger)
    decreases k
  {
    if k > 0 {
      HexDigitAsWrittenAgrees(None);
      var w := v.(state := HexadecimalInteger, buffer := v.buffer + "undefined");
      var next := Advance(src, cur);
      assert HexRunAsWritten(src, cur, v, k) == HexRunAsWritten(src, next, w, k - 1);
      HexLiteralAtEndLoopsAsWritten(src, next, w, k - 1);
    }
  }

  /** With the guarded hex test the model uses, `0x` at the end of the input is an
      invalid-end-of-input error, and a complete hex literal ending the input is
      returned as a numeric token. */
  lemma HexLiteralAtEndCorrected(u: UnicodeTables, src: string, ps: ParseState, cur: Cursor, v: LexVars)
    requires cur.pos == |src| && (v.state == Hexadecimal || v.state == HexadecimalInteger)
    ensures var r := LexStep(u, src, ps, cur, v);
      (v.state == Hexadecimal ==> r.Throw? && r.error.kind == InvalidEndOfInput) &&
      (v.state == HexadecimalInteger ==> r == Emit(Token(Numeric(Number(v.sign, v.buffer)), cur.line, cur.column), cur))
  {
  }

  // ---------------------------------------------------------------- hex escapes at end of input

  /** How `hexEscape()` and `unicodeEscape()` end: `String.fromCodePoint` of a code,
      a syntax error thrown while reading the digits, or the RangeError that
      `String.fromCodePoint(NaN)` throws, which carries no line or column. */
  datatype EscapeOutcome = Code(code: nat, next: Cursor) | Thrown(error: SyntaxError) | RangeError

  /** The n reads of `hexEscape()` (n = 2) and of the loop in `unicodeEscape()`
      (n = 4) as written: `util.isHexDigit` as written accepts the end of the
      input, where `buffer += read()` appends "undefined" and the cursor stays. */
  function HexBufferAsWritten(src: string, cur: Cursor, n: nat): (r: Result<(string, Cursor), SyntaxError>)
    requires cur.pos <= |src|
    ensures r.Ok? ==> r.value.1.pos <= |src|
    decreases n
  {
    if n == 0 then Ok(([], cur))
    else
      var c := Peek(src, cur.pos);
      if !IsHexDigitAsWritten(c) then Err(InvalidCharAt(src, cur))
      else
        match HexBufferAsWritten(src, Advance(src, cur), n - 1)
        case Ok((b, next)) => Ok((JsString(c) + b, next))
        case Err(e) => Err(e)
  }

  /** "undefined" k times: what k reads past the end add to the buffer. */
  function UndefinedTimes(k: nat): (s: string)
    ensures |s| == 9 * k
  {
    if k == 0 then "" else "undefined" + UndefinedTimes(k - 1)
  }

  /** The number of hex digits at the start of s. */
  function HexPrefixLength(s: string): (n: nat)
    ensures n <= |s| && AllHexDigits(s[..n]) && (n < |s| ==> !IsHexDigit(s[n]))
  {
    if s == [] || !IsHexDigit(s[0]) then 0
    else
      var n := 1 + HexPrefixLength(s[1..]);
      assert forall k :: 1 <= k < n ==> s[..n][k] == s[1..][..n - 1][k - 1];
      n
  }

  /** `parseInt(s, 16)` on the buffers of `hexEscape` and `unicodeEscape`, which
      start with a hex digit or with the "u" of "undefined" (never with white
      space, a sign or `0x`): the value of the leading hex digits, or NaN (none)
      when there are none. */
  function ParseIntHex(s: string): (r: Option<nat>)
    ensures r.None? <==> s == [] || !IsHexDigit(s[0])
  {
    var n := HexPrefixLength(s);
    if n == 0 then None else Some(HexValue(s[..n]))
  }

  /** `String.fromCodePoint(parseInt(buffer, 16))` after the n reads, as written. */
  function HexCodeAsWritten(src: string, cur: Cursor, n: nat): EscapeOutcome
    requires cur.pos <= |src|
  {
    match HexBufferAsWritten(src, cur, n)
    case Err(e) => Thrown(e)
    case Ok((buffer, next)) =>
      match ParseIntHex(buffer)
      case None => RangeError
      case Some(code) => Code(code, next)
  }

  /** The model's reads (`HexDigits`, which `HexEscape` and `UnicodeEscape` use),
      as the same kind of outcome. */
  function HexCodeModel(src: string, cur: Cursor, n: nat): EscapeOutcome
    requires cur.pos <= |src|
  {
    match HexDigits(src, cur, n)
    case Err(e) => Thrown(e)
    case Ok((ds, next)) => Code(HexValue(ds), next)
  }

  /** The reads as written and the model's differ only where every character
      left is a hex digit and fewer than n are left. */
  lemma {:induction false} HexBufferAgrees(src: string, cur: Cursor, n: nat)
    requires cur.pos <= |src| && !(|src| < cur.pos + n && AllHexDigits(src[cur.pos..]))
    ensures HexBufferAsWritten(src, cur, n) == HexDigits(src, cur, n)
    decreases n
  {
    if n > 0 {
      HexDigitAsWrittenAgrees(Peek(src, cur.pos));
      if cur.pos < |src| && IsHexDigit(src[cur.pos]) {
        AllHexDigitsCons(src[cur.pos..]);
        assert src[cur.pos..][1..] == src[cur.pos + 1..];
        HexBufferAgrees(src, Advance(src, cur), n - 1);
      }
    }
  }

  lemma {:induction false} HexPrefixOfDigits(s: string, rest: string)
    requires AllHexDigits(s) && (rest == [] || !IsHexDigit(rest[0]))
    ensures HexPrefixLength(s + rest) == |s|
    decreases |s|
  {
    if s != [] {
      AllHexDigitsCons(s);
      assert (s + rest)[1..] == s[1..] + rest;
      HexPrefixOfDigits(s[1..], rest);
    }
  }

  /** Where they agree on the reads, the outcomes agree too: `parseInt` of a
      complete digit string is its value. */
  lemma HexCodeAgrees(src: string, cur: Cursor, n: nat)
    requires 0 < n && cur.pos <= |src| && !(|src| < cur.pos + n && AllHexDigits(src[cur.pos..]))
    ensures HexCodeAsWritten(src, cur, n) == HexCodeModel(src, cur, n)
  {
    HexBufferAgrees(src, cur, n);
    match HexDigits(src, cur, n)
    case Err(_) =>
    case Ok((ds, next)) =>
      HexPrefixOfDigits(ds, []);
      assert ds + [] == ds && ds[..|ds|] == ds;
  }

  /** As written, the reads run off the end of a text that ends inside the
      digits: every read past the end appends "undefined", adds one to the
      column, and leaves the position at the end. */
  lemma {:induction false} HexBufferAtEnd(src: string, cur: Cursor, n: nat)
    requires cur.pos <= |src| < cur.pos + n && AllHexDigits(src[cur.pos..])
    ensures var r := HexBufferAsWritten(src, cur, n);
      r == Ok((src[cur.pos..] + UndefinedTimes(cur.pos + n - |src|), Cursor(|src|, cur.line, cur.column + n)))
    decreases n
  {
    HexDigitAsWrittenAgrees(Peek(src, cur.pos));
    var next := Advance(src, cur);
    if cur.pos < |src| {
      AllHexDigitsCons(src[cur.pos..]);
      assert src[cur.pos..][1..] == src[cur.pos + 1..];
      assert next == Cursor(cur.pos + 1, cur.line, cur.column + 1);
      HexBufferAtEnd(src, next, n - 1);
      var tail := UndefinedTimes(cur.pos + n - |src|);
      assert HexBufferAsWritten(src, next, n - 1) == Ok((src[cur.pos + 1..] + tail, Cursor(|src|, cur.line, cur.column + n)));
      assert src[cur.pos..] + tail == JsString(Some(src[cur.pos])) + (src[cur.pos + 1..] + tail);
    } else {
      HexBufferPastEnd(src, cur, n);
      assert src[cur.pos..] + UndefinedTimes(n) == UndefinedTimes(n);
    }
  }

  /** Reads at the end of the input append "undefined" each. */
  lemma {:induction false} HexBufferPastEnd(src: string, cur: Cursor, n: nat)
    requires cur.pos == |src|
    ensures HexBufferAsWritten(src, cur, n) == Ok((UndefinedTimes(n), Cursor(|src|, cur.line, cur.column + n)))
    decreases n
  {
    if n > 0 {
      HexDigitAsWrittenAgrees(None);
      var next := Advance(src, cur);
      HexBufferPastEnd(src, next, n - 1);
      assert UndefinedTimes(n) == JsString(None) + UndefinedTimes(n - 1);
    }
  }

  /** The as-written side of the finding: an escape cut short by the end of the
      input (`"\x4`, `"\u12`) yields the code its digits spell, with the cursor
      at the end and the column advanced as if n characters had been read; with
      no digit at all (`"\x`, `"\u`) it throws a RangeError. */
  lemma EscapeAtEndAsWritten(src: string, cur: Cursor, n: nat)
    requires cur.pos <= |src| < cur.pos + n && AllHexDigits(src[cur.pos..])
    ensures var r := HexCodeAsWritten(src, cur, n);
      (cur.pos == |src| ==> r == RangeError) &&
      (cur.pos < |src| ==> r == Code(HexValue(src[cur.pos..]), Cursor(|src|, cur.line, cur.column + n)))
  {
    HexBufferAtEnd(src, cur, n);
    var tail := UndefinedTimes(cur.pos + n - |src|);
    assert tail[0] == 'u';
    HexPrefixOfDigits(src[cur.pos..], tail);
    assert (src[cur.pos..] + tail)[..|src| - cur.pos] == src[cur.pos..];
  }

  /** The corrected side: the model's reads report the end of the input as an
      invalid-end-of-input error right after the last digit, and `HexEscape` and
      `UnicodeEscape` pass that error on. */
  lemma {:induction false} EscapeAtEndCorrected(src: string, cur: Cursor, n: nat)
    requires cur.pos <= |src| < cur.pos + n && AllHexDigits(src[cur.pos..])
    ensures var e := SyntaxError(InvalidEndOfInput, cur.line, cur.column + (|src| - cur.pos) + 1);
      HexDigits(src, cur, n) == Err(e) &&
      (n == 2 ==> HexEscape(src, cur) == Err(e)) &&
      (n == 4 ==> UnicodeEscape(src, cur) == Err(e))
    decreases n
  {
    if cur.pos < |src| {
      AllHexDigitsCons(src[cur.pos..]);
      assert src[cur.pos..][1..] == src[cur.pos + 1..];
      EscapeAtEndCorrected(src, Advance(src, cur), n - 1);
    }
  }

  // ---------------------------------------------------------------- whole tokens

  const Origin := Cursor(0, 1, 0)
  const Ascii := UnicodeTables({}, {})

  /** A step that continues hands the rest of `lex()` to the next state. */
  lemma Continues(u: UnicodeTables, src: string, ps: ParseState, cur: Cursor, v: LexVars, next: Cursor, w: LexVars)
    requires cur.pos <= |src| && LexStep(u, src, ps, cur, v) == Continue(next, w)
    ensures next.pos <= |src| && Lex(u, src, ps, cur, v) == Lex(u, src, ps, next, w)
  {
    StepDecreases(u, src, ps, cur, v);
  }

  /** The steps `lex()` takes on `-5`: `default` hands over to `value`, which
      reads the sign, `sign` reads the digit, and `decimalInteger` ends the
      number at the end of the input. */
  lemma NegativeNumberSteps()
    ensures LexStep(Ascii, "-5", Start, Origin, InitialVars) == Continue(Origin, InitialVars.(state := Value))
    ensures LexStep(Ascii, "-5", Start, Origin, InitialVars.(state := Value)) ==
      Continue(Cursor(1, 1, 1), InitialVars.(state := Sign, sign := -1))
    ensures LexStep(Ascii, "-5", Start, Cursor(1, 1, 1), InitialVars.(state := Sign, sign := -1)) ==
      Continue(Cursor(2, 1, 2), InitialVars.(state := DecimalInteger, buffer := "5", sign := -1))
    ensures LexStep(Ascii, "-5", Start, Cursor(2, 1, 2), InitialVars.(state := DecimalInteger, buffer := "5", sign := -1)) ==
      Emit(Token(Numeric(Number(-1, "5")), 1, 2), Cursor(2, 1, 2))
  {
  }

  /** `-5` at the top level is the number 5 with sign multiplier -1. */
  lemma NegativeNumberExample()
    ensures NextToken(Ascii, "-5", Start, Origin) == Ok((Token(Numeric(Number(-1, "5")), 1, 2), Cursor(2, 1, 2)))
  {
    var src := "-5";
    var v1 := InitialVars.(state := Value);
    var v2 := InitialVars.(state := Sign, sign := -1);
    var v3 := InitialVars.(state := DecimalInteger, buffer := "5", sign := -1);
    NegativeNumberSteps();
    Continues(Ascii, src, Start, Origin, InitialVars, Origin, v1);
    Continues(Ascii, src, Start, Origin, v1, Cursor(1, 1, 1), v2);
    Continues(Ascii, src, Start, Cursor(1, 1, 1), v2, Cursor(2, 1, 2), v3);
  }

  /** The steps `lex()` takes on `.e`: `default` hands over to `value`, which
      reads the dot, and `decimalPointLeading` rejects the `e`. */
  lemma LeadingDotSteps()
    ensures LexStep(Ascii, ".e", Start, Origin, InitialVars) == Continue(Origin, InitialVars.(state := Value))
    ensures LexStep(Ascii, ".e", Start, Origin, InitialVars.(state := Value)) ==
      Continue(Cursor(1, 1, 1), InitialVars.(state := DecimalPointLeading, buffer := "."))
    ensures LexStep(Ascii, ".e", Start, Cursor(1, 1, 1), InitialVars.(state := DecimalPointLeading, buffer := ".")) ==
      Throw(SyntaxError(InvalidChar('e'), 1, 2))
  {
  }

  /** `.e` is rejected at the `e`, reported at line 1, column 2. */
  lemma LeadingDotExample()
    ensures NextToken(Ascii, ".e", Start, Origin) == Err(SyntaxError(InvalidChar('e'), 1, 2))
  {
    var src := ".e";
    var v1 := InitialVars.(state := Value);
    var v2 := InitialVars.(state := DecimalPointLeading, buffer := ".");
    LeadingDotSteps();
    Continues(Ascii, src, Start, Origin, InitialVars, Origin, v1);
    Continues(Ascii, src, Start, Origin, v1, Cursor(1, 1, 1), v2);
  }
}
