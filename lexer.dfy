/** The JSON5 lexer of wica.js: `peek`, `read`, the `lexStates` handlers and the
    helpers `literal`, `escape`, `hexEscape` and `unicodeEscape`.

    The source keeps the cursor (`pos`, `line`, `column`) and the per-token
    variables (`lexState`, `buffer`, `doubleQuote`, `sign`) in module-level
    variables that each handler updates. Here a handler is a transition function
    from a Cursor and the per-token LexVars to a Step: continue with new values,
    emit a token (the handler returned one), or throw. The text is a sequence of
    code points; `pos` counts code points, `column` counts UTF-16 code units as
    the source's `c.length` does. */
module Json5Lexer {
  import opened Wrappers
  import opened Json5Util
  import opened Json5Values

  datatype ParseState =
    | Start | BeforePropertyName | AfterPropertyName | BeforePropertyValue
    | BeforeArrayValue | AfterPropertyValue | AfterArrayValue | End

  datatype LexState =
    | Default | Comment | MultiLineComment | MultiLineCommentAsterisk | SingleLineComment
    | Value | IdentifierNameStartEscape | IdentifierName | IdentifierNameEscape
    | Sign | Zero | DecimalInteger | DecimalPointLeading | DecimalPoint | DecimalFraction
    | DecimalExponent | DecimalExponentSign | DecimalExponentInteger
    | Hexadecimal | HexadecimalInteger | String

  datatype Cursor = Cursor(pos: nat, line: nat, column: int)

  datatype TokenKind =
    | Punctuator(p: char) | Identifier(name: string) | StringToken(text: string)
    | Numeric(n: Number) | BooleanToken(b: bool) | NullToken | Eof

  datatype Token = Token(kind: TokenKind, line: nat, column: int)

  /** The syntax errors the lexer and parser raise. `InvalidChar` and
      `InvalidEndOfInput` are `invalidChar` / `invalidEOF`; `InvalidIdentifierChar`
      is `invalidIdentifier`. `UnrepresentableEscape` exists only in the model: a
      `\uXXXX` escape in a string naming a UTF-16 surrogate that is not paired by
      the escape right after it, which a code-point string cannot hold. */
  datatype ErrorKind = InvalidChar(c: char) | InvalidEndOfInput | InvalidIdentifierChar | UnrepresentableEscape

  datatype SyntaxError = SyntaxError(kind: ErrorKind, line: nat, column: int)

  /** The variables `lex()` resets before every token. */
  datatype LexVars = LexVars(state: LexState, buffer: string, doubleQuote: bool, sign: int)

  const InitialVars := LexVars(Default, "", false, 1)

  datatype Step = Continue(cur: Cursor, vars: LexVars) | Emit(token: Token, cur: Cursor) | Throw(error: SyntaxError)

  // ---------------------------------------------------------------- peek / read

  /** `peek()`: the code point at the cursor, or `undefined` at the end. */
  function Peek(src: string, pos: nat): (c: Option<char>)
    ensures c.Some? <==> pos < |src|
    ensures c.Some? ==> c.value == src[pos]
  {
    if pos < |src| then Some(src[pos]) else None
  }

  /** The cursor after `read()`: a newline starts a new line at column 0; any other
      code point advances the column by its UTF-16 length; at the end of the input
      the position stays put but the column still advances by one. */
  function Advance(src: string, cur: Cursor): (next: Cursor)
    ensures next.pos == if cur.pos < |src| then cur.pos + 1 else cur.pos
    ensures next.line == if Peek(src, cur.pos) == Some('\n') then cur.line + 1 else cur.line
  {
    match Peek(src, cur.pos)
    case Some(c) =>
      if c == '\n' then Cursor(cur.pos + 1, cur.line + 1, 0)
      else Cursor(cur.pos + 1, cur.line, cur.column + Utf16Length(c))
    case None => Cursor(cur.pos, cur.line, cur.column + 1)
  }

  /** `invalidChar(read())`: the error reports the character read (or the end of
      input) at the position after reading it. */
  function InvalidCharAt(src: string, cur: Cursor): SyntaxError {
    var next := Advance(src, cur);
    match Peek(src, cur.pos)
    case None => SyntaxError(InvalidEndOfInput, next.line, next.column)
    case Some(c) => SyntaxError(InvalidChar(c), next.line, next.column)
  }

  /** `newToken(type, read())`: read the character, then stamp the token. */
  function EmitAfterRead(src: string, cur: Cursor, kind: TokenKind): Step {
    var next := Advance(src, cur);
    Emit(Token(kind, next.line, next.column), next)
  }

  /** `newToken(type, value)` without reading. */
  function EmitHere(cur: Cursor, kind: TokenKind): Step {
    Emit(Token(kind, cur.line, cur.column), cur)
  }

  // ---------------------------------------------------------------- helpers

  /** `literal(s)`: each expected character must be next in the input. */
  function Literal(src: string, cur: Cursor, s: string): (r: Result<Cursor, SyntaxError>)
    requires cur.pos <= |src|
    ensures r.Ok? <==> cur.pos + |s| <= |src| && src[cur.pos..cur.pos + |s|] == s
    ensures r.Ok? ==> r.value.pos == cur.pos + |s|
    decreases |s|
  {
    if s == [] then Ok(cur)
    else if Peek(src, cur.pos) != Some(s[0]) then Err(InvalidCharAt(src, cur))
    else
      var r := Literal(src, Advance(src, cur), s[1..]);
      assert r.Ok? ==> src[cur.pos..cur.pos + |s|] == [s[0]] + src[cur.pos + 1..cur.pos + |s|];
      r
  }

  /** n characters from p on are hex digits exactly when the first is one and the
      following n - 1 are. */
  lemma HexDigitsSplit(src: string, p: nat, n: nat)
    requires 0 < n && p < |src|
    ensures p + n <= |src| ==>
      src[p..p + n] == [src[p]] + src[p + 1..p + n] &&
      (AllHexDigits(src[p..p + n]) <==> IsHexDigit(src[p]) && AllHexDigits(src[p + 1..p + n]))
  {
    if p + n <= |src| {
      var digits := src[p..p + n];
      assert digits[0] == src[p] && digits[1..] == src[p + 1..p + n];
      AllHexDigitsCons(digits);
    }
  }

  /** `n` hex digits, as read by `hexEscape` (n = 2) and `unicodeEscape` (n = 4);
      the first character that is not a hex digit is reported with
      `invalidChar(read())`. */
  function HexDigits(src: string, cur: Cursor, n: nat): (r: Result<(string, Cursor), SyntaxError>)
    requires cur.pos <= |src|
    ensures r.Ok? <==> cur.pos + n <= |src| && AllHexDigits(src[cur.pos..cur.pos + n])
    ensures r.Ok? ==> r.value.0 == src[cur.pos..cur.pos + n] && r.value.1.pos == cur.pos + n
    ensures r.Err? ==> r.error.kind.InvalidChar? || r.error.kind.InvalidEndOfInput?
    decreases n
  {
    if n == 0 then Ok(([], cur))
    else if !IsHexDigitOpt(Peek(src, cur.pos)) then
      assert cur.pos + n <= |src| ==> !IsHexDigit(src[cur.pos..cur.pos + n][0]);
      Err(InvalidCharAt(src, cur))
    else
      var r := HexDigits(src, Advance(src, cur), n - 1);
      HexDigitsSplit(src, cur.pos, n);
      match r
      case Ok((ds, next)) => Ok(([src[cur.pos]] + ds, next))
      case Err(e) => Err(e)
  }

  /** `hexEscape()`: `\x` followed by exactly two hex digits. */
  function HexEscape(src: string, cur: Cursor): (r: Result<(char, Cursor), SyntaxError>)
    requires cur.pos <= |src|
    ensures r.Ok? <==> cur.pos + 2 <= |src| && AllHexDigits(src[cur.pos..cur.pos + 2])
    ensures r.Ok? ==> (r.value.1.pos == cur.pos + 2 &&
      r.value.0 as int == HexValue(src[cur.pos..cur.pos + 2]))
  {
    match HexDigits(src, cur, 2)
    case Err(e) => Err(e)
    case Ok((ds, next)) =>
      assert Pow16(2) == 256;
      Ok((HexValue(ds) as char, next))
  }

  /** `unicodeEscape()`: exactly four hex digits, giving the UTF-16 code unit they
      spell (`String.fromCodePoint` of it is a one-unit string). */
  function UnicodeEscape(src: string, cur: Cursor): (r: Result<(nat, Cursor), SyntaxError>)
    requires cur.pos <= |src|
    ensures r.Ok? <==> cur.pos + 4 <= |src| && AllHexDigits(src[cur.pos..cur.pos + 4])
    ensures r.Ok? ==> (r.value.1.pos == cur.pos + 4 && r.value.0 < 0x10000 &&
      r.value.0 == HexValue(src[cur.pos..cur.pos + 4]))
  {
    match HexDigits(src, cur, 4)
    case Err(e) => Err(e)
    case Ok((ds, next)) =>
      assert Pow16(4) == 65536;
      Ok((HexValue(ds), next))
  }

  /** The second half of an escaped surrogate pair: `\u` and four hex digits
      right after a high-surrogate escape. Returns none when the next two
      characters are not `\u`. */
  function FollowingUnicodeEscape(src: string, cur: Cursor): (r: Option<Result<(nat, Cursor), SyntaxError>>)
    requires cur.pos <= |src|
    ensures r.Some? <==> cur.pos + 2 <= |src| && src[cur.pos] == '\\' && src[cur.pos + 1] == 'u'
    ensures r.Some? && r.value.Ok? ==> cur.pos + 2 < r.value.value.1.pos <= |src|
  {
    if cur.pos + 2 <= |src| && src[cur.pos] == '\\' && src[cur.pos + 1] == 'u' then
      Some(UnicodeEscape(src, Advance(src, Advance(src, cur))))
    else None
  }

  /** `\u` inside a string: the code unit `unicodeEscape()` reads, which the
      string's buffer holds as a character unless it is a surrogate. A high
      surrogate followed at once by a `\u` escape of a low surrogate makes up one
      astral character, as the two units do when the buffer concatenates them. */
  function StringUnicodeEscape(src: string, cur: Cursor): (r: Result<(string, Cursor), SyntaxError>)
    requires cur.pos <= |src|
    ensures r.Ok? ==> cur.pos < r.value.1.pos <= |src| && |r.value.0| == 1
  {
    match UnicodeEscape(src, cur)
    case Err(e) => Err(e)
    case Ok((code, after)) =>
      if !IsSurrogate(code) then Ok(([code as char], after))
      else if !IsHighSurrogate(code) then Err(SyntaxError(UnrepresentableEscape, after.line, after.column))
      else
        match FollowingUnicodeEscape(src, after)
        case None => Err(SyntaxError(UnrepresentableEscape, after.line, after.column))
        case Some(Err(e)) => Err(e)
        case Some(Ok((low, end))) =>
          if IsLowSurrogate(low) then Ok(([PairCodePoint(code, low)], end))
          else Err(SyntaxError(UnrepresentableEscape, after.line, after.column))
  }

  predicate IsLineTerminatorEscape(c: char) {
    c == '\n' || c == '\U{2028}' || c == '\U{2029}'
  }

  /** `escape()`: the character after a backslash inside a string. Returns the text
      the escape contributes to the string. */
  function Escape(src: string, cur: Cursor): (r: Result<(string, Cursor), SyntaxError>)
    requires cur.pos <= |src|
    ensures r.Ok? ==> cur.pos < r.value.1.pos <= |src|
    decreases |src| - cur.pos
  {
    match Peek(src, cur.pos)
    case None => Err(InvalidCharAt(src, cur))
    case Some(c) =>
      var next := Advance(src, cur);
      if c == 'b' then Ok(("\U{8}", next))
      else if c == 'f' then Ok(("\U{C}", next))
      else if c == 'n' then Ok(("\n", next))
      else if c == 'r' then Ok(("\r", next))
      else if c == 't' then Ok(("\t", next))
      else if c == 'v' then Ok(("\U{B}", next))
      else if c == '0' then
        if IsDigitOpt(Peek(src, next.pos)) then Err(InvalidCharAt(src, next)) else Ok(("\0", next))
      else if c == 'x' then
        match HexEscape(src, next)
        case Ok((ch, after)) => Ok(([ch], after))
        case Err(e) => Err(e)
      else if c == 'u' then StringUnicodeEscape(src, next)
      else if IsLineTerminatorEscape(c) then Ok(("", next))
      else if c == '\r' then
        Ok(("", if Peek(src, next.pos) == Some('\n') then Advance(src, next) else next))
      else if '1' <= c <= '9' then Err(InvalidCharAt(src, cur))
      else Ok(([c], next))
  }

  // ---------------------------------------------------------------- lexStates

  /** A handler that continues has read at least one character; one that emits a
      token has read none or more; either way the cursor stays inside the text. */
  predicate Moves(src: string, cur: Cursor, r: Step) {
    (r.Continue? ==> cur.pos < r.cur.pos <= |src|) && (r.Emit? ==> cur.pos <= r.cur.pos <= |src|)
  }

  /** `default` may also hand over to `value` without reading anything. */
  predicate MovesOrEntersValue(src: string, cur: Cursor, v: LexVars, r: Step) {
    (r.Continue? ==> (cur.pos < r.cur.pos <= |src|) || (r.cur == cur && r.vars == v.(state := Value))) &&
    (r.Emit? ==> cur.pos <= r.cur.pos <= |src|)
  }

  /** The characters `default` skips by name (Space_Separator is skipped too). */
  predicate IsSkippedWhitespace(c: char) {
    c == '\t' || c == '\U{B}' || c == '\U{C}' || c == ' ' || c == '\U{A0}' || c == '\U{FEFF}' ||
    c == '\n' || c == '\r' || c == '\U{2028}' || c == '\U{2029}'
  }

  function DefaultState(u: UnicodeTables, src: string, ps: ParseState, cur: Cursor, v: LexVars): (r: Step)
    requires cur.pos <= |src|
    ensures MovesOrEntersValue(src, cur, v, r)
  {
    match Peek(src, cur.pos)
    case None => EmitAfterRead(src, cur, Eof)
    case Some(c) =>
      if IsSkippedWhitespace(c) then Continue(Advance(src, cur), v)
      else if c == '/' then Continue(Advance(src, cur), v.(state := Comment))
      else if IsSpaceSeparator(c) then Continue(Advance(src, cur), v)
      else ParseStateLex(u, src, ps, cur, v, c)
  }

  /** `lexStates[parseState]()`, reached from `default` on a significant character. */
  function ParseStateLex(u: UnicodeTables, src: string, ps: ParseState, cur: Cursor, v: LexVars, c: char): (r: Step)
    requires cur.pos <= |src|
    requires Peek(src, cur.pos) == Some(c)
    ensures MovesOrEntersValue(src, cur, v, r)
  {
    var next := Advance(src, cur);
    match ps
    case Start =>
      if c == '{' || c == '[' then EmitAfterRead(src, cur, Punctuator(c))
      else Continue(cur, v.(state := Value))
    case BeforePropertyName =>
      if c == '$' || c == '_' then Continue(next, v.(state := IdentifierName, buffer := [c]))
      else if c == '\\' then Continue(next, v.(state := IdentifierNameStartEscape))
      else if c == '}' then EmitAfterRead(src, cur, Punctuator(c))
      else if c == '"' || c == '\'' then Continue(next, v.(state := String, doubleQuote := c == '"'))
      else if IsIdStartChar(u, c) then Continue(next, v.(state := IdentifierName, buffer := v.buffer + [c]))
      else Throw(InvalidCharAt(src, cur))
    case AfterPropertyName =>
      if c == ':' then EmitAfterRead(src, cur, Punctuator(c)) else Throw(InvalidCharAt(src, cur))
    case BeforePropertyValue =>
      Continue(cur, v.(state := Value))
    case AfterPropertyValue =>
      if c == ',' || c == '}' then EmitAfterRead(src, cur, Punctuator(c)) else Throw(InvalidCharAt(src, cur))
    case BeforeArrayValue =>
      if c == ']' then EmitAfterRead(src, cur, Punctuator(c)) else Continue(cur, v.(state := Value))
    case AfterArrayValue =>
      if c == ',' || c == ']' then EmitAfterRead(src, cur, Punctuator(c)) else Throw(InvalidCharAt(src, cur))
    case End =>
      Throw(InvalidCharAt(src, cur))
  }

  function CommentState(src: string, cur: Cursor, v: LexVars): (r: Step)
    requires cur.pos <= |src|
    ensures Moves(src, cur, r)
  {
    match Peek(src, cur.pos)
    case Some('*') => Continue(Advance(src, cur), v.(state := MultiLineComment))
    case Some('/') => Continue(Advance(src, cur), v.(state := SingleLineComment))
    case _ => Throw(InvalidCharAt(src, cur))
  }

  function MultiLineCommentState(src: string, cur: Cursor, v: LexVars): (r: Step)
    requires cur.pos <= |src|
    ensures Moves(src, cur, r)
  {
    match Peek(src, cur.pos)
    case Some(c) =>
      if c == '*' then Continue(Advance(src, cur), v.(state := MultiLineCommentAsterisk))
      else Continue(Advance(src, cur), v)
    case None => Throw(InvalidCharAt(src, cur))
  }

  function MultiLineCommentAsteriskState(src: string, cur: Cursor, v: LexVars): (r: Step)
    requires cur.pos <= |src|
    ensures Moves(src, cur, r)
  {
    match Peek(src, cur.pos)
    case Some(c) =>
      if c == '*' then Continue(Advance(src, cur), v)
      else if c == '/' then Continue(Advance(src, cur), v.(state := Default))
      else Continue(Advance(src, cur), v.(state := MultiLineComment))
    case None => Throw(InvalidCharAt(src, cur))
  }

  predicate IsLineTerminator(c: char) {
    c == '\n' || c == '\r' || c == '\U{2028}' || c == '\U{2029}'
  }

  function SingleLineCommentState(src: string, cur: Cursor, v: LexVars): (r: Step)
    requires cur.pos <= |src|
    ensures Moves(src, cur, r)
  {
    match Peek(src, cur.pos)
    case Some(c) =>
      if IsLineTerminator(c) then Continue(Advance(src, cur), v.(state := Default))
      else Continue(Advance(src, cur), v)
    case None => EmitAfterRead(src, cur, Eof)
  }

  /** `literal(rest)` then `newToken(kind)`. */
  function LiteralToken(src: string, cur: Cursor, rest: string, kind: TokenKind): (r: Step)
    requires cur.pos <= |src|
    ensures !r.Continue?
  {
    match Literal(src, cur, rest)
    case Ok(next) => Emit(Token(kind, next.line, next.column), next)
    case Err(e) => Throw(e)
  }

  function ValueState(src: string, cur: Cursor, v: LexVars): (r: Step)
    requires cur.pos <= |src|
    ensures Moves(src, cur, r)
  {
    match Peek(src, cur.pos)
    case None => Throw(InvalidCharAt(src, cur))
    case Some(c) =>
      var next := Advance(src, cur);
      if c == '{' || c == '[' then EmitAfterRead(src, cur, Punctuator(c))
      else if c == 'n' then LiteralToken(src, next, "ull", NullToken)
      else if c == 't' then LiteralToken(src, next, "rue", BooleanToken(true))
      else if c == 'f' then LiteralToken(src, next, "alse", BooleanToken(false))
      else if c == '-' || c == '+' then
        Continue(next, v.(state := Sign, sign := if c == '-' then -1 else v.sign))
      else if c == '.' then Continue(next, v.(state := DecimalPointLeading, buffer := [c]))
      else if c == '0' then Continue(next, v.(state := Zero, buffer := [c]))
      else if '1' <= c <= '9' then Continue(next, v.(state := DecimalInteger, buffer := [c]))
      else if c == 'I' then LiteralToken(src, next, "nfinity", Numeric(Number(1, "Infinity")))
      else if c == 'N' then LiteralToken(src, next, "aN", Numeric(Number(1, "NaN")))
      else if c == '"' || c == '\'' then
        Continue(next, v.(state := String, doubleQuote := c == '"', buffer := ""))
      else Throw(InvalidCharAt(src, cur))
  }

  function IdentifierNameStartEscapeState(u: UnicodeTables, src: string, cur: Cursor, v: LexVars): (r: Step)
    requires cur.pos <= |src|
    ensures Moves(src, cur, r)
  {
    if Peek(src, cur.pos) != Some('u') then Throw(InvalidCharAt(src, cur))
    else
      match UnicodeEscape(src, Advance(src, cur))
      case Err(e) => Throw(e)
      case Ok((code, after)) =>
        if IsSurrogate(code) then Throw(SyntaxError(InvalidIdentifierChar, after.line, after.column - 5))
        else
          var ch := code as char;
          if !(ch == '$' || ch == '_') && !IsIdStartChar(u, ch) then
            Throw(SyntaxError(InvalidIdentifierChar, after.line, after.column - 5))
          else Continue(after, v.(state := IdentifierName, buffer := v.buffer + [ch]))
  }

  function IdentifierNameState(u: UnicodeTables, src: string, cur: Cursor, v: LexVars): (r: Step)
    requires cur.pos <= |src|
    ensures Moves(src, cur, r)
  {
    match Peek(src, cur.pos)
    case None => EmitHere(cur, Identifier(v.buffer))
    case Some(c) =>
      if c == '$' || c == '_' || c == '\U{200C}' || c == '\U{200D}' then
        Continue(Advance(src, cur), v.(buffer := v.buffer + [c]))
      else if c == '\\' then Continue(Advance(src, cur), v.(state := IdentifierNameEscape))
      else if IsIdContinueChar(u, c) then Continue(Advance(src, cur), v.(buffer := v.buffer + [c]))
      else EmitHere(cur, Identifier(v.buffer))
  }

  function IdentifierNameEscapeState(u: UnicodeTables, src: string, cur: Cursor, v: LexVars): (r: Step)
    requires cur.pos <= |src|
    ensures Moves(src, cur, r)
  {
    if Peek(src, cur.pos) != Some('u') then Throw(InvalidCharAt(src, cur))
    else
      match UnicodeEscape(src, Advance(src, cur))
      case Err(e) => Throw(e)
      case Ok((code, after)) =>
        if IsSurrogate(code) then Throw(SyntaxError(InvalidIdentifierChar, after.line, after.column - 5))
        else
          var ch := code as char;
          if !(ch == '$' || ch == '_' || ch == '\U{200C}' || ch == '\U{200D}') && !IsIdContinueChar(u, ch) then
            Throw(SyntaxError(InvalidIdentifierChar, after.line, after.column - 5))
          else Continue(after, v.(state := IdentifierName, buffer := v.buffer + [ch]))
  }

  function SignState(src: string, cur: Cursor, v: LexVars): (r: Step)
    requires cur.pos <= |src|
    ensures Moves(src, cur, r)
  {
    match Peek(src, cur.pos)
    case None => Throw(InvalidCharAt(src, cur))
    case Some(c) =>
      var next := Advance(src, cur);
      if c == '.' then Continue(next, v.(state := DecimalPointLeading, buffer := [c]))
      else if c == '0' then Continue(next, v.(state := Zero, buffer := [c]))
      else if '1' <= c <= '9' then Continue(next, v.(state := DecimalInteger, buffer := [c]))
      else if c == 'I' then LiteralToken(src, next, "nfinity", Numeric(Number(v.sign, "Infinity")))
      else if c == 'N' then LiteralToken(src, next, "aN", Numeric(Number(1, "NaN")))
      else Throw(InvalidCharAt(src, cur))
  }

  predicate IsExponentMarker(c: char) {
    c == 'e' || c == 'E'
  }

  /** `newToken('numeric', sign * Number(buffer))`. */
  function EmitNumber(cur: Cursor, v: LexVars): Step {
    EmitHere(cur, Numeric(Number(v.sign, v.buffer)))
  }

  /** Append the character at the cursor to the buffer and move to `s`. */
  function Take(src: string, cur: Cursor, v: LexVars, s: LexState): (r: Step)
    requires cur.pos < |src|
    ensures r.Continue? && r.cur.pos == cur.pos + 1
  {
    Continue(Advance(src, cur), v.(state := s, buffer := v.buffer + [src[cur.pos]]))
  }

  function ZeroState(src: string, cur: Cursor, v: LexVars): (r: Step)
    requires cur.pos <= |src|
    ensures Moves(src, cur, r)
  {
    match Peek(src, cur.pos)
    case Some(c) =>
      if c == '.' then Take(src, cur, v, DecimalPoint)
      else if IsExponentMarker(c) then Take(src, cur, v, DecimalExponent)
      else if c == 'x' || c == 'X' then Take(src, cur, v, Hexadecimal)
      else EmitNumber(cur, v)
    case None => EmitNumber(cur, v)
  }

  function DecimalIntegerState(src: string, cur: Cursor, v: LexVars): (r: Step)
    requires cur.pos <= |src|
    ensures Moves(src, cur, r)
  {
    match Peek(src, cur.pos)
    case Some(c) =>
      if c == '.' then Take(src, cur, v, DecimalPoint)
      else if IsExponentMarker(c) then Take(src, cur, v, DecimalExponent)
      else if IsDigit(c) then Take(src, cur, v, DecimalInteger)
      else EmitNumber(cur, v)
    case None => EmitNumber(cur, v)
  }

  function DecimalPointLeadingState(src: string, cur: Cursor, v: LexVars): (r: Step)
    requires cur.pos <= |src|
    ensures Moves(src, cur, r)
  {
    if IsDigitOpt(Peek(src, cur.pos)) then Take(src, cur, v, DecimalFraction)
    else Throw(InvalidCharAt(src, cur))
  }

  function DecimalPointState(src: string, cur: Cursor, v: LexVars): (r: Step)
    requires cur.pos <= |src|
    ensures Moves(src, cur, r)
  {
    match Peek(src, cur.pos)
    case Some(c) =>
      if IsExponentMarker(c) then Take(src, cur, v, DecimalExponent)
      else if IsDigit(c) then Take(src, cur, v, DecimalFraction)
      else EmitNumber(cur, v)
    case None => EmitNumber(cur, v)
  }

  function DecimalFractionState(src: string, cur: Cursor, v: LexVars): (r: Step)
    requires cur.pos <= |src|
    ensures Moves(src, cur, r)
  {
    match Peek(src, cur.pos)
    case Some(c) =>
      if IsExponentMarker(c) then Take(src, cur, v, DecimalExponent)
      else if IsDigit(c) then Take(src, cur, v, DecimalFraction)
      else EmitNumber(cur, v)
    case None => EmitNumber(cur, v)
  }

  function DecimalExponentState(src: string, cur: Cursor, v: LexVars): (r: Step)
    requires cur.pos <= |src|
    ensures Moves(src, cur, r)
  {
    match Peek(src, cur.pos)
    case Some(c) =>
      if c == '+' || c == '-' then Take(src, cur, v, DecimalExponentSign)
      else if IsDigit(c) then Take(src, cur, v, DecimalExponentInteger)
      else Throw(InvalidCharAt(src, cur))
    case None => Throw(InvalidCharAt(src, cur))
  }

  function DecimalExponentSignState(src: string, cur: Cursor, v: LexVars): (r: Step)
    requires cur.pos <= |src|
    ensures Moves(src, cur, r)
  {
    if IsDigitOpt(Peek(src, cur.pos)) then Take(src, cur, v, DecimalExponentInteger)
    else Throw(InvalidCharAt(src, cur))
  }

  function DecimalExponentIntegerState(src: string, cur: Cursor, v: LexVars): (r: Step)
    requires cur.pos <= |src|
    ensures Moves(src, cur, r)
  {
    if IsDigitOpt(Peek(src, cur.pos)) then Take(src, cur, v, DecimalExponentInteger)
    else EmitNumber(cur, v)
  }

  function HexadecimalState(src: string, cur: Cursor, v: LexVars): (r: Step)
    requires cur.pos <= |src|
    ensures Moves(src, cur, r)
  {
    if IsHexDigitOpt(Peek(src, cur.pos)) then Take(src, cur, v, HexadecimalInteger)
    else Throw(InvalidCharAt(src, cur))
  }

  function HexadecimalIntegerState(src: string, cur: Cursor, v: LexVars): (r: Step)
    requires cur.pos <= |src|
    ensures Moves(src, cur, r)
  {
    if IsHexDigitOpt(Peek(src, cur.pos)) then Take(src, cur, v, HexadecimalInteger)
    else EmitNumber(cur, v)
  }

  function StringState(src: string, cur: Cursor, v: LexVars): (r: Step)
    requires cur.pos <= |src|
    ensures Moves(src, cur, r)
  {
    match Peek(src, cur.pos)
    case None => Throw(InvalidCharAt(src, cur))
    case Some(c) =>
      var next := Advance(src, cur);
      if c == '\\' then
        match Escape(src, next)
        case Ok((s, after)) => Continue(after, v.(buffer := v.buffer + s))
        case Err(e) => Throw(e)
      else if c == '"' && v.doubleQuote then EmitAfterRead(src, cur, StringToken(v.buffer))
      else if c == '\'' && !v.doubleQuote then EmitAfterRead(src, cur, StringToken(v.buffer))
      else if c == '\n' || c == '\r' then Throw(InvalidCharAt(src, cur))
      else Continue(next, v.(buffer := v.buffer + [c]))
  }

  /** One iteration of the loop in `lex()`: `lexStates[lexState]()`. */
  function LexStep(u: UnicodeTables, src: string, ps: ParseState, cur: Cursor, v: LexVars): (r: Step)
    requires cur.pos <= |src|
    ensures if v.state == Default then MovesOrEntersValue(src, cur, v, r) else Moves(src, cur, r)
  {
    match v.state
    case Default => DefaultState(u, src, ps, cur, v)
    case Comment => CommentState(src, cur, v)
    case MultiLineComment => MultiLineCommentState(src, cur, v)
    case MultiLineCommentAsterisk => MultiLineCommentAsteriskState(src, cur, v)
    case SingleLineComment => SingleLineCommentState(src, cur, v)
    case Value => ValueState(src, cur, v)
    case IdentifierNameStartEscape => IdentifierNameStartEscapeState(u, src, cur, v)
    case IdentifierName => IdentifierNameState(u, src, cur, v)
    case IdentifierNameEscape => IdentifierNameEscapeState(u, src, cur, v)
    case Sign => SignState(src, cur, v)
    case Zero => ZeroState(src, cur, v)
    case DecimalInteger => DecimalIntegerState(src, cur, v)
    case DecimalPointLeading => DecimalPointLeadingState(src, cur, v)
    case DecimalPoint => DecimalPointState(src, cur, v)
    case DecimalFraction => DecimalFractionState(src, cur, v)
    case DecimalExponent => DecimalExponentState(src, cur, v)
    case DecimalExponentSign => DecimalExponentSignState(src, cur, v)
    case DecimalExponentInteger => DecimalExponentIntegerState(src, cur, v)
    case Hexadecimal => HexadecimalState(src, cur, v)
    case HexadecimalInteger => HexadecimalIntegerState(src, cur, v)
    case String => StringState(src, cur, v)
  }

  /** What bounds the loop in `lex()`: every step reads a character, except the
      single step from `default` to `value` that reads nothing. */
  function Measure(src: string, cur: Cursor, v: LexVars): nat
    requires cur.pos <= |src|
  {
    2 * (|src| - cur.pos) + (if v.state == Default then 1 else 0)
  }

  lemma StepDecreases(u: UnicodeTables, src: string, ps: ParseState, cur: Cursor, v: LexVars)
    requires cur.pos <= |src|
    ensures var r := LexStep(u, src, ps, cur, v);
      r.Continue? ==> r.cur.pos <= |src| && Measure(src, r.cur, r.vars) < Measure(src, cur, v)
  {
  }

  /** The loop in `lex()`, run to the token it returns or the error it throws. */
  function Lex(u: UnicodeTables, src: string, ps: ParseState, cur: Cursor, v: LexVars): (r: Result<(Token, Cursor), SyntaxError>)
    requires cur.pos <= |src|
    decreases Measure(src, cur, v)
  {
    StepDecreases(u, src, ps, cur, v);
    match LexStep(u, src, ps, cur, v)
    case Continue(next, w) => Lex(u, src, ps, next, w)
    case Emit(t, next) => Ok((t, next))
    case Throw(e) => Err(e)
  }

  /** `lex()`: the next token from the cursor, in the given parse state. */
  function NextToken(u: UnicodeTables, src: string, ps: ParseState, cur: Cursor): Result<(Token, Cursor), SyntaxError>
    requires cur.pos <= |src|
  {
    Lex(u, src, ps, cur, InitialVars)
  }
}
