/** What `lex()` guarantees to `parse()`: the token it returns is one the current
    parse state can handle (which is why the source can comment out its
    `invalidToken` branches as unreachable), every token other than `eof` consumes
    input, and `eof` is returned only at the end of the text. */
module Json5LexerSound {
  import opened Wrappers
  import opened Json5Util
  import opened Json5Values
  import opened Json5Lexer

  predicate IsValueToken(k: TokenKind) {
    k == Punctuator('{') || k == Punctuator('[') || k.NullToken? || k.BooleanToken? ||
    k.Numeric? || k.StringToken?
  }

  /** The tokens each parse state is prepared for. */
  predicate TokenFits(ps: ParseState, k: TokenKind) {
    k.Eof? ||
    match ps
    case Start => IsValueToken(k)
    case BeforePropertyName => k.Identifier? || k.StringToken? || k == Punctuator('}')
    case AfterPropertyName => k == Punctuator(':')
    case BeforePropertyValue => IsValueToken(k)
    case BeforeArrayValue => IsValueToken(k) || k == Punctuator(']')
    case AfterPropertyValue => k == Punctuator(',') || k == Punctuator('}')
    case AfterArrayValue => k == Punctuator(',') || k == Punctuator(']')
    case End => false
  }

  predicate ValueAllowed(ps: ParseState) {
    ps == Start || ps == BeforePropertyValue || ps == BeforeArrayValue
  }

  /** The lex states reachable from `default` in a given parse state. */
  predicate StateAllowed(ps: ParseState, ls: LexState) {
    match ls
    case Default => true
    case Comment => true
    case MultiLineComment => true
    case MultiLineCommentAsterisk => true
    case SingleLineComment => true
    case IdentifierNameStartEscape => ps == BeforePropertyName
    case IdentifierName => ps == BeforePropertyName
    case IdentifierNameEscape => ps == BeforePropertyName
    case String => ps == BeforePropertyName || ValueAllowed(ps)
    case _ => ValueAllowed(ps)
  }

  /** The invariant of the loop in `lex()` started at position `p0`. */
  predicate LexInvariant(src: string, ps: ParseState, p0: nat, cur: Cursor, v: LexVars) {
    p0 <= cur.pos <= |src| &&
    StateAllowed(ps, v.state) &&
    (v.state != Default && v.state != Value ==> p0 < cur.pos)
  }

  /** What the returned token and cursor satisfy. */
  predicate TokenSound(src: string, ps: ParseState, p0: nat, t: Token, next: Cursor) {
    TokenFits(ps, t.kind) && next.pos <= |src| &&
    (t.kind.Eof? ==> next.pos == |src|) &&
    (!t.kind.Eof? ==> p0 < next.pos)
  }

  lemma DefaultStepSound(u: UnicodeTables, src: string, ps: ParseState, p0: nat, cur: Cursor, v: LexVars)
    requires LexInvariant(src, ps, p0, cur, v) && v.state == Default
    ensures var r := LexStep(u, src, ps, cur, v);
      (r.Continue? ==> LexInvariant(src, ps, p0, r.cur, r.vars)) &&
      (r.Emit? ==> TokenSound(src, ps, p0, r.token, r.cur))
  {
    match Peek(src, cur.pos)
    case None =>
    case Some(c) =>
      if !IsSkippedWhitespace(c) && c != '/' && !IsSpaceSeparator(c) {
        assert LexStep(u, src, ps, cur, v) == ParseStateLex(u, src, ps, cur, v, c);
      }
  }

  lemma NumberStepSound(u: UnicodeTables, src: string, ps: ParseState, p0: nat, cur: Cursor, v: LexVars)
    requires LexInvariant(src, ps, p0, cur, v)
    requires v.state in {Sign, Zero, DecimalInteger, DecimalPointLeading, DecimalPoint, DecimalFraction,
                         DecimalExponent, DecimalExponentSign, DecimalExponentInteger, Hexadecimal, HexadecimalInteger}
    ensures var r := LexStep(u, src, ps, cur, v);
      (r.Continue? ==> LexInvariant(src, ps, p0, r.cur, r.vars)) &&
      (r.Emit? ==> TokenSound(src, ps, p0, r.token, r.cur))
  {
  }

  lemma CommentStepSound(u: UnicodeTables, src: string, ps: ParseState, p0: nat, cur: Cursor, v: LexVars)
    requires LexInvariant(src, ps, p0, cur, v)
    requires v.state in {Comment, MultiLineComment, MultiLineCommentAsterisk, SingleLineComment}
    ensures var r := LexStep(u, src, ps, cur, v);
      (r.Continue? ==> LexInvariant(src, ps, p0, r.cur, r.vars)) &&
      (r.Emit? ==> TokenSound(src, ps, p0, r.token, r.cur))
  {
  }

  lemma OtherStepSound(u: UnicodeTables, src: string, ps: ParseState, p0: nat, cur: Cursor, v: LexVars)
    requires LexInvariant(src, ps, p0, cur, v)
    requires v.state in {Value, IdentifierNameStartEscape, IdentifierName, IdentifierNameEscape, String}
    ensures var r := LexStep(u, src, ps, cur, v);
      (r.Continue? ==> LexInvariant(src, ps, p0, r.cur, r.vars)) &&
      (r.Emit? ==> TokenSound(src, ps, p0, r.token, r.cur))
  {
  }

  /** One step of the loop keeps its invariant, and a token it returns is sound. */
  lemma StepSound(u: UnicodeTables, src: string, ps: ParseState, p0: nat, cur: Cursor, v: LexVars)
    requires LexInvariant(src, ps, p0, cur, v)
    ensures var r := LexStep(u, src, ps, cur, v);
      (r.Continue? ==> LexInvariant(src, ps, p0, r.cur, r.vars)) &&
      (r.Emit? ==> TokenSound(src, ps, p0, r.token, r.cur))
  {
    if v.state == Default {
      DefaultStepSound(u, src, ps, p0, cur, v);
    } else if v.state in {Sign, Zero, DecimalInteger, DecimalPointLeading, DecimalPoint, DecimalFraction,
                          DecimalExponent, DecimalExponentSign, DecimalExponentInteger, Hexadecimal, HexadecimalInteger} {
      NumberStepSound(u, src, ps, p0, cur, v);
    } else if v.state in {Comment, MultiLineComment, MultiLineCommentAsterisk, SingleLineComment} {
      CommentStepSound(u, src, ps, p0, cur, v);
    } else {
      OtherStepSound(u, src, ps, p0, cur, v);
    }
  }

  lemma {:induction false} LexSound(u: UnicodeTables, src: string, ps: ParseState, p0: nat, cur: Cursor, v: LexVars)
    requires LexInvariant(src, ps, p0, cur, v)
    ensures var r := Lex(u, src, ps, cur, v);
      r.Ok? ==> TokenSound(src, ps, p0, r.value.0, r.value.1)
    decreases Measure(src, cur, v)
  {
    StepDecreases(u, src, ps, cur, v);
    StepSound(u, src, ps, p0, cur, v);
    match LexStep(u, src, ps, cur, v)
    case Continue(next, w) => LexSound(u, src, ps, p0, next, w);
    case Emit(_, _) =>
    case Throw(_) =>
  }

  /** `lex()` returns a token the parse state expects; any token but `eof`
      consumes input; `eof` comes only at the end of the text. */
  lemma NextTokenSound(u: UnicodeTables, src: string, ps: ParseState, cur: Cursor)
    requires cur.pos <= |src|
    ensures var r := NextToken(u, src, ps, cur);
      r.Ok? ==> TokenSound(src, ps, cur.pos, r.value.0, r.value.1)
  {
    LexSound(u, src, ps, cur.pos, cur, InitialVars);
  }
}
