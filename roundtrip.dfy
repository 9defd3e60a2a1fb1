/** What the serializer writes for strings and keys, read back by the lexer:
    `quoteString(s)` lexes as one string token holding exactly `s`, and
    `serializeKey(k)` lexes as the identifier `k` or the string token `k`. This
    is the sense in which every occurrence of the chosen quote is escaped and
    every escape `quoteString` emits is one `escape()` accepts. */
module Json5RoundTrip {
  import opened Wrappers
  import opened Json5Util
  import opened Json5Values
  import opened Json5Lexer
  import opened Json5LexerSound
  import opened Json5Stringify

  // ---------------------------------------------------------------- the escaped body

  /** The escaped text of value[i..]: the pieces from i on, each with the chosen
      quote escaped. */
  function Escaped(value: string, i: nat, q: QuoteChar): string
    requires i <= |value|
    decreases |value| - i
  {
    if i == |value| then "" else EscapeQuotes(Piece(value, i), q) + Escaped(value, i + 1, q)
  }

  lemma {:induction false} EscapeQuotesConcat(a: string, b: string, q: QuoteChar)
    ensures EscapeQuotes(a + b, q) == EscapeQuotes(a, q) + EscapeQuotes(b, q)
    decreases |a|
  {
    if a != [] {
      assert (a + b)[1..] == a[1..] + b;
      EscapeQuotesConcat(a[1..], b, q);
    } else {
      assert a + b == b;
    }
  }

  lemma {:induction false} BodySplits(value: string, n: nat, q: QuoteChar)
    requires n <= |value|
    ensures EscapeQuotes(Product(value, n), q) + Escaped(value, n, q) == Escaped(value, 0, q)
    decreases n
  {
    if n > 0 {
      BodySplits(value, n - 1, q);
      ProductEscapedStep(value, n, q);
      var a := EscapeQuotes(Product(value, n - 1), q);
      var b := EscapeQuotes(Piece(value, n - 1), q);
      var c := Escaped(value, n, q);
      assert (a + b) + c == a + (b + c);
    }
  }

  /** One more character moves its escaped piece from the rest to the product. */
  lemma ProductEscapedStep(value: string, n: nat, q: QuoteChar)
    requires 0 < n <= |value|
    ensures EscapeQuotes(Product(value, n), q) ==
      EscapeQuotes(Product(value, n - 1), q) + EscapeQuotes(Piece(value, n - 1), q)
    ensures Escaped(value, n - 1, q) == EscapeQuotes(Piece(value, n - 1), q) + Escaped(value, n, q)
  {
    EscapeQuotesConcat(Product(value, n - 1), Piece(value, n - 1), q);
  }

  /** The body of `quoteString(value)` is the concatenation of the escaped pieces. */
  lemma QuoteTextPieces(value: string, quote: Option<QuoteChar>)
    ensures QuoteText(value, quote) ==
      [ChooseQuote(value, quote)] + Escaped(value, 0, ChooseQuote(value, quote)) + [ChooseQuote(value, quote)]
  {
    BodySplits(value, |value|, ChooseQuote(value, quote));
  }

  // ---------------------------------------------------------------- one piece

  /** The lexer is inside a string opened with the quote q, holding `buffer`. */
  predicate InString(v: LexVars, q: QuoteChar) {
    v.state == String && v.doubleQuote == (q == '"')
  }

  /** The text at the cursor is `t`. */
  predicate At(src: string, cur: Cursor, t: string) {
    cur.pos + |t| <= |src| && src[cur.pos..cur.pos + |t|] == t
  }

  lemma AtChar(src: string, cur: Cursor, t: string, k: nat)
    requires At(src, cur, t) && k < |t|
    ensures src[cur.pos + k] == t[k]
  {
    assert src[cur.pos..cur.pos + |t|][k] == t[k];
  }

  /** One step of the string state reads `n` characters and appends `c`. */
  predicate Reads(u: UnicodeTables, src: string, ps: ParseState, cur: Cursor, v: LexVars, c: char, n: nat) {
    cur.pos <= |src| &&
    var r := LexStep(u, src, ps, cur, v);
    r.Continue? && r.cur.pos == cur.pos + n && r.vars == v.(buffer := v.buffer + [c])
  }

  /** A character that reaches the product unescaped: one string step reads it. */
  lemma RawCharLexes(u: UnicodeTables, src: string, ps: ParseState, cur: Cursor, v: LexVars, c: char, q: QuoteChar)
    requires InString(v, q) && At(src, cur, [c])
    requires c != '\\' && c != q && c != '\n' && c != '\r'
    ensures Reads(u, src, ps, cur, v, c, 1)
  {
    AtChar(src, cur, [c], 0);
  }

  /** A backslash followed by a character that `escape()` takes literally. */
  lemma LiteralEscapeLexes(u: UnicodeTables, src: string, ps: ParseState, cur: Cursor, v: LexVars, c: char, q: QuoteChar)
    requires InString(v, q) && At(src, cur, ['\\', c])
    requires c == '\\' || c == '\'' || c == '"'
    ensures Reads(u, src, ps, cur, v, c, 2)
  {
    AtChar(src, cur, ['\\', c], 0);
    AtChar(src, cur, ['\\', c], 1);
  }

  /** A backslash followed by one of the letters b, f, n, r, t, v. */
  lemma LetterEscapeLexes(u: UnicodeTables, src: string, ps: ParseState, cur: Cursor, v: LexVars, c: char, e: char, q: QuoteChar)
    requires InString(v, q) && At(src, cur, ['\\', e])
    requires (c, e) in {('\U{8}', 'b'), ('\U{C}', 'f'), ('\n', 'n'), ('\r', 'r'), ('\t', 't'), ('\U{B}', 'v')}
    ensures Reads(u, src, ps, cur, v, c, 2)
  {
    AtChar(src, cur, ['\\', e], 0);
    AtChar(src, cur, ['\\', e], 1);
  }

  /** `\0` not followed by a digit. */
  lemma NulEscapeLexes(u: UnicodeTables, src: string, ps: ParseState, cur: Cursor, v: LexVars, q: QuoteChar)
    requires InString(v, q) && At(src, cur, "\\0")
    requires cur.pos + 2 < |src| ==> !IsDigit(src[cur.pos + 2])
    ensures Reads(u, src, ps, cur, v, '\0', 2)
  {
    AtChar(src, cur, "\\0", 0);
    AtChar(src, cur, "\\0", 1);
  }

  /** `\x` followed by two hex digits. */
  lemma HexEscapeLexes(u: UnicodeTables, src: string, ps: ParseState, cur: Cursor, v: LexVars, c: char, t: string, q: QuoteChar)
    requires InString(v, q) && At(src, cur, t)
    requires |t| == 4 && t[..2] == "\\x" && AllHexDigits(t[2..]) && HexValue(t[2..]) == c as int
    ensures Reads(u, src, ps, cur, v, c, 4)
  {
    AtChar(src, cur, t, 0);
    AtChar(src, cur, t, 1);
    assert src[cur.pos + 2..cur.pos + 4] == t[2..];
  }

  /** `\u` followed by four hex digits naming a character that is not a surrogate. */
  lemma UnicodeEscapeLexes(u: UnicodeTables, src: string, ps: ParseState, cur: Cursor, v: LexVars, c: char, t: string, q: QuoteChar)
    requires InString(v, q) && At(src, cur, t)
    requires |t| == 6 && t[..2] == "\\u" && AllHexDigits(t[2..]) && HexValue(t[2..]) == c as int
    ensures Reads(u, src, ps, cur, v, c, 6)
  {
    AtChar(src, cur, t, 0);
    AtChar(src, cur, t, 1);
    assert src[cur.pos + 2..cur.pos + 6] == t[2..];
    assert !IsSurrogate(c as nat);
  }

  lemma LineSeparatorHex()
    ensures AllHexDigits("2028") && HexValue("2028") == 0x2028
    ensures AllHexDigits("2029") && HexValue("2029") == 0x2029
    ensures AllHexDigits("00") && HexValue("00") == 0
  {
    assert "2028"[..3] == "202" && "202"[..2] == "20" && "20"[..1] == "2";
    assert "2029"[..3] == "202";
    assert "00"[..1] == "0";
  }

  /** A piece other than a lone quote holds no quote character. */
  lemma EscapeQuotesNoQuote(s: string, q: QuoteChar)
    requires forall k :: 0 <= k < |s| ==> s[k] != q
    ensures EscapeQuotes(s, q) == s
    decreases |s|
  {
    if s != [] {
      EscapeQuotesNoQuote(s[1..], q);
    }
  }

  /** The escaped piece of value[i], read by one step of the string state. */
  predicate PieceReads(u: UnicodeTables, src: string, ps: ParseState, cur: Cursor, v: LexVars, value: string, i: nat, q: QuoteChar)
    requires i < |value|
  {
    Reads(u, src, ps, cur, v, value[i], |EscapeQuotes(Piece(value, i), q)|)
  }

  /** A quote character of the value: escaped if it is the chosen quote, raw
      otherwise. */
  lemma QuotePieceLexes(u: UnicodeTables, src: string, ps: ParseState, cur: Cursor, v: LexVars, value: string, i: nat, q: QuoteChar)
    requires i < |value| && InString(v, q) && (value[i] == '\'' || value[i] == '"')
    requires At(src, cur, EscapeQuotes(Piece(value, i), q))
    ensures PieceReads(u, src, ps, cur, v, value, i, q)
  {
    var c := value[i];
    assert Piece(value, i) == [c];
    if c == q {
      assert EscapeQuotes([c], q) == ['\\', c];
      LiteralEscapeLexes(u, src, ps, cur, v, c, q);
    } else {
      assert EscapeQuotes([c], q) == [c];
      RawCharLexes(u, src, ps, cur, v, c, q);
    }
  }

  /** NUL before a digit is written `\x00`, so that the digit is not read as
      part of an octal-looking escape. */
  lemma NulBeforeDigitPieceLexes(u: UnicodeTables, src: string, ps: ParseState, cur: Cursor, v: LexVars, value: string, i: nat, q: QuoteChar)
    requires i < |value| && InString(v, q) && value[i] == '\0' && NextIsDigit(value, i)
    requires At(src, cur, EscapeQuotes(Piece(value, i), q))
    ensures PieceReads(u, src, ps, cur, v, value, i, q)
  {
    NulPieceText(value, i, q);
    HexEscapeLexes(u, src, ps, cur, v, '\0', "\\x00", q);
  }

  /** The piece for NUL before a digit is `\x00`, which spells NUL. */
  lemma NulPieceText(value: string, i: nat, q: QuoteChar)
    requires i < |value| && value[i] == '\0' && NextIsDigit(value, i)
    ensures EscapeQuotes(Piece(value, i), q) == "\\x00"
    ensures var t := "\\x00"; t[..2] == "\\x" && AllHexDigits(t[2..]) && HexValue(t[2..]) == 0
  {
    var t := "\\x00";
    assert Piece(value, i) == t;
    EscapeQuotesNoQuote(t, q);
    NulHexText();
  }

  lemma NulHexText()
    ensures var t := "\\x00"; t[..2] == "\\x" && AllHexDigits(t[2..]) && HexValue(t[2..]) == 0
  {
    LineSeparatorHex();
    var t := "\\x00";
    assert t[2..] == "00";
  }

  /** The entries of the `replacements` table written with a letter. */
  lemma LetterReplacementLexes(u: UnicodeTables, src: string, ps: ParseState, cur: Cursor, v: LexVars, c: char, q: QuoteChar)
    requires InString(v, q) && c in {'\U{8}', '\U{C}', '\n', '\r', '\t', '\U{B}'}
    requires At(src, cur, Replacement(c).value)
    ensures |Replacement(c).value| == 2
    ensures Reads(u, src, ps, cur, v, c, 2)
  {
    LetterEscapeLexes(u, src, ps, cur, v, c, Replacement(c).value[1], q);
  }

  /** The line and paragraph separators, written as `\u` escapes. */
  lemma SeparatorReplacementLexes(u: UnicodeTables, src: string, ps: ParseState, cur: Cursor, v: LexVars, c: char, q: QuoteChar)
    requires InString(v, q) && (c == '\U{2028}' || c == '\U{2029}')
    requires At(src, cur, Replacement(c).value)
    ensures |Replacement(c).value| == 6
    ensures Reads(u, src, ps, cur, v, c, 6)
  {
    SeparatorEscapeText(c);
    UnicodeEscapeLexes(u, src, ps, cur, v, c, Replacement(c).value, q);
  }

  /** The `replacements` entries of the line and paragraph separators are `\u`
      escapes spelling them. */
  lemma SeparatorEscapeText(c: char)
    requires c == '\U{2028}' || c == '\U{2029}'
    ensures var t := Replacement(c).value;
      |t| == 6 && t[..2] == "\\u" && AllHexDigits(t[2..]) && HexValue(t[2..]) == c as int
  {
    LineSeparatorHex();
    var t := Replacement(c).value;
    assert t[..2] == "\\u";
  }

  /** The text of an entry of the `replacements` table, other than a quote's,
      read where NUL is not followed by a digit. */
  lemma ReplacementLexes(u: UnicodeTables, src: string, ps: ParseState, cur: Cursor, v: LexVars, c: char, q: QuoteChar)
    requires InString(v, q) && c != '\'' && c != '"' && Replacement(c).Some?
    requires At(src, cur, Replacement(c).value)
    requires c == '\0' && cur.pos + 2 < |src| ==> !IsDigit(src[cur.pos + 2])
    ensures Reads(u, src, ps, cur, v, c, |Replacement(c).value|)
  {
    if c == '\\' {
      LiteralEscapeLexes(u, src, ps, cur, v, c, q);
    } else if c == '\0' {
      NulEscapeLexes(u, src, ps, cur, v, q);
    } else if c == '\U{2028}' || c == '\U{2029}' {
      SeparatorReplacementLexes(u, src, ps, cur, v, c, q);
    } else {
      LetterReplacementLexes(u, src, ps, cur, v, c, q);
    }
  }

  /** A character with an entry in the `replacements` table, other than a quote
      and other than NUL before a digit. */
  lemma ReplacedPieceLexes(u: UnicodeTables, src: string, ps: ParseState, cur: Cursor, v: LexVars, value: string, i: nat, q: QuoteChar)
    requires i < |value| && InString(v, q)
    requires value[i] != '\'' && value[i] != '"' && Replacement(value[i]).Some?
    requires !(value[i] == '\0' && NextIsDigit(value, i))
    requires At(src, cur, EscapeQuotes(Piece(value, i), q))
    requires var n := cur.pos + |EscapeQuotes(Piece(value, i), q)|;
      n < |src| && IsDigit(src[n]) ==> NextIsDigit(value, i)
    ensures PieceReads(u, src, ps, cur, v, value, i, q)
  {
    var c := value[i];
    var t := Replacement(c).value;
    assert Piece(value, i) == t;
    ReplacementKeepsQuotes(c, q);
    ReplacementLexes(u, src, ps, cur, v, c, q);
  }

  /** The `replacements` entry of a character other than a quote holds no quote. */
  lemma ReplacementKeepsQuotes(c: char, q: QuoteChar)
    requires c != '\'' && c != '"' && Replacement(c).Some?
    ensures EscapeQuotes(Replacement(c).value, q) == Replacement(c).value
  {
    EscapeQuotesNoQuote(Replacement(c).value, q);
  }

  /** Any other control character is written `\x` and two hex digits. */
  lemma ControlPieceLexes(u: UnicodeTables, src: string, ps: ParseState, cur: Cursor, v: LexVars, value: string, i: nat, q: QuoteChar)
    requires i < |value| && InString(v, q)
    requires value[i] < ' ' && Replacement(value[i]).None? && !(value[i] == '\0' && NextIsDigit(value, i))
    requires At(src, cur, EscapeQuotes(Piece(value, i), q))
    ensures PieceReads(u, src, ps, cur, v, value, i, q)
  {
    var c := value[i];
    var t := ControlEscape(c);
    assert Piece(value, i) == t;
    EscapeQuotesNoQuote(t, q);
    HexEscapeLexes(u, src, ps, cur, v, c, t, q);
  }

  /** Every other character is written as it is. */
  lemma RawPieceLexes(u: UnicodeTables, src: string, ps: ParseState, cur: Cursor, v: LexVars, value: string, i: nat, q: QuoteChar)
    requires i < |value| && InString(v, q)
    requires value[i] != '\'' && value[i] != '"' && value[i] >= ' ' && Replacement(value[i]).None?
    requires At(src, cur, EscapeQuotes(Piece(value, i), q))
    ensures PieceReads(u, src, ps, cur, v, value, i, q)
  {
    var c := value[i];
    assert Piece(value, i) == [c];
    EscapeQuotesNoQuote([c], q);
    RawCharLexes(u, src, ps, cur, v, c, q);
  }

  /** The escaped piece of value[i]: one step of the string state reads all of it
      and appends value[i] to the buffer. */
  lemma PieceLexes(u: UnicodeTables, src: string, ps: ParseState, cur: Cursor, v: LexVars, value: string, i: nat, q: QuoteChar)
    requires i < |value| && InString(v, q)
    requires At(src, cur, EscapeQuotes(Piece(value, i), q))
    requires var n := cur.pos + |EscapeQuotes(Piece(value, i), q)|;
      n < |src| && IsDigit(src[n]) ==> NextIsDigit(value, i)
    ensures PieceReads(u, src, ps, cur, v, value, i, q)
  {
    var c := value[i];
    if c == '\'' || c == '"' {
      QuotePieceLexes(u, src, ps, cur, v, value, i, q);
    } else if c == '\0' && NextIsDigit(value, i) {
      NulBeforeDigitPieceLexes(u, src, ps, cur, v, value, i, q);
    } else if Replacement(c).Some? {
      ReplacedPieceLexes(u, src, ps, cur, v, value, i, q);
    } else if c < ' ' {
      ControlPieceLexes(u, src, ps, cur, v, value, i, q);
    } else {
      RawPieceLexes(u, src, ps, cur, v, value, i, q);
    }
  }

  /** An escaped piece starts with a digit only when its character is one. */
  lemma PieceStartsWithDigit(value: string, i: nat, q: QuoteChar)
    requires i < |value|
    ensures IsDigit(EscapeQuotes(Piece(value, i), q)[0]) ==> IsDigit(value[i])
  {
  }

  /** The escaped text from i on starts with a digit only when value[i] is one. */
  lemma EscapedHead(value: string, i: nat, q: QuoteChar)
    requires i < |value|
    ensures |Escaped(value, i, q)| > 0
    ensures IsDigit(Escaped(value, i, q)[0]) ==> IsDigit(value[i])
  {
    var p := EscapeQuotes(Piece(value, i), q);
    PieceStartsWithDigit(value, i, q);
    assert Escaped(value, i, q) == p + Escaped(value, i + 1, q);
  }

  // ---------------------------------------------------------------- the whole string

  lemma AtSplit(src: string, cur: Cursor, next: Cursor, a: string, b: string)
    requires At(src, cur, a + b) && next.pos == cur.pos + |a|
    ensures At(src, cur, a) && At(src, next, b)
  {
    assert src[cur.pos..cur.pos + |a|] == (a + b)[..|a|];
    assert src[next.pos..next.pos + |b|] == (a + b)[|a|..];
  }

  /** A step that continues does not change what the loop in `lex()` returns. */
  lemma LexContinues(u: UnicodeTables, src: string, ps: ParseState, cur: Cursor, v: LexVars)
    requires cur.pos <= |src| && LexStep(u, src, ps, cur, v).Continue?
    ensures var r := LexStep(u, src, ps, cur, v);
      r.cur.pos <= |src| && Lex(u, src, ps, cur, v) == Lex(u, src, ps, r.cur, r.vars)
  {
    StepDecreases(u, src, ps, cur, v);
  }

  /** The escaped text from i on, followed by the closing quote, starts with the
      escaped piece of value[i]; what follows that piece starts with a digit only
      when value[i + 1] is one. */
  lemma PieceAt(src: string, cur: Cursor, value: string, i: nat, q: QuoteChar)
    requires i < |value| && At(src, cur, Escaped(value, i, q) + [q])
    ensures At(src, cur, EscapeQuotes(Piece(value, i), q))
    ensures var n := cur.pos + |EscapeQuotes(Piece(value, i), q)|;
      n < |src| && IsDigit(src[n]) ==> NextIsDigit(value, i)
  {
    var p := EscapeQuotes(Piece(value, i), q);
    var rest := Escaped(value, i + 1, q);
    assert Escaped(value, i, q) + [q] == p + (rest + [q]);
    var n := cur.pos + |p|;
    AtSplit(src, cur, cur.(pos := n), p, rest + [q]);
    AtChar(src, cur.(pos := n), rest + [q], 0);
    if i + 1 < |value| {
      EscapedHead(value, i + 1, q);
      assert src[n] == rest[0];
    } else {
      assert src[n] == q;
    }
  }

  /** After the piece of value[i] come the pieces from i + 1 on and the quote. */
  lemma RestAt(src: string, cur: Cursor, next: Cursor, value: string, i: nat, q: QuoteChar)
    requires i < |value| && At(src, cur, Escaped(value, i, q) + [q])
    requires next.pos == cur.pos + |EscapeQuotes(Piece(value, i), q)|
    ensures At(src, next, Escaped(value, i + 1, q) + [q])
    ensures next.pos + |Escaped(value, i + 1, q)| == cur.pos + |Escaped(value, i, q)|
  {
    var p := EscapeQuotes(Piece(value, i), q);
    var rest := Escaped(value, i + 1, q);
    assert Escaped(value, i, q) + [q] == p + (rest + [q]);
    AtSplit(src, cur, next, p, rest + [q]);
  }

  /** A step that reads `n` characters does not change what `lex()` returns. */
  lemma ReadsContinues(u: UnicodeTables, src: string, ps: ParseState, cur: Cursor, v: LexVars, c: char, n: nat)
    returns (next: Cursor)
    requires cur.pos <= |src| && Reads(u, src, ps, cur, v, c, n)
    ensures next.pos == cur.pos + n <= |src|
    ensures Lex(u, src, ps, cur, v) == Lex(u, src, ps, next, v.(buffer := v.buffer + [c]))
  {
    LexContinues(u, src, ps, cur, v);
    next := LexStep(u, src, ps, cur, v).cur;
  }

  /** The closing quote ends the token with the buffer. */
  lemma ClosingQuoteLexes(u: UnicodeTables, src: string, ps: ParseState, cur: Cursor, v: LexVars, q: QuoteChar)
    requires InString(v, q) && At(src, cur, [q])
    ensures var r := Lex(u, src, ps, cur, v);
      r.Ok? && r.value.0.kind == StringToken(v.buffer) && r.value.1.pos == cur.pos + 1
  {
    AtChar(src, cur, [q], 0);
    assert LexStep(u, src, ps, cur, v).Emit?;
  }

  /** Inside the string, the piece for value[i] is read in one step. */
  lemma PieceContinues(u: UnicodeTables, src: string, ps: ParseState, cur: Cursor, v: LexVars,
                       value: string, i: nat, q: QuoteChar) returns (next: Cursor)
    requires i < |value| && InString(v, q) && At(src, cur, Escaped(value, i, q) + [q])
    ensures next.pos == cur.pos + |EscapeQuotes(Piece(value, i), q)| <= |src|
    ensures Lex(u, src, ps, cur, v) == Lex(u, src, ps, next, v.(buffer := v.buffer + [value[i]]))
  {
    PieceAt(src, cur, value, i, q);
    PieceLexes(u, src, ps, cur, v, value, i, q);
    next := ReadsContinues(u, src, ps, cur, v, value[i], |EscapeQuotes(Piece(value, i), q)|);
  }

  /** From inside the string, with value[..i] read, the rest of the pieces and
      the closing quote end the token with exactly `value`. */
  lemma {:induction false} StringRestLexes(u: UnicodeTables, src: string, ps: ParseState, cur: Cursor, v: LexVars,
                                           value: string, i: nat, q: QuoteChar)
    requires i <= |value| && InString(v, q) && v.buffer == value[..i]
    requires At(src, cur, Escaped(value, i, q) + [q])
    ensures var r := Lex(u, src, ps, cur, v);
      r.Ok? && r.value.0.kind == StringToken(value) && r.value.1.pos == cur.pos + |Escaped(value, i, q)| + 1
    decreases |value| - i
  {
    if i == |value| {
      assert value[..i] == value;
      ClosingQuoteLexes(u, src, ps, cur, v, q);
    } else {
      var next := PieceContinues(u, src, ps, cur, v, value, i, q);
      RestAt(src, cur, next, value, i, q);
      var w := v.(buffer := v.buffer + [value[i]]);
      assert w.buffer == value[..i + 1] by {
        assert value[..i + 1] == value[..i] + [value[i]];
      }
      StringRestLexes(u, src, ps, next, w, value, i + 1, q);
    }
  }

  /** The opening quote, read where a property name may start, enters the
      string state with an empty buffer. */
  lemma OpeningQuoteInName(u: UnicodeTables, src: string, cur: Cursor, q: QuoteChar)
    returns (next: Cursor)
    requires At(src, cur, [q])
    ensures next.pos == cur.pos + 1 <= |src|
    ensures Lex(u, src, BeforePropertyName, cur, InitialVars) ==
            Lex(u, src, BeforePropertyName, next, LexVars(String, "", q == '"', 1))
  {
    AtChar(src, cur, [q], 0);
    next := Advance(src, cur);
    assert LexStep(u, src, BeforePropertyName, cur, InitialVars) == Continue(next, LexVars(String, "", q == '"', 1));
    LexContinues(u, src, BeforePropertyName, cur, InitialVars);
  }

  /** The opening quote, read where a value may start, passes through the
      `value` state into the string state with an empty buffer. */
  lemma OpeningQuoteInValue(u: UnicodeTables, src: string, ps: ParseState, cur: Cursor, q: QuoteChar)
    returns (next: Cursor)
    requires ValueAllowed(ps) && At(src, cur, [q])
    ensures next.pos == cur.pos + 1 <= |src|
    ensures Lex(u, src, ps, cur, InitialVars) == Lex(u, src, ps, next, LexVars(String, "", q == '"', 1))
  {
    AtChar(src, cur, [q], 0);
    next := Advance(src, cur);
    var valueVars := InitialVars.(state := Value);
    assert LexStep(u, src, ps, cur, InitialVars) == Continue(cur, valueVars);
    LexContinues(u, src, ps, cur, InitialVars);
    assert LexStep(u, src, ps, cur, valueVars) == Continue(next, LexVars(String, "", q == '"', 1));
    LexContinues(u, src, ps, cur, valueVars);
  }

  /** `quoteString(value)` is the chosen quote, the escaped pieces, and the
      quote again. */
  lemma QuoteTextAt(src: string, cur: Cursor, next: Cursor, value: string, quote: Option<QuoteChar>)
    requires At(src, cur, QuoteText(value, quote)) && next.pos == cur.pos + 1
    ensures var q := ChooseQuote(value, quote);
      At(src, cur, [q]) && At(src, next, Escaped(value, 0, q) + [q]) &&
      |QuoteText(value, quote)| == |Escaped(value, 0, q)| + 2
  {
    var q := ChooseQuote(value, quote);
    var e := Escaped(value, 0, q);
    QuoteTextPieces(value, quote);
    assert QuoteText(value, quote) == [q] + (e + [q]);
    AtSplit(src, cur, next, [q], e + [q]);
  }

  /** `quoteString(value)` read where a value or a property name may start is one
      string token holding exactly `value`, and the lexer stops right after the
      closing quote. */
  lemma QuotedStringRoundTrip(u: UnicodeTables, src: string, ps: ParseState, cur: Cursor,
                              value: string, quote: Option<QuoteChar>)
    requires ValueAllowed(ps) || ps == BeforePropertyName
    requires At(src, cur, QuoteText(value, quote))
    ensures var r := NextToken(u, src, ps, cur);
      r.Ok? && r.value.0.kind == StringToken(value) && r.value.1.pos == cur.pos + |QuoteText(value, quote)|
  {
    var q := ChooseQuote(value, quote);
    QuoteTextAt(src, cur, cur.(pos := cur.pos + 1), value, quote);
    var next;
    if ps == BeforePropertyName {
      next := OpeningQuoteInName(u, src, cur, q);
    } else {
      next := OpeningQuoteInValue(u, src, ps, cur, q);
    }
    QuoteTextAt(src, cur, next, value, quote);
    assert value[..0] == "";
    StringRestLexes(u, src, ps, next, LexVars(String, "", q == '"', 1), value, 0, q);
  }

  // ---------------------------------------------------------------- keys

  /** The real ID_Start table holds no white space, so an identifier cannot
      start where the lexer would skip blanks. */
  ghost predicate BlankFreeTables(u: UnicodeTables) {
    forall c :: c in u.idStart ==> !IsSkippedWhitespace(c) && !IsSpaceSeparator(c)
  }

  /** Inside an identifier with key[..j] read, the remaining identifier-continue
      characters and a character that cannot continue it end the token with
      exactly `key`. */
  lemma {:induction false} IdentifierRestLexes(u: UnicodeTables, src: string, cur: Cursor, v: LexVars, key: string, j: nat)
    requires NonAsciiTables(u)
    requires 1 <= j <= |key| && BareKey(u, key)
    requires v.state == IdentifierName && v.buffer == key[..j]
    requires At(src, cur, key[j..])
    requires var n := cur.pos + |key| - j; n < |src| ==> !IsIdContinueChar(u, src[n]) && src[n] != '\\'
    ensures var r := Lex(u, src, BeforePropertyName, cur, v);
      r.Ok? && r.value.0.kind == Identifier(key) && r.value.1.pos == cur.pos + |key| - j
    decreases |key| - j
  {
    if j == |key| {
      assert key[..j] == key;
    } else {
      var c := key[j];
      AtChar(src, cur, key[j..], 0);
      assert IsIdContinueChar(u, c);
      assert c in u.idContinue ==> c as int >= 0x80;
      var w := v.(buffer := v.buffer + [c]);
      var next := Advance(src, cur);
      assert LexStep(u, src, BeforePropertyName, cur, v) == Continue(next, w);
      StepDecreases(u, src, BeforePropertyName, cur, v);
      assert key[..j + 1] == key[..j] + [c];
      assert At(src, next, key[j + 1..]) by {
        assert src[next.pos..next.pos + |key| - j - 1] == key[j..][1..];
      }
      IdentifierRestLexes(u, src, next, w, key, j + 1);
    }
  }

  /** `serializeKey(key)` read where a property name may start is the identifier
      `key` when it was written bare, and the string token `key` otherwise. A
      bare key must be followed by a character that cannot continue an
      identifier, as the `:` serializeObject writes after it is. */
  lemma KeyRoundTrip(u: UnicodeTables, src: string, cur: Cursor, key: string, quote: Option<QuoteChar>)
    requires NonAsciiTables(u) && BlankFreeTables(u)
    requires At(src, cur, KeyText(u, key, quote))
    requires var n := cur.pos + |KeyText(u, key, quote)|;
      n < |src| ==> !IsIdContinueChar(u, src[n]) && src[n] != '\\'
    ensures var r := NextToken(u, src, BeforePropertyName, cur);
      r.Ok? && r.value.0.kind == (if BareKey(u, key) then Identifier(key) else StringToken(key)) &&
      r.value.1.pos == cur.pos + |KeyText(u, key, quote)|
  {
    if !BareKey(u, key) {
      QuotedStringRoundTrip(u, src, BeforePropertyName, cur, key, quote);
    } else {
      var c := key[0];
      AtChar(src, cur, key, 0);
      assert c in u.idStart ==> c as int >= 0x80;
      var w := InitialVars.(state := IdentifierName, buffer := [c]);
      var next := Advance(src, cur);
      assert LexStep(u, src, BeforePropertyName, cur, InitialVars) == Continue(next, w);
      StepDecreases(u, src, BeforePropertyName, cur, InitialVars);
      assert key[..1] == [c];
      assert At(src, next, key[1..]) by {
        assert src[next.pos..next.pos + |key| - 1] == key[1..];
      }
      IdentifierRestLexes(u, src, next, w, key, 1);
    }
  }
}
