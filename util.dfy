/** The character classifiers of the bundled JSON5 codec (`util` in wica.js). */
module Json5Util {
  import opened Wrappers

  /** The generated Unicode property tables ID_Start and ID_Continue (Unicode
      Standard Annex #31, section 2) are table data; the model takes them as a
      parameter. Only their membership is observed. */
  datatype UnicodeTables = UnicodeTables(idStart: set<char>, idContinue: set<char>)

  /** The real tables hold no ASCII character: ASCII letters, digits, `$` and `_`
      are handled by the explicit tests in IsIdStartChar and IsIdContinueChar. */
  ghost predicate NonAsciiTables(u: UnicodeTables) {
    (forall c :: c in u.idStart ==> c as int >= 0x80) &&
    (forall c :: c in u.idContinue ==> c as int >= 0x80)
  }

  /** The Unicode Space_Separator class, a short table given concretely. */
  predicate IsSpaceSeparator(c: char) {
    c == '\U{1680}' || ('\U{2000}' <= c <= '\U{200A}') ||
    c == '\U{202F}' || c == '\U{205F}' || c == '\U{3000}'
  }

  predicate IsIdStartChar(u: UnicodeTables, c: char) {
    ('a' <= c <= 'z') || ('A' <= c <= 'Z') || c == '$' || c == '_' || c in u.idStart
  }

  predicate IsIdContinueChar(u: UnicodeTables, c: char) {
    ('a' <= c <= 'z') || ('A' <= c <= 'Z') || ('0' <= c <= '9') ||
    c == '$' || c == '_' || c == '\U{200C}' || c == '\U{200D}' ||
    c in u.idContinue
  }

  predicate IsDigit(c: char) {
    '0' <= c <= '9'
  }

  predicate IsHexDigit(c: char) {
    ('0' <= c <= '9') || ('a' <= c <= 'f') || ('A' <= c <= 'F')
  }

  /** `util.isDigit(c)` where `c` may be `undefined`: a regular-expression test of
      String(undefined) == "undefined" finds no digit. */
  predicate IsDigitOpt(c: Option<char>) {
    c.Some? && IsDigit(c.value)
  }

  /** The text JavaScript's String() gives a peeked character: the character, or
      "undefined" past the end of the input. */
  function JsString(c: Option<char>): (s: string)
    ensures c.Some? ==> s == [c.value]
  {
    match c
    case Some(ch) => [ch]
    case None => "undefined"
  }

  /** `util.isHexDigit(c)` as written: an unanchored regular-expression test of
      String(c), which holds for `undefined` because "undefined" contains the hex
      digits d, e and f. */
  predicate IsHexDigitAsWritten(c: Option<char>) {
    exists i :: 0 <= i < |JsString(c)| && IsHexDigit(JsString(c)[i])
  }

  /** `util.isHexDigit(c)` as intended: false past the end of the input. This is the
      predicate the lexer model uses. */
  predicate IsHexDigitOpt(c: Option<char>) {
    c.Some? && IsHexDigit(c.value)
  }

  lemma HexDigitAsWrittenAgrees(c: Option<char>)
    ensures IsHexDigitAsWritten(c) <==> (c.None? || IsHexDigitOpt(c))
  {
    if c.None? {
      assert IsHexDigit(JsString(c)[2]);
    } else {
      assert JsString(c)[0] == c.value;
    }
  }

  /** The number of UTF-16 code units of a code point: what `c.length` adds to the
      column in `read()`. */
  function Utf16Length(c: char): (n: nat)
    ensures n == 1 || n == 2
  {
    if c as int >= 0x10000 then 2 else 1
  }

  predicate IsSurrogate(code: nat) {
    0xD800 <= code <= 0xDFFF
  }

  predicate IsHighSurrogate(code: nat) {
    0xD800 <= code <= 0xDBFF
  }

  predicate IsLowSurrogate(code: nat) {
    0xDC00 <= code <= 0xDFFF
  }

  /** The UTF-16 code units of a code point, as a JavaScript string holds it:
      one unit below U+10000, otherwise a high and a low surrogate. */
  function Utf16Units(c: char): (units: seq<nat>)
    ensures |units| == Utf16Length(c)
    ensures |units| == 1 ==> units[0] == c as nat && !IsSurrogate(units[0])
    ensures |units| == 2 ==> IsHighSurrogate(units[0]) && IsLowSurrogate(units[1])
  {
    if c as int < 0x10000 then [c as nat]
    else
      var offset := c as int - 0x10000;
      [0xD800 + offset / 0x400, 0xDC00 + offset % 0x400]
  }

  /** The code point a high and a low surrogate stand for when they are adjacent
      in a JavaScript string, as `String.fromCodePoint(hi) + String.fromCodePoint(lo)`
      leaves them. */
  function PairCodePoint(hi: nat, lo: nat): (c: char)
    requires IsHighSurrogate(hi) && IsLowSurrogate(lo)
    ensures 0x10000 <= c as int
  {
    var code := 0x10000 + (hi - 0xD800) * 0x400 + (lo - 0xDC00);
    assert code <= 0x10FFFF;
    code as char
  }

  /** The character a surrogate pair decodes to is encoded by that pair. */
  lemma PairCodePointUnits(hi: nat, lo: nat)
    requires IsHighSurrogate(hi) && IsLowSurrogate(lo)
    ensures Utf16Units(PairCodePoint(hi, lo)) == [hi, lo]
  {
    var code := PairCodePoint(hi, lo) as int;
    assert (code - 0x10000) / 0x400 == hi - 0xD800 && (code - 0x10000) % 0x400 == lo - 0xDC00;
  }

  /** Decoding the surrogates of an astral code point gives the code point back. */
  lemma PairCodePointInverse(c: char)
    requires Utf16Length(c) == 2
    ensures var units := Utf16Units(c); PairCodePoint(units[0], units[1]) == c
  {
    var units := Utf16Units(c);
    var offset := c as int - 0x10000;
    assert (units[0] - 0xD800) * 0x400 + (units[1] - 0xDC00) == offset;
  }

  function HexDigitValue(c: char): (d: nat)
    requires IsHexDigit(c)
    ensures d < 16
  {
    if '0' <= c <= '9' then c as nat - '0' as nat
    else if 'a' <= c <= 'f' then c as nat - 'a' as nat + 10
    else c as nat - 'A' as nat + 10
  }

  function Pow16(n: nat): (p: nat)
    ensures p >= 1
  {
    if n == 0 then 1 else 16 * Pow16(n - 1)
  }

  predicate AllHexDigits(s: string) {
    forall i :: 0 <= i < |s| ==> IsHexDigit(s[i])
  }

  /** A string is all hex digits exactly when its first character is one and the
      rest are. */
  lemma AllHexDigitsCons(s: string)
    requires |s| > 0
    ensures AllHexDigits(s) <==> IsHexDigit(s[0]) && AllHexDigits(s[1..])
  {
    if IsHexDigit(s[0]) && AllHexDigits(s[1..]) {
      forall i | 0 <= i < |s| ensures IsHexDigit(s[i]) {
        if i > 0 { assert s[i] == s[1..][i - 1]; }
      }
    }
  }

  /** `parseInt(s, 16)` on a string made only of hex digits. */
  function HexValue(s: string): (v: nat)
    requires AllHexDigits(s)
    ensures v < Pow16(|s|)
  {
    if s == [] then 0
    else
      var init := s[..|s| - 1];
      assert AllHexDigits(init) by {
        forall i | 0 <= i < |init| ensures IsHexDigit(init[i]) { assert init[i] == s[i]; }
      }
      HexValue(init) * 16 + HexDigitValue(s[|s| - 1])
  }
}
