# Wica JSON5 codec and plot buffer, modelled in Dafny

The Wica browser library (`wica.js`) connects HTML elements to a server-sent
event stream of control-system channels. This project models three parts of it.

- **The bundled JSON5 codec** is the code the library uses to decode channel
  metadata and value arrays.
  - `parse` has its lexer (`lex`, `peek`, `read`, the `lexStates` handlers, and
    the helpers `literal`, `escape`, `hexEscape`, `unicodeEscape`), its parse
    states (`parseStates`, `push`, `pop`) and `internalize`, the reviver pass.
  - `stringify` has its inner functions `serializeProperty`, `quoteString`,
    `serializeObject`, `serializeKey` and `serializeArray`.
- **`PlotBuffer`** keeps per-channel value buffers. The model covers the
  constructor's map set-up, the metadata update in the mutation handler,
  `updateBufferedChannelValues_` and `isDataAvailable`.
- **`StreamManager.extractEventSourceStreamIdFromUrl_`** takes the stream id
  from a stream URL.

How each kind of code is modelled:

- **Lexer.** Each lexer handler is a transition function from a `Cursor`
  (`pos`, `line`, `column`) and the per-token variables (`lexState`, `buffer`,
  `doubleQuote`, `sign`) to a `Step`: continue, emit a token, or throw.
- **Parser.** The module-level parser variables become the fields of the class
  `Json5Parser.Parser`. Its methods `Lex`, `Push`, `Pop`, `HandleToken`,
  `Internalize` and `Parse` update them as the source's functions do.
  `HandleToken` is proved against `Handle`, a function on parse
  configurations, and `Parse` against `Run`, which reads tokens with the
  lexer and hands them to `Handle` until `eof`.
- **Containers.** Objects and arrays are reference values that the parser
  fills in place. They live in an explicit heap (`seq<Node>`), and a slot
  refers to a container by its index. `push` allocates every container fresh
  and attaches it once, so the parser's heap is a tree (`Json5Tree.Tree`: no
  two slots refer to the same container). The reviver pass relies on this:
  reviving one member cannot change another member's subtree.
- **Serializer.** `stack` and `indent`, the serializer's closure variables,
  are the fields of `Json5Stringify.Stringifier`. Each of its methods is
  proved equal to a pure function (`PropertyText`, `ContainerText`, …), and
  the properties are proved about those functions.
- **PlotBuffer.** It is a class whose maps are fields. The push and shift
  loops are kept, and they are proved against `Buffered`, the longest suffix
  of the old contents plus the received values that fits the limit.

Text is a sequence of code points, and `pos` counts code points. `column`
advances by the UTF-16 length of each code point, as `c.length` does in the
source. The Unicode `ID_Start`/`ID_Continue` tables are a parameter
(`UnicodeTables`). Numbers are kept as their sign multiplier and lexeme. The
serializer's number formatting (`String(n)`) is a caller-supplied function.

The model follows the code as written, with one exception: the hex-digit test
is guarded so that the end of the input is not a digit. The source's
`isHexDigit(undefined)` is true, and the guard changes `hexadecimal`,
`hexadecimalInteger`, `hexEscape` and `unicodeEscape` at the end of the input.
Both versions are modelled; see "## Findings". A `\uXXXX` escape naming a
high surrogate, followed directly by one naming a low surrogate, decodes to
the one astral character the pair spells, as the source's UTF-16 string
does. Two consequences of following the code are easy to miss:

- The parser's and serializer's stacks are not restored when an error is
  thrown, because the code has no `try`/`finally`.
- `serializeKey` walks the key by UTF-16 code units. Any astral character
  after the first therefore forces the key to be quoted.

## Model

| member | source | states |
|---|---|---|
| Json5Util.HexDigitAsWrittenAgrees | src/svg_example/wica/wica.js:446-448 | `isHexDigit` as written (a regular expression applied to `String(c)`) agrees with the guarded test the model uses on every character, and it also accepts `undefined` (the end of the input) |
| Json5Util.HexValue | src/svg_example/wica/wica.js:1230-1264 | `parseInt(digits, 16)` of n hex digits is below 16^n |
| Json5Util.Utf16Units | src/svg_example/wica/wica.js:539-556 | the UTF-16 code units of a code point: one non-surrogate unit equal to the code point, or a high surrogate then a low one |
| Json5Util.PairCodePoint | src/svg_example/wica/wica.js:1250-1264 | the code point a surrogate pair spells is astral |
| Json5Util.PairCodePointUnits | src/svg_example/wica/wica.js:1250-1264 | the code point a surrogate pair spells encodes back to that pair |
| Json5Util.PairCodePointInverse | src/svg_example/wica/wica.js:1250-1264 | an astral code point is the one its own surrogate pair spells |
| Json5Util.IsSpaceSeparator | src/svg_example/wica/wica.js:406-420 | definition: the `Space_Separator` class; the `default` state's whitespace rule is in DefaultStepSound |
| Json5Util.IsIdStartChar | src/svg_example/wica/wica.js:422-429 | definition: ASCII letters, `$`, `_` or the `ID_Start` table; its properties are in KeyBareIff and IdentifierRestLexes |
| Json5Util.IsIdContinueChar | src/svg_example/wica/wica.js:431-440 | definition: ASCII letters and digits, `$`, `_`, ZWNJ, ZWJ or the `ID_Continue` table; its properties are in KeyBareIff and IdentifierRestLexes |
| Json5Util.Utf16Length | src/svg_example/wica/wica.js:539-556 | `c.length` of a code point is 1 or 2 |
| Json5Values.IndexOfKey | src/svg_example/wica/wica.js:491 | the position of the key: -1 exactly when no property has it, otherwise the first property that has it |
| Json5Values.Lookup | src/svg_example/wica/wica.js:491 | definition: `holder[name]`, or `undefined` when the key is absent; its properties are in SetProp and ReviveFinds |
| Json5Values.SetProp | src/svg_example/wica/wica.js:1421-1426 | `parent[key] = value`: afterwards the key maps to the value; a new key is appended to the key order and an existing key keeps its place; keys stay distinct; no other property is changed |
| Json5Values.RemoveProp | src/svg_example/wica/wica.js:495-497 | `delete value[key]`: an absent key leaves the properties as they are; a present key's property is cut out and the others are kept in order; with distinct keys the key is then gone and keys stay distinct |
| Json5Values.SetPropInPlace | src/svg_example/wica/wica.js:498-499 | assigning to an existing key replaces that property where it stands |
| Json5Values.RemovePropInPlace | src/svg_example/wica/wica.js:495-497 | deleting an existing key removes exactly that property |
| Json5Values.OrderedRefsInRange | src/svg_example/wica/wica.js:1428-1444 | in a heap where every container refers only to containers created after it (as `push` builds them), every reference is in range |
| Json5Lexer.Peek | src/svg_example/wica/wica.js:533-537 | the code point at the cursor, or none exactly at the end of the input |
| Json5Lexer.Advance | src/svg_example/wica/wica.js:539-556 | `read()`: the position moves by one except at the end; the line advances exactly on `\n` |
| Json5Lexer.Literal | src/svg_example/wica/wica.js:1143-1153 | succeeds exactly when the text at the cursor is the expected word, and then the cursor is just past it |
| Json5Lexer.HexDigits | src/svg_example/wica/wica.js:1250-1264 | with the guarded hex-digit test, succeeds exactly when the next n characters are hex digits, returning them and the cursor past them; a failure is an invalid-character or invalid-end-of-input error |
| Json5Lexer.HexEscape | src/svg_example/wica/wica.js:1230-1248 | with the guarded hex-digit test, succeeds exactly when two hex digits follow; the character has the value they spell |
| Json5Lexer.UnicodeEscape | src/svg_example/wica/wica.js:1250-1264 | with the guarded hex-digit test, succeeds exactly when four hex digits follow, and yields the UTF-16 code unit they spell (below 0x10000) |
| Json5Lexer.FollowingUnicodeEscape | src/svg_example/wica/wica.js:1250-1264 | there is a further escape exactly when `\u` comes next; when its four digits read, the cursor has moved past it and stays within the input |
| Json5Lexer.StringUnicodeEscape | src/svg_example/wica/wica.js:1250-1264 | `\u` in a string: on success it yields one character and the cursor moves forward within the input |
| Json5Lexer.Escape | src/svg_example/wica/wica.js:1155-1228 | a successful escape consumes at least one character and stays within the input |
| Json5Lexer.DefaultState | src/svg_example/wica/wica.js:559-595 | `default`: a turn that continues has read a character or hands over to `value` without reading; a turn that emits leaves the cursor within the text |
| Json5Lexer.ParseStateLex | src/svg_example/wica/wica.js:1037-1132 | the parse-state lexers (`start` … `end`): a turn that continues has read a character or enters `value` without reading; a turn that emits leaves the cursor within the text |
| Json5Lexer.CommentState | src/svg_example/wica/wica.js:597-611 | `comment`: a turn that continues has read at least one character, and a turn that emits leaves the cursor within the text |
| Json5Lexer.MultiLineCommentState | src/svg_example/wica/wica.js:613-625 | `multiLineComment`: a turn that continues has read at least one character, and a turn that emits leaves the cursor within the text |
| Json5Lexer.MultiLineCommentAsteriskState | src/svg_example/wica/wica.js:627-644 | `multiLineCommentAsterisk`: a turn that continues has read at least one character, and a turn that emits leaves the cursor within the text |
| Json5Lexer.SingleLineCommentState | src/svg_example/wica/wica.js:646-662 | `singleLineComment`: a turn that continues has read at least one character, and a turn that emits leaves the cursor within the text |
| Json5Lexer.LiteralToken | src/svg_example/wica/wica.js:670-724 | `null`, `true`, `false`, `Infinity` and `NaN` end the token: they emit or throw, never continue |
| Json5Lexer.ValueState | src/svg_example/wica/wica.js:664-737 | `value`: a turn that continues has read at least one character, and a turn that emits leaves the cursor within the text |
| Json5Lexer.IdentifierNameStartEscapeState | src/svg_example/wica/wica.js:738-760 | `identifierNameStartEscape`: a turn that continues has read at least one character, and a turn that emits leaves the cursor within the text |
| Json5Lexer.IdentifierNameState | src/svg_example/wica/wica.js:762-783 | `identifierName`: a turn that continues has read at least one character, and a turn that emits leaves the cursor within the text |
| Json5Lexer.IdentifierNameEscapeState | src/svg_example/wica/wica.js:785-809 | `identifierNameEscape`: a turn that continues has read at least one character, and a turn that emits leaves the cursor within the text |
| Json5Lexer.SignState | src/svg_example/wica/wica.js:811-848 | `sign`: a turn that continues has read at least one character, and a turn that emits leaves the cursor within the text |
| Json5Lexer.ZeroState | src/svg_example/wica/wica.js:850-871 | `zero`: a turn that continues has read at least one character, and a turn that emits leaves the cursor within the text |
| Json5Lexer.DecimalIntegerState | src/svg_example/wica/wica.js:873-893 | `decimalInteger`: a turn that continues has read at least one character, and a turn that emits leaves the cursor within the text |
| Json5Lexer.DecimalPointLeadingState | src/svg_example/wica/wica.js:895-903 | `decimalPointLeading`: a turn that continues has read at least one character, and a turn that emits leaves the cursor within the text |
| Json5Lexer.DecimalPointState | src/svg_example/wica/wica.js:905-921 | `decimalPoint`: a turn that continues has read at least one character, and a turn that emits leaves the cursor within the text |
| Json5Lexer.DecimalFractionState | src/svg_example/wica/wica.js:923-938 | `decimalFraction`: a turn that continues has read at least one character, and a turn that emits leaves the cursor within the text |
| Json5Lexer.DecimalExponentState | src/svg_example/wica/wica.js:940-956 | `decimalExponent`: a turn that continues has read at least one character, and a turn that emits leaves the cursor within the text |
| Json5Lexer.DecimalExponentSignState | src/svg_example/wica/wica.js:958-966 | `decimalExponentSign`: a turn that continues has read at least one character, and a turn that emits leaves the cursor within the text |
| Json5Lexer.DecimalExponentIntegerState | src/svg_example/wica/wica.js:968-975 | `decimalExponentInteger`: a turn that continues has read at least one character, and a turn that emits leaves the cursor within the text |
| Json5Lexer.HexadecimalState | src/svg_example/wica/wica.js:977-985 | `hexadecimal`, with the guarded hex-digit test: a turn that continues has read at least one character, and a turn that emits leaves the cursor within the text |
| Json5Lexer.HexadecimalIntegerState | src/svg_example/wica/wica.js:987-994 | `hexadecimalInteger`, with the guarded hex-digit test: a turn that continues has read at least one character, and a turn that emits leaves the cursor within the text |
| Json5Lexer.StringState | src/svg_example/wica/wica.js:996-1035 | `string`: a turn that continues has read at least one character, and a turn that emits leaves the cursor within the text |
| Json5Lexer.LexStep | src/svg_example/wica/wica.js:518-530 | one turn of the loop in `lex()`: every handler reads input or ends the token; only `default` may hand over without reading |
| Json5Lexer.StepDecreases | src/svg_example/wica/wica.js:518-530 | with the guarded hex-digit test, a turn that continues decreases a measure of the remaining input and the lexer state, so `lex()` terminates |
| Json5Lexer.Lex | src/svg_example/wica/wica.js:512-531 | definition: the `do … while` loop of `lex()`, running handlers until one emits or throws, by the measure of StepDecreases; its properties are in LexSound and Continues |
| Json5Lexer.NextToken | src/svg_example/wica/wica.js:512-531 | definition: `lex()` from fresh per-token variables; its properties are in NextTokenSound |
| Json5LexerSound.DefaultStepSound | src/svg_example/wica/wica.js:559-595 | a turn in `default` keeps the loop invariant; any token it emits fits the parse state, and `eof` comes only at the end of the input |
| Json5LexerSound.NumberStepSound | src/svg_example/wica/wica.js:811-995 | a turn in a number state keeps the loop invariant; any token it emits is a number that the parse state accepts |
| Json5LexerSound.CommentStepSound | src/svg_example/wica/wica.js:597-662 | a turn in a comment state keeps the loop invariant; any token it emits fits the parse state, and `eof` comes only at the end of the input |
| Json5LexerSound.OtherStepSound | src/svg_example/wica/wica.js:664-1035 | a turn in `value`, an identifier state or `string` keeps the invariant; any token it emits is one that the parse state expects |
| Json5LexerSound.StepSound | src/svg_example/wica/wica.js:518-530 | every turn of the loop keeps the invariant, and any token it returns is one that the current parse state expects |
| Json5LexerSound.LexSound | src/svg_example/wica/wica.js:512-531 | a completed `lex()` returns a token the parse state expects; every other token moves the cursor forward, and `eof` comes only at the end of the input |
| Json5LexerSound.NextTokenSound | src/svg_example/wica/wica.js:512-531 | `lex()` from the initial variables returns a token that fits the parse state, so the parse-state handlers never meet an unexpected token type |
| Json5LexerProps.LeadingDotNeedsDigit | src/svg_example/wica/wica.js:895-903 | after a leading `.`, anything but a digit is an error |
| Json5LexerProps.HexPrefixNeedsHexDigit | src/svg_example/wica/wica.js:977-985 | with the guarded hex-digit test, after `0x`, anything but a hex digit is an error |
| Json5LexerProps.ExponentNeedsDigit | src/svg_example/wica/wica.js:940-966 | after `e` and an optional sign, anything but a digit is an error |
| Json5LexerProps.SignMultiplier | src/svg_example/wica/wica.js:685-692 | `-` sets the sign to -1 and `+` leaves it as it was, and the lexer moves to `sign` |
| Json5LexerProps.NumberStepKeepsSign | src/svg_example/wica/wica.js:811-995 | a turn in a number state never changes the sign |
| Json5LexerProps.NumberKeepsSign | src/svg_example/wica/wica.js:811-995 | every number token carries the sign chosen before its digits |
| Json5LexerProps.DigitEscapesRejected | src/svg_example/wica/wica.js:1181-1218 | `\0` followed by a digit, and `\1` to `\9`, are errors at the offending digit |
| Json5LexerProps.NulEscape | src/svg_example/wica/wica.js:1181-1188 | `\0` not followed by a digit is the NUL character |
| Json5LexerProps.HexEscapeExact | src/svg_example/wica/wica.js:1190-1192 | with the guarded hex-digit test, `\x` succeeds exactly on two hex digits and yields the character they spell |
| Json5LexerProps.UnicodeEscapeExact | src/svg_example/wica/wica.js:1194-1196 | with the guarded hex-digit test, `\u` without four hex digits is a syntax error (not an unrepresentable escape); four hex digits naming a non-surrogate yield that character and move the cursor past them |
| Json5LexerProps.SurrogatePairEscape | src/svg_example/wica/wica.js:1194-1196 | `\u` naming a high surrogate followed directly by `\u` naming a low surrogate yields one character whose UTF-16 encoding is that pair, and moves past both escapes |
| Json5LexerProps.IdentifierSurrogateEscape | src/svg_example/wica/wica.js:738-809 | a `\u` escape naming a surrogate in an identifier is an invalid identifier character, at the backslash |
| Json5LexerProps.HexBufferAsWritten | src/svg_example/wica/wica.js:1230-1264 | the digit loop with `isHexDigit` as written: on success the cursor stays within the input |
| Json5LexerProps.UndefinedTimes | src/svg_example/wica/wica.js:1254-1261 | `buffer += read()` past the end appends `"undefined"` each time: k reads append 9k characters |
| Json5LexerProps.HexPrefixLength | src/svg_example/wica/wica.js:1263 | the longest prefix of hex digits that `parseInt(buffer, 16)` reads: all hex digits, followed by a non-digit or the end |
| Json5LexerProps.ParseIntHex | src/svg_example/wica/wica.js:1263 | `parseInt(buffer, 16)` is `NaN` exactly when the buffer is empty or starts with a non-digit |
| Json5LexerProps.HexCodeAsWritten | src/svg_example/wica/wica.js:1230-1264 | definition: `hexEscape`/`unicodeEscape` as written (a code, a thrown syntax error, or a `RangeError` from `String.fromCodePoint(NaN)`); its properties are in EscapeAtEndAsWritten and HexCodeAgrees |
| Json5LexerProps.HexCodeModel | src/svg_example/wica/wica.js:1230-1264 | definition: the guarded escape as an outcome; its properties are in EscapeAtEndCorrected and HexCodeAgrees |
| Json5LexerProps.HexBufferAgrees | src/svg_example/wica/wica.js:1230-1264 | unless the input ends inside the digits with only hex digits before the end, the as-written digit loop equals the guarded one |
| Json5LexerProps.HexPrefixOfDigits | src/svg_example/wica/wica.js:1263 | `parseInt` of hex digits followed by other text reads exactly those digits |
| Json5LexerProps.HexCodeAgrees | src/svg_example/wica/wica.js:1230-1264 | away from that end-of-input case, the as-written escape yields exactly what the guarded one yields |
| Json5LexerProps.HexBufferAtEnd | src/svg_example/wica/wica.js:1254-1261 | as written, hex digits that run to the end of the input are followed in the buffer by one `"undefined"` per missing digit, and the column moves by n |
| Json5LexerProps.HexBufferPastEnd | src/svg_example/wica/wica.js:1254-1261 | as written, reading n digits at the end gives n copies of `"undefined"` |
| Json5LexerProps.EscapeAtEndAsWritten | src/svg_example/wica/wica.js:1230-1264 | as written, an escape whose digits run to the end yields the code the digits present spell, with the column past all n; with no digit it is a `RangeError` |
| Json5LexerProps.EscapeAtEndCorrected | src/svg_example/wica/wica.js:1230-1264 | with the guarded test, the same input is an invalid-end-of-input error one column after the last character |
| Json5LexerProps.LineContinuation | src/svg_example/wica/wica.js:1198-1212 | a backslash before a line terminator yields nothing; `\r\n` counts as one terminator |
| Json5LexerProps.StringNeedsClosingQuote | src/svg_example/wica/wica.js:996-1035 | a raw line feed or carriage return inside a string, or the end of the input, is an error |
| Json5LexerProps.UnterminatedBlockComment | src/svg_example/wica/wica.js:613-644 | a block comment that is never closed ends in an invalid-end-of-input error |
| Json5LexerProps.LineCommentEndsAtEof | src/svg_example/wica/wica.js:646-662 | a line comment that runs to the end of the input yields the `eof` token |
| Json5LexerProps.HexadecimalStateAsWritten | src/svg_example/wica/wica.js:977-985 | `hexadecimal` with `isHexDigit` as written: when it continues, it is in `hexadecimalInteger` |
| Json5LexerProps.HexadecimalIntegerStateAsWritten | src/svg_example/wica/wica.js:987-994 | `hexadecimalInteger` as written: when it continues, it stays in `hexadecimalInteger` |
| Json5LexerProps.HexLiteralAtEndLoopsAsWritten | src/svg_example/wica/wica.js:977-995 | as written, a hex literal at the end of the input makes no progress: for any number of turns the string length allows, the lexer is still at the end, still in a hex state, and the buffer has grown by `"undefined"` each turn |
| Json5LexerProps.HexLiteralAtEndCorrected | src/svg_example/wica/wica.js:977-995 | with the guarded test, `0x` at the end is an invalid-end-of-input error and `0x1F` at the end emits its number |
| Json5LexerProps.Continues | src/svg_example/wica/wica.js:518-530 | a turn that continues hands the rest of `lex()` to the next state unchanged |
| Json5LexerProps.NegativeNumberExample | src/svg_example/wica/wica.js:685-893 | `-5` lexes as the number 5 with sign -1, ending at column 2 |
| Json5LexerProps.LeadingDotExample | src/svg_example/wica/wica.js:895-903 | `.e` is rejected at the `e`, reported at line 1, column 2 |
| Json5Tree.InChildSubtreeNext | src/svg_example/wica/wica.js:492-501 | visiting one more member of a container adds exactly the subtree that member holds to what has been reached |
| Json5Tree.SubtreeBounds | src/svg_example/wica/wica.js:490-504 | the subtree of a container holds only that container and containers allocated after it, so the reviver pass below a member never reaches its parent |
| Json5Tree.HolderInSubtree | src/svg_example/wica/wica.js:490-504 | every container below the top of a subtree is held by a member of some container of that subtree |
| Json5Tree.SubtreesNest | src/svg_example/wica/wica.js:490-504 | in a tree, two subtrees that share a container are nested |
| Json5Tree.SiblingsDisjoint | src/svg_example/wica/wica.js:492-501 | in a tree, the subtrees held by two different members of a container share no container, so reviving one member leaves the other members' subtrees as they were |
| Json5Tree.NotAboveParent | src/svg_example/wica/wica.js:492-501 | in a tree, one member's subtree does not contain the container another member holds |
| Json5Tree.SubtreeFrame | src/svg_example/wica/wica.js:490-504 | a subtree depends only on its own containers: a heap that agrees on them has the same subtree |
| Json5Tree.GrowKeepsTree | src/svg_example/wica/wica.js:1394-1400 | allocating a new empty container `{}` or `[]` keeps the heap a tree, and no member refers to it yet |
| Json5Tree.ArraySlotKeepsTree | src/svg_example/wica/wica.js:495-499 | deleting an array element, or replacing it by a value that is not a container, keeps the heap a tree |
| Json5Tree.ArrayAppendKeepsTree | src/svg_example/wica/wica.js:1421-1422 | `parent.push(value)` of a value no member holds yet keeps the heap a tree |
| Json5Tree.ObjectUpdateKeepsTree | src/svg_example/wica/wica.js:1423-1424 | rewriting an object so that it keeps distinct keys and every container it holds is the new value or one it held before keeps the heap a tree |
| Json5Parser.StateAfterValue | src/svg_example/wica/wica.js:1432-1459 | definition: `end` with no open container, `afterArrayValue` in an array, `afterPropertyValue` in an object; its properties are in StateAfterValueMatches |
| Json5Parser.PushResult | src/svg_example/wica/wica.js:1388-1446 | definition: the heap, stack, root and parse state after `push()` of a token; its properties are in PushKeepsShape, PushKeepsHeapShape and Handle |
| Json5Parser.Attach | src/svg_example/wica/wica.js:1417-1426 | attaching to an array appends the value; attaching to an object sets the key, keeping keys distinct |
| Json5Parser.AttachKeepsTree | src/svg_example/wica/wica.js:1417-1426 | attaching a value that no member holds yet, to the root or to the innermost container, keeps the heap a tree |
| Json5Parser.StateAfterValueMatches | src/svg_example/wica/wica.js:1448-1459 | the state after a value is `end` with no open container, `afterArrayValue` in an array, and `afterPropertyValue` in an object |
| Json5Parser.PushKeepsHeapShape | src/svg_example/wica/wica.js:1388-1446 | `push()` keeps the heap ordered, with distinct object keys, and a tree; it changes no container's kind, and a `{` or `[` allocates the new container at the end |
| Json5Parser.PushKeepsShape | src/svg_example/wica/wica.js:1388-1446 | `push()` in a state that expects a value keeps the heap ordered, well formed and a tree, the stack within it, and the parse state in agreement with the innermost container |
| Json5Parser.PushConfig | src/svg_example/wica/wica.js:1388-1446 | `push()` on a parse configuration keeps the parser's shape |
| Json5Parser.PopConfig | src/svg_example/wica/wica.js:1448-1459 | `pop()` on a parse configuration keeps the parser's shape |
| Json5Parser.Handle | src/svg_example/wica/wica.js:1266-1386 | the parse-state handler for a token keeps the parser's shape; a value token in a state that expects one does exactly what `push()` does and keeps the key; any other token changes neither the heap nor the root; only an identifier or string in `beforePropertyName` changes the key; `end` ignores the token |
| Json5Parser.Run | src/svg_example/wica/wica.js:461-481 | the `do … while (token.type !== 'eof')` loop: a run that succeeds ends in state `end` with no open container and a root, in a heap of the parser's shape |
| Json5Parser.NatToString | src/svg_example/wica/wica.js:490-504 | `String(i)` of an array index is its decimal numeral: a non-empty string of digits whose value is `i`, with no leading zero |
| Json5Parser.ReviveSlot | src/svg_example/wica/wica.js:495-503 | definition: keep, `undefined` for delete, or the replacement; its properties are in ReviveSlotInRange |
| Json5Parser.ReviveItem | src/svg_example/wica/wica.js:493-499 | definition: an array hole is skipped by `for … in`, any other element becomes the reviver's answer for `String(i)`; its properties are in VisitItem and InternalizeArray |
| Json5Parser.ReviveNode | src/svg_example/wica/wica.js:492-501 | definition: a container after the loop over its own members; its properties are in ReviveChildStep and RevivedAllChildren |
| Json5Parser.RevivedSubtree | src/svg_example/wica/wica.js:490-504 | definition: every container reachable from the slot is its `ReviveNode`, every other container is unchanged; it is the postcondition of InternalizeNode and Parser.Internalize |
| Json5Parser.ReviveSlotInRange | src/svg_example/wica/wica.js:503 | the reviver's answer for a value in range is in range: the value itself, `undefined`, or a value that is not a container |
| Json5Parser.ReviveProps | src/svg_example/wica/wica.js:493-500 | the reviver pass over an object never adds members |
| Json5Parser.ReviveAvoidsKey | src/svg_example/wica/wica.js:493-500 | the reviver pass adds no key the object did not have |
| Json5Parser.ReviveRefsWithin | src/svg_example/wica/wica.js:493-500 | the reviver pass introduces no reference |
| Json5Parser.ReviveKeepsKeysDistinct | src/svg_example/wica/wica.js:493-500 | the reviver pass keeps an object's keys distinct |
| Json5Parser.ReviveFinds | src/svg_example/wica/wica.js:493-494 | when the loop reaches a member, the object still holds that member's original value |
| Json5Parser.ReviveStep | src/svg_example/wica/wica.js:495-499 | deleting or replacing the member the loop is at turns the object revived up to that member into the object revived one member further |
| Json5Parser.VisitKeepsShape | src/svg_example/wica/wica.js:495-499 | the reviver's answer for a member, stored into the object, keeps the heap ordered and the keys distinct |
| Json5Parser.MemberUpdateKeepsTree | src/svg_example/wica/wica.js:495-499 | the reviver's answer for a member, stored into the object, keeps the heap a tree |
| Json5Parser.ApplyKeepsRefs | src/svg_example/wica/wica.js:495-499 | deleting or replacing a member keeps the keys distinct, and every container the object then holds is one it held before |
| Json5Parser.ReviveChildStep | src/svg_example/wica/wica.js:492-501 | in a tree, reviving the subtree of member n, when members before n have been revived, extends what has been revived by exactly that member's subtree and leaves the container itself alone |
| Json5Parser.ReviveChildStore | src/svg_example/wica/wica.js:492-501 | the same, followed by storing the reviver's answer into the container |
| Json5Parser.RevivedChildrenStore | src/svg_example/wica/wica.js:495-499 | storing into the container keeps what the loop over its members has revived |
| Json5Parser.RevivedAllChildren | src/svg_example/wica/wica.js:490-504 | once every member has been visited and the container holds its revived members, the container's whole subtree is revived: each container in it is `ReviveNode` of its old contents and every other container is unchanged |
| Json5Parser.RevivedEnds | src/svg_example/wica/wica.js:492-501 | before the first member nothing is revived, and after the last the object is `ReviveProps` of its old members |
| Json5Parser.InternalizeNode | src/svg_example/wica/wica.js:490-504 | the reviver pass over a container revives its whole subtree (every container reachable from it becomes `ReviveNode` of its old contents) and changes no other container; the heap stays ordered, with distinct keys, and a tree |
| Json5Parser.InternalizeArray | src/svg_example/wica/wica.js:492-501 | the same for an array: holes are skipped, and each element is revived, then replaced or deleted as the reviver says |
| Json5Parser.VisitItem | src/svg_example/wica/wica.js:493-500 | one turn of the loop over an array: the element's subtree is revived, the array itself is left alone, and the array to store is the one revived one element further, which keeps the heap's shape |
| Json5Parser.InternalizeObject | src/svg_example/wica/wica.js:492-501 | the same for an object: members are visited in key order, revived, then replaced or deleted as the reviver says |
| Json5Parser.VisitMember | src/svg_example/wica/wica.js:493-500 | one turn of the loop over an object: the member's subtree is revived, the object itself is left alone, and the object to store is the one revived one member further, which keeps the heap's shape |
| Json5Parser.InternalizeChild | src/svg_example/wica/wica.js:494 | the recursive call revives the subtree of the member's value and leaves the holder unchanged |
| Json5Parser.Parser.constructor | src/svg_example/wica/wica.js:461-470 | `parse()`'s set-up: state `start`, empty stack, position 0, line 1, column 0, no key and no root |
| Json5Parser.Parser.Lex | src/svg_example/wica/wica.js:512-531 | runs the lexer's loop from the cursor, with the result `NextToken` gives; the token fits the parse state and nothing but the cursor changes |
| Json5Parser.Parser.Push | src/svg_example/wica/wica.js:1388-1446 | the heap, stack, root and parse state become `PushResult` of the token, which `PushKeepsShape` shows keeps the parser's shape |
| Json5Parser.Parser.Pop | src/svg_example/wica/wica.js:1448-1459 | the innermost container is closed, and the state becomes the one for its parent |
| Json5Parser.Parser.HandleToken | src/svg_example/wica/wica.js:1266-1386 | `eof` is an `invalidEOF` error, at the cursor, exactly in the states other than `end`; otherwise the parser's state becomes `Handle` of its old state and the token, and the cursor is unchanged |
| Json5Parser.Parser.Internalize | src/svg_example/wica/wica.js:482-484 | `internalize({'': root}, '', reviver)`: the whole tree below the root is revived and nothing else changes, and the result is the reviver's answer for the key `''` |
| Json5Parser.Parser.Parse | src/svg_example/wica/wica.js:461-488 | the parse succeeds exactly when `Run` from the starting state succeeds, and fails with `Run`'s error otherwise; on success the whole input has been read, the state, stack, root and key are `Run`'s, and the heap is `Run`'s (no reviver) or `Run`'s with the tree below the root revived |
| Json5Parser.ParseText | src/svg_example/wica/wica.js:461-504 | `JSON5.parse(text, reviver)` is `Run` of the text from the initial configuration, followed by the reviver pass when there is a reviver; a successful parse returns a value whose heap is ordered (so acyclic), a tree, with distinct object keys, and whose root is in range |
| Json5ParserProps.RunStep | src/svg_example/wica/wica.js:472-481 | a token other than `eof` hands the rest of the parse to the state its handler leaves |
| Json5ParserProps.RunLast | src/svg_example/wica/wica.js:472-481 | `eof` in state `end` ends the parse with the configuration as it is |
| Json5ParserProps.NestedArraysExample | src/svg_example/wica/wica.js:461-481 | `[[]]` parses to an array (container 0) that holds an empty array (container 1), ending in `end` with nothing open |
| Json5ParserProps.MixedExample | src/svg_example/wica/wica.js:461-481 | `[1,{a:2},]` parses to an array (container 0) holding 1 and an object (container 1) whose member `a` is 2; the trailing comma adds nothing |
| Json5Stringify.MakeEnv | src/svg_example/wica/wica.js:1537-1592 | definition: the allow-list, gap and forced quote `stringify` sets up; its properties are in AllowList, Gap and Stringify |
| Json5Stringify.StringifyText | src/svg_example/wica/wica.js:1593 | definition: `serializeProperty('', {'': value})` from an empty stack and indent; its properties are in Stringify and OrderedNeverCircular |
| Json5Stringify.Gap | src/svg_example/wica/wica.js:1584-1591 | a positive number gives that many spaces (at most 10), a string gives its first 10 characters, anything else gives no gap |
| Json5Stringify.AllowList | src/svg_example/wica/wica.js:1557-1576 | the allow-list holds each key named by a string or number item of the replacer array exactly once, and nothing else, ordered by where each key first occurs among the items |
| Json5Stringify.FirstItem | src/svg_example/wica/wica.js:1557-1576 | the index of the first replacer item that names the key, or the number of items when none does; no earlier item names it |
| Json5Stringify.BuildPropertyList | src/svg_example/wica/wica.js:1557-1576 | the loop over the replacer array builds exactly `AllowList` |
| Json5Stringify.ControlEscape | src/svg_example/wica/wica.js:1682-1686 | a control character becomes `\x` followed by two hex digits that spell its code |
| Json5Stringify.Piece | src/svg_example/wica/wica.js:1661-1690 | every character of the value contributes non-empty text |
| Json5Stringify.Count | src/svg_example/wica/wica.js:1661-1674 | the quote counts never exceed the length of the value |
| Json5Stringify.EscapeQuotes | src/svg_example/wica/wica.js:1692-1694 | escaping the chosen quote never shortens the text |
| Json5Stringify.QuoteText | src/svg_example/wica/wica.js:1638-1696 | the quoted string starts and ends with the chosen quote |
| Json5Stringify.Product | src/svg_example/wica/wica.js:1661-1690 | definition: the escaped text of the first n characters; its properties are in ProductLength and QuoteTextPieces |
| Json5Stringify.ChooseQuote | src/svg_example/wica/wica.js:1692-1694 | definition: the forced quote, else the quote that occurs less often, `'` on a tie; its properties are in QuoteChoice |
| Json5Stringify.BareKey | src/svg_example/wica/wica.js:1743-1756 | definition: a non-empty key whose first code point starts an identifier and whose remaining UTF-16 units continue one; its properties are in KeyBareIff and KeyRoundTrip |
| Json5Stringify.KeyText | src/svg_example/wica/wica.js:1742-1759 | definition: the key itself when bare, otherwise quoted; its properties are in KeyBareIff and KeyRoundTrip |
| Json5Stringify.Layout | src/svg_example/wica/wica.js:1723-1737 | definition: empty brackets, the compact form or the indented form of a container; its properties are in CompactLayout, ExpandedLayout and EmptyContainers |
| Json5Stringify.MemberText | src/svg_example/wica/wica.js:1712-1718 | definition: key, `:`, a space when there is a gap, and the value; its properties are in ExpandedMembers and Stringifier.SerializeMember |
| Json5Stringify.PropertyText | src/svg_example/wica/wica.js:1595-1636 | definition: `serializeProperty` on a value; its properties are in PropertyAcyclicOk and OrderedNeverCircular, and Stringifier.SerializeProperty computes it |
| Json5Stringify.ContainerText | src/svg_example/wica/wica.js:1698-1795 | definition: `serializeObject`/`serializeArray`; its properties are in ContainerAcyclicOk, ArrayBackEdgeFails and ObjectBackEdgeFails |
| Json5Stringify.ItemsText | src/svg_example/wica/wica.js:1772-1777 | definition: the texts of the first n elements, `null` for undefined ones; its properties are in ItemsAcyclicOk and ItemsErrPersists |
| Json5Stringify.MembersText | src/svg_example/wica/wica.js:1710-1720 | definition: the member texts of the first n keys, skipping undefined values; its properties are in MembersAcyclicOk, MembersNext and MembersErrPersists |
| Json5Stringify.ItemsErrPersists | src/svg_example/wica/wica.js:1772-1777 | once an element fails, the array fails with that error |
| Json5Stringify.MembersNext | src/svg_example/wica/wica.js:1710-1720 | one more key adds a member when its value serializes, adds nothing when the value is undefined, and propagates an error |
| Json5Stringify.MembersErrPersists | src/svg_example/wica/wica.js:1710-1720 | once a member fails, the object fails with that error |
| Json5Stringify.Stringifier.constructor | src/svg_example/wica/wica.js:1537-1540 | `stringify` starts with an empty stack and an empty indent |
| Json5Stringify.Stringifier.QuoteString | src/svg_example/wica/wica.js:1638-1696 | the loop over the characters and the choice of quote produce `QuoteText` |
| Json5Stringify.Stringifier.SerializeKey | src/svg_example/wica/wica.js:1742-1759 | the key is written bare when it is an identifier, quoted otherwise (`KeyText`) |
| Json5Stringify.Stringifier.SerializeMember | src/svg_example/wica/wica.js:1712-1718 | a member is the key, `:`, a space when there is a gap, and the value |
| Json5Stringify.Stringifier.SerializeProperty | src/svg_example/wica/wica.js:1595-1636 | the result is `PropertyText` of the value; on success the stack and indent are as before |
| Json5Stringify.Stringifier.SerializeArray | src/svg_example/wica/wica.js:1761-1795 | the result is `ContainerText` of the array; on success the stack and indent are as before |
| Json5Stringify.Stringifier.SerializeObject | src/svg_example/wica/wica.js:1698-1740 | the result is `ContainerText` of the object; on success the stack and indent are as before |
| Json5Stringify.Stringify | src/svg_example/wica/wica.js:1537-1594 | `stringify(value, replacer, space)` is `StringifyText` with the allow-list and gap built from the arguments |
| Json5StringifyProps.QuoteChoice | src/svg_example/wica/wica.js:1638-1696 | a forced quote is used; otherwise `'` is chosen unless the value holds more single than double quotes, so the chosen quote is the rarer one |
| Json5StringifyProps.ProductLength | src/svg_example/wica/wica.js:1661-1690 | the escaped text of the first n characters is at least n long |
| Json5StringifyProps.QuoteTextLonger | src/svg_example/wica/wica.js:1638-1696 | a quoted string is at least two characters longer than the value |
| Json5StringifyProps.KeyBareIff | src/svg_example/wica/wica.js:1742-1759 | a key is written as itself exactly when it is a valid identifier; otherwise it is quoted as a string |
| Json5StringifyProps.PropertyAcyclicOk | src/svg_example/wica/wica.js:1595-1636 | in an ordered heap, serializing never fails when the stack holds only earlier containers |
| Json5StringifyProps.ContainerAcyclicOk | src/svg_example/wica/wica.js:1698-1795 | the same for a container |
| Json5StringifyProps.ItemsAcyclicOk | src/svg_example/wica/wica.js:1772-1777 | the same for the elements of an array |
| Json5StringifyProps.MembersAcyclicOk | src/svg_example/wica/wica.js:1710-1720 | the same for the members of an object |
| Json5StringifyProps.OrderedNeverCircular | src/svg_example/wica/wica.js:1537-1594 | everything `parse` can build (an ordered heap) stringifies without a circular-structure error |
| Json5StringifyProps.ArrayBackEdgeFails | src/svg_example/wica/wica.js:1761-1777 | an array with an element that refers to itself or to a container still being serialized fails with a circular-structure error |
| Json5StringifyProps.ObjectBackEdgeFails | src/svg_example/wica/wica.js:1698-1720 | an object with a member that refers to itself or to a container still being serialized fails with a circular-structure error |
| Json5StringifyProps.SelfContainingArrayThrows | src/svg_example/wica/wica.js:1761-1765 | an array that contains itself throws |
| Json5StringifyProps.JoinLines | src/svg_example/wica/wica.js:1727-1736 | joining with `,\n` and the indent gives one indented line per part, each ending with a comma |
| Json5StringifyProps.ExpandedLayout | src/svg_example/wica/wica.js:1723-1737 | with a gap, a container is the opening bracket, a newline, one indented line per part, the outer indent and the closing bracket |
| Json5StringifyProps.JoinSeparated | src/svg_example/wica/wica.js:1727-1729 | `join(',')` puts the separator between parts only |
| Json5StringifyProps.CompactLayout | src/svg_example/wica/wica.js:1727-1729 | without a gap, a container is the bracket, the parts separated by commas, and the closing bracket |
| Json5StringifyProps.EmptyContainers | src/svg_example/wica/wica.js:1723-1725 | an empty array is `[]` and an object with no members to write is `{}` |
| Json5StringifyProps.CompactObjectExample | src/svg_example/wica/wica.js:1537-1740 | `{a: 1}` without a gap is `{a:1}` |
| Json5StringifyProps.ExpandedMembers | src/svg_example/wica/wica.js:1710-1720 | with a gap of 2, the member `a: 1` is written as `a: 1` |
| Json5StringifyProps.ExpandedObjectExample | src/svg_example/wica/wica.js:1537-1740 | `{a: 1}` with a gap of 2 is `{\n  a: 1,\n}` |
| Json5RoundTrip.QuoteTextPieces | src/svg_example/wica/wica.js:1638-1696 | the quoted string is the quote, each character's escaped piece in order, and the quote |
| Json5RoundTrip.PieceLexes | src/svg_example/wica/wica.js:1663-1690 | each piece `quoteString` writes is read back by the `string` lexer as exactly the one character it came from |
| Json5RoundTrip.StringRestLexes | src/svg_example/wica/wica.js:996-1035 | the escaped rest of a value followed by the closing quote lexes as the string token holding the whole value |
| Json5RoundTrip.QuotedStringRoundTrip | src/svg_example/wica/wica.js:1638-1696 | whatever `quoteString` writes, wherever a value or key may start, lexes as one string token holding exactly the original value, ending just after the closing quote |
| Json5RoundTrip.IdentifierRestLexes | src/svg_example/wica/wica.js:762-783 | the rest of a bare key lexes as the identifier holding the key |
| Json5RoundTrip.KeyRoundTrip | src/svg_example/wica/wica.js:1742-1759 | whatever `serializeKey` writes lexes back as the same key: an identifier when it was written bare, a string token otherwise |
| WicaStreamId.LastIndexOf | src/svg_example/wica/wica.js:2230 | `lastIndexOf`: -1 or an index of the character, with no occurrence after it |
| WicaStreamId.ExtractStreamId | src/svg_example/wica/wica.js:2228-2231 | the id is the suffix of the URL after its last `/`, contains no `/`, and is the whole URL when there is no `/` |
| WicaStreamId.ExtractStreamIdInverse | src/svg_example/wica/wica.js:2228-2231 | appending `/` and an id without `/` to any base URL gives back that id |
| WicaPlotBuffer.Buffered | src/svg_example/wica/wica.js:3419-3433 | definition: the newest values of the old buffer and the received ones that fit the limit; its properties are in BufferedBounded, BufferedKeepsAll, BufferedEndsWithReceived and BufferedTwice |
| WicaPlotBuffer.ChannelReady | src/svg_example/wica/wica.js:3341-3350 | definition: the buffer is non-empty and its newest value is not null; its properties are in UpdateReadiness |
| WicaPlotBuffer.Ready | src/svg_example/wica/wica.js:3329-3353 | definition: metadata present, at least one channel, and every channel ready; its properties are in PlotBuffer.IsDataAvailable and UpdateKeepsReady |
| WicaPlotBuffer.PlotBuffer.constructor | src/svg_example/wica/wica.js:3233-3262 | the maps start empty, with one empty buffer for every channel name the elements resolve to |
| WicaPlotBuffer.PlotBuffer.SetChannelMetadata | src/svg_example/wica/wica.js:3393-3398 | a channel's metadata is stored, and the buffers are not touched |
| WicaPlotBuffer.PlotBuffer.UpdateBufferedChannelValues | src/svg_example/wica/wica.js:3419-3433 | a registered channel's buffer becomes `Buffered(old, received, max)`; an unknown channel throws and nothing changes; metadata is untouched |
| WicaPlotBuffer.PlotBuffer.IsDataAvailable | src/svg_example/wica/wica.js:3329-3353 | true exactly when there is metadata, there is at least one channel, and every channel's newest value is not null |
| WicaPlotBuffer.BufferedBounded | src/svg_example/wica/wica.js:3419-3433 | the buffer never exceeds the limit, and it keeps the newest values in order, losing only those that do not fit |
| WicaPlotBuffer.BufferedKeepsAll | src/svg_example/wica/wica.js:3419-3433 | while everything fits, nothing is thrown away |
| WicaPlotBuffer.BufferedEndsWithReceived | src/svg_example/wica/wica.js:3419-3433 | received values that fit within the limit are all kept, at the end of the buffer |
| WicaPlotBuffer.BufferedTwice | src/svg_example/wica/wica.js:3419-3433 | two updates leave the same buffer as one update with both batches |
| WicaPlotBuffer.EmptyUpdateKeeps | src/svg_example/wica/wica.js:3419-3433 | an update with no values leaves a buffer that fits unchanged |
| WicaPlotBuffer.UpdateReadiness | src/svg_example/wica/wica.js:3329-3353 | with a non-zero limit, after an update the channel is ready exactly when the newest received value is not null |
| WicaPlotBuffer.UpdateKeepsReady | src/svg_example/wica/wica.js:3329-3353 | data stays available after an update whose newest value is not null; an update ending in null makes it unavailable |

## Left out

- Everything that touches the browser or the network: the DOM lookups, the
  `MutationObserver`, the element attributes and the logging. The
  `PlotBuffer` constructor takes the channel names that the elements resolve
  to. The mutation handler's decoded metadata and value arrays are arguments.
- The `PlotBuffer` constructor records elements that are missing or not
  wica-aware only in a warning. The model keeps no list of elements.
- WicaPlotBuffer.PlotBuffer.constructor: `maximumBufferSize` is a required
  `nat` argument; the source's default of 32 when the caller passes none
  (wica.js:3233) is not modelled. A
  negative limit would make the source's shift loop run until the buffer is
  empty and then keep testing. A non-integer limit is not modelled.
- `ChannelValue`: only the `val` field of a channel value is modelled. The
  metadata value is an opaque `Slot`.
- Strings are unbounded. The engine's maximum string length, and the
  `RangeError` a string that outgrows it throws, are not modelled.
- Floating point: numbers keep their sign and lexeme. `Number(buffer)` and
  `String(n)` are not computed; the serializer takes the formatter as a
  parameter.
- Json5Parser.Parser.Internalize: the reviver is a pure function from a key
  and a value to keep, delete or a scalar replacement. It cannot see inside
  containers, cannot build new ones, and has no `this` binding.
- Json5Lexer.CommentState, Json5Lexer.ValueState, Json5Lexer.StringState and the
  other handler functions state only progress in their own contracts. What
  each handler accepts and emits is stated by the lemmas in Json5LexerSound and
  Json5LexerProps.
- Json5Lexer.HexadecimalState and Json5Lexer.HexadecimalIntegerState use the
  guarded hex-digit test, which rejects the end of the input. The source's
  `isHexDigit(undefined)` accepts it, so these two handlers do not model the
  source at the end of the input. The as-written behaviour is modelled
  separately; see the first row in "## Findings".
- Json5Lexer.HexDigits uses the guarded hex-digit test. At the end of the
  input the source's loop instead appends `"undefined"` to its buffer for each
  missing digit (HexBufferAtEnd states the as-written result).
- Json5Lexer.HexEscape uses the guarded test. When `\x` has fewer than two
  digits before the end of the input, the source yields the code of the digit
  present and fails one column later, or throws a `RangeError` when there is
  none; see the second row in "## Findings".
- Json5Lexer.UnicodeEscape uses the guarded test. When `\u` has fewer than
  four digits before the end of the input, the source behaves as for `\x`;
  see the second row in "## Findings".
- Json5LexerProps.HexEscapeExact states its exact condition for the guarded
  test only. At the end of the input the source differs, as
  EscapeAtEndAsWritten and HexCodeAgrees state.
- Json5LexerProps.UnicodeEscapeExact states its conditions for the guarded
  test only, with the same difference at the end of the input.
- Json5Lexer.StringUnicodeEscape: a text holds code points, not UTF-16 code
  units. A `\u` escape naming a high surrogate directly followed by one naming
  a low surrogate is decoded to the character the pair spells. A lone
  surrogate, or a pair whose halves are split by other text such as a line
  continuation (which the source's string would still join), cannot be held
  and is an `UnrepresentableEscape` error, which the source does not have.
- JavaScript object semantics: integer-like keys enumerated first,
  `__proto__` as a key, inherited enumerable properties, and getters.
- Json5Stringify.Stringify: `toJSON`/`toJSON5` methods, replacer functions,
  boxed `Number`/`String`/`Boolean` values, and the options-object form are
  not modelled. The forced quote is limited to `'` or `"`.
- Json5Stringify.Gap: a string `space` is cut to 10 code points rather than
  10 UTF-16 code units.
- The error messages (`formatChar`) are not modelled. Errors carry their kind,
  the offending character, and the line and column.
- The stack and the key are not restored after an error. The source does not
  restore them either.

## Findings

| source | as written | input that shows it | evidently intended | confidence | as-written member | corrected member |
|---|---|---|---|---|---|---|
| src/svg_example/wica/wica.js:446-449, 977-995 | `isHexDigit(c)` tests a regular expression against `String(c)`, so `isHexDigit(undefined)` is true; at the end of the input `hexadecimal` and `hexadecimalInteger` "read" a digit that `read()` does not consume | `0x1F` or `0x` as the whole input makes no progress: each turn appends `undefined` to the buffer until the engine's maximum string length throws a `RangeError` (or memory runs out); no token is returned | the end of the input ends the number (`0x1F`) or is an invalid-end-of-input error (`0x`) | not executed | Json5LexerProps.HexLiteralAtEndLoopsAsWritten | Json5LexerProps.HexLiteralAtEndCorrected |
| src/svg_example/wica/wica.js:446-448, 1230-1264 | `isHexDigit(undefined)` is true, so at the end of the input `hexEscape` and `unicodeEscape` do `buffer += read()`, appending `"undefined"`; `parseInt(buffer, 16)` then reads only the digits before it, or gives `NaN` | `"\x4` or `"\u12` ending the text yields U+0004 or U+0012 and the string then fails one column further on; `"\x` or `"\u` ending the text throws a `RangeError` from `String.fromCodePoint(NaN)`, with no position | an invalid-end-of-input syntax error right after the last character | not executed | Json5LexerProps.EscapeAtEndAsWritten | Json5LexerProps.EscapeAtEndCorrected |
