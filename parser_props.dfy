/** Whole parses worked through token by token: what `parse()` builds for a
    small text, as the heap, the stack, the root and the final parse state. */
module Json5ParserProps {
  import opened Wrappers
  import opened Json5Util
  import opened Json5Values
  import opened Json5Lexer
  import opened Json5LexerSound
  import opened Json5Parser
  import opened Json5LexerProps

  /** A token that is not `eof` hands the rest of the parse to the next state. */
  lemma RunStep(u: UnicodeTables, src: string, c: Config, cur: Cursor, t: Token, next: Cursor)
    requires ConfigShape(c) && cur.pos <= |src|
    requires NextToken(u, src, c.state, cur) == Ok((t, next)) && !t.kind.Eof?
    ensures TokenFits(c.state, t.kind) && next.pos <= |src|
    ensures Run(u, src, c, cur) == Run(u, src, Handle(c, t.kind), next)
  {
    NextTokenSound(u, src, c.state, cur);
  }

  /** `eof` in state `end` finishes the parse with the configuration as it is. */
  lemma RunLast(u: UnicodeTables, src: string, c: Config, cur: Cursor, t: Token, next: Cursor)
    requires ConfigShape(c) && cur.pos <= |src| && c.state == End
    requires NextToken(u, src, c.state, cur) == Ok((t, next)) && t.kind.Eof?
    ensures Run(u, src, c, cur) == Ok(c)
  {
    NextTokenSound(u, src, c.state, cur);
  }

  /** A punctuator the lexer reads in one step, from `default`. */
  lemma PunctuatorToken(src: string, ps: ParseState, pos: nat, p: char)
    requires pos < |src| && src[pos] == p
    requires (ps == Start && (p == '[' || p == '{')) ||
             (ps == BeforeArrayValue && p == ']') ||
             (ps == AfterArrayValue && (p == ',' || p == ']')) ||
             (ps == AfterPropertyValue && (p == ',' || p == '}')) ||
             (ps == AfterPropertyName && p == ':') ||
             (ps == BeforePropertyName && p == '}')
    ensures NextToken(Ascii, src, ps, Cursor(pos, 1, pos)) ==
      Ok((Token(Punctuator(p), 1, pos + 1), Cursor(pos + 1, 1, pos + 1)))
  {
  }

  /** A bracket or brace that opens a value inside a container: the parse
      state's lexer hands over to `value`, which reads it. */
  lemma OpenerToken(src: string, ps: ParseState, pos: nat, p: char)
    requires pos < |src| && src[pos] == p && (p == '[' || p == '{')
    requires ps == BeforeArrayValue || ps == BeforePropertyValue
    ensures NextToken(Ascii, src, ps, Cursor(pos, 1, pos)) ==
      Ok((Token(Punctuator(p), 1, pos + 1), Cursor(pos + 1, 1, pos + 1)))
  {
    var c0 := Cursor(pos, 1, pos);
    var v1 := InitialVars.(state := Value);
    assert LexStep(Ascii, src, ps, c0, InitialVars) == Continue(c0, v1);
    Continues(Ascii, src, ps, c0, InitialVars, c0, v1);
  }

  /** `eof` at the end of the input is read one column past the last character. */
  lemma EofToken(src: string, ps: ParseState)
    ensures NextToken(Ascii, src, ps, Cursor(|src|, 1, |src|)) ==
      Ok((Token(Eof, 1, |src| + 1), Cursor(|src|, 1, |src| + 1)))
  {
  }

  /** A one-digit number followed by a punctuator: `default` hands over to the
      parse state's lexer, which hands over to `value`; the digit starts
      `decimalInteger`, which ends the number at the punctuator. */
  lemma DigitToken(src: string, ps: ParseState, pos: nat)
    requires pos + 1 < |src| && '1' <= src[pos] <= '9' && src[pos + 1] in {',', '}', ']'}
    requires ps == BeforeArrayValue || ps == BeforePropertyValue
    ensures NextToken(Ascii, src, ps, Cursor(pos, 1, pos)) ==
      Ok((Token(Numeric(Number(1, [src[pos]])), 1, pos + 1), Cursor(pos + 1, 1, pos + 1)))
  {
    var c0 := Cursor(pos, 1, pos);
    var c1 := Cursor(pos + 1, 1, pos + 1);
    var v1 := InitialVars.(state := Value);
    var v2 := InitialVars.(state := DecimalInteger, buffer := [src[pos]]);
    assert LexStep(Ascii, src, ps, c0, InitialVars) == Continue(c0, v1);
    assert LexStep(Ascii, src, ps, c0, v1) == Continue(c1, v2);
    assert LexStep(Ascii, src, ps, c1, v2) == Emit(Token(Numeric(Number(1, [src[pos]])), 1, pos + 1), c1);
    Continues(Ascii, src, ps, c0, InitialVars, c0, v1);
    Continues(Ascii, src, ps, c0, v1, c1, v2);
  }

  /** A one-letter property name followed by `:`. */
  lemma LetterKeyToken(src: string, pos: nat)
    requires pos + 1 < |src| && 'a' <= src[pos] <= 'z' && src[pos + 1] == ':'
    ensures NextToken(Ascii, src, BeforePropertyName, Cursor(pos, 1, pos)) ==
      Ok((Token(Identifier([src[pos]]), 1, pos + 1), Cursor(pos + 1, 1, pos + 1)))
  {
    var c0 := Cursor(pos, 1, pos);
    var c1 := Cursor(pos + 1, 1, pos + 1);
    var v1 := InitialVars.(state := IdentifierName, buffer := [src[pos]]);
    assert LexStep(Ascii, src, BeforePropertyName, c0, InitialVars) == Continue(c1, v1);
    assert LexStep(Ascii, src, BeforePropertyName, c1, v1) == Emit(Token(Identifier([src[pos]]), 1, pos + 1), c1);
    Continues(Ascii, src, BeforePropertyName, c0, InitialVars, c1, v1);
  }

  // ---------------------------------------------------------------- [[]]

  const NestedOpen1 := Config([ArrayNode([])], [0], Some(Ref(0)), None, BeforeArrayValue)
  const NestedOpen2 := Config([ArrayNode([Ref(1)]), ArrayNode([])], [0, 1], Some(Ref(0)), None, BeforeArrayValue)
  const NestedClose1 := NestedOpen2.(stack := [0], state := AfterArrayValue)
  const NestedDone := NestedOpen2.(stack := [], state := End)

  lemma InitialShape()
    ensures ConfigShape(Initial)
  {
  }

  lemma NestedStep1()
    ensures ConfigShape(NestedOpen1) && Handle(Initial, Punctuator('[')) == NestedOpen1
  {
    InitialShape();
    assert Handle(Initial, Punctuator('[')) == NestedOpen1;
  }

  lemma NestedStep2()
    ensures ConfigShape(NestedOpen2) && Handle(NestedOpen1, Punctuator('[')) == NestedOpen2
  {
    NestedStep1();
    var grown := NestedOpen1.heap + [ArrayNode([])];
    assert Attach(grown[0], None, Ref(1)) == ArrayNode([Ref(1)]);
    assert grown[0 := ArrayNode([Ref(1)])] == NestedOpen2.heap;
    assert Handle(NestedOpen1, Punctuator('[')) == NestedOpen2;
  }

  lemma NestedStep3()
    ensures ConfigShape(NestedClose1) && Handle(NestedOpen2, Punctuator(']')) == NestedClose1
  {
    NestedStep2();
    assert Handle(NestedOpen2, Punctuator(']')) == NestedClose1;
  }

  lemma NestedStep4()
    ensures ConfigShape(NestedDone) && Handle(NestedClose1, Punctuator(']')) == NestedDone
  {
    NestedStep3();
    assert Handle(NestedClose1, Punctuator(']')) == NestedDone;
  }

  /** The text `[[]]`, stated character by character. */
  predicate NestedText(src: string) {
    |src| == 4 && src[0] == '[' && src[1] == '[' && src[2] == ']' && src[3] == ']'
  }

  lemma NestedRun4(src: string)
    requires NestedText(src)
    ensures ConfigShape(NestedDone) && Run(Ascii, src, NestedDone, Cursor(4, 1, 4)) == Ok(NestedDone)
  {
    NestedStep4();
    EofToken(src, End);
    RunLast(Ascii, src, NestedDone, Cursor(4, 1, 4), Token(Eof, 1, 5), Cursor(4, 1, 5));
  }

  lemma NestedRun3(src: string)
    requires NestedText(src)
    ensures ConfigShape(NestedClose1) && Run(Ascii, src, NestedClose1, Cursor(3, 1, 3)) == Ok(NestedDone)
  {
    NestedStep3();
    NestedStep4();
    NestedRun4(src);
    PunctuatorToken(src, AfterArrayValue, 3, ']');
    RunStep(Ascii, src, NestedClose1, Cursor(3, 1, 3), Token(Punctuator(']'), 1, 4), Cursor(4, 1, 4));
  }

  lemma NestedRun2(src: string)
    requires NestedText(src)
    ensures ConfigShape(NestedOpen2) && Run(Ascii, src, NestedOpen2, Cursor(2, 1, 2)) == Ok(NestedDone)
  {
    NestedStep2();
    NestedStep3();
    NestedRun3(src);
    PunctuatorToken(src, BeforeArrayValue, 2, ']');
    RunStep(Ascii, src, NestedOpen2, Cursor(2, 1, 2), Token(Punctuator(']'), 1, 3), Cursor(3, 1, 3));
  }

  lemma NestedRun1(src: string)
    requires NestedText(src)
    ensures ConfigShape(NestedOpen1) && Run(Ascii, src, NestedOpen1, Cursor(1, 1, 1)) == Ok(NestedDone)
  {
    NestedStep1();
    NestedStep2();
    NestedRun2(src);
    OpenerToken(src, BeforeArrayValue, 1, '[');
    RunStep(Ascii, src, NestedOpen1, Cursor(1, 1, 1), Token(Punctuator('['), 1, 2), Cursor(2, 1, 2));
  }

  lemma NestedRun0(src: string)
    requires NestedText(src)
    ensures ConfigShape(Initial) && ConfigShape(NestedOpen1) &&
      Run(Ascii, src, Initial, Origin) == Run(Ascii, src, NestedOpen1, Cursor(1, 1, 1))
  {
    InitialShape();
    NestedStep1();
    PunctuatorToken(src, Start, 0, '[');
    RunStep(Ascii, src, Initial, Origin, Token(Punctuator('['), 1, 1), Cursor(1, 1, 1));
  }

  /** `[[]]`: the outer array is node 0 and holds the inner one, node 1; the
      parse ends in state `end` with nothing open. */
  lemma NestedArraysExample(src: string)
    requires NestedText(src)
    ensures Run(Ascii, src, Initial, Origin) == Ok(NestedDone)
  {
    NestedRun0(src);
    NestedRun1(src);
  }

  // ---------------------------------------------------------------- [1,{a:2},]

  /** The text `[1,{a:2},]`, stated character by character. */
  predicate MixedText(src: string) {
    |src| == 10 && src[0] == '[' && src[1] == '1' && src[2] == ',' && src[3] == '{' && src[4] == 'a' &&
    src[5] == ':' && src[6] == '2' && src[7] == '}' && src[8] == ',' && src[9] == ']'
  }

  const One := NumV(Number(1, "1"))
  const Two := NumV(Number(1, "2"))
  const Mixed2 := Config([ArrayNode([One])], [0], Some(Ref(0)), None, AfterArrayValue)
  const Mixed3 := Mixed2.(state := BeforeArrayValue)
  const Mixed4 := Config([ArrayNode([One, Ref(1)]), ObjectNode([])], [0, 1], Some(Ref(0)), None, BeforePropertyName)
  const Mixed5 := Mixed4.(key := Some("a"), state := AfterPropertyName)
  const Mixed6 := Mixed5.(state := BeforePropertyValue)
  const Mixed7 := Config([ArrayNode([One, Ref(1)]), ObjectNode([Prop("a", Two)])], [0, 1], Some(Ref(0)), Some("a"), AfterPropertyValue)
  const Mixed8 := Mixed7.(stack := [0], state := AfterArrayValue)
  const Mixed9 := Mixed8.(state := BeforeArrayValue)
  const Mixed10 := Mixed8.(stack := [], state := End)

  lemma MixedStep2()
    ensures ConfigShape(Mixed2) && Handle(NestedOpen1, Numeric(Number(1, "1"))) == Mixed2
  {
    NestedStep1();
    assert Attach(ArrayNode([]), None, One) == ArrayNode([One]);
    assert NestedOpen1.heap[0 := ArrayNode([One])] == Mixed2.heap;
    assert Handle(NestedOpen1, Numeric(Number(1, "1"))) == Mixed2;
  }

  lemma MixedStep3()
    ensures ConfigShape(Mixed3) && Handle(Mixed2, Punctuator(',')) == Mixed3
  {
    MixedStep2();
    assert Handle(Mixed2, Punctuator(',')) == Mixed3;
  }

  lemma MixedStep4()
    ensures ConfigShape(Mixed4) && Handle(Mixed3, Punctuator('{')) == Mixed4
  {
    MixedStep3();
    var grown := Mixed3.heap + [ObjectNode([])];
    assert Attach(grown[0], None, Ref(1)) == ArrayNode([One, Ref(1)]);
    assert grown[0 := ArrayNode([One, Ref(1)])] == Mixed4.heap;
    assert Handle(Mixed3, Punctuator('{')) == Mixed4;
  }

  lemma MixedStep5()
    ensures ConfigShape(Mixed5) && Handle(Mixed4, Identifier("a")) == Mixed5
  {
    MixedStep4();
    assert Handle(Mixed4, Identifier("a")) == Mixed5;
  }

  lemma MixedStep6()
    ensures ConfigShape(Mixed6) && Handle(Mixed5, Punctuator(':')) == Mixed6
  {
    MixedStep5();
    assert Handle(Mixed5, Punctuator(':')) == Mixed6;
  }

  lemma MixedStep7()
    ensures ConfigShape(Mixed7) && Handle(Mixed6, Numeric(Number(1, "2"))) == Mixed7
  {
    MixedStep6();
    assert SetProp([], "a", Two) == [Prop("a", Two)];
    assert Mixed6.heap[1 := ObjectNode([Prop("a", Two)])] == Mixed7.heap;
    assert Handle(Mixed6, Numeric(Number(1, "2"))) == Mixed7;
  }

  lemma MixedStep8()
    ensures ConfigShape(Mixed8) && Handle(Mixed7, Punctuator('}')) == Mixed8
  {
    MixedStep7();
    assert Handle(Mixed7, Punctuator('}')) == Mixed8;
  }

  lemma MixedStep9()
    ensures ConfigShape(Mixed9) && Handle(Mixed8, Punctuator(',')) == Mixed9
  {
    MixedStep8();
    assert Handle(Mixed8, Punctuator(',')) == Mixed9;
  }

  lemma MixedStep10()
    ensures ConfigShape(Mixed10) && Handle(Mixed9, Punctuator(']')) == Mixed10
  {
    MixedStep9();
    assert Handle(Mixed9, Punctuator(']')) == Mixed10;
  }

  lemma MixedRun10(src: string)
    requires MixedText(src)
    ensures ConfigShape(Mixed10) && Run(Ascii, src, Mixed10, Cursor(10, 1, 10)) == Ok(Mixed10)
  {
    MixedStep10();
    EofToken(src, End);
    RunLast(Ascii, src, Mixed10, Cursor(10, 1, 10), Token(Eof, 1, 11), Cursor(10, 1, 11));
  }

  lemma MixedRun0(src: string)
    requires MixedText(src)
    ensures ConfigShape(Initial) && ConfigShape(NestedOpen1) &&
      Run(Ascii, src, Initial, Origin) == Run(Ascii, src, NestedOpen1, Cursor(1, 1, 1))
  {
    InitialShape();
    NestedStep1();
    PunctuatorToken(src, Start, 0, '[');
    RunStep(Ascii, src, Initial, Origin, Token(Punctuator('['), 1, 1), Cursor(1, 1, 1));
  }

  lemma MixedRun1(src: string)
    requires MixedText(src)
    ensures ConfigShape(NestedOpen1) && ConfigShape(Mixed2) &&
      Run(Ascii, src, NestedOpen1, Cursor(1, 1, 1)) == Run(Ascii, src, Mixed2, Cursor(2, 1, 2))
  {
    NestedStep1();
    MixedStep2();
    DigitToken(src, BeforeArrayValue, 1);
    RunStep(Ascii, src, NestedOpen1, Cursor(1, 1, 1), Token(Numeric(Number(1, "1")), 1, 2), Cursor(2, 1, 2));
  }

  lemma MixedRun2(src: string)
    requires MixedText(src)
    ensures ConfigShape(Mixed2) && ConfigShape(Mixed3) &&
      Run(Ascii, src, Mixed2, Cursor(2, 1, 2)) == Run(Ascii, src, Mixed3, Cursor(3, 1, 3))
  {
    MixedStep2();
    MixedStep3();
    PunctuatorToken(src, AfterArrayValue, 2, ',');
    RunStep(Ascii, src, Mixed2, Cursor(2, 1, 2), Token(Punctuator(','), 1, 3), Cursor(3, 1, 3));
  }

  lemma MixedRun3(src: string)
    requires MixedText(src)
    ensures ConfigShape(Mixed3) && ConfigShape(Mixed4) &&
      Run(Ascii, src, Mixed3, Cursor(3, 1, 3)) == Run(Ascii, src, Mixed4, Cursor(4, 1, 4))
  {
    MixedStep3();
    MixedStep4();
    OpenerToken(src, BeforeArrayValue, 3, '{');
    RunStep(Ascii, src, Mixed3, Cursor(3, 1, 3), Token(Punctuator('{'), 1, 4), Cursor(4, 1, 4));
  }

  lemma MixedRun4(src: string)
    requires MixedText(src)
    ensures ConfigShape(Mixed4) && ConfigShape(Mixed5) &&
      Run(Ascii, src, Mixed4, Cursor(4, 1, 4)) == Run(Ascii, src, Mixed5, Cursor(5, 1, 5))
  {
    MixedStep4();
    MixedStep5();
    LetterKeyToken(src, 4);
    RunStep(Ascii, src, Mixed4, Cursor(4, 1, 4), Token(Identifier("a"), 1, 5), Cursor(5, 1, 5));
  }

  lemma MixedRun5(src: string)
    requires MixedText(src)
    ensures ConfigShape(Mixed5) && ConfigShape(Mixed6) &&
      Run(Ascii, src, Mixed5, Cursor(5, 1, 5)) == Run(Ascii, src, Mixed6, Cursor(6, 1, 6))
  {
    MixedStep5();
    MixedStep6();
    PunctuatorToken(src, AfterPropertyName, 5, ':');
    RunStep(Ascii, src, Mixed5, Cursor(5, 1, 5), Token(Punctuator(':'), 1, 6), Cursor(6, 1, 6));
  }

  lemma MixedRun6(src: string)
    requires MixedText(src)
    ensures ConfigShape(Mixed6) && ConfigShape(Mixed7) &&
      Run(Ascii, src, Mixed6, Cursor(6, 1, 6)) == Run(Ascii, src, Mixed7, Cursor(7, 1, 7))
  {
    MixedStep6();
    MixedStep7();
    DigitToken(src, BeforePropertyValue, 6);
    RunStep(Ascii, src, Mixed6, Cursor(6, 1, 6), Token(Numeric(Number(1, "2")), 1, 7), Cursor(7, 1, 7));
  }

  lemma MixedRun7(src: string)
    requires MixedText(src)
    ensures ConfigShape(Mixed7) && ConfigShape(Mixed8) &&
      Run(Ascii, src, Mixed7, Cursor(7, 1, 7)) == Run(Ascii, src, Mixed8, Cursor(8, 1, 8))
  {
    MixedStep7();
    MixedStep8();
    PunctuatorToken(src, AfterPropertyValue, 7, '}');
    RunStep(Ascii, src, Mixed7, Cursor(7, 1, 7), Token(Punctuator('}'), 1, 8), Cursor(8, 1, 8));
  }

  lemma MixedRun8(src: string)
    requires MixedText(src)
    ensures ConfigShape(Mixed8) && ConfigShape(Mixed9) &&
      Run(Ascii, src, Mixed8, Cursor(8, 1, 8)) == Run(Ascii, src, Mixed9, Cursor(9, 1, 9))
  {
    MixedStep8();
    MixedStep9();
    PunctuatorToken(src, AfterArrayValue, 8, ',');
    RunStep(Ascii, src, Mixed8, Cursor(8, 1, 8), Token(Punctuator(','), 1, 9), Cursor(9, 1, 9));
  }

  lemma MixedRun9(src: string)
    requires MixedText(src)
    ensures ConfigShape(Mixed9) && ConfigShape(Mixed10) &&
      Run(Ascii, src, Mixed9, Cursor(9, 1, 9)) == Run(Ascii, src, Mixed10, Cursor(10, 1, 10))
  {
    MixedStep9();
    MixedStep10();
    PunctuatorToken(src, BeforeArrayValue, 9, ']');
    RunStep(Ascii, src, Mixed9, Cursor(9, 1, 9), Token(Punctuator(']'), 1, 10), Cursor(10, 1, 10));
  }

  /** `[1,{a:2},]`: the array is node 0 and the object node 1; the object's
      member `a` holds 2, and the trailing comma adds nothing to the array. */
  lemma MixedExample(src: string)
    requires MixedText(src)
    ensures Run(Ascii, src, Initial, Origin) == Ok(Mixed10)
  {
    MixedRun0(src);
    MixedRun1(src);
    MixedRun2(src);
    MixedRun3(src);
    MixedRun4(src);
    MixedRun5(src);
    MixedRun6(src);
    MixedRun7(src);
    MixedRun8(src);
    MixedRun9(src);
    MixedRun10(src);
  }
}
