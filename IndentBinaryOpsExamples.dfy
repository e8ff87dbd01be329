/**
 * Cases from the rule's test suite worked through the model. Each token list
 * runs from the start of the source to the first token of the right operand,
 * which is all the handler looks at.
 */
module IndentBinaryOpsExamples {
  import opened Layout
  import opened IndentBinaryOps

  // `if (\n  a && (\n    a.b ||\n    a.c\n  ) &&\n  a.d\n) {}`
  const ParenLines: seq<string> := ["", "if (", "  a && (", "    a.b ||", "    a.c", "  ) &&", "  a.d", ") {}", ""]
  const ParenTokens: seq<Token> :=
    [Token(Keyword, "if", 2, 2, 1, 3), Token(Punctuator, "(", 2, 2, 4, 5),
     Token(TokenType.Identifier, "a", 3, 3, 8, 9), Token(Punctuator, "&&", 3, 3, 10, 12),
     Token(Punctuator, "(", 3, 3, 13, 14), Token(TokenType.Identifier, "a", 4, 4, 19, 20)]

  /** The walk steps back over the "(" to the "&&"; the tokens on either side of it share a line: no report. */
  lemma ParenthesisedRightOperand()
    ensures Inputs(ParenTokens, ParenLines, 5)
    ensures OperatorIndex(ParenTokens, 5) == 3
    ensures HandlerSpec(ParenTokens, ParenTokens, ParenLines, None, 5) == None
  {
    assert ParenTokens[3].value != "(";
    assert OperatorIndex(ParenTokens, 4) == 3;
  }

  // `if (\n  aaaaaa >\nbbbbb\n) {}`
  const PlainLines: seq<string> := ["", "if (", "  aaaaaa >", "bbbbb", ") {}", ""]
  const PlainTokens: seq<Token> :=
    [Token(Keyword, "if", 2, 2, 1, 3), Token(Punctuator, "(", 2, 2, 4, 5),
     Token(TokenType.Identifier, "aaaaaa", 3, 3, 8, 14), Token(Punctuator, ">", 3, 3, 15, 16),
     Token(TokenType.Identifier, "bbbbb", 4, 4, 17, 22)]

  lemma PlainOperator()
    ensures Inputs(PlainTokens, PlainLines, 4)
    ensures OperatorIndex(PlainTokens, 4) == 3
  {
    assert PlainTokens[3].value != "(";
  }

  lemma PlainFirstToken()
    ensures FirstTokenOfLine(PlainTokens, 3) == Some(PlainTokens[2])
  {
    assert PlainTokens == PlainTokens[..2] + PlainTokens[2..];
    FirstTokenAfter(PlainTokens[..2], PlainTokens[2..], 3);
  }

  lemma PlainIndents()
    ensures IndentOf(PlainLines[2]) == "  "
    ensures IndentOf(PlainLines[3]) == ""
  {
    IndentOfSplice("  ", "aaaaaa >");
    assert "  " + "aaaaaa >" == PlainLines[2];
  }

  /** The left line starts with an identifier: the right line gets the left line's two spaces. */
  lemma UnindentedRightOperand()
    ensures Inputs(PlainTokens, PlainLines, 4)
    ensures HandlerSpec(PlainTokens, PlainTokens, PlainLines, None, 4) == Some(LineEdit(4, 0, 0, "  "))
    ensures ApplyToLines(PlainLines, LineEdit(4, 0, 0, "  "))[3] == "  bbbbb"
  {
    PlainOperator();
    PlainFirstToken();
    PlainIndents();
    assert IndentTarget(PlainTokens, PlainLines, None, 3) == "  ";
  }

  // `function foo() {\n  if (a \n  || b \n      || c || d …`
  const KeywordLines: seq<string> := ["", "function foo() {", "  if (a ", "  || b ", "      || c || d"]
  const KeywordTokens: seq<Token> :=
    [Token(Keyword, "function", 2, 2, 1, 9), Token(TokenType.Identifier, "foo", 2, 2, 10, 13),
     Token(Punctuator, "(", 2, 2, 13, 14), Token(Punctuator, ")", 2, 2, 14, 15),
     Token(Punctuator, "{", 2, 2, 16, 17), Token(Keyword, "if", 3, 3, 20, 22),
     Token(Punctuator, "(", 3, 3, 23, 24), Token(TokenType.Identifier, "a", 3, 3, 24, 25),
     Token(Punctuator, "||", 4, 4, 29, 31), Token(TokenType.Identifier, "b", 4, 4, 32, 33)]

  lemma KeywordOperator()
    ensures Inputs(KeywordTokens, KeywordLines, 9)
    ensures OperatorIndex(KeywordTokens, 9) == 8
  {
    assert KeywordTokens[8].value != "(";
  }

  lemma KeywordFirstToken()
    ensures FirstTokenOfLine(KeywordTokens, 3) == Some(KeywordTokens[5])
  {
    assert KeywordTokens == KeywordTokens[..5] + KeywordTokens[5..];
    FirstTokenAfter(KeywordTokens[..5], KeywordTokens[5..], 3);
  }

  lemma KeywordIndents()
    ensures IndentOf(KeywordLines[2]) == "  "
    ensures IndentOf(KeywordLines[3]) == "  "
  {
    IndentOfSplice("  ", "if (a ");
    assert "  " + "if (a " == KeywordLines[2];
    IndentOfSplice("  ", "|| b ");
    assert "  " + "|| b " == KeywordLines[3];
  }

  /** The left line starts with the keyword `if`: the right line needs one unit more. */
  lemma KeywordAddsOneUnit()
    ensures Inputs(KeywordTokens, KeywordLines, 9)
    ensures HandlerSpec(KeywordTokens, KeywordTokens, KeywordLines, None, 9) == Some(LineEdit(4, 0, 2, "    "))
  {
    KeywordOperator();
    KeywordTarget();
    KeywordIndents();
    assert KeywordTokens[9].startLine == 4 && KeywordTokens[7].startLine == 3;
  }

  /** The fix gives the `||` line the four spaces. */
  lemma KeywordFix()
    ensures ApplyToLines(KeywordLines, LineEdit(4, 0, 2, "    "))[3] == "    || b "
  {
    var fixed := ApplyToLines(KeywordLines, LineEdit(4, 0, 2, "    "));
    assert KeywordLines[3][2..] == "|| b ";
  }

  lemma KeywordTarget()
    ensures IndentTarget(KeywordTokens, KeywordLines, None, 3) == "    "
  {
    KeywordFirstToken();
    KeywordIndents();
    var unit := IndentUnit(None);
    assert unit == "  ";
    assert IndentTarget(KeywordTokens, KeywordLines, None, 3) == IndentOf(KeywordLines[2]) + unit;
  }

}
