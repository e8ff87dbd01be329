/** Cases from the rule's test suite worked through the model. */
module TopLevelFunctionExamples {
  import opened Layout
  import opened TopLevelFunction

  // `const foo = (x, y) => \nx + y`: the expression body ends on the next line.
  const ArrowSrc: string := "const foo = (x, y) => \nx + y"
  const ArrowInit := Init(ArrowFunctionExpression, [Span(13, 14), Span(16, 17)], Body(false, Span(23, 28), 2, 2),
                          None, None, false)
  const Arrow := Declaration(Program, Const, [Declarator(Id(IdKind.Identifier, Span(6, 9), 1, false), Some(ArrowInit))],
                             false, Span(0, 28))

  lemma ArrowName() ensures |ArrowSrc| == 28 && ArrowSrc[6..9] == "foo" {
    assert ArrowSrc[6] == 'f' && ArrowSrc[7] == 'o' && ArrowSrc[8] == 'o';
  }
  lemma ArrowArgs() ensures |ArrowSrc| == 28 && ArrowSrc[13..17] == "x, y" {}
  lemma ArrowBody() ensures |ArrowSrc| == 28 && ArrowSrc[23..28] == "x + y" {}

  lemma ArrowText()
    ensures Placed(ArrowSrc, Arrow)
    ensures FixText(ArrowSrc, Arrow.declarations[0]) == "function foo (x, y) {\n  return x + y\n}"
  {
    ArrowName();
    ArrowArgs();
    ArrowBody();
    var d := Arrow.declarations[0];
    assert Placed(ArrowSrc, Arrow) by {
      assert forall x :: x in Arrow.declarations ==> x == d;
    }
    assert TextArgs(ArrowSrc, ArrowInit.params) == "x, y";
    assert TextBody(ArrowSrc, ArrowInit.body) == "{\n  return " + "x + y" + "\n}";
    ArrowAssembled();
  }

  lemma ArrowAssembled()
    ensures Assemble("", "foo", "", "x, y", "", "{\n  return " + "x + y" + "\n}") == "function foo (x, y) {\n  return x + y\n}"
  {
  }

  /** The arrow becomes a function declaration that returns the expression. */
  lemma ArrowExample()
    ensures Placed(ArrowSrc, Arrow)
    ensures Listen(ArrowSrc, Arrow) == Some(Report(6, 23, Edit(0, 28, "function foo (x, y) {\n  return x + y\n}")))
    ensures Apply(ArrowSrc, Edit(0, 28, "function foo (x, y) {\n  return x + y\n}")) == "function foo (x, y) {\n  return x + y\n}"
  {
    ArrowText();
    assert Eligible(Arrow);
  }

  // `const foo = (x, y) => x + y`: a one-line arrow is accepted.
  const OneLineSrc: string := "const foo = (x, y) => x + y"
  const OneLine := Declaration(Program, Const,
                               [Declarator(Id(IdKind.Identifier, Span(6, 9), 1, false),
                                           Some(Init(ArrowFunctionExpression, [Span(13, 14), Span(16, 17)],
                                                     Body(false, Span(22, 27), 1, 1), None, None, false)))],
                               false, Span(0, 27))

  lemma OneLineAccepted()
    ensures Placed(OneLineSrc, OneLine) && Listen(OneLineSrc, OneLine) == None
  {
  }

  /** `let foo = () => {}` is accepted: only `const` is rewritten. */
  lemma LetAccepted()
    ensures var node := Declaration(Program, Let,
                                    [Declarator(Id(IdKind.Identifier, Span(4, 7), 1, false),
                                                Some(Init(ArrowFunctionExpression, [], Body(true, Span(16, 18), 1, 1),
                                                          None, None, false)))],
                                    false, Span(0, 18));
      Placed("let foo = () => {}", node) && Listen("let foo = () => {}", node) == None
  {
  }

  // `export const foo = () => {}`: the declaration starts after `export `.
  const ExportSrc: string := "export const foo = () => {}"
  const Exported := Declaration(ExportNamedDeclaration, Const,
                                [Declarator(Id(IdKind.Identifier, Span(13, 16), 1, false),
                                            Some(Init(ArrowFunctionExpression, [], Body(true, Span(25, 27), 1, 1),
                                                      None, None, false)))],
                                false, Span(7, 27))

  lemma ExportText()
    ensures Placed(ExportSrc, Exported)
    ensures FixText(ExportSrc, Exported.declarations[0]) == "function foo () {}"
  {
    assert ExportSrc[13..16] == "foo";
    assert ExportSrc[25..27] == "{}";
    ExportAssembled();
  }

  lemma ExportAssembled()
    ensures Assemble("", "foo", "", "", "", "{}") == "function foo () {}"
  {
  }

  lemma ExportApplied()
    ensures Apply(ExportSrc, Edit(7, 27, "function foo () {}")) == "export " + "function foo () {}"
  {
    assert ExportSrc[..7] == "export ";
    assert ExportSrc[27..] == [];
  }

  /** Only the declaration is replaced: `export ` stays in front of the new function. */
  lemma ExportExample()
    ensures Placed(ExportSrc, Exported)
    ensures Listen(ExportSrc, Exported) == Some(Report(13, 25, Edit(7, 27, "function foo () {}")))
    ensures Apply(ExportSrc, Edit(7, 27, "function foo () {}")) == "export " + "function foo () {}"
  {
    ExportText();
    ExportApplied();
    assert Eligible(Exported);
  }
}
