/**
 * A case from the rule's test suite worked through the model:
 * `foo().bar\n  .baz()\n  .boo()` is joined into `foo().bar.baz().boo()`.
 */
module ChainingExamples {
  import opened Layout
  import opened SyntaxTree
  import opened Chaining

  const Src: string := "foo().bar\n  .baz()\n  .boo()"

  /**
   * The tree in pre-order: the statement, the outer call `.boo()`, its member
   * access, the call `.baz()`, its member access, `.bar`, the call `foo()` and
   * the identifier `foo`.
   */
  const Tree: seq<Node> := [
    Node(Program, None, None, false, []),
    Node(ExpressionStatement, Some(0), None, false, []),
    Node(CallExpression, Some(1), Some(3), false, []),
    Node(MemberExpression, Some(2), Some(4), false, []),
    Node(CallExpression, Some(3), Some(5), false, []),
    Node(MemberExpression, Some(4), Some(6), false, []),
    Node(MemberExpression, Some(5), Some(7), false, []),
    Node(CallExpression, Some(6), Some(8), false, []),
    Node(NodeType.Identifier, Some(7), None, false, [])
  ]

  const Dots: map<nat, Dot> := map[
    3 := Dot(Token(Punctuator, ".", 3, 3, 21, 22), Token(Punctuator, ")", 2, 2, 17, 18)),
    5 := Dot(Token(Punctuator, ".", 2, 2, 12, 13), Token(TokenType.Identifier, "bar", 1, 1, 6, 9)),
    6 := Dot(Token(Punctuator, ".", 1, 1, 5, 6), Token(Punctuator, ")", 1, 1, 4, 5))
  ]

  lemma TreeIsValid()
    ensures Valid(Tree) && HasDots(Tree, Dots)
  {
    TreeNodesOk();
    TreeLinked();
    TreeDots();
  }

  lemma TreeNodesOk()
    ensures forall i :: 0 <= i < |Tree| ==> NodeOk(Tree, i)
  {
    forall i | 0 <= i < |Tree| ensures NodeOk(Tree, i) {
      if i < 3 {
        assert i == 0 || i == 1 || i == 2;
      } else if i < 6 {
        assert i == 3 || i == 4 || i == 5;
      } else {
        assert i == 6 || i == 7 || i == 8;
      }
    }
  }

  lemma TreeLinked()
    ensures forall i :: 0 <= i < |Tree| ==> ChildLinked(Tree, i)
  {
    assert ChildLinked(Tree, 0) && ChildLinked(Tree, 1) && ChildLinked(Tree, 2);
    assert ChildLinked(Tree, 3) && ChildLinked(Tree, 4) && ChildLinked(Tree, 5);
    assert ChildLinked(Tree, 6) && ChildLinked(Tree, 7) && ChildLinked(Tree, 8);
  }

  lemma TreeDots()
    ensures HasDots(Tree, Dots)
  {
    forall i | 0 <= i < |Tree| && Tree[i].kind == MemberExpression ensures i in Dots {
      assert i == 3 || i == 5 || i == 6;
    }
  }

  lemma ChainLinks()
    ensures Valid(Tree)
    ensures ChainRoot(Tree, 3) == 2 && ChainRoot(Tree, 5) == 2 && ChainRoot(Tree, 6) == 2
    ensures Links(Tree, 2) == [6, 5, 3]
  {
    TreeIsValid();
    assert Links(Tree, 8) == [];
    assert Links(Tree, 6) == [6];
    assert Links(Tree, 5) == [6, 5];
  }

  /** `.bar` follows a call and sets single mode; `.baz` and `.boo` start new lines and are reported. */
  lemma ChainSteps()
    ensures Valid(Tree) && HasDots(Tree, Dots)
    ensures var infos := Infos(Tree, Dots, [6, 5, 3]);
      && LinkStep(infos[0], true, None) == (None, false, Some(Single))
      && LinkStep(infos[1], false, Some(Single)) == (Some(ChainReport(ShouldNotWrap, 5, Edit(9, 12, ""))), false, Some(Single))
      && LinkStep(infos[2], false, Some(Single)) == (Some(ChainReport(ShouldNotWrap, 3, Edit(18, 21, ""))), false, Some(Single))
  {
    TreeIsValid();
    assert !SimpleObject(Tree, 6);
  }

  lemma ChainFixes()
    ensures Valid(Tree) && HasDots(Tree, Dots)
    ensures ChainReports(Tree, Dots, 2, true)
         == [ChainReport(ShouldNotWrap, 5, Edit(9, 12, "")), ChainReport(ShouldNotWrap, 3, Edit(18, 21, ""))]
  {
    ChainLinks();
    ChainSteps();
    var infos := Infos(Tree, Dots, [6, 5, 3]);
    assert Classify(infos, 3, false, Some(Single)) == [];
    assert Classify(infos, 2, false, Some(Single)) == [ChainReport(ShouldNotWrap, 3, Edit(18, 21, ""))];
    assert Classify(infos, 1, false, Some(Single))
        == [ChainReport(ShouldNotWrap, 5, Edit(9, 12, "")), ChainReport(ShouldNotWrap, 3, Edit(18, 21, ""))];
  }

  lemma ChainOutput()
    ensures ApplyAll(Src, [Edit(9, 12, ""), Edit(18, 21, "")]) == "foo().bar.baz().boo()"
  {
    var once := Apply(Src, Edit(18, 21, ""));
    assert once == "foo().bar\n  .baz().boo()";
    assert Apply(once, Edit(9, 12, "")) == "foo().bar.baz().boo()";
  }

  /** The three member accesses of the chain: only the first one visited reports. */
  method HandleChain() returns (first: seq<ChainReport>, second: seq<ChainReport>, third: seq<ChainReport>)
    ensures first == [ChainReport(ShouldNotWrap, 5, Edit(9, 12, "")), ChainReport(ShouldNotWrap, 3, Edit(18, 21, ""))]
    ensures second == [] && third == []
  {
    TreeIsValid();
    ChainLinks();
    ChainFixes();
    var rule := new ChainRule(None);
    first := rule.OnMemberExpression(Tree, Dots, 3);
    second := rule.OnMemberExpression(Tree, Dots, 5);
    third := rule.OnMemberExpression(Tree, Dots, 6);
  }
}
