/**
 * A chain with a non-null assertion, `foo()\n  .bar().baz!.qux()`, worked
 * through the model: the root climb stops at the `!` while the link
 * collection passes it, so `.baz` is reported twice.
 */
module ChainingNonNullExample {
  import opened Layout
  import opened SyntaxTree
  import opened Chaining

  const NonNullSrc: string := "foo()\n  .bar().baz!.qux()"

  /**
   * The tree of `NonNullSrc` in pre-order: the statement, the call `.qux()`,
   * its member access, the `!`, the member access `.baz`, the call `.bar()`,
   * its member access, the call `foo()` and the identifier `foo`.
   */
  const NonNullTree: seq<Node> := [
    Node(Program, None, None, false, []),
    Node(ExpressionStatement, Some(0), None, false, []),
    Node(CallExpression, Some(1), Some(3), false, []),
    Node(MemberExpression, Some(2), Some(4), false, []),
    Node(TSNonNullExpression, Some(3), Some(5), false, []),
    Node(MemberExpression, Some(4), Some(6), false, []),
    Node(CallExpression, Some(5), Some(7), false, []),
    Node(MemberExpression, Some(6), Some(8), false, []),
    Node(CallExpression, Some(7), Some(9), false, []),
    Node(NodeType.Identifier, Some(8), None, false, [])
  ]

  const NonNullDots: map<nat, Dot> := map[
    3 := Dot(Token(Punctuator, ".", 2, 2, 19, 20), Token(Punctuator, "!", 2, 2, 18, 19)),
    5 := Dot(Token(Punctuator, ".", 2, 2, 14, 15), Token(Punctuator, ")", 2, 2, 13, 14)),
    7 := Dot(Token(Punctuator, ".", 2, 2, 8, 9), Token(Punctuator, ")", 1, 1, 4, 5))
  ]

  const BazReport: ChainReport := ChainReport(ShouldWrap, 5, Insert(14, "\n"))
  const QuxReport: ChainReport := ChainReport(ShouldWrap, 3, Insert(19, "\n"))

  lemma NonNullTreeIsValid()
    ensures Valid(NonNullTree) && HasDots(NonNullTree, NonNullDots)
  {
    NonNullNodesOk();
    NonNullLinked();
    NonNullDotsPresent();
  }

  lemma NonNullNodesOk()
    ensures forall i :: 0 <= i < |NonNullTree| ==> NodeOk(NonNullTree, i)
  {
    forall i | 0 <= i < |NonNullTree| ensures NodeOk(NonNullTree, i) {
      if i < 3 {
        assert i == 0 || i == 1 || i == 2;
      } else if i < 6 {
        assert i == 3 || i == 4 || i == 5;
      } else {
        assert i == 6 || i == 7 || i == 8 || i == 9;
      }
    }
  }

  lemma NonNullLinked()
    ensures forall i :: 0 <= i < |NonNullTree| ==> ChildLinked(NonNullTree, i)
  {
    assert ChildLinked(NonNullTree, 0) && ChildLinked(NonNullTree, 1) && ChildLinked(NonNullTree, 2);
    assert ChildLinked(NonNullTree, 3) && ChildLinked(NonNullTree, 4) && ChildLinked(NonNullTree, 5);
    assert ChildLinked(NonNullTree, 6) && ChildLinked(NonNullTree, 7) && ChildLinked(NonNullTree, 8);
    assert ChildLinked(NonNullTree, 9);
  }

  lemma NonNullDotsPresent()
    ensures HasDots(NonNullTree, NonNullDots)
  {
    forall i | 0 <= i < |NonNullTree| && NonNullTree[i].kind == MemberExpression ensures i in NonNullDots {
      assert i == 3 || i == 5 || i == 7;
    }
  }

  /**
   * The climb from `.qux` reaches the outer call, whose links are `.bar`,
   * `.baz` and `.qux`; the climb from `.baz` stops below the `!`, so `.baz`
   * is the root of a second chain holding `.bar` and `.baz`. Climbing through
   * the `!` as well, `.baz` has the outer call as its root.
   */
  lemma NonNullRoots()
    ensures Valid(NonNullTree)
    ensures ChainRoot(NonNullTree, 3) == 2 && ChainRoot(NonNullTree, 5) == 5 && ChainRoot(NonNullTree, 7) == 5
    ensures Links(NonNullTree, 2) == [7, 5, 3] && Links(NonNullTree, 5) == [7, 5]
    ensures WrappedRoot(NonNullTree, 5) == 2 && WrappedRoot(NonNullTree, 7) == 2
  {
    NonNullTreeIsValid();
    assert Links(NonNullTree, 9) == [];
    assert Links(NonNullTree, 7) == [7];
    assert Links(NonNullTree, 5) == [7, 5];
    assert Links(NonNullTree, 4) == [7, 5];
  }

  /** Both chains report `.baz`: `.bar` sets multi mode and `.baz` follows `)` on its line. */
  lemma NonNullReports()
    ensures Valid(NonNullTree) && HasDots(NonNullTree, NonNullDots)
    ensures ChainReports(NonNullTree, NonNullDots, 2, true) == [BazReport, QuxReport]
    ensures ChainReports(NonNullTree, NonNullDots, 5, true) == [BazReport]
  {
    OuterReports();
    InnerReports();
  }

  lemma OuterReports()
    ensures Valid(NonNullTree) && HasDots(NonNullTree, NonNullDots)
    ensures ChainReports(NonNullTree, NonNullDots, 2, true) == [BazReport, QuxReport]
  {
    NonNullTreeIsValid();
    NonNullRoots();
    assert !SimpleObject(NonNullTree, 7);
    var outer := Infos(NonNullTree, NonNullDots, [7, 5, 3]);
    assert ModeOf(outer[0].dot) == Multi && ModeOf(outer[1].dot) == Single && ModeOf(outer[2].dot) == Single;
    assert Classify(outer, 3, false, Some(Multi)) == [];
    assert Classify(outer, 2, false, Some(Multi)) == [QuxReport];
    assert Classify(outer, 1, false, Some(Multi)) == [BazReport, QuxReport];
  }

  lemma InnerReports()
    ensures Valid(NonNullTree) && HasDots(NonNullTree, NonNullDots)
    ensures ChainReports(NonNullTree, NonNullDots, 5, true) == [BazReport]
  {
    NonNullTreeIsValid();
    NonNullRoots();
    assert !SimpleObject(NonNullTree, 7);
    var inner := Infos(NonNullTree, NonNullDots, [7, 5]);
    assert ModeOf(inner[0].dot) == Multi && ModeOf(inner[1].dot) == Single;
    assert Classify(inner, 2, false, Some(Multi)) == [];
    assert Classify(inner, 1, false, Some(Multi)) == [BazReport];
  }

  /** What the two handler calls need: the roots they climb to and the reports of the two chains. */
  lemma HandlerFacts()
    ensures Valid(NonNullTree) && HasDots(NonNullTree, NonNullDots) && 3 < |NonNullTree| && 5 < |NonNullTree|
    ensures NonNullTree[3].kind == MemberExpression && NonNullTree[5].kind == MemberExpression
    ensures ChainRoot(NonNullTree, 3) != ChainRoot(NonNullTree, 5)
    ensures ChainReports(NonNullTree, NonNullDots, ChainRoot(NonNullTree, 3), true) == [BazReport, QuxReport]
    ensures ChainReports(NonNullTree, NonNullDots, ChainRoot(NonNullTree, 5), true) == [BazReport]
  {
    NonNullRoots();
    NonNullReports();
  }

  /**
   * A fresh rule visiting two member accesses whose climbs end at different
   * roots handles both chains: each visit gives its chain's reports.
   */
  method VisitBoth(nodes: seq<Node>, dots: map<nat, Dot>, a: nat, b: nat)
    returns (first: seq<ChainReport>, second: seq<ChainReport>)
    requires Valid(nodes) && HasDots(nodes, dots) && a < |nodes| && b < |nodes|
    requires nodes[a].kind == MemberExpression && nodes[b].kind == MemberExpression
    requires ChainRoot(nodes, a) != ChainRoot(nodes, b)
    ensures first == ChainReports(nodes, dots, ChainRoot(nodes, a), true)
    ensures second == ChainReports(nodes, dots, ChainRoot(nodes, b), true)
  {
    var rule := new ChainRule(None);
    first := rule.OnMemberExpression(nodes, dots, a);
    second := rule.OnMemberExpression(nodes, dots, b);
  }

  /**
   * The handler visits `.qux` before `.baz`: both visits find roots not yet
   * known, so `.baz` is reported a second time.
   */
  method HandleNonNullChain() returns (first: seq<ChainReport>, second: seq<ChainReport>)
    ensures first == [BazReport, QuxReport] && second == [BazReport]
  {
    HandlerFacts();
    first, second := VisitBoth(NonNullTree, NonNullDots, 3, 5);
  }
}
