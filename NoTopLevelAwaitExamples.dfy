/**
 * Cases from the rule's test suite worked through the model. Each tree lists,
 * in pre-order, the nodes from the program down to the `await`; the awaited
 * call is left out, since the walk only goes up.
 */
module NoTopLevelAwaitExamples {
  import opened Layout
  import opened SyntaxTree
  import opened NoTopLevelAwait

  // `await foo()`
  const Bare: seq<Node> := [
    Node(Program, None, None, false, []),
    Node(ExpressionStatement, Some(0), None, false, []),
    Node(AwaitExpression, Some(1), None, false, [])
  ]

  lemma BareReported()
    ensures Valid(Bare) && !InsideFunction(Bare, 2)
  {
    forall i | 0 <= i < |Bare| ensures NodeOk(Bare, i) && ChildLinked(Bare, i) {
      assert i == 0 || i == 1 || i == 2;
    }
  }

  // `async function foo() { await bar() }`
  const InFunction: seq<Node> := [
    Node(Program, None, None, false, []),
    Node(FunctionDeclaration, Some(0), None, false, []),
    Node(BlockStatement, Some(1), None, false, []),
    Node(ExpressionStatement, Some(2), None, false, []),
    Node(AwaitExpression, Some(3), None, false, [])
  ]

  lemma InFunctionAccepted()
    ensures Valid(InFunction) && InsideFunction(InFunction, 4)
  {
    forall i | 0 <= i < |InFunction| ensures NodeOk(InFunction, i) && ChildLinked(InFunction, i) {
      if i < 3 {
      assert i == 0 || i == 1 || i == 2;
      } else {
        assert i == 3 || i == 4;
      }
    }
  }

  // `function foo() {\n\n}\n\nawait foo()`: the function is a sibling, not an ancestor.
  const AfterFunction: seq<Node> := [
    Node(Program, None, None, false, []),
    Node(FunctionDeclaration, Some(0), None, false, []),
    Node(BlockStatement, Some(1), None, false, []),
    Node(ExpressionStatement, Some(0), None, false, []),
    Node(AwaitExpression, Some(3), None, false, [])
  ]

  lemma AfterFunctionReported()
    ensures Valid(AfterFunction) && !InsideFunction(AfterFunction, 4)
  {
    forall i | 0 <= i < |AfterFunction| ensures NodeOk(AfterFunction, i) && ChildLinked(AfterFunction, i) {
      if i < 3 {
      assert i == 0 || i == 1 || i == 2;
      } else {
        assert i == 3 || i == 4;
      }
    }
  }

  // `const a = {\n  foo: await bar()\n}`
  const InObject: seq<Node> := [
    Node(Program, None, None, false, []),
    Node(VariableDeclaration, Some(0), None, false, []),
    Node(VariableDeclarator, Some(1), None, false, []),
    Node(ObjectExpression, Some(2), None, false, []),
    Node(Property, Some(3), None, false, []),
    Node(AwaitExpression, Some(4), None, false, [])
  ]

  lemma InObjectReported()
    ensures Valid(InObject) && !InsideFunction(InObject, 5)
  {
    forall i | 0 <= i < |InObject| ensures NodeOk(InObject, i) && ChildLinked(InObject, i) {
      if i < 3 {
      assert i == 0 || i == 1 || i == 2;
      } else {
        assert i == 3 || i == 4 || i == 5;
      }
    }
  }

  /** The listener reports the awaits of the first, third and fourth trees and not the second. */
  method Listeners() returns (bare: bool, inFunction: bool, afterFunction: bool, inObject: bool)
    ensures bare && !inFunction && afterFunction && inObject
  {
    BareReported();
    InFunctionAccepted();
    AfterFunctionReported();
    InObjectReported();
    bare := OnAwait(Bare, 2);
    inFunction := OnAwait(InFunction, 4);
    afterFunction := OnAwait(AfterFunction, 4);
    inObject := OnAwait(InObject, 5);
  }
}
