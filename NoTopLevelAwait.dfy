/**
 * The `no-top-level-await` rule: an `await` expression is reported unless some
 * ancestor is a function (declaration, expression or arrow function).
 */
module NoTopLevelAwait {
  import opened Layout
  import opened SyntaxTree

  predicate IsFunction(kind: NodeType) {
    kind == FunctionDeclaration || kind == FunctionExpression || kind == ArrowFunctionExpression
  }

  /** Some node on the parent chain above node `i` is a function. */
  predicate InsideFunction(nodes: seq<Node>, i: nat)
    requires Valid(nodes) && i < |nodes|
    decreases i
  {
    var p := nodes[i].parent;
    p.Some? && (IsFunction(nodes[p.value].kind) || InsideFunction(nodes, p.value))
  }

  /** Being inside a function is having a function among the proper ancestors. */
  lemma {:induction false} InsideFunctionIffAncestor(nodes: seq<Node>, i: nat)
    requires Valid(nodes) && i < |nodes|
    ensures InsideFunction(nodes, i) <==> exists a :: 0 <= a < i && IsAncestor(nodes, a, i) && IsFunction(nodes[a].kind)
    decreases i
  {
    var p := nodes[i].parent;
    if p.Some? {
      InsideFunctionIffAncestor(nodes, p.value);
      if InsideFunction(nodes, i) {
        if IsFunction(nodes[p.value].kind) {
          assert IsAncestor(nodes, p.value, i);
        } else {
          var a :| 0 <= a < p.value && IsAncestor(nodes, a, p.value) && IsFunction(nodes[a].kind);
          assert IsAncestor(nodes, a, i);
        }
      }
      if exists a :: 0 <= a < i && IsAncestor(nodes, a, i) && IsFunction(nodes[a].kind) {
        var a :| 0 <= a < i && IsAncestor(nodes, a, i) && IsFunction(nodes[a].kind);
        if a != p.value {
          AncestorBefore(nodes, a, p.value);
        }
      }
    }
  }

  /** The `AwaitExpression` listener: walks up the parents until a function or the root. */
  method OnAwait(nodes: seq<Node>, node: nat) returns (report: bool)
    requires Valid(nodes) && node < |nodes|
    ensures report <==> !InsideFunction(nodes, node)
  {
    var parent := nodes[node].parent;
    while parent.Some?
      invariant parent.Some? ==> parent.value < |nodes|
      invariant InsideFunction(nodes, node) <==>
                  parent.Some? && (IsFunction(nodes[parent.value].kind) || InsideFunction(nodes, parent.value))
      decreases if parent.Some? then parent.value + 1 else 0
    {
      if IsFunction(nodes[parent.value].kind) {
        return false;
      }
      parent := nodes[parent.value].parent;
    }
    return true;
  }
}
