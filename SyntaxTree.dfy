/**
 * The syntax tree as the rules see it through parent links: a table of nodes
 * indexed in pre-order, so that a parent always comes before its children.
 */
module SyntaxTree {
  import opened Layout

  /** The node types the rules distinguish; every other type is `OtherNode`. */
  datatype NodeType =
    | Program | ExpressionStatement | VariableDeclaration | VariableDeclarator
    | ObjectExpression | Property | BlockStatement
    | MemberExpression | CallExpression | TSNonNullExpression
    | ThisExpression | Identifier | Literal
    | FunctionDeclaration | FunctionExpression | ArrowFunctionExpression
    | AwaitExpression | OtherNode

  /**
   * A node: its kind, its parent, and for a member access, a call or a non-null
   * assertion the node it wraps (its object, its callee, its expression).
   * `computed` marks a `a[b]` access; `comments` are the comments the parser
   * attaches to a `Program`.
   */
  datatype Node = Node(kind: NodeType, parent: Option<nat>, inner: Option<nat>, computed: bool, comments: seq<Span>)

  predicate Wraps(t: NodeType) {
    t == MemberExpression || t == CallExpression || t == TSNonNullExpression
  }

  /**
   * Node `i` is well placed: its parent comes before it, only a `Program` has
   * no parent, and a member access, call or non-null assertion wraps a later
   * node.
   */
  predicate NodeOk(nodes: seq<Node>, i: nat)
    requires i < |nodes|
  {
    && (nodes[i].parent.Some? ==> nodes[i].parent.value < i)
    && (nodes[i].parent.None? <==> nodes[i].kind == Program)
    && (nodes[i].inner.Some? <==> Wraps(nodes[i].kind))
    && (nodes[i].inner.Some? ==> i < nodes[i].inner.value < |nodes|)
  }

  /** The node wrapped by node `i`, if any, has `i` as its parent. */
  predicate ChildLinked(nodes: seq<Node>, i: nat)
    requires i < |nodes|
  {
    nodes[i].inner.Some? && nodes[i].inner.value < |nodes| ==> nodes[nodes[i].inner.value].parent == Some(i)
  }

  /** A well-formed tree: every node is well placed and linked to the node it wraps. */
  predicate Valid(nodes: seq<Node>) {
    && (forall i {:trigger nodes[i]} :: 0 <= i < |nodes| ==> NodeOk(nodes, i))
    && (forall i :: 0 <= i < |nodes| ==> ChildLinked(nodes, i))
  }

  /** `a` is a proper ancestor of `i`. */
  predicate IsAncestor(nodes: seq<Node>, a: nat, i: nat)
    requires Valid(nodes) && i < |nodes|
    decreases i
  {
    var p := nodes[i].parent;
    p.Some? && (p.value == a || IsAncestor(nodes, a, p.value))
  }

  lemma {:induction false} AncestorBefore(nodes: seq<Node>, a: nat, i: nat)
    requires Valid(nodes) && i < |nodes|
    requires IsAncestor(nodes, a, i)
    ensures a < i
    decreases i
  {
    var p := nodes[i].parent.value;
    if p != a {
      AncestorBefore(nodes, a, p);
    }
  }

  /** The `Program` node `i` belongs to: the nearest `Program` ancestor-or-self. */
  function ProgramOf(nodes: seq<Node>, i: nat): (p: nat)
    requires Valid(nodes) && i < |nodes|
    ensures p <= i && nodes[p].kind == Program
    ensures p == i || IsAncestor(nodes, p, i)
    decreases i
  {
    if nodes[i].kind == Program then i
    else ProgramOf(nodes, nodes[i].parent.value)
  }
}
