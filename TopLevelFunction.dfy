/**
 * The `top-level-function` rule: a top-level `const` bound to an arrow function
 * or a function expression is reported, and its fix rewrites the declaration
 * as a `function` declaration with the same name, type parameters, parameters,
 * return type and body.
 */
module TopLevelFunction {
  import opened Layout

  /** The parent of the declaration, as far as the rule distinguishes it. */
  datatype ParentKind = Program | ExportNamedDeclaration | OtherParent

  /** The declaration keyword. */
  datatype DeclKind = Const | Let | Var | Using | AwaitUsing

  /** The kind of the initializer. */
  datatype InitKind = ArrowFunctionExpression | FunctionExpression | OtherExpression

  /** The kind of the declared binding. */
  datatype IdKind = Identifier | ArrayPattern | ObjectPattern

  /** The binding: its kind, its range, the line it starts on, and whether it carries a type annotation. */
  datatype Id = Id(kind: IdKind, range: Span, startLine: nat, typeAnnotated: bool)

  /** The function body: a block, or an expression (of an arrow function). */
  datatype Body = Body(isBlock: bool, range: Span, startLine: nat, endLine: nat)

  /**
   * The initializer. For the two function kinds, the ranges of the parameters,
   * of the body, of the type parameters and of the return type annotation, and
   * whether it is `async`.
   */
  datatype Init = Init(kind: InitKind, params: seq<Span>, body: Body,
                       typeParameters: Option<Span>, returnType: Option<Span>, async: bool)

  datatype Declarator = Declarator(id: Id, init: Option<Init>)

  /** A `VariableDeclaration`: its parent, keyword, declarators, `declare` flag and range. */
  datatype Declaration = Declaration(parent: ParentKind, kind: DeclKind, declarations: seq<Declarator>,
                                     declare: bool, range: Span)

  /** A `topLevelFunctionDeclaration` report: from the name to the body, with the replacement of the declaration. */
  datatype Report = Report(from: nat, to: nat, fix: Edit)

  predicate InSource(src: string, s: Span) {
    s.start <= s.end <= |src|
  }

  /** What the parser guarantees about the ranges: they lie in the source, the parameters in order. */
  predicate Placed(src: string, node: Declaration) {
    && InSource(src, node.range)
    && forall d :: d in node.declarations ==>
         InSource(src, d.id.range) && (d.init.Some? ==> FunctionPlaced(src, d.init.value))
  }

  predicate FunctionPlaced(src: string, f: Init) {
    && InSource(src, f.body.range)
    && (forall p :: p in f.params ==> InSource(src, p))
    && (f.params != [] ==> f.params[0].start <= f.params[|f.params| - 1].end)
    && (f.typeParameters.Some? ==> InSource(src, f.typeParameters.value))
    && (f.returnType.Some? ==> InSource(src, f.returnType.value))
  }

  /** The guards of the listener: which declarations are reported. */
  predicate Eligible(node: Declaration) {
    && node.parent in {Program, ExportNamedDeclaration}
    && |node.declarations| == 1
    && node.kind == Const
    && !node.declare
    && var d := node.declarations[0];
       && d.init.Some? && d.init.value.kind in {ArrowFunctionExpression, FunctionExpression}
       && d.id.kind == IdKind.Identifier
       && !d.id.typeAnnotated
       && (d.init.value.body.isBlock || d.id.startLine != d.init.value.body.endLine)
  }

  function Slice(src: string, s: Span): string
    requires InSource(src, s)
  {
    src[s.start..s.end]
  }

  /** The parameter list: from the first parameter's start to the last one's end, or empty. */
  function TextArgs(src: string, params: seq<Span>): (r: string)
    requires forall p :: p in params ==> InSource(src, p)
    requires params != [] ==> params[0].start <= params[|params| - 1].end
    ensures params == [] ==> r == ""
    ensures params != [] ==> InSource(src, Span(params[0].start, params[|params| - 1].end))
    ensures params != [] ==> r == src[params[0].start..params[|params| - 1].end]
  {
    if params == [] then ""
    else
      assert params[0] in params && params[|params| - 1] in params;
      assert InSource(src, params[0]) && InSource(src, params[|params| - 1]);
      src[params[0].start..params[|params| - 1].end]
  }

  /** A block body is copied; an expression body is returned from a new block. */
  function TextBody(src: string, body: Body): (r: string)
    requires InSource(src, body.range)
    ensures body.isBlock ==> r == Slice(src, body.range)
    ensures !body.isBlock ==> r == "{\n  return " + Slice(src, body.range) + "\n}"
  {
    if body.isBlock then Slice(src, body.range)
    else "{\n  return " + Slice(src, body.range) + "\n}"
  }

  function TextOptional(src: string, s: Option<Span>): (r: string)
    requires s.Some? ==> InSource(src, s.value)
    ensures s.None? ==> r == ""
  {
    if s.Some? then Slice(src, s.value) else ""
  }

  function TextAsync(async: bool): string {
    if async then "async " else ""
  }

  /** The replacement text: `ASYNC function NAME GENERIC(ARGS)RET BODY`. */
  function FixText(src: string, d: Declarator): string
    requires InSource(src, d.id.range) && d.init.Some? && FunctionPlaced(src, d.init.value)
  {
    var f := d.init.value;
    Assemble(TextAsync(f.async), Slice(src, d.id.range), TextOptional(src, f.typeParameters),
             TextArgs(src, f.params), TextOptional(src, f.returnType), TextBody(src, f.body))
  }

  function Assemble(a: string, name: string, generic: string, args: string, ret: string, body: string): string {
    a + "function " + name + " " + generic + "(" + args + ")" + ret + " " + body
  }

  /** The `VariableDeclaration` listener. */
  function Listen(src: string, node: Declaration): (r: Option<Report>)
    requires Placed(src, node)
  {
    if !Eligible(node) then None
    else
      var d := node.declarations[0];
      assert d in node.declarations;
      Some(Report(d.id.range.start, d.init.value.body.range.start,
                  Edit(node.range.start, node.range.end, FixText(src, d))))
  }

  /**
   * A declaration is reported exactly when it sits at the top level (directly
   * or under `export`), is a `const` with one declarator and no `declare`,
   * binds a plain identifier without a type annotation to an arrow function or
   * a function expression, and, for an expression body, the body ends on a
   * later line than the name starts. The report runs from the name to the body
   * and its fix replaces exactly the declaration.
   */
  lemma ListenReports(src: string, node: Declaration)
    requires Placed(src, node)
    ensures Listen(src, node).Some? <==>
      && (node.parent == Program || node.parent == ExportNamedDeclaration)
      && |node.declarations| == 1 && node.kind == Const && !node.declare
      && node.declarations[0].init.Some?
      && (node.declarations[0].init.value.kind == ArrowFunctionExpression
          || node.declarations[0].init.value.kind == FunctionExpression)
      && node.declarations[0].id.kind == IdKind.Identifier && !node.declarations[0].id.typeAnnotated
      && (node.declarations[0].init.value.body.isBlock
          || node.declarations[0].id.startLine != node.declarations[0].init.value.body.endLine)
    ensures Listen(src, node).Some? ==>
      var r, d := Listen(src, node).value, node.declarations[0];
      && r.from == d.id.range.start && r.to == d.init.value.body.range.start
      && r.fix.start == node.range.start && r.fix.end == node.range.end
      && Fits(src, r.fix)
  {
  }

  /**
   * The replacement is a function declaration: it starts with `async `
   * exactly when the initializer is async, then `function ` and the name, and
   * it ends with the body; its length is that of all its parts.
   */
  lemma FixTextHead(src: string, d: Declarator)
    requires InSource(src, d.id.range) && d.init.Some? && FunctionPlaced(src, d.init.value)
    ensures var f, r := d.init.value, FixText(src, d);
      var a, name := |TextAsync(f.async)|, Slice(src, d.id.range);
      && (f.async <==> a == 6)
      && |r| == a + 9 + |name| + 1 + |TextOptional(src, f.typeParameters)| + 1 + |TextArgs(src, f.params)| + 1
                + |TextOptional(src, f.returnType)| + 1 + |TextBody(src, f.body)|
      && r[..a] == TextAsync(f.async)
      && r[a..a + 9] == "function "
      && r[a + 9..a + 9 + |name|] == name
      && r[|r| - |TextBody(src, f.body)|..] == TextBody(src, f.body)
  {
    var f := d.init.value;
    AssembleParts(TextAsync(f.async), Slice(src, d.id.range), TextOptional(src, f.typeParameters),
                  TextArgs(src, f.params), TextOptional(src, f.returnType), TextBody(src, f.body));
  }

  /** After the name, a space and the type parameters, the replacement holds the parameters. */
  lemma FixTextArgs(src: string, d: Declarator)
    requires InSource(src, d.id.range) && d.init.Some? && FunctionPlaced(src, d.init.value)
    ensures var f, r := d.init.value, FixText(src, d);
      var args := TextArgs(src, f.params);
      var open := |TextAsync(f.async)| + 9 + |Slice(src, d.id.range)| + 1 + |TextOptional(src, f.typeParameters)|;
      open + 2 + |args| <= |r| && r[open + 1..open + 1 + |args|] == args
  {
    var f := d.init.value;
    var a, name, generic := TextAsync(f.async), Slice(src, d.id.range), TextOptional(src, f.typeParameters);
    var args, ret, body := TextArgs(src, f.params), TextOptional(src, f.returnType), TextBody(src, f.body);
    assert FixText(src, d) == Assemble(a, name, generic, args, ret, body);
    AssembleParts(a, name, generic, args, ret, body);
  }

  /** The parameters are enclosed in "(" and ")". */
  lemma FixTextParens(src: string, d: Declarator)
    requires InSource(src, d.id.range) && d.init.Some? && FunctionPlaced(src, d.init.value)
    ensures var f, r := d.init.value, FixText(src, d);
      var n := |TextArgs(src, f.params)|;
      var open := |TextAsync(f.async)| + 9 + |Slice(src, d.id.range)| + 1 + |TextOptional(src, f.typeParameters)|;
      open + 2 + n <= |r| && r[open..open + 1] == "(" && r[open + 1 + n..open + 2 + n] == ")"
  {
    var f := d.init.value;
    var a, name, generic := TextAsync(f.async), Slice(src, d.id.range), TextOptional(src, f.typeParameters);
    var args, ret, body := TextArgs(src, f.params), TextOptional(src, f.returnType), TextBody(src, f.body);
    assert FixText(src, d) == Assemble(a, name, generic, args, ret, body);
    AssembleParts(a, name, generic, args, ret, body);
  }

  lemma AssembleParts(a: string, name: string, generic: string, args: string, ret: string, body: string)
    ensures var r := Assemble(a, name, generic, args, ret, body);
      var open := |a| + 9 + |name| + 1 + |generic|;
      && |r| == open + 1 + |args| + 1 + |ret| + 1 + |body|
      && r[..|a|] == a
      && r[|a|..|a| + 9] == "function "
      && r[|a| + 9..|a| + 9 + |name|] == name
      && r[open..open + 1] == "("
      && r[open + 1..open + 1 + |args|] == args
      && r[open + 1 + |args|..open + 2 + |args|] == ")"
      && r[|r| - |body|..] == body
  {
    var head := a + "function " + name + " " + generic;
    var tail := "(" + args + ")" + ret + " " + body;
    assert Assemble(a, name, generic, args, ret, body) == head + tail;
    HeadParts(a, name, generic);
    TailParts(args, ret, body);
    var h := |head|;
    SliceLeft(head, tail, 0, |a|);
    SliceLeft(head, tail, |a|, |a| + 9);
    SliceLeft(head, tail, |a| + 9, |a| + 9 + |name|);
    SliceRight(head, tail, 0, 1);
    SliceRight(head, tail, 1, 1 + |args|);
    SliceRight(head, tail, 1 + |args|, 2 + |args|);
    SliceRight(head, tail, |tail| - |body|, |tail|);
    assert (head + tail)[..|a|] == (head + tail)[0..|a|];
  }

  lemma HeadParts(a: string, name: string, generic: string)
    ensures var head := a + "function " + name + " " + generic;
      && head[..|a|] == a
      && head[|a|..|a| + 9] == "function "
      && head[|a| + 9..|a| + 9 + |name|] == name
  {
    var head := a + "function " + name + " " + generic;
    ConcatParts(a, "function " + name + " " + generic);
    assert head == a + ("function " + name + " " + generic);
  }

  lemma TailParts(args: string, ret: string, body: string)
    ensures var tail := "(" + args + ")" + ret + " " + body;
      && tail[..1] == "("
      && tail[1..1 + |args|] == args
      && tail[1 + |args|..2 + |args|] == ")"
      && tail[|tail| - |body|..] == body
  {
    var tail := "(" + args + ")" + ret + " " + body;
    ConcatParts("(" + args + ")" + ret + " ", body);
    var inner := args + (")" + ret + " " + body);
    assert tail == "(" + inner;
    ConcatParts("(", inner);
    ConcatParts(args, ")" + ret + " " + body);
    assert tail[1..1 + |args|] == inner[..|args|];
    assert tail[1 + |args|..2 + |args|] == inner[|args|..|args| + 1];
  }

  /**
   * Only the declaration is replaced: a surrounding `export ` and everything
   * else outside the declaration's range is kept.
   */
  lemma FixKeepsSurroundings(src: string, node: Declaration)
    requires Placed(src, node) && Listen(src, node).Some?
    ensures var fix := Listen(src, node).value.fix;
      Apply(src, fix) == src[..node.range.start] + fix.text + src[node.range.end..]
  {
  }
}
