/**
 * The `curly` rule: the bodies of one if/else-if/else chain, or the body of a
 * loop, form a group. When any body of the group needs braces (it is a block
 * already, a nested if or loop, or it spans several lines), every body of the
 * group that is not a block is wrapped in braces.
 */
module Curly {
  import opened Layout

  /**
   * Where a statement sits: its offsets, the lines it starts and ends on, and
   * the end offset of the token before it (the host's `getTokenBefore`).
   */
  datatype Loc = Loc(start: nat, end: nat, startLine: nat, endLine: nat, before: nat)

  datatype LoopKind = While | DoWhile | For | ForIn | ForOf

  /** Statements, as far as the rule looks at them. */
  datatype Stmt =
    | Block(loc: Loc)
    | If(consequent: Stmt, alternate: Option<Stmt>, loc: Loc)
    | Loop(kind: LoopKind, body: Stmt, loc: Loc)
    | Other(loc: Loc)

  /** A `missingCurlyBrackets` report on a body, with its fix. */
  datatype Report = Report(body: Loc, fix: seq<Edit>)

  /** The edits of all reports, in report order: the fixes the host applies in one pass. */
  function Fixes(rs: seq<Report>): seq<Edit> {
    if rs == [] then [] else rs[0].fix + Fixes(rs[1..])
  }

  /** A body needs braces when it has them already, is a nested if or loop, or spans more than one line. */
  predicate RequireCurly(body: Stmt) {
    || body.Block?
    || body.If? || body.Loop?
    || body.loc.startLine != body.loc.endLine
  }

  /** The wrap fix: " {" after the token before the body and "\n}" after the body, in offset order. */
  function WrapFix(body: Loc): seq<Edit> {
    [Insert(body.before, " {"), Insert(body.end, "\n}")]
  }

  predicate Placed(src: string, body: Loc) {
    body.before <= body.start <= body.end <= |src|
  }

  /** The wrap fix encloses exactly the body, and the token before it, in braces. */
  lemma WrapText(src: string, body: Loc)
    requires Placed(src, body)
    ensures Ordered(WrapFix(body)) && AllFit(src, WrapFix(body))
    ensures ApplyAll(src, WrapFix(body))
            == src[..body.before] + " {" + src[body.before..body.end] + "\n}" + src[body.end..]
  {
    var open, close := Insert(body.before, " {"), Insert(body.end, "\n}");
    assert WrapFix(body) == [open, close];
    ApplyTwo(src, open, close);
    InsertsAroundBody(src, body);
  }

  lemma InsertsAroundBody(src: string, body: Loc)
    requires Placed(src, body)
    ensures Apply(Apply(src, Insert(body.end, "\n}")), Insert(body.before, " {"))
            == src[..body.before] + " {" + src[body.before..body.end] + "\n}" + src[body.end..]
  {
    var head, tail := src[..body.end], "\n}" + src[body.end..];
    var once := Apply(src, Insert(body.end, "\n}"));
    assert once == head + tail;
    SplitConcat(head, tail, body.before);
    assert head[..body.before] == src[..body.before];
    assert head[body.before..] == src[body.before..body.end];
  }

  lemma SplitConcat(a: string, b: string, at: nat)
    requires at <= |a|
    ensures (a + b)[..at] == a[..at] && (a + b)[at..] == a[at..] + b
  {
  }

  /** A body is wrapped unless it is a block. */
  function WrapCurlyIfNeeded(body: Stmt): Option<Report> {
    if body.Block? then None else Some(Report(body.loc, WrapFix(body.loc)))
  }

  function ToSeq<T>(o: Option<T>): seq<T> {
    if o.Some? then [o.value] else []
  }

  /** The reports of `wrapCurlyIfNeeded` over the bodies, in order. */
  function Wraps(bodies: seq<Stmt>): seq<Report>
    decreases |bodies|
  {
    if bodies == [] then []
    else Wraps(bodies[..|bodies| - 1]) + ToSeq(WrapCurlyIfNeeded(bodies[|bodies| - 1]))
  }

  predicate SomeRequire(bodies: seq<Stmt>) {
    exists k :: 0 <= k < |bodies| && RequireCurly(bodies[k])
  }

  /** What `check` reports for one group. */
  function CheckSpec(bodies: seq<Stmt>): seq<Report> {
    if SomeRequire(bodies) then Wraps(bodies) else []
  }

  /** The bodies of a group that are not blocks, in order. */
  function Unbraced(bodies: seq<Stmt>): (r: seq<Stmt>)
    ensures forall s :: s in r <==> s in bodies && !s.Block?
    ensures |r| <= |bodies|
  {
    if bodies == [] then []
    else (if bodies[0].Block? then [] else [bodies[0]]) + Unbraced(bodies[1..])
  }

  lemma {:induction false} UnbracedSnoc(bodies: seq<Stmt>, s: Stmt)
    ensures Unbraced(bodies + [s]) == Unbraced(bodies) + (if s.Block? then [] else [s])
    decreases |bodies|
  {
    if bodies == [] {
      assert bodies + [s] == [s];
      assert [s][1..] == [];
    } else {
      assert (bodies + [s])[1..] == bodies[1..] + [s];
      UnbracedSnoc(bodies[1..], s);
    }
  }

  /** The wraps are one report per unbraced body, in order, each enclosing that body. */
  lemma {:induction false} WrapsAreUnbraced(bodies: seq<Stmt>)
    ensures var u := Unbraced(bodies);
      && |Wraps(bodies)| == |u|
      && forall k :: 0 <= k < |u| ==> Wraps(bodies)[k] == Report(u[k].loc, WrapFix(u[k].loc))
    decreases |bodies|
  {
    if bodies != [] {
      var init, last := bodies[..|bodies| - 1], bodies[|bodies| - 1];
      assert init + [last] == bodies;
      WrapsAreUnbraced(init);
      UnbracedSnoc(init, last);
    }
  }

  /**
   * A group is reported exactly when some body needs braces and some body is
   * not a block; the reports are then one per non-block body, in order, each
   * wrapping that body, and block bodies are left as they are.
   */
  lemma CheckReports(bodies: seq<Stmt>)
    ensures var rs, u := CheckSpec(bodies), Unbraced(bodies);
      && (rs != [] <==> SomeRequire(bodies) && exists k :: 0 <= k < |bodies| && !bodies[k].Block?)
      && (SomeRequire(bodies) ==> |rs| == |u| && forall k :: 0 <= k < |u| ==> rs[k] == Report(u[k].loc, WrapFix(u[k].loc)))
      && (!SomeRequire(bodies) ==> rs == [])
  {
    WrapsAreUnbraced(bodies);
    var u := Unbraced(bodies);
    if exists k :: 0 <= k < |bodies| && !bodies[k].Block? {
      var k :| 0 <= k < |bodies| && !bodies[k].Block?;
      assert bodies[k] in u;
    } else {
      AllBlocks(bodies);
    }
  }

  lemma {:induction false} AllBlocks(bodies: seq<Stmt>)
    requires forall k :: 0 <= k < |bodies| ==> bodies[k].Block?
    ensures Unbraced(bodies) == []
    decreases |bodies|
  {
    if bodies != [] {
      AllBlocks(bodies[1..]);
    }
  }

  /** Single-line bodies that are neither blocks nor nested statements are accepted as they are. */
  lemma SingleLineAccepted(bodies: seq<Stmt>)
    requires forall k :: 0 <= k < |bodies| ==> bodies[k].Other? && bodies[k].loc.startLine == bodies[k].loc.endLine
    ensures CheckSpec(bodies) == []
  {
  }

  /** `check`: maps the bodies to `requireCurly`, and when any is true wraps every body that needs it. */
  method Check(bodies: seq<Stmt>) returns (reports: seq<Report>)
    ensures reports == CheckSpec(bodies)
  {
    var needed: seq<bool> := [];
    for k := 0 to |bodies|
      invariant |needed| == k
      invariant forall j :: 0 <= j < k ==> needed[j] == RequireCurly(bodies[j])
    {
      needed := needed + [RequireCurly(bodies[k])];
    }
    reports := [];
    if true in needed {
      for k := 0 to |bodies|
        invariant reports == Wraps(bodies[..k])
      {
        assert bodies[..k + 1][..k] == bodies[..k];
        reports := reports + ToSeq(WrapCurlyIfNeeded(bodies[k]));
      }
      assert bodies[..|bodies|] == bodies;
    } else {
      assert !SomeRequire(bodies) by {
        forall k | 0 <= k < |bodies|
          ensures !RequireCurly(bodies[k])
        {
          assert needed[k] in needed;
        }
      }
    }
  }

  /** The bodies of an if chain: every consequent in order, then a final `else` that is not an if. */
  function BranchGroup(node: Stmt): (group: seq<Stmt>)
    requires node.If?
    ensures |group| >= 1 && group[0] == node.consequent
    decreases node
  {
    [node.consequent]
    + match node.alternate
      case None => []
      case Some(a) => if a.If? then BranchGroup(a) else [a]
  }

  /** The ifs of a chain: the outermost one, then each `else if` in turn. */
  function Chain(node: Stmt): (ifs: seq<Stmt>)
    requires node.If?
    ensures |ifs| >= 1 && ifs[0] == node
    ensures forall k :: 0 <= k < |ifs| ==> ifs[k].If?
    ensures forall k :: 0 <= k < |ifs| - 1 ==> ifs[k].alternate == Some(ifs[k + 1])
    decreases node
  {
    match node.alternate
    case Some(a) => if a.If? then [node] + Chain(a) else [node]
    case None => [node]
  }

  /** The final `else` of a chain that is not itself an if, if there is one. */
  function FinalElse(node: Stmt): Option<Stmt>
    requires node.If?
    decreases node
  {
    match node.alternate
    case Some(a) => if a.If? then FinalElse(a) else Some(a)
    case None => None
  }

  /** The group is the chain's consequents followed by its final `else`, which is never an if. */
  lemma {:induction false} GroupOfChain(node: Stmt)
    requires node.If?
    ensures var ifs, group := Chain(node), BranchGroup(node);
      && |group| == |ifs| + |ToSeq(FinalElse(node))|
      && (forall k :: 0 <= k < |ifs| ==> group[k] == ifs[k].consequent)
      && group[|ifs|..] == ToSeq(FinalElse(node))
      && (FinalElse(node).Some? ==> !FinalElse(node).value.If?)
      && ifs[|ifs| - 1].alternate == FinalElse(node)
    decreases node
  {
    match node.alternate
    case Some(a) =>
      if a.If? {
        GroupOfChain(a);
        var ifs, group := Chain(node), BranchGroup(node);
        assert ifs == [node] + Chain(a);
        assert group == [node.consequent] + BranchGroup(a);
        assert forall k :: 1 <= k < |ifs| ==> group[k] == BranchGroup(a)[k - 1] && ifs[k] == Chain(a)[k - 1];
        assert group[|ifs|..] == BranchGroup(a)[|Chain(a)|..];
      }
    case None =>
  }

  /**
   * `addIf`: pushes the consequent, then recurses into an `else if` or pushes
   * the final `else`.
   */
  method AddIf(node: Stmt, statements: seq<Stmt>) returns (result: seq<Stmt>)
    requires node.If?
    ensures result == statements + BranchGroup(node)
    decreases node
  {
    result := statements + [node.consequent];
    if node.alternate.Some? {
      var a := node.alternate.value;
      if a.If? {
        result := AddIf(a, result);
        assert BranchGroup(node) == [node.consequent] + BranchGroup(a);
        ConcatAssoc(statements, [node.consequent], BranchGroup(a));
      } else {
        result := result + [a];
        assert BranchGroup(node) == [node.consequent] + [a];
        ConcatAssoc(statements, [node.consequent], [a]);
      }
    } else {
      assert BranchGroup(node) == [node.consequent];
    }
  }

  /** The `IfStatement` listener; `parent` is the statement's parent when that is a statement. */
  method OnIf(node: Stmt, parent: Option<Stmt>) returns (reports: seq<Report>)
    requires node.If?
    ensures parent.Some? && parent.value.If? && parent.value.alternate == Some(node) ==> reports == []
    ensures !(parent.Some? && parent.value.If? && parent.value.alternate == Some(node))
            ==> reports == CheckSpec(BranchGroup(node))
  {
    if parent.Some? && parent.value.If? && parent.value.alternate == Some(node) {
      return [];
    }
    var statements := AddIf(node, []);
    assert statements == BranchGroup(node);
    reports := Check(statements);
  }

  /**
   * An `else if` is left to the outer if, whose group holds the outer
   * consequent followed by the whole group of the `else if`.
   */
  lemma ElseIfInOuterGroup(node: Stmt)
    requires node.If? && node.alternate.Some? && node.alternate.value.If?
    ensures BranchGroup(node) == [node.consequent] + BranchGroup(node.alternate.value)
  {
  }

  /** The listener of the five loop statements: the body is a group of its own. */
  method OnLoop(node: Stmt) returns (reports: seq<Report>)
    requires node.Loop?
    ensures reports == CheckSpec([node.body])
  {
    reports := Check([node.body]);
  }

  /** A loop body is wrapped exactly when it is a nested if or loop, or a multi-line statement that is not a block. */
  lemma LoopReports(node: Stmt)
    requires node.Loop?
    ensures CheckSpec([node.body]) != [] <==> !node.body.Block? && RequireCurly(node.body)
    ensures CheckSpec([node.body]) != [] ==> CheckSpec([node.body]) == [Report(node.body.loc, WrapFix(node.body.loc))]
  {
    assert [node.body][..0] == [];
    assert Wraps([node.body]) == ToSeq(WrapCurlyIfNeeded(node.body));
    if RequireCurly(node.body) {
      assert SomeRequire([node.body]) by { assert RequireCurly([node.body][0]); }
    }
  }
}
