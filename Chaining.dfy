/**
 * `consistent-chaining`: within one member chain, every `.property` link after
 * the first non-exempt one must sit on the same line as the token before it
 * (single mode) or on a line of its own (multi mode), as that first link does.
 */
module Chaining {
  import opened Layout
  import opened SyntaxTree

  /** The token before a link's property (its "." or "?.") and the token before that. */
  datatype Dot = Dot(token: Token, before: Token)

  datatype LinkMode = Single | Multi

  datatype Message = ShouldWrap | ShouldNotWrap

  /** A report on link `link` (a node index), with its fix. */
  datatype ChainReport = ChainReport(message: Message, link: nat, fix: Edit)

  /** The host's token lookups: every non-computed member access has its dot tokens. */
  predicate HasDots(nodes: seq<Node>, dots: map<nat, Dot>) {
    forall i :: 0 <= i < |nodes| && nodes[i].kind == MemberExpression ==> i in dots
  }

  predicate Climbs(nodes: seq<Node>, i: nat)
    requires Valid(nodes) && i < |nodes|
  {
    var p := nodes[i].parent;
    p.Some? && (nodes[p.value].kind == MemberExpression || nodes[p.value].kind == CallExpression)
  }

  /** The chain's root: the last node reached by climbing through member-access and call parents. */
  function ChainRoot(nodes: seq<Node>, i: nat): (r: nat)
    requires Valid(nodes) && i < |nodes|
    ensures r <= i
    ensures r == i || IsAncestor(nodes, r, i)
    ensures !Climbs(nodes, r)
    decreases i
  {
    if Climbs(nodes, i) then ChainRoot(nodes, nodes[i].parent.value) else i
  }

  /**
   * `m` is reached from `i` by descending through member accesses and calls
   * only: the kinds of parent the root climb passes through.
   */
  predicate OnClimbPath(nodes: seq<Node>, i: nat, m: nat)
    requires Valid(nodes) && i < |nodes|
    decreases |nodes| - i
  {
    || m == i
    || ((nodes[i].kind == MemberExpression || nodes[i].kind == CallExpression)
        && OnClimbPath(nodes, nodes[i].inner.value, m))
  }

  /**
   * Every node reached from `i` through member accesses and calls only climbs
   * back to the root of `i`: a link reached that way from a root is handled
   * under that root.
   */
  lemma {:induction false} ClimbPathSharesRoot(nodes: seq<Node>, i: nat, m: nat)
    requires Valid(nodes) && i < |nodes| && m < |nodes|
    requires OnClimbPath(nodes, i, m)
    ensures ChainRoot(nodes, m) == ChainRoot(nodes, i)
    decreases |nodes| - i
  {
    if m != i {
      var c := nodes[i].inner.value;
      assert ChildLinked(nodes, i);
      assert Climbs(nodes, c);
      ClimbPathSharesRoot(nodes, c, m);
    }
  }

  /**
   * The climb the link collection calls for: through every kind of node the
   * collection descends through, non-null assertions included.
   */
  predicate ClimbsWrapped(nodes: seq<Node>, i: nat)
    requires Valid(nodes) && i < |nodes|
  {
    var p := nodes[i].parent;
    p.Some? && Wraps(nodes[p.value].kind)
  }

  /** The root under that climb: the node itself or an ancestor, and it climbs no further. */
  function WrappedRoot(nodes: seq<Node>, i: nat): (r: nat)
    requires Valid(nodes) && i < |nodes|
    ensures r <= i
    ensures r == i || IsAncestor(nodes, r, i)
    ensures !ClimbsWrapped(nodes, r)
    decreases i
  {
    if ClimbsWrapped(nodes, i) then WrappedRoot(nodes, nodes[i].parent.value) else i
  }

  /**
   * The links of the chain below `i`, head first: the non-computed member
   * accesses met by descending through objects, callees and non-null
   * assertions.
   */
  function Links(nodes: seq<Node>, i: nat): seq<nat>
    requires Valid(nodes) && i < |nodes|
    decreases |nodes| - i
  {
    var n := nodes[i];
    if n.kind == MemberExpression then Links(nodes, n.inner.value) + (if n.computed then [] else [i])
    else if n.kind == CallExpression || n.kind == TSNonNullExpression then Links(nodes, n.inner.value)
    else []
  }

  /** `m` is reached from `i` by descending through wrapped nodes. */
  predicate OnSpine(nodes: seq<Node>, i: nat, m: nat)
    requires Valid(nodes) && i < |nodes|
    decreases |nodes| - i
  {
    m == i || (nodes[i].inner.Some? && OnSpine(nodes, nodes[i].inner.value, m))
  }

  /**
   * The links are exactly the non-computed member accesses on the spine, and
   * each link is an ancestor of every link before it: the head comes first.
   */
  lemma {:induction false} LinksAreTheSpine(nodes: seq<Node>, i: nat)
    requires Valid(nodes) && i < |nodes|
    ensures var ls := Links(nodes, i);
      && (forall m :: m in ls <==> 0 <= m < |nodes| && OnSpine(nodes, i, m)
                                   && nodes[m].kind == MemberExpression && !nodes[m].computed)
      && (forall k :: 0 <= k < |ls| ==> i <= ls[k] < |nodes|)
      && (forall j, k :: 0 <= j < k < |ls| ==> IsAncestor(nodes, ls[k], ls[j]))
    decreases |nodes| - i
  {
    var n := nodes[i];
    if n.inner.Some? {
      var c := n.inner.value;
      LinksAreTheSpine(nodes, c);
      var below := Links(nodes, c);
      forall m | m in below ensures m != i {
        assert c <= m;
      }
      if n.kind == MemberExpression && !n.computed {
        var ls := Links(nodes, i);
        assert ls == below + [i];
        forall j, k | 0 <= j < k < |ls| ensures IsAncestor(nodes, ls[k], ls[j]) {
          if k == |below| {
            AncestorOfSpine(nodes, i, ls[j]);
          } else {
            assert ls[j] == below[j] && ls[k] == below[k];
          }
        }
      }
    }
  }

  /** Every node strictly below `i` on its spine has `i` as an ancestor. */
  lemma {:induction false} AncestorOfSpine(nodes: seq<Node>, i: nat, m: nat)
    requires Valid(nodes) && i < |nodes| && m < |nodes|
    requires OnSpine(nodes, i, m) && m != i
    ensures IsAncestor(nodes, i, m)
    decreases |nodes| - i
  {
    var c := nodes[i].inner.value;
    assert ChildLinked(nodes, i);
    if m != c {
      AncestorOfSpine(nodes, c, m);
      AncestorThrough(nodes, i, c, m);
    }
  }

  lemma {:induction false} AncestorThrough(nodes: seq<Node>, a: nat, b: nat, m: nat)
    requires Valid(nodes) && m < |nodes|
    requires IsAncestor(nodes, b, m)
    requires b < |nodes| && nodes[b].parent == Some(a)
    ensures IsAncestor(nodes, a, m)
    decreases m
  {
    var p := nodes[m].parent.value;
    if p != b {
      AncestorThrough(nodes, a, b, p);
    }
  }

  /** Every node on the spine below `i` has the wrapped root of `i`. */
  lemma {:induction false} SpineSharesWrappedRoot(nodes: seq<Node>, i: nat, m: nat)
    requires Valid(nodes) && i < |nodes| && m < |nodes|
    requires OnSpine(nodes, i, m)
    ensures WrappedRoot(nodes, m) == WrappedRoot(nodes, i)
    decreases |nodes| - i
  {
    if m != i {
      var c := nodes[i].inner.value;
      assert NodeOk(nodes, i) && ChildLinked(nodes, i);
      assert ClimbsWrapped(nodes, c);
      SpineSharesWrappedRoot(nodes, c, m);
    }
  }

  /**
   * With the climb through non-null assertions, every link collected from `i`
   * has the root of `i`, so two different roots never share a link: each link
   * is classified under one chain only.
   */
  lemma WrappedRootsPartitionLinks(nodes: seq<Node>, r1: nat, r2: nat)
    requires Valid(nodes) && r1 < |nodes| && r2 < |nodes|
    requires !ClimbsWrapped(nodes, r1) && !ClimbsWrapped(nodes, r2) && r1 != r2
    ensures forall m :: m in Links(nodes, r1) ==> m < |nodes| && WrappedRoot(nodes, m) == r1 && m !in Links(nodes, r2)
  {
    LinksAreTheSpine(nodes, r1);
    LinksAreTheSpine(nodes, r2);
    forall m | m in Links(nodes, r1) ensures m < |nodes| && WrappedRoot(nodes, m) == r1 && m !in Links(nodes, r2) {
      SpineSharesWrappedRoot(nodes, r1, m);
      if m in Links(nodes, r2) {
        SpineSharesWrappedRoot(nodes, r2, m);
      }
    }
  }

  /** A link is single when its "." starts on the line where the token before it ends. */
  function ModeOf(d: Dot): LinkMode {
    if d.token.startLine == d.before.endLine then Single else Multi
  }

  /** The link's object, looking through a non-null assertion, is `this`, an identifier, a member access or a literal. */
  predicate SimpleObject(nodes: seq<Node>, m: nat)
    requires Valid(nodes) && m < |nodes| && nodes[m].kind == MemberExpression
  {
    var o := nodes[m].inner.value;
    var obj := if nodes[o].kind == TSNonNullExpression then nodes[o].inner.value else o;
    nodes[obj].kind in {ThisExpression, NodeType.Identifier, MemberExpression, Literal}
  }

  /** What the `forEach` reads of a link: its node, its dots, and whether its object is simple. */
  datatype LinkInfo = LinkInfo(link: nat, dot: Dot, simple: bool)

  /** The per-link facts of a list of links. */
  function Infos(nodes: seq<Node>, dots: map<nat, Dot>, links: seq<nat>): (infos: seq<LinkInfo>)
    requires Valid(nodes) && HasDots(nodes, dots)
    requires forall k :: 0 <= k < |links| ==> links[k] < |nodes| && nodes[links[k]].kind == MemberExpression
    ensures |infos| == |links|
    ensures forall k :: 0 <= k < |links| ==>
              infos[k] == LinkInfo(links[k], dots[links[k]], SimpleObject(nodes, links[k]))
  {
    seq(|links|, k requires 0 <= k < |links| => LinkInfo(links[k], dots[links[k]], SimpleObject(nodes, links[k])))
  }

  /** A leading link the exemption lets through: simple object and single. */
  predicate Exempt(info: LinkInfo) {
    info.simple && ModeOf(info.dot) == Single
  }

  function MessageFor(mode: LinkMode): Message {
    if mode == Single then ShouldNotWrap else ShouldWrap
  }

  /** The fix for a link that differs from the mode: wrap it (multi) or join it (single). */
  function LinkFix(mode: LinkMode, d: Dot): Edit {
    if mode == Multi then Insert(d.before.end, "\n")
    else Edit(d.before.end, d.token.start, "")
  }

  /**
   * One turn of the `forEach`: the report on the link, if any, and the new
   * exemption flag and mode.
   */
  function LinkStep(info: LinkInfo, leading: bool, mode: Option<LinkMode>)
    : (Option<ChainReport>, bool, Option<LinkMode>)
  {
    if leading && Exempt(info) then (None, leading, mode)
    else if mode.None? then (None, false, Some(ModeOf(info.dot)))
    else if ModeOf(info.dot) != mode.value then
      (Some(ChainReport(MessageFor(mode.value), info.link, LinkFix(mode.value, info.dot))), false, mode)
    else (None, false, mode)
  }

  /**
   * The `forEach` over the links from `k`: `leading` is the exemption still in
   * force, `mode` the mode once set.
   */
  function Classify(infos: seq<LinkInfo>, k: nat, leading: bool, mode: Option<LinkMode>): seq<ChainReport>
    requires k <= |infos|
    decreases |infos| - k
  {
    if k == |infos| then []
    else
      var step := LinkStep(infos[k], leading, mode);
      (if step.0.Some? then [step.0.value] else []) + Classify(infos, k + 1, step.1, step.2)
  }

  /** Everything the handler reports for the chain rooted at `root`. */
  function ChainReports(nodes: seq<Node>, dots: map<nat, Dot>, root: nat, allowLeading: bool): seq<ChainReport>
    requires Valid(nodes) && HasDots(nodes, dots) && root < |nodes|
  {
    LinksAreTheSpine(nodes, root);
    Classify(Infos(nodes, dots, Links(nodes, root)), 0, allowLeading, None)
  }

  /** Where the exempt run starting at `k` ends while the exemption holds: the first link not exempt. */
  function RunEnd(infos: seq<LinkInfo>, k: nat, leading: bool): (p: nat)
    requires k <= |infos|
    ensures k <= p <= |infos|
    ensures forall j :: k <= j < p ==> leading && Exempt(infos[j])
    ensures p < |infos| ==> !(leading && Exempt(infos[p]))
    decreases |infos| - k
  {
    if k == |infos| || !leading || !Exempt(infos[k]) then k
    else RunEnd(infos, k + 1, leading)
  }

  /** The links from `k` whose mode differs from `mode`. */
  function Differing(infos: seq<LinkInfo>, k: nat, mode: LinkMode): set<nat> {
    set j | k <= j < |infos| && ModeOf(infos[j].dot) != mode :: infos[j].link
  }

  /** Every report carries the mode's message and the mode's fix for its link's dots. */
  predicate Uniform(infos: seq<LinkInfo>, rs: seq<ChainReport>, mode: LinkMode) {
    forall r :: r in rs ==> r.message == MessageFor(mode)
                            && exists j :: 0 <= j < |infos| && infos[j].link == r.link
                                           && r.fix == LinkFix(mode, infos[j].dot)
  }

  function LinksOf(rs: seq<ChainReport>): set<nat> {
    set r | r in rs :: r.link
  }

  /** Once the mode is set, exactly the links that differ from it are reported, with the mode's message and fix. */
  lemma {:induction false} ClassifyAfterMode(infos: seq<LinkInfo>, k: nat, mode: LinkMode)
    requires k <= |infos|
    ensures var rs := Classify(infos, k, false, Some(mode));
      && Uniform(infos, rs, mode)
      && LinksOf(rs) == Differing(infos, k, mode)
      && |rs| <= |infos| - k
    decreases |infos| - k
  {
    if k < |infos| {
      ClassifyAfterMode(infos, k + 1, mode);
      var rest := Classify(infos, k + 1, false, Some(mode));
      var rs := Classify(infos, k, false, Some(mode));
      var info := infos[k];
      var head := if ModeOf(info.dot) != mode then [ChainReport(MessageFor(mode), info.link, LinkFix(mode, info.dot))] else [];
      assert rs == head + rest;
      assert Differing(infos, k, mode)
          == Differing(infos, k + 1, mode) + (if ModeOf(info.dot) != mode then {info.link} else {});
      assert LinksOf(rs) == LinksOf(head) + LinksOf(rest);
    } else {
      assert Differing(infos, k, mode) == {};
    }
  }

  /**
   * The classification in closed form: the leading exempt run is skipped, the
   * first link after it sets the mode and is never reported, and the rest are
   * classified against that mode. With no link left after the run, nothing is
   * reported.
   */
  lemma {:induction false} ClassifyClosedForm(infos: seq<LinkInfo>, k: nat, leading: bool)
    requires k <= |infos|
    ensures var p := RunEnd(infos, k, leading);
      Classify(infos, k, leading, None)
        == if p == |infos| then [] else Classify(infos, p + 1, false, Some(ModeOf(infos[p].dot)))
    decreases |infos| - k
  {
    if k < |infos| && leading && Exempt(infos[k]) {
      ClassifySkipsExempt(infos, k, leading);
      ClassifyClosedForm(infos, k + 1, leading);
    } else if k < |infos| {
      ClassifySetsMode(infos, k, leading);
    }
  }

  /** An exempt leading link is skipped silently and the exemption stays. */
  lemma ClassifySkipsExempt(infos: seq<LinkInfo>, k: nat, leading: bool)
    requires k < |infos| && leading && Exempt(infos[k])
    ensures Classify(infos, k, leading, None) == Classify(infos, k + 1, leading, None)
    ensures RunEnd(infos, k, leading) == RunEnd(infos, k + 1, leading)
  {
    assert LinkStep(infos[k], leading, None) == (None, leading, None);
    assert Classify(infos, k, leading, None) == [] + Classify(infos, k + 1, leading, None);
  }

  /** The first link that is not exempt sets the mode and is not reported. */
  lemma ClassifySetsMode(infos: seq<LinkInfo>, k: nat, leading: bool)
    requires k < |infos| && !(leading && Exempt(infos[k]))
    ensures RunEnd(infos, k, leading) == k
    ensures Classify(infos, k, leading, None) == Classify(infos, k + 1, false, Some(ModeOf(infos[k].dot)))
  {
    assert LinkStep(infos[k], leading, None) == (None, false, Some(ModeOf(infos[k].dot)));
    assert Classify(infos, k, leading, None) == [] + Classify(infos, k + 1, false, Some(ModeOf(infos[k].dot)));
  }

  /** Links that all agree with the mode draw no report. */
  lemma {:induction false} ClassifyAgreeing(infos: seq<LinkInfo>, k: nat, mode: LinkMode)
    requires k <= |infos|
    requires forall j :: k <= j < |infos| ==> ModeOf(infos[j].dot) == mode
    ensures Classify(infos, k, false, Some(mode)) == []
    decreases |infos| - k
  {
    if k < |infos| {
      ClassifyAgreeing(infos, k + 1, mode);
    }
  }

  /** A chain whose links all share one mode draws no report. */
  lemma UniformChainIsQuiet(infos: seq<LinkInfo>, leading: bool, mode: LinkMode)
    requires forall k :: 0 <= k < |infos| ==> ModeOf(infos[k].dot) == mode
    ensures Classify(infos, 0, leading, None) == []
  {
    ClassifyClosedForm(infos, 0, leading);
    var p := RunEnd(infos, 0, leading);
    if p < |infos| {
      assert ModeOf(infos[p].dot) == mode;
      ClassifyAgreeing(infos, p + 1, mode);
    }
  }

  /** The root climb of the handler. */
  method ClimbToRoot(nodes: seq<Node>, node: nat) returns (root: nat)
    requires Valid(nodes) && node < |nodes|
    ensures root == ChainRoot(nodes, node)
  {
    root := node;
    while Climbs(nodes, root)
      invariant root < |nodes| && ChainRoot(nodes, root) == ChainRoot(nodes, node)
      decreases root
    {
      root := nodes[root].parent.value;
    }
  }

  /** The link collection of the handler: descends from the root, putting each link in front. */
  method CollectLinks(nodes: seq<Node>, root: nat) returns (members: seq<nat>)
    requires Valid(nodes) && root < |nodes|
    ensures members == Links(nodes, root)
  {
    members := [];
    var current: Option<nat> := Some(root);
    while current.Some?
      invariant current.Some? ==> current.value < |nodes|
      invariant Links(nodes, root) == (if current.Some? then Links(nodes, current.value) else []) + members
      decreases if current.Some? then |nodes| - current.value else 0
    {
      var n := nodes[current.value];
      if n.kind == MemberExpression {
        if !n.computed {
          members := [current.value] + members;
        }
        current := n.inner;
      } else if n.kind == CallExpression || n.kind == TSNonNullExpression {
        current := n.inner;
      } else {
        current := None;
      }
    }
  }

  /** The body of the `forEach` for link `m`. */
  method VisitLink(nodes: seq<Node>, dots: map<nat, Dot>, m: nat, leading: bool, mode: Option<LinkMode>)
    returns (report: Option<ChainReport>, leading': bool, mode': Option<LinkMode>)
    requires Valid(nodes) && HasDots(nodes, dots) && m < |nodes| && nodes[m].kind == MemberExpression
    ensures (report, leading', mode') == LinkStep(LinkInfo(m, dots[m], SimpleObject(nodes, m)), leading, mode)
  {
    var d := dots[m];
    var current := ModeOf(d);
    report, leading', mode' := None, leading, mode;
    if leading && SimpleObject(nodes, m) && current == Single {
      return;
    }
    leading' := false;
    if mode == None {
      mode' := Some(current);
      return;
    }
    if mode.value != current {
      report := Some(ChainReport(MessageFor(mode.value), m, LinkFix(mode.value, d)));
    }
  }

  /** The `forEach` over the links: exemption, mode and reports. */
  method ReportLinks(nodes: seq<Node>, dots: map<nat, Dot>, members: seq<nat>, allowLeading: bool)
    returns (reports: seq<ChainReport>)
    requires Valid(nodes) && HasDots(nodes, dots)
    requires forall k :: 0 <= k < |members| ==> members[k] < |nodes| && nodes[members[k]].kind == MemberExpression
    ensures reports == Classify(Infos(nodes, dots, members), 0, allowLeading, None)
  {
    ghost var infos := Infos(nodes, dots, members);
    var leading := allowLeading;
    var mode: Option<LinkMode> := None;
    reports := [];
    var k := 0;
    while k < |members|
      invariant k <= |members|
      invariant Classify(infos, 0, allowLeading, None) == reports + Classify(infos, k, leading, mode)
    {
      ghost var before, step := reports, LinkStep(infos[k], leading, mode);
      ghost var head := if step.0.Some? then [step.0.value] else [];
      ghost var rest := Classify(infos, k + 1, step.1, step.2);
      ClassifyUnfold(infos, k, leading, mode);
      assert infos[k] == LinkInfo(members[k], dots[members[k]], SimpleObject(nodes, members[k]));
      var report;
      report, leading, mode := VisitLink(nodes, dots, members[k], leading, mode);
      assert (report, leading, mode) == step;
      if report.Some? {
        reports := reports + [report.value];
      }
      assert reports == before + head;
      ConcatAssoc(before, head, rest);
      k := k + 1;
    }
  }

  /** One turn of the classification: the step's report, then the rest of the links. */
  lemma ClassifyUnfold(infos: seq<LinkInfo>, k: nat, leading: bool, mode: Option<LinkMode>)
    requires k < |infos|
    ensures var step := LinkStep(infos[k], leading, mode);
      Classify(infos, k, leading, mode)
      == (if step.0.Some? then [step.0.value] else []) + Classify(infos, k + 1, step.1, step.2)
  {
  }

  /** The rule instance: its option and the roots of the chains already handled. */
  class ChainRule {
    var knownRoot: set<nat>
    const allowLeadingPropertyAccess: bool

    /** `allowLeadingPropertyAccess` defaults to true when the option is absent. */
    constructor(option: Option<bool>)
      ensures knownRoot == {}
      ensures allowLeadingPropertyAccess == (option.None? || option.value)
    {
      knownRoot := {};
      allowLeadingPropertyAccess := option.None? || option.value;
    }

    /**
     * The `MemberExpression` handler: a chain is handled once, from the first
     * of its member accesses to be visited.
     */
    method OnMemberExpression(nodes: seq<Node>, dots: map<nat, Dot>, node: nat) returns (reports: seq<ChainReport>)
      requires Valid(nodes) && HasDots(nodes, dots) && node < |nodes| && nodes[node].kind == MemberExpression
      modifies this
      ensures knownRoot == old(knownRoot) + {ChainRoot(nodes, node)}
      ensures reports == if ChainRoot(nodes, node) in old(knownRoot) then []
                         else ChainReports(nodes, dots, ChainRoot(nodes, node), allowLeadingPropertyAccess)
    {
      var root := ClimbToRoot(nodes, node);
      if root in knownRoot {
        return [];
      }
      knownRoot := knownRoot + {root};
      var members := CollectLinks(nodes, root);
      LinksAreTheSpine(nodes, root);
      reports := ReportLinks(nodes, dots, members, allowLeadingPropertyAccess);
    }
  }
}
