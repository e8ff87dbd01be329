/**
 * The `consistent-list-newline` rule: the items of a delimited list (object
 * properties, array elements, call arguments, parameters, specifiers, type
 * members, JSX attributes, ...) are either all on the line of the opening
 * delimiter ("inline") or each on a line of its own ("newline").
 *
 * The host's token lookups are inputs: the opening token, the token after the
 * last item, the position of the token before the node that follows the list,
 * and whether a comment sits right before or after an item.
 */
module ListNewline {
  import opened Layout
  import SyntaxTree

  /** The node kinds the rule listens to; each one can be switched off by name. */
  datatype Kind =
    | ArrayExpression | ArrayPattern | ArrowFunctionExpression | CallExpression
    | ExportNamedDeclaration | FunctionDeclaration | FunctionExpression
    | ImportDeclaration | JSONArrayExpression | JSONObjectExpression
    | JSXOpeningElement | NewExpression | ObjectExpression | ObjectPattern
    | TSFunctionType | TSInterfaceDeclaration | TSTupleType | TSTypeLiteral
    | TSTypeParameterDeclaration | TSTypeParameterInstantiation

  /** Kinds whose closing boundary is checked even when the list has a single item. */
  predicate AlwaysChecksBoundary(kind: Kind) {
    kind in {ArrayExpression, FunctionDeclaration, ObjectExpression, ObjectPattern,
             TSTypeLiteral, TSTupleType, TSInterfaceDeclaration}
  }

  /**
   * One list item: the lines it starts and ends on, its offsets, and whether the
   * host finds a comment directly before it or directly after it.
   */
  datatype Item = Item(startLine: nat, endLine: nat, start: nat, end: nat,
                       commentBefore: bool, commentAfter: bool)

  /** A source position: an offset and the line it lies on. */
  datatype Pos = Pos(offset: nat, line: nat)

  datatype Mode = Inline | Newline
  datatype Message = ShouldWrap | ShouldNotWrap

  /** A diagnostic on item `target` (an index into the list without holes), with its fix. */
  datatype Report = Report(message: Message, target: nat, fix: Edit)

  /** The message every report of a list in the given mode carries. */
  function MessageOf(mode: Mode): Message {
    if mode == Newline then ShouldWrap else ShouldNotWrap
  }

  /** The children without their holes (`null` entries of a sparse array). */
  function Present(children: seq<Option<Item>>): (items: seq<Item>)
    ensures |items| <= |children|
    ensures forall it :: it in items <==> Some(it) in children
  {
    if children == [] then []
    else (if children[0].Some? then [children[0].value] else []) + Present(children[1..])
  }

  /** Items lie inside the source, in source order, without overlapping. */
  predicate WellFormed(items: seq<Item>, src: string) {
    && (forall k :: 0 <= k < |items| ==> items[k].start <= items[k].end <= |src|)
    && (forall j, k :: 0 <= j < k < |items| ==> items[j].end <= items[k].start)
  }

  /** The fixes of a list of reports, in report order. */
  function Fixes(rs: seq<Report>): (es: seq<Edit>)
    ensures |es| == |rs| && forall k :: 0 <= k < |rs| ==> es[k] == rs[k].fix
  {
    seq(|rs|, k requires 0 <= k < |rs| => rs[k].fix)
  }

  /** No edit overlaps the text of an item. */
  predicate ClearOfItems(edits: seq<Edit>, items: seq<Item>) {
    forall k, t :: 0 <= k < |edits| && 0 <= t < |items| ==>
      edits[k].end <= items[t].start || items[t].end <= edits[k].start
  }

  /** The source text between item `t - 1` and item `t`. */
  function Gap(src: string, items: seq<Item>, t: nat): string
    requires WellFormed(items, src) && 0 < t < |items|
  {
    src[items[t - 1].end..items[t].start]
  }

  predicate EndsWithSeparator(s: string) {
    |s| > 0 && (s[|s| - 1] == ',' || s[|s| - 1] == ';')
  }

  /**
   * The separator a collapse must put after `prev`: a "," for interface and
   * type-literal members whose text does not already end in "," or ";".
   */
  function Delimiter(kind: Kind, src: string, prev: Item): (d: string)
    requires prev.start <= prev.end <= |src|
    ensures d == "" || d == ","
    ensures d == "," <==> (kind == TSInterfaceDeclaration || kind == TSTypeLiteral)
                          && !EndsWithSeparator(src[prev.start..prev.end])
  {
    if kind != TSInterfaceDeclaration && kind != TSTypeLiteral then ""
    else if EndsWithSeparator(src[prev.start..prev.end]) then ""
    else ","
  }

  /** Every "\r\n" or "\n" of `s`, scanning left to right, replaced by `d`. */
  function ReplaceLineBreaks(s: string, d: string): string
    decreases |s|
  {
    if s == [] then []
    else if |s| >= 2 && s[0] == '\r' && s[1] == '\n' then d + ReplaceLineBreaks(s[2..], d)
    else if s[0] == '\n' then d + ReplaceLineBreaks(s[1..], d)
    else [s[0]] + ReplaceLineBreaks(s[1..], d)
  }

  /** Every "\r" of `s` starts a "\r\n" pair. */
  predicate CarriageReturnsPaired(s: string) {
    forall k :: 0 <= k < |s| && s[k] == '\r' ==> k + 1 < |s| && s[k + 1] == '\n'
  }

  /** After the replacement no "\n" is left, unless the delimiter brings one. */
  lemma {:induction false} ReplaceRemovesNewlines(s: string, d: string)
    requires '\n' !in d
    ensures '\n' !in ReplaceLineBreaks(s, d)
    decreases |s|
  {
    if s == [] {
    } else if |s| >= 2 && s[0] == '\r' && s[1] == '\n' {
      ReplaceRemovesNewlines(s[2..], d);
    } else {
      ReplaceRemovesNewlines(s[1..], d);
    }
  }

  /** CRLF input collapses cleanly: no stray "\r" is left behind. */
  lemma {:induction false} ReplaceCollapsesCrlf(s: string, d: string)
    requires CarriageReturnsPaired(s) && '\r' !in d
    ensures '\r' !in ReplaceLineBreaks(s, d)
    decreases |s|
  {
    if s == [] {
    } else if |s| >= 2 && s[0] == '\r' && s[1] == '\n' {
      assert CarriageReturnsPaired(s[2..]) by {
        forall k | 0 <= k < |s[2..]| && s[2..][k] == '\r'
          ensures k + 1 < |s[2..]| && s[2..][k + 1] == '\n'
        {
          assert s[k + 2] == '\r';
        }
      }
      ReplaceCollapsesCrlf(s[2..], d);
    } else {
      assert s[0] != '\r';
      assert CarriageReturnsPaired(s[1..]) by {
        forall k | 0 <= k < |s[1..]| && s[1..][k] == '\r'
          ensures k + 1 < |s[1..]| && s[1..][k + 1] == '\n'
        {
          assert s[k + 1] == '\r';
        }
      }
      ReplaceCollapsesCrlf(s[1..], d);
    }
  }

  /** Text without a "\n" is left exactly as it is. */
  lemma {:induction false} ReplaceKeepsUnbrokenText(s: string, d: string)
    requires '\n' !in s
    ensures ReplaceLineBreaks(s, d) == s
    decreases |s|
  {
    if s != [] {
      assert s[1..] == s[1..] && '\n' !in s[1..];
      ReplaceKeepsUnbrokenText(s[1..], d);
    }
  }

  /** The fix that rewrites `[start, end)` with its line breaks turned into `delimiter`. */
  function RemoveLines(src: string, start: nat, end: nat, delimiter: string): (e: Edit)
    requires start <= end <= |src|
    ensures e.start == start && e.end == end
  {
    Edit(start, end, ReplaceLineBreaks(src[start..end], delimiter))
  }

  /** The mode, decided by the first item alone. */
  function SeedMode(items: seq<Item>, openingLine: nat): Mode
    requires |items| > 0
  {
    if items[0].startLine == openingLine then Inline else Newline
  }

  /**
   * The decision for item `i >= 1` given the line the last checked item ended on:
   * the report it draws, if any, and the new last line.
   */
  function ItemStep(kind: Kind, src: string, items: seq<Item>, i: nat, mode: Mode, lastLine: nat)
    : (Option<Report>, nat)
    requires WellFormed(items, src) && 0 < i < |items|
  {
    var item := items[i];
    if mode == Newline && item.startLine == lastLine then
      (Some(Report(ShouldWrap, i, Insert(item.start, "\n"))), item.endLine)
    else if mode == Inline && item.startLine != lastLine then
      var prev := items[i - 1];
      if item.commentBefore then (None, lastLine)
      else if '\n' in Gap(src, items, i) then
        (Some(Report(ShouldNotWrap, i, RemoveLines(src, prev.end, item.start, Delimiter(kind, src, prev)))),
         item.endLine)
      else (None, item.endLine)
    else (None, item.endLine)
  }

  function ToSeq<T>(o: Option<T>): seq<T> {
    if o.Some? then [o.value] else []
  }

  /** The reports of items `i..` and the last line after them. */
  function Walk(kind: Kind, src: string, items: seq<Item>, i: nat, mode: Mode, lastLine: nat)
    : (seq<Report>, nat)
    requires WellFormed(items, src) && 0 < i <= |items|
    decreases |items| - i
  {
    if i == |items| then ([], lastLine)
    else
      var step := ItemStep(kind, src, items, i, mode, lastLine);
      var rest := Walk(kind, src, items, i + 1, mode, step.1);
      (ToSeq(step.0) + rest.0, rest.1)
  }

  /** The walk over all items after the first, which seeded the mode. */
  function ItemWalk(kind: Kind, src: string, items: seq<Item>, openingLine: nat): (seq<Report>, nat)
    requires WellFormed(items, src) && |items| > 0
  {
    Walk(kind, src, items, 1, SeedMode(items, openingLine), items[0].endLine)
  }

  /** The offset the closing boundary is checked against, with its line. */
  function BoundaryPos(tokenBeforeNext: Option<Pos>, containerEnd: Pos): (p: Pos)
    ensures p.offset <= containerEnd.offset
    ensures tokenBeforeNext.Some? ==> p.offset <= tokenBeforeNext.value.offset
    ensures p == containerEnd || (tokenBeforeNext.Some? && p == tokenBeforeNext.value)
  {
    if tokenBeforeNext.Some? && tokenBeforeNext.value.offset < containerEnd.offset
    then tokenBeforeNext.value else containerEnd
  }

  /** The report on the closing boundary, if any. */
  function BoundaryStep(kind: Kind, src: string, items: seq<Item>, mode: Mode, lastLine: nat, end: Pos)
    : Option<Report>
    requires WellFormed(items, src) && |items| > 0
    requires items[|items| - 1].end <= end.offset <= |src|
  {
    var n := |items|;
    var last := items[n - 1];
    if mode == Newline && end.line == lastLine then
      Some(Report(ShouldWrap, n - 1, Insert(last.end, "\n")))
    else if mode == Inline && end.line != lastLine then
      if n == 1 && !AlwaysChecksBoundary(kind) then None
      else if last.commentAfter then None
      else if '\n' in src[last.end..end.offset] then
        var delimiter := if n == 1 then "" else Delimiter(kind, src, last);
        Some(Report(ShouldNotWrap, n - 1, RemoveLines(src, last.end, end.offset, delimiter)))
      else None
    else None
  }

  /** What the host must guarantee about the inputs of one check. */
  predicate CheckInputs(children: seq<Option<Item>>, src: string, tokenBeforeNext: Option<Pos>, containerEnd: Pos) {
    var items := Present(children);
    && WellFormed(items, src)
    && containerEnd.offset <= |src|
    && (|items| > 0 ==> items[|items| - 1].end <= containerEnd.offset)
    && (|items| > 0 && tokenBeforeNext.Some? ==> items[|items| - 1].end <= tokenBeforeNext.value.offset)
  }

  /**
   * Everything one `check` of a list reports. `openingLine` is the start line
   * of the opening token and `afterLastLine` the end line of the token after
   * the last item, which is a trailing comma when the list has one.
   */
  function CheckSpec(kind: Kind, children: seq<Option<Item>>, src: string, openingLine: nat,
                     afterLastLine: nat, tokenBeforeNext: Option<Pos>, containerEnd: Pos): (rs: seq<Report>)
    requires CheckInputs(children, src, tokenBeforeNext, containerEnd)
    ensures Present(children) == [] ==> rs == []
    ensures openingLine == afterLastLine ==> rs == []
  {
    var items := Present(children);
    if |items| == 0 || openingLine == afterLastLine then []
    else
      var mode := SeedMode(items, openingLine);
      var walk := ItemWalk(kind, src, items, openingLine);
      walk.0 + ToSeq(BoundaryStep(kind, src, items, mode, walk.1, BoundaryPos(tokenBeforeNext, containerEnd)))
  }

  /** The indices of the items a list of reports points at. */
  function Targets(rs: seq<Report>): set<nat> {
    set k | 0 <= k < |rs| :: rs[k].target
  }

  lemma TargetsAtLeast(rs: seq<Report>, lo: nat)
    requires forall k :: 0 <= k < |rs| ==> lo <= rs[k].target
    ensures forall t :: t in Targets(rs) ==> lo <= t
  {
  }

  lemma TargetsOfStep(r: Option<Report>)
    ensures Targets(ToSeq(r)) == if r.Some? then {r.value.target} else {}
  {
    if r.Some? {
      assert ToSeq(r)[0].target == r.value.target;
    }
  }

  lemma TargetsConcat(a: seq<Report>, b: seq<Report>)
    ensures Targets(a + b) == Targets(a) + Targets(b)
  {
    forall t | t in Targets(a + b) ensures t in Targets(a) + Targets(b) {
      var k :| 0 <= k < |a + b| && (a + b)[k].target == t;
      if k >= |a| {
        assert b[k - |a|].target == t;
      }
    }
    forall t | t in Targets(a) + Targets(b) ensures t in Targets(a + b) {
      if t in Targets(a) {
        var k :| 0 <= k < |a| && a[k].target == t;
        assert (a + b)[k].target == t;
      } else {
        var k :| 0 <= k < |b| && b[k].target == t;
        assert (a + b)[|a| + k].target == t;
      }
    }
  }

  /**
   * What an item report looks like: it never points at the first item, its
   * message is fixed by the mode, and its fix lies in the gap before its item.
   * In newline mode the fix inserts "\n" before the item; in inline mode the
   * item has no comment before it, the gap holds a "\n", and the fix rewrites
   * exactly that gap.
   */
  predicate Shaped(kind: Kind, src: string, items: seq<Item>, mode: Mode, r: Report)
    requires WellFormed(items, src)
  {
    && 0 < r.target < |items|
    && r.message == MessageOf(mode)
    && items[r.target - 1].end <= r.fix.start <= r.fix.end <= items[r.target].start
    && (mode == Newline ==> r.fix == Insert(items[r.target].start, "\n"))
    && (mode == Inline ==>
          && !items[r.target].commentBefore
          && '\n' in Gap(src, items, r.target)
          && r.fix == RemoveLines(src, items[r.target - 1].end, items[r.target].start,
                                  Delimiter(kind, src, items[r.target - 1])))
  }

  /** Every report is shaped and points at an item at or after `lo`. */
  predicate AllShaped(kind: Kind, src: string, items: seq<Item>, mode: Mode, rs: seq<Report>, lo: nat)
    requires WellFormed(items, src)
  {
    forall k :: 0 <= k < |rs| ==> lo <= rs[k].target && Shaped(kind, src, items, mode, rs[k])
  }

  /** The reports follow the item order, at most one per item. */
  predicate Increasing(rs: seq<Report>) {
    forall j, k :: 0 <= j < k < |rs| ==> rs[j].target < rs[k].target
  }

  /** An item step's report points at its item and is shaped. */
  lemma StepShape(kind: Kind, src: string, items: seq<Item>, i: nat, mode: Mode, lastLine: nat)
    requires WellFormed(items, src) && 0 < i < |items|
    ensures var r := ItemStep(kind, src, items, i, mode, lastLine).0;
      r.Some? ==> r.value.target == i && Shaped(kind, src, items, mode, r.value)
  {
  }

  /** A report on item `i` in front of reports on later items keeps the order. */
  lemma ConsIncreasing(r: Option<Report>, rest: seq<Report>, i: nat)
    requires r.Some? ==> r.value.target == i
    requires forall k :: 0 <= k < |rest| ==> i < rest[k].target
    requires Increasing(rest)
    ensures Increasing(ToSeq(r) + rest)
  {
    var rs, o := ToSeq(r) + rest, |ToSeq(r)|;
    forall j, k | 0 <= j < k < |rs| ensures rs[j].target < rs[k].target {
      assert rs[k] == rest[k - o];
      if j >= o {
        assert rs[j] == rest[j - o];
      }
    }
  }

  lemma ConsAllShaped(kind: Kind, src: string, items: seq<Item>, mode: Mode, r: Option<Report>, rest: seq<Report>, i: nat)
    requires WellFormed(items, src)
    requires r.Some? ==> r.value.target == i && Shaped(kind, src, items, mode, r.value)
    requires AllShaped(kind, src, items, mode, rest, i + 1)
    ensures AllShaped(kind, src, items, mode, ToSeq(r) + rest, i)
  {
    AllShapedLower(kind, src, items, mode, rest, i);
    if r.None? {
      assert ToSeq(r) + rest == rest;
    } else {
      AllShapedCons(kind, src, items, mode, r.value, rest, i);
    }
  }

  /** A lower bound on the targets can always be lowered. */
  lemma AllShapedLower(kind: Kind, src: string, items: seq<Item>, mode: Mode, rs: seq<Report>, lo: nat)
    requires WellFormed(items, src)
    requires AllShaped(kind, src, items, mode, rs, lo + 1)
    ensures AllShaped(kind, src, items, mode, rs, lo)
  {
  }

  /** A shaped report in front of shaped reports. */
  lemma AllShapedCons(kind: Kind, src: string, items: seq<Item>, mode: Mode, r: Report, rest: seq<Report>, lo: nat)
    requires WellFormed(items, src)
    requires lo <= r.target && Shaped(kind, src, items, mode, r)
    requires AllShaped(kind, src, items, mode, rest, lo)
    ensures AllShaped(kind, src, items, mode, [r] + rest, lo)
  {
    var rs := [r] + rest;
    forall k | 0 < k < |rs| ensures rs[k] == rest[k - 1] {
    }
  }

  /** Every report of the walk is shaped, and the reports follow the item order. */
  lemma {:induction false} WalkShape(kind: Kind, src: string, items: seq<Item>, i: nat, mode: Mode, lastLine: nat)
    requires WellFormed(items, src) && 0 < i <= |items|
    ensures AllShaped(kind, src, items, mode, Walk(kind, src, items, i, mode, lastLine).0, i)
    ensures Increasing(Walk(kind, src, items, i, mode, lastLine).0)
    decreases |items| - i
  {
    if i < |items| {
      var step := ItemStep(kind, src, items, i, mode, lastLine);
      WalkShape(kind, src, items, i + 1, mode, step.1);
      StepShape(kind, src, items, i, mode, lastLine);
      var rest := Walk(kind, src, items, i + 1, mode, step.1).0;
      assert Walk(kind, src, items, i, mode, lastLine).0 == ToSeq(step.0) + rest;
      ConsAllShaped(kind, src, items, mode, step.0, rest, i);
      ConsIncreasing(step.0, rest, i);
    }
  }

  /**
   * In newline mode every item after the first is reported exactly when it
   * starts on the line where the item before it ended; the last line is then
   * the last item's end line.
   */
  lemma {:induction false} NewlineWalk(kind: Kind, src: string, items: seq<Item>, i: nat, lastLine: nat)
    requires WellFormed(items, src) && 0 < i < |items|
    ensures Walk(kind, src, items, i, Newline, lastLine).1 == items[|items| - 1].endLine
    ensures forall t :: i <= t < |items| ==>
              ((t in Targets(Walk(kind, src, items, i, Newline, lastLine).0))
               <==> items[t].startLine == (if t == i then lastLine else items[t - 1].endLine))
    decreases |items| - i
  {
    var step := ItemStep(kind, src, items, i, Newline, lastLine);
    var rest := Walk(kind, src, items, i + 1, Newline, step.1);
    assert step.1 == items[i].endLine;
    TargetsConcat(ToSeq(step.0), rest.0);
    WalkShape(kind, src, items, i + 1, Newline, step.1);
    TargetsAtLeast(rest.0, i + 1);
    TargetsOfStep(step.0);
    if i + 1 < |items| {
      NewlineWalk(kind, src, items, i + 1, step.1);
    }
    var whole := Walk(kind, src, items, i, Newline, lastLine);
    assert whole.0 == ToSeq(step.0) + rest.0;
  }

  /**
   * In inline mode an item that starts on a line other than the last line and
   * has a comment before it is skipped: no report, and the last line stays.
   */
  lemma CommentedItemSkipped(kind: Kind, src: string, items: seq<Item>, i: nat, lastLine: nat)
    requires WellFormed(items, src) && 0 < i < |items|
    requires items[i].commentBefore && items[i].startLine != lastLine
    ensures ItemStep(kind, src, items, i, Inline, lastLine) == (None, lastLine)
  {
  }

  /** The last line after an inline-mode item: kept when the item is skipped, its end line otherwise. */
  function InlineNextLine(item: Item, lastLine: nat): nat {
    if item.commentBefore && item.startLine != lastLine then lastLine else item.endLine
  }

  /**
   * The line item `t` is compared with in inline mode when item `i` is compared
   * with `lastLine`: the end line of the nearest item before `t` that was not
   * skipped, or `lastLine` when every item from `i` on was skipped.
   */
  function InlineLine(items: seq<Item>, i: nat, lastLine: nat, t: nat): nat
    requires i <= t <= |items|
    decreases t - i
  {
    if t == i then lastLine else InlineLine(items, i + 1, InlineNextLine(items[i], lastLine), t)
  }

  /**
   * In inline mode every item after the first is reported exactly when it
   * starts on another line than the one it is compared with, has no comment
   * before it, and the gap before it holds a "\n"; the last line is then the
   * line after the last item.
   */
  lemma {:induction false} InlineWalk(kind: Kind, src: string, items: seq<Item>, i: nat, lastLine: nat)
    requires WellFormed(items, src) && 0 < i < |items|
    ensures Walk(kind, src, items, i, Inline, lastLine).1 == InlineLine(items, i, lastLine, |items|)
    ensures forall t :: i <= t < |items| ==>
              ((t in Targets(Walk(kind, src, items, i, Inline, lastLine).0))
               <==> items[t].startLine != InlineLine(items, i, lastLine, t)
                    && !items[t].commentBefore
                    && '\n' in Gap(src, items, t))
    decreases |items| - i
  {
    var step := ItemStep(kind, src, items, i, Inline, lastLine);
    var rest := Walk(kind, src, items, i + 1, Inline, step.1);
    assert step.1 == InlineNextLine(items[i], lastLine);
    TargetsConcat(ToSeq(step.0), rest.0);
    WalkShape(kind, src, items, i + 1, Inline, step.1);
    TargetsAtLeast(rest.0, i + 1);
    TargetsOfStep(step.0);
    if i + 1 < |items| {
      InlineWalk(kind, src, items, i + 1, step.1);
    }
    var whole := Walk(kind, src, items, i, Inline, lastLine);
    assert whole.0 == ToSeq(step.0) + rest.0;
  }

  /**
   * When the closing boundary is reported: in newline mode exactly when the
   * boundary is on the last line; in inline mode exactly when it is on another
   * line, the list has several items or is of an always-checked kind, no
   * comment follows the last item, and the text up to the boundary holds a
   * "\n". What a boundary report looks like: it points at the last item, carries the
   * mode's message and starts right after the last item. In newline mode it
   * inserts "\n"; in inline mode no comment follows the last item, the list has
   * several items or is of an always-checked kind, the text up to the boundary
   * holds a "\n", and a single item never gets a delimiter.
   */
  lemma BoundaryShape(kind: Kind, src: string, items: seq<Item>, mode: Mode, lastLine: nat, end: Pos)
    requires WellFormed(items, src) && |items| > 0
    requires items[|items| - 1].end <= end.offset <= |src|
    ensures BoundaryStep(kind, src, items, mode, lastLine, end).Some? <==>
              || (mode == Newline && end.line == lastLine)
              || (&& mode == Inline && end.line != lastLine
                  && (|items| > 1 || AlwaysChecksBoundary(kind))
                  && !items[|items| - 1].commentAfter
                  && '\n' in src[items[|items| - 1].end..end.offset])
    ensures var b := BoundaryStep(kind, src, items, mode, lastLine, end);
      b.Some? ==>
        && b.value.target == |items| - 1
        && b.value.message == MessageOf(mode)
        && b.value.fix.start == items[|items| - 1].end
        && b.value.fix.start <= b.value.fix.end <= end.offset
        && (mode == Newline ==> b.value.fix == Insert(items[|items| - 1].end, "\n") && end.line == lastLine)
        && (mode == Inline ==>
              && end.line != lastLine
              && !items[|items| - 1].commentAfter
              && (|items| > 1 || AlwaysChecksBoundary(kind))
              && b.value.fix.end == end.offset
              && '\n' in src[items[|items| - 1].end..end.offset]
              && (|items| == 1 ==> b.value.fix.text == ReplaceLineBreaks(src[items[0].end..end.offset], "")))
  {
  }

  /** The mode is decided once: every report of a check carries the message of the first item's mode. */
  lemma CheckFollowsSeedMode(kind: Kind, children: seq<Option<Item>>, src: string, openingLine: nat,
                             afterLastLine: nat, tokenBeforeNext: Option<Pos>, containerEnd: Pos)
    requires CheckInputs(children, src, tokenBeforeNext, containerEnd)
    ensures forall r :: r in CheckSpec(kind, children, src, openingLine, afterLastLine, tokenBeforeNext, containerEnd) ==>
              |Present(children)| > 0 && r.message == MessageOf(SeedMode(Present(children), openingLine))
  {
    var items := Present(children);
    var rs := CheckSpec(kind, children, src, openingLine, afterLastLine, tokenBeforeNext, containerEnd);
    if |items| > 0 && openingLine != afterLastLine {
      var mode := SeedMode(items, openingLine);
      var walk := Walk(kind, src, items, 1, mode, items[0].endLine);
      WalkShape(kind, src, items, 1, mode, items[0].endLine);
      var end := BoundaryPos(tokenBeforeNext, containerEnd);
      var b := BoundaryStep(kind, src, items, mode, walk.1, end);
      BoundaryShape(kind, src, items, mode, walk.1, end);
      assert rs == walk.0 + ToSeq(b);
      forall r | r in rs ensures r.message == MessageOf(mode) {
        var k :| 0 <= k < |rs| && rs[k] == r;
        if k < |walk.0| {
          assert Shaped(kind, src, items, mode, walk.0[k]);
        }
      }
    }
  }

  /**
   * Edits that each lie in the gap before a distinct item, in item order,
   * followed by at most one edit after the last item, are ordered and clear of
   * every item.
   */
  lemma GapEditsDisjoint(items: seq<Item>, src: string, es: seq<Edit>, ts: seq<nat>)
    requires WellFormed(items, src) && |items| > 0
    requires |ts| <= |es| <= |ts| + 1
    requires forall k :: 0 <= k < |ts| ==>
               0 < ts[k] < |items| && items[ts[k] - 1].end <= es[k].start <= es[k].end <= items[ts[k]].start
    requires forall j, k :: 0 <= j < k < |ts| ==> ts[j] < ts[k]
    requires |es| > |ts| ==> items[|items| - 1].end <= es[|ts|].start <= es[|ts|].end
    ensures Ordered(es) && ClearOfItems(es, items)
  {
    var n, m := |items|, |ts|;
    forall j, k | 0 <= j < k < |es| ensures es[j].end <= es[k].start {
      if k < m {
        assert items[ts[j]].start <= items[ts[k] - 1].end;
      } else {
        assert items[ts[j]].start <= items[n - 1].end;
      }
    }
    forall k, t | 0 <= k < |es| && 0 <= t < n
      ensures es[k].end <= items[t].start || items[t].end <= es[k].start
    {
      if k < m {
        if t < ts[k] {
          assert items[t].end <= items[ts[k] - 1].end;
        } else {
          assert items[ts[k]].start <= items[t].start;
        }
      } else {
        assert items[t].end <= items[n - 1].end;
      }
    }
  }

  /**
   * The fixes of one check never touch an item's text, lie in source order and
   * are pairwise disjoint, so the host can apply them together.
   */
  lemma CheckEditsDisjoint(kind: Kind, children: seq<Option<Item>>, src: string, openingLine: nat,
                           afterLastLine: nat, tokenBeforeNext: Option<Pos>, containerEnd: Pos)
    requires CheckInputs(children, src, tokenBeforeNext, containerEnd)
    ensures var rs := CheckSpec(kind, children, src, openingLine, afterLastLine, tokenBeforeNext, containerEnd);
      AllFit(src, Fixes(rs)) && Ordered(Fixes(rs)) && ClearOfItems(Fixes(rs), Present(children))
  {
    var items := Present(children);
    var rs := CheckSpec(kind, children, src, openingLine, afterLastLine, tokenBeforeNext, containerEnd);
    if |items| > 0 && openingLine != afterLastLine {
      var mode := SeedMode(items, openingLine);
      var walk := Walk(kind, src, items, 1, mode, items[0].endLine);
      WalkShape(kind, src, items, 1, mode, items[0].endLine);
      var end := BoundaryPos(tokenBeforeNext, containerEnd);
      var b := BoundaryStep(kind, src, items, mode, walk.1, end);
      BoundaryShape(kind, src, items, mode, walk.1, end);
      assert rs == walk.0 + ToSeq(b);
      ShapedEditsDisjoint(kind, src, items, mode, walk.0, b);
    } else {
      assert rs == [];
    }
  }

  /** The fixes of shaped, increasing reports and one boundary report after the last item. */
  lemma ShapedEditsDisjoint(kind: Kind, src: string, items: seq<Item>, mode: Mode, walk: seq<Report>, b: Option<Report>)
    requires WellFormed(items, src) && |items| > 0
    requires AllShaped(kind, src, items, mode, walk, 1) && Increasing(walk)
    requires b.Some? ==> items[|items| - 1].end <= b.value.fix.start <= b.value.fix.end <= |src|
    ensures var fixes := Fixes(walk + ToSeq(b));
      AllFit(src, fixes) && Ordered(fixes) && ClearOfItems(fixes, items)
  {
    var rs := walk + ToSeq(b);
    var fixes := Fixes(rs);
    var ts := seq(|walk|, k requires 0 <= k < |walk| => walk[k].target);
    forall k | 0 <= k < |ts|
      ensures 0 < ts[k] < |items|
      ensures items[ts[k] - 1].end <= fixes[k].start <= fixes[k].end <= items[ts[k]].start
    {
      assert rs[k] == walk[k];
      assert Shaped(kind, src, items, mode, walk[k]);
    }
    if b.Some? {
      assert rs[|walk|] == b.value;
    }
    GapEditsDisjoint(items, src, fixes, ts);
    forall k | 0 <= k < |fixes| ensures Fits(src, fixes[k]) {
      if k < |ts| {
        assert fixes[k].end <= items[ts[k]].start;
      }
    }
  }

  /**
   * The body of `check`'s loop for an item after the first: reports it if it
   * breaks the mode, and returns the line the next item is compared with.
   */
  method VisitItem(kind: Kind, src: string, items: seq<Item>, idx: nat, mode: Mode, lastLine: nat)
    returns (report: Option<Report>, nextLine: nat)
    requires WellFormed(items, src) && 0 < idx < |items|
    ensures (report, nextLine) == ItemStep(kind, src, items, idx, mode, lastLine)
  {
    var item := items[idx];
    var currentStart := item.startLine;
    report := None;
    if mode == Newline && currentStart == lastLine {
      report := Some(Report(ShouldWrap, idx, Insert(item.start, "\n")));
    } else if mode == Inline && currentStart != lastLine {
      var lastItem := items[idx - 1];
      if item.commentBefore {
        return None, lastLine;
      }
      var content := src[lastItem.end..item.start];
      if '\n' in content {
        var fix := RemoveLines(src, lastItem.end, item.start, Delimiter(kind, src, lastItem));
        report := Some(Report(ShouldNotWrap, idx, fix));
      }
    }
    nextLine := item.endLine;
  }

  /** The closing-boundary part of `check`. */
  method CheckBoundary(kind: Kind, src: string, items: seq<Item>, mode: Mode, lastLine: nat, endPos: Pos)
    returns (report: Option<Report>)
    requires WellFormed(items, src) && |items| > 0
    requires items[|items| - 1].end <= endPos.offset <= |src|
    ensures report == BoundaryStep(kind, src, items, mode, lastLine, endPos)
  {
    var lastItem := items[|items| - 1];
    report := None;
    if mode == Newline && endPos.line == lastLine {
      report := Some(Report(ShouldWrap, |items| - 1, Insert(lastItem.end, "\n")));
    } else if mode == Inline && endPos.line != lastLine {
      // A single item may leave the closing bracket on another line.
      if |items| == 1 && !AlwaysChecksBoundary(kind) {
        return;
      }
      if lastItem.commentAfter {
        return;
      }
      var content := src[lastItem.end..endPos.offset];
      if '\n' in content {
        var delimiter := if |items| == 1 then "" else Delimiter(kind, src, lastItem);
        report := Some(Report(ShouldNotWrap, |items| - 1, RemoveLines(src, lastItem.end, endPos.offset, delimiter)));
      }
    }
  }

  /**
   * The tokens `check` may take as the opening delimiter: the node's first
   * token; for a call, the token after its type arguments (when it has them),
   * the token after its callee's property (when the callee is a member access)
   * and the token after its callee; and the token before the first item.
   */
  datatype OpeningCandidates = OpeningCandidates(
    first: Token,
    afterTypeArguments: Option<Token>,
    afterCalleeProperty: Option<Token>,
    afterCallee: Token,
    beforeFirstItem: Token)

  /**
   * The candidate of a call: the token after its type arguments, else after the
   * property of a member callee (for `a[b](` that is the `]`), else after the
   * callee.
   */
  function CallCandidate(c: OpeningCandidates): (t: Token)
    ensures c.afterTypeArguments.Some? ==> t == c.afterTypeArguments.value
    ensures c.afterTypeArguments.None? && c.afterCalleeProperty.Some? ==> t == c.afterCalleeProperty.value
    ensures c.afterTypeArguments.None? && c.afterCalleeProperty.None? ==> t == c.afterCallee
  {
    if c.afterTypeArguments.Some? then c.afterTypeArguments.value
    else if c.afterCalleeProperty.Some? then c.afterCalleeProperty.value
    else c.afterCallee
  }

  /**
   * The opening delimiter: the node's first token, or for a call its
   * candidate; when that is not a punctuator, and always for `new`, the token
   * before the first item.
   */
  function OpeningToken(kind: Kind, c: OpeningCandidates): (t: Token)
    ensures t.kind == Punctuator || t == c.beforeFirstItem
    ensures kind == NewExpression ==> t == c.beforeFirstItem
    ensures kind == CallExpression ==>
              t == (if CallCandidate(c).kind == Punctuator then CallCandidate(c) else c.beforeFirstItem)
    ensures kind != CallExpression && kind != NewExpression ==>
              t == (if c.first.kind == Punctuator then c.first else c.beforeFirstItem)
  {
    var candidate :=
      if kind == CallExpression then Some(CallCandidate(c))
      else if kind == NewExpression then None
      else Some(c.first);
    if candidate.Some? && candidate.value.kind == Punctuator then candidate.value else c.beforeFirstItem
  }

  /** The opening-token part of `check`: the first token, replaced for a call, and the fallback. */
  method PickOpening(kind: Kind, candidates: OpeningCandidates) returns (opening: Token)
    ensures opening == OpeningToken(kind, candidates)
  {
    var startToken: Option<Token> := if kind == CallExpression || kind == NewExpression then None else Some(candidates.first);
    if kind == CallExpression {
      if candidates.afterTypeArguments.Some? {
        startToken := candidates.afterTypeArguments;
      } else if candidates.afterCalleeProperty.Some? {
        startToken := candidates.afterCalleeProperty;
      } else {
        startToken := Some(candidates.afterCallee);
      }
    }
    if startToken.None? || startToken.value.kind != Punctuator {
      startToken := Some(candidates.beforeFirstItem);
    }
    opening := startToken.value;
  }

  /**
   * `check`: picks the opening token, returns early when it shares a line with
   * the token after the last item, seeds the mode from the first item, walks
   * the others updating the last line, then checks the closing boundary.
   */
  method Check(kind: Kind, children: seq<Option<Item>>, src: string, candidates: OpeningCandidates,
               afterLast: Token, tokenBeforeNext: Option<Pos>, containerEnd: Pos) returns (reports: seq<Report>)
    requires CheckInputs(children, src, tokenBeforeNext, containerEnd)
    ensures reports == CheckSpec(kind, children, src, OpeningToken(kind, candidates).startLine, afterLast.endLine,
                                 tokenBeforeNext, containerEnd)
  {
    var items := Present(children);
    if |items| == 0 {
      return [];
    }

    var opening := PickOpening(kind, candidates);
    if opening.startLine == afterLast.endLine {
      return [];
    }

    var mode: Option<Mode> := None;
    var lastLine := opening.startLine;
    reports := [];
    var idx := 0;
    while idx < |items|
      invariant 0 <= idx <= |items|
      invariant idx == 0 ==> mode == None && reports == [] && lastLine == opening.startLine
      invariant idx > 0 ==> mode == Some(SeedMode(items, opening.startLine))
      invariant idx > 0 ==>
        var rest := Walk(kind, src, items, idx, mode.value, lastLine);
        ItemWalk(kind, src, items, opening.startLine) == (reports + rest.0, rest.1)
    {
      var item := items[idx];
      if mode == None {
        mode := Some(if item.startLine == lastLine then Inline else Newline);
        lastLine := item.endLine;
        ghost var rest := Walk(kind, src, items, 1, mode.value, lastLine);
        assert reports + rest.0 == rest.0;
      } else {
        ghost var before, lastBefore := reports, lastLine;
        var report;
        report, lastLine := VisitItem(kind, src, items, idx, mode.value, lastLine);
        reports := reports + ToSeq(report);
        ghost var rest := Walk(kind, src, items, idx + 1, mode.value, lastLine);
        assert Walk(kind, src, items, idx, mode.value, lastBefore) == (ToSeq(report) + rest.0, rest.1);
        ConcatAssoc(before, ToSeq(report), rest.0);
      }
      idx := idx + 1;
    }

    var boundary := CheckBoundary(kind, src, items, mode.value, lastLine, BoundaryPos(tokenBeforeNext, containerEnd));
    reports := reports + ToSeq(boundary);
  }

  /**
   * A node the rule listens to, reduced to what its listener reads: its kind,
   * its range, its list (with holes), whether an import's first specifier is a
   * default import, and the position of the token before its return type, its
   * body and its type annotation, when it has them.
   */
  datatype Container = Container(
    kind: Kind,
    range: Span,
    children: seq<Option<Item>>,
    leadingDefaultSpecifier: bool,
    returnType: Option<Pos>,
    body: Option<Pos>,
    typeAnnotation: Option<Pos>)

  /** What a listener hands to `check`: the list and the position of the token before the node after it. */
  datatype CheckArgs = CheckArgs(children: seq<Option<Item>>, tokenBeforeNext: Option<Pos>)

  /** Some comment of the program lies strictly inside `range`. */
  predicate HasComments(range: Span, comments: seq<Span>) {
    exists k :: 0 <= k < |comments| && range.start < comments[k].start && comments[k].end < range.end
  }

  /**
   * The comment guard of the JSON listeners: climbs from the node to its
   * `Program` and looks for a comment strictly inside the node's range.
   */
  method NodeHasComments(nodes: seq<SyntaxTree.Node>, node: nat, range: Span) returns (found: bool)
    requires SyntaxTree.Valid(nodes) && node < |nodes|
    ensures found == HasComments(range, nodes[SyntaxTree.ProgramOf(nodes, node)].comments)
  {
    var program: nat := node;
    while nodes[program].kind != SyntaxTree.Program
      invariant program < |nodes|
      invariant SyntaxTree.ProgramOf(nodes, program) == SyntaxTree.ProgramOf(nodes, node)
      decreases program
    {
      program := nodes[program].parent.value;
    }
    found := HasComments(range, nodes[program].comments);
  }

  /** Some JSX attribute spans more than one line. */
  predicate MultilineAttribute(children: seq<Option<Item>>) {
    exists k :: 0 <= k < |children| && children[k].Some? && children[k].value.startLine != children[k].value.endLine
  }

  /** The guards under which a listener returns without checking. */
  predicate Skipped(c: Container, comments: seq<Span>) {
    || (c.kind == ArrowFunctionExpression && |c.children| <= 1)
    || (c.kind == JSXOpeningElement && MultilineAttribute(c.children))
    || ((c.kind == JSONArrayExpression || c.kind == JSONObjectExpression) && HasComments(c.range, comments))
  }

  predicate IsFunctionKind(kind: Kind) {
    kind == FunctionDeclaration || kind == FunctionExpression || kind == ArrowFunctionExpression
  }

  /**
   * The listener table: whether the node is checked, and with which list and
   * which following node. A node is checked exactly when its kind's listener is
   * enabled and no guard applies; a leading default import is left out of the
   * list; functions are bounded by their return type, else their body, and
   * object patterns by their type annotation.
   */
  function Listen(c: Container, enabled: set<Kind>, comments: seq<Span>): (a: Option<CheckArgs>)
    ensures a.Some? <==> c.kind in enabled && !Skipped(c, comments)
    ensures a.Some? && c.kind == ImportDeclaration ==>
              a.value.children == if c.leadingDefaultSpecifier && |c.children| > 0 then c.children[1..] else c.children
    ensures a.Some? && c.kind != ImportDeclaration ==> a.value.children == c.children
    ensures a.Some? && IsFunctionKind(c.kind) ==>
              a.value.tokenBeforeNext == if c.returnType.Some? then c.returnType else c.body
    ensures a.Some? && c.kind == ObjectPattern ==> a.value.tokenBeforeNext == c.typeAnnotation
    ensures a.Some? && !IsFunctionKind(c.kind) && c.kind != ObjectPattern ==> a.value.tokenBeforeNext == None
  {
    if c.kind !in enabled then None
    else
      match c.kind
      case ObjectExpression => Some(CheckArgs(c.children, None))
      case ArrayExpression => Some(CheckArgs(c.children, None))
      case ImportDeclaration =>
        Some(CheckArgs(if c.leadingDefaultSpecifier && |c.children| > 0 then c.children[1..] else c.children, None))
      case ExportNamedDeclaration => Some(CheckArgs(c.children, None))
      case FunctionDeclaration => Some(CheckArgs(c.children, if c.returnType.Some? then c.returnType else c.body))
      case FunctionExpression => Some(CheckArgs(c.children, if c.returnType.Some? then c.returnType else c.body))
      case ArrowFunctionExpression =>
        if |c.children| <= 1 then None
        else Some(CheckArgs(c.children, if c.returnType.Some? then c.returnType else c.body))
      case CallExpression => Some(CheckArgs(c.children, None))
      case TSInterfaceDeclaration => Some(CheckArgs(c.children, None))
      case TSTypeLiteral => Some(CheckArgs(c.children, None))
      case TSTupleType => Some(CheckArgs(c.children, None))
      case TSFunctionType => Some(CheckArgs(c.children, None))
      case NewExpression => Some(CheckArgs(c.children, None))
      case TSTypeParameterDeclaration => Some(CheckArgs(c.children, None))
      case TSTypeParameterInstantiation => Some(CheckArgs(c.children, None))
      case ObjectPattern => Some(CheckArgs(c.children, c.typeAnnotation))
      case ArrayPattern => Some(CheckArgs(c.children, None))
      case JSXOpeningElement =>
        if MultilineAttribute(c.children) then None else Some(CheckArgs(c.children, None))
      case JSONArrayExpression =>
        if HasComments(c.range, comments) then None else Some(CheckArgs(c.children, None))
      case JSONObjectExpression =>
        if HasComments(c.range, comments) then None else Some(CheckArgs(c.children, None))
  }

  const AllKinds: set<Kind> :=
    {ArrayExpression, ArrayPattern, ArrowFunctionExpression, CallExpression,
     ExportNamedDeclaration, FunctionDeclaration, FunctionExpression,
     ImportDeclaration, JSONArrayExpression, JSONObjectExpression,
     JSXOpeningElement, NewExpression, ObjectExpression, ObjectPattern,
     TSFunctionType, TSInterfaceDeclaration, TSTupleType, TSTypeLiteral,
     TSTypeParameterDeclaration, TSTypeParameterInstantiation}

  lemma KindListed(kind: Kind)
    ensures kind in AllKinds
  {
    match kind {
      case ArrayExpression => case ArrayPattern => case ArrowFunctionExpression =>
      case CallExpression => case ExportNamedDeclaration => case FunctionDeclaration =>
      case FunctionExpression => case ImportDeclaration => case JSONArrayExpression =>
      case JSONObjectExpression => case JSXOpeningElement => case NewExpression =>
      case ObjectExpression => case ObjectPattern => case TSFunctionType =>
      case TSInterfaceDeclaration => case TSTupleType => case TSTypeLiteral =>
      case TSTypeParameterDeclaration => case TSTypeParameterInstantiation =>
    }
  }

  /** The kinds an options object sets to `false`. */
  function Disabled(options: seq<(Kind, bool)>): set<Kind> {
    set k | 0 <= k < |options| && !options[k].1 :: options[k].0
  }

  lemma DisabledStep(options: seq<(Kind, bool)>, i: nat)
    requires i < |options|
    ensures Disabled(options[..i + 1]) == Disabled(options[..i]) + (if options[i].1 then {} else {options[i].0})
  {
    var pre, next := options[..i], options[..i + 1];
    assert next == pre + [options[i]];
    forall key | key in Disabled(next)
      ensures key in Disabled(pre) + (if options[i].1 then {} else {options[i].0})
    {
      var k :| 0 <= k < |next| && !next[k].1 && next[k].0 == key;
      if k < i {
        assert pre[k] == next[k];
      }
    }
    forall key | key in Disabled(pre) ensures key in Disabled(next) {
      var k :| 0 <= k < |pre| && !pre[k].1 && pre[k].0 == key;
      assert next[k] == pre[k];
    }
    if !options[i].1 {
      assert next[i] == options[i];
    }
  }

  /**
   * The listener table after the options loop: every kind starts enabled and a
   * kind is removed when the options set it to `false`.
   */
  method EnabledListeners(options: seq<(Kind, bool)>) returns (listeners: set<Kind>)
    ensures listeners == AllKinds - Disabled(options)
    ensures forall kind: Kind :: kind in listeners <==> (kind, false) !in options
  {
    listeners := AllKinds;
    var i := 0;
    while i < |options|
      invariant 0 <= i <= |options|
      invariant listeners == AllKinds - Disabled(options[..i])
    {
      var (key, value) := options[i];
      if value == false {
        listeners := listeners - {key};
      }
      DisabledStep(options, i);
      i := i + 1;
    }
    assert options[..|options|] == options;
    forall kind: Kind ensures kind in listeners <==> (kind, false) !in options {
      KindListed(kind);
      if (kind, false) in options {
        var k :| 0 <= k < |options| && options[k] == (kind, false);
        assert kind in Disabled(options);
      }
    }
  }
}
