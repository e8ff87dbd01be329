/**
 * The older list rule (`consistent-object-newline`): the same inline/newline
 * walk over object properties, array elements and import/export specifiers,
 * with no comment exemptions, no delimiters, a boundary taken from the
 * container's own end line, and a fix that deletes "\n" characters only.
 */
module ObjectNewline {
  import opened Layout
  import opened ListNewline

  /** `s` with every "\n" deleted; every other character, "\r" included, is kept. */
  function StripNewlines(s: string): (r: string)
    ensures '\n' !in r
    ensures |r| <= |s|
    decreases |s|
  {
    if s == [] then []
    else (if s[0] == '\n' then [] else [s[0]]) + StripNewlines(s[1..])
  }

  /** Text without "\n" is left alone. */
  lemma {:induction false} StripKeepsCleanText(s: string)
    requires '\n' !in s
    ensures StripNewlines(s) == s
    decreases |s|
  {
    if s != [] {
      assert '\n' !in s[1..];
      StripKeepsCleanText(s[1..]);
    }
  }

  /** Stripping twice is stripping once. */
  lemma StripIdempotent(s: string)
    ensures StripNewlines(StripNewlines(s)) == StripNewlines(s)
  {
    StripKeepsCleanText(StripNewlines(s));
  }

  /** Exactly the "\n" characters go: the result is `s` minus its line feeds, as a multiset. */
  lemma {:induction false} StripCounts(s: string)
    ensures multiset(StripNewlines(s)) == multiset(s)[ '\n' := 0 ]
    decreases |s|
  {
    if s != [] {
      StripCounts(s[1..]);
      assert s == [s[0]] + s[1..];
      assert multiset(s) == multiset([s[0]]) + multiset(s[1..]);
    }
  }

  /** The fix of `removeLines`: the range `[start, end)` with its "\n" characters deleted. */
  function RemoveNewlines(src: string, start: nat, end: nat): (e: Edit)
    requires start <= end <= |src|
    ensures e.start == start && e.end == end
    ensures '\n' !in e.text
  {
    Edit(start, end, StripNewlines(src[start..end]))
  }

  /** An item on a line that breaks the mode. */
  predicate Breaks(mode: Mode, startLine: nat, lastLine: nat) {
    (mode == Newline && startLine == lastLine) || (mode == Inline && startLine != lastLine)
  }

  /** The report drawn by item `i >= 1` against the line the previous item ended on. */
  function ItemReport(src: string, items: seq<Item>, i: nat, mode: Mode, lastLine: nat): Option<Report>
    requires WellFormed(items, src) && 0 < i < |items|
  {
    var item := items[i];
    if mode == Newline && item.startLine == lastLine then
      Some(Report(ShouldWrap, i, Insert(item.start, "\n")))
    else if mode == Inline && item.startLine != lastLine then
      Some(Report(ShouldNotWrap, i, RemoveNewlines(src, items[i - 1].end, item.start)))
    else None
  }

  /** The reports of items `i..`; the last line is always the previous item's end line. */
  function Walk(src: string, items: seq<Item>, i: nat, mode: Mode, lastLine: nat): seq<Report>
    requires WellFormed(items, src) && 0 < i <= |items|
    decreases |items| - i
  {
    if i == |items| then []
    else ToSeq(ItemReport(src, items, i, mode, lastLine)) + Walk(src, items, i + 1, mode, items[i].endLine)
  }

  /** The report on the container's closing line, if any. */
  function BoundaryReport(src: string, items: seq<Item>, mode: Mode, endLine: nat, nodeEnd: nat): Option<Report>
    requires WellFormed(items, src) && |items| > 0
    requires items[|items| - 1].end < nodeEnd <= |src|
  {
    var last := items[|items| - 1];
    if mode == Newline && endLine == last.endLine then
      Some(Report(ShouldWrap, |items| - 1, Insert(last.end, "\n")))
    else if mode == Inline && endLine != last.endLine then
      Some(Report(ShouldNotWrap, |items| - 1, RemoveNewlines(src, last.end, nodeEnd - 1)))
    else None
  }

  /** What the host guarantees about one check: ordered items inside the container. */
  predicate Inputs(src: string, items: seq<Item>, nodeEnd: nat) {
    && WellFormed(items, src)
    && nodeEnd <= |src|
    && (|items| > 0 ==> items[|items| - 1].end < nodeEnd)
  }

  /** Everything one `check` reports, for a container spanning lines `startLine..endLine`. */
  function CheckSpec(src: string, items: seq<Item>, startLine: nat, endLine: nat, nodeEnd: nat): (rs: seq<Report>)
    requires Inputs(src, items, nodeEnd)
    ensures items == [] ==> rs == []
  {
    if items == [] then []
    else
      var mode := SeedMode(items, startLine);
      Walk(src, items, 1, mode, items[0].endLine) + ToSeq(BoundaryReport(src, items, mode, endLine, nodeEnd))
  }

  /**
   * An item report: it points past the first item, carries the mode's message,
   * and either inserts "\n" before its item (newline mode) or deletes the line
   * feeds of the gap before it (inline mode).
   */
  predicate Shaped(src: string, items: seq<Item>, mode: Mode, r: Report)
    requires WellFormed(items, src)
  {
    && 0 < r.target < |items|
    && r.message == MessageOf(mode)
    && (mode == Newline ==> r.fix == Insert(items[r.target].start, "\n"))
    && (mode == Inline ==> r.fix == RemoveNewlines(src, items[r.target - 1].end, items[r.target].start))
  }

  /** An item report points at its item, is shaped, and is made exactly when the item breaks the mode. */
  lemma ItemReportShape(src: string, items: seq<Item>, i: nat, mode: Mode, lastLine: nat)
    requires WellFormed(items, src) && 0 < i < |items|
    ensures var r := ItemReport(src, items, i, mode, lastLine);
      && (r.Some? <==> Breaks(mode, items[i].startLine, lastLine))
      && (r.Some? ==> r.value.target == i && Shaped(src, items, mode, r.value))
  {
  }

  /** Every report of `rs` is shaped and points at an item at or after `i`. */
  predicate ShapedFrom(src: string, items: seq<Item>, mode: Mode, rs: seq<Report>, i: nat)
    requires WellFormed(items, src)
  {
    forall k :: 0 <= k < |rs| ==> i <= rs[k].target && Shaped(src, items, mode, rs[k])
  }

  lemma ConsShaped(src: string, items: seq<Item>, mode: Mode, r: Option<Report>, rest: seq<Report>, i: nat)
    requires WellFormed(items, src)
    requires r.Some? ==> r.value.target == i && Shaped(src, items, mode, r.value)
    requires ShapedFrom(src, items, mode, rest, i + 1)
    ensures ShapedFrom(src, items, mode, ToSeq(r) + rest, i)
  {
    var rs, o := ToSeq(r) + rest, |ToSeq(r)|;
    forall k | 0 <= k < |rs| ensures i <= rs[k].target && Shaped(src, items, mode, rs[k]) {
      if k < o {
        assert rs[k] == r.value;
      } else {
        assert rs[k] == rest[k - o];
      }
    }
  }

  /** Every report of the walk from `i` is shaped and points at an item at or after `i`. */
  lemma {:induction false} WalkShaped(src: string, items: seq<Item>, i: nat, mode: Mode, lastLine: nat)
    requires WellFormed(items, src) && 0 < i <= |items|
    ensures ShapedFrom(src, items, mode, Walk(src, items, i, mode, lastLine), i)
    decreases |items| - i
  {
    if i < |items| {
      var step := ItemReport(src, items, i, mode, lastLine);
      var rest := Walk(src, items, i + 1, mode, items[i].endLine);
      WalkShaped(src, items, i + 1, mode, items[i].endLine);
      ItemReportShape(src, items, i, mode, lastLine);
      assert Walk(src, items, i, mode, lastLine) == ToSeq(step) + rest;
      ConsShaped(src, items, mode, step, rest, i);
    }
  }

  /** The reports of the walk follow the item order, at most one per item. */
  lemma {:induction false} WalkIncreasing(src: string, items: seq<Item>, i: nat, mode: Mode, lastLine: nat)
    requires WellFormed(items, src) && 0 < i <= |items|
    ensures Increasing(Walk(src, items, i, mode, lastLine))
    decreases |items| - i
  {
    if i < |items| {
      var step := ItemReport(src, items, i, mode, lastLine);
      var rest := Walk(src, items, i + 1, mode, items[i].endLine);
      WalkIncreasing(src, items, i + 1, mode, items[i].endLine);
      WalkShaped(src, items, i + 1, mode, items[i].endLine);
      ItemReportShape(src, items, i, mode, lastLine);
      assert Walk(src, items, i, mode, lastLine) == ToSeq(step) + rest;
      ConsIncreasing(step, rest, i);
    }
  }

  /** An item from `i` on is reported exactly when it breaks the mode. */
  lemma {:induction false} WalkTargets(src: string, items: seq<Item>, i: nat, mode: Mode, lastLine: nat)
    requires WellFormed(items, src) && 0 < i <= |items| && lastLine == items[i - 1].endLine
    ensures var rs := Walk(src, items, i, mode, lastLine);
      forall t :: i <= t < |items| ==> (t in Targets(rs) <==> Breaks(mode, items[t].startLine, items[t - 1].endLine))
    decreases |items| - i
  {
    if i < |items| {
      var step := ItemReport(src, items, i, mode, lastLine);
      var rest := Walk(src, items, i + 1, mode, items[i].endLine);
      WalkTargets(src, items, i + 1, mode, items[i].endLine);
      WalkShaped(src, items, i + 1, mode, items[i].endLine);
      ItemReportShape(src, items, i, mode, lastLine);
      assert Walk(src, items, i, mode, lastLine) == ToSeq(step) + rest;
      TargetsConcat(ToSeq(step), rest);
      TargetsOfStep(step);
      TargetsAtLeast(rest, i + 1);
    }
  }

  /**
   * The walk, in closed form: every report is shaped, reports follow the item
   * order, and an item is reported exactly when its start line breaks the mode
   * against the end line of the item before it.
   */
  lemma WalkReports(src: string, items: seq<Item>, i: nat, mode: Mode)
    requires WellFormed(items, src) && 0 < i <= |items|
    ensures var rs := Walk(src, items, i, mode, items[i - 1].endLine);
      && (forall k :: 0 <= k < |rs| ==> i <= rs[k].target && Shaped(src, items, mode, rs[k]))
      && Increasing(rs)
      && (forall t :: i <= t < |items| ==>
            (t in Targets(rs) <==> Breaks(mode, items[t].startLine, items[t - 1].endLine)))
  {
    WalkShaped(src, items, i, mode, items[i - 1].endLine);
    WalkIncreasing(src, items, i, mode, items[i - 1].endLine);
    WalkTargets(src, items, i, mode, items[i - 1].endLine);
  }

  /**
   * The boundary: a report points at the last item and, in inline mode, its fix
   * stops one character before the container's end, so the closing bracket is
   * kept.
   */
  lemma BoundaryKeepsBracket(src: string, items: seq<Item>, mode: Mode, endLine: nat, nodeEnd: nat)
    requires WellFormed(items, src) && |items| > 0
    requires items[|items| - 1].end < nodeEnd <= |src|
    ensures var b := BoundaryReport(src, items, mode, endLine, nodeEnd);
      && (b.Some? <==> Breaks(mode, endLine, items[|items| - 1].endLine))
      && (b.Some? ==> b.value.target == |items| - 1 && b.value.message == MessageOf(mode)
                      && b.value.fix.start == items[|items| - 1].end)
      && (b.Some? && mode == Inline ==>
            && b.value.fix.end == nodeEnd - 1
            && Apply(src, b.value.fix)[|Apply(src, b.value.fix)| - (|src| - (nodeEnd - 1))..] == src[nodeEnd - 1..])
  {
  }

  /**
   * `check`: seeds the mode from the first item against the container's start
   * line, walks the other items, then checks the container's end line.
   */
  method Check(src: string, items: seq<Item>, startLine: nat, endLine: nat, nodeEnd: nat)
    returns (reports: seq<Report>)
    requires Inputs(src, items, nodeEnd)
    ensures reports == CheckSpec(src, items, startLine, endLine, nodeEnd)
  {
    var mode: Option<Mode> := None;
    var lastLine := startLine;
    reports := [];
    var idx := 0;
    while idx < |items|
      invariant 0 <= idx <= |items|
      invariant idx == 0 ==> mode == None && reports == [] && lastLine == startLine
      invariant idx > 0 ==> mode == Some(SeedMode(items, startLine)) && lastLine == items[idx - 1].endLine
      invariant idx > 0 ==> Walk(src, items, 1, mode.value, items[0].endLine)
                            == reports + Walk(src, items, idx, mode.value, lastLine)
    {
      var item := items[idx];
      if mode == None {
        mode := Some(if item.startLine == lastLine then Inline else Newline);
        lastLine := item.endLine;
        assert reports + Walk(src, items, 1, mode.value, lastLine) == Walk(src, items, 1, mode.value, lastLine);
      } else {
        ghost var before, lastBefore := reports, lastLine;
        if mode.value == Newline && item.startLine == lastLine {
          reports := reports + [Report(ShouldWrap, idx, Insert(item.start, "\n"))];
        } else if mode.value == Inline && item.startLine != lastLine {
          var lastItem := items[idx - 1];
          reports := reports + [Report(ShouldNotWrap, idx, RemoveNewlines(src, lastItem.end, item.start))];
        }
        lastLine := item.endLine;
        ghost var head := ToSeq(ItemReport(src, items, idx, mode.value, lastBefore));
        assert Walk(src, items, idx, mode.value, lastBefore) == head + Walk(src, items, idx + 1, mode.value, lastLine);
        assert reports == before + head;
        ConcatAssoc(before, head, Walk(src, items, idx + 1, mode.value, lastLine));
      }
      idx := idx + 1;
    }

    if mode == None {
      return;
    }
    var lastItem := items[|items| - 1];
    if mode.value == Newline && endLine == lastLine {
      reports := reports + [Report(ShouldWrap, |items| - 1, Insert(lastItem.end, "\n"))];
    } else if mode.value == Inline && endLine != lastLine {
      reports := reports + [Report(ShouldNotWrap, |items| - 1, RemoveNewlines(src, lastItem.end, nodeEnd - 1))];
    }
  }

  /**
   * The four listeners: a list with no entries is skipped, and an array's holes
   * are dropped before checking (the other lists have none).
   */
  function Listen(kind: Kind, children: seq<Option<Item>>): (items: Option<seq<Item>>)
    requires kind != ArrayExpression ==> forall k :: 0 <= k < |children| ==> children[k].Some?
    ensures items.Some? <==> |children| > 0 && kind in {ObjectExpression, ArrayExpression, ImportDeclaration, ExportNamedDeclaration}
    ensures items.Some? ==> items.value == Present(children)
    ensures items.Some? && kind != ArrayExpression ==> |items.value| == |children|
  {
    if kind !in {ObjectExpression, ArrayExpression, ImportDeclaration, ExportNamedDeclaration} then None
    else if |children| == 0 then None
    else if kind == ArrayExpression then Some(Present(children))
    else
      PresentKeepsFull(children);
      Some(Present(children))
  }

  lemma {:induction false} PresentKeepsFull(children: seq<Option<Item>>)
    requires forall k :: 0 <= k < |children| ==> children[k].Some?
    ensures |Present(children)| == |children|
    decreases |children|
  {
    if children != [] {
      PresentKeepsFull(children[1..]);
    }
  }
}
