/**
 * `indent-binary-ops`: in a binary or logical expression, when the token after
 * the operator starts on another line than the token before the operator (the
 * left operand's last token), the line of the token after the operator must be
 * indented like the line of the token before it, one unit deeper when that
 * line starts with a keyword.
 */
module IndentBinaryOps {
  import opened Layout

  /** The `indent` option: a number of spaces, or "tab". */
  datatype IndentOption = Tab | Width(n: nat)

  function Spaces(n: nat): (s: string)
    ensures |s| == n && forall k :: 0 <= k < n ==> s[k] == ' '
  {
    seq(n, _ => ' ')
  }

  /** One indentation unit: a tab for "tab", otherwise `indent` spaces, two when the option is absent. */
  function IndentUnit(option: Option<IndentOption>): (unit: string)
    ensures option == Some(Tab) ==> unit == "\t"
    ensures option.None? ==> unit == "  "
    ensures option.Some? && option.value.Width? ==> unit == Spaces(option.value.n)
    ensures AllSpace(unit)
  {
    match option
    case Some(Tab) => "\t"
    case Some(Width(n)) => Spaces(n)
    case None => Spaces(2)
  }

  predicate AllSpace(s: string) {
    forall k :: 0 <= k < |s| ==> IsSpace(s[k])
  }

  /** The indent of a line: its longest prefix of whitespace. */
  function IndentOf(line: string): (indent: string)
    ensures indent <= line
    ensures AllSpace(indent)
    ensures |indent| == |line| || !IsSpace(line[|indent|])
    decreases |line|
  {
    if line == [] || !IsSpace(line[0]) then []
    else [line[0]] + IndentOf(line[1..])
  }

  /** Whitespace followed by text that does not start with whitespace is read back as the indent. */
  lemma {:induction false} IndentOfSplice(indent: string, rest: string)
    requires AllSpace(indent)
    requires rest == [] || !IsSpace(rest[0])
    ensures IndentOf(indent + rest) == indent
    decreases |indent|
  {
    if indent != [] {
      assert (indent + rest)[1..] == indent[1..] + rest;
      IndentOfSplice(indent[1..], rest);
    } else {
      assert indent + rest == rest;
    }
  }

  /** The first token or comment that starts on `line`. */
  function FirstTokenOfLine(tokensAndComments: seq<Token>, line: nat): Option<Token>
    decreases |tokensAndComments|
  {
    if tokensAndComments == [] then None
    else if tokensAndComments[0].startLine == line then Some(tokensAndComments[0])
    else FirstTokenOfLine(tokensAndComments[1..], line)
  }

  /**
   * The lookup finds a token exactly when some token starts on the line, and
   * then it is the earliest such token.
   */
  lemma {:induction false} FirstTokenOfLineFound(tokensAndComments: seq<Token>, line: nat)
    ensures var t := FirstTokenOfLine(tokensAndComments, line);
      && (t.Some? <==> exists k :: 0 <= k < |tokensAndComments| && tokensAndComments[k].startLine == line)
      && (t.Some? ==> exists k :: 0 <= k < |tokensAndComments| && tokensAndComments[k] == t.value
                                  && t.value.startLine == line
                                  && forall j :: 0 <= j < k ==> tokensAndComments[j].startLine != line)
    decreases |tokensAndComments|
  {
    if tokensAndComments != [] && tokensAndComments[0].startLine != line {
      var tail := tokensAndComments[1..];
      FirstTokenOfLineFound(tail, line);
      assert forall k :: 0 < k < |tokensAndComments| ==> tokensAndComments[k] == tail[k - 1];
      if FirstTokenOfLine(tail, line).Some? {
        var k :| 0 <= k < |tail| && tail[k] == FirstTokenOfLine(tail, line).value
                 && tail[k].startLine == line
                 && forall j :: 0 <= j < k ==> tail[j].startLine != line;
        assert tokensAndComments[k + 1] == tail[k];
      }
    }
  }

  /** Tokens on other lines in front do not change the lookup. */
  lemma {:induction false} FirstTokenAfter(before: seq<Token>, after: seq<Token>, line: nat)
    requires forall k :: 0 <= k < |before| ==> before[k].startLine != line
    ensures FirstTokenOfLine(before + after, line) == FirstTokenOfLine(after, line)
    decreases |before|
  {
    if before != [] {
      assert (before + after)[1..] == before[1..] + after;
      FirstTokenAfter(before[1..], after, line);
    } else {
      assert before + after == after;
    }
  }

  /** Some token before `right` other than the first is not "(": the operator is there to find. */
  predicate HasOperator(tokens: seq<Token>, right: nat) {
    exists k :: 0 < k < right && k < |tokens| && tokens[k].value != "("
  }

  /** The operator: the first token left of `right` that is not "(". */
  function OperatorIndex(tokens: seq<Token>, right: nat): (op: nat)
    requires right <= |tokens| && HasOperator(tokens, right)
    ensures 0 < op < right
    ensures tokens[op].value != "("
    ensures forall k :: op < k < right ==> tokens[k].value == "("
    decreases right
  {
    if tokens[right - 1].value == "(" then
      assert HasOperator(tokens, right - 1) by {
        var k :| 0 < k < right && k < |tokens| && tokens[k].value != "(";
        assert k < right - 1;
      }
      OperatorIndex(tokens, right - 1)
    else right - 1
  }

  /** Replaces columns `[startColumn, endColumn)` of line `line` (1-based) by `text`. */
  datatype LineEdit = LineEdit(line: nat, startColumn: nat, endColumn: nat, text: string)

  predicate FitsLines(lines: seq<string>, e: LineEdit) {
    1 <= e.line <= |lines| && e.startColumn <= e.endColumn <= |lines[e.line - 1]|
  }

  function ApplyToLines(lines: seq<string>, e: LineEdit): (r: seq<string>)
    requires FitsLines(lines, e)
    ensures |r| == |lines|
    ensures forall k :: 0 <= k < |lines| && k != e.line - 1 ==> r[k] == lines[k]
    ensures r[e.line - 1] == lines[e.line - 1][..e.startColumn] + e.text + lines[e.line - 1][e.endColumn..]
  {
    var l := lines[e.line - 1];
    lines[e.line - 1 := l[..e.startColumn] + e.text + l[e.endColumn..]]
  }

  /** What the host guarantees: every token starts on a line of the source. */
  predicate Inputs(tokens: seq<Token>, lines: seq<string>, rightFirst: nat) {
    && rightFirst < |tokens|
    && HasOperator(tokens, rightFirst)
    && forall k :: 0 <= k < |tokens| ==> 1 <= tokens[k].startLine <= |lines|
  }

  /** The indent the line after the operator should have, taken from the line `leftLine` before it. */
  function IndentTarget(tokensAndComments: seq<Token>, lines: seq<string>, option: Option<IndentOption>, leftLine: nat)
    : (target: string)
    requires 1 <= leftLine <= |lines|
    ensures AllSpace(target)
  {
    var first := FirstTokenOfLine(tokensAndComments, leftLine);
    var needAdditionIndent := first.Some? && first.value.kind == Keyword;
    IndentOf(lines[leftLine - 1]) + (if needAdditionIndent then IndentUnit(option) else "")
  }

  /** The report of the handler for the expression whose right operand starts at token `rightFirst`. */
  function HandlerSpec(tokens: seq<Token>, tokensAndComments: seq<Token>, lines: seq<string>,
                       option: Option<IndentOption>, rightFirst: nat): Option<LineEdit>
    requires Inputs(tokens, lines, rightFirst)
  {
    var op := OperatorIndex(tokens, rightFirst);
    var right, left := tokens[op + 1], tokens[op - 1];
    if right.startLine == left.startLine then None
    else
      var target := IndentTarget(tokensAndComments, lines, option, left.startLine);
      var indentRight := IndentOf(lines[right.startLine - 1]);
      if target == indentRight then None
      else Some(LineEdit(right.startLine, 0, |indentRight|, target))
  }

  /**
   * A report is made exactly when the tokens on either side of the operator
   * start on different lines and the indent of the line after the operator is
   * not the target taken from the line before it; its fix replaces exactly
   * that indent by the target.
   */
  lemma HandlerReports(tokens: seq<Token>, tokensAndComments: seq<Token>, lines: seq<string>,
                       option: Option<IndentOption>, rightFirst: nat)
    requires Inputs(tokens, lines, rightFirst)
    ensures var op := OperatorIndex(tokens, rightFirst);
      var right, left := tokens[op + 1], tokens[op - 1];
      var r := HandlerSpec(tokens, tokensAndComments, lines, option, rightFirst);
      && (r.Some? <==> right.startLine != left.startLine
                       && IndentTarget(tokensAndComments, lines, option, left.startLine) != IndentOf(lines[right.startLine - 1]))
      && (r.Some? ==> && r.value.line == right.startLine
                      && r.value.startColumn == 0
                      && r.value.endColumn == |IndentOf(lines[right.startLine - 1])|
                      && r.value.text == IndentTarget(tokensAndComments, lines, option, left.startLine)
                      && FitsLines(lines, r.value))
  {
  }

  /**
   * The fix is idempotent: on the fixed lines the line after the operator has
   * the target indent, and the handler reports nothing more.
   */
  lemma FixIsIdempotent(tokens: seq<Token>, tokensAndComments: seq<Token>, lines: seq<string>,
                        option: Option<IndentOption>, rightFirst: nat)
    requires Inputs(tokens, lines, rightFirst)
    requires HandlerSpec(tokens, tokensAndComments, lines, option, rightFirst).Some?
    ensures var e := HandlerSpec(tokens, tokensAndComments, lines, option, rightFirst).value;
      && FitsLines(lines, e)
      && IndentOf(ApplyToLines(lines, e)[e.line - 1]) == e.text
      && HandlerSpec(tokens, tokensAndComments, ApplyToLines(lines, e), option, rightFirst).None?
  {
    var e := HandlerSpec(tokens, tokensAndComments, lines, option, rightFirst).value;
    var op := OperatorIndex(tokens, rightFirst);
    var left := tokens[op - 1];
    var line := lines[e.line - 1];
    var fixed := ApplyToLines(lines, e);
    assert fixed[e.line - 1] == e.text + line[e.endColumn..];
    IndentOfSplice(e.text, line[e.endColumn..]);
    assert fixed[left.startLine - 1] == lines[left.startLine - 1];
  }

  /** The handler: walks left over "(" tokens to the operator, then compares the two lines' indents. */
  method Handler(tokens: seq<Token>, tokensAndComments: seq<Token>, lines: seq<string>,
                 option: Option<IndentOption>, rightFirst: nat) returns (report: Option<LineEdit>)
    requires Inputs(tokens, lines, rightFirst)
    ensures report == HandlerSpec(tokens, tokensAndComments, lines, option, rightFirst)
  {
    var tokenRight := rightFirst;
    var tokenOperator := tokenRight - 1;
    while tokens[tokenOperator].value == "("
      invariant 0 < tokenRight <= rightFirst && tokenOperator == tokenRight - 1
      invariant HasOperator(tokens, tokenRight)
      invariant OperatorIndex(tokens, tokenRight) == OperatorIndex(tokens, rightFirst)
      decreases tokenRight
    {
      assert HasOperator(tokens, tokenOperator) by {
        var k :| 0 < k < tokenRight && k < |tokens| && tokens[k].value != "(";
        assert k < tokenOperator;
      }
      tokenRight := tokenOperator;
      tokenOperator := tokenRight - 1;
    }
    var tokenLeft := tokenOperator - 1;

    var isMultiline := tokens[tokenRight].startLine != tokens[tokenLeft].startLine;
    if !isMultiline {
      return None;
    }

    var leftLine := tokens[tokenLeft].startLine;
    var firstTokenOfLineLeft := FirstTokenOfLine(tokensAndComments, leftLine);
    var needAdditionIndent := firstTokenOfLineLeft.Some? && firstTokenOfLineLeft.value.kind == Keyword;
    var indentTarget := IndentOf(lines[leftLine - 1]) + (if needAdditionIndent then IndentUnit(option) else "");
    var rightLine := tokens[tokenRight].startLine;
    var indentRight := IndentOf(lines[rightLine - 1]);
    if indentTarget != indentRight {
      report := Some(LineEdit(rightLine, 0, |indentRight|, indentTarget));
    } else {
      report := None;
    }
  }
}
