/**
 * Shared vocabulary of the layout rules: positioned tokens, text edits and the
 * character classes the rules' regular expressions use.
 *
 * The host linter answers token and position queries; here their answers are
 * plain values. Offsets index the source string, lines are 1-based.
 */
module Layout {

  datatype Option<T> = None | Some(value: T)

  /** The token types the host's tokenizer assigns (comments are `Block` and `Line`). */
  datatype TokenType =
    | Boolean | Identifier | Keyword | Null | Numeric | Punctuator
    | RegularExpression | String | Template | JSXIdentifier | JSXText
    | PrivateIdentifier | Block | Line

  /** A token (or comment): its type, its text, the lines it starts and ends on, its offsets. */
  datatype Token = Token(kind: TokenType, value: string, startLine: nat, endLine: nat, start: nat, end: nat)

  /** A source range `[start, end)`. */
  datatype Span = Span(start: nat, end: nat)

  /** A text edit replacing `[start, end)` of the source by `text`; an insertion has `start == end`. */
  datatype Edit = Edit(start: nat, end: nat, text: string)

  function Insert(at: nat, text: string): (e: Edit)
    ensures e.start == e.end == at && e.text == text
  {
    Edit(at, at, text)
  }

  predicate Fits(src: string, e: Edit) {
    e.start <= e.end <= |src|
  }

  /** The source after one edit: the text outside `[e.start, e.end)` is kept as it was. */
  function Apply(src: string, e: Edit): (r: string)
    requires Fits(src, e)
    ensures |r| == |src| - (e.end - e.start) + |e.text|
    ensures r[..e.start] == src[..e.start]
    ensures r[e.start..e.start + |e.text|] == e.text
    ensures r[e.start + |e.text|..] == src[e.end..]
  {
    src[..e.start] + e.text + src[e.end..]
  }

  /** Edits in source order, pairwise disjoint (two insertions may share a point). */
  predicate Ordered(edits: seq<Edit>) {
    forall j, k :: 0 <= j < k < |edits| ==> edits[j].end <= edits[k].start
  }

  predicate AllFit(src: string, edits: seq<Edit>) {
    forall k :: 0 <= k < |edits| ==> Fits(src, edits[k])
  }

  /**
   * Applies ordered, disjoint edits simultaneously, as the host does with the
   * fixes of one pass: the last edit first, so that earlier offsets stay valid.
   */
  function ApplyAll(src: string, edits: seq<Edit>): (r: string)
    requires Ordered(edits) && AllFit(src, edits)
    ensures edits == [] ==> r == src
    ensures edits != [] ==> edits[0].start <= |r| && r[..edits[0].start] == src[..edits[0].start]
    decreases |edits|
  {
    if edits == [] then src
    else
      var last := edits[|edits| - 1];
      var rest := edits[..|edits| - 1];
      var next := Apply(src, last);
      assert forall k :: 0 <= k < |rest| ==> rest[k].end <= last.start;
      assert |next| >= last.start;
      var r := ApplyAll(next, rest);
      assert rest != [] ==> rest[0].start <= last.start;
      r
  }

  /** Applying ordered edits starts with the last one. */
  lemma ApplyLast(src: string, edits: seq<Edit>, e: Edit)
    requires Ordered(edits + [e]) && AllFit(src, edits + [e]) && Fits(src, e)
    ensures Ordered(edits) && AllFit(Apply(src, e), edits)
    ensures ApplyAll(src, edits + [e]) == ApplyAll(Apply(src, e), edits)
  {
    var all := edits + [e];
    assert all[..|all| - 1] == edits;
    assert all[|all| - 1] == e;
    assert forall k :: 0 <= k < |edits| ==> edits[k] == all[k];
  }

  /** The two halves of a concatenation are read back by slicing at the seam. */
  lemma ConcatParts<T>(a: seq<T>, b: seq<T>)
    ensures (a + b)[..|a|] == a && (a + b)[|a|..] == b
  {
  }

  lemma ConcatAssoc<T>(a: seq<T>, b: seq<T>, c: seq<T>)
    ensures a + (b + c) == (a + b) + c
  {
  }

  lemma SliceLeft<T>(a: seq<T>, b: seq<T>, i: nat, j: nat)
    requires i <= j <= |a|
    ensures (a + b)[i..j] == a[i..j]
  {
  }

  lemma SliceRight<T>(a: seq<T>, b: seq<T>, i: nat, j: nat)
    requires i <= j <= |b|
    ensures (a + b)[|a| + i..|a| + j] == b[i..j]
  {
  }

  /** An insertion at the seam of two texts puts the text between them. */
  lemma InsertAtSeam(a: string, b: string, t: string)
    ensures Fits(a + b, Insert(|a|, t))
    ensures Apply(a + b, Insert(|a|, t)) == a + t + b
  {
    assert (a + b)[..|a|] == a;
    assert (a + b)[|a|..] == b;
  }

  lemma ApplyOne(src: string, e: Edit)
    requires Fits(src, e)
    ensures Ordered([e]) && AllFit(src, [e])
    ensures ApplyAll(src, [e]) == Apply(src, e)
  {
    assert [e][..0] == [];
  }

  /** Two ordered edits: the later one is applied first. */
  lemma ApplyTwo(src: string, first: Edit, second: Edit)
    requires first.start <= first.end <= second.start <= second.end <= |src|
    ensures Ordered([first, second]) && AllFit(src, [first, second])
    ensures ApplyAll(src, [first, second]) == Apply(Apply(src, second), first)
  {
    var edits := [first] + [second];
    assert [first, second] == edits;
    assert |edits| == 2 && edits[0] == first && edits[1] == second;
    assert Ordered(edits) && AllFit(src, edits);
    ApplyLast(src, [first], second);
    ApplyOne(Apply(src, second), first);
  }

  /** The characters JavaScript's `\s` class matches. */
  predicate IsSpace(c: char) {
    c == ' ' || c == '\t' || c == '\n' || c == '\r' || c == '\U{B}' || c == '\U{C}'
    || c == '\U{A0}' || c == '\U{1680}' || ('\U{2000}' <= c <= '\U{200A}')
    || c == '\U{2028}' || c == '\U{2029}' || c == '\U{202F}' || c == '\U{205F}'
    || c == '\U{3000}' || c == '\U{FEFF}'
  }

  /** The characters that end a source line for the host. */
  predicate IsLineTerminator(c: char) {
    c == '\n' || c == '\r' || c == '\U{2028}' || c == '\U{2029}'
  }

  predicate NoLineTerminator(s: string) {
    forall k :: 0 <= k < |s| ==> !IsLineTerminator(s[k])
  }
}
