# eslint-plugin-antfu layout rules, modelled in Dafny

This project models the decision procedures of eight ESLint rules from
eslint-plugin-antfu and proves what their reports and fixes amount to.

- **`consistent-list-newline`** checks delimited lists: objects, arrays, parameters, arguments, specifiers, type members and JSX attributes. The items must either all sit on the line of the opening delimiter ("inline") or each sit on a line of its own ("newline").
- **`consistent-object-newline`** is the older, smaller variant of the same loop.
- **`consistent-chaining`** applies the same single-line/multi-line consistency to the `.member` links of one member chain.
- **`indent-binary-ops`** re-indents the line after the operator of a binary or logical expression, when the token after the operator starts on another line than the token before it.
- **`curly`** puts braces on every branch of an if/else-if/else chain, or on a loop body, as soon as one branch needs them.
- **`top-level-function`** rewrites a top-level `const f = (..) => ..` as `function f (..) {..}`.
- **`no-import-dist`** reports imports from a `dist` directory.
- **`no-top-level-await`** reports an `await` outside any function.

Each rule's host queries become plain inputs:
- token lookups;
- comment lookups;
- line and offset positions;
- the parent chain of a node.

A report is a value carrying its fix as text edits (`Layout.Edit`). `Layout.ApplyAll` applies the fixes of one pass the way the host does: the edits are ordered and disjoint, and the last one is applied first.

Where the source mutates state step by step, the model does the same in imperative Dafny, and each such method is proved equal to a recursive specification function:
- the `forEach` over items;
- the root climb and the link collection;
- the `knownRoot` set, kept in the class `Chaining.ChainRule`;
- the walk over "(" tokens;
- `addIf`;
- the ancestor walk;
- the deletion of listeners.

The rules' properties are then proved as lemmas about those functions. Each `*Examples.dfy` file works cases from the rule's own test suite through the model, down to the fixed text.

## Model

| member | source | states |
|---|---|---|
| ListNewline.Delimiter | src/rules/consistent-list-newline.ts:86-91 | the delimiter is "," exactly for interface and type-literal members whose text does not already end in "," or ";", and "" otherwise |
| ListNewline.ReplaceRemovesNewlines | src/rules/consistent-list-newline.ts:80-84 | after `removeLines`'s replacement no "\n" is left unless the delimiter brings one |
| ListNewline.ReplaceCollapsesCrlf | src/rules/consistent-list-newline.ts:80-84 | on CRLF input (every "\r" starts a "\r\n") no stray "\r" is left |
| ListNewline.ReplaceKeepsUnbrokenText | src/rules/consistent-list-newline.ts:80-84 | text without a line feed is left unchanged |
| ListNewline.BoundaryPos | src/rules/consistent-list-newline.ts:186-192 | the boundary offset is the smaller of the container end and the start of the token before the next node |
| ListNewline.CheckSpec | src/rules/consistent-list-newline.ts:113-138 | a list with no items after dropping holes, or whose opening token starts on the line where the token after the last item ends, gets no report. That token is a trailing comma when there is one, so `[1, 2,\n]` is not checked |
| ListNewline.WalkShape | src/rules/consistent-list-newline.ts:140-184 | every item report points past the first item, carries the mode's message, and has its fix inside the gap before its item; reports follow item order, at most one per item |
| ListNewline.NewlineWalk | src/rules/consistent-list-newline.ts:150-163 | in newline mode an item is reported exactly when it starts on the line where the previous item ended, with "\n" inserted before it |
| ListNewline.CommentedItemSkipped | src/rules/consistent-list-newline.ts:164-172 | in inline mode an item on another line with a comment before it draws no report and leaves the last line unchanged |
| ListNewline.InlineWalk | src/rules/consistent-list-newline.ts:164-184 | in inline mode an item is reported exactly when it starts on another line than the end line of the nearest earlier item not skipped, has no comment before it, and the gap before it holds "\n"; the walk ends with that line for the boundary |
| ListNewline.BoundaryShape | src/rules/consistent-list-newline.ts:186-228 | the boundary is reported exactly when, in newline mode, it is on the last line, or, in inline mode, it is on another line, the list has several items or is of an always-checked kind, no comment follows the last item and the text up to the boundary holds "\n". A boundary report points at the last item. In newline mode it inserts "\n" after it. In inline mode there is no comment after the item, the list has several items or is of an always-checked kind, the gap holds "\n", and a single item gets no delimiter |
| ListNewline.CheckFollowsSeedMode | src/rules/consistent-list-newline.ts:140-149 | the mode is set once by the first item: every report of a check carries that mode's message |
| ListNewline.CheckEditsDisjoint | src/rules/consistent-list-newline.ts:108-229 | the fixes of one check fit the source, are ordered and pairwise disjoint, and never overlap an item's text |
| ListNewline.VisitItem | src/rules/consistent-list-newline.ts:150-184 | one turn of the item loop equals the specified step, including the comment skip that keeps the last line |
| ListNewline.CheckBoundary | src/rules/consistent-list-newline.ts:186-228 | the boundary part of `check` equals the specified boundary step |
| ListNewline.Check | src/rules/consistent-list-newline.ts:108-229 | the imperative `check` picks its opening token as `OpeningToken` does and, with its mode and last line updated step by step, returns exactly `CheckSpec` for that token's line and the end line of the token after the last item |
| ListNewline.PickOpening | src/rules/consistent-list-newline.ts:116-132 | the imperative choice of the opening token, with its reassignments, returns `OpeningToken` |
| ListNewline.OpeningToken | src/rules/consistent-list-newline.ts:116-132 | the opening token is the node's first token; for a call it is the token after the type arguments, else after a member callee's property, else after the callee; it falls back to the token before the first item when that is not a punctuator, and `new` always falls back |
| ListNewline.NodeHasComments | src/rules/consistent-list-newline.ts:93-106 | the climb to `Program` finds a comment strictly inside the node's range exactly when the program has one |
| ListNewline.Listen | src/rules/consistent-list-newline.ts:231-318 | a node is checked exactly when its kind is enabled and no guard applies (arrow with at most one parameter, multi-line JSX attribute, JSON literal with a comment); a leading default import is dropped; the next node is the return type or body of a function, the type annotation of an object pattern |
| ListNewline.EnabledListeners | src/rules/consistent-list-newline.ts:328-332 | the listeners left after the options loop are all kinds minus those whose option is `false` |
| ListNewlineExamples.InterfaceExample | src/rules/consistent-list-newline.test.ts:144-149 | `interface Foo {a: 1\nb: 2\n}` is fixed to `interface Foo {a: 1,b: 2,}` |
| ListNewlineExamples.CrlfExample | src/rules/consistent-list-newline.test.ts:176-181 | the CRLF object is fixed to one line with no "\r" left |
| ObjectNewline.StripKeepsCleanText | src/rules/consistent-object-newline.ts:26-30 | stripping leaves text without a line feed unchanged |
| ObjectNewline.StripIdempotent | src/rules/consistent-object-newline.ts:26-30 | stripping twice is stripping once |
| ObjectNewline.StripCounts | src/rules/consistent-object-newline.ts:26-30 | exactly the "\n" characters are deleted: the result is the input's multiset minus its line feeds |
| ObjectNewline.RemoveNewlines | src/rules/consistent-object-newline.ts:26-30 | the fix covers exactly the given range and its text has no line feed |
| ObjectNewline.CheckSpec | src/rules/consistent-object-newline.ts:32-41 | a list with no items gets no report |
| ObjectNewline.WalkReports | src/rules/consistent-object-newline.ts:36-66 | an item is reported exactly when its start line breaks the mode against the previous item's end line, with no comment exemption. The fix inserts "\n" before it (newline mode) or deletes the line feeds of the gap (inline mode), in item order |
| ObjectNewline.BoundaryKeepsBracket | src/rules/consistent-object-newline.ts:68-86 | a boundary report is made exactly when the container's end line breaks the mode; the inline fix stops one character before the container end, so the closing bracket is kept |
| ObjectNewline.Check | src/rules/consistent-object-newline.ts:32-87 | the imperative `check` returns exactly `CheckSpec` |
| ObjectNewline.Listen | src/rules/consistent-object-newline.ts:89-111 | only the four list kinds with at least one entry are checked, and array holes are dropped |
| Chaining.ChainRoot | src/rules/consistent-chaining.ts:52-54 | the root is the node itself or an ancestor, and cannot climb further |
| Chaining.ClimbPathSharesRoot | src/rules/consistent-chaining.ts:52-76 | every node reached from a node by descending through member accesses and calls only climbs back to that node's root, so links reached that way are handled under one root (links below a non-null assertion are not: see Findings) |
| Chaining.LinksAreTheSpine | src/rules/consistent-chaining.ts:59-83 | the links are exactly the non-computed member accesses reached through objects, callees and non-null assertions, head first |
| Chaining.ClassifyAfterMode | src/rules/consistent-chaining.ts:107-121 | once the mode is set, exactly the links of the other class are reported, with the mode's message and fix. The fix inserts "\n" after the preceding token (multi) or deletes the gap up to the dot (single) |
| Chaining.RunEnd | src/rules/consistent-chaining.ts:93-102 | while leading access is allowed, the exemption covers exactly the links before the first one that is not a simple single-line access, and ends there |
| Chaining.ClassifyClosedForm | src/rules/consistent-chaining.ts:85-105 | the leading exempt run is skipped; the first link after it sets the mode and is not reported; the rest are classified against that mode |
| Chaining.UniformChainIsQuiet | src/rules/consistent-chaining.ts:85-122 | a chain whose links all share one class draws no report |
| Chaining.ClimbToRoot | src/rules/consistent-chaining.ts:52-54 | the `while` climb returns `ChainRoot` |
| Chaining.CollectLinks | src/rules/consistent-chaining.ts:59-83 | the `while` loop with `unshift` returns `Links` |
| Chaining.VisitLink | src/rules/consistent-chaining.ts:88-121 | one turn of the `forEach` equals the specified link step |
| Chaining.ReportLinks | src/rules/consistent-chaining.ts:85-122 | the `forEach` returns the specified classification |
| Chaining.ChainRule.constructor | src/rules/consistent-chaining.ts:44-48 | the seen-set starts empty and `allowLeadingPropertyAccess` defaults to true |
| Chaining.ChainRule.OnMemberExpression | src/rules/consistent-chaining.ts:51-122 | the root is added to `knownRoot`; a root already known gives no report, otherwise the chain's reports are given |
| ChainingExamples.ChainSteps | src/rules/consistent-chaining.test.ts:38-46 | in `foo().bar\n  .baz()\n  .boo()`, `.bar` sets single mode and `.baz`, `.boo` are reported |
| ChainingExamples.ChainOutput | src/rules/consistent-chaining.test.ts:38-46 | the fixes give `foo().bar.baz().boo()` |
| ChainingExamples.HandleChain | src/rules/consistent-chaining.ts:51-57 | of the three member accesses of that chain, only the first one visited reports |
| ChainingNonNullExample.NonNullRoots | src/rules/consistent-chaining.ts:52-83 | in `foo()\n  .bar().baz!.qux()` the climb from `.qux` reaches the outer call, with links `.bar`, `.baz`, `.qux`; the climb from `.baz` stops below `!`, making `.baz` a second root with links `.bar`, `.baz`; climbing through `!` too, `.baz` has the outer call as its root |
| ChainingNonNullExample.NonNullReports | src/rules/consistent-chaining.ts:85-122 | both chains of that source report `.baz`, the outer one `.qux` as well |
| ChainingNonNullExample.VisitBoth | src/rules/consistent-chaining.ts:51-57 | a fresh rule visiting two member accesses whose climbs end at different roots gives each chain's reports on each visit |
| ChainingNonNullExample.HandleNonNullChain | src/rules/consistent-chaining.ts:51-57 | visiting `.qux` and then `.baz`, both visits report, so `.baz` is reported twice |
| Chaining.WrappedRoot | src/rules/consistent-chaining.ts:52-54 | the root under a climb through member accesses, calls and non-null assertions is the node or an ancestor, and climbs no further |
| Chaining.SpineSharesWrappedRoot | src/rules/consistent-chaining.ts:59-83 | every node the link collection reaches from a node has that node's root under the climb through non-null assertions |
| Chaining.WrappedRootsPartitionLinks | src/rules/consistent-chaining.ts:44-83 | with that climb every link collected from a root has that root, so two different roots never share a link and each chain is handled once |
| IndentBinaryOps.IndentUnit | src/rules/indent-binary-ops.ts:46-50 | the unit is a tab for "tab", otherwise `indent` spaces, two by default |
| IndentBinaryOps.IndentOf | src/rules/indent-binary-ops.ts:52-54 | the indent is a whitespace prefix of the line that cannot be extended |
| IndentBinaryOps.FirstTokenOfLineFound | src/rules/indent-binary-ops.ts:56-58 | the first token or comment that starts on the line, and none exactly when no token starts there |
| IndentBinaryOps.OperatorIndex | src/rules/indent-binary-ops.ts:60-66 | the operator is the first token left of the right operand that is not "("; every token between them is "(" |
| IndentBinaryOps.HandlerReports | src/rules/indent-binary-ops.ts:68-101 | a report is made exactly when the token after the operator starts on another line than the token before it (the left operand's last token), and the indent of the line after differs from the target taken from the line before; the fix replaces columns [0, indent length) of the line after by the target |
| IndentBinaryOps.FixIsIdempotent | src/rules/indent-binary-ops.ts:76-101 | after the fix the right line's indent is the target and the handler reports nothing more |
| IndentBinaryOps.Handler | src/rules/indent-binary-ops.ts:59-102 | the handler with its "(" walk returns `HandlerSpec` |
| IndentBinaryOpsExamples.ParenthesisedRightOperand | src/rules/indent-binary-ops.test.ts:8-15 | the walk steps over "(" to `&&`, and the tokens on either side of it share a line: no report |
| IndentBinaryOpsExamples.UnindentedRightOperand | src/rules/indent-binary-ops.test.ts:22-27 | `bbbbb` gets the two spaces of the left line |
| IndentBinaryOpsExamples.KeywordAddsOneUnit | src/rules/indent-binary-ops.test.ts:28-37 | a left line starting with `if` asks for one more unit: the line of the second operand `b` is re-indented to four spaces |
| IndentBinaryOpsExamples.KeywordFix | src/rules/indent-binary-ops.test.ts:28-37 | the fixed line is the old line with four spaces of indent in place of two |
| Curly.WrapText | src/rules/curly.ts:43-47 | the wrap fix puts " {" right after the token before the body and "\n}" right after the body, and changes nothing else |
| Curly.Unbraced | src/rules/curly.ts:37-39 | the bodies that get wrapped are exactly those that are not blocks |
| Curly.CheckReports | src/rules/curly.ts:51-57 | a group is reported exactly when some body requires braces and some body is not a block; the reports are one per non-block body, in order, each wrapping that body |
| Curly.SingleLineAccepted | src/rules/curly.ts:24-35 | single-line bodies that are neither blocks nor nested statements are accepted |
| Curly.Check | src/rules/curly.ts:51-57 | the imperative `check` returns `CheckSpec` |
| Curly.BranchGroup | src/rules/curly.ts:66-77 | the group of an if starts with its consequent |
| Curly.Chain | src/rules/curly.ts:66-77 | the ifs of a chain: each one's alternate is the next |
| Curly.GroupOfChain | src/rules/curly.ts:66-77 | the group is the chain's consequents in order, then the final `else`, which is not an if |
| Curly.AddIf | src/rules/curly.ts:67-75 | `addIf` appends the branch group to the statements collected so far |
| Curly.OnIf | src/rules/curly.ts:60-78 | an if that is its parent's alternate reports nothing; any other if reports its whole group |
| Curly.ElseIfInOuterGroup | src/rules/curly.ts:60-77 | an `else if`'s bodies are part of the outer if's group |
| Curly.OnLoop | src/rules/curly.ts:79-93 | each loop body is a group of its own |
| Curly.LoopReports | src/rules/curly.ts:79-93 | a loop body is wrapped exactly when it is not a block and is a nested statement or spans several lines |
| CurlyExamples.IfElseIfExample | src/rules/curly.test.ts:123-150 | the braced final `else` makes the three other bodies wrapped |
| CurlyExamples.ElseIfsSkipped | src/rules/curly.ts:60-64 | the `else if` listeners of that chain report nothing |
| CurlyExamples.NestedText | src/rules/curly.test.ts:75-85 | a nested if is wrapped as a whole, giving the expected text |
| CurlyExamples.ConsistentText | src/rules/curly.test.ts:86-107 | one multi-line branch gets both branches wrapped, giving the expected text |
| CurlyExamples.MultilineConditionNotWrapped | src/rules/curly.ts:24-35 | a multi-line condition with a single-line body draws no report |
| TopLevelFunction.TextArgs | src/rules/top-level-function.ts:67-69 | the parameter text runs from the first parameter's start to the last one's end, empty without parameters |
| TopLevelFunction.TextBody | src/rules/top-level-function.ts:70-72 | a block body is copied; an expression body becomes `{\n  return EXPR\n}` |
| TopLevelFunction.TextOptional | src/rules/top-level-function.ts:73-78 | absent type parameters or return type give "" |
| TopLevelFunction.ListenReports | src/rules/top-level-function.ts:24-62 | a declaration is reported exactly when every guard passes: top level, one `const` declarator, no `declare`, a function initializer, an unannotated identifier, and for an expression body a later end line. The report runs from the name to the body and its fix replaces exactly the declaration |
| TopLevelFunction.FixTextHead | src/rules/top-level-function.ts:64-81 | the replacement starts with `async ` exactly when the function is async, then `function ` and the name, and ends with the body; its length is the sum of its parts |
| TopLevelFunction.FixTextArgs | src/rules/top-level-function.ts:64-81 | after the name, a space and the type parameters, the replacement holds the parameter text |
| TopLevelFunction.FixTextParens | src/rules/top-level-function.ts:64-81 | the parameter text is enclosed in "(" and ")" |
| TopLevelFunction.FixKeepsSurroundings | src/rules/top-level-function.ts:86 | only the declaration's range is replaced; the text around it is kept |
| TopLevelFunctionExamples.ArrowExample | src/rules/top-level-function.test.ts:26-29 | `const foo = (x, y) => \nx + y` becomes `function foo (x, y) {\n  return x + y\n}` |
| TopLevelFunctionExamples.OneLineAccepted | src/rules/top-level-function.test.ts:20 | a one-line arrow is accepted |
| TopLevelFunctionExamples.LetAccepted | src/rules/top-level-function.test.ts:11 | a `let` is accepted |
| TopLevelFunctionExamples.ExportExample | src/rules/top-level-function.test.ts:39-42 | `export const foo = () => {}` becomes `export function foo () {}` |
| NoImportDist.FindDistMatches | src/rules/no-import-dist.ts:22 | the scan finds "/dist" followed by "/" or the end exactly when the pattern matches |
| NoImportDist.IsDistMeaning | src/rules/no-import-dist.ts:21-24 | a path is a dist path exactly when it is `dist`, or starts with "." and contains "/dist" followed by "/" or its end |
| NoImportDist.PackagePathsAllowed | src/rules/no-import-dist.ts:22-23 | a path not starting with "." is a dist path only when it is `dist` |
| NoImportDist.OnImport | src/rules/no-import-dist.ts:27-37 | one report, carrying the path, exactly for a dist path |
| NoImportDistExamples.ParentDist | src/rules/no-import-dist.test.ts:11 | `../dist/a` is reported |
| NoImportDistExamples.BareDist | src/rules/no-import-dist.test.ts:13 | `dist` is reported |
| NoImportDistExamples.CurrentDist | src/rules/no-import-dist.test.ts:14 | `./dist` is reported |
| NoImportDistExamples.PackageDistAllowed | src/rules/no-import-dist.test.ts:7 | `floating-vue/dist/foo.css` is accepted |
| NoTopLevelAwait.InsideFunctionIffAncestor | src/rules/no-top-level-await.ts:24-30 | the parent walk finds a function exactly when some proper ancestor is a function |
| NoTopLevelAwait.OnAwait | src/rules/no-top-level-await.ts:23-35 | the `while` walk reports exactly the awaits that are not inside a function |
| NoTopLevelAwaitExamples.InFunctionAccepted | src/rules/no-top-level-await.test.ts:6 | an await in an async function body is accepted |
| NoTopLevelAwaitExamples.AfterFunctionReported | src/rules/no-top-level-await.test.ts:17-23 | a function declared before a top-level await does not shield it |
| NoTopLevelAwaitExamples.InObjectReported | src/rules/no-top-level-await.test.ts:24-28 | an await inside a top-level object literal is reported |
| NoTopLevelAwaitExamples.Listeners | src/rules/no-top-level-await.ts:23-35 | run over the four test trees, the listener reports the first, third and fourth and not the second |

## Left out

- The host's token, comment and position services are not modelled. This covers `getTokenBefore/After`, `getFirstToken`, `getCommentsBefore/After`, `tokensAndComments`, `getLocFromIndex`, `getIndexFromLoc` and `sourceCode.lines`. Their answers are inputs: item and token lines and offsets, `commentBefore`/`commentAfter` flags, the token positions a listener passes to `check`, and the lines of the source.
- `context.report` and the fixer are not modelled. A report is a value, and a fix is a list of `Layout.Edit`s. The report `loc`, the `data` of messages (such as the node type name in chaining reports) and the message texts are left out.
- The host applies fixes over several passes and resolves conflicts between rules. Neither is modelled: `Layout.ApplyAll` applies the ordered, disjoint edits of one pass.
- The regular expressions are restated as explicit string functions: `/(\r\n|\n)/g`, `/(?:,|;)$/`, `/^\s*/` and `/\/dist(\/|$)/`.
- Node identity is modelled as follows:
  - **chaining and no-top-level-await:** a node is an index into a parent-linked node table;
  - **curly:** the "parent's alternate is this node" test compares statements structurally, where the source compares object identity;
  - **no-top-level-await examples:** the awaited call is left out of the example trees, because the walk only goes up.
- Curly.CheckReports: it follows the code, so a multi-line `if` condition with a single-line body is not wrapped (`CurlyExamples.MultilineConditionNotWrapped`). The rule's test "multiline-test" (src/rules/curly.test.ts:151-168) expects braces there. `requireCurly` (src/rules/curly.ts:24-35) looks only at the bodies, so the model follows the code rather than that test.
- ObjectNewline.RemoveNewlines: it follows the code, which deletes only "\n". On CRLF input the "\r" of each pair is kept.
- Chaining.ChainRule.OnMemberExpression: it keeps the root climb as written, so a chain containing a non-null assertion can be handled twice (see Findings); the corrected climb is `Chaining.WrappedRoot`.
- Chaining.ChainRoot: the root climb goes through any `CallExpression` parent. This includes a call that the member access is an argument of, exactly as src/rules/consistent-chaining.ts:53 does.
- Offsets, columns and string lengths count Unicode scalar values, since a Dafny `string` is a sequence of them. ESLint ranges, `text.slice` and columns count UTF-16 code units. The two differ on text outside the Basic Multilingual Plane, and a lone surrogate cannot be represented. The model's offsets agree with the host's only on text within that plane.
- JSON-schema, `meta`, messages, and the type-level `exportType` helper: these are declarations with no behaviour.
- src/utils.ts (rule-creator wrapper) and src/index.ts (rule registry) are not part of this model. They hold no rule logic.
- src/rules/no-const-enum.ts and the rules whose implementation files are not present (indent-unindent, if-newline, import-dedupe, no-import-node-modules-by-path, no-ts-export-equal, generic-spacing) are not part of this model.
- scripts/eslint-v10.ts, build.config.ts and eslint.config.js are not part of this model. They contain file I/O and configuration.

## Findings

| source | as written | input that shows it | evidently intended | confidence | as-written member | corrected member |
|---|---|---|---|---|---|---|
| src/rules/consistent-chaining.ts:53 | the root climb passes only member-access and call parents, while the link collection (lines 73-76) also descends through non-null assertions | `foo()\n  .bar().baz!.qux()`: the climb from `.baz` stops below the `!`, so `.bar` and `.baz` form a second chain whose root is not yet known, and `.baz` is reported twice | the climb also passes non-null assertions, so every collected link has the root it was collected from and each chain is handled once | medium, not executed | ChainingNonNullExample.HandleNonNullChain | Chaining.WrappedRootsPartitionLinks |
