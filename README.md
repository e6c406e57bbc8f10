# typescript-labo parser: a verified model

`src/parser.ts` is a small command-line tool that parses a TypeScript/TSX file
with the TypeScript compiler, flattens the syntax tree into an array of
`LineInfo` records (one per node and one per leading comment, each with its
depth `level`), and then answers every later question by index arithmetic over
that array: `TreeParser` offers three level-bounded scans (`nextFunction`,
`nextFind`, `prevFind`), `scanJsxFunctions` prints the function and
arrow-function components that contain JSX, `scanJsxElements` builds an outline
of return statements, components and JSX elements and compacts its depths with
a stack, and the default `src` mode writes the source back out from the leaf
records.

This project models that core in Dafny:

| file | module | models |
|---|---|---|
| `records.dfy` | `Records` | the `LineInfo` record, `Option`, the "export " mark both scans print, the string `indexOf` and the `indexOf(k) === 0` prefix test built on it |
| `text.dfy` | `Text` | `substring`, repeated writes of one character, `indent` |
| `flattener.dfy` | `Flattener` | `scanAllChildren`, as a recursive method appending to a shared record array, proved equal to a functional preorder flattening |
| `tree_parser.dfy` | `TreeParser` | `nextFunction`, `nextFind` (single kind and list of kinds), `prevFind`, each a loop proved equal to a recursive function whose meaning is proved separately |
| `jsx_functions.dfy` | `JsxFunctions` | `scanJsxFunctions` |
| `level_compaction.dfy` | `LevelCompaction` | the `ScanNode` entry and the depth compaction at the end of `scanJsxElements` |
| `jsx_elements.dfy` | `JsxElements` | the entry-collecting loop of `scanJsxElements` |
| `source_replay.dfy` | `SourceReplay` | the `src`-mode regeneration loop |
| `examples.dfy` | `Examples` | hand-built record arrays showing the export-lookup leak, the skipped sibling declaration, compaction and the replay |

The TypeScript compiler is reduced to a `Flattener.Node` value holding what the
walk reads from a node (kind name, `pos`, `end`, leading-trivia width, full text,
text, leading comment ranges, children) and a function `lineOf` from offsets to
line numbers. Console output is returned: `scanJsxFunctions` returns its printed
lines, the replay returns the written text (`console.log('')` is one `"\n"`).

The model keeps these behaviours of the code:

- The export lookup of a `FunctionDeclaration` (`nextFind(i, 'ExportKeyword')`,
  `src/parser.ts:141`) does not stop at records of the declaration's own level,
  so it runs on into later sibling statements; a plain function followed by an
  exported one is reported as exported (`Examples.LookupsOnTwoDeclarations`,
  `Examples.ComponentsOfTwoDeclarations`). The outline entry stores the string
  "export " or "" as its export mark (`src/parser.ts:185-190`).
- `scanJsxFunctions` sets `i = nextFunction(…)` (`src/parser.ts:146`, `161`) and
  the loop's `i++` then moves one record further: after a declaration the next
  turn is one past the end of the declaration's span, after an arrow-function
  variable statement one past the end of the arrow function's span, and the
  record at the span end, which may be the next sibling declaration, is never
  examined (`JsxFunctions.StepSound`, `Examples.ComponentsOfTwoDeclarations`).
- A `FunctionDeclaration` in which the identifier lookup finds no record (it
  too runs on past the declaration's own level, and fails only when it meets a
  shallower record or the end of the array before any `Identifier`) makes
  both scans read a field of the undefined `nodes[-1]` and throw a TypeError:
  `scanJsxFunctions` in the JSX lookup from index -1 (`src/parser.ts:143`,
  `116-119`), `scanJsxElements` at `nodes[t].text` (`src/parser.ts:191`); this
  is an explicit error outcome
  (`thrownAt` in `JsxFunctions`, `Result.TypeError` in `JsxElements`). No other
  record makes a scan fail.
- `prevFind` returns 0 when its scan runs off the start of the array, the same
  value as a match at record 0 (`src/parser.ts:110`).
- Depth compaction gives -1 to an entry whose raw depth lies below the bottom of
  the stack, since every level is popped and `indexOf` then finds nothing
  (`LevelCompaction.DropsOut`).
- The `src` replay resets `pos` to the record's `pos` when it moves to a new
  line (`src/parser.ts:302`), so the spaces that indent a record on a new line
  are never written and `src` mode does not reproduce indented source
  (`Examples.ReplayLosesIndentation`).

## Model

| member | source | states |
|---|---|---|
| Records.OccurrenceFrom | src/parser.ts:120 | the string search from an offset returns the first offset at or after it where the substring occurs, or -1 when there is none |
| Records.FirstOccurrence | src/parser.ts:120 | `String.prototype.indexOf` returns the first offset where the substring occurs, or -1 |
| Records.StartsWithIsFirstOccurrence | src/parser.ts:108-120 | the lookups' test `kind.indexOf(k) === 0` holds exactly when the kind name begins with `k` |
| Text.Substring | src/parser.ts:35 | the comment text: for bounds inside the string, the slice between them whichever order they come in |
| Text.SubstringClamps | src/parser.ts:35 | a negative bound acts as 0 and a bound past the end as the string's length, so together with `Substring` the result is fixed for all bounds |
| Text.Repeat | src/parser.ts:299-307 | a loop writing one character `n` times writes exactly `max(n, 0)` copies of it |
| Text.Indent | src/parser.ts:19 | `indent(level)` exists exactly for `0 <= level <= 2^32-1` (otherwise `new Array` throws) and is then `2*level` spaces |
| Text.UnitsAreSpaces | src/parser.ts:19 | joining `n` copies of two spaces gives `2n` spaces |
| Flattener.CommentRecordsSpec | src/parser.ts:33-55 | one comment record per comment range, in order, each built from its range |
| Flattener.RecordArray.constructor | src/parser.ts:288 | the shared result array starts empty |
| Flattener.RecordArray.Push | src/parser.ts:43-79 | `result.push` appends exactly one record (the comment push at line 43 and the node push at line 68) |
| Flattener.PushComments | src/parser.ts:33-55 | the `trivias.forEach` loop appends the node's comment records and nothing else |
| Flattener.ScanAllChildren | src/parser.ts:21-83 | the recursive walk appends exactly the preorder flattening of the node to what the array held |
| Flattener.ScanChildren | src/parser.ts:81-82 | the `children.forEach` loop appends the flattening of every child, one level deeper, in order |
| Flattener.Linearize | src/parser.ts:288-289 | the walk from the root at depth 0 with parent position -1 yields the flattening of the root |
| Flattener.FlattenLevels | src/parser.ts:21-83 | a node's comment records come right before its own record, all at the recursion depth, and every later record of its subtree is deeper |
| Flattener.FlattenChildrenLevels | src/parser.ts:81-82 | sibling subtrees are at the child depth or deeper and start at the child depth |
| Flattener.FlattenFlags | src/parser.ts:45-79 | every record, comment or node, has `hasNodes == !element` |
| Flattener.FlattenChildrenFlags | src/parser.ts:81-82 | the same for the records of the children |
| Flattener.LeadingRecordsShape | src/parser.ts:31-56 | comments are emitted only when the node does not start at its parent's `pos` and has leading trivia, then one per range, each an element without children at the node's depth |
| Flattener.FlattenWellNested | src/parser.ts:21-83 | going one record forward the level rises by at most one, and only after a record whose node has children |
| Flattener.FlattenChildrenWellNested | src/parser.ts:81-82 | the same for the records of the children |
| Flattener.ChildrenFollowNode | src/parser.ts:80-82 | nothing is emitted below a `JSDocComment` or a leaf; otherwise the first child's records follow the node's record one level deeper |
| Flattener.SpanEndOfFlattened | src/parser.ts:90-100 | wherever a subtree's records sit, when the record after the subtree is no deeper than the node, `nextFunction` from the node's record returns the index just past its last descendant |
| TreeParser.SpanEnd | src/parser.ts:90-100 | the span end of record `i` lies in `(i, length]` |
| TreeParser.SpanEndSpec | src/parser.ts:90-100 | every record strictly inside the span is deeper than record `i`, and the record at the span end, if any, is not |
| TreeParser.SpanEndUnique | src/parser.ts:90-100 | those two facts determine the span end |
| TreeParser.NextFunction | src/parser.ts:90-100 | the `nextFunction` loop returns the span end |
| TreeParser.FindForward | src/parser.ts:115-123 | `findCore` returns -1 or an index after `i` |
| TreeParser.FindForwardSpec | src/parser.ts:115-123 | the result is the first later record whose kind begins with the prefix, with no shallower record before it (equal-level siblings do not stop the scan); -1 means no in-scope record matches |
| TreeParser.NextFind | src/parser.ts:115-123 | the `findCore` loop returns the forward search result |
| TreeParser.FindPath | src/parser.ts:124-130 | the list form returns `i` for an empty list, and an index after `i` or -1 otherwise |
| TreeParser.FindPathEndsAtLastKind | src/parser.ts:124-130 | a successful list search ends at a record of the last kind in the list |
| TreeParser.FindPathSingle | src/parser.ts:124-131 | a one-element list searches exactly as the single kind does |
| TreeParser.FindPathAppend | src/parser.ts:124-130 | searching a concatenated list is searching the first part, then the second from where the first stopped, and -1 as soon as a step fails |
| TreeParser.NextFindPath | src/parser.ts:124-130 | the loop over the list returns the list search result |
| TreeParser.FindBackward | src/parser.ts:102-111 | `prevFind` returns -1, an index before `i`, or 0 |
| TreeParser.FindBackwardSpec | src/parser.ts:102-111 | the result is the nearest earlier matching record with no shallower record between; -1 when a shallower record comes first, even one whose own kind matches; 0 when the scan runs off the start with nothing matching |
| TreeParser.FindBackwardAtStart | src/parser.ts:105-110 | the backward search from record 0 returns 0 |
| TreeParser.FindBackwardOffStart | src/parser.ts:105-110 | with nothing shallower and nothing matching before `i`, the result is 0 |
| TreeParser.PrevFind | src/parser.ts:102-111 | the `prevFind` loop returns the backward search result |
| JsxFunctions.Lines | src/parser.ts:144 | one printed line per reported component, "export " or nothing followed by the name |
| JsxFunctions.DeclarationStep | src/parser.ts:139-147 | a function-declaration turn throws or moves the loop strictly forward |
| JsxFunctions.ArrowStep | src/parser.ts:148-162 | an arrow-function turn moves the loop strictly forward |
| JsxFunctions.StepAt | src/parser.ts:137-163 | every turn that does not throw moves the loop index strictly forward |
| JsxFunctions.StepSound | src/parser.ts:137-162 | a turn prints at most one line, explained by its export, identifier and JSX lookups; the next turn starts at one past the end of the declaration's span for a function declaration, one past the end of the arrow function's span for a variable statement with an arrow function, and at the next record otherwise; a turn throws only at a declaration whose identifier lookup fails |
| JsxFunctions.StepComplete | src/parser.ts:139-163 | conversely, a declaration turn whose identifier lookup succeeds prints exactly when the JSX lookup from the identifier succeeds; an arrow-function turn prints exactly when the backward identifier lookup succeeds and a `JsxElement` or `JsxSelfClosingElement` follows it; any other record prints nothing and moves to the next record |
| JsxFunctions.ComponentsFromReported | src/parser.ts:135-165 | every printed component is explained by its lookups and comes from a record at or after the loop index |
| JsxFunctions.ComponentsFromOrdered | src/parser.ts:146-161 | each printed component lies after the span skipped once the previous one was printed |
| JsxFunctions.ComponentsFromThrown | src/parser.ts:142-143 | the scan throws only at a declaration whose identifier lookup fails, after every printed component |
| JsxFunctions.LinesInRecordOrder | src/parser.ts:135-165 | the printed lines are in record order, each "export " or nothing followed by the text of the record the lookups chose |
| JsxFunctions.DeclarationTurn | src/parser.ts:139-147 | the loop body for a function declaration computes that turn |
| JsxFunctions.ArrowTurn | src/parser.ts:149-162 | the loop body for an arrow-function variable statement computes that turn |
| JsxFunctions.ScanJsxFunctions | src/parser.ts:135-165 | the loop prints exactly the lines of the component scan and throws where it does |
| LevelCompaction.IndexOf | src/parser.ts:258 | `indexOf` gives the first position holding the value, or -1 when none does |
| LevelCompaction.SettleSpec | src/parser.ts:249-257 | on any stack the inner loop pops the depths above the raw depth off the top: the stack empties exactly when every depth in it is above the raw depth, and otherwise ends with the raw depth on top of a prefix of the old stack, at most one depth longer |
| LevelCompaction.EnterSpec | src/parser.ts:248-257 | an entry on an empty stack leaves just its own depth; otherwise the stack empties exactly when every depth in it is above the entry's, and else ends with the entry's depth on top of a prefix of the old stack |
| LevelCompaction.Compact | src/parser.ts:245-261 | one new depth per entry |
| LevelCompaction.SettleShape | src/parser.ts:249-257 | the inner loop keeps the stack strictly increasing, leaves the raw depth on top unless it empties the stack, empties it exactly when the raw depth is below its bottom, grows it by one only when its top was lower |
| LevelCompaction.IndexOfTop | src/parser.ts:258 | on a strictly increasing stack ending in the raw depth, `indexOf` gives the last position |
| LevelCompaction.CompactShape | src/parser.ts:246-258 | after every entry the stack is strictly increasing, ends with the entry's raw depth unless empty, and the new depth is the stack height less one |
| LevelCompaction.CompactPrefix | src/parser.ts:247-260 | the depths given to earlier entries do not depend on later ones |
| LevelCompaction.CompactStep | src/parser.ts:247-258 | an entry's new depth comes from the stack left by the entries before it |
| LevelCompaction.FirstLevelZero | src/parser.ts:248 | the first entry gets depth 0 |
| LevelCompaction.NestingPreserved | src/parser.ts:248-258 | an entry is at most one level deeper than the one before; exactly one deeper when its raw depth is greater, as deep when equal, no deeper when smaller (the last two unless the earlier entry got -1) |
| LevelCompaction.LevelBounds | src/parser.ts:245-261 | every new depth lies between -1 and the entry's position |
| LevelCompaction.DropsOut | src/parser.ts:249-258 | the new depth is -1 exactly when the raw depth is below the bottom of the stack left by the earlier entries |
| LevelCompaction.NoDropWhenFirstIsLowest | src/parser.ts:245-261 | when no raw depth is below the first, no entry gets -1 and the stack's bottom stays the first raw depth |
| LevelCompaction.SettleRange | src/parser.ts:249-257 | settling the stack `0..n-1` on a depth `l` in `[-1, n]` leaves `0..l` |
| LevelCompaction.RecompactStep | src/parser.ts:247-258 | one entry in a second pass over compacted depths moves the stack `0..h-1` along with the first pass and gives the same depth |
| LevelCompaction.CompactTwice | src/parser.ts:245-261 | compacting the compacted depths again changes nothing |
| LevelCompaction.CompactEntry | src/parser.ts:247-259 | the `map` callback with its `while (true)` loop leaves the stack as one entry's update makes it and gives the entry the `indexOf` of its raw depth in that stack, keeping every other field |
| LevelCompaction.CompactLevels | src/parser.ts:245-261 | the `map` over all entries, sharing the stack, gives each entry its compacted depth and keeps every other field |
| JsxElements.SlotThrows | src/parser.ts:184-191 | a record throws exactly when it is a function declaration whose identifier lookup fails |
| JsxElements.SlotSpec | src/parser.ts:179-243 | a record gives an entry exactly when it is a return statement, function declaration, JSX element, self-closing JSX element or a variable statement with an arrow function, and is not a declaration whose identifier lookup fails; the entry carries the raw level and the kind (the arrow function's for a variable statement); a declaration's export mark is "export " exactly when its `ExportKeyword` lookup succeeds and its name is the text of the identifier found; a variable statement's mark follows its `SyntaxList`/`ExportKeyword` path lookup and it has a name exactly when the backward identifier lookup from the arrow succeeds, the text of that record; a JSX element or self-closing element has no mark and a name exactly when its path lookup succeeds, the text of that record; a return statement has neither |
| JsxElements.RawOutlineThrows | src/parser.ts:184-191 | the scan throws at the first declaration whose identifier lookup fails, and only if there is one |
| JsxElements.RawOutlineEntries | src/parser.ts:177-243 | without a throw there is one entry per selectable record, in record order, each with the level, kind, export mark and name its record's lookups give, as for `SlotSpec` |
| JsxElements.OriginsIncreasing | src/parser.ts:177 | the records behind the entries are in strictly increasing order |
| JsxElements.OutlineSpec | src/parser.ts:174-261 | the result is a TypeError at the first declaration whose identifier lookup fails iff one exists, otherwise one entry per selectable record with its compacted depth and the kind, export mark and name its record's lookups give |
| JsxElements.VisitRecord | src/parser.ts:178-243 | the loop body computes the record's contribution |
| JsxElements.ScanJsxElements | src/parser.ts:174-261 | the whole function returns the outline or the TypeError |
| SourceReplay.Gap | src/parser.ts:298-308 | a record on another line is preceded by `max(0, line - currentLine)` newlines and no spaces; a record on the same line by `max(0, pos - currentPos)` spaces |
| SourceReplay.OnlyElementsMatter | src/parser.ts:297 | dropping the non-element records writes the same text and ends at the same cursor |
| SourceReplay.FinalCursor | src/parser.ts:310-311 | the cursor ends at the `endl` and `end` of the last element record, or at (0, 0) |
| SourceReplay.OnlyLayoutAdded | src/parser.ts:296-314 | with spaces and newlines removed, the output is the element texts run together |
| SourceReplay.LinesPreserved | src/parser.ts:298-303 | when each element starts no earlier than the previous one ended and its `endl` counts its text's newlines, the output holds exactly as many newlines as the cursor's line |
| SourceReplay.WriteRecord | src/parser.ts:296-313 | the `forEach` callback with its newline and space loops writes one record's layout and text and moves the cursor as one replay step does; non-element records change nothing |
| SourceReplay.Regenerate | src/parser.ts:292-315 | the whole `forEach` writes exactly the replay text |
| Examples.LookupsOnTwoDeclarations | src/parser.ts:141-146 | the export lookup of a plain declaration finds the export keyword of its sibling, and its span ends at that sibling |
| Examples.ComponentsOfTwoDeclarations | src/parser.ts:135-165 | of two JSX declarations only the first is reported, marked exported although only the second is |
| Examples.CompactSiblings | src/parser.ts:245-261 | raw depths 1, 2, 1, 2 become 0, 1, 0, 1 |
| Examples.SlotsOfTwoDeclarations | src/parser.ts:184-228 | both declarations give an entry marked exported; the JSX element records, which have no opening-element record inside them in this hand-built array, get no name |
| Examples.OutlineOfTwoDeclarations | src/parser.ts:174-261 | the outline of the same records, with compacted depths |
| Examples.ReplayLosesIndentation | src/parser.ts:298-309 | a gap on a line becomes spaces, a line change newlines, and the indentation of a record on a new line is lost |

## Left out

- The command line and file I/O in `main` (`src/parser.ts:264-289`): argument parsing, reading the file, `ts.createSourceFile`; the walk starts from a given root `Node`.
- The TypeScript compiler API inside `scanAllChildren` (`getLeadingCommentRanges`, `getLineAndCharacterOfPosition`, `getText`, `getFullText`, `getChildren`, `getLeadingTriviaWidth`, `Debug.formatSyntaxKind`): its results are fields of `Flattener.Node` and the parameter `lineOf`, with no relation between them assumed.
- The unused `startLine` lookup (`src/parser.ts:27-30`), the commented-out `node` field of `LineInfo`, the unused `kind` variable of the replay and the unused `FunctionKeyword` lookup result (computed, which cannot fail, and discarded).
- The `json`, `tree`, `component` and `element` display modes (`src/parser.ts:317-357`): printing only; `component` prints the lines `JsxFunctions.ScanJsxFunctions` returns, and `element` indents by the compacted depth, where `Text.Indent` returns `None` for depth -1 because `new Array(-1)` throws a RangeError.
- `Flattener.ScanAllChildren`: the shared array is a field of one object the walk appends to; aliasing of that array with other variables is not modelled.
- `LevelCompaction.CompactLevels`: the source overwrites `level` in the entry objects it then returns; the model returns new entries with the new levels, which is the same result since the original list is not used afterwards.
- The `TreeParser` object only holds a reference to the record array, which it never changes; its scans take the array as an argument.
- Strings are sequences of Dafny characters (Unicode scalar values), not of the UTF-16 code units JavaScript uses: `substring` offsets, `text.length`, the comment positions derived from them and `indexOf` count characters, which differs from the source for text outside the Basic Multilingual Plane.
- `src/dependency.ts`, `src/scanner.ts`, `src/hello.tsx` and `src/hello.src.tsx` are not part of this model (file-system probing, a scanner demo, and sample inputs).
