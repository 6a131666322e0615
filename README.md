# Delta-to-outline normalizer, modelled and proved in Dafny

The backend stores weekly reports whose feature list is typed in a rich-text
editor as a bulleted or numbered outline. The editor hands over a *delta*: a
flat sequence of insert operations. A list line ends at an insert of exactly
`"\n"` that carries a `list` attribute, and its nesting is recorded only as an
`indent` number. `parsedDeltaToFeatures` (src/server/utils/normalize.ts) turns
such a delta into a forest of `FeatureNode`s `{ value, children? }`, using a
stack of open nodes to decide which earlier line is each line's parent.
`createProject` wraps the result into a new project that is on track.

The model has seven modules:

- `Wrappers`: an `Option` for the editor's optional JSON fields.
- `JsString`: `String.prototype.trim`, with the whole ECMAScript set of
  white space and line terminators, and `replace(/\n/g, "")`.
- `Seqs`: a few sequence facts stated once for any element type.
- `DeltaLines`: the delta datatypes and the lines a delta spells out.
  `SplitLines` reads the delta segment by segment. Each segment runs up to a
  list-terminating break; blank segments are dropped; ops after the last
  break end no line.
- `Outline`: the `FeatureNode` output type and a reference definition of
  which forest a sequence of indented lines stands for. `Build` is a
  recursive descent: the first line heads the block of deeper lines after it.
  `Insert` places one line the way the stack does. `BuildSnoc` proves the two
  agree on every prefix. Parents are characterised independently: for each
  line, the nearest earlier line indented strictly less (`ParentOf`).
- `Spine`: how the normalizer's stack and the finished roots together stand
  for the outline built so far. The stack is the right spine of the outline.
- `Normalize`: the normalizer as an imperative loop over the ops.
  - It has the same accumulators (`currentText`, `currentIndent`), the same
    stack of `{ node, indent }` entries and the same branches.
  - It is proved to return `Features(ops) = Strip(Build(SplitLines(ops)))`.
  - Properties of the returned forest are proved about that function: every
    value is trimmed and non-blank, pre-order is document order, ties in
    indent make siblings, and each node's parent is the nearest shallower
    earlier line.
- `Scenarios`: worked deltas and the forests they yield. Each is proved from
  the general lemmas, for any well-formed texts: a flat list, one level of
  nesting, a dedent back to the root, an indent tie, a blank line, a line
  typed as two inserts, and a break without an indent of its own.

One point where the code decides what a design description might state
differently: when the terminating break carries no indent, or indent `0`,
the code does not place the line at indent 0. `if (op.attributes?.indent)`
(normalize.ts:52) is false then, and the line keeps `currentIndent`: the
indent of the last plain insert since the previous break (normalize.ts:82),
or 0 when there was none. The model follows the code (`LineIndent`,
`DeltaLines.LineEnded`, `Scenarios.PendingIndentApplies`).

## Model

| member | source | states |
|---|---|---|
| Normalize.ParsedDeltaToFeatures | src/server/utils/normalize.ts:37-87 | the forest returned for any delta is `Features(ops)`, the reference outline of the non-blank lines the ops spell out, indents dropped |
| Normalize.CreateProject | src/server/utils/normalize.ts:89-95 | a new project has status ON_TRACK, keeps the given name, and holds the normalized features of its delta |
| Normalize.ReplayOp | src/server/utils/normalize.ts:44-83 | one pass of the loop body keeps the accumulators equal to the text and indent pending after the ops so far, and keeps stack and roots standing for the outline of the lines so far; a plain op or a blank line leaves stack and roots unchanged |
| Normalize.EndLine | src/server/utils/normalize.ts:45-79 | at a list-terminating break, blank trimmed text changes nothing; otherwise stack and roots stand for the outline with the trimmed line inserted at the break's truthy indent, or else at the pending one |
| Normalize.PopDeeper | src/server/utils/normalize.ts:56-61 | after popping, every remaining entry is indented less than the new line, the stack never grew, stack and roots still stand for the same outline, and the level where the new line goes ends with a node indented at least as deep |
| Normalize.PlaceLine | src/server/utils/normalize.ts:56-75 | the new line becomes the top entry with no children yet, every entry below it is shallower, and stack and roots stand for the outline with the line placed by `Insert` |
| Normalize.CloseAll | src/server/utils/normalize.ts:63-86 | folding every open entry into the one below it yields exactly the outline the stack and roots stand for |
| Normalize.Finish | src/server/utils/normalize.ts:84-86 | after the last op, the pending text is discarded and the result is `Features(ops)` |
| Normalize.OutlineSnoc | src/server/utils/normalize.ts:45-83 | one more op changes the reference outline only when it is a break after non-blank text, and then by inserting that line at its effective indent |
| Normalize.ReplayStep | src/server/utils/normalize.ts:45-83 | replaying one op as the loop body does keeps accumulators and outline in step with the ops replayed, in each of the three branches |
| Normalize.FeatureValuesWellFormed | src/server/utils/normalize.ts:47-50 | every value in the returned forest is non-blank, has no leading or trailing white space, and holds no line feed |
| Normalize.FeatureCount | src/server/utils/normalize.ts:45-50 | the forest has exactly one node per list-terminating break whose pending text is not blank |
| Normalize.FeaturesInDocumentOrder | src/server/utils/normalize.ts:63-75 | read in pre-order, the forest lists the lines' texts in the order of their breaks: no line is lost, added or reordered |
| Normalize.FeatureParents | src/server/utils/normalize.ts:56-75 | read in pre-order, each node's parent is the nearest earlier line indented strictly less, and a node with no such line is a root |
| Normalize.ChildDeeperThanParent | src/server/utils/normalize.ts:56-66 | a line is a root exactly when no earlier line is shallower; otherwise its parent comes earlier, is strictly shallower, and every line between them is at least as deep |
| Normalize.EqualIndentSiblings | src/server/utils/normalize.ts:56-59 | a line indented exactly as deep as the one before it has the same parent: equal indents never nest |
| Normalize.LeavesHaveNoChildren | src/server/utils/normalize.ts:69-73 | no node in the result carries an empty `children` array |
| Normalize.NoTerminatorNoFeatures | src/server/utils/normalize.ts:44-86 | a delta without a list-terminating break yields an empty forest |
| Normalize.TrailingTextDropped | src/server/utils/normalize.ts:80-86 | ops after the last list-terminating break do not change the result |
| Normalize.BlankTerminatorAddsNothing | src/server/utils/normalize.ts:47-49 | a break after white-space-only text adds no node |
| Normalize.NewRootIffShallowest | src/server/utils/normalize.ts:56-66 | a break after non-blank text appends a new last root leaf if and only if its line is indented no deeper than every earlier line |
| DeltaLines.NextTerminatorSpec | src/server/utils/normalize.ts:45 | the position found is the first list-terminating break: none comes before it, and it is one unless it is the end |
| DeltaLines.SplitSnoc | src/server/utils/normalize.ts:45-83 | one more op: a break adds the line of the pending ops, if any, and empties them; any other op adds no line and joins the pending ops |
| DeltaLines.SplitLinesSnoc | src/server/utils/normalize.ts:45-83 | the lines of one more op are the old lines, followed by the pending line when the op is a break |
| DeltaLines.PendingSnoc | src/server/utils/normalize.ts:78-82 | a break empties the pending ops; any other op is appended to them |
| DeltaLines.AccumulatorsSnoc | src/server/utils/normalize.ts:78-82 | a break resets the text to "" and the indent to 0; any other op appends its text, line feeds removed, and sets the indent to its own or 0 |
| DeltaLines.PendingIsTail | src/server/utils/normalize.ts:78-82 | the pending ops are exactly the suffix after the last break: it holds no break and, unless it is all of the delta, a break comes just before it |
| DeltaLines.ConcatNoNewline | src/server/utils/normalize.ts:81 | the accumulated text never holds a line feed |
| DeltaLines.LineOfWellFormed | src/server/utils/normalize.ts:47-50 | the line a break ends, if any, is non-blank, trimmed and free of line feeds |
| DeltaLines.LinesWellFormed | src/server/utils/normalize.ts:47-50 | every line of a delta is non-blank, trimmed and free of line feeds |
| DeltaLines.LineEndsSnoc | src/server/utils/normalize.ts:45-50 | one more op adds its position to the set of line-ending breaks exactly when it is a break after non-blank text |
| DeltaLines.LineCount | src/server/utils/normalize.ts:45-50 | there is one line per list-terminating break whose pending text is not blank |
| DeltaLines.NoTerminatorNoLines | src/server/utils/normalize.ts:44-86 | without a list-terminating break there are no lines |
| DeltaLines.TrailingOpsEndNoLine | src/server/utils/normalize.ts:80-86 | ops without a break, appended to a delta, add no line |
| DeltaLines.BlankLineDropped | src/server/utils/normalize.ts:47-49 | a break after white-space-only text ends no line |
| DeltaLines.LineEnded | src/server/utils/normalize.ts:47-53 | a break after non-blank text ends exactly one line: the trimmed text, at the break's indent when that is truthy, otherwise at the last pending insert's indent, or 0 when there is none |
| Outline.BelowSpec | src/server/utils/normalize.ts:56-61 | the position found is indented less than the bound, and every line after it and before the start is at least as deep |
| Outline.BlockEndSpec | src/server/utils/normalize.ts:56-61 | a line's block holds only deeper lines and stops at the first line that is not deeper |
| Outline.BuildSnoc | src/server/utils/normalize.ts:56-75 | the reference outline of one more line is the old outline with that line placed by the stack discipline (`Insert`) |
| Outline.BuildPreorder | src/server/utils/normalize.ts:63-75 | the pre-order values of the reference outline are exactly the lines' texts, in order |
| Outline.BuildParents | src/server/utils/normalize.ts:56-75 | in pre-order, the reference outline gives each line the nearest earlier line indented strictly less as its parent |
| Outline.StripNoEmptyChildren | src/server/utils/normalize.ts:69-73 | dropping indents never produces an empty `children` array |
| Outline.StripLength | src/server/utils/normalize.ts:63-75 | dropping indents keeps the number of roots |
| Outline.LastRootIsShallowest | src/server/utils/normalize.ts:56-64 | the last root of a non-empty outline is one of its lines and is indented no deeper than any line |
| Outline.NewRootIff | src/server/utils/normalize.ts:56-66 | a new line becomes a new last root if and only if no earlier line is indented less |
| Outline.NewRootIffRead | src/server/utils/normalize.ts:56-66 | the same, read back without indents: the returned forest gains a final leaf if and only if no earlier line is shallower |
| Outline.InsertKeepsRoots | src/server/utils/normalize.ts:63-73 | placing a line adds a root when there are no roots or the last root is at least as deep, and otherwise keeps the number of roots |
| Outline.EqualIndentIsSibling | src/server/utils/normalize.ts:56-59 | a line as deep as the one before it has the same parent |
| Outline.ParentIsNearestShallower | src/server/utils/normalize.ts:56-66 | a line has no parent exactly when no earlier line is shallower; otherwise its parent is shallower and no line in between is |
| Spine.PopFrame | src/server/utils/normalize.ts:60 | a pop removes the top entry, keeps every other entry's value and indent and every entry below the new top, and gives the roots a new node only when the stack held one entry |
| Spine.RepresentsPop | src/server/utils/normalize.ts:56-61 | a pop keeps stack and roots standing for the same outline, and the popped entry was the last node of its level |
| Spine.RepresentsPush | src/server/utils/normalize.ts:63-75 | pushing a line above shallower entries, where the level ends at least as deep, stands for the outline with the line inserted, and the new top has no children |
| Spine.SpinePush | src/server/utils/normalize.ts:67-74 | pushing a line above shallower entries, where the level ends at least as deep, extends the spine by that line, and the tree it stands for is the old one with the line placed by `Insert` |
| Spine.SpineFold | src/server/utils/normalize.ts:60 | folding the top entry into the one below keeps the spine standing for the same tree, and the level it came from ends with a node at the popped entry's indent |
| JsString.TrimStartSpec | src/server/utils/normalize.ts:47 | trimming the start drops a white-space prefix and keeps the rest |
| JsString.TrimEndSpec | src/server/utils/normalize.ts:47 | trimming the end drops a white-space suffix and keeps the rest |
| JsString.TrimSpec | src/server/utils/normalize.ts:47 | `trim` yields a slice of its argument that neither starts nor ends with white space, cut off at both ends only by white space |
| JsString.TrimEmptyIff | src/server/utils/normalize.ts:47-49 | trimming yields "" if and only if the text is all white space |
| JsString.TrimKeeps | src/server/utils/normalize.ts:47 | every character of the trimmed text occurs in the text |
| JsString.TrimIdempotent | src/server/utils/normalize.ts:47 | trimming twice is trimming once |
| JsString.StripNewlinesSpec | src/server/utils/normalize.ts:81 | removing line feeds leaves none, and leaves a text without one unchanged |
| JsString.StripNewlinesAppend | src/server/utils/normalize.ts:81 | removing line feeds from each insert as it arrives equals removing them from the joined text |
| Scenarios.OneLine | src/server/utils/normalize.ts:45-82 | a single insert of well-formed text followed by a break, after a break or at the start, ends one line with that text at that indent, and leaves nothing pending |
| Scenarios.TwoInserts | src/server/utils/normalize.ts:80-82 | two inserts without a break end no line and stay pending, their texts joined |
| Scenarios.FlatList | src/server/utils/normalize.ts:56-65 | two lines at indent 0 give two roots, in order |
| Scenarios.OneLevelNesting | src/server/utils/normalize.ts:63-75 | a line at indent 1 after one at indent 0 becomes its only child |
| Scenarios.DedentBackToRoot | src/server/utils/normalize.ts:56-65 | a line at indent 0 after one at indent 1 is a second root, not a child |
| Scenarios.EqualIndentTie | src/server/utils/normalize.ts:56-75 | two lines at indent 1 below one at indent 0 are both its children, the second not nested in the first |
| Scenarios.BlankLineSkipped | src/server/utils/normalize.ts:47-49 | a white-space-only line yields an empty forest |
| Scenarios.LineAcrossInserts | src/server/utils/normalize.ts:81 | a line typed as two inserts is one node holding both texts joined |
| Scenarios.PendingIndentApplies | src/server/utils/normalize.ts:52-54 | a break without an indent places its line by the indent of the insert before it, so that line nests |

## Left out

- I/O and callers are not part of this model: the HTTP handlers and database
  calls in src/server/main.ts and src/server/db.ts, and the parsing of the
  delta from JSON. The model starts from a parsed `Delta`.
- Non-string inserts: the declared type makes every `insert` a string. The
  `typeof op.insert === "string"` guard (normalize.ts:80), which would skip
  embeds, is therefore always true in the model.
- Indents are integers. A non-integer, `NaN` or non-number `indent` is not
  modelled. Truthiness is modelled as "present and non-zero".
- The `list` attribute is one of its two string values, both truthy. Other
  values the JSON might carry are not modelled.
- JavaScript strings are UTF-16 code units; Dafny strings hold Unicode
  scalar values. Strings with lone surrogates are not modelled. Every
  character `trim` and the line-feed replacement look at lies in the Basic
  Multilingual Plane, so the two agree on all other strings.
- Node identity and aliasing: the source links a new node into its parent's
  `children` array (or the roots) when it is pushed, and appends to that
  array later through the stack. The model keeps each open entry's children
  in the entry and links it into the entry below when it is popped, or at
  the end. `Normalize.CloseAll` folds the remaining entries. The returned
  forest is the same; object identity is not modelled.
- The loop body is split into the helper methods `ReplayOp`, `EndLine`,
  `PlaceLine`, `PopDeeper`, `Finish` and `CloseAll`. Each keeps the source's
  branches and order.
- `Status` lists all four values of normalize.ts:1-5; only `ON_TRACK` is ever
  produced. `ProjectFromFe` (normalize.ts:18-23) is not used by the core and
  is not modelled.
- The scenario lemmas fix the indents and the list kind but leave the texts
  arbitrary. They are stated for well-formed texts, which are non-blank,
  trimmed and free of line feeds.
