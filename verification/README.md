# wcsc-compiler, modelled in Dafny

This project models the stylesheet compiler `wcsc`, the part of the mini-program
toolchain that turns `.wxss` stylesheets into JavaScript. A compile takes a
command line and a list of stylesheet files. It returns either one `=`-separated
string or a path-keyed map. Both hold a version tag, a shared bundle script
(`comm`), and one escaped `setCssToHead(...)` invocation per stylesheet.

The model follows the program's structure, one module per concern:

- `Strings` (strings.dfy): the JavaScript string operations the compiler relies on.
  These are `split`, `join`, `trim`, `indexOf`, `String(n)` and the default
  `sort` order, written out over `seq<char>`.
- `Util` (util.dfy): `escape`/`unescape`, first-match lookup and removal,
  `@import` argument unquoting, and relative-path normalisation.
- `Tokens` (tokens.dfy): the encoded stylesheet (the `file` array).
  - It is a list of tokens: literal text, `[0, n]` rpx lengths, `[1]` scope-suffix markers, and `[2, i]` import references.
  - A `Sink` keeps the literal still being built and flushes it only when a marker interrupts it.
  - It also holds the JSON rendering of a token list.
- `Ast` (ast.dfy): the trees the foreign stylesheet, selector and value parsers produce.
- `SelectorEncoder` (selector.dfy): `ruleSelectorWalker` and `transformRuleSelector`.
- `ValueEncoder` (value.dfy): `transformDeclValueWord`, `isNetUrl`, the value-node walker and `transformDeclValue`.
- `Stylesheet` (stylesheet.dfy): `postcssNodeWalker` and `parseJs`.
- `ImportGraph` (graph.dfy): `dfsNode` and `findRootNodes`, the import-cycle search.
- `Runtime` (runtime.dfy): the fixed runtime script the bundle embeds.
- `CodeGen` (codegen.dfy): `genCode`, `genComm` and `genTemplate`.
- `Driver` (driver.dfy): `parseCmd` and `compile`.
  - File selection and placeholder stylesheets.
  - The encoding pass over all templates.
  - The two output forms.

The encoders are stated over a symbol stream (`Tokens.Sym`): each literal
character is `Ch(c)`, and each marker (`[0, n]`, `[1]` or `[2, i]`) is
`Mark(token)`. So a marker's kind, payload and position are all visible.
Each encoder comes with a reference definition of the stream it stands for.
Examples are `EncodedSelectors`, `EncodedSeq` and `RenderNode`. Each walker is
proved to add exactly that stream to the sink. The reference also fixes the
diagnostic and the import edges the walker must record, and the exact inputs
on which it fails. Two facts tie the stream to the token list:
- a canonical token list is the only canonical list with its stream;
- a valid sink is determined by its stream.

So the proved streams fix the emitted tokens and the pending literal exactly.
Showing a stream with an empty scope suffix gives the plain text
(`PlainSelectors`, `PlainSeq`); this is how the model checks that no text is
lost.

Code generation is stated against the import graph:
- the table takes exactly the templates that stay eligible, numbered 0, 1, 2, … in order;
- every `[2, i]` reference is renumbered to the chunk that holds the imported stylesheet;
- `unescape` gives each escaped output back;
- the cycle search fails exactly when the import graph has a cycle.

Behaviours of the code that are modelled as written:

- **Diagnostic:** a stylesheet's diagnostic is the one of the *last* rule with
  an id or attribute selector, because each offending rule overwrites it
  (postcss-wxss-js.ts:330-332). Within one rule the first offending selector
  wins. `Stylesheet.LastOffenderWins` states the stylesheet-level case.
- **Stale application index:** the application stylesheet's index is taken
  before the file list is cut to `-pc` entries. When `./app.wxss` sorts at or
  past the count, it is moved to the front, but the recorded index still points
  past the end of the list. The bundle's entry lookup then fails
  (index.ts:113-119). `Driver.AppPastCountFails` states this.
- **Subpackage index:** the subpackage stylesheet's index is looked up with the
  empty path, because the path is only set afterwards (index.ts:114, 124-126).
  So whenever `--subpackage` is given and no file is named `""`, an empty
  placeholder is put first and becomes the bundle's entry.
  `Driver.SubpackageEntryIsPlaceholder` states this.
- **Root eligibility:** a root template stays in the chunk table only when it
  is `./app.wxss` and has content. The source's second test, `!file`, never
  holds for an array (codeGen.ts:16).
- **At-rule without a body:** it is written as `@name params`, with no `;`
  (postcss-wxss-js.ts:407-408).
- **Space skipping:** the loop after a space node can only stop at once,
  because the value parser never yields two spaces in a row
  (postcss-wxss-js.ts:281-289). The model moves on by one node.
- **Empty `url()`:** a `url()` with no argument makes the source read a field
  of a missing node. The model reports this as a fatal runtime error.

## Model

| member | source | states |
|---|---|---|
| Util.Escape | packages/wcsc-compiler/src/util.ts:100-137 | the escaped text has no raw quote, ampersand, apostrophe, angle bracket, equals sign or newline, and is never shorter than the input |
| Util.Unescape | packages/wcsc-compiler/src/util.ts:56-98 | unescaping never lengthens the text |
| Util.UnescapeEscape | packages/wcsc-compiler/src/util.ts:56-137 | unescape after escape gives the input back, except that each backslash-newline pair comes back as a backslash and the letter n |
| Util.UnescapeEscapeExact | packages/wcsc-compiler/src/util.ts:56-137 | for text with no backslash-newline pair, unescape after escape is the identity |
| Util.PairDoesNotRoundTrip | packages/wcsc-compiler/src/util.ts:86-106 | the two-character text backslash-newline does not survive escape then unescape |
| Util.GetArrIdx | packages/wcsc-compiler/src/util.ts:45-54 | -1 exactly when no element's field equals the value; otherwise the element at the result matches and no earlier one does |
| Util.GetAndRemoveFromArr | packages/wcsc-compiler/src/util.ts:29-43 | nothing is returned and nothing changes exactly when no element matches; otherwise the first match is returned and removed, and the others keep their order |
| Util.HandleImportPath | packages/wcsc-compiler/src/util.ts:139-147 | the trimmed argument loses one pair of matching surrounding double or single quotes, and is otherwise unchanged |
| Util.UnquoteQuoted | packages/wcsc-compiler/src/util.ts:139-147 | unquoting a quoted path gives the path back |
| Util.NormalizePath | packages/wcsc-compiler/src/util.ts:153-162 | the result always starts with `./`; an absolute target is prefixed with `.`, and a relative one is joined onto the importer's directory |
| Util.ResolutionDependsOnDirectory | packages/wcsc-compiler/src/util.ts:153-162 | importers in the same directory resolve a target alike, and an absolute target resolves alike from every importer and can be read back after the leading `.`; equal relative resolutions mean equal joins |
| Strings.JoinSplit | packages/wcsc-compiler/src/postcss-wxss-js.ts:160-165 | joining the pieces of a split with the separator gives the string back |
| Strings.Trim | packages/wcsc-compiler/src/util.ts:140 | the result is a slice of the input whose cut-off ends are all white space, and it neither starts nor ends with white space |
| Strings.IndexOf | packages/wcsc-compiler/src/postcss-wxss-js.ts:60 | the needle occurs at the result and nowhere before it; -1 when it occurs nowhere |
| Strings.Sort | packages/wcsc-compiler/src/index.ts:112 | the result is a sorted permutation of the file list |
| Tokens.SymsInjective | packages/wcsc-compiler/src/postcss-wxss-js.ts:170-175 | a token list with no empty literal and no two adjacent literals is determined by its stream: equal streams mean equal lists |
| Tokens.CanonicalBySyms | packages/wcsc-compiler/src/postcss-wxss-js.ts:465-468 | a canonical token list is the only canonical list with its stream |
| Tokens.SinkDetermined | packages/wcsc-compiler/src/postcss-wxss-js.ts:171-175 | two valid sinks with the same stream are equal: the pending literal is the run of characters after the last marker |
| Tokens.TextIsShown | packages/wcsc-compiler/src/postcss-wxss-js.ts:465-468 | a token list's text is its stream shown with markers rendered as their text |
| SelectorEncoder.RewriteTag | packages/wcsc-compiler/src/postcss-wxss-js.ts:99-116 | `page` and `Page` become `body`; names already starting with `wx-` are kept; every other name gets the `wx-` prefix |
| SelectorEncoder.KeepFirstAppend | packages/wcsc-compiler/src/postcss-wxss-js.ts:54-86 | recording diagnostics piece by piece keeps the first one, the same as recording them all at once |
| SelectorEncoder.WalkNode | packages/wcsc-compiler/src/postcss-wxss-js.ts:54-136 | one selector node adds its reference stream to the sink, so a leading class adds `.`, the scope-suffix marker, then its name. It adds no import reference, keeps the first id/attribute diagnostic, and sets the annotation flag when a class or tag was rewritten |
| SelectorEncoder.WalkClass | packages/wcsc-compiler/src/postcss-wxss-js.ts:63-77 | a class first, or after a space combinator or a tag, adds `.`, the suffix marker and its name, and sets the annotation flag; any other class adds `.name` as literal text |
| SelectorEncoder.WalkPseudo | packages/wcsc-compiler/src/postcss-wxss-js.ts:121-131 | a pseudo selector adds its name and, in parentheses, its arguments' streams with their markers, and collects their diagnostics and annotation need |
| SelectorEncoder.WalkNodes | packages/wcsc-compiler/src/postcss-wxss-js.ts:49-53 | the nodes of a compound selector are encoded in order; streams, diagnostics and annotation need compose |
| SelectorEncoder.WalkArgs | packages/wcsc-compiler/src/postcss-wxss-js.ts:126-128 | the arguments of a pseudo selector are encoded in order as tag-preserving selectors, markers included |
| SelectorEncoder.WalkSelectors | packages/wcsc-compiler/src/postcss-wxss-js.ts:139-151 | a rule's selector list adds each selector's stream, separated by `, `, with the first banned-selector diagnostic and the annotation need of all its selectors |
| SelectorEncoder.ShownNodes | packages/wcsc-compiler/src/postcss-wxss-js.ts:49-136 | a compound selector's stream, shown with an empty suffix, is its plain text: the encoding loses no selector text |
| SelectorEncoder.ShownSelectors | packages/wcsc-compiler/src/postcss-wxss-js.ts:139-151 | the selector list's stream, shown, is the comma-joined plain text of its selectors |
| ValueEncoder.Unit | packages/wcsc-compiler/src/postcss-wxss-js.ts:166 | a split exists exactly when the word looks like a number; number and unit concatenate to the word, the number is non-empty, and it is the longest numeric prefix, ending at a non-digit |
| ValueEncoder.UnitOfDigitsRpx | packages/wcsc-compiler/src/postcss-wxss-js.ts:166-176 | digits followed by `rpx`, with or without a sign, split into the signed digits and `rpx`, so the piece is an rpx length |
| ValueEncoder.UnitOfDecimalRpx | packages/wcsc-compiler/src/postcss-wxss-js.ts:166-176 | a decimal followed by `rpx` splits into the whole decimal and `rpx` |
| ValueEncoder.OtherUnitIsLiteral | packages/wcsc-compiler/src/postcss-wxss-js.ts:166-181 | digits followed by a unit other than `rpx` are not an rpx length |
| ValueEncoder.WordSegments | packages/wcsc-compiler/src/postcss-wxss-js.ts:160-165 | the hyphen pieces, with the hyphen put back before all but the first, reassemble the word |
| ValueEncoder.StepSegment | packages/wcsc-compiler/src/postcss-wxss-js.ts:166-182 | an rpx piece flushes the pending literal when non-empty, emits an `[0, n]` marker carrying its numeral and empties the literal; any other piece is appended to the pending literal |
| ValueEncoder.WalkSegments | packages/wcsc-compiler/src/postcss-wxss-js.ts:162-183 | the pieces of a word together add each piece's stream, an rpx piece as its marker, and set the rpx flag exactly when some piece is an rpx length |
| ValueEncoder.ShownWord | packages/wcsc-compiler/src/postcss-wxss-js.ts:153-185 | a word's stream, shown with rpx markers as their numeral and `rpx`, is the word: no text is lost |
| ValueEncoder.SegmentsWithoutRpx | packages/wcsc-compiler/src/postcss-wxss-js.ts:162-183 | a word with no rpx piece is appended to the pending literal with no token emitted |
| ValueEncoder.TransformWord | packages/wcsc-compiler/src/postcss-wxss-js.ts:153-185 | a word adds its hyphen pieces' stream, each rpx length as its marker, unless rpx are being kept; a kept or rpx-free word is plain literal text |
| ValueEncoder.DoubleBackslashes | packages/wcsc-compiler/src/postcss-wxss-js.ts:208 | the string grows by exactly one character per backslash |
| ValueEncoder.HalveDouble | packages/wcsc-compiler/src/postcss-wxss-js.ts:208 | reading doubled backslashes back as one gives the original string: doubling loses nothing |
| ValueEncoder.DoubleWithoutBackslash | packages/wcsc-compiler/src/postcss-wxss-js.ts:208 | a string without a backslash is left unchanged |
| ValueEncoder.WalkValue | packages/wcsc-compiler/src/postcss-wxss-js.ts:201-271 | a value node fails exactly when it holds an argument-less `url()`; otherwise it adds its reference stream, rpx markers included, and reports whether it met an rpx length; a white-space node adds one space unless the pending literal already ends in one |
| ValueEncoder.WalkFunc | packages/wcsc-compiler/src/postcss-wxss-js.ts:214-264 | `url(...)` writes its first argument as literal text, tagging local paths; any other function writes its name and its arguments' streams with their markers |
| ValueEncoder.WalkSeq | packages/wcsc-compiler/src/postcss-wxss-js.ts:273-298 | a declaration value is encoded node by node with each space as one blank; it fails exactly when some node holds an argument-less `url()` |
| ValueEncoder.ShownSeq | packages/wcsc-compiler/src/postcss-wxss-js.ts:201-298 | a value's stream, shown with rpx markers as their numeral and `rpx`, is the value's plain text |
| Stylesheet.ScopeName | packages/wcsc-compiler/src/postcss-wxss-js.ts:411-414 | an at-rule block is recorded as `keyframes` exactly when its name is a keyframes name, vendor prefix or not |
| Stylesheet.ImportIndex | packages/wcsc-compiler/src/postcss-wxss-js.ts:367-370 | -1 exactly when no template has the normalised import path; otherwise a template with that path |
| Stylesheet.ImportEdge | packages/wcsc-compiler/src/postcss-wxss-js.ts:376-394 | an import records an edge only to a known template with content, under that template's index and path |
| Stylesheet.RenderNode | packages/wcsc-compiler/src/postcss-wxss-js.ts:300-427 | every edge of the reference rendering names a known template with content; the walk ends in the scope it started in or at top level; a recorded diagnostic is never cleared |
| Stylesheet.WalkDecl | packages/wcsc-compiler/src/postcss-wxss-js.ts:333-361 | a declaration fails exactly on an argument-less `url()`. Otherwise it adds its head, its value's stream with rpx markers, and its importance. Under debug, when an rpx was met, it adds the `wxcs_style_` copy with the value as written |
| Stylesheet.WalkImport | packages/wcsc-compiler/src/postcss-wxss-js.ts:366-405 | an import of a missing template fails with the not-found error naming both paths. An import of an empty template changes nothing. Otherwise the pending literal is flushed when non-empty, an `[2, i]` marker with the target's index follows, the literal restarts empty, and the edge is recorded |
| Stylesheet.WalkRule | packages/wcsc-compiler/src/postcss-wxss-js.ts:310-332 | a rule's walk produces exactly the reference rendering's stream, references, scope, diagnostic and edges, or fails exactly when its body faults |
| Stylesheet.WalkAtRule | packages/wcsc-compiler/src/postcss-wxss-js.ts:406-425 | a non-import at-rule's walk matches the reference rendering, leaving the walk at top level when it had a body |
| Stylesheet.WalkCss | packages/wcsc-compiler/src/postcss-wxss-js.ts:300-427 | any node's walk matches the reference rendering, and fails exactly when the node faults |
| Stylesheet.WalkSeqCss | packages/wcsc-compiler/src/postcss-wxss-js.ts:304-309 | a node list is walked in order and matches the reference rendering; the first fault ends it |
| Stylesheet.LastOffenderWins | packages/wcsc-compiler/src/postcss-wxss-js.ts:330-332 | of two rules, when the second has a banned selector its diagnostic becomes the stylesheet's, whatever the first recorded |
| Stylesheet.Substitution | packages/wcsc-compiler/src/postcss-wxss-js.ts:438 | a replacement without `$` is inserted as it stands |
| Stylesheet.DollarPattern | packages/wcsc-compiler/src/postcss-wxss-js.ts:438 | a two-character replacement `$c` expands `$$`, `$&`, `` $` `` and `$'` as the replacement rules say, and stays as written for every other `c` |
| Stylesheet.SubstitutionPatterns | packages/wcsc-compiler/src/postcss-wxss-js.ts:438 | `$$` gives `$`, `$&` the match, `` $` `` the text before it, `$'` the text after it, and `$1` stays as written, there being no capture group |
| Stylesheet.ReplaceFirst | packages/wcsc-compiler/src/postcss-wxss-js.ts:438 | only the first occurrence of the parser's file name is replaced, by the path with its `$` patterns expanded; a path without `$` goes in as it stands |
| Stylesheet.ParseJs | packages/wcsc-compiler/src/postcss-wxss-js.ts:429-471 | blank content is left alone; a parse error is fatal with the message naming the stylesheet. Otherwise the result is canonical tokens whose stream, diagnostic and edges are the reference rendering's, whose text is that stream shown, and whose references are the edges' indices |
| Stylesheet.ParseJsUnique | packages/wcsc-compiler/src/postcss-wxss-js.ts:429-471 | any canonical token list with the stylesheet's reference stream is the one `parseJs` stores |
| Stylesheet.ParseJsSeesSources | packages/wcsc-compiler/src/postcss-wxss-js.ts:366-370 | `parseJs` depends on the other templates only through their paths and contents: two template lists that agree on those give the same result |
| Stylesheet.WalkSeesSources | packages/wcsc-compiler/src/postcss-wxss-js.ts:300-427 | any node's walk is the same over two template lists that agree on paths and contents |
| ImportGraph.Remove | packages/wcsc-compiler/src/codeGen.ts:228-231 | removing a node from the unvisited list removes only that node, and shortens the list when it was there |
| ImportGraph.Dfs | packages/wcsc-compiler/src/codeGen.ts:216-240 | a search from a node either only shrinks the unvisited list or reports a trail that is a closed walk in the import graph |
| ImportGraph.DfsChildren | packages/wcsc-compiler/src/codeGen.ts:233-238 | the searches from a node's children either only shrink the unvisited list or report a closed walk |
| ImportGraph.DfsSimple | packages/wcsc-compiler/src/codeGen.ts:216-240 | every node a successful search removes from the unvisited list reaches no cycle |
| ImportGraph.DfsChildrenSimple | packages/wcsc-compiler/src/codeGen.ts:233-238 | every node the children's successful searches remove reaches no cycle |
| ImportGraph.SearchRoots | packages/wcsc-compiler/src/codeGen.ts:253-258 | after the searches from the roots, every node no longer unvisited reaches no cycle, or a closed walk is reported |
| ImportGraph.Sweep | packages/wcsc-compiler/src/codeGen.ts:260-265 | the sweep over the remaining nodes succeeds only when none of them reaches a cycle, and otherwise reports a closed walk |
| ImportGraph.FindCycle | packages/wcsc-compiler/src/codeGen.ts:253-265 | a reported trail is a closed walk; success means no node reaches a cycle |
| ImportGraph.TrailHasCycle | packages/wcsc-compiler/src/codeGen.ts:217-225 | a reported trail witnesses a cycle in the import graph |
| ImportGraph.FindCycleComplete | packages/wcsc-compiler/src/codeGen.ts:242-267 | the cycle search fails exactly when the import graph has a cycle |
| ImportGraph.RootsFrom | packages/wcsc-compiler/src/codeGen.ts:246-251 | the roots are exactly the templates with no parent, in increasing order |
| ImportGraph.TrailPaths | packages/wcsc-compiler/src/codeGen.ts:219-223 | the error trail lists the path of each template on the cycle, in order |
| ImportGraph.FindRootNodes | packages/wcsc-compiler/src/codeGen.ts:242-267 | succeeds exactly when the import graph is acyclic, with the parentless templates in order; otherwise fails with a cycle-import error whose trail is a closed walk's paths |
| CodeGen.MarkRoots | packages/wcsc-compiler/src/codeGen.ts:12-20 | a template leaves the chunk table exactly when it is a root and is not `./app.wxss` with content; nothing else changes |
| CodeGen.AssignChunks | packages/wcsc-compiler/src/codeGen.ts:36-44 | each eligible template's chunk index is the number of eligible templates before it; nothing else changes |
| CodeGen.ChunkIndicesContiguous | packages/wcsc-compiler/src/codeGen.ts:36-44 | chunk indices increase with template order and are exactly 0 up to the number of eligible templates |
| CodeGen.RewriteTokens | packages/wcsc-compiler/src/codeGen.ts:48-53 | each reference token's template index is replaced by that template's chunk index, and every other token is unchanged |
| CodeGen.RenumberedRefs | packages/wcsc-compiler/src/codeGen.ts:48-53 | renumbering leaves the text unchanged and maps the k-th reference to the chunk index of the k-th referenced template |
| CodeGen.RewriteRefs | packages/wcsc-compiler/src/codeGen.ts:46-55 | only importing templates have their references renumbered: each such template's token list keeps every token and position, and only its `[2, i]` markers change, to the chunk indices of the referenced templates. Text and canonical form are kept, and nothing else changes |
| CodeGen.ChunkAt | packages/wcsc-compiler/src/codeGen.ts:56-66 | the chunk at an eligible template's index is that template's JSON token list |
| CodeGen.BundleIsJoin | packages/wcsc-compiler/src/codeGen.ts:56-66 | the chunk table is the bracketed, comma-joined list of the eligible templates' JSON token lists |
| CodeGen.GenComm | packages/wcsc-compiler/src/codeGen.ts:167-186 | fails exactly when the entry index names no template; otherwise the escaped bundle unescapes to runtime, table and entry invocation |
| CodeGen.Escaped | packages/wcsc-compiler/src/codeGen.ts:186 | escaped code contains none of the escaped characters and unescapes to the code, up to backslash-newline pairs |
| CodeGen.GenTemplates | packages/wcsc-compiler/src/codeGen.ts:191-210 | a template with no output gets its escaped invocation and its path as key; a template that has one is left alone |
| CodeGen.GenTemplatesIdempotent | packages/wcsc-compiler/src/codeGen.ts:195-197 | generating the outputs twice changes nothing the second time |
| CodeGen.Prepare | packages/wcsc-compiler/src/codeGen.ts:12-55 | the final chunk choice and numbering are made. In every importing template the `[2, i]` markers are recoded to chunk indices while every other token, rpx and suffix markers included, stays where it was. The sources and outputs are untouched |
| CodeGen.GenFromRoots | packages/wcsc-compiler/src/codeGen.ts:12-29 | given the roots, generation fails exactly when the entry is missing. Otherwise it meets the generation contract, under which each importing template's tokens are its encoded tokens with only the reference markers recoded |
| CodeGen.GenCode | packages/wcsc-compiler/src/codeGen.ts:6-32 | fails with a cycle error exactly when the import graph has a cycle; when acyclic, succeeds exactly when the entry exists. On success the chunk choice, outputs and bundle are as stated, and each importing template's tokens are its own with only the reference markers renumbered |
| CodeGen.ReferencesResolve | packages/wcsc-compiler/src/codeGen.ts:46-66 | every renumbered reference in a generated template points at the chunk holding the imported stylesheet's tokens |
| Driver.Position | packages/wcsc-compiler/src/index.ts:227-232 | -1 exactly when the flag is absent; otherwise the flag's first position |
| Driver.Flag | packages/wcsc-compiler/src/index.ts:227-288 | a flag is on exactly when the argument list contains it as a whole argument |
| Driver.ParseInt | packages/wcsc-compiler/src/index.ts:292 | not-a-number exactly when, after leading white space and a sign, there is no decimal digit |
| Driver.ParseIntOfNatToString | packages/wcsc-compiler/src/index.ts:292 | parsing the decimal text of a count, followed by a non-digit or nothing, gives the count back |
| Driver.ParseIntOfDigits | packages/wcsc-compiler/src/index.ts:292 | a run of digits followed by a non-digit or nothing parses as the run's decimal value |
| Driver.ParseIntNegates | packages/wcsc-compiler/src/index.ts:292 | a minus sign in front of text that starts with a digit negates the parsed value |
| Driver.ParseCmd | packages/wcsc-compiler/src/index.ts:223-304 | each switch is set exactly when present; `-pc` and `--subpackage` take the argument after their first occurrence, defaulting to 0 and the empty string when the flag is absent |
| Driver.Version | packages/wcsc-compiler/src/index.ts:96 | the fixed tag followed by the package version, or `0.0.0` when there is none |
| Driver.SliceEnd | packages/wcsc-compiler/src/index.ts:115 | `slice(0, end)` keeps min(end, length) entries for a non-negative end, and length+end (at least 0) otherwise |
| Driver.Find | packages/wcsc-compiler/src/index.ts:113-114 | the first position of the path in the sorted list, or -1 |
| Driver.SelectFiles | packages/wcsc-compiler/src/index.ts:112-123 | indices are taken from the sorted list, and the files are its first `-pc` entries. When `./app.wxss` lies at or past the count, the last kept file is dropped and `./app.wxss` put first. When the empty path lies at or past the count, the same happens to it afterwards, so it comes first |
| Driver.NegativeCountFrontsEntries | packages/wcsc-compiler/src/index.ts:113-123 | with a negative count, even the -1 of a missing file lies past it, so the empty path and `./app.wxss` are put in front whether or not the list holds them |
| Driver.SelectionShape | packages/wcsc-compiler/src/index.ts:112-123 | for a positive count and no empty file name, the selection has min(count, files) entries and no subpackage index; either the sorted prefix, or `./app.wxss` plus one entry fewer, with the recorded index then past the end |
| Driver.LoadAll | packages/wcsc-compiler/src/index.ts:128-144 | succeeds exactly when every file can be read, giving one fresh template per file with its contents in order; otherwise fails with some failing file's read error |
| Driver.AddPlaceholders | packages/wcsc-compiler/src/index.ts:145-183 | empty `./app.wxss` and subpackage stylesheets are put first when missing, and the recorded indices are shifted as the source shifts them |
| Driver.AddParents | packages/wcsc-compiler/src/postcss-wxss-js.ts:395-398 | each template's parent list grows by exactly one entry naming the importer for every edge that targets it, appended after its old parents; nothing else changes |
| Driver.ParentsAppended | packages/wcsc-compiler/src/postcss-wxss-js.ts:395-398 | one import edge more appends one more copy of the importer to its target's parents and to no other template's |
| Driver.Adopt | packages/wcsc-compiler/src/postcss-wxss-js.ts:459-464 | the template takes the encoding's tokens, diagnostic and edges; the other templates keep theirs; the link invariants are kept |
| Driver.EncodeOne | packages/wcsc-compiler/src/parseCss.ts:20-28 | template k fails exactly when its `parseJs` fails, with that error. Otherwise it takes `parseJs`'s tokens, diagnostic and edges, or is left alone for blank content. Every path, content and output, the link invariants and the other templates' tokens, diagnostics and edges are kept |
| Driver.EncodeFrom | packages/wcsc-compiler/src/parseCss.ts:6-35 | encoding from template k succeeds exactly when every `parseJs` from k on succeeds. It then gives each of those templates its `parseJs` tokens, diagnostic and edges and keeps the earlier ones. On failure the error is the first failing template's. Paths, contents, outputs and the link invariants are kept |
| Driver.EncodeFromStep | packages/wcsc-compiler/src/parseCss.ts:6-35 | one template's encoding followed by a pass over the rest is a pass from that template: success, contents and the first-failure error all carry back one step |
| Driver.OutcomesKept | packages/wcsc-compiler/src/postcss-wxss-js.ts:366-370 | templates that keep their paths and contents give every later `parseJs` the same outcome, so encoding one template does not change what the next one reads |
| Driver.OutStringFields | packages/wcsc-compiler/src/index.ts:202-207 | when no version, bundle, key or output holds `=`, splitting the output string at `=` gives the version, the bundle and each key and output in order |
| Driver.Put | packages/wcsc-compiler/src/index.ts:199 | assigning a key makes it map to the value and leaves other keys alone; an existing key keeps its place and a new key is appended |
| Driver.PutAll | packages/wcsc-compiler/src/index.ts:198-200 | after the loop each key maps to the output of the last template with that path, or to what it mapped to before |
| Driver.OutMapOf | packages/wcsc-compiler/src/index.ts:195-201 | in the map form, each template path maps to its last template's output; `comm` and `version` map to the bundle and the version unless a template path overrides them |
| Driver.Gather | packages/wcsc-compiler/src/index.ts:112-183 | fails with a read error exactly when some selected file cannot be read. Otherwise the templates are the placeholders, each with empty content, followed by one fresh template per selected file holding exactly that file's read content, in selection order |
| Driver.Stages | packages/wcsc-compiler/src/index.ts:184-194 | the templates that reach code generation are the gathered ones, each carrying its own `parseJs` tokens, diagnostic and edges. Generation meets its contract, every template has a keyed escaped output, and every error is one of the fatal ones |
| Driver.CompileWith | packages/wcsc-compiler/src/index.ts:109-222 | a zero or non-numeric page count hands the compile to the plain-mode compiler. Otherwise it succeeds exactly when all stages succeed, and the result is the stages' generation written with the version: the map form under `-om`, else the string form |
| Driver.Compile | packages/wcsc-compiler/src/index.ts:104-108 | without `-pc` the compile is handed to the plain-mode compiler. With a nonzero page count it succeeds exactly when the stages succeed, and the output is their generation written in the form `-om` selects |
| Driver.TextFields | packages/wcsc-compiler/src/index.ts:202-207 | a successful string-form compile splits at `=` into the version, the bundle and each template's key and output |
| Driver.AppPastCountFails | packages/wcsc-compiler/src/index.ts:113-119 | with no subpackage, when `./app.wxss` sorts at or past the page count, the compile fails |
| Driver.SubpackageEntryIsPlaceholder | packages/wcsc-compiler/src/index.ts:114-179 | with a subpackage, the bundle's entry is always an empty placeholder at index 0 for the subpackage stylesheet path |

## Left out

- The plain-mode compiler (postcss-wxss.ts) is not part of this model. It runs when `-pc` is 0 or not a number, and `Driver.CompileWith` then returns `Delegated`.
- The stylesheet, selector and value parsers are foreign libraries. The stylesheet parser is a parameter of the host, and their output trees are the `Ast` datatypes. The value parser's number/unit splitter is written out following its published algorithm.
- Reading files and the POSIX `join`/`dirname` operations are parameters of the host. `getFileContent` is modelled only through that reading function.
- Driver.LoadAll: promises only that the error is some failing file's. Which failing read rejects first depends on I/O timing.
- Driver.EncodeFrom: reports the first failing template's error. In the source every `parseJs` runs synchronously, in template order. Once an error is recorded the later walks return at once (postcss-wxss-js.ts:43). But a later template's syntax error still overwrites the shared `wcscError` (postcss-wxss-js.ts:435-440), and a template whose `parseJs` resolved rejects with that shared value (parseCss.ts:21-22). So when a syntax error follows the first failure, the source can report that later error instead. Whether it does depends on the order in which the promise callbacks settle, which the model does not follow.
- `getFileContent`'s reads are modelled as sequential, in file order.
- Numbers: `Number(pair.number)` and its JSON form are kept as the numeral text written in the stylesheet. JavaScript number formatting and floating point are not modelled.
- `parseInt` is modelled on exact integers. Precision loss on very long digit runs is not modelled.
- Driver.ParseIntOfNatToString: stated for non-negative numbers only. For a negative number the round trip follows from it together with `Driver.ParseIntNegates`, but it is not stated as one lemma.
- String order and lengths are by Unicode scalar value, not by UTF-16 code unit. Surrogate pairs compare and count differently in the source.
- In the map form, entry order follows insertion. JavaScript objects list integer-like keys first, which is not modelled.
- `--subpackage` given as the last argument reads `undefined` in the source. The model reads the empty string, which the compile treats the same way.
- The switches `-cp`, `-lc`, `-js`, `-s`, `-sd`, `-st` and `-o` are parsed but have no effect on a compile, so they are not used further.
- Missing source positions are taken as 0 when the `Ast` trees are built, as the source's `|| 0` defaults do.
- The runtime script is carried as text. Its behaviour in the browser is not modelled. Code generation is stated for any `Runtime.Script`, and `Runtime.Standard` is the text the compiler ships.
