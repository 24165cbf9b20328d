# mpx `postcss-import-parser` in Dafny

A model of the PostCSS plugin that the mpx webpack plugin runs over every
stylesheet (`packages/webpack-plugin/lib/wxss/plugins/postcss-import-parser.js`),
with proofs about it. The plugin has three stages:

- **`Once`** rewrites every comment `/* @mpx-import "x.css" */` into the at-rule
  `@import "x.css"` in the comment's place (`MpxComments`).
- **`AtRule.import`** runs for each `@import`. In a stylesheet where `@import` is
  forbidden (`isCSSStyleSheet`), it emits one error per at-rule, including
  those inside the block of another `@import`. Otherwise it runs `parseNode`:
  - Nested at-rules and at-rules marked with a `webpackIgnore: true` comment
    are skipped.
  - A rule with a block, or without a usable url, throws; the message becomes
    a warning.
  - Otherwise `parseNode` yields the url and the `layer`, `supports` and media
    conditions written after it (`ImportParse`). When `isURLRequestable` finds
    the url requestable and in need of resolving, a loader prefix is split off
    at its last `!`. In every other case there is no prefix, and the url keeps
    any `!` it has.
- **`OnceExit`** takes each parsed rule in turn:
  - It applies the optional `filter`, then resolves the url when it needs
    resolving.
  - It removes the at-rule from the stylesheet unless the filter dropped it or
    the resolver found nothing.
  - It then pushes one import record per distinct request, named
    `___CSS_LOADER_AT_RULE_IMPORT_<n>___`, and the api records in source order
    (`ImportResolution`).

`ImportPlugin.ImportParser` is the plugin instance. It holds the state the stages
share as fields: the root's nodes, `parsedAtRules`, the warnings and errors, the
removed nodes, and `options.imports` / `options.api`. Each stage is a method
proved against the specification functions of the other modules.

The other modules:

- `Wrappers` holds `Option`.
- `JsText` holds the JavaScript string operations the code relies on (`\s`,
  `trim`, `toLowerCase`, `split`/`join`, `lastIndexOf`, `slice`, number
  rendering).
- `ValueParser` holds the token tree of `postcss-value-parser` and its
  `stringify`.
- `CssAst` holds the part of the PostCSS tree the plugin reads.

Collaborators whose code is not part of this model are parameters:

- The value parser's tokenizer, `normalizeUrl`, `isURLRequestable` (with the
  `isSupportAbsoluteURL`, `isSupportDataURL` and `externals` options applied),
  and the capture of `WEBPACK_IGNORE_COMMENT_REGEXP` are fields of
  `ImportParse.Collaborators`.
- `options.filter`, and the resolver together with `requestify` and
  `resolveRequests`, are fields of `ImportResolution.ResolveContext`.
- `options.urlHandler` is a function field of the class.

Three behaviours of the code worth knowing:

- An api record is pushed only together with the import record, on the first
  occurrence of a request. It is not pushed for every occurrence
  (`postcss-import-parser.js:350-362`).
- An at-rule is removed only in `OnceExit`. It stays in the stylesheet when the
  filter drops it or the resolver finds nothing (`postcss-import-parser.js:284-299`).
- A bare `layer` word makes the layer the whole buffer collected before it, with
  an empty string in place of the word. This is `""` only when nothing but white
  space precedes it (`postcss-import-parser.js:147-154`;
  `ImportParse.BareLayerExample`, `ImportParse.MediaBeforeLayerExample`).

## Model

All source paths are `packages/webpack-plugin/lib/wxss/plugins/postcss-import-parser.js`.

| member | source | states |
|---|---|---|
| JsText.Trim | packages/webpack-plugin/lib/wxss/plugins/postcss-import-parser.js:118 | `trim()` gives the slice of the text between a white-space prefix and a white-space suffix; it is empty exactly when the text is all white space, and a non-empty result neither starts nor ends with white space |
| JsText.Split | packages/webpack-plugin/lib/wxss/plugins/postcss-import-parser.js:109 | `split('!')` yields at least one piece, no piece contains `!`, and a single piece exactly when there is no `!` |
| JsText.JoinSplit | packages/webpack-plugin/lib/wxss/plugins/postcss-import-parser.js:109-113 | joining the pieces of `split('!')` with `!` gives back the url |
| JsText.LastIndexOf | packages/webpack-plugin/lib/wxss/plugins/postcss-import-parser.js:25 | `lastIndexOf('/*')` is -1 or a position where the pattern occurs, with no occurrence after it |
| JsText.DecimalInjective | packages/webpack-plugin/lib/wxss/plugins/postcss-import-parser.js:351 | two different counters render as two different decimal strings |
| ValueParser.StringifyAppend | packages/webpack-plugin/lib/wxss/plugins/postcss-import-parser.js:154 | `stringify` of a concatenation of node lists is the concatenation of their texts |
| ImportParse.SplitPrefixOfJoined | packages/webpack-plugin/lib/wxss/plugins/postcss-import-parser.js:108-115 | splitting `prefix!url` at the last `!`, for a url without `!`, gives back that prefix and that url |
| ImportParse.SplitPrefixRoundTrip | packages/webpack-plugin/lib/wxss/plugins/postcss-import-parser.js:108-115 | after the split, the url has no `!`; a prefix exists exactly when the normalised url had a `!`; and prefix + `!` + url is the normalised url |
| ImportParse.ScanConditions | packages/webpack-plugin/lib/wxss/plugins/postcss-import-parser.js:126-170 | the loop over the tokens after the url computes exactly the conditions of the fold `Conditions` |
| ImportParse.BufferSinceLastCloser | packages/webpack-plugin/lib/wxss/plugins/postcss-import-parser.js:133-164 | the working buffer holds exactly the tokens after the last `layer` / `supports(...)` token, none of which closes it |
| ImportParse.ConditionFromLastCloser | packages/webpack-plugin/lib/wxss/plugins/postcss-import-parser.js:138-164 | `layer` (resp. `supports`) comes from the last token of its kind: the tokens since the closer before it, with that token replaced by its inner nodes (or `""`), stringified, trimmed, lower-cased; earlier values are overwritten |
| ImportParse.ConditionUnset | packages/webpack-plugin/lib/wxss/plugins/postcss-import-parser.js:128-165 | without a `layer` (resp. `supports(...)`) token, the condition stays undefined |
| ImportParse.MediaIsTrailingTokens | packages/webpack-plugin/lib/wxss/plugins/postcss-import-parser.js:167-169 | the media list is the normalised text of the tokens after the last closer, and undefined when there are none |
| ImportParse.BareLayerExample | packages/webpack-plugin/lib/wxss/plugins/postcss-import-parser.js:140-155 | `@import url(x.css) layer;` gives the anonymous layer `""` and no supports or media |
| ImportParse.LayerFunctionExample | packages/webpack-plugin/lib/wxss/plugins/postcss-import-parser.js:138-155 | `layer(foo)` gives the layer `foo` |
| ImportParse.SupportsAndMediaExample | packages/webpack-plugin/lib/wxss/plugins/postcss-import-parser.js:156-169 | `supports(display: flex) screen` gives supports `display: flex` and media `screen` |
| ImportParse.MediaBeforeLayerExample | packages/webpack-plugin/lib/wxss/plugins/postcss-import-parser.js:135-155 | `screen layer` gives the layer `screen` and no media: a bare `layer` takes the buffer before it |
| ImportParse.ClassifySkipsAndBlocks | packages/webpack-plugin/lib/wxss/plugins/postcss-import-parser.js:16-55 | parseNode returns nothing exactly for a nested rule or one marked ignored (after its name or by the previous comment); it throws "child nodes attached" exactly when the rule is not skipped and has a block |
| ImportParse.ClassifyUriErrors | packages/webpack-plugin/lib/wxss/plugins/postcss-import-parser.js:65-92 | "Unable to find uri" comes from no tokens, a first token that is neither a string nor a function, or a function not named `url` (any case), each exactly in its case |
| ImportParse.EmptyUrlFails | packages/webpack-plugin/lib/wxss/plugins/postcss-import-parser.js:117-124 | a url that is all white space after the prefix split throws "Unable to find uri" |
| ImportParse.ClassifyParsed | packages/webpack-plugin/lib/wxss/plugins/postcss-import-parser.js:13-183 | every returned rule is top-level, has no block, and starts with a url token. Its url is not blank, a prefix implies requestable and needResolve, and its conditions are those of the tokens after the url |
| ImportParse.ClassifyUrlRoundTrip | packages/webpack-plugin/lib/wxss/plugins/postcss-import-parser.js:94-115 | for a returned rule, a prefix exists exactly when it is requestable, needs resolving and the normalised url has a `!`; prefix + `!` + url, or the url alone, is the normalised url |
| ImportParse.ParseNode | packages/webpack-plugin/lib/wxss/plugins/postcss-import-parser.js:13-183 | the checks followed by the token loop compute exactly the outcome characterised by the `Classify*` lemmas |
| MpxComments.StripMarker | packages/webpack-plugin/lib/wxss/plugins/postcss-import-parser.js:11 | removing the match of `/^(@mpx-import\s+)/` leaves the text after the marker and all the white space that follows it |
| MpxComments.FirstQuoted | packages/webpack-plugin/lib/wxss/plugins/postcss-import-parser.js:201 | `/(["'].+["'])/` matches exactly when some quote pair on one line encloses at least one character. The match is such a span: no span starts further left, and none from the same start ends further right |
| MpxComments.RewriteAll | packages/webpack-plugin/lib/wxss/plugins/postcss-import-parser.js:195-210 | `walkComments` rewrites each node of a list in place and keeps the number and order of the nodes |
| MpxComments.CommentRewrite | packages/webpack-plugin/lib/wxss/plugins/postcss-import-parser.js:195-208 | a comment becomes `@import <span>` exactly when it carries the marker and a quoted span, and otherwise stays. An `@import` with a block keeps everything but the block, whose children are rewritten; an `@import` without a block, or any other childless node, stays as it is |
| MpxComments.RewriteIdempotent | packages/webpack-plugin/lib/wxss/plugins/postcss-import-parser.js:195-210 | running the comment pass twice is the same as running it once |
| MpxComments.RewriteAllIdempotent | packages/webpack-plugin/lib/wxss/plugins/postcss-import-parser.js:195-210 | the same, for a list of nodes |
| MpxComments.MarkedCommentExample | packages/webpack-plugin/lib/wxss/plugins/postcss-import-parser.js:194-208 | `/* @mpx-import "a.css" */` becomes `@import "a.css"` |
| ImportResolution.ResolveOne | packages/webpack-plugin/lib/wxss/plugins/postcss-import-parser.js:263-324 | the node stays exactly when the filter drops the rule or the resolver misses. A value is produced exactly when the rule is kept, resolved and not the stylesheet itself, and then the node is removed. Conditions, prefix and requestability carry over; the url is the resolved path when resolving, else the parsed url |
| ImportResolution.KeyRoundTrip | packages/webpack-plugin/lib/wxss/plugins/postcss-import-parser.js:346-347 | for a url without `!`, splitting the request at its last `!` gives back the prefix and the url when the prefix is a non-empty string, and no prefix and the url otherwise |
| ImportResolution.KeyInjective | packages/webpack-plugin/lib/wxss/plugins/postcss-import-parser.js:346-348 | for urls without `!`, two values share a request exactly when they share the url and either both have the same non-empty prefix or neither has one |
| ImportResolution.ImportNameInjective | packages/webpack-plugin/lib/wxss/plugins/postcss-import-parser.js:351 | two import names are equal exactly when the counters are |
| ImportResolution.EmitInvariant | packages/webpack-plugin/lib/wxss/plugins/postcss-import-parser.js:327-363 | after the loop: the map's keys are the requests seen. The k-th import record is the first occurrence of a request, named with counter k, with the url `urlHandler(request)`; every first occurrence has one, in order. Each api record belongs to a kept value that is not requestable or is a first occurrence, carries its conditions, and all such values have one, in order |
| ImportResolution.ImportsDistinct | packages/webpack-plugin/lib/wxss/plugins/postcss-import-parser.js:348-362 | no two import records share a name or a request |
| ImportResolution.RepeatAddsNothing | packages/webpack-plugin/lib/wxss/plugins/postcss-import-parser.js:348-362 | a requestable value whose request was seen before adds neither an import nor an api record |
| ImportResolution.RepeatedImportExample | packages/webpack-plugin/lib/wxss/plugins/postcss-import-parser.js:346-361 | two identical requestable values give one import record and one api record, both for index 0 |
| ImportPlugin.CollectSound | packages/webpack-plugin/lib/wxss/plugins/postcss-import-parser.js:228-244 | `parsedAtRules` holds exactly the rules parseNode returned, one per returned rule, in document order, each recording its node's position |
| ImportPlugin.WarningsFromFailures | packages/webpack-plugin/lib/wxss/plugins/postcss-import-parser.js:230-238 | the warnings are the errors parseNode threw, in document order: one per at-rule for which it threw |
| ImportPlugin.NestedImportSkipped | packages/webpack-plugin/lib/wxss/plugins/postcss-import-parser.js:14-18 | an `@import` whose parent is not the root is never parsed |
| ImportPlugin.NestedInBlockCounted | packages/webpack-plugin/lib/wxss/plugins/postcss-import-parser.js:213-224 | `@import url(a) { @import "b"; }` holds two `@import` rules, so a CSS stylesheet reports two errors |
| ImportPlugin.OnlyImportsRemoved | packages/webpack-plugin/lib/wxss/plugins/postcss-import-parser.js:262-324 | every removed node is a top-level `@import` that parseNode accepted and that was neither filtered out nor left unresolved |
| ImportPlugin.ImportParser.constructor | packages/webpack-plugin/lib/wxss/plugins/postcss-import-parser.js:185-191 | a fresh instance has the given root and options, and nothing parsed, warned, emitted or removed |
| ImportPlugin.ImportParser.Once | packages/webpack-plugin/lib/wxss/plugins/postcss-import-parser.js:192-211 | the root becomes `RewriteAll` of the old root |
| ImportPlugin.ImportParser.AtRuleImport | packages/webpack-plugin/lib/wxss/plugins/postcss-import-parser.js:213-245 | in a CSS stylesheet one error and nothing else; otherwise a returned rule is appended to `parsedAtRules`, a thrown error to the warnings, and a skip changes nothing |
| ImportPlugin.ImportParser.VisitNode | packages/webpack-plugin/lib/wxss/plugins/postcss-import-parser.js:213-245 | the visits within one top-level node: one error per `@import` at any depth in a CSS stylesheet, otherwise the gathering of that node's outcome |
| ImportPlugin.ImportParser.ReportNode | packages/webpack-plugin/lib/wxss/plugins/postcss-import-parser.js:213-224 | in a CSS stylesheet, the errors grow by the number of `@import`s within one top-level node, itself and the nodes of its block included, and nothing is parsed or warned |
| ImportPlugin.ImportParser.ReportImports | packages/webpack-plugin/lib/wxss/plugins/postcss-import-parser.js:214-224 | in a CSS stylesheet, the errors grow by the number of `@import`s in the tree and nothing is parsed |
| ImportPlugin.ImportParser.CollectImports | packages/webpack-plugin/lib/wxss/plugins/postcss-import-parser.js:228-244 | otherwise the rules and warnings collected over the root are appended to those already there |
| ImportPlugin.ImportParser.VisitImports | packages/webpack-plugin/lib/wxss/plugins/postcss-import-parser.js:212-246 | the `AtRule.import` visits over the whole tree, in either kind of stylesheet |
| ImportPlugin.ImportParser.ResolveAll | packages/webpack-plugin/lib/wxss/plugins/postcss-import-parser.js:262-325 | `resolvedAtRules` has one value per parsed rule, given by `ResolveOne`, and the removed nodes are exactly those `ResolveOne` removes |
| ImportPlugin.ImportParser.EmitAll | packages/webpack-plugin/lib/wxss/plugins/postcss-import-parser.js:327-363 | the loop with its local map appends exactly the import and api records of `EmitUpTo`, whose properties `EmitInvariant` states |
| ImportPlugin.ImportParser.OnceExit | packages/webpack-plugin/lib/wxss/plugins/postcss-import-parser.js:247-364 | with nothing parsed nothing changes; otherwise the removals, then the import and api records, of the resolved rules |
| ImportPlugin.ImportParser.Run | packages/webpack-plugin/lib/wxss/plugins/postcss-import-parser.js:185-366 | the three stages in order: the rewritten root; then the errors, or the parsed rules and warnings, of every `@import` in it; then the removals and records |

## Left out

- Asynchrony: the filter and the resolver are modelled as pure functions. `Promise.all` becomes a loop in index order, which is enough because results are read back by index.
- A filter or resolver that rejects (throws) is not modelled; the source does not catch it, and `OnceExit` would fail.
- The resolver options passed to `getResolve` and the request list built by `requestify` and `resolveRequests` are folded into one function from url to resolved path.
- Message texts and source positions of errors and warnings are not modelled; each error is recorded by its cause.
- Node identity is not modelled. The at-rule the comment pass inserts stands in the comment's place; its `source` is not kept. Removal is recorded as a set of top-level positions, not a change to the tree.
- `JsText.Lower`: `toLowerCase()` is modelled on ASCII letters only. This is exact for the comparisons with `url`, `layer` and `supports`. Non-ASCII letters in layer, supports or media text keep their case.
- The tokenizer of `postcss-value-parser`, `normalizeUrl`, `isURLRequestable` and the `WEBPACK_IGNORE_COMMENT_REGEXP` match are not part of this model; they are parameters.
- Nodes other than comments, `@import` at-rules and nodes with children (rules and other at-rules, modelled as containers) are one opaque kind: they have no children, and the plugin reads nothing in them.
