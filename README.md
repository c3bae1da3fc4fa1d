# Node panel logic of the flow editor, in Dafny

This project models the small pieces of exact logic inside the flow editor's
node panel and expression editors, and proves what they promise:

- **Test-result lookup** (`TestResultUtils`): the results recorded for one node,
  the context snapshot and named expression values of one test context, and the
  list of contexts a user can pick.
- **Cron expression codec** (`CronEditor`): a cron string is stored as the SpEL
  call `T(com.cronutils.parser.CronParser).parse('<cron>')` and read back with a
  regular expression with one lazy capture group. The regular expression is
  written out by hand: the leftmost start position, the literal prefix, then the
  shortest run of characters other than line terminators that is followed by
  `')`. The editor's `value`/`open` state is a class.
- **String-literal detector** (`StringEditor`): an expression can be edited as a
  plain string when the whole text is wrapped in matching `'…'` or `"…"` quotes
  with no line terminator and the language is `spel`.
- **Node panel state** (`NodeDetails`): the edited node, the test context shown,
  and the field rules. Node data is a tree of objects (`NodeData.Json`) whose
  leaves are primitive values, and a lodash path is a sequence of keys;
  `setNodeDataAt` is copy-then-set on that tree.

Values are immutable in Dafny, so "the previous node is not mutated" holds of
every copy-then-set by construction; the class methods state the whole new
state in terms of the old one.

Two behaviours of the code are easy to misread, and the model keeps them as written:

- `_.uniq` at `client/common/TestResultUtils.js:39` looks like deduplication, but it
  compares the freshly built `{id, input}` objects by reference, so nothing is removed.
  `TestResultUtils.AvailableContextsKeepsDuplicates` shows two equal entries surviving.
- `decode(encode(v)) == v` does not hold for every string: the lazy group stops at the
  first `')` and `.` does not match a line terminator, so `RoundTrip` needs both side
  conditions, and `RoundTripStopsAtFirstCloseQuote` and `RoundTripStopsAtLineTerminator`
  show that each one is needed.
- New props without test results leave the previous selection in place:
  `selectTestResults` changes nothing then (`client/components/graph/NodeDetailsContent.js:34-35`
  and `:303-307`), so the panel goes on showing the earlier context's variables and values.
  `NodeDetails.NodeDetailsContent.ReceiveProps` states this in its `None` branch.

## Model

| member | source | states |
|---|---|---|
| `TestResultUtils.NodeResultsOf` | client/common/TestResultUtils.js:6-8 | an absent `nodeResults` map or an absent entry gives `[]`; a present entry is returned as is |
| `TestResultUtils.InvocationResultsOf` | client/common/TestResultUtils.js:10-12 | the same for `invocationResults` |
| `TestResultUtils.ResultsForNode` | client/common/TestResultUtils.js:14-23 | `null` exactly when the collection is absent; otherwise both normalised lists of the node |
| `TestResultUtils.MissingNodeGivesEmptyLists` | client/common/TestResultUtils.js:6-23 | a node missing from the collection resolves to `{invocationResults: [], nodeResults: []}`, never `null` |
| `TestResultUtils.FindContext` | client/common/TestResultUtils.js:26 | `undefined` iff no node result has the context id; otherwise the context of the first node result that has it |
| `TestResultUtils.NodeResultsForContext` | client/common/TestResultUtils.js:25-35 | `context` is the found snapshot and `expressionResults` the map built from that context's invocation results |
| `TestResultUtils.MatchingPairs` | client/common/TestResultUtils.js:28-30 | the `filter` then `map`: every `[name, value]` pair produced is the name and value of an invocation result of the chosen context |
| `TestResultUtils.FromPairs` | client/common/TestResultUtils.js:27 | `_.fromPairs`: every key of the object is held with the value of one of the pairs that carry it |
| `TestResultUtils.ExpressionResults` | client/common/TestResultUtils.js:27-30 | every entry of `expressionResults` is the name and value of some invocation result of the chosen context |
| `TestResultUtils.MatchingPairsAt` | client/common/TestResultUtils.js:28-30 | a `[name, value]` pair is produced iff some invocation result of the context carries that name and value |
| `TestResultUtils.MatchingPairsConcat` | client/common/TestResultUtils.js:28-30 | filtering and mapping a concatenated list concatenates the results |
| `TestResultUtils.FromPairsKeys` | client/common/TestResultUtils.js:27 | the keys of `_.fromPairs` are exactly the first components of the pairs |
| `TestResultUtils.FromPairsLast` | client/common/TestResultUtils.js:27 | under a key, `_.fromPairs` holds the value of the last pair with that key |
| `TestResultUtils.ExpressionResultsKeys` | client/common/TestResultUtils.js:27-30 | a name is a key of `expressionResults` iff some invocation result of the chosen context has that name |
| `TestResultUtils.ExpressionResultsLastWins` | client/common/TestResultUtils.js:27-30 | when several results of the context share a name, the value of the last one in list order is kept |
| `TestResultUtils.OtherContextIgnored` | client/common/TestResultUtils.js:29 | inserting a result of another context anywhere in the list leaves `expressionResults` unchanged |
| `TestResultUtils.Summaries` | client/common/TestResultUtils.js:39 | one `{id, input}` entry per node result, at the same position |
| `TestResultUtils.AvailableContexts` | client/common/TestResultUtils.js:37-40 | same length as `nodeResults`; entry i has the id of node result i and its `input` variable (`undefined` when absent) |
| `TestResultUtils.AvailableContextsKeepsDuplicates` | client/common/TestResultUtils.js:39 | `_.uniq` over fresh objects removes nothing: two equal node results give two equal entries |
| `TestResultUtils.TwoContextsScenario` | client/common/TestResultUtils.js:25-40 | with contexts `ctx1` and `ctx2`, choosing `ctx2` shows `ctx2`'s snapshot and only `ctx2`'s values, and both contexts are listed in order |
| `CronEditor.Encode` | ui/client/components/graph/node-modal/editors/expression/Cron/CronEditor.tsx:25-38 | the result is empty iff the value is; otherwise it is the template prefix, the value, and `')` |
| `CronEditor.CaptureEnd` | ui/client/components/graph/node-modal/editors/expression/Cron/CronEditor.tsx:23 | the lazy group ends at the first `')` with no line terminator before it; when it fails, every `')` has a line terminator before it |
| `CronEditor.MatchAt` | ui/client/components/graph/node-modal/editors/expression/Cron/CronEditor.tsx:23 | the pattern tried at one start position: it matches iff the prefix is there and the lazy group closes; the capture sits between the prefix and a `')` and holds neither `')` nor a line terminator |
| `CronEditor.FirstMatch` | ui/client/components/graph/node-modal/editors/expression/Cron/CronEditor.tsx:41 | the search returns the leftmost start position at which the pattern matches, or reports that there is none |
| `CronEditor.Decode` | ui/client/components/graph/node-modal/editors/expression/Cron/CronEditor.tsx:40-43 | `""` when the pattern matches nowhere; otherwise the capture of the leftmost match |
| `CronEditor.SwitchableTo` | ui/client/components/graph/node-modal/editors/expression/Cron/CronEditor.tsx:107 | true iff the expression is empty or the unanchored pattern matches somewhere in it |
| `CronEditor.WidgetValue` | ui/client/components/graph/node-modal/editors/expression/Cron/CronEditor.tsx:98 | never empty; the sentinel `-1 -1 -1 -1 -1 -1 -1` replaces the empty value, and any other value is passed on |
| `CronEditor.CaptureOfRepresentable` | ui/client/components/graph/node-modal/editors/expression/Cron/CronEditor.tsx:23-25 | in an encoded value without `')` or line terminator, the lazy group runs exactly to the template's closing `')` |
| `CronEditor.RoundTrip` | ui/client/components/graph/node-modal/editors/expression/Cron/CronEditor.tsx:23-43 | `decode(encode(v)) == v` for every `v` without `')` and without a line terminator, the empty value included |
| `CronEditor.DecodeThenEncodeIsStable` | ui/client/components/graph/node-modal/editors/expression/Cron/CronEditor.tsx:23-43 | whatever the expression, encoding the decoded value and decoding again gives the same value |
| `CronEditor.EncodedIsSwitchable` | ui/client/components/graph/node-modal/editors/expression/Cron/CronEditor.tsx:107 | every such encoded value can be switched to the cron editor |
| `CronEditor.RoundTripStopsAtFirstCloseQuote` | ui/client/components/graph/node-modal/editors/expression/Cron/CronEditor.tsx:23 | `decode(encode("a')b")) == "a"`: the lazy capture stops at the first `')` |
| `CronEditor.RoundTripStopsAtLineTerminator` | ui/client/components/graph/node-modal/editors/expression/Cron/CronEditor.tsx:23 | `decode(encode("\n")) == ""`: `.` does not match a line terminator |
| `CronEditor.NoPrefixDecodesEmpty` | ui/client/components/graph/node-modal/editors/expression/Cron/CronEditor.tsx:40-43 | a text in which the prefix occurs nowhere decodes to `""` and is switchable only when empty |
| `CronEditor.CronEditorState.constructor` | ui/client/components/graph/node-modal/editors/expression/Cron/CronEditor.tsx:45-46 | the value starts as the decoded expression and the widget closed |
| `CronEditor.CronEditorState.OnInputFocus` | ui/client/components/graph/node-modal/editors/expression/Cron/CronEditor.tsx:74-78 | focusing opens the widget unless read-only; a read-only editor never opens it |
| `CronEditor.CronEditorState.HandleClickOutside` | ui/client/components/graph/node-modal/editors/expression/Cron/CronEditor.tsx:48-53 | a mousedown inside leaves `open` as it was; one outside closes the widget |
| `CronEditor.CronEditorState.OnCronChange` | ui/client/components/graph/node-modal/editors/expression/Cron/CronEditor.tsx:95-97 | only while the widget is open, its new cron string becomes the value; `open` is unchanged |
| `StringEditor.DotsThenQuoteAtEndIff` | ui/client/components/graph/node-modal/editors/expression/StringEditor.tsx:31 | `.*` then the quote then the end holds iff the text ends with the quote and has no line terminator before it |
| `StringEditor.QuotedBranchIff` | ui/client/components/graph/node-modal/editors/expression/StringEditor.tsx:31 | a branch of the pattern matches iff the text has length at least 2, the same quote at both ends and no line terminator between |
| `StringEditor.StringPattern` | ui/client/components/graph/node-modal/editors/expression/StringEditor.tsx:31 | `stringPattern.test` holds iff the text is wholly single- or wholly double-quoted: length at least 2, the same quote at both ends, no line terminator |
| `StringEditor.SwitchableTo` | ui/client/components/graph/node-modal/editors/expression/StringEditor.tsx:33-39 | true iff the language is `spel` and the text is wholly single- or wholly double-quoted |
| `StringEditor.OtherLanguageNotSwitchable` | ui/client/components/graph/node-modal/editors/expression/StringEditor.tsx:36 | any language other than `spel` is never switchable, whatever the text |
| `StringEditor.QuotedTextSwitchable` | ui/client/components/graph/node-modal/editors/expression/StringEditor.tsx:30-31 | a SpEL text of length at least 2 with the same quote at both ends and no line terminator is switchable; inner quotes are not inspected |
| `StringEditor.BoundaryCases` | ui/client/components/graph/node-modal/editors/expression/StringEditor.tsx:31 | `'abc"`, `'`, the empty text and a quoted text with a line break are not switchable; `'a'b'` is |
| `StringEditor.StringFormatter` | ui/client/components/graph/node-modal/editors/expression/StringEditor.tsx:17 | with no formatter given the String type formatter is used, otherwise the given one |
| `NodeData.GetAt` | client/components/graph/NodeDetailsContent.js:191 | `_.get` by a key path: the empty path gives the node, and a path is followed only through objects holding its next key |
| `NodeData.GetAtAppend` | client/components/graph/NodeDetailsContent.js:191 | reading `p + q` is reading `q` in whatever `p` leads to, and nothing when `p` leads nowhere |
| `NodeData.ChildObject` | client/components/graph/NodeDetailsContent.js:280 | the object `_.set` descends into: the existing child when it is an object, otherwise a new empty object |
| `NodeData.SetAt` | client/components/graph/NodeDetailsContent.js:279-280 | `_.cloneDeep` then `_.set`: an empty path or a primitive root is left as it is; otherwise the root stays an object whose keys gain the path's first key |
| `NodeData.CheckedAt` | client/components/graph/NodeDetailsContent.js:235-236 | the checkbox's `checked` from `_.get(node, path, "")`: a missing value is unchecked, an object is checked, a primitive is checked iff it is truthy |
| `NodeData.SetAtThenGet` | client/components/graph/NodeDetailsContent.js:279-280 | after copy-then-set on an object node, the path holds the new value, object or primitive |
| `NodeData.SetAtKeepsOthers` | client/components/graph/NodeDetailsContent.js:279-280 | every path that parts from the set path reads as before |
| `NodeDetails.HasTestResults` | client/components/graph/NodeDetailsContent.js:289 | true iff the test results are present and list at least one node result (one available context each) |
| `NodeDetails.StateForSelectTestResults` | client/components/graph/NodeDetailsContent.js:291-301 | `null` iff there are no test results; a falsy id (`undefined` or `""`) picks the first context's id, any other id is kept; the results shown are those of the chosen id |
| `NodeDetails.DefaultSelectionShowsFirstContext` | client/components/graph/NodeDetailsContent.js:293-295 | with no id the snapshot shown is that of the first node result |
| `NodeDetails.SelectedContextHasChosenId` | client/components/graph/NodeDetailsContent.js:293-296 | choosing an id some node result carries shows a snapshot with that id |
| `NodeDetails.MergedMockedResults` | client/components/graph/NodeDetailsContent.js:372-374 | `""` for no results and the single value for one |
| `NodeDetails.Join` | client/components/graph/NodeDetailsContent.js:373 | `_.join` with `"\n\n"`: `""` for no values; otherwise the text starts with the first value |
| `NodeDetails.JoinAppend` | client/components/graph/NodeDetailsContent.js:373 | joining two non-empty lists one after the other puts one `"\n\n"` between their joins |
| `NodeDetails.MergedMockedResultsAppend` | client/components/graph/NodeDetailsContent.js:372-374 | the merge of two non-empty lists is the first merge, a blank line, and the second merge; with the cases above this fixes the in-order join |
| `NodeDetails.FieldReadOnly` | client/components/graph/NodeDetailsContent.js:220-258 | read-only iff not in edit mode or forced; the expression textarea looks at the edit mode only |
| `NodeDetails.ShownTestValue` | client/components/graph/NodeDetailsContent.js:198-215 | a test value is shown iff a non-empty field name is given and the shown results hold a truthy value under it; that value is the one shown |
| `NodeDetails.CheckboxChangeFlips` | client/components/graph/NodeDetailsContent.js:236 | after a checkbox change the box reads the negation of what it read before |
| `NodeDetails.NodeDetailsContent.constructor` | client/components/graph/NodeDetailsContent.js:18-28 | the edited node is the merged node, the edit mode is the prop's, and the default context is selected when there are test results |
| `NodeDetails.NodeDetailsContent.SetNodeDataAt` | client/components/graph/NodeDetailsContent.js:278-283 | only in edit mode: the edited node becomes the copy with the value set at the path, the same node is passed to `onChange`, and nothing else changes |
| `NodeDetails.NodeDetailsContent.ToggleCheckbox` | client/components/graph/NodeDetailsContent.js:231-239 | only in edit mode (the box is disabled otherwise): a checkbox change stores the negation of the value the box shows |
| `NodeDetails.NodeDetailsContent.SelectTestResults` | client/components/graph/NodeDetailsContent.js:303-308 | without test results nothing changes; otherwise the chosen id and its results are stored |
| `NodeDetails.NodeDetailsContent.ReceiveProps` | client/components/graph/NodeDetailsContent.js:30-37 | the props are replaced; a different node discards unsaved edits; a different node or different test results reselect the default context, which keeps the old selection when there are no results; otherwise the selection stays |

## Left out

- Rendering: all JSX, CSS classes, `react-bootstrap`, `Textarea`, `ExpressionSuggest`, the cron widget and `Input`; there is nothing to prove about them.
- The `document` mousedown listener of the cron editor and the effect that reports `encode(value)` to `onValueChange`: framework lifecycle; only the `open` transitions are modelled.
- The `i18next` hint texts of both editors: calls into a translation library.
- The string formatters' `encode`/`decode` (`./Formatter` is not part of this model), so nothing is claimed about unquoting; only the choice of formatter is.
- `EditableExpression.js` and `TableRowIcon.js`: they delegate to collaborators that are not part of this model, and hold no logic of their own beyond a toggle and a key handler.
- `NodeParametersMerger.addMissingParametersToNode` is not part of this model: the panel's constructor takes its result as a parameter. `NodeUtils.nodeType` and the per-node-type field layout of `customNode` are not modelled.
- `downloadableHref` (a browser built-in), and the `mockedResultsFor…` and `error` fields read by the panel, which the modelled lookup never produces.
- Opaque objects in node data: every object or array there is an `Obj` with its keys, and leaves are primitives (`NodeData.Scalar`), so `_.set` descends into any existing object as lodash does.
- `NodeData.GetAt`: paths are followed through objects only; lodash's reading of properties of primitives (`id.length`) and of inherited keys (`constructor`), and `_.set`'s refusal of `__proto__`, `constructor` and `prototype` keys, are not modelled, since the fixed paths the panel uses reach none of them.
- `NodeDetails.NodeDetailsContent.SetNodeDataAt`: edits are gated by edit mode only; a field forced read-only in edit mode is not tied to its path.
- Lodash path strings such as `service.parameters[0].expression.expression`: paths are key sequences, and an array is an object keyed by its indices (where `_.set` would create a new array, the model creates an object).
- `codeCompletionEnabled`: set in the constructor and never read by the modelled code.
- React's batching of `setState`: each update takes effect at once, which gives the same result here because `selectTestResults` does not read the state that `componentDidUpdate` sets.
- JavaScript's loose `==` between ids of different types: context ids are strings.
- Numbers are integers: `NaN` (falsy) and fractions are not modelled.
- `CronEditor.CronEditorState.OnInputFocus`: the `readOnly` prop is fixed for the life of the editor; a prop change while the widget is open is not modelled, and the invariant "read-only never open" depends on that.
- `NodeDetails.ShownTestValue`: keys inherited from `Object.prototype` (a field named `constructor`, say) are not modelled; only keys that `_.fromPairs` sets are.
- `TestResultUtils.NodeResultsOf`: a map entry holding `null` (which the source also turns into `[]`) is not modelled; entries are lists.
