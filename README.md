# HUMAIN design-token build scripts, modelled in Dafny

Three Node build scripts turn design-token JSON into CSS custom properties:

- `build-custom-css.js` flattens five token trees into `--pgn-` variables,
  spreads them into one object and writes one `:root` block with two-space
  indented declarations.
- `build-merged-css.js` builds the same object and splices its declarations
  into the first `:root{...}` block of Paragon's `light.min.css`. When there
  is no such block, it puts a fresh unindented block in front of the
  stylesheet.
- `build-humain-css.js` flattens the colour trees into `--humain-`
  variables. It writes them in one `:root` block, followed by six fixed
  overrides of the form `P: var(H, var(P))` (the fallback form of
  `var()`, section 3 of CSS Custom Properties for Cascading Variables
  Level 1).

The model takes the decoded token trees and the stylesheet text as
inputs.

| file | module | what it holds |
|---|---|---|
| `var_sets.dfy` | `VarSets` | A JavaScript object used as an ordered string dictionary: the value `VarSet`, assignment `Put`, a run of assignments `PutAll`, `Object.entries` as `Entries`, object spread `Spread`. It also holds the class `TokenMap`, whose methods `Set` (`obj[k] = v`) and `Assign` (`Object.assign`) update it in place. |
| `tokens.dfy` | `Tokens` | The token tree `Node`, and `Flatten`: the ordered list of assignments the flatteners perform. |
| `pgn_tokens.dfy` | `PgnTokens` | `generateCSSVariables`, which is identical in the two Paragon scripts. Also the five-way spread `allTokens`. |
| `css_text.dfy` | `CssText` | Declaration lines, `:root` blocks, and a reader that recovers the declarations from a block. |
| `custom_css.dfy` | `CustomCss` | `createCSSFile` and the whole of `build-custom-css.js`. |
| `merged_css.dfy` | `MergedCss` | `createCSSVariables`, the `newRootVars` loop, `includes`, the regex match, `replace` and the fallbacks. |
| `humain_table.dfy` | `HumainTable` | The six-row mapping table. |
| `humain_css.dfy` | `HumainCss` | `flattenTokens` and `createHUMAINOverrides`. |
| `wrappers.dfy` | `Wrappers` | `Option`. |

## How the model reads the code

**Token tree.** A decoded JSON value is one of three things:

- `Token`: an object whose `$value` is defined, whatever that value is (`0`, `""`, `false` and `null` included);
- `Group`: any other object, arrays included;
- `Scalar`: a string, number, boolean or null.

**Flatteners.** Write-order properties are stated once, about the write list `Flatten`.

- The Paragon flattener threads one `result` object through the recursion. `PgnTokens.GenerateCssVariables` is proved to leave it equal to `PutAll(old value, Flatten(...))`.
- `flattenTokens` builds a fresh object per call and merges each child result with `Object.assign`. `HumainCss.FlattenTokens` is proved to return `PutAll({}, Flatten(...))`. The link between the two styles is `VarSets.AssignFresh`.

**Guard in the flatteners.** Every flattener tests `!value.$value` in its second branch (build-custom-css.js:31). That branch is reached only when `$value` is undefined, so the test is always true.

- An object with a falsy but defined `$value` is still a leaf, because the first branch already caught it.
- Every other non-null object, arrays included, is recursed into.

The model follows the code here: the guard never makes an object with a falsy `$value` recurse.

**Field and format names.** The code reads `$value` and writes merged declarations as `name: value;` with a space (build-merged-css.js:61).

**`replace` call.** The `:root` splice uses `String.prototype.replace` with a string template (build-merged-css.js:65). `replace` reads `$$`, `` $& ``, `` $` `` and `$'` in that template as patterns. The model keeps two versions:

- `MergedCss.MergeAsWritten`: the call as written, with these patterns interpreted;
- `MergedCss.Merge`: the evidently intended literal insertion (see Findings). The splice properties (`MergedCss.MergeSplices` and the rows after it) are stated about this one.

`MergedCss.MergeIntoStylesheet`, the whole script, computes `MergeAsWritten`. It is proved equal to `Merge` whenever neither the declarations nor the stylesheet contain `$`.

**Regular expression.** `/:root\{([^}]+)\}/` is specified by the predicate `MergedCss.RootMatch`. `MergedCss.FindRoot` is proved to return the leftmost match, or none when there is no match.

## Model

| member | source | states |
|---|---|---|
| `VarSets.Put` | build-custom-css.js:30 | `obj[k] = v`: afterwards `k` holds `v`. A new key goes to the end and a present key keeps its position. No other key or value changes, and distinct keys stay distinct. |
| `VarSets.TokenMap.Set` | build-custom-css.js:30 | The object's new contents are `Put` of its old contents. |
| `VarSets.TokenMap.Assign` | build-humain-css.js:27 | `Object.assign(target, source)` copies the source's entries into the target in insertion order. The new contents are `PutAll(old contents, Entries(source))`. |
| `VarSets.PutAllConcat` | build-custom-css.js:23-35 | Two runs of assignments, one after the other, equal one run of their concatenation. |
| `VarSets.PutAllLastWins` | build-custom-css.js:30 | After a run of assignments, a name holds the value of its last write. |
| `VarSets.PutAllOrder` | build-custom-css.js:30 | After a run of assignments, the keys are ordered by first occurrence among the old keys followed by the written names. Overwriting never moves a key. |
| `VarSets.AssignFresh` | build-humain-css.js:27 | Assigning with `Object.assign` an object filled from `{}` by a list of writes equals doing those writes on the target directly. |
| `VarSets.SpreadIsPutAll` | build-custom-css.js:40-46 | An object spread copies every object's entries, one object after the other, into `{}`. |
| `VarSets.SpreadLastWins` | build-custom-css.js:40-46 | In a spread, a name takes its value from the last object that has it. |
| `VarSets.SpreadOrder` | build-custom-css.js:40-46 | The keys of a spread appear in the order of their first occurrence across the spread objects. |
| `VarSets.SpreadOfFresh` | build-merged-css.js:29-35 | Spreading objects that were each filled from `{}` equals one walk that performs all their writes into a single object. |
| `Tokens.FlattenLeaves` | build-custom-css.js:22-37 | A (name, value) pair is assigned if and only if a path of keys without `$` leads to a token with that `$value`, and that path builds the name. |
| `Tokens.WritesSound` | build-custom-css.js:28-33 | Every assignment names a reachable token and carries that token's `$value`. |
| `Tokens.WritesComplete` | build-custom-css.js:28-33 | Every reachable token is assigned under its path name. |
| `Tokens.MetaKeysIgnored` | build-custom-css.js:24 | Keys starting with `$` contribute nothing, and nothing beneath them is visited. Flattening equals flattening with those members removed. |
| `Tokens.TokenIsLeaf` | build-custom-css.js:28-30 | An object with a defined `$value` yields exactly one assignment, whatever the value, and its other members are never visited. |
| `Tokens.ScalarIgnored` | build-custom-css.js:28-34 | A string, number, boolean or null member yields nothing. |
| `Tokens.JoinPathIsDash` | build-custom-css.js:26 | The path name is the keys joined with `-`, empty keys included, with no leading dash at the top level. The one exception is an empty first key at the top level. |
| `Tokens.EmptyTopKeyDropped` | build-custom-css.js:26 | An empty first key at the top level is dropped, because `prefix ? … : key` keeps the prefix empty: the path `["", "b"]` builds `b`, not the dash-join `-b`. |
| `Tokens.FlattenSnoc` | build-custom-css.js:23 | Members are visited in `Object.entries` order: one more member appends its assignments at the end. |
| `PgnTokens.GenerateCssVariables` | build-custom-css.js:22-37 | The shared `result` ends up as its old contents followed by the walk's assignments, in walk order. |
| `PgnTokens.GenerateFresh` | build-merged-css.js:13-26 | A call with the default empty prefix and a fresh `{}` returns `PutAll({}, Flatten(obj, "--pgn-", ""))`. |
| `PgnTokens.CombineAll` | build-custom-css.js:40-46 | The `allTokens` literal is the spread of the five flattened sets, in the order core colours, typography, spacing, light colours, component. |
| `PgnTokens.AllTokensIsOneWalk` | build-merged-css.js:29-35 | The combined set equals one walk over the five trees, in that order, into a single object. |
| `PgnTokens.PathCollision` | build-merged-css.js:13-26 | `{"a": {"b": {"$value": "1"}}, "a-b": {"$value": "2"}}` leaves one key, `--pgn-a-b`, holding the later value `2`. |
| `CssText.RootBlockRoundTrip` | build-custom-css.js:49-56 | A `:root` block written from entries whose names have no `:` or line break, and whose values have no line break, reads back as exactly those entries in order. |
| `CustomCss.CreateCssFile` | build-custom-css.js:49-56 | The text is `":root {\n"`, then one `"  name: value;\n"` per entry in insertion order, then `"}\n"`. |
| `CustomCss.BuildCustomCss` | build-custom-css.js:40-66 | The written stylesheet is the block of the combined set, and the reported count is the number of its keys. |
| `CustomCss.CountIsDeclarationCount` | build-custom-css.js:66 | The file holds one declaration line per key, so the reported count equals the number of declarations written. |
| `CustomCss.EmptySetEmptyBlock` | build-custom-css.js:50-54 | An empty set gives `":root {\n}\n"`. |
| `MergedCss.CreateCssVariables` | build-merged-css.js:38-45 | The fallback block is `":root {\n"`, then one unindented `"name: value;\n"` per entry, then `"}\n"`. |
| `MergedCss.NewRootVars` | build-merged-css.js:59-62 | `newRootVars` is `"name: value;"` per entry, in insertion order, with no separators. |
| `MergedCss.Contains` | build-merged-css.js:48 | `includes` is true if and only if the text occurs at some index. |
| `MergedCss.FindRoot` | build-merged-css.js:53 | The match found is a match of `/:root\{([^}]+)\}/` and no match starts earlier. None is returned only when there is no match anywhere. |
| `MergedCss.MatchEndUnique` | build-merged-css.js:53 | From a given start there is at most one match: its body stops at the first `}`. |
| `MergedCss.MergeSplices` | build-merged-css.js:53-65 | When a match exists, only the leftmost one changes. The new declarations go in right after its `:root{` and ahead of the old body. Every other character is kept, and the output is exactly the inserted declarations longer. |
| `MergedCss.MergePrepends` | build-merged-css.js:66-75 | With no match, whether or not `:root{` occurs, the output is the fresh block followed by the unchanged stylesheet. |
| `MergedCss.EmptyRootFallsBack` | build-merged-css.js:66-70 | `:root{}` passes the `includes` test but does not match, so the fresh block is prepended. |
| `MergedCss.MergeGrows` | build-merged-css.js:65-74 | The literal `Merge` of a non-empty set always lengthens the stylesheet. This is not stated for the script as written, where each `` $` `` in the old body is replaced by the text before the match, which can be empty. |
| `MergedCss.MergeNotIdempotent` | build-merged-css.js:78-79 | The literal `Merge`, applied again to its own output as a second run of the script would do, changes the text again when the set is non-empty. |
| `MergedCss.MergeExample` | build-merged-css.js:65 | Merging `{"--a-b": "1px"}` into `:root{--c:2px;}` gives `:root{--a-b: 1px;--c:2px;}`. |
| `MergedCss.SubstituteLiteral` | build-merged-css.js:65 | `replace` inserts a template without `$` as it is. |
| `MergedCss.AsWrittenIsLiteralWithoutDollar` | build-merged-css.js:65 | Without `$` in the declarations or the stylesheet, the code as written performs the literal merge. |
| `MergedCss.DollarAmpersandRewrites` | build-merged-css.js:65 | A token value `$&` makes the code as written insert the whole matched block in its place. The literal merge keeps `$&`. |
| `MergedCss.MergeIntoStylesheet` | build-merged-css.js:29-82 | The stylesheet the script writes is `MergeAsWritten` of the combined set's entries into `light.min.css`, with `replace` reading `$` patterns. When neither the declarations nor the stylesheet contain `$`, it equals the literal `Merge`. The reported count is the number of keys. |
| `HumainCss.FlattenTokens` | build-humain-css.js:17-31 | Returns a fresh object equal to the walk's assignments, with no namespace, applied to `{}`. |
| `HumainCss.FlattenFields` | build-humain-css.js:19-29 | The loop leaves `result` as its old contents followed by the walk's assignments. |
| `HumainCss.FlattenMember` | build-humain-css.js:20-28 | A `$` key changes nothing. A token is assigned under its path. A group is flattened into a fresh object, which `Object.assign` then copies in. |
| `HumainCss.AppendTokenLines` | build-humain-css.js:43-54 | Each token loop appends `"  --humain-<key>: <value>;\n"` per entry, in order. |
| `HumainCss.AppendOverrideLines` | build-humain-css.js:71-74 | The mapping loop appends `"  P: var(H, var(P));\n"` per row, in table order. |
| `HumainCss.CreateHumainOverrides` | build-humain-css.js:34-78 | The sheet is `":root {\n"`, then the core colour lines, then the light colour lines, then the six override lines, then `"}\n"`. The component tokens do not reach it. |
| `HumainCss.HumainSheetReadsBack` | build-humain-css.js:39-76 | The sheet reads back as the core colour declarations, then the light colour declarations, both under `--humain-`, then the six overrides. |
| `HumainCss.SheetLayout` | build-humain-css.js:43-74 | The declaration count is core plus light plus six. The positions are: core colours first, light colours next, overrides last. |
| `HumainCss.SharedKeyDeclaredTwice` | build-humain-css.js:43-54 | A key in both colour sets is declared twice: the core value first and the light value later. |
| `HumainTable.MappingsPlain` | build-humain-css.js:59-69 | The table's names contain no `:` and no line break, so the override lines read back unambiguously. |

## Findings

| source | as written | input that shows it | evidently intended | confidence | as-written member | corrected member |
|---|---|---|---|---|---|---|
| build-merged-css.js:65 | The declarations are inserted through the replacement string of `String.prototype.replace`. `replace` reads `$$`, `` $& ``, `` $` `` and `$'` in that string as patterns. | A combined set `{"--a": "$&"}` and the stylesheet `:root{x}` produce `:root{--a: :root{x};x}`. | Insert the declarations and the old body literally, giving `:root{--a: $&;x}`. | medium (a `$` in a token value is unusual); not executed | `MergedCss.MergeAsWritten`, shown by `MergedCss.DollarAmpersandRewrites` | `MergedCss.Merge`, proved by `MergedCss.MergeSplices` |

## Left out

- Reading and writing files, `existsSync`, `mkdirSync` and `path.join` are I/O. The decoded trees and the stylesheet text are parameters.
- `JSON.parse` is not modelled. The model starts from the decoded `Node` tree.
- Selecting `.color` from the colour files is done by the caller, which passes the subtree. When `.color` is missing, `Object.entries(undefined)` throws a TypeError; this is not modelled.
- Every `console.log` is left out. That includes the token count text, the size report with `toFixed`, and the mapping descriptions. The `desc` column of the mapping table is therefore left out too. The count is returned as a number.
- Template-literal printing of non-string `$value`s (number formatting, `[object Object]`, array joining) is not modelled. A token's value is the string the script prints.
- `Object.entries` puts integer-like keys first. The model takes a group's members in the order `Object.entries` yields them, without deriving that order from the JSON text.
- Special keys such as `__proto__`, whose assignment changes the prototype instead of adding an entry, are not modelled.
- JavaScript strings are sequences of UTF-16 code units. The model uses Dafny characters and does no normalisation.
- CSS cascade semantics are not modelled: which duplicate declaration wins in a browser, and how the self-referential `var(P)` fallback resolves. The model covers the text only.
- `HumainCss.FlattenTokens` moves the loop of `flattenTokens` into `HumainCss.FlattenFields`, and the body of that loop into `HumainCss.FlattenMember`. The fresh object is still created per call and filled only by that loop.
