# Network viewer: attribute styling and graph loading, in Dafny

`script.js` drives a Cytoscape network viewer in the browser. This project
models its deterministic core and proves properties of it:

- **`stringToColor`**: a 32-bit rolling hash over the UTF-16 code units of a
  string, whose low 24 bits are written as `#RRGGBB` in upper-case
  hexadecimal (module `Color`, `color.dfy`).
- **`updateNodeStyle`**: the per-node style. Each node is reset to the
  defaults, then coloured by the hash of the colour attribute's string form.
  Its size is then min–max normalised into [20, 80] over the nodes whose size
  attribute is numeric (module `Styling`, `styling.dfy`).
- **`extractAndPopulateAttributes`**: discovery of the node data keys,
  without `id`, `label`, `x` and `y`, in first-appearance order. Both
  attribute dropdowns are refilled with these keys after their first option
  (module `Attributes`, `attributes.dfy`, and `Viewer.GraphView`).
- **The load handlers**: a parsed GEXF or GraphML graph becomes one element
  per node and then one per edge, with data built as
  `{id, label: attributes.label || id, ...attributes}`. The parser is chosen
  by the file suffix (module `Ingest`, `ingest.dfy`).
- **The page state**: nodes, edges, node styles and the two `<select>`
  dropdowns as classes whose methods update them in place. This covers
  start-up with the seven default nodes and the two load handlers (module
  `Viewer`, `viewer.dfy`).

JavaScript values are modelled in module `JsValues` (`jsvalues.dfy`):
- primitive values (string, number, boolean) with `undefined` as `None`;
- truthiness and `||`;
- `Number()` on the decimal subset of its grammar;
- `String()` on numbers;
- plain objects as their key order plus a map;
- object spread.

Numbers are Dafny `real`. The hash is an `int` with the 32-bit wrap of `<<`
written out; it agrees with the JavaScript number while that stays exact
(see "Left out").

A load does not keep the colour and size selections, even when their keys
still exist in the new graph. `extractAndPopulateAttributes` removes every
option but the first and then appends the keys (lines 159-172). Removing a
selected option makes the first option the selected one. So after every load
both dropdowns select their first option, whatever was chosen before
(`Viewer.GraphView.ExtractAndPopulateAttributes`, `Viewer.GraphView.LoadGraph`,
`Viewer.GraphView.LoadSample`, `Viewer.GraphView.UploadFile`).

## Model

| member | source | states |
|---|---|---|
| Color.StringToColor | script.js:78-85 | The loop keeps `hash` congruent, modulo 2^32, to the polynomial hash of the code units read so far. The result is `ColorFor(str)`: `#` and six upper-case hex digits whose value is that hash modulo 2^24. |
| Color.ColorFor | script.js:78-85 | The colour of a string is `#` followed by six upper-case hex digits. Their value is the sum of c_i·31^(n-1-i) over the UTF-16 code units, modulo 2^24. |
| Color.ColorOf | script.js:83-84 | For every v < 2^24 the formatted colour has 7 characters. It starts with `#`, the rest are upper-case hex digits, and they read back as v. |
| Color.FormatColor | script.js:83-84 | For a masked value v < 2^24, the hex conversion and padding statements give 7 characters: `#`, then six upper-case hex digits whose value is v. |
| Color.ColorUnique | script.js:83-84 | Two strings that are each `#` plus six upper-case hex digits with the same value are equal. So the colour of a value is unique, and the loop's result is `ColorFor`. |
| Color.HexValueInjective | script.js:83-84 | Upper-case hex strings of the same length and value are equal. |
| Color.PolyHashIsPowerSum | script.js:79-82 | The Horner recurrence of the loop equals the closed form Σ c_i·31^(n-1-i). |
| Color.HashStepCongruent | script.js:81 | One iteration `c + ((h << 5) - h)`, with `<<` wrapping to 32 bits, equals 31·h + c up to a multiple of 2^32. |
| Color.MaskedHash | script.js:83 | `& 0xFFFFFF` on the 32-bit hash keeps the low 24 bits of the unbounded polynomial hash. |
| Color.Int32 | script.js:81 | The 32-bit conversion always lands in [-2^31, 2^31). |
| Color.CodeUnits | script.js:80-81 | `charCodeAt` yields at least one code unit per character, each in [0, 65536). |
| Color.ToHexString | script.js:83 | `toString(16)` yields at least one lower-case hex digit. |
| Color.ToUpperCase | script.js:83 | `toUpperCase` keeps the length and maps each character on its own. |
| Color.UpperHexRoundTrip | script.js:83 | The upper-cased hex string of v is all upper-case hex digits and reads back as v. |
| Color.HexLength | script.js:83-84 | A value below 16^n has at most n hex digits, so the padding `6 - c.length` is never negative. |
| Color.HexValueLeadingZeros | script.js:84 | Leading zeros do not change the value of a hex string. |
| Color.PaddedHex | script.js:83-84 | Padding the hex digits of v < 2^24 to six gives `#` plus six upper-case digits whose value is v. |
| Color.PadZeros | script.js:84 | Zero-padding one to six hex digits to six keeps their value. |
| Color.HashValue | script.js:83 | The masked hash lies in [0, 2^24). |
| Styling.ComputeStyle | script.js:93-139 | One pass of the outer loop computes `StyleFor` of the node among all nodes. |
| Styling.ResetAndColor | script.js:96-110 | The reset and colour statements give `ColoredStyle`. |
| Styling.ScanRange | script.js:117-125 | The inner loop ends with `min` and `max` equal to the least and greatest numeric value. Both stay at their infinite start values (`None`) when no value is numeric. |
| Styling.Normalize | script.js:128-135 | The size of a value between min and max lies in [20, 80]. It is 30 when max = min, 20 at min and 80 at max (when min < max). |
| Styling.SizeFor | script.js:128-135 | For min ≤ v ≤ max the size lies in [20, 80]. It is 30 when max = min. |
| Styling.ColoredStyle | script.js:96-110 | After the reset and the colour step the node is 30×30. The label is `data.label \|\| data.id` and the font is 12px. Background and outline agree and are `#666` or a `#RRGGBB` colour. |
| Styling.StyleFor | script.js:93-137 | For every node: the label is `data.label \|\| data.id`, the font is 12px, background and outline agree, and width equals height and lies in [20, 80]. |
| Styling.NumericValuesMembers | script.js:119-124 | A number is in the range scan iff some node's size value converts to it. |
| Styling.MinOf | script.js:122 | The minimum is one of the values and at most each of them. |
| Styling.MaxOf | script.js:123 | The maximum is one of the values and at least each of them. |
| Styling.ColorRule | script.js:96-110 | Label `data.label \|\| data.id` and font 12px always hold. Background and outline are `#666` without a defined colour attribute. Otherwise both are the hash colour of `String(value)`. |
| Styling.DefaultSizeRule | script.js:98-99 | A node with no size attribute selected, or with a value that is missing or not a number, keeps width and height 30. |
| Styling.SizeRule | script.js:113-135 | A numeric node's value lies between the min and max of all numeric values. Width equals height and lies in [20, 80]. It is 30 when min = max, 20 at the min and 80 at the max. |
| Styling.SizeMonotone | script.js:132 | A larger value never gets a smaller size. When min < max, a strictly larger value gets a strictly larger size. |
| Styling.ScaleBounds | script.js:132 | For min ≤ v ≤ max the formula lies in [20, 80]. It is 20 at min and 80 at max. |
| Styling.ScaleMonotone | script.js:132 | The formula is monotone in the value, and strictly increasing when min < max. |
| Styling.NumericValuesContains | script.js:119-124 | Every node whose value is numeric contributes its value to the range scan. |
| Styling.NonNumericIgnored | script.js:119-124 | Inserting a node whose size value is not numeric changes neither the numeric values nor any other node's style. |
| Styling.SizeExample | script.js:113-135 | For three nodes whose values are 10, 20 and 70, the range is [10, 70]. The nodes are drawn 20, 30 and 80 wide. |
| Attributes.CollectAttributeKeys | script.js:148-156 | The nested loops filling the `Set` produce `DiscoveredKeys` of the nodes' data. |
| Attributes.DiscoveredKeysSpec | script.js:148-156 | Each discovered key appears once. A key is discovered iff it is not `id`/`label`/`x`/`y` and some node's data has it. |
| Attributes.DiscoverMembers | script.js:151-153 | Discovery over a key stream keeps each non-reserved key exactly once, and nothing else. |
| Attributes.DiscoverOrder | script.js:151-153 | Discovered keys are in the order of their first occurrence in the stream. |
| Attributes.AllKeysMembers | script.js:149-151 | A key is in the stream of all keys iff some node's data has it. |
| Attributes.DiscoverSeen | script.js:152-153 | Keys already in the set, and reserved keys, add nothing. |
| Attributes.SameKeys | script.js:148-156 | When all nodes have the same keys, the discovered keys are those of one node. |
| Attributes.FirstIndex | script.js:151-153 | The first position of a key in the stream holds the key, and no earlier position does. |
| Ingest.ConvertGraph | script.js:250-288 | The two `forEach` loops push the node elements, then the edge elements. |
| Ingest.ElementOrder | script.js:256-288 | There is one element per parsed node, in iteration order, followed by one per parsed edge. |
| Ingest.NodeElementsAt | script.js:256-275 | The i-th node element is the element of the i-th parsed node. |
| Ingest.EdgeElementsAt | script.js:278-288 | The j-th edge element is the element of the j-th parsed edge. |
| Ingest.NodeDataSpec | script.js:259-263 | Node data holds every attribute. `id` is the node key. `label` is the key unless the attributes have a label, which wins even when falsy. The keys are `id`, `label`, then the other attribute keys in order. |
| Ingest.NodeElementSpec | script.js:264-273 | The element style label is `attributes.label \|\| key` and the style is gray and 30×30. x and y come from the attributes only when they are truthy; otherwise they are jittered. |
| Ingest.EdgeDataSpec | script.js:281-286 | Edge data holds every attribute. `id`, `source` and `target` come from the parser unless the attributes override them. |
| Ingest.DispatchAgrees | script.js:339-348 | No name ends in both suffixes. Upload picks GEXF iff the name ends in `.gexf` and GraphML iff it ends in `.graphml`. Where upload accepts a name, the sample loader (line 242) picks the same parser; it parses every other name as GEXF. |
| Ingest.SuffixDispatch | script.js:339-344 | Any stem plus `.gexf` or `.graphml` is accepted by the upload handler, and both handlers choose the same parser format for it. |
| Ingest.SampleFormats | script.js:211-221 | The GraphML samples are exactly `got`, `marvel` and `quakers` (line 242). The upload handler would choose the same parser format for every sample file. |
| Ingest.CoordOf | script.js:265-266 | A coordinate is taken from the attributes exactly when the attribute is truthy, and it is then the attribute's value. |
| Ingest.LabelOr | script.js:261-272 | The label is `attributes.label \|\| node` under the `\|\|` semantics of `Or`. |
| JsValues.Truthy | script.js:100 | The falsy values are `undefined`, the empty string, 0 and `false`; everything else is truthy. |
| JsValues.Or | script.js:100 | `a \|\| b` is one of its operands, `a` when `a` is truthy, and is truthy iff either operand is. |
| JsValues.SpaceIgnored | script.js:114 | `Number()` of a string ignores white space before and after the text. |
| JsValues.NumberOfDigits | script.js:114 | `Number()` of a digit string is its decimal value, negated after a `-`. |
| JsValues.NumberToStringOfInt | script.js:107 | `String()` of an integer is its decimal numeral, with `-` before negative ones (as JavaScript does below 2^53 in magnitude; see "Left out"). |
| JsValues.SpreadLookup | script.js:259-263 | After `{...o, ...src}`, a key of `src` reads its `src` value and any other key reads its `o` value. The keys are those of `o`, then the new keys of `src`. |
| JsValues.SpreadIsAssignAll | script.js:259-263 | Spreading equals copying the properties of `src` one by one, in key order. |
| JsValues.SpreadWellFormed | script.js:259-263 | Spreading one object over another yields an object with each key once and a value for every key. |
| JsValues.IntegerStringRoundTrip | script.js:107-114 | `Number(String(n))` gives back every integral n. |
| JsValues.NatToDecimal | script.js:107 | `String` of a natural number is a non-empty digit string without a leading zero. |
| JsValues.DigitRun | script.js:114 | The leading digit run is all digits and is followed by a non-digit or the end. |
| Viewer.Dropdown.Remove | script.js:159-160 | `remove(index)` out of range changes nothing. Otherwise the option goes. Removing the selected option selects the first remaining one; options after the removed one keep their selection. |
| Viewer.Dropdown.Add | script.js:166-171 | `add` appends the option. It becomes selected only when the select had no option. |
| Viewer.Dropdown.Value | script.js:89-90 | `select.value` is the selected option's value, or "" when there is none. |
| Viewer.KeepFirstOption | script.js:159-160 | The `while` loop leaves exactly the first option, and it is selected. |
| Viewer.GraphView.UpdateNodeStyle | script.js:88-141 | Every node's style becomes `StyleFor` of its data among all node data, using the two selected values. Nodes and edges are unchanged. The result depends only on the data and the selections, so a second run gives the same styles. |
| Viewer.GraphView.ExtractAndPopulateAttributes | script.js:147-173 | Each dropdown holds its former first option followed by the discovered keys. The first option is selected. |
| Viewer.GraphView.ReplaceElements | script.js:291-292 | After removing all elements and adding new ones, the view holds exactly the node data, node styles and edge data of the elements, in order. |
| Viewer.GraphView.LoadGraph | script.js:250-296 | After a parse the view holds the parsed nodes' and edges' data in order. The dropdowns list their keys after the first option, which is selected. The styles are recomputed. |
| Viewer.GraphView.LoadSample | script.js:224-319 | An unknown key or a failed fetch is a load failure; a parse failure is a parse failure. Both leave the view unchanged. Otherwise the fetched file is parsed by the URL's suffix and loaded. |
| Viewer.GraphView.UploadFile | script.js:328-412 | No file does nothing. A name ending in neither suffix is refused. A parse failure leaves the view unchanged. Otherwise the file is parsed by its suffix and loaded. |
| Viewer.GraphView.constructor | script.js:5-22 | Start-up holds the seven default nodes and six edges. The dropdowns list the discovered keys after their first option, and each selects its first option. The styles are computed with those two selections (lines 176-177). |
| Viewer.StylesFor | script.js:92-140 | There is one style per node, the node's `StyleFor`. |
| Viewer.LoadedData | script.js:291-292 | Adding the converted elements gives the parsed nodes' data, then the parsed edges' data, each in order. |
| Viewer.NodesOfNodeElements | script.js:256-275 | The node data of the node elements is the parsed nodes' data, and there are no edges among them. |
| Viewer.EdgesOfEdgeElements | script.js:278-288 | The edge data of the edge elements is the parsed edges' data, and there are no nodes among them. |
| Viewer.NodeDatasAt | script.js:259-263 | The i-th loaded node data is `NodeData` of the i-th parsed node. |
| Viewer.EdgeDatasAt | script.js:281-286 | The j-th loaded edge data is `EdgeData` of the j-th parsed edge. |
| Viewer.DefaultKeys | script.js:7-13 | The default nodes offer exactly `category` and `score`, in that order. |
| Viewer.DefaultScores | script.js:7-13 | The default scores are 10, ..., 70, with min 10 and max 70. |
| Viewer.DefaultScoreSizes | script.js:7-13 | Sized by `score`, the i-th default node is 20 + 10·i wide. |

## Left out

- Rendering: the Cytoscape stylesheet beyond the node defaults, layouts and animations (lines 24-75, 297-301, 401-404). Positions after loading are also left out, because the layout moves them; the element's x and y are modelled, the view does not keep them.
- SVG export and download (lines 180-208): this is I/O.
- `fetch`, `FileReader`, `alert`, `console.error` and disabling the dataset dropdown (lines 224-240, 302-319, 327-336, 406-411): fetch and the parsers are function parameters; the notifications and the enabling/disabling are not modelled. Resetting the dataset dropdown's value after a failure is not modelled either.
- The auto-load on page load (lines 322-325): it triggers `LoadSample` for the page's default dataset, which the page markup chooses.
- GEXF and GraphML parsing and `Graph.from` (lines 246-248, 341, 344): this is a foreign library. Its outcome is the parameter `parse`. A multigraph that `Graph.from` rejects counts as a parse failure.
- The random jitter of missing positions (lines 265-266, 366-367): it is nondeterministic, so `Ingest.Coord` only records that the position is jittered.
- Exceptions raised by Cytoscape after the old elements are removed, such as duplicate ids or edges to missing nodes: `cy.add` is modelled as storing the elements it is given.
- Integer-like keys: `Object.keys` lists them before other keys in ascending order. The model keeps insertion order for all keys.
- Inherited properties: `data[attr]` also finds prototype properties such as `toString`. The model only sees own properties.
- Attribute values that are objects, arrays, `null` or `NaN`: only strings, numbers and booleans are modelled.
- The HTML markup: whether the first dropdown option is disabled, and what it says. A disabled first option would change which option the select falls back to.
- JsValues.ToNumber: models the decimal subset of `Number()`, which is white space, an optional sign, and digits with an optional fraction. Exponents, hexadecimal, `Infinity` and the other grammar forms give `None` (NaN) here, so it is weaker than JavaScript.
- JsValues.NumberToString: exact for integers below 2^53 in magnitude. For non-integers it writes a truncated decimal expansion (at most 20 digits) rather than the shortest round-tripping form, and there is no exponent notation.
- JsValues.NumberToStringOfInt: holds for JavaScript only for integers below 2^53 in magnitude. Above that, `String()` writes the shortest digits that round-trip the double, padded with zeros, which can differ from the exact numeral (`String(2**64)` is "18446744073709552000"); from 10^21 it uses exponent form ("1e+21"). The model writes the exact numeral, so a node whose colour value is such a number hashes different text (line 107).
- JsValues.IntegerStringRoundTrip: stated over exact integers; for JavaScript numbers it is meant for integers below 2^53 in magnitude, for the same reason.
- Styling.SizeFor: uses exact real arithmetic; IEEE-754 rounding of the formula is not modelled.
- Color.StringToColor: in JavaScript `hash` is a double, not a 32-bit integer. Each step adds at most about 2^31 to its magnitude, so it stays exact below 2^53 for strings of fewer than about four million code units. The model's unbounded `int` agrees with it exactly there. Longer strings, where the double rounds, are not modelled.
- Start-up edge ids: the six start-up edges (lines 16-21) have no `id`. Cytoscape generates one when it adds them; `Viewer.DefaultEdges` holds only `source` and `target`.
- Color.CodeUnits: Dafny strings hold Unicode scalar values, so JavaScript strings containing a lone surrogate are not represented.
