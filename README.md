# REST API Filter More Fields, modelled in Dafny

The WordPress plugin "REST API Filter More Fields" lets a REST client trim a
response with a `fields` query parameter such as
`id,title,acf{date,tags.limit(5)},posts.limit(2)`. The plugin does three things:

- It reads the parameter into a tree of field nodes. Each node has a name, an
  optional list of modifiers (`limit(5)`) and optional child nodes.
- It projects the response data onto that tree. It keeps only the requested
  keys, descends into child nodes and shortens numeric lists with `limit`.
- When the parameter is absent or yields no field, it leaves the response
  alone.

The Dafny project follows that structure. Each operation of the plugin that
works step by step is a method with the same loops. Each such method is proved
equal to a recursive reference function, and the properties are proved about
those functions.

| file | module | models |
|---|---|---|
| fields.dfy | `Fields` | field nodes (`Field`, `Modifier`, `Filter`), heads, pre-order traversal |
| tokenizer.dfy | `Tokenizer` | space removal and the matches of `([^{},]+)([{}]+)?,?` |
| paths.dfy | `Paths` | `explode(".")`, the modifier pattern `([^(]+)(?:\(([^)]+)\))?`, the node a match creates |
| parser.dfy | `Parser` | the tree built from the matches (`ParseLevel`, the reference) and its properties |
| levels.dfy | `Levels` | the plugin's scan with the `$levels` stack (`Feed`, `Parse`), proved equal to `ParseLevel` |
| printer.dfy | `Printer` | writing a tree back as a request; reading it back gives the tree |
| samples.dfy | `Samples` | worked requests: the matches they are cut into and the trees read from them |
| values.dfy | `Values` | PHP values, ordered arrays, `rest_api_fmf_is_numeric`, string subscripts |
| projector.dfy | `Projector` | `rest_api_fmf_loop` as a recursive reference and as loops, with its properties |
| plugin.dfy | `Plugin` | the decision made by `rest_api_fmf` |

A few points of the model need saying:

- **The tree as values.** The plugin appends each new node to its parent's
  `fields` at once and shares it with the stack by handle. The model keeps
  every open node on the stack as a `Levels.Scope`: its head and the children
  attached so far. A scope is attached to its parent when it closes. Nothing is
  added to a parent while one of its children is open, so every node ends up in
  the same place among its siblings.
- **Brace runs.** A brace run that starts with `{` pushes the new node once,
  whatever follows it. So `a{}` gives `a` with no `fields`, and in `a{},b` the
  node `b` becomes a child of `a`. A run that starts with `}` closes one level
  per character, so `}{` closes two.
- **Closing the root.** A closing run that removes every level, the root
  included, leaves the root's list as it is at that point. The plugin stores
  later matches on an object that is no longer reachable, so they never reach
  the result. The model stops the scan there (`Levels.Parse` returns early).
- **Array keys.** PHP turns a string subscript in canonical decimal form into
  an integer key (`$a["5"]` is `$a[5]`); `Values.KeyOf` models that. Arrays are
  ordered lists of entries. Assigning to an existing key keeps its position,
  and a new key is appended (`Values.Put`).
- **Numeric lists.** `rest_api_fmf_is_numeric` compares `array_keys` with
  `range(0, count - 1)`. For the empty array that range is `[0, -1]`, so the
  empty array is not numeric (`Values.IsNumericIff`).
- **`limit`.** The `(int)` cast reads an optional sign followed by leading
  decimal digits, and a bare `limit` (value `true`) is 1. `array_slice` with a
  negative length drops that many elements from the end. It renumbers integer
  keys, which leaves a numeric list as it is (`Projector.RenumberCounted`).

## Model

| member | source | states |
|---|---|---|
| Tokenizer.StripSpaces | rest-api-filter-more-fields.php:186 | the result has no space, and every other character is kept as often as it occurs |
| Tokenizer.TokensFrom | rest-api-filter-more-fields.php:153 | reference definition of the scan of `preg_replace_callback` from a position; properties in `Tokenizer.TokensValid`, `Tokenizer.TokensMatchRuns` and `Tokenizer.TokensOfRender` |
| Tokenizer.Tokens | rest-api-filter-more-fields.php:153 | reference definition of the matches of the whole request; properties in the same lemmas |
| Tokenizer.TokensValid | rest-api-filter-more-fields.php:153 | every match has a non-empty path free of `{`, `}` and `,`, and a brace run made only of braces |
| Tokenizer.TokensMatchRuns | rest-api-filter-more-fields.php:153 | the matches of the pattern correspond one to one, in order, to the maximal runs of characters other than `{`, `}` and `,` |
| Tokenizer.TokensOfRender | rest-api-filter-more-fields.php:153 | matches written back as text are read back unchanged |
| Paths.Split | rest-api-filter-more-fields.php:156 | reference definition of `explode(".")`; properties in `Paths.SplitNoDots`, `Paths.JoinSplit` and `Paths.SplitJoin` |
| Paths.SplitNoDots | rest-api-filter-more-fields.php:156 | no piece of `explode(".")` contains a dot |
| Paths.JoinSplit | rest-api-filter-more-fields.php:156 | joining the pieces with dots gives the path back |
| Paths.SplitJoin | rest-api-filter-more-fields.php:156 | splitting dot-free pieces joined with dots gives the pieces back |
| Paths.ParseModifier | rest-api-filter-more-fields.php:168-172 | the name is non-empty and has no `(` when present; it is missing exactly when the segment is only `(` characters; a value other than `true` is non-empty text without `)` |
| Paths.ParseModifiers | rest-api-filter-more-fields.php:165-173 | one modifier per segment, in order |
| Paths.NodeOf | rest-api-filter-more-fields.php:156-174 | a new node has no `fields`; it has no `modifiers` exactly when its path has no dot, and otherwise one modifier per dot |
| Paths.NodeName | rest-api-filter-more-fields.php:160 | the name has no dot and is the whole path or the text before its first dot |
| Paths.ParsePrintModifier | rest-api-filter-more-fields.php:168-172 | a well-formed modifier written as `name(value)` reads back as itself |
| Paths.NodeOfPrint | rest-api-filter-more-fields.php:156-174 | the path written from a well-formed name and modifiers reads back as that node |
| Parser.Matches | rest-api-filter-more-fields.php:153-184 | one match per token, in order |
| Parser.ParseLevel | rest-api-filter-more-fields.php:177-184 | a non-empty input gives at least one node and is consumed in part; the empty input gives none; input is left over only after a closing run |
| Parser.ParseLevelHeads | rest-api-filter-more-fields.php:177-179 | the nodes built, read in pre-order, followed by the matches left unread, are the matches' heads in order: one node per match |
| Parser.ParseLevelDepth | rest-api-filter-more-fields.php:183 | when no closing run removes the root, a level closes at most as many levels as are open, and the rest of the input still does not remove the root |
| Parser.Selector | rest-api-filter-more-fields.php:145-189 | reference definition of the tree built from a request; properties in `Parser.SelectorEmpty`, `Parser.SelectorNodes`, `Parser.SelectorPrefix`, `Parser.SelectorShaped` and `Printer.PrintSelector` |
| Parser.SelectorEmpty | rest-api-filter-more-fields.php:148-153 | the top-level list is empty exactly when the request holds no maximal run |
| Parser.SelectorNodes | rest-api-filter-more-fields.php:177-179 | when no closing run removes the root, the tree read in pre-order holds exactly one node per maximal run, in order, with that run's name and modifiers |
| Parser.SelectorPrefix | rest-api-filter-more-fields.php:183 | in every case the tree in pre-order is a prefix of the nodes of the runs: removing the root only cuts the list short |
| Parser.ParseLevelShaped | rest-api-filter-more-fields.php:178 | no node of the tree has an empty `fields` list |
| Parser.SelectorShaped | rest-api-filter-more-fields.php:178 | no node of the tree built from a request has an empty `fields` list |
| Levels.CloseTop | rest-api-filter-more-fields.php:183 | closing a level removes one entry from the stack |
| Levels.PopN | rest-api-filter-more-fields.php:183 | closing `k` levels removes `k` entries from the stack |
| Levels.CloseAll | rest-api-filter-more-fields.php:177-184 | reference definition of the tree that is left once every open level is attached to its parent; used by `Levels.Run` and `Levels.Parse` |
| Levels.Run | rest-api-filter-more-fields.php:151-184 | reference definition of the scan over the matches as a step semantics; proved equal to the recursive reading by `Levels.RunLevel` |
| Levels.RunLevel | rest-api-filter-more-fields.php:151-184 | the scan over the matches agrees with the recursive reading, level by level |
| Levels.RunFromRoot | rest-api-filter-more-fields.php:148-149 | the scan started with the root alone builds the reading's top-level list |
| Levels.Feed | rest-api-filter-more-fields.php:177-184 | the callback for one match: the stack keeps its height with no braces, grows by one with `{`, loses one entry per `}`; the root is removed exactly when the run is at least as long as the stack |
| Levels.Parse | rest-api-filter-more-fields.php:145-189 | `rest_api_fmf_filter` returns the root whose `fields` are the top-level list of the recursive reading |
| Samples.NestedSample | rest-api-filter-more-fields.php:153-186 | the request `a{b,c},d` gives `a` with children `b` and `c`, then `d` |
| Samples.DoubleCloseSample | rest-api-filter-more-fields.php:183 | in the request `a{b{c}},d` the run `}}` closes two levels, so `d` is at the top again |
| Samples.UnderflowSample | rest-api-filter-more-fields.php:183 | in the request `a},b` the closing run removes the root, so `b` never reaches the tree |
| Samples.EmptyBracesSample | rest-api-filter-more-fields.php:178-184 | the request `a{}` gives `a` with no `fields` |
| Samples.NestedText | rest-api-filter-more-fields.php:153-186 | the request `a{b,c},d` is cut into the matches `a{`, `b`, `c}` and `d` |
| Samples.DoubleCloseText | rest-api-filter-more-fields.php:153-186 | the request `a{b{c}},d` is cut into the matches `a{`, `b{`, `c}}` and `d` |
| Samples.UnderflowText | rest-api-filter-more-fields.php:153-186 | the request `a},b` is cut into the matches `a}` and `b` |
| Samples.EmptyBracesText | rest-api-filter-more-fields.php:153-186 | the request `a{}` is one match `a{}`, whose brace run pushes once |
| Printer.ForestHeads | rest-api-filter-more-fields.php:177-179 | the matches written for a tree carry its heads in pre-order |
| Printer.PrintParse | rest-api-filter-more-fields.php:177-184 | reading the matches written for a shaped tree gives the tree back |
| Printer.TokenRoundTrip | rest-api-filter-more-fields.php:153-184 | a written match is a valid token without spaces and reads back as the same match |
| Printer.PrintSelector | rest-api-filter-more-fields.php:145-189 | the request written for a shaped tree with writable names and modifiers is read back as that tree |
| Values.IndexOf | rest-api-filter-more-fields.php:83 | the position of the first entry with the key, or the length when there is none |
| Values.Lookup | rest-api-filter-more-fields.php:86 | a key is found exactly when it is one of the array's keys, and then its value is the one stored with it |
| Values.PutKeys | rest-api-filter-more-fields.php:126 | assignment keeps keys distinct, adds exactly the assigned key, stores the value under it and changes no other key |
| Values.IsNumeric | rest-api-filter-more-fields.php:136-138 | reference definition of `rest_api_fmf_is_numeric`; properties in `Values.IsNumericIff` |
| Values.PhpRange | rest-api-filter-more-fields.php:137 | `range($low, $high)` counts up or down one step at a time, both ends included |
| Values.IsNumericIff | rest-api-filter-more-fields.php:136-138 | a value is a numeric array exactly when it is a non-empty array keyed `0, 1, ..., n-1` in this order |
| Values.KeyOf | rest-api-filter-more-fields.php:83 | a string subscript denotes an integer key exactly when it is a canonical decimal integer, and otherwise the string itself; `Values.KeyOfDecimal` states which integer |
| Values.KeyOfSamples | rest-api-filter-more-fields.php:83 | `"0"` is an integer key; `"id"`, `"07"` and `"-0"` stay strings |
| Values.DecimalOfNat | rest-api-filter-more-fields.php:83 | reading the decimal form of a natural number gives that number |
| Values.NatOfDecimal | rest-api-filter-more-fields.php:83 | a string of digits without a leading zero (or `0`) is the decimal form of its value |
| Values.KeyOfDecimal | rest-api-filter-more-fields.php:83 | a string subscript denotes the integer key `i` exactly when it is the decimal form of `i`, `-` first when `i` is negative |
| Projector.DigitRun | rest-api-filter-more-fields.php:120 | the longest prefix of decimal digits |
| Projector.LeadingIntDecimal | rest-api-filter-more-fields.php:120 | `(int)` of the decimal form of any integer, followed by anything that does not start with a digit, is that integer |
| Projector.LeadingInt | rest-api-filter-more-fields.php:120 | reference definition of `(int)` on a string; properties in `Projector.LeadingIntDecimal` and `Projector.LeadingIntSamples` |
| Projector.LimitOf | rest-api-filter-more-fields.php:117-120 | reference definition of the length `limit` asks for; properties in `Projector.BareLimit` and `Projector.LimitKeepsPrefix` |
| Projector.ArraySlice | rest-api-filter-more-fields.php:120 | reference definition of `array_slice($a, 0, $len)`; properties in `Projector.LimitKeepsPrefix` and `Projector.RenumberCounted` |
| Projector.ApplyModifier | rest-api-filter-more-fields.php:116-121 | reference definition of one modifier step; properties in `Projector.ModifiersInert` and `Projector.LimitTwice` |
| Projector.ApplyModifiers | rest-api-filter-more-fields.php:113-123 | reference definition of the modifier loop; properties in `Projector.ModifiersInert`, `Projector.ModifiersKeepPrefix` and `Projector.LimitsCompose` |
| Projector.IsSet | rest-api-filter-more-fields.php:83 | reference definition of `isset($data[$field->name])`; properties in `Projector.CollectKeys` and `Projector.CollectEmpty` |
| Projector.Project | rest-api-filter-more-fields.php:70-130 | reference definition of `rest_api_fmf_loop`; properties in `Projector.ProjectFailsOpen`, `Projector.CollectKeys` and `Projector.CollectLast` |
| Projector.Collect | rest-api-filter-more-fields.php:80-127 | reference definition of the `foreach` over the fields; properties in `Projector.CollectKeys`, `Projector.CollectLast` and `Projector.CollectGrows` |
| Projector.FieldValue | rest-api-filter-more-fields.php:86-123 | reference definition of the value stored for one field; properties in `Projector.FieldValueScalar`, `Projector.FieldValuePlain` and `Projector.FieldValueList` |
| Projector.ProjectEach | rest-api-filter-more-fields.php:96-102 | reference definition of the element loop; properties in `Projector.ProjectEachSpec` and `Projector.ProjectEachNumeric` |
| Projector.Renumber | rest-api-filter-more-fields.php:120 | renumbering keeps the number of entries |
| Projector.Loop | rest-api-filter-more-fields.php:70-130 | the plugin's `foreach` over the fields computes the recursive projection |
| Projector.FilterField | rest-api-filter-more-fields.php:86-121 | the loop body for a field that is set computes the field's value: normalise, descend, apply modifiers |
| Projector.ProjectElements | rest-api-filter-more-fields.php:96-102 | the by-reference loop over a numeric list computes the element-wise projection |
| Projector.ApplyAll | rest-api-filter-more-fields.php:113-123 | the loop over a field's modifiers applies them in order |
| Projector.CollectKeys | rest-api-filter-more-fields.php:80-127 | the result array has distinct keys, and its keys are exactly those of the requested fields that are set with a non-null value |
| Projector.CollectEmpty | rest-api-filter-more-fields.php:83 | nothing is collected exactly when no requested field is set |
| Projector.ProjectFailsOpen | rest-api-filter-more-fields.php:129 | when no field is set (an empty field list, missing keys, null values, data that is no array) the normalised data comes back; otherwise the collected array |
| Projector.CollectLast | rest-api-filter-more-fields.php:126 | the value stored under a key is the one computed for the last set field with that key |
| Projector.CollectGrows | rest-api-filter-more-fields.php:126 | keys stay in the order in which they were first stored |
| Projector.ProjectEachSpec | rest-api-filter-more-fields.php:96-102 | a numeric list keeps its length and keys; each array or object element is projected and every other element is kept |
| Projector.ProjectEachNumeric | rest-api-filter-more-fields.php:95-102 | a numeric list stays numeric after its elements are projected |
| Projector.RenumberCounted | rest-api-filter-more-fields.php:120 | `array_slice` leaves keys that already count up as they are |
| Projector.LimitKeepsPrefix | rest-api-filter-more-fields.php:117-120 | `limit(n)` on a numeric list keeps exactly its first `array_slice` length elements |
| Projector.BareLimit | rest-api-filter-more-fields.php:117-120 | a bare `limit` keeps only the first element of a numeric list |
| Projector.ModifiersInert | rest-api-filter-more-fields.php:113-121 | modifiers change nothing on a value that is not a numeric list, and modifiers other than `limit` change nothing at all |
| Projector.ModifiersKeepPrefix | rest-api-filter-more-fields.php:113-121 | whatever its modifiers, a numeric list becomes one of its prefixes |
| Projector.LimitsCompose | rest-api-filter-more-fields.php:113-121 | two non-negative limits keep as many elements as the smaller one |
| Projector.LimitTwice | rest-api-filter-more-fields.php:117-120 | the same for two successive `limit` steps |
| Projector.FieldValueScalar | rest-api-filter-more-fields.php:92 | a value that is not an array is never descended into and is stored as it is |
| Projector.FieldValuePlain | rest-api-filter-more-fields.php:86-126 | a field without children or `limit` stores its value unchanged, objects cast to arrays |
| Projector.FieldValueList | rest-api-filter-more-fields.php:92-121 | a numeric list under a field with children becomes a prefix of the list of its projected elements |
| Projector.LeadingIntSamples | rest-api-filter-more-fields.php:120 | `(int)` of `"2"`, `"-1"`, `"3abc"` and `"abc"` is 2, -1, 3 and 0 |
| Plugin.Handle | rest-api-filter-more-fields.php:47-64 | `rest_api_fmf` returns what the decision function gives: unchanged, or the projection of the data onto the parsed tree |
| Plugin.Respond | rest-api-filter-more-fields.php:47-64 | reference definition of the decision made by `rest_api_fmf`; properties in `Plugin.RespondUnchanged` and `Plugin.RespondKeys` |
| Plugin.RespondUnchanged | rest-api-filter-more-fields.php:53-59 | the response is left alone exactly when the parameter is falsy or, once spaces are removed, holds no field name |
| Plugin.RespondKeys | rest-api-filter-more-fields.php:59-62 | once a tree is built, the data is replaced by an array keyed by exactly the set top-level fields, each key once, or by the normalised data when none is set |

## Left out

- The hook registration `rest_api_fmf_init` and its `add_action`/`add_filter` and `get_post_types` calls (:21-41): these are calls into WordPress only.
- The request and response objects: `get_param` becomes an optional string parameter, and `$data->data` becomes the value handed to `Plugin.Respond`. A parameter that is an array (`fields[]=`) is not modelled.
- PHP truthiness is modelled for strings only: absent, `""` and `"0"` are falsy.
- The by-reference side effects of `rest_api_fmf_loop`: `(array)` is applied in place to the caller's `$data` and `$sub`. The model treats the projector as a function of its input.
- Array order is kept, but the model has no sharing between PHP references: each value is a plain tree.
- Levels.Parse: the model stops at a closing run that removes the root, as if every later match were dropped. Under PHP 7 the plugin goes on with a warning and does not change the tree. Under PHP 8, assigning a property on `null` raises an error. The model captures neither of these.
- The regular expressions are modelled directly as maximal runs and as the first match of the modifier pattern. There is no PCRE engine.
- Projector.LeadingInt: `(int)` follows only an optional sign and leading decimal digits. Leading whitespace other than spaces, exponents (`"1e3"`) and saturation at the 64-bit bounds are not modelled.
- Values.KeyOf: integer keys are unbounded. A decimal string beyond the 64-bit range stays a string key in PHP but becomes an integer key here.
- Values.Normalize: `(array)` is modelled as one step on the outer object. Objects nested inside keep their type, as in PHP. Class-specific property names (private or protected mangling) are not modelled.
- Floating-point values are not modelled: `Values.Value` has no float case.
- `isset($data[$name])` on a string is not modelled: for data that is not an array, no field counts as set. PHP's string offsets would make `isset("abc"["0"])` true.
- Negative limits: `array_slice` with a negative length is modelled (`Projector.SliceLength`). Only `Projector.LimitKeepsPrefix` and `Projector.ModifiersKeepPrefix` state anything about it.
- A modifier segment with no match (empty, or only `(`): `preg_match` leaves `$arg_match[1]` undefined. It is modelled as a modifier with no name and the value `true`, which `limit` never matches.
