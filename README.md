# postman-cli utilities, modelled in Dafny

postman-cli is a command-line tool for browsing a Postman collection. A
collection is a tree of folders (ItemGroup), requests (Item) and examples
(Response). The tool's `src/util.ts` holds four pieces of logic that this
project models:

- **Path resolution.** `findRecurse` walks from a collection down a path of
  names. At each step it takes the first child whose lower-cased name equals
  the segment.
- **Tree listing.** `listRecurse` builds a nested array of `"<symbol> <name>"`
  labels in pre-order. `getInstanceSymbol` picks the kind symbol.
- **Listing rendering.** `showList` turns that nested array into indented
  lines, using one shared `tab` counter.
- **Request details.** `getDetails` extracts a request's data, and
  `showDetails` composes the header line and filters the fields for display.

The modules are:

- `Text`: ASCII lower-casing, tabs and quoting.
- `Postman`: the resource tree and the request data.
- `Resolver`: `findRecurse`.
- `Lister`: `getInstanceSymbol` and `listRecurse`.
- `Rendering`: `showList`.
- `Details`: `getDetails` and `showDetails`.

Runtime class checks (`instanceof`, `isItem`, …) become the variants of
`Postman.Resource`, plus `Unknown` for a value that no check recognises.

Code with loops or state is modelled as methods:

- `findRecurse` becomes a method with a `while` loop.
- `listRecurse` becomes a method over a `Names` object that it pushes into.
- `showList` becomes a `Renderer` object with the `tab` and `result` fields.
- The field filter of `showDetails` becomes a loop.

Each method is proved equal to a specification function (`Resolve`,
`Listing`, `Each`/`Show`, `Filtered`). The lemmas then state what those
functions mean:

- A trail characterisation of success and failure in path resolution.
- Node count and pre-order for the listing.
- Depth indentation for the rendering.

Outside inputs are parameters of the model:

- `JSON.parse` is `parse: string -> Option<Json>`, where `None` means the call throws.
- The pretty-printer `ex` (Node's `util.inspect`) is `ex: (Json, bool) -> string`.
- The SDK's `toObject()` and `getPath({unresolved: true})` results are fields of `Postman.Url` and `Postman.HttpRequest`.

## Behaviour worth knowing

- **A NotFound message always names the collection.** `findRecurse` names the
  scope only when `resource instanceof psdk.ItemGroup`. But the scope is
  always a PropertyList, an array of responses, or a lone Response, never an
  ItemGroup. So a missing child of folder `f1` is reported as `"missing" not
  found in "<collection>".`, not against `f1`. See
  `Resolver.SampleMissingNamesRoot` and `Resolver.ErrorIffStopped`.
- **Matching is not case-insensitive.** Only the candidate's name is
  lower-cased (`src/util.ts:94`), not the segment. A segment with an
  upper-case letter therefore never matches. See
  `Resolver.UpperCaseSegmentNeverResolves` and `Resolver.SampleUpperCaseFails`.
- **An empty path is valid.** It returns the root's items unchanged. See
  `Resolver.ItemsOnlyForEmptyPath`.
- **A path step past an example is a NotFound error.** The lone Response has
  no `find`, so the next lookup finds nothing. The message again names the
  collection. See `Resolver.PastExampleFails`.
- **An example does not fall back to its request.** Without its own
  `originalRequest`, `getDetails` returns the "not found request data" error.
  It never reads the owning request. See `Details.ExampleUsesOnlyItsSnapshot`.
- **`showDetails` throws on a folder or collection.** Such a node skips
  `getDetails` and is used as the details object itself. It has no `url`, so
  reading `details.url.method` throws a TypeError (`Details.Chosen`).

## Model

| member | source | states |
|---|---|---|
| Text.ToLower | src/util.ts:94 | `toLowerCase` on ASCII: same length, every letter A-Z mapped to a-z, everything else kept |
| Text.LowerHasNoUpper | src/util.ts:94 | a lower-cased string contains no upper-case letter |
| Text.Tabs | src/util.ts:196 | `'\t'.repeat(n)` for n ≥ 0: exactly n tab characters |
| Resolver.FindNext | src/util.ts:92-95 | a lone resource (no `find`) yields nothing; a found resource is in the list and matches the segment; nothing found in a list means no element matches |
| Resolver.FirstMatch | src/util.ts:92-95 | `find` returns the first index whose element's lower-cased name equals the segment, or none when no element matches |
| Resolver.FindNextIsFirstMatch | src/util.ts:92-95 | a found resource comes from a searchable list, matches the segment, and no earlier element matches |
| Resolver.FindNextNone | src/util.ts:92-95 | `findNext` finds nothing exactly when the scope has no `find` or no element matches |
| Resolver.UpperCaseSegmentMatchesNothing | src/util.ts:94 | a segment containing an upper-case letter matches nothing in any scope |
| Resolver.FindRecurse | src/util.ts:90-134 | the loop returns exactly `Resolve(parent, args)`; it searches at most one scope per segment, and exactly one per segment when it returns a node |
| Resolver.ResolvedIffTrail | src/util.ts:105-130 | a node is returned exactly when the path is non-empty and some trail (each segment's first match in the scope the previous node opened, each of a known kind) ends at it |
| Resolver.ResolvedShape | src/util.ts:115-130 | on success the node's lower-cased name is the last segment, and every earlier node on the trail is a folder, a collection or a request |
| Resolver.UpperCaseSegmentNeverResolves | src/util.ts:92-107 | a path with an upper-case letter in any segment never resolves to a node |
| Resolver.ErrorIffStopped | src/util.ts:105-131 | an error is returned exactly when a segment on a trail finds nothing (the message names that segment and the root) or finds a node of unknown kind ("Found unknown instance") |
| Resolver.PastExampleFails | src/util.ts:107-130 | any segment after a matched example fails with a NotFound message naming that segment and the root |
| Resolver.ItemsOnlyForEmptyPath | src/util.ts:97-133 | the root's item list is returned exactly for the empty path |
| Resolver.SampleResolvesExample | src/util.ts:90-134 | with collection c > folder f1 > request r1 > example e1, the path f1 r1 e1 returns the example |
| Resolver.SampleMissingNamesRoot | src/util.ts:108-113 | in that tree, f1 missing fails with `"missing" not found in "c".` |
| Resolver.SampleUpperCaseFails | src/util.ts:94 | in that tree, the segment F1 fails although f1 exists |
| Resolver.SampleExtraAfterExample | src/util.ts:127-130 | in that tree, any segment after f1 r1 e1 fails with a NotFound message naming c |
| Lister.Symbol | src/util.ts:179-188 | the symbol is one character, and it is `?` exactly for a value none of the class checks recognises |
| Lister.SymbolKinds | src/util.ts:179-188 | C exactly for a collection, F exactly for another ItemGroup, R for an item, E for a response, ? for anything else |
| Lister.ListingAt | src/util.ts:161-177 | entry i of the listing is the array of element i, so the listing follows the stored order |
| Lister.Names.Push | src/util.ts:163 | `push` appends one value and keeps the rest |
| Lister.ListRecurse | src/util.ts:161-177 | a non-iterable parent leaves `names` unchanged; otherwise the arrays of the elements are appended in order after the existing entries |
| Lister.Visit | src/util.ts:162-176 | one call appends a single array: the node's label followed by the arrays of its children |
| Lister.ListingCountsNodes | src/util.ts:161-177 | the listing holds exactly one array per node of the tree |
| Lister.ListingIsPreOrder | src/util.ts:161-177 | read in order, the listing's strings are the labels in pre-order: each node before its children, siblings in stored order |
| Rendering.Renderer.constructor | src/util.ts:191-192 | a render starts with `result` empty and `tab` at 0 |
| Rendering.Renderer.Recurse | src/util.ts:193-200 | `recurse(array)` moves the counter and the text exactly as the `forEach` specification `Each` does, including the throw |
| Rendering.ShowList | src/util.ts:190-204 | `showList` returns the specification `Show`: the rendered text, or the RangeError |
| Rendering.EachIndents | src/util.ts:193-200 | when every array is non-empty and no array holds an earlier copy of its last element, each array's line is indented by its depth and the counter ends one below where it started |
| Rendering.RunIndents | src/util.ts:190-204 | under those conditions the whole rendering prints every array's first element at its nesting depth |
| Rendering.ListingLines | src/util.ts:161-177 | depth-indented lines of the listing are the tree's outline: each label at its node's depth, in pre-order |
| Rendering.ShowListIndentsByDepth | src/util.ts:190-204 | when no two siblings share a label, `showList` of the listing indents each node's line by its depth (top level by one tab) |
| Rendering.EachShape | src/util.ts:193-200 | whenever the `forEach` over an array does not throw, it appends one line per nested array in pre-order, each `' ' + e[0]` after some number of tabs, and nothing else |
| Rendering.ArrayShape | src/util.ts:194-199 | from a nested array on, the `forEach` appends the same kind of lines, the first (the nested array's own) at one tab more than the counter before it |
| Rendering.ShowKeepsLines | src/util.ts:190-204 | for every input `showList` does not throw on, the text is those lines with some tab count per line: only the indentation depends on the counter |
| Rendering.BareListing | src/util.ts:161-177 | the line texts of a listing are `' '` before each label, in pre-order |
| Rendering.ShowListKeepsLabels | src/util.ts:161-204 | every text `showList` returns for a listing, duplicate siblings or not, holds one line per node in pre-order with `' ' + <symbol> <name>` after some tabs |
| Rendering.DuplicatePairMisindents | src/util.ts:199 | two identical childless siblings: the second line has no tab, unlike the intended outline |
| Rendering.TripleDuplicateThrows | src/util.ts:196-199 | three identical childless siblings drive the counter to -1, and `'\t'.repeat` throws |
| Rendering.ShowByPositionIndentsByDepth | src/util.ts:199 | with the counter lowered only at an array's last position, every listing is indented by depth, duplicates or not |
| Details.BodyText | src/util.ts:55 | the text parsed as body: the raw text when present and non-empty, otherwise `{}` |
| Details.GetDetails | src/util.ts:44-62 | fails exactly when there is no request (example: its own snapshot; item: its request), with `not found request data on "<name>"`; throws exactly when the body text does not parse; otherwise returns the lower-cased method, path, variables, query, headers and parsed body |
| Details.ExampleUsesOnlyItsSnapshot | src/util.ts:46-50 | an example without `originalRequest` fails, whatever its request has |
| Details.DetailsNormalised | src/util.ts:55-58 | the method holds no upper-case letter, and a missing or empty raw body is parsed as `{}` |
| Details.Entries | src/util.ts:33-61 | `Object.entries` of a `getDetails` result: params, query, body, url (an object of path then method) and headers, in that order |
| Details.EntriesKeepEverything | src/util.ts:52-61 | the entries carry every field of the details: two details with the same entries are equal |
| Details.Filtered | src/util.ts:33-37 | the filter never adds entries |
| Details.FilteredKeepsExactly | src/util.ts:33-37 | an entry is shown exactly when its key is not ignored and it prints as more than two characters |
| Details.FilterDetails | src/util.ts:32-37 | the `forEach` builds the filtered entries in order, and no ignored key is among them |
| Details.Chosen | src/util.ts:20-28 | given details are used with an empty name; an item or response takes its name and `getDetails`' result, failing exactly when it has no request, with that message; any other resource throws |
| Details.ShowDetails | src/util.ts:19-41 | an error from `getDetails` is returned unchanged; a parse failure, or a folder or collection given as details, throws; otherwise the result is the composed display block |
| Details.Compose | src/util.ts:30-40 | once name and details are known, the method's text is the display block `Display` that `Details.DisplayShape` describes |
| Details.DisplayShape | src/util.ts:30-40 | the block starts with `name method path`, and is followed by `\n` and the pretty-printed kept fields exactly when those print as more than two characters |
| Details.DefaultIgnoreHidesUrlAndHeaders | src/util.ts:19-37 | with the default ignore list, the url and headers fields are never shown |

## Left out

- The I/O helpers `getCollection` and `fileExists`, and the `getVariables` option reader. They only do file, network and CLI work.
- The `parseAxiosError` helper, which only reports network errors.
- The output of `ex` (`util.inspect`). It is a parameter, so only its length decides whether a field is shown.
- `chalk` colouring. `getInstanceSymbol`'s `chalk.white` and `showDetails`' `chalk.inverse` are modelled as identity.
- The postman-collection SDK itself. `toObject()`, `getPath` and the PropertyList `find` are taken as given values.
- Text.ToLower: covers ASCII letters only, because the full Unicode case mapping of `toLowerCase` is not modelled.
- Lister.Visit: the source pushes an empty array and fills it through `names.at(-1)`. The model builds that array in a fresh `Names` and pushes it once complete. The final contents are the same, but the moment when the partly filled array is visible is not modelled.
- Lister.ListRecurse: the `args` parameter is unused by the source and is dropped.
- Resolver.FindRecurse: requires the root to be an ItemGroup. The command layer only passes a collection, and `parent.items` of anything else is not modelled.
- The SDK's back-reference from an example to its request is not modelled. `getDetails` never reads it, and neither does the resolver.
- Details.GetDetails: a request whose `url`, `variables` or `headers` is missing (a TypeError in the source) is not modelled. `Postman.HttpRequest` always carries them.
- Details.ShowDetails: `isItem`/`isResp` on an `Unknown` value, and the non-resource objects that are not `ResourceDetails`, are modelled as throwing. The model does not track which properties such objects might have.
- Details.Entries: the key order and the five keys are those `getDetails` writes. Details given directly to `showDetails` with other keys, or keys in another order, are not modelled. That would change only what `ex` is given.
- Postman.Json: JSON numbers are IEEE doubles in the source and integers in the model. Numbers are only passed between the parameters `parse` and `ex`, and no operation of the model computes with them.
- Rendering.ShowList: each array's first element is taken as the text of a listing value (its `String()` form). No colours or other object kinds appear in the listing.

## Findings

| source | as written | input that shows it | evidently intended | confidence | as-written member | corrected member |
|---|---|---|---|---|---|---|
| src/util.ts:199 | `tab` is lowered after every element that is deep-equal (`_.isEqual`) to the array's last element | a collection whose top level holds two or three identical childless requests, e.g. two requests both named `r`: the second line loses its tab, and with three `'\t'.repeat(-1)` throws a RangeError | lower `tab` once per array, after its last position, so every line is indented by its depth | not executed | Rendering.DuplicatePairMisindents | Rendering.ShowByPositionIndentsByDepth |
