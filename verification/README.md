# blur-web-config core, modelled in Dafny

blur-web-config is a web front end for editing an nginx-style server configuration held by a
backend. The backend sends a nested raw record. The front end parses it into a tree of
`ConfigBlock`s. Each block holds its own parameters, its leaf `configItems`, and its child
blocks grouped by key. Every node gets a path string such as `/http/children/server/0/params/0`,
and updates are posted back to the backend under that path.

This project models the logic around that tree:

- **Parser and path builder** (`Parser`, `PathBuilder`, `ConfigTypes`, `ParserProperties`).
  Raw elements become blocks and items, and every node gets its path.
  - Every raw child lands exactly once: blocks go to their key's list, in order; items go to `configItems`.
  - No key maps to an empty list.
  - Non-unique siblings under one key get distinct paths. A unique element's path drops its array position, so two unique elements under one key share a path.
  - A parameter's path can be read back as its owner path and declared index.
- **Path resolver** (`ConfigHelpers`). `getValue` splits a path on `.` and walks object keys
  and array indices over a JSON-like value.
  - Walks compose.
  - The server selector's lookup yields the server list.
  - The slash paths the pages pass always miss.
- **Edit sessions** (`EditSession`, `ConfigState`, `LocationPage`, `SslPage`). A scope holds
  the edited values, the saved values and an in-flight flag.
  - The operations are seed, edit, has-changes and a two-phase save; the remote batch's success or failure is a parameter.
  - The SSL page's copy is modelled on its own.
  - The location page's seeding, has-changes test and save start are modelled on their own, with lemmas that they agree with the hook on an existing scope.
  - The location page's edit and its end of save are the same code as the hook's. They are modelled by `ConfigState.ParamChange` and `ConfigState.FinishSave`.
  - Lemmas tie the copies together or show where they differ. On success the SSL page saves the map captured when the save started; the hook saves the map as it is when the batch settles.
- **Small helpers**:
  - the priority sort of items (`ItemOrder`), a stable three-group sort proved to be a permutation, sorted, stable and unique;
  - the server display-name fallback (`DisplayName`);
  - the boolean string encoding of the parameter editor (`ParamInput`);
  - the API client's retry policy, attempt bound, request spacing and error message (`ApiClient`).

Supporting modules:

- `Wrappers`: `Option`.
- `Seqs`: first-match search, the model of `Array.prototype.find`/`findIndex`.
- `Strings`: splitting, joining, substring search, and decimal rendering and parsing of indices.

## Model

| member | source | states |
|---|---|---|
| PathBuilder.BuildParamPath | src/api/parser.ts:31-33 | the parameter path extends its owner's path |
| PathBuilder.ParamPathSegments | src/api/parser.ts:31-33 | split on `/`, a parameter path is the owner's segments followed by `params` and the decimal index |
| PathBuilder.ParamPathRoundTrip | src/api/parser.ts:31-33 | the owner path and index can be read back from a parameter path |
| PathBuilder.ParamPathPartsSound | src/api/parser.ts:31-33 | whatever is read back from a path rebuilds exactly that path |
| PathBuilder.BuildElementPath | src/api/parser.ts:35-42 | an element path extends its parent's path |
| PathBuilder.ElementPathSegments | src/api/parser.ts:35-42 | split on `/`, an element path is the parent's segments, then the key, then the index only when the element is not unique |
| PathBuilder.UniqueIgnoresIndex | src/api/parser.ts:41 | a unique element's path does not depend on its array position |
| PathBuilder.SiblingPathsDistinct | src/api/parser.ts:41 | non-unique siblings under one key at different positions get different paths |
| Parser.ParseParam | src/api/parser.ts:47-57 | reading the path back recovers the owner path and the whole raw parameter, so the path uses the declared index and every other field is copied |
| Parser.ParseParams | src/api/parser.ts:72 | parameters keep their order and count, each recoverable to its raw form under the owner's path |
| Parser.ParseItem | src/api/parser.ts:61-74 | the item gets the element path and its parameters keep order and count below that path |
| Parser.ParseBlock | src/api/parser.ts:76-103 | the block gets the element path, its parameters keep order and count and read back under that path, and it holds one item or block per raw child |
| Parser.Place | src/api/parser.ts:110-118 | a child becomes a block under its key exactly when `is_block` is set, and either way it gets the element path for its key and position |
| Parser.ParseArray | src/api/parser.ts:111-119 | walking a child array keeps what was pushed before and pushes one child per remaining element |
| Parser.ParseEntries | src/api/parser.ts:105-121 | walking the child record keeps what was pushed before and pushes one child per raw element across all keys |
| Parser.ParseRootEntries | src/api/parser.ts:149-157 | walking the top-level record keeps what was pushed before and pushes one element per entry |
| Parser.ParseRoot | src/api/parser.ts:139-160 | the root has path `""`, no parameters, and one item or block per top-level entry |
| Parser.ParseRawConfig | src/api/parser.ts:175-177 | the parsed tree's root has path `""`, no parameters, and one item or block per top-level entry |
| ParserProperties.PlaceShape | src/api/parser.ts:110-118 | a child becomes a block exactly when `is_block` is set, and in either case its path is the element path for its key and position |
| ParserProperties.CollectBlocks | src/api/parser.ts:123-135 | after the pushes, each key's list is the earlier list followed by that key's blocks in order |
| ParserProperties.CollectKeys | src/api/parser.ts:131-133 | a key is present exactly when it was present before or some block of that key was pushed |
| ParserProperties.CollectWellFormed | src/api/parser.ts:131-134 | pushing never creates a duplicate key or an empty list |
| ConfigTypes.LookupSpec | src/api/parser.ts:131 | the group lookup finds the first group with the key, and fails only when no group has it |
| ConfigTypes.AppendBlockWellFormed | src/api/parser.ts:131-134 | appending a block keeps keys unique and lists non-empty |
| ConfigTypes.AppendBlock | src/api/parser.ts:131-134 | the key's list becomes its earlier list (none when absent) followed by the block, every other key's lookup is unchanged, and the block total grows by one |
| ConfigTypes.AppendBlockKeys | src/api/parser.ts:131-134 | after the push every key is the appended key or one that was present before |
| ParserProperties.ParseArrayIsCollect | src/api/parser.ts:111-119 | walking one child array is pushing its children in array order |
| ParserProperties.ParseEntriesIsCollect | src/api/parser.ts:105-121 | walking the child record is pushing all children, entry by entry, each array in order |
| ParserProperties.ParseRootEntriesIsCollect | src/api/parser.ts:149-157 | walking the top-level record is pushing each element at parent `""` and index 0 |
| ParserProperties.CollectFromEmpty | src/api/parser.ts:94-95 | starting from empty lists, the items are exactly the non-block children in order, each key's list exactly its blocks, no key is empty, and the total count is kept |
| ParserProperties.ParseBlockShape | src/api/parser.ts:76-103 | a parsed block has the element path and its parameters, and its children are placed as described under `<path>/children` with none lost or duplicated |
| ParserProperties.ParseRootShape | src/api/parser.ts:139-177 | the root has path `""` and no parameters; every top-level element is placed exactly once |
| ParserProperties.TopLevelPath | src/api/parser.ts:149-171 | a top-level unique element is at `/key` and a non-unique one at `/key/0` |
| ParserProperties.SingleRootBlock | src/api/parser.ts:162-172 | a record with one block gives a root whose only group is that block under its key |
| ParserProperties.SingleChildBlock | src/api/parser.ts:98-134 | a block with one child block holds it under the child key, parsed below `<path>/children` |
| ParserProperties.HttpOfExample | src/api/parser.ts:140-171 | a unique `http` block is at `/http` and its server is parsed below `/http/children` |
| ParserProperties.ServerOfExample | src/api/parser.ts:35-57 | a non-unique server at position 0 is at `<parent>/server/0` and its parameter 0 at `<parent>/server/0/params/0` |
| ConfigHelpers.GetValue | src/api/utils/configHelpers.ts:4-13 | a string, number, boolean or null has no value under any path, and a dot-free path is a single key lookup |
| ConfigHelpers.Step | src/api/utils/configHelpers.ts:8-11 | one step succeeds only on an object or array; on an object exactly when the key is present, with that field's value |
| ConfigHelpers.GetPathAppend | src/api/utils/configHelpers.ts:7-13 | walking two part lists in a row is walking their concatenation |
| ConfigHelpers.GetValueCompose | src/api/utils/configHelpers.ts:4-13 | `getValue(c, a + "." + b)` is `getValue` of `b` on the result for `a`, and undefined when that is |
| ConfigHelpers.ScalarHasNoPath | src/api/utils/configHelpers.ts:8 | every path is undefined on a string, number, boolean or null |
| ConfigHelpers.SingleKeyLookup | src/api/utils/configHelpers.ts:4-11 | a dot-free path is one lookup; on an object it is defined exactly when the key is present |
| ConfigHelpers.ArrayIndexLookup | src/api/utils/configHelpers.ts:10-11 | an in-bounds index selects that element and an out-of-bounds one gives undefined |
| ConfigHelpers.ArrayNeedsIndex | src/api/utils/configHelpers.ts:10 | a part that is not an array index finds nothing in an array |
| ConfigHelpers.BlockJson | src/api/parser.ts:87-96 | a parsed block, seen as a value, is an object with exactly the parser's six fields |
| ConfigHelpers.GroupsJsonLookup | src/api/parser.ts:131-134 | the `childrenBlocks` record has a key exactly when the group list does, holding that key's blocks |
| ConfigHelpers.NestedGroupLookup | src/api/utils/configHelpers.ts:4-13 | `childrenBlocks.<k1>.0.childrenBlocks.<k2>` reaches the `k2` list of the first `k1` block |
| ConfigHelpers.ServerListLookup | src/components/ServerSelector.tsx:17-19 | the server selector's path yields the server list of the first `http` block |
| ConfigHelpers.SlashPathMisses | src/pages/LocationPage.tsx:24-26 | a path starting with `/` is undefined on any parsed block |
| EditSession.InitialValues | src/components/hooks/useConfigStatus.ts:35-49 | the keys are exactly the non-empty paths of the items' parameters, each holding the value of the last parameter with that path; the block's own parameters are not read |
| EditSession.Overlay | src/components/hooks/useConfigStatus.ts:39-42 | no empty path ever becomes a key |
| EditSession.OverlaySpec | src/components/hooks/useConfigStatus.ts:35-49 | the initial map's keys are exactly the non-empty parameter paths, each mapped to the value of the last parameter with that path |
| EditSession.FlatParamsAppend | src/components/hooks/useConfigStatus.ts:37-45 | items contribute their parameters in item order, so a later item overrides an earlier one |
| EditSession.Fresh | src/components/hooks/useConfigStatus.ts:57-67 | a seeded scope holds the block's initial map as both edited and saved, with no save in flight |
| EditSession.Edit | src/components/hooks/useConfigStatus.ts:81-90 | an edit sets one key of the edited map and keeps every other key, the saved map and the flag |
| EditSession.ChangedKeys | src/components/hooks/useConfigStatus.ts:102-104 | a key is changed exactly when it is edited and its saved entry is missing or different |
| EditSession.HasChanges | src/components/hooks/useConfigStatus.ts:130-137 | there are changes exactly when the set of changed keys is non-empty |
| EditSession.Updates | src/components/hooks/useConfigStatus.ts:107-111 | every changed key is written once, with its edited value, at `<key>/value`; each update reads back to a changed key; nothing else is written |
| EditSession.HasChangesIffChangedKeys | src/components/hooks/useConfigStatus.ts:130-137 | there are changes exactly when some key would be written |
| EditSession.UpdatesAreChangedKeys | src/components/hooks/useConfigStatus.ts:102-111 | each update writes a changed key's edited value at `<key>/value`, and every changed key is written |
| EditSession.UpdatesCount | src/components/hooks/useConfigStatus.ts:107-111 | exactly one update per changed key |
| EditSession.NoChangesNoUpdates | src/components/hooks/useConfigStatus.ts:102-111 | a save writes nothing exactly when there are no changes |
| EditSession.FreshHasNoChanges | src/components/hooks/useConfigStatus.ts:62-64 | a freshly seeded scope has no changes |
| EditSession.EditOfClean | src/components/hooks/useConfigStatus.ts:130-137 | editing a clean scope leaves changes exactly when the new value differs from the saved one |
| EditSession.EditBack | src/components/hooks/useConfigStatus.ts:130-137 | editing and then typing the saved value back leaves nothing to save |
| EditSession.StartSaving | src/components/hooks/useConfigStatus.ts:97-100 | the flag is set and both maps are kept |
| EditSession.FinishSaving | src/components/hooks/useConfigStatus.ts:113-126 | the flag clears; saved becomes the edited map on success and is kept on failure |
| EditSession.SuccessClears | src/components/hooks/useConfigStatus.ts:113-120 | after success there is nothing to save |
| EditSession.FailureKeepsChanges | src/components/hooks/useConfigStatus.ts:121-126 | after failure the changes and the pending updates are those before |
| EditSession.SaveEnabled | src/pages/SSLPage.tsx:122 | the save button is enabled exactly when a save would write something and none is in flight |
| EditSession.NoSaveWhileSaving | src/pages/LocationPage.tsx:205 | while a save is in flight the button stays disabled, whatever is edited |
| ConfigState.ScopeIdInjective | src/components/hooks/useConfigStatus.ts:58-60 | different list positions get different scope identifiers |
| ConfigState.SeedList | src/components/hooks/useConfigStatus.ts:54-71 | the identifiers are exactly `prefix-i` for each position, each holding a fresh scope of that block, one scope per block |
| ConfigState.Seed | src/components/hooks/useConfigStatus.ts:51-74 | an undefined config keeps the state; one block gives the single scope `prefix`; a list gives `prefix-i` per block and nothing else, one scope per block |
| ConfigState.SeedIsClean | src/components/hooks/useConfigStatus.ts:62-67 | right after seeding no scope has changes or a save in flight |
| ConfigState.SeedDiscardsPrevious | src/components/hooks/useConfigStatus.ts:73 | the seeded state does not depend on the state before |
| ConfigState.HasSingleState | src/components/hooks/useConfigStatus.ts:139 | there is a single state exactly when some scope exists and every scope is that one |
| ConfigState.SingleStateAfterSeed | src/components/hooks/useConfigStatus.ts:139 | there is a single state exactly when one block, or a one-block list, was seeded |
| ConfigState.ParamChange | src/components/hooks/useConfigStatus.ts:76-91 | an edit of a known scope changes only that scope's edited map; an unknown scope is an error |
| ConfigState.ScopeHasChanges | src/components/hooks/useConfigStatus.ts:130-137 | a scope has changes exactly when saving it would write something; an unknown scope has none |
| ConfigState.BeginSave | src/components/hooks/useConfigStatus.ts:93-104 | an unknown scope is left alone with nothing written; otherwise only that scope changes, it is marked saving with both maps kept, and the batch is exactly each changed key's edited value at `<key>/value`: one per changed key, none exactly when there are no changes |
| ConfigState.FinishSave | src/components/hooks/useConfigStatus.ts:113-126 | the outcome acts on the one scope as it is when the batch settles; other scopes are untouched |
| ConfigState.SaveOutcome | src/components/hooks/useConfigStatus.ts:93-128 | one update per changed key; no changes after success, even with an edit made in flight; the same changes after failure |
| ConfigState.SaveUnknown | src/components/hooks/useConfigStatus.ts:94-95 | saving an unknown scope changes nothing and writes nothing |
| LocationPage.SeedLocations | src/pages/LocationPage.tsx:37-66 | one fresh scope `location-i` per location block, and no other scope |
| LocationPage.LocationHasChanges | src/pages/LocationPage.tsx:119-124 | a location has changes exactly when the page's save would write something |
| LocationPage.LocationHasChangesAgrees | src/pages/LocationPage.tsx:119-124 | on an existing scope the page's unguarded test agrees with the hook's |
| LocationPage.LocationBeginSave | src/pages/LocationPage.tsx:126-142 | the scope is marked saving, other scopes are kept, and the batch is exactly each changed key's edited value at `<key>/value`: one per changed key, none exactly when there are no changes |
| LocationPage.LocationSaveAgrees | src/pages/LocationPage.tsx:126-159 | on an existing scope the page's save is the hook's |
| LocationPage.LocationLabel | src/pages/LocationPage.tsx:177-182 | the label is the value of the first parameter whose path mentions `location` when that value is non-empty, and the placeholder otherwise; it is never empty |
| LocationPage.LabelFromFirstParam | src/pages/LocationPage.tsx:177-182 | for a block at a `location` path whose parameter paths extend it, the label is the first parameter's value |
| LocationPage.DeleteDisabled | src/pages/LocationPage.tsx:238 | delete is disabled exactly when the page, seeded from the list, holds at most one location scope |
| LocationPage.DeleteGuard | src/pages/LocationPage.tsx:238 | whatever the earlier state, the guard reads the number of seeded location scopes, and after an allowed delete the reseeded page still holds a location scope |
| LocationPage.DeleteShiftsScopes | src/pages/LocationPage.tsx:37-66 | after the `i`-th location is deleted and the list reseeded, earlier locations keep their scopes, later ones move down one position, and the last identifier is gone |
| LocationPage.AddLocationTarget | src/pages/LocationPage.tsx:163 | a new block is named `location` |
| LocationPage.AddTargetIsServerPath | src/pages/LocationPage.tsx:163 | the parent of a new location is the path the parser gives the server at that index |
| SslPage.SslSeed | src/pages/SSLPage.tsx:19-36 | an undefined value keeps the state; otherwise edited and saved are the initial map; the flag is never touched |
| SslPage.SslSeedIsClean | src/pages/SSLPage.tsx:19-36 | right after seeding there is nothing to save |
| SslPage.SslBeginSave | src/pages/SSLPage.tsx:83-94 | the flag is set, the batch is exactly each changed key's edited value at `<key>/value` (one per changed key, none exactly when there are no changes), and the edited map is captured |
| SslPage.SslFinishSave | src/pages/SSLPage.tsx:89-100 | the flag clears; saved becomes the captured map on success and is kept on failure |
| SslPage.SslSuccessClears | src/pages/SSLPage.tsx:95 | with no edit in flight, success leaves nothing to save |
| SslPage.SslEditDuringSaveSurvives | src/pages/SSLPage.tsx:95 | an edit made while the save is in flight stays pending after success here, whereas the hook marks it saved |
| SslPage.SslFailureKeepsChanges | src/pages/SSLPage.tsx:96-99 | after failure the flag clears and the changes are those before |
| SslPage.SslSaveButton | src/pages/SSLPage.tsx:83-122 | the button is disabled once a save starts |
| ItemOrder.CompareSignIsOrder | src/components/ConfigItemTable.tsx:27-29 | the comparator's sign, with `Infinity - Infinity` read as equal, is exactly the priority order |
| ItemOrder.GetPriority | src/components/ConfigItemTable.tsx:13-19 | a priority is 0, 1 or `Infinity`, and a path with fewer than two non-empty segments ranks `Infinity` |
| ItemOrder.TopLevelUniquePriority | src/components/ConfigItemTable.tsx:13-19 | a unique top-level element, at `/<key>`, ranks `Infinity`, even with key `listen` |
| ItemOrder.ElementParts | src/components/ConfigItemTable.tsx:14 | the non-empty segments of an element path are its parent's, then the key, then the index when not unique |
| ItemOrder.NonUniquePriority | src/components/ConfigItemTable.tsx:11-18 | a non-unique `listen` item ranks 0, a `server_name` item 1, any other `Infinity` |
| ItemOrder.UniqueUnderSegment | src/components/ConfigItemTable.tsx:16-18 | a unique item ranks by the last segment of its parent's path |
| ItemOrder.UniquePriority | src/components/ConfigItemTable.tsx:13-18 | a unique item under `<block>/children` ranks `Infinity`, even with key `listen` |
| ItemOrder.SortItems | src/components/ConfigItemTable.tsx:27-29 | the sorted copy is a permutation of the items, in non-decreasing priority |
| ItemOrder.SortItemsStableAndUnique | src/components/ConfigItemTable.tsx:27-29 | each priority group keeps its input order, and that determines the result |
| ItemOrder.SortIsPermutation | src/components/ConfigItemTable.tsx:27 | the three-group sort is a permutation |
| ItemOrder.SortIsSorted | src/components/ConfigItemTable.tsx:27-29 | the three-group sort is in non-decreasing priority |
| ItemOrder.SortIsStable | src/components/ConfigItemTable.tsx:27-29 | equal-priority items keep their relative order |
| ItemOrder.SortIsUnique | src/components/ConfigItemTable.tsx:27-29 | any sorted list keeping each group in input order is the three-group sort |
| Seqs.FindFirst | src/components/utils/getDisplayName.ts:5-7 | the index found satisfies the test and no earlier element does; none is found only when no element does |
| DisplayName.ParamValue | src/components/utils/getDisplayName.ts:4-9 | defined exactly when the first item mentioning the keyword has a parameter, and then it is that parameter's value |
| DisplayName.GetDisplayName | src/components/utils/getDisplayName.ts:11-14 | the name is never empty |
| DisplayName.DisplayNameFallback | src/components/utils/getDisplayName.ts:11-14 | a non-empty `server_name` wins, else a non-empty `listen`, else the placeholder |
| DisplayName.FirstMatchDecides | src/components/utils/getDisplayName.ts:5-8 | only the first matching item counts; if it has no parameters the result is undefined |
| DisplayName.OwnParamsIgnored | src/components/utils/getDisplayName.ts:5 | the server's own parameters do not affect its name |
| ParamInput.EncodeBool | src/components/ParamInput.tsx:16 | toggling emits only `"true"` or `"false"` |
| ParamInput.DecodeBool | src/components/ParamInput.tsx:11-16 | a string the switch emitted reads back as the state it was emitted for |
| ParamInput.Emit | src/components/ParamInput.tsx:10-22 | a switch reports `"true"` or `"false"`, which reads back as its state; a text box reports its text |
| ParamInput.Render | src/components/ParamInput.tsx:11-22 | a switch is shown exactly for `bool` parameters, in the state `DecodeBool` reads from the value (on for `"true"` or `"on"`); any other type shows the value verbatim |
| ParamInput.DecodeEncode | src/components/ParamInput.tsx:12-16 | decoding what the switch emits gives back its state |
| ParamInput.EncodeDecode | src/components/ParamInput.tsx:12-16 | a value survives decode-then-encode exactly when it is `"true"` or `"false"`; `"on"` comes back as `"true"` |
| ParamInput.RenderEmit | src/components/ParamInput.tsx:11-22 | a widget shows again what it emitted |
| ParamInput.TextPassThrough | src/components/ParamInput.tsx:22 | a non-bool value is shown and reported verbatim |
| ApiClient.IsSuccessStatus | src/api/client.ts:46 | no status the client accepts is one the retry rule would retry |
| ApiClient.ShouldRetry | src/api/client.ts:183-202 | an error with neither a response nor a code is never retried, and neither is one carrying an accepted status |
| ApiClient.ShouldRetryCases | src/api/client.ts:183-202 | with a response: retry exactly on status 500 and up, 408 or 429, whatever the code; without one: exactly on the five network codes; no code gives no retry |
| ApiClient.ResponseOutcome | src/api/client.ts:46 | an attempt with a response succeeds exactly for a 2xx status; otherwise it fails with an Axios error carrying that response |
| ApiClient.RejectedStatusRetry | src/api/client.ts:183-191 | a rejected status is retried exactly for 408, 429 and 500 and up; any other 3xx or 4xx fails at once |
| ApiClient.Run | src/api/client.ts:153-178 | at least one and at most `maxRetries + 1` attempts, and the result is the last attempt's outcome |
| ApiClient.RunStops | src/api/client.ts:160-176 | every attempt before the last failed retryably; the last succeeded, failed non-retryably, or used the budget |
| ApiClient.DefaultAttemptBound | src/api/client.ts:39 | with the defaults a request is tried at most four times |
| ApiClient.FirstSuccessReturns | src/api/client.ts:161-163 | the first success ends the loop with that success |
| ApiClient.NonRetryableStops | src/api/client.ts:164-176 | a non-retryable or non-Axios failure is rethrown after the current attempt |
| ApiClient.ExecuteWithRetry | src/api/client.ts:153-178 | the loop makes the same attempts with the same final outcome as the recursion, within the bound |
| ApiClient.Wait | src/api/client.ts:76-84 | the wait is never negative, brings the gap to at least 1000 ms, and is either none or exactly what reaches 1000 |
| ApiClient.WaitBounds | src/api/client.ts:76-84 | on a clock that does not run backwards, there is a wait exactly when under 1000 ms have passed, and it is at most 1000 |
| ApiClient.HandleApiError | src/api/client.ts:207-238 | the message is `<message>: <detail>`, the status comes from the response if present, and the endpoint is passed through |
| ApiClient.ErrorMessageParts | src/api/client.ts:227-234 | the caller's message and the detail can be read back off the error message |

## Left out

- React rendering, routing, layout, contexts and the API hooks are not modelled: they are presentation and plumbing. The pages' and selector's paths appear only as the strings they pass.
- ConfigProvider's fetch and refresh are not modelled: they are asynchronous I/O. A refetch after an update is an outside event that calls the seeding functions again.
- Transport is not modelled: axios, the 15 s timeout, the one-second retry delay, `Date.now` and real sleeping. Each attempt's outcome is a function of the attempt number, and elapsed time is a parameter of `ApiClient.Wait`.
- `Promise.all` over the updates is one all-or-nothing outcome (the `ok` flag). Per-update partial success cannot be observed in the code.
- The error code axios attaches to a rejected status is a parameter of `ApiClient.ResponseOutcome`. It is axios's own, and the retry rule ignores it when there is a response.
- `JSON.stringify` of an error body is abstracted: an object body carries its text (`ApiClient.Body`).
- The `console.log`/`console.error` calls are not modelled: they have no effect on state.
- JavaScript `in` quirks in `getValue` (`"length"` or prototype keys) are not modelled. Array lookups accept only canonical decimal indices, and objects are unordered maps.
- Parser.Place: a child or top-level key that names an `Object.prototype` member (`constructor`, `toString`, `__proto__`, ...) is modelled as an ordinary group. In the source, `childrenBlocks[key]` is then the inherited member, the lazy creation is skipped, and the `push` throws a TypeError. Records are association lists here and have no prototype.
- Parser.RawParam: `index` is a natural number. The source's `number` may be negative, fractional or 1e21 and above, and the template literal renders those (`-1`, `0.5`, `1e+21`) unlike `Strings.NatToString`.
- The parser assumes well-formed raw input (no null elements, `params` always present). It does not guard these, so no degraded behaviour is invented.
- Record key order (`Object.entries`) is an association list. Duplicate raw keys are not ruled out, but a JSON object cannot have them.
- `parseBlock` is modelled only as called, with a key and index. The branch without them that keeps the parent path is never used.
- The parser fills `childrenBlocks`, while the declared `ConfigBlock` type says `children`. The model follows the parser, which every consumer reads.
- The `identifier` field stored in each hook entry is not modelled. It always equals the entry's key.
- `param.value ?? ""` never applies, because every value is a string. Localized texts are passed through uninterpreted.
- ConfigState.FinishSave: requires the scope to exist when the batch settles. A reseed that drops the scope during a save is not modelled.
- LocationPage.LocationBeginSave: requires the scope to exist. On an unknown id the page throws when it reads the missing scope. That is after it has queued an update that would add a partial entry; that path is not modelled.
- LocationPage.LocationHasChanges: requires the scope to exist, because the page reads it unguarded and would throw.
- LocationPage.AddLocationTarget: the server index is a natural number. The route parameter is arbitrary text in the page.
- The code's resolver splits on `.` only; there is no slash-based resolver. `ConfigHelpers.SlashPathMisses` states what it does with the slash paths the pages pass.
- The delete and add actions of the location page are modelled only as their guard and target. The remote calls are I/O; after a delete the refetched list is the list without that location (`LocationPage.Remove`).
