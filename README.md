# Travel checklist: data layer in Dafny

This project models the data layer of the travel-list web app. The app keeps
a packing checklist: an ordered list of sections, and each section holds an
ordered list of items. An item has an identifier, a text and a `done` flag.
The model covers the following parts of the app:

- `normalizeList` and `instantiateTemplate` in `src/lib/storage.js`. They turn
  a decoded JSON value, or a seed template, into a checklist and mint fresh
  identifiers on the way.
- The state updaters of the `App` component in `src/App.jsx`. These are add,
  toggle, edit, delete and rename for sections and items, plus the two bulk
  check operations.
- The `filtered` search view in `src/App.jsx`.
- The component itself. It is a class with the component's state variables
  and one method per operation. Each method replaces the whole checklist with
  the result of its updater, as `setSections(prev => ...)` does.

The files are:

- `js.dfy` (`Js`): the slice of JavaScript semantics the code relies on:
  - JSON values and optional chaining (`?.` gives `undefined`);
  - truthiness (empty arrays and objects are truthy);
  - `x || fallback`;
  - `String(x)`, including `","`-joined arrays, `"null"` and `"[object Object]"`;
  - the TypeError `String(x)` raises when `x` is an object with its own
    `toString` key, or an array holding one.
- `text.dfy` (`Text`): `trim` over ECMAScript's white-space and
  line-terminator characters, `toLowerCase` and `includes`.
- `seqs.dfy` (`Seqs`): `Array.prototype.filter`, and order-preserving
  subsequences.
- `ids.dfy` (`Ids`): the identifier oracle. The `uid` helper stands for a
  counter. Identifier `n` of scope `sec` or `it` is `"sec-" + base36(n)` or
  `"it-" + base36(n)`. Distinct counters give distinct identifiers, which is
  proved by parsing the base-36 part back.
- `storage.dfy` (`Storage`): the checklist datatypes, template instantiation
  and `normalizeList`. Each threads the oracle's counter through the
  computation.
- `transitions.dfy` (`Transitions`): the updaters and the search as pure
  functions, with their properties.
- `app.dfy` (`App`): the `App` component as the class `ChecklistApp`, with the
  fields `sections`, `query` (the `filter` state) and `nextId` (the oracle's
  counter).

Identifiers are JSON values, because `normalizeList` keeps any truthy `id`
verbatim, numbers included. The model compares them with Dafny equality, which
is what `===` does for strings, numbers, booleans and `null`.

Some behaviours of the code are worth knowing:

- `normalizeList` does not guarantee a non-blank title. A title that is truthy
  but prints as nothing, such as `[]`, becomes `""`. A title of white space
  only is kept as it is. `Storage.NormalizeKeepsBlankTitles` shows both cases.
- `normalizeList` throws when a title or an item text is an object with its
  own `toString` key, as a parsed JSON file can hold. Import and open then
  change nothing. `Storage.NormalizeThrowsOnOwnToString` shows both places.
- `openFromPhoneAndLoad` calls `normalizeList` twice on the same data. An
  element without an identifier therefore gets one identifier in the shown
  checklist and a different one in the copy that this call hands to the file
  store. `App.OpenFromFileIdsDiffer` proves this. The sync effect
  (`src/App.jsx:54-58`) also writes the shown checklist to the same store.
  Both writes are asynchronous, so the stored copy differs from the shown
  one only when this call's write finishes last.

## Model

| member | source | states |
|---|---|---|
| Storage.Instantiate | src/lib/storage.js:8-14 | One section per seed entry, in order. Titles are copied verbatim. Each section's item texts are the seed's strings, in order. No item is done. Every identifier is truthy. The counter advances by exactly the number of identifiers minted. |
| Storage.InstantiateItems | src/lib/storage.js:12 | Item j has text j of the seed, is not done, and has the identifier minted at counter `next + j`. |
| Storage.InstantiateIdsDistinct | src/lib/storage.js:8-14 | All identifiers of an instantiated template are pairwise distinct. Each was minted from a counter in the range the call consumed. |
| Storage.InstantiateIdsConsecutive | src/lib/storage.js:8-14 | The identifiers, in document order, are minted from consecutive counters, with no gaps and no repeats. |
| Ids.UidInjective | src/lib/storage.js:10-12 | Two oracle identifiers are equal only if they have the same scope and the same counter. |
| Ids.Base36RoundTrip | src/lib/storage.js:10-12 | Parsing the base-36 suffix of an identifier gives back its counter. |
| Storage.NormalizeItems | src/lib/storage.js:36-40 | For elements on which `String` does not throw: one item per element, in order. Each item is derived from its own element: a truthy `id` is kept verbatim and a falsy one is replaced by a freshly minted one; the text is `String(text \|\| "")`; `done` is the truthiness of `done`. |
| Storage.NormalizeSections | src/lib/storage.js:32-42 | For elements on which `String` does not throw: one section per element, in order. Section k is derived from element k alone: id as for items; title `String(title \|\| "Untitled")`; items normalized when `items` is an array and none otherwise. |
| Storage.NormalizeList | src/lib/storage.js:30-43 | The result is the TypeError exactly when the input is an array and `String` throws on some element's title or item text. A non-array gives the empty checklist and mints nothing. Any other array gives as many sections as it has elements, and section k is derived from element k alone. |
| Storage.NormalizeThrowsOnOwnToString | src/lib/storage.js:34-38 | A title, or an item text, that is an object with its own `toString` key makes `normalizeList` throw. |
| Storage.NormalizeIdsDistinct | src/lib/storage.js:33-37 | In a normalized checklist, in document order, each identifier is the element's own truthy `id` or else minted from a counter the call consumed. No two minted identifiers are equal. |
| Storage.KeptOrMintedFacts | src/lib/storage.js:33-37 | Position by position: truthy inputs are kept, the others are minted from counters in the consumed range, and minted identifiers are pairwise distinct. |
| Storage.KeptOrMintedAppend | src/lib/storage.js:32-42 | Keeping-or-minting over two stretches of input, with the counter running on, is keeping-or-minting over both. |
| Storage.ToJsonNeverThrows | src/lib/storage.js:34-38 | A stored checklist has string titles and texts, so normalizing it never throws. |
| Storage.NormalizeSectionRoundTrip | src/lib/storage.js:33-41 | A section with truthy identifiers and a non-empty title, stored as JSON and normalized again, comes back unchanged. |
| Js.ToStr | src/lib/storage.js:34-38 | `String` of a string is that string. `String` of a number, boolean, `null` or object is never empty. It applies only where `String` does not throw. |
| Js.ToStrThrowsExamples | src/lib/storage.js:34-38 | `String` throws on an object with its own `toString` key and on an array holding one. It does not throw on other objects, which print as `[object Object]`. Arrays print their elements joined by commas, with `null` printed as empty. |
| Storage.NormalizeSectionFrom | src/lib/storage.js:33-41 | A single section satisfies the per-element derivation, with fresh identifiers only from the counters it consumed. |
| Storage.NormalizeRoundTrip | src/lib/storage.js:30-43 | A well-formed checklist, stored as JSON and normalized again, comes back unchanged and mints nothing. Well-formed means truthy identifiers and non-empty titles. |
| Storage.NormalizeItemsRoundTrip | src/lib/storage.js:36-40 | Items with truthy identifiers, stored as JSON and normalized again, come back unchanged. |
| Storage.NormalizeSectionsRoundTrip | src/lib/storage.js:32-42 | Sections of a well-formed checklist, stored as JSON and normalized again, come back unchanged. |
| Storage.NormalizeIdempotent | src/lib/storage.js:30-43 | For input that normalizes without throwing and with non-empty titles, normalizing the result again gives the same checklist and mints nothing. |
| Storage.NormalizeIdsTruthy | src/lib/storage.js:33-37 | When normalization does not throw, every identifier in the result is truthy. |
| Storage.NormalizeImportExample | src/lib/storage.js:30-43 | An imported section with a title and two text-only items gets a fresh identifier and keeps its title. Its items keep their texts, are not done, and get two different fresh identifiers. |
| Storage.NormalizeKeepsBlankTitles | src/lib/storage.js:34 | A title of `[]` becomes the empty string, and a title of spaces is kept as it is. |
| Text.TrimIsSlice | src/App.jsx:134 | `trim` returns a contiguous slice of its argument. Only white space lies outside the slice, and the result neither starts nor ends with white space. |
| Text.TrimEmptyIffAllSpace | src/App.jsx:134-135 | The trimmed text is empty exactly when the text is all white space. In both directions, this is when the operations reject their input. |
| Text.TrimIdempotent | src/App.jsx:134 | Trimming twice is trimming once. |
| Text.IncludesAt | src/App.jsx:34 | Any occurrence of the needle at some index makes `includes` true. |
| Text.IncludesWitness | src/App.jsx:34 | `includes` is true only when the needle occurs at some index. |
| Seqs.Filter | src/App.jsx:186-198 | The result is no longer than the input. It holds only elements of the input that pass the test, and every element that passes is in it. |
| Seqs.FilterCounts | src/App.jsx:186-198 | `filter` keeps every passing element exactly as many times as the input holds it, and no failing element. |
| Seqs.FilterIsSubseq | src/App.jsx:186-198 | `filter` keeps the relative order of what it keeps. |
| Seqs.FilterAllPass | src/App.jsx:186-198 | If every element passes, nothing is removed. If one fails, the result is strictly shorter. |
| Transitions.AddSection | src/App.jsx:133-137 | A blank title leaves the checklist and the counter unchanged. Otherwise exactly one section is appended after an untouched prefix. It has the trimmed title, no items, and an identifier never minted before. Truthy identifiers and tidy titles are preserved. |
| Transitions.AddItem | src/App.jsx:139-152 | A blank text, or an unknown section, changes nothing. Sections with another identifier are identical. Each section with the given identifier gets exactly one new item appended: the trimmed text, not done, and a freshly minted identifier. Truthy identifiers and tidy texts are preserved. |
| Transitions.AppendItem | src/App.jsx:142-151 | Every matching section gets one item appended and the others are untouched. The counter advances by the number of matching sections. |
| Transitions.CountSections | src/App.jsx:143-144 | The number of matching sections is zero exactly when no section has the identifier. |
| Transitions.ToggleItem | src/App.jsx:154-167 | Only `done` flags change. An item's flag is flipped exactly when both its section and its own identifier match. Invariants are preserved. |
| Transitions.ToggleItemInvolution | src/App.jsx:154-167 | Toggling the same item twice restores the checklist. |
| Transitions.ToggleItemUnknown | src/App.jsx:154-167 | Toggling an item that does not exist changes nothing. |
| Transitions.EditItem | src/App.jsx:169-184 | A blank text changes nothing. Otherwise only the matching items' texts change, to the trimmed text. Identifiers, flags, titles, order and lengths are unchanged. |
| Transitions.DeleteItem | src/App.jsx:186-194 | Sections with another identifier are unchanged. In matching sections, exactly the items with the given identifier are removed, and every other item stays as many times as before. Section identifiers and titles are kept. |
| Transitions.DeleteItemKeepsOrder | src/App.jsx:186-194 | Every section's remaining items keep their order. Deleting an item that does not exist changes nothing. |
| Transitions.DeleteSection | src/App.jsx:196-198 | Exactly the sections with the given identifier are removed, and every other section stays as many times as before. When one exists, the checklist gets shorter. Invariants are preserved. |
| Transitions.DeleteSectionKeepsOrder | src/App.jsx:196-198 | The remaining sections keep their order. An unknown identifier changes nothing. |
| Transitions.RenameSection | src/App.jsx:200-206 | A blank title changes nothing. Otherwise only the matching sections' titles change, to the trimmed title. Identifiers, items and order are unchanged. |
| Transitions.SectionToggleAll | src/App.jsx:208-216 | Only flags change. Every item of a matching section gets the given flag, and other sections keep theirs. |
| Transitions.SectionToggleAllIdempotent | src/App.jsx:208-216 | Applying the bulk toggle twice is applying it once. |
| Transitions.ClearAllChecks | src/App.jsx:218-225 | Only flags change, and afterwards no item anywhere is done. |
| Transitions.ClearAllChecksIdempotent | src/App.jsx:218-225 | Clearing twice is clearing once. |
| Transitions.PackingScenario | src/App.jsx:154-225 | A worked example on a two-item section. Toggling one item checks it alone. Checking the whole section then checks both items. Clearing all checks restores the original checklist. |
| Transitions.TrimmedTrim | src/App.jsx:134 | A non-empty trimmed text neither starts nor ends with white space. |
| Transitions.TrimmedIsFixed | src/App.jsx:134 | A text that neither starts nor ends with white space is its own trim. |
| Transitions.MintedIsNew | src/App.jsx:133-152 | An identifier minted at or after a counter differs from every identifier minted before that counter. |
| Transitions.NarrowAll | src/App.jsx:31-35 | Every section stays in its position with its identifier and title. It holds exactly its items whose lower-cased text contains the query, each as many times as before. |
| Transitions.Search | src/App.jsx:28-37 | A blank query returns the checklist unchanged. Otherwise no returned section is empty, and every returned item's lower-cased text contains the lower-cased trimmed query. |
| Transitions.SearchKeepsOrderAndFindsAll | src/App.jsx:28-37 | The result keeps the order of the sections and of the items within each section. Every item whose text matches the query is shown. |
| Transitions.SearchCounts | src/App.jsx:28-37 | For a non-blank query, each narrowed section that still has items is shown exactly as many times as the narrowed checklist holds it, and a narrowed section left empty is not shown. |
| Transitions.SearchFinds | src/App.jsx:28-37 | For a non-blank query, every item whose lower-cased text contains the query appears in a shown section with its section's identifier and title. |
| Transitions.SearchShowsOwnItems | src/App.jsx:28-37 | For a non-blank query, every shown section has the identifier and title of a checklist section and shows only items that section holds. |
| Transitions.AppendItemIdsDistinct | src/App.jsx:142-151 | When several sections share the identifier, each gets its own call to `uid`, so the items appended to them have pairwise different identifiers. |
| Transitions.AddItemIdsDistinct | src/App.jsx:139-152 | For a non-blank text, the items `addItem` appends to sections sharing an identifier have pairwise different identifiers. |
| App.ChecklistApp.constructor | src/App.jsx:20-21 | A fresh component holds the instantiated template and an empty search box. |
| App.ChecklistApp.Filtered | src/App.jsx:28-37 | A blank search box shows the whole checklist. Otherwise, each shown section is a checklist section with at least one item. It keeps its identifier and title, and shows only its own items whose text contains the lower-cased trimmed query. No matching item is left out. Each narrowed section with items is shown as many times as the checklist holds it. |
| App.ChecklistApp.SetFilter | src/App.jsx:21 | Only the query changes. |
| App.ChecklistApp.AddSection | src/App.jsx:133-137 | The new state is the add-section updater applied to the old state. The query is untouched, and truthy identifiers stay truthy. |
| App.ChecklistApp.AddItem | src/App.jsx:139-152 | The new state is the add-item updater applied to the old state. Each added item's identifier was never minted before. |
| App.ChecklistApp.ToggleItem | src/App.jsx:154-167 | The checklist becomes the toggle updater's result, and nothing else changes. |
| App.ChecklistApp.EditItem | src/App.jsx:169-184 | The checklist becomes the edit updater's result, and nothing else changes. |
| App.ChecklistApp.DeleteItem | src/App.jsx:186-194 | The checklist becomes the delete-item updater's result, and nothing else changes. |
| App.ChecklistApp.DeleteSection | src/App.jsx:196-198 | The checklist becomes the delete-section updater's result, and nothing else changes. |
| App.ChecklistApp.RenameSection | src/App.jsx:200-206 | The checklist becomes the rename updater's result, and nothing else changes. |
| App.ChecklistApp.SectionToggleAll | src/App.jsx:208-216 | The checklist becomes the bulk-toggle updater's result, and nothing else changes. |
| App.ChecklistApp.ClearAllChecks | src/App.jsx:218-225 | The checklist becomes the clear updater's result, and nothing else changes. |
| App.ChecklistApp.ResetTemplate | src/App.jsx:227-231 | The checklist becomes a fresh instantiation of the seed. The query is kept. |
| App.ChecklistApp.ResetAppData | src/App.jsx:61-77 | The query is cleared and the checklist becomes a fresh instantiation of the seed. |
| App.ChecklistApp.ImportJson | src/App.jsx:247-260 | A non-array is refused and changes nothing, and so is an array on which `normalizeList` throws. Any other array replaces the checklist with its normalization, whose identifiers are truthy. |
| App.ChecklistApp.OpenFromFile | src/App.jsx:121-130 | With no array check, the checklist becomes the normalization of the data, unless normalization throws, which changes nothing. The copy this call hands to the file store is a second, separate normalization. |
| App.OpenFromFileIdsDiffer | src/App.jsx:124-126 | An element without an identifier gets different identifiers in the shown checklist and in the stored copy. |

## Left out

- Browser storage is not modelled. This covers `loadInitialSections` and `saveSections` in `src/lib/storage.js:16-28`, the OPFS helpers in `src/lib/opfs.js`, and the effects that keep them in sync (`src/App.jsx:24-26`, `40-58`, `74-76`). They are asynchronous, fire-and-forget I/O. The checklist `loadInitialSections` reads back, and the array adopted from OPFS at start-up, are not normalized by the code. So the invariant that identifiers are truthy is only as good as what was stored.
- File pickers, `FileReader`, Blob export, `alert` and `confirm` are not modelled. `ImportJson` and `OpenFromFile` start from the already-decoded value. `ResetTemplate` models the branch where the user confirmed.
- JSON text parsing and serialisation are not modelled. A parse failure in import is the same no-op as a non-array.
- The React components that render the checklist, and the styles, are presentation and not modelled.
- `src/lib/ids.js` is not part of this model. `uid` is random there; here it is a counter oracle, and uniqueness is proved only among identifiers the oracle minted. Nothing is claimed about collisions with identifiers that came from imported data.
- The template constant in `src/template.ts` is not modelled. Every instantiation lemma holds for any seed.
- Configuration and build files (`src/config.js`, `vite.config.js`, `src/main.jsx`) are not modelled.
- Js.Value: numbers are unbounded integers. Fractions, `NaN` and the infinities are not modelled. `String()` of a number is its decimal digits. That matches JavaScript only below 10^21, where JavaScript switches to exponent form, and only for integers a JavaScript number holds exactly; beyond 2^53 JavaScript rounds.
- Storage.NormalizeList: when `normalizeList` throws, the calls to `uid` made before the throw are not counted. The counter stays where it was, because the identifiers those calls returned are discarded with the thrown result.
- Text.Lower: lower-cases ASCII letters only, because Unicode case mapping is not modelled.
- Transitions: identifiers are compared by value. `===` compares arrays and objects by reference, so two structurally equal object identifiers would match here and not in the browser.
- App.ChecklistApp.AddSection: takes a string title. The source also tolerates `undefined` (`title?.trim()`), which is a no-op there.
