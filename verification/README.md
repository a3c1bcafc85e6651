# paragraph-i18n, modelled in Dafny

A model of the multilingual paragraph block for the Editor.js rich-text
editor. Each block stores one paragraph text per language code and shows the
text of the active language. The model lifts the translation map and its
operations out of the DOM and the host API and states them as pure functions.

The repository holds two revisions that disagree on where the active
language lives, and the model keeps both:

- `InstanceParagraph` models `src/index.ts`. Every block has its own active
  language, and the map's values are `{text}` records. Legacy data is upgraded
  at construction. The block also has `merge`, `validate`, `translate` (with
  an injected translator), `save` and `onPaste`.
- `GlobalParagraph` models the instance methods of `dist/paragraph_i18n.mjs`.
  Every operation receives the module-wide language as a parameter, and the
  map's values are plain strings. It covers the four-way legacy decoder
  `normalizeData`, `merge`, `validate`, `save`, `onPaste` and the conversion
  export and import.
- `LanguageStore` models that bundle's module state: the active language `n`
  (initially `"en"`) and the callback registry `r`. Every construction pushes
  one callback. `setActiveLanguage` fires all callbacks in order, and the
  returned trace records that order.

Shared pieces:
- `Text` holds ECMAScript `trim` with its full whitespace table.
- `BlockView` holds the configuration defaults, the key-up handler and the
  abstract container.
- `Wrappers` holds `Option`, which models `undefined`.

The DOM is abstracted. A block's container is `None` until `render()` and
`Some(innerHTML)` afterwards. Values the DOM computes are passed in as
strings: the container's `textContent` for key-up, the pasted element's
`innerHTML` and the container's `innerHTML` for `save`.

A repaint queued with `requestAnimationFrame` is a per-block `repaintPending`
flag, and an explicit `FlushFrame` step runs it. A queued repaint reads the
state only when its frame runs. So any number of queued repaints of one block
write the same value as one.

Some source reads throw, or store garbage, when a slot is absent. These
become preconditions:
- `merge` (`src/index.ts:310`, and the incoming slot of `dist/paragraph_i18n.mjs:88-89`, where the throw at line 89 comes after line 88 has already appended `"undefined"` to the block's own slot, so the precondition also hides that partial update)
- `validate` (`src/index.ts:334`, `dist/paragraph_i18n.mjs:101`)
- `translate` (`src/index.ts:348`)
- the repaint queued by `onPaste` (`src/index.ts:396`), which reads `.text` of the active slot when a rendered block's frame runs

They apply only once the container exists, wherever the source returns early
before that. The bundled `merge` with a missing own slot is a finding (see
below).

## Model

| member | source | states |
|---|---|---|
| Text.Trim | src/index.ts:334 | `trim` yields the slice of the input between a blank prefix and a blank suffix; it is empty exactly when every character is ECMAScript whitespace, and otherwise starts and ends with a non-whitespace character |
| Text.TrimStart | dist/paragraph_i18n.mjs:101 | dropping leading whitespace leaves a suffix of the input that starts with a non-blank, and what was dropped is all whitespace |
| Text.TrimEnd | dist/paragraph_i18n.mjs:101 | dropping trailing whitespace leaves a prefix of the input that ends with a non-blank, and what was dropped is all whitespace |
| BlockView.PlaceholderOf | src/index.ts:217-219 | the placeholder is the configured one whenever one is given, else the default `""` |
| BlockView.PreserveBlankOf | src/index.ts:231 | blank paragraphs are preserved exactly when the configuration sets `preserveBlank` to true; absent means false |
| BlockView.AppendFragment | dist/paragraph_i18n.mjs:3-8 | the container after a merge is its old HTML followed by the incoming HTML trimmed, as the fragment builder trims before parsing |
| BlockView.OnKeyUp | src/index.ts:240-254 | the container changes exactly when it is rendered and non-empty, the key is Backspace or Delete, and its `textContent` is empty; it then becomes `""` (same handler at dist/paragraph_i18n.mjs:54-59) |
| InstanceParagraph.Construct | src/index.ts:221-231 | no data gives an empty map; data with `translations` is adopted as is; legacy `{text}` data becomes the only entry, under the active language; placeholder and preserveBlank follow the configuration; nothing is rendered |
| InstanceParagraph.Render | src/index.ts:269-274 | the container is created holding the active text, or empty when the active slot is absent |
| InstanceParagraph.KeyUp | src/index.ts:276-279 | a read-only block has no listener and never changes; an unrendered block never changes; otherwise a rendered non-empty container is cleared to `""` exactly on Backspace/Delete with empty text content; nothing but the container ever changes |
| InstanceParagraph.Merge | src/index.ts:305-321 | before render nothing changes; otherwise the active text becomes old text followed by the incoming active text, the keys stay the same, every other slot is unchanged, and the container gets the trimmed fragment appended |
| InstanceParagraph.Validate | src/index.ts:332-341 | validation fails exactly when the saved active text is blank and preserveBlank is off |
| InstanceParagraph.Translate | src/index.ts:343-360 | with no translator: returns false and the block is unchanged; with one: returns true, the target slot exists (created if absent) holding the translator's answer for (active text, active language, target), no other slot or field changes |
| InstanceParagraph.OnPaste | src/index.ts:381-390 | the active slot becomes `{text: pasted}` (created if absent), other slots are unchanged, the container is untouched until the queued repaint |
| InstanceParagraph.FlushFrame | src/index.ts:391-397 | a queued repaint of a rendered block writes the active text into the container; otherwise the container is unchanged; the queue is emptied and the map untouched |
| InstanceParagraph.Save | src/index.ts:369-374 | `save` returns the stored map as it is; the container argument is not read |
| InstanceParagraph.SaveIsStable | src/index.ts:369-374 | `save` ignores the container and two saves with no edit between them are equal to each other and to the stored map |
| InstanceParagraph.SaveConstructRoundTrip | src/index.ts:369-374 | a block constructed from saved data in the same language holds and saves the same map |
| InstanceParagraph.LegacyUpgradeKeepsText | src/index.ts:221-225 | legacy `{text}` data is saved as a map whose only entry is that record under the active language, and reloading it keeps it |
| InstanceParagraph.PasteThenFlushShowsPasted | src/index.ts:381-397 | after a paste and the next frame, a rendered block shows exactly the pasted HTML and its active text is it |
| InstanceParagraph.TranslateKeepsSource | src/index.ts:348-357 | translating into another language keeps the source slot, and translating again gives the same result |
| GlobalParagraph.Normalize | dist/paragraph_i18n.mjs:134-152 | a bare string or a string `text` becomes the only entry under the current language; a `translations` record keeps every entry and gains an empty current-language slot only if it lacked one; anything else gives an empty current-language slot; every result has the current-language key |
| GlobalParagraph.Construct | dist/paragraph_i18n.mjs:29-33 | truthy data is normalized, falsy data gives an empty slot for the current language; the current language always has a slot; settings follow the configuration; nothing is rendered |
| GlobalParagraph.ConstructAgreesWithNormalize | dist/paragraph_i18n.mjs:33 | for every input but `undefined`/`null` the constructor's map equals `normalizeData`'s, falsy strings, numbers and booleans included |
| GlobalParagraph.NormalizeIdempotent | dist/paragraph_i18n.mjs:145-147 | normalizing an already normalized map returns it unchanged |
| GlobalParagraph.Render | dist/paragraph_i18n.mjs:66-77 | the container is created holding the current-language text, or empty when the slot is absent |
| GlobalParagraph.KeyUp | dist/paragraph_i18n.mjs:54-59 | a read-only block never changes; an unrendered block never changes; otherwise a rendered non-empty container is cleared to `""` exactly on Backspace/Delete with empty text content; nothing but the container ever changes |
| GlobalParagraph.MergeAsWritten | dist/paragraph_i18n.mjs:85-91 | the merge as written: before render nothing changes; otherwise the current-language slot exists, holding the old text followed by the incoming text, or `"undefined"` followed by it when there was no own slot; other slots and fields are unchanged and the container gets the trimmed fragment appended |
| GlobalParagraph.MergeAfterSwitchStoresUndefined | dist/paragraph_i18n.mjs:88 | concrete input: a rendered block with only an "en" slot, merged with `{fr: "Salut"}` while the language is "fr", stores "undefinedSalut" as written and "Salut" when corrected |
| GlobalParagraph.Merge | dist/paragraph_i18n.mjs:85-91 | corrected merge: before render nothing changes; otherwise the current-language text becomes the old text (empty if absent) followed by the incoming text, the slot exists, every other slot is unchanged, and the container gets the trimmed fragment appended |
| GlobalParagraph.MergeAgreesWhenSlotPresent | dist/paragraph_i18n.mjs:88 | when the own slot exists the corrected and the as-written merge give the same block |
| GlobalParagraph.Validate | dist/paragraph_i18n.mjs:100-102 | validation fails exactly when the saved current-language text is blank and preserveBlank is off |
| GlobalParagraph.Save | dist/paragraph_i18n.mjs:110-112 | the container's HTML becomes the current-language text (slot created if absent), other slots and fields are unchanged, and the returned data is the block's whole map |
| GlobalParagraph.SaveNormalizeRoundTrip | dist/paragraph_i18n.mjs:145-147 | normalizing saved data in the same language returns it unchanged, so a block reconstructed from it saves the same data |
| GlobalParagraph.OnPaste | dist/paragraph_i18n.mjs:118-122 | the current-language text becomes the pasted HTML (slot created if absent), other slots are unchanged, a repaint is queued and the container is untouched until then |
| GlobalParagraph.Repaint | dist/paragraph_i18n.mjs:34-36 | a rendered container gets the text of the language current at that frame, or `""` when that slot is absent; an unrendered block stays unrendered; the map is untouched |
| GlobalParagraph.FlushFrame | dist/paragraph_i18n.mjs:122-124 | a queued repaint of a rendered block shows the current-language text (or `""`); otherwise the container is unchanged; the queue is emptied |
| GlobalParagraph.PasteThenFlushShowsPasted | dist/paragraph_i18n.mjs:118-125 | after a paste and the next frame in the same language, a rendered block shows exactly the pasted HTML |
| GlobalParagraph.Export | dist/paragraph_i18n.mjs:159 | export gives the current-language text, or undefined when that slot is absent |
| GlobalParagraph.Import | dist/paragraph_i18n.mjs:160-167 | a string is returned as is; else a non-empty string `text`; else the current-language slot of `translations` (undefined if absent); else undefined |
| GlobalParagraph.ConversionRoundTrip | dist/paragraph_i18n.mjs:157-167 | importing a string gives it back, a block built from it exports it, and importing saved data reads the same slot export reads |
| LanguageStore.Init | dist/paragraph_i18n.mjs:17-18 | the module starts with language "en", an empty registry and no instances |
| LanguageStore.GetActiveLanguage | dist/paragraph_i18n.mjs:211-213 | `getActiveLanguage` returns the module-wide language |
| LanguageStore.Construct | dist/paragraph_i18n.mjs:33-37 | constructing appends exactly one callback, the new instance's own, builds the instance in the current language, and leaves the language alone |
| LanguageStore.Schedule | dist/paragraph_i18n.mjs:33-37 | a fired callback queues a repaint of its own instance and changes nothing else |
| LanguageStore.Notify | dist/paragraph_i18n.mjs:215-217 | firing the callbacks records them in the given order (the trace is built from that list); each named instance gets a repaint queued and nothing else changes; the rest are untouched |
| LanguageStore.NotifyIgnoresOrder | dist/paragraph_i18n.mjs:215-217 | firing callbacks leaves the same instances whatever the order or repetition, as long as the same instances are named |
| LanguageStore.SetActiveLanguage | dist/paragraph_i18n.mjs:214-218 | afterwards `getActiveLanguage` returns the new value, every registered callback has fired once in registration order, the registry is unchanged, and every instance has a repaint queued |
| LanguageStore.FlushFrame | dist/paragraph_i18n.mjs:34-36 | each instance runs its queued repaint in the language current at that frame; language and registry are unchanged |
| LanguageStore.SwitchThenFlushShowsNewLanguage | dist/paragraph_i18n.mjs:33-36 | after `setActiveLanguage(v)` and the next frame, every rendered instance shows its text for `v` (or `""`) and no stored text has changed |
| LanguageStore.Step | dist/paragraph_i18n.mjs:33-37 | constructions, language changes and frames keep exactly one callback per instance, callback i belonging to instance i |
| LanguageStore.RunKeepsLanguageAndRegistry | dist/paragraph_i18n.mjs:211-218 | over any sequence of events `getActiveLanguage` returns the last value set; the registry only grows, by exactly one callback per construction |
| LanguageStore.SwitchLeavesNewSlotMissing | dist/paragraph_i18n.mjs:214-218 | a language change creates no slots: an instance built from "Hi" in "en" has only its "en" slot after switching to "fr" |

## Left out

- Element creation and DOM wiring are left out: classes, `contentEditable`, the placeholder dataset attribute and listener registration. The container is reduced to its HTML string.
- `src/utils/makeFragment` is not part of this model. The model uses the bundled builder (`dist/paragraph_i18n.mjs:3-8`), which trims its input, for both revisions; for `src/index.ts` this assumes its `makeFragment` also trims. Appending the parsed fragment and calling `normalize()` are treated as appending the trimmed HTML text.
- `requestAnimationFrame` scheduling and frame timing are host scheduling. They are replaced by the `repaintPending` flag and an explicit `FlushFrame` step.
- The translator is async, and its `Promise` is left out. The translator is an uninterpreted total function supplied as an `Option`. Edits that interleave while the call is pending are not modelled.
- Host API calls (`api.styles.block`, `api.i18n.t`) carry no map logic and are left out.
- The `console.warn` and `console.log` side effects are left out.
- The CSS injection block and the toolbox icon are left out.
- Constant static getters are left out: `sanitize`, `pasteConfig`, `isReadOnlySupported`, `toolbox` and `src/index.ts`'s constant `conversionConfig`. They hold fixed data only.
- `dist/index.d.ts` holds type declarations only.
- Object identity is not modelled: the maps are immutable values. `src/index.ts` adopts the host's data object itself, and `normalizeData` adds the empty slot to the host's object in place.
- Values outside the declared data types are not modelled:
  - a `translations` field holding `null`: `typeof` reports `"object"`, and the next read throws;
  - `null` or non-string slot values: a `null` current-language slot is treated like an absent one;
  - a truthy non-string `text`, which `import` would return;
  - in `src/index.ts`, legacy data without a string `text` (for example `{}`). Lines 223-225 store that whole object as the active entry. After that, `render` shows `""` (lines 270-271), `merge` stores `"undefined"` followed by the incoming text (line 310), and `validate` throws (line 334). `Legacy` carries a `{text}` record, so it cannot represent such data.
- `src/index.ts` declares the active language as `'en' | 'fr' | 'es'`; the model allows any string.
- `config` is assumed present. An `undefined` configuration would throw at `config.placeholder`.
- In the bundled revision, per-block operations are not store events. They take the module-wide language as a parameter, and the store models construction, language change and frames.

## Findings

| source | as written | input that shows it | evidently intended | confidence | as-written member | corrected member |
|---|---|---|---|---|---|---|
| dist/paragraph_i18n.mjs:88 | `this._data.translations[n] += t.translations[n]` on a block with no slot for `n` stores `"undefined"` followed by the incoming text | build a block from `"Hi"` while the language is "en", render it, `setActiveLanguage("fr")`, then `merge({translations: {fr: "Salut"}})`: the French text becomes `"undefinedSalut"` | a missing own slot reads as empty text, so the French text becomes `"Salut"` (as written, the bad value lasts until the next `save` in "fr" overwrites the slot, line 111) | medium, not executed | GlobalParagraph.MergeAsWritten, exhibited by GlobalParagraph.MergeAfterSwitchStoresUndefined | GlobalParagraph.Merge |
