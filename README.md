# grapesjs-fonts: the font dialog's state and markup, in Dafny

This project models the logic of the fonts dialog of the grapesjs-fonts plugin
(`src/fonts.js`). The dialog lets a user browse the Google Fonts catalog, install
families into the edited site, pick the variants of each installed family, and it
writes the installed list into the page's `<head>` as stylesheet links. The model
covers the following:

- **The installed-font list.**
  - Loading it from the document fills in a missing variant list.
  - Install is an idempotent append.
  - Remove drops a family.
  - Each installed font has a per-variant checkbox and a "toggle all" button.
- **The catalog panel.**
  - A case-insensitive search plus a category filter.
  - The sorted category menu.
  - Pages of ten fonts, with a page index that is clamped to the last page and stepped by the previous/next buttons.
- **The head markup of `getHtml`.** It is modelled both as the source's string and as a list of link descriptors, and the string is proved to be the rendering of that list.
- **The preview's weight/style axis.** Each variant token gives an `(italic, weight)` pair, the pairs are deduplicated in first-seen order, and they are joined into `:ital,wght@…`.
- **The option list** that the style editor's `font-family` property receives.

Modules:

- `Wrappers`: `Option` and `Result`.
- `Seqs`: filtering and first-seen deduplication of sequences.
- `Text`: string operations the code relies on:
  - lower-casing (ASCII only);
  - `includes`;
  - the space-to-`+` replacement;
  - digit runs and `parseInt`;
  - the character order of `sort()`.
- `FontModel`: the records and the pure operations on the installed list.
- `CatalogView`: filter, categories and paging.
- `Markup`: `getHtml`.
- `Preview`: the variant-pair loop, as a method proved equal to a function that defines its result.
- `StyleOptions`: the `updateUi` list choice.
- `Session`: the dialog's mutable state as a class whose methods are the event handlers.

Modelling choices:

- **Absent string fields.** An absent `family`, `category` or `value` is the empty string. The `||` fallbacks treat the two alike, and so does every `===` that compares against a catalog family, which is never empty. The one place where the code tells them apart is listed under "## Left out".
- **`name` and stored `variants` are optional.** The code tells absence apart for both of them:
  - `getHtml` dereferences `name`, so a font without one makes it throw. That throw is `Failure(k)`, where `k` is the position of the first such font.
  - A missing `variants` list becomes `[]` on load.
- **Parameters instead of external state.** The catalog, the document's stored list, the font server URL and the marker attribute are all parameters.
- **Install copies every catalog variant.** The new entry's selection is the catalog entry's full variant list (src/fonts.js:329); the user then narrows it with the checkboxes.
- **No weight axis in `getHtml`.** Each stylesheet URL carries only the family. The weight/style axis appears only in the preview iframe's URL, which is why it is modelled in `Preview`.

## Model

| member | source | states |
|---|---|---|
| Text.MatchIsCaseInsensitiveSubstring | src/fonts.js:339-341 | `match(hay, s)` holds exactly when lower-cased `s` occurs as a contiguous substring of lower-cased `hay` |
| Text.ContainsIsSubstring | src/fonts.js:340 | the left-to-right scan of `includes` finds the needle exactly when it occurs at some position |
| Text.MatchEmptyQuery | src/fonts.js:175 | an empty search text matches every family |
| Text.MatchIgnoresCase | src/fonts.js:339-341 | lower-casing either argument beforehand does not change the outcome |
| Text.LowerIdempotent | src/fonts.js:340 | lower-casing twice is lower-casing once |
| Text.SpaceToPlusRoundTrip | src/fonts.js:380 | the `+`-encoded family has no space and decodes back to the name when the name has no `+` |
| Text.FirstDigitRunSpec | src/fonts.js:304 | `match(/\d+/)` finds a run exactly when the token has a digit; the run is non-empty, all digits, starts at the first digit and is maximal |
| Text.DecimalRoundTrip | src/fonts.js:305-306 | `parseInt` of a number written in decimal gives the number back |
| Text.LessIrreflexive | src/fonts.js:181 | the string order of `sort()` never puts a string before itself |
| Text.LessTransitive | src/fonts.js:181 | the string order of `sort()` is transitive |
| Text.LessTotal | src/fonts.js:181 | any two different strings are ordered one way or the other |
| FontModel.FindCatalog | src/fonts.js:208 | the lookup returns the first catalog entry of the family, and nothing exactly when no entry has that family |
| FontModel.Normalised | src/fonts.js:78-81 | loading keeps every field of every stored font, and turns a missing variant list into an empty one |
| FontModel.LoadAfterSave | src/fonts.js:78-81 | writing the list into the document and loading it back gives the same list |
| FontModel.Installed | src/fonts.js:322-332 | install leaves the list unchanged when the family is present, and otherwise appends exactly the entry with family = name = the catalog family, its category and variants, and value `"family", category`; earlier entries are untouched |
| FontModel.InstallIdempotent | src/fonts.js:322-332 | installing the same catalog font twice is installing it once |
| FontModel.InstallKeepsFamiliesUnique | src/fonts.js:322-332 | install keeps families unique, and afterwards exactly one entry has the installed family |
| FontModel.RemovedSpec | src/fonts.js:237 | remove drops every entry of the family, keeps every other entry and adds nothing; it is a no-op exactly when the family is absent |
| FontModel.RemovedAppend | src/fonts.js:237 | remove keeps the relative order of the kept entries |
| FontModel.RemovedKeepsFamiliesUnique | src/fonts.js:237 | remove keeps families unique |
| FontModel.CheckedVariantsSpec | src/fonts.js:221-226 | checking adds the token exactly once if absent; unchecking removes every occurrence and keeps all other tokens with their counts; a request that already holds changes nothing |
| FontModel.ToggleAlternates | src/fonts.js:207-210 | toggle-all selects only catalog variants; from the second press it alternates between the full catalog list and nothing |
| FontModel.ToggleAllExample | src/fonts.js:207-210 | with catalog variants regular, italic, 700: a full selection toggles to `[]`, and `["regular"]` toggles to all three |
| FontModel.VariantsStayInCatalog | src/fonts.js:207-226 | the checkboxes and toggle-all keep a selection within the catalog's variants |
| CatalogView.FilterCatalogSpec | src/fonts.js:174-178 | a catalog font is listed exactly when its family contains the search text case-insensitively and its category is the selected one (when one is selected) |
| CatalogView.FilterCatalogAppend | src/fonts.js:174-178 | the listed fonts keep catalog order |
| CatalogView.FilterNothingSelected | src/fonts.js:174-178 | with no search text and no category, the whole catalog is listed |
| CatalogView.InsertSorted | src/fonts.js:181 | inserting a category into the ascending menu keeps it ascending and adds exactly that category |
| CatalogView.Categories | src/fonts.js:181 | the menu is strictly ascending and holds exactly the non-empty categories of the whole catalog |
| CatalogView.SortedHasNoDuplicates | src/fonts.js:181 | the menu repeats no category |
| CatalogView.SortedListIsUnique | src/fonts.js:181 | two strictly ascending lists with the same elements are equal, so the menu is the one sorted listing of the set of categories |
| CatalogView.PageCount | src/fonts.js:180 | the page count is the fewest pages of ten that hold the listed fonts |
| CatalogView.ClampPage | src/fonts.js:184-186 | a page index past the last page moves to the last page (0 when there are none); an index in range is kept |
| CatalogView.PageSliceSpec | src/fonts.js:188 | a page holds at most ten fonts, is the contiguous run from `page * 10`, and at a clamped index is empty only when nothing is listed |
| CatalogView.PagesArePrefix | src/fonts.js:188 | the first k pages together are the first `10 * k` listed fonts |
| CatalogView.PagesCoverList | src/fonts.js:180-188 | all pages together are exactly the listed fonts |
| CatalogView.PagerSteps | src/fonts.js:262-274 | both pager buttons keep the page in range, and each undoes a step of the other |
| CatalogView.PaginationExample | src/fonts.js:180-188 | 23 listed fonts give 3 pages, the third holding the last 3; narrowing to 5 moves page 2 back to page 0, which shows all 5 |
| Markup.StylesheetTags | src/fonts.js:380 | one stylesheet link per font, in list order, to `/css2?family=<name with + for spaces>&display=swap`; it fails exactly when some font has no name, at the first such font |
| Markup.LinkTags | src/fonts.js:378-382 | a non-empty list gets the two preconnect links (the second to `/css2`, crossorigin) before its stylesheet links |
| Markup.RenderStylesheet | src/fonts.js:380 | a stylesheet descriptor renders to the source's literal stylesheet link element |
| Markup.RenderPreconnect | src/fonts.js:379 | the two preconnect descriptors render to the source's two literal preconnect link elements |
| Markup.StylesheetLinksRenderTags | src/fonts.js:380 | the joined stylesheet links are exactly the rendered descriptors, and throw exactly where the descriptors fail |
| Markup.GetHtmlRendersTags | src/fonts.js:378-382 | `getHtml` is exactly the rendering of the preconnect and stylesheet descriptors, each carrying the marker attribute |
| Markup.GetHtmlEmpty | src/fonts.js:378-382 | an empty list gives the empty string |
| Markup.StylesheetHrefEncodesName | src/fonts.js:380 | a stylesheet URL's family parameter has no space, and reading it back out of the URL gives the font's name (for names without `+`) |
| Preview.ItalicFlagSpec | src/fonts.js:303 | the italic flag is 0 or 1, and 1 exactly when the token contains "italic" in any case |
| Preview.WeightSpec | src/fonts.js:304-305 | a token has no digit run exactly when it has no digit, and then weighs 400; otherwise it weighs the value of its first digit run |
| Text.Match | src/fonts.js:339-341 | `match`; its contract is stated by Text.MatchIsCaseInsensitiveSubstring, Text.MatchEmptyQuery and Text.MatchIgnoresCase |
| Text.SpaceToPlus | src/fonts.js:380 | every space becomes `+` and every other character is kept; its inverse is stated by Text.SpaceToPlusRoundTrip |
| Text.FirstDigitRun | src/fonts.js:304 | `String(v).match(/\d+/)`; its contract is stated by Text.FirstDigitRunSpec |
| FontModel.StoredList | src/fonts.js:89 | the list as written into the document, one record per font; its inverse is stated by FontModel.LoadAfterSave |
| FontModel.CatalogVariants | src/fonts.js:208 | the variants of the catalog entry `FontModel.FindCatalog` finds, or none; the lookup's contract is that of FontModel.FindCatalog |
| FontModel.HasFamily | src/fonts.js:323 | the existing-font test of install; its use is stated by FontModel.Installed |
| FontModel.CssValue | src/fonts.js:330 | the quoted family then the category; the appended entry carrying it is stated by FontModel.Installed |
| FontModel.FromCatalog | src/fonts.js:325-331 | the record install appends; its fields are stated by FontModel.Installed |
| FontModel.Removed | src/fonts.js:237 | the remove handler's filter; its contract is stated by FontModel.RemovedSpec, FontModel.RemovedAppend and FontModel.RemovedKeepsFamiliesUnique |
| FontModel.WithoutVariant | src/fonts.js:226 | the uncheck filter; its contract is stated by FontModel.CheckedVariantsSpec |
| FontModel.CheckedVariants | src/fonts.js:221-226 | the checkbox handler; its contract is stated by FontModel.CheckedVariantsSpec and FontModel.VariantsStayInCatalog |
| FontModel.AllSelected | src/fonts.js:209 | the `isAll` test; its use is stated by FontModel.ToggleAlternates |
| FontModel.ToggledVariants | src/fonts.js:207-210 | the toggle-all handler; its contract is stated by FontModel.ToggleAlternates, FontModel.ToggleAllExample and FontModel.VariantsStayInCatalog |
| CatalogView.FilterCatalog | src/fonts.js:174-178 | the panel's filter; its contract is stated by CatalogView.FilterCatalogSpec, CatalogView.FilterCatalogAppend and CatalogView.FilterNothingSelected |
| CatalogView.LastPage | src/fonts.js:185 | `Math.max(0, pageCount - 1)`; its use is stated by CatalogView.ClampPage |
| CatalogView.PageSlice | src/fonts.js:188 | the page's slice; its contract is stated by CatalogView.PageSliceSpec, CatalogView.PagesArePrefix and CatalogView.PagesCoverList |
| CatalogView.PrevPage | src/fonts.js:262-267 | the previous-page guard; its contract is stated by CatalogView.PagerSteps |
| CatalogView.NextPage | src/fonts.js:269-274 | the next-page guard; its contract is stated by CatalogView.PagerSteps |
| Markup.Preconnect | src/fonts.js:379 | the two preconnect links; their rendering is stated by Markup.RenderPreconnect |
| Markup.StylesheetHref | src/fonts.js:380 | the stylesheet URL of one family; its round trip is stated by Markup.StylesheetHrefEncodesName |
| Markup.StylesheetLinks | src/fonts.js:380 | the joined stylesheet links; their contract is stated by Markup.StylesheetLinksRenderTags with Markup.StylesheetTags |
| Markup.GetHtml | src/fonts.js:378-382 | `getHtml`; its contract is stated by Markup.GetHtmlRendersTags with Markup.LinkTags, and by Markup.GetHtmlEmpty |
| Preview.ItalicFlag | src/fonts.js:303 | the italic test; its contract is stated by Preview.ItalicFlagSpec |
| Preview.Weight | src/fonts.js:304-305 | the weight of a token; its contract is stated by Preview.WeightSpec |
| Preview.PairOf | src/fonts.js:303-305 | the pair of a token; its contract is stated by Preview.PairOfSpec |
| Preview.Key | src/fonts.js:306 | the key of a pair; its inverse is stated by Preview.KeyRoundTrip |
| Preview.ParseKey | src/fonts.js:311 | splitting a key back into its numbers; stated by Preview.KeyRoundTrip |
| Preview.PairKeys | src/fonts.js:301-308 | the keys the loop collects; its contract is stated by Preview.VariantPairs, Preview.PairKeysParse, Preview.PairKeysCover and Preview.PairKeysFirstSeenOrder |
| Preview.PairOfSpec | src/fonts.js:303-305 | a token's italic flag is 0 or 1, and 1 exactly when it contains "italic" in any case; its weight is its first digit run, or 400 exactly when it has no digit |
| Preview.KeyRoundTrip | src/fonts.js:306-311 | splitting a pair key at its comma gives back the pair it was written from |
| Preview.VariantPairs | src/fonts.js:301-308 | the loop collects exactly the distinct keys of the tokens' pairs, in first-seen order |
| Preview.PairKeysParse | src/fonts.js:301-308 | the collected keys repeat nothing, and each is the key of some token's pair, with italic flag 0 or 1 |
| Preview.PairKeysCover | src/fonts.js:301-308 | every token's pair is collected |
| Preview.PairKeysFirstSeenOrder | src/fonts.js:301-308 | later tokens never reorder or drop keys already collected |
| Preview.Axis | src/fonts.js:309 | the axis is empty exactly when there are no pairs |
| Preview.PreviewVariants | src/fonts.js:299-300 | the font's own selection when it is non-empty; otherwise the catalog entry's variants for a known family and `["regular"]` for an unknown one; nothing only when a known family lists no variants |
| Preview.PreviewFamily | src/fonts.js:296 | the family when set, else the name; empty only when both are missing or empty |
| Preview.RegularIsUpright | src/fonts.js:303 | "regular" is not italic |
| Preview.BoldItalicIsItalic | src/fonts.js:303 | "700italic" is italic |
| Preview.ItalicIgnoresCase | src/fonts.js:303 | "italic" and "Italic" are both italic |
| Preview.PlainWeights | src/fonts.js:304-305 | tokens without digits weigh 400 |
| Preview.BoldWeight | src/fonts.js:304-305 | "700italic" weighs 700 |
| Preview.PairOfExamples | src/fonts.js:303-305 | the pairs of regular, 700italic, italic and Italic are (0,400), (1,700), (1,400) and (1,400) |
| Preview.KeyExamples | src/fonts.js:306 | the keys of those pairs are "0,400", "1,700" and "1,400" |
| Preview.PairKeysRegularAndBoldItalic | src/fonts.js:301-308 | tokens regular and 700italic give the keys "0,400" and "1,700" |
| Preview.PairKeysRepeatedToken | src/fonts.js:301-308 | tokens italic and Italic collapse to the one key "1,400" |
| StyleOptions.FontOptions | src/fonts.js:362-367 | defaults then installed fonts when preserving defaults; otherwise the installed fonts, or the defaults when none is installed |
| StyleOptions.FontOptionsSpec | src/fonts.js:362-367 | every installed font is offered, every option is a default or installed font, the list is empty only when both are, and defaults are dropped only when not preserved and some font is installed |
| Session.FontSession.constructor | src/fonts.js:48 | the dialog starts with no installed fonts, on page 0, with no category and no search text |
| Session.FontSession.LoadFonts | src/fonts.js:77-82 | the installed list becomes the normalised stored list, or empty when the document has none |
| Session.FontSession.Install | src/fonts.js:322-332 | the list becomes the install of the catalog font; earlier entries stay, the family is present, and unique families stay unique |
| Session.FontSession.Remove | src/fonts.js:237 | the list becomes the removal of the family, the family is gone, and unique families stay unique |
| Session.FontSession.SetVariant | src/fonts.js:221-226 | only the selection of font i changes; afterwards the token is selected exactly when the box is checked |
| Session.FontSession.ToggleAllVariants | src/fonts.js:207-210 | only the selection of font i changes, to the toggle against its catalog variants, and stays within them |
| Session.FontSession.SelectCategory | src/fonts.js:248 | the category is set and the page goes back to 0, which is in range for any catalog |
| Session.FontSession.SetSearch | src/fonts.js:255-257 | typing goes back to page 0, which is in range for any catalog |
| Session.FontSession.PreviousPage | src/fonts.js:262-267 | steps back unless on page 0, keeping the page in range |
| Session.FontSession.NextPage | src/fonts.js:269-274 | steps forward unless on the last page of the listed fonts, keeping the page in range |
| Session.FontSession.DisplayFontLists | src/fonts.js:170-188 | clamps the page, then shows the page slice (at most ten, empty only when nothing is listed), the page count and the category menu |
| Session.OpenDialog | src/fonts.js:121-123 | opening loads the stored fonts and, before the catalog arrives, shows an empty panel on page 0 |

## Left out

- **Rendering and styling.** The lit-html templates, CSS and DOM elements are not modelled. This includes the installed list's labels ("Unknown Font", the category fallback, the variant count), the preview iframe markup and its colour, and the `font.family || font.name` URL of the preview. These are rendering only.
- **Network, storage and timers.**
  - Fetching the catalog, the `localStorage` cache and `wait` are left out. The catalog is a parameter.
  - The debounced refresh and the editor's storage, frame and page event hooks are left out. They are timer scheduling on the host's event bus.
- **Editor APIs.** The modal, command registration, `editor.getModel()` get/set, and the StyleManager's `getProperty`/`setOptions` are foreign APIs. Only their inputs are modelled: the stored list, `getHtml`, and the `updateUi` option list.
- **`updateHead` and `removeAll`.** Their DOM side (removing marked links and inserting new ones) mutates the live document. Only `getHtml`, which produces the inserted markup, is modelled.
- **`src/commands.js` and `src/index.js`.**
  - `src/commands.js` forwards to `getHtml`; its CSS command only throws.
  - `src/index.js` merges options and registers translations.
  - The locale tables are text.
- **Plugin options.** The `server_url` and `api_url` options and the mandatory-key check are configuration. The server is a parameter of `Markup`.
- Text.Lower: models `toLowerCase` over ASCII letters only; non-ASCII case mappings are not modelled.
- Text.Less: compares characters, whereas `sort()` compares UTF-16 code units. The two orders agree except on characters outside the Basic Multilingual Plane.
- Text.DecimalValue: models `parseInt` as exact. For digit runs too long for a double, JavaScript would round the weight.
- **Two catalog copies become one parameter.** The source's toggle-all and checkbox grid read the cached catalog `_fontsList`, while the panel reads the list it was rendered with. The model passes one catalog to both.
- Session.FontSession.NextPage: recomputes the page count from the current filter instead of reading the count captured by the last render. The two agree because every change of filter or search re-renders.
- Session.FontSession.SetVariant: takes the position of the font in the list, where the handler holds the font object itself. Because the code replaces the `variants` array rather than mutating it, no aliasing between fonts is lost.
- FontModel.Removed: an absent family and an empty family are the same value here. The remove handler's `!==` (src/fonts.js:237) tells them apart: run for a font with no family, it keeps entries whose family is the empty string, while `Removed(fonts, "")` drops them.
- Session.FontSession.Install, Session.FontSession.Remove, Session.FontSession.SetVariant, Session.FontSession.ToggleAllVariants: these say nothing about what happens after the list changes. Each handler then saves the list, and that calls `getHtml` inside `updateHead` (src/fonts.js:90, 353-354). When some installed font has no `name`, that call throws after the list has changed and after `removeAll` has run. The head then keeps none of its marked links, `updateUi` is skipped and the dialog is not re-rendered. The model records only the throw itself, as the `Failure` of `Markup.GetHtml`.
- **Deep copies.** `structuredClone` and the JSON deep copy of the catalog are identity on values, so they do not appear in the model.
