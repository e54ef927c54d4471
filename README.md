# Nail Check — a Dafny model of the tutorial gallery core

Nail Check is a nail-art gallery. An Express server keeps two record tables,
`tutorials` and `saved_designs`. It serves the tutorials API: list with
filters, get by id, create after validation, and a one-time seed of sample
rows. It also forwards image requests to a generative model.

The React client has several parts:
- hooks that call the API and keep favourite tutorial ids in local storage;
- pages that filter, group and count what they fetched: the tutorial
  collection, a tutorial's detail page, the saved looks, the supply
  catalogue and the seasonal vault;
- an upload form that turns a comma-separated tools field into a list.

This project models that core in Dafny and proves what each part promises.
- **State as classes.** State the source changes in place is a `class` whose
  methods state their whole new state: the store, the favourites hook and
  the page components.
- **Specification functions.** Each method's `ensures` ties its result to a
  function of the old state. Lemmas then prove what the source promises about
  those functions: filters keep exactly the matching rows in order, a toggle
  applied twice restores the membership, and grouping partitions the list.
  Cleaned text has no tag left, the upload tools parse back from their join,
  and data URLs round-trip.
- **JavaScript semantics written out.** The model spells out the JavaScript
  behaviour the code leans on: truthiness, `split` (always at least one
  piece) and `trim`, first-occurrence `replace` with a string pattern
  (including the `$$`, `$&`, `` $` `` and `$'` patterns of its replacement text),
  the global regular-expression replaces, `parseInt` and `Array.prototype.find`.

Inputs the code gets from outside are parameters of the model:
- the clock (`now`);
- the results of `fetch` and of `localStorage`;
- the text `JSON.parse` gives;
- the reply of the image model;
- the outcome of zod validation;
- whether a database insert throws (`insertFails`).

Modules, one per core file, on three shared ones:
- `Wrappers`: `Option`, `Result`.
- `Text`: the string operations and JavaScript number parsing.
- `Seqs`: filter, subsequence, distinct-in-order, group-by.
- `Schema` (`shared/schema.ts`), `SharedRoutes` (`shared/routes.ts`).
- `Storage` (`server/storage.ts`), `ServerRoutes` (`server/routes.ts`).
- `ImageClient` and `ImageRoutes` (the image integration).
- `Favorites` (`use-favorites.ts`), `UseTutorials` (`use-tutorials.ts`).
- One module per page: `SavedPage`, `SupplySuite`, `SeasonalVault`,
  `TutorialsPage`, `TutorialDetail`, `UploadPage`.

## Model

| member | source | states |
|---|---|---|
| SharedRoutes.Substitute | shared/routes.ts:56-57 | one `url.replace(':' + key, String(value))` step, guarded by `includes`, with the value's `$` patterns expanded; SubstituteSpec states what it does |
| SharedRoutes.ApplyParams | shared/routes.ts:55-59 | the substitutions of the entries taken in order; BuildUrl is proved equal to it |
| SharedRoutes.BuildUrl | shared/routes.ts:52-62 | without params the URL is the path; with params it is each `:key` placeholder replaced in turn, and an empty param list leaves the path unchanged |
| SharedRoutes.SubstituteSpec | shared/routes.ts:56-57 | a key whose placeholder is absent leaves the URL unchanged; otherwise only the first occurrence is replaced, by the substitution of the value's text for that match, which is the text itself when it holds no `$` |
| Text.Substitution | shared/routes.ts:57 | the replacement text of a string-pattern `replace`: `$$` gives `$`, `$&` the match, `` $` `` and `$'` the text before and after it, any other `$` is kept; text with no `$` is inserted as it is |
| Text.SubstitutionOfPattern | shared/routes.ts:57 | a `$` pattern at the head of the replacement expands by itself and the rest is substituted on |
| Text.SubstitutionOfSurroundings | shared/routes.ts:57 | `` $`$' `` stands for the text around the match |
| SharedRoutes.DollarDollarIsDollar | shared/routes.ts:57 | a string value `$$` puts a single `$` in place of the placeholder |
| SharedRoutes.DollarAmpersandKeepsPlaceholder | shared/routes.ts:57 | a string value `$&` puts the placeholder back, leaving the URL as it was |
| SharedRoutes.DollarQuotesGiveSurroundings | shared/routes.ts:57 | a string value `` $`$' `` puts the text before and after the placeholder in its place |
| SharedRoutes.SubstituteAfter | shared/routes.ts:56-57 | with no ':' before it, the placeholder is replaced in place by the value's substitution, the text around it is kept, and a value text without `$` goes in as it is |
| SharedRoutes.PlaceholderMatchesInsideLongerName | shared/routes.ts:56-57 | `:id` also matches inside `:idx`, leaving a stray `x` |
| SharedRoutes.LaterKeyMatchesEarlierValue | shared/routes.ts:55-59 | a value that is the placeholder of a later key is itself replaced by that key's value (its substitution, and the text itself when it holds no `$`) |
| SharedRoutes.TutorialUrl | shared/routes.ts:31-38 | the get path with an id becomes `/api/tutorials/<id>` |
| Storage.Matches | server/storage.ts:37-60 | the independent reading of the filters: every truthy field must match; ConditionsMatch ties the built conditions to it |
| Storage.InsertByDate | server/storage.ts:73-82 | inserting keeps every row and adds the new one (multiset) |
| Storage.InsertByDateMembers | server/storage.ts:73-82 | each row of the insertion is the new row or an old one |
| Storage.InsertByDateSorted | server/storage.ts:73-82 | inserting into a newest-first list keeps it newest-first |
| Storage.SortNewestFirst | server/storage.ts:80-81 | the sort keeps exactly the rows (multiset) |
| Storage.SortNewestFirstSorted | server/storage.ts:80-81 | the sort orders rows by `createdAt`, newest first |
| Storage.SetFavorite | server/storage.ts:104-108 | the update sets `isFavorite` on the rows with the id and leaves every other row as it is |
| Storage.Store.constructor | shared/schema.ts:8-38 | empty tables, serial counters at 1, ids valid |
| Storage.Store.GetTutorials | server/storage.ts:37-60 | a row is returned iff it is stored and meets every truthy filter (case-insensitive search in title or content, exact style, exact difficulty), as a subsequence of the table; no filter returns the table |
| Storage.Store.GetTutorial | server/storage.ts:62-65 | a stored row with the id, or nothing exactly when no row has it |
| Storage.Store.CreateTutorial | server/storage.ts:67-70 | the new row is the input with the next serial id and `now`, appended; its id is fresh; the design table is untouched |
| Storage.Store.GetSavedDesigns | server/storage.ts:73-82 | newest first; with a truthy user id exactly that user's designs, else all designs |
| Storage.Store.GetSavedDesign | server/storage.ts:84-87 | a stored design with the id, or nothing exactly when none has it |
| Storage.Store.SaveDesign | server/storage.ts:89-92 | the new design has the next serial id, `now`, and `isFavorite` false when omitted; it is appended with a fresh id |
| Storage.Store.DeleteDesign | server/storage.ts:94-96 | exactly the designs with other ids remain, in order |
| Storage.Store.ToggleFavorite | server/storage.ts:98-111 | a missing id gives "Design not found" and changes nothing; else the row's flag becomes the negation of its truthiness, and the updated row is returned |
| Storage.ConditionsMatch | server/storage.ts:40-57 | the AND of the built conditions holds exactly when the filter record matches, and there are no conditions exactly when no field is truthy |
| Storage.DeleteKeepsIds | server/storage.ts:94-96 | deleting keeps ids unique, and the rows left were there before |
| Storage.SubsequenceUniqueIds | server/storage.ts:94-96 | keeping some rows in order keeps ids unique |
| Storage.DeleteRemovesExactly | server/storage.ts:94-96 | a row survives deletion iff it was stored and has another id |
| Storage.DeleteAbsent | server/storage.ts:94-96 | deleting an id no row has changes nothing |
| Storage.SetFavoriteTwice | server/storage.ts:104-108 | a second update of the same id overrides the first |
| Storage.ToggleTwiceRestores | server/storage.ts:98-111 | toggling a stored design with a set flag twice restores the table |
| ServerRoutes.ListHandler | server/routes.ts:18-26 | status 200 and exactly the stored rows that match the query filters, as a subsequence of the table |
| ServerRoutes.GetHandler | server/routes.ts:28-35 | 404 "Tutorial not found" exactly when no row has the id, else 200 with a stored row with that id |
| ServerRoutes.ValidationBody | server/routes.ts:43-48 | the 400 body is the first issue's message with its path segments joined by '.' (an index as its decimal text), and every segment occurs in that field |
| ServerRoutes.ValidationFieldSplits | server/routes.ts:46 | splitting the field at '.' gives back the path segments when no key name holds a '.' |
| ServerRoutes.ValidationFieldOfPath | server/routes.ts:46 | two issues with the same field have the same path segments, when no key name holds a '.' |
| ServerRoutes.JoinContainsParts | server/routes.ts:43-48 | every path element occurs in the joined field name |
| ServerRoutes.CreateHandler | server/routes.ts:37-51 | a valid input is stored as the row with the next serial id and `now`, appended and answered with 201; invalid input gives 400 with the first issue; other failures are thrown; only a stored row changes the table |
| ServerRoutes.RowOf | server/storage.ts:67-70 | the row `.returning()` gives for an insert: the input with its serial id and the creation time |
| ServerRoutes.SampleRows | server/routes.ts:62-112 | one row per sample, with consecutive ids and the sample titles |
| ServerRoutes.Seed | server/routes.ts:59-114 | an empty table receives the samples in order; a non-empty one is left as it is; the table is non-empty afterwards |
| ServerRoutes.SeedTwice | server/routes.ts:59-114 | seeding twice equals seeding once |
| ServerRoutes.SampleTitles | server/routes.ts:62-108 | the seeded titles are the sample titles in order |
| ImageClient.Instruction | server/replit_integrations/image/client.ts:14-23 | the fixed template with the prompt spliced in; InstructionCarriesPrompt and InstructionInjective state its properties |
| ImageClient.InstructionCarriesPrompt | server/replit_integrations/image/client.ts:14-23 | the instruction contains "User Request: " and the prompt, and the prompt can be read back from it |
| ImageClient.InstructionInjective | server/replit_integrations/image/client.ts:14-23 | different prompts give different instructions |
| ImageClient.StripPrefix | server/replit_integrations/image/client.ts:29 | an image without a comma is sent as it is |
| ImageClient.StripPrefixOfDataUrl | server/replit_integrations/image/client.ts:29 | a data URL sends the text after its comma |
| ImageClient.StripPrefixDropsTail | server/replit_integrations/image/client.ts:29 | text after a second comma is dropped |
| ImageClient.StripPrefixEmptyData | server/replit_integrations/image/client.ts:29 | an empty piece after the comma falls back to the whole image |
| ImageClient.RequestParts | server/replit_integrations/image/client.ts:25-36 | the instruction text first; a second part with PNG type and the stripped data exactly when the image is truthy |
| ImageClient.BuildParts | server/replit_integrations/image/client.ts:25-36 | the pushed parts are the request parts |
| ImageClient.ImagePartOf | server/replit_integrations/image/client.ts:47-50 | the first part of the first candidate that has inline data; none exactly when no such part |
| ImageClient.DataUrl | server/replit_integrations/image/client.ts:58 | `data:` + the media type + `;base64,` + the data; ParseDataUrlRoundTrip undoes it |
| ImageClient.GenerateImage | server/replit_integrations/image/client.ts:47-58 | a failed call passes its error on; the fixed message iff the reply has no image part or its data is falsy; else `data:` + the media type, or "image/png" when it is falsy, + `;base64,` + the data |
| ImageRoutes.PromptText | server/replit_integrations/image/client.ts:22 | `${prompt}`: the prompt itself, or "undefined" when the field is absent |
| ImageRoutes.Handle | server/replit_integrations/image/routes.ts:5-33 | with neither prompt nor image: 400 and no call; otherwise the request parts are sent, the answer is never the 400, and any failure is the generic 500 |
| ImageRoutes.ParseDataUrl | server/replit_integrations/image/routes.ts:19-20 | the header and data pieces of the URL, undefined data without a comma, a throw without ':'; ParseDataUrlRoundTrip and ParseFields state its properties |
| ImageRoutes.ParseFields | server/replit_integrations/image/routes.ts:19-20 | `scheme:mime;param,data` splits into the media type and the data |
| ImageRoutes.ParseDataUrlRoundTrip | server/replit_integrations/image/routes.ts:19-20 | the split undoes the client's data URL |
| ImageRoutes.GeneratedCarriesReply | server/replit_integrations/image/routes.ts:16-25 | an image part of the reply reaches the answer with its type and data |
| ImageRoutes.CallFailureIsHidden | server/replit_integrations/image/routes.ts:27-32 | a failed call answers the generic 500, not its own message |
| ImageRoutes.NoImageIsHidden | server/replit_integrations/image/routes.ts:16-32 | a reply with no image part, or with falsy data, answers the generic 500 |
| ImageRoutes.MissingMimeIsPng | server/replit_integrations/image/routes.ts:16-25 | an image part without a media type is answered as "image/png" with its data |
| ImageRoutes.ParseFieldsTail | server/replit_integrations/image/routes.ts:19 | a second comma cuts the data |
| ImageRoutes.DataCutAtComma | server/replit_integrations/image/routes.ts:19 | data holding a comma comes back cut at it |
| Favorites.Toggled | client/src/hooks/use-favorites.ts:22-24 | the toggled list; ToggleMembership and the lemmas after it state its properties |
| Favorites.ToggleMembership | client/src/hooks/use-favorites.ts:22-24 | the toggled id's membership flips; every other id's stays |
| Favorites.ToggleAbsentAppends | client/src/hooks/use-favorites.ts:24 | an absent id is appended |
| Favorites.TogglePresentRemoves | client/src/hooks/use-favorites.ts:23 | a present id is removed with all its repeats, the rest keep their order |
| Favorites.FilterLength | client/src/hooks/use-favorites.ts:23 | removal shortens the list by the id's count |
| Favorites.ToggleTwiceMembership | client/src/hooks/use-favorites.ts:20-29 | toggling twice restores every id's membership |
| Favorites.ToggleTwiceFromAbsent | client/src/hooks/use-favorites.ts:20-29 | from an absent id, toggling twice restores the list exactly |
| Favorites.ToggleTwiceMovesToEnd | client/src/hooks/use-favorites.ts:20-29 | toggling a present id twice leaves the other ids in order and the id once at the end, so the list changes unless the id was last |
| Favorites.ToggleKeepsNoDuplicates | client/src/hooks/use-favorites.ts:22-24 | a list without repeats keeps none |
| Favorites.FavoritesHook.IsFavorite | client/src/hooks/use-favorites.ts:31 | an id is a favourite iff the list includes it |
| Favorites.FavoritesHook.constructor | client/src/hooks/use-favorites.ts:5-6 | an empty list, not loaded, nothing written |
| Favorites.FavoritesHook.Load | client/src/hooks/use-favorites.ts:8-18 | a truthy stored text that parses replaces the list, otherwise it stays; loaded afterwards |
| Favorites.FavoritesHook.Toggle | client/src/hooks/use-favorites.ts:20-29 | the list becomes the toggled list and that list is written |
| UseTutorials.QueryParams | client/src/hooks/use-tutorials.ts:6-9 | the params appended are those of the filter record |
| UseTutorials.ParamsOfSpec | client/src/hooks/use-tutorials.ts:6-9 | a pair per truthy filter with its value, keys in the order search, style, difficulty |
| UseTutorials.KeysSubsequence | client/src/hooks/use-tutorials.ts:6-9 | any choice of appended keys keeps search, style, difficulty order |
| UseTutorials.QueryText | client/src/hooks/use-tutorials.ts:11 | `queryParams.toString()`: the `key=value` pairs in append order, joined by `&` |
| UseTutorials.ListPath | client/src/hooks/use-tutorials.ts:11 | the list path, "?" and the query text; ListPathUnfiltered states the unfiltered case |
| UseTutorials.ListPathUnfiltered | client/src/hooks/use-tutorials.ts:11 | with no truthy filter the path is `/api/tutorials?` |
| UseTutorials.QueryTextSplits | client/src/hooks/use-tutorials.ts:11 | splitting the query text at `&` gives back one `key=value` piece per parameter, in order, when no key or value holds `&` |
| UseTutorials.ListQuerySplits | client/src/hooks/use-tutorials.ts:6-11 | the pieces of the list query text are the `key=value` pairs of the truthy filters, in order, when no filter value holds `&` |
| UseTutorials.IsOk | client/src/hooks/use-tutorials.ts:17 | `res.ok`: a status from 200 to 299 |
| UseTutorials.ListResult | client/src/hooks/use-tutorials.ts:16-18 | rows iff the status is 2xx, else "Failed to fetch tutorials" |
| UseTutorials.Enabled | client/src/hooks/use-tutorials.ts:34 | `!!id && !isNaN(id)`: a number that is neither NaN nor 0; EnabledOfDecimal and TutorialQueryOf use it |
| UseTutorials.EnabledOfDecimal | client/src/hooks/use-tutorials.ts:34 | the query is enabled for the id read from an integer's decimal text iff the integer is not 0 |
| UseTutorials.DisabledWithoutDigits | client/src/hooks/use-tutorials.ts:34 | text that starts with no space, sign or digit reads as NaN and leaves the query disabled |
| UseTutorials.TutorialQueryOf | client/src/hooks/use-tutorials.ts:24-36 | no request iff the id is NaN or 0; else the request goes to `/api/tutorials/<id>` and gives the get result |
| UseTutorials.TutorialResult | client/src/hooks/use-tutorials.ts:28-32 | `null` iff 404; an error "Failed to fetch tutorial" iff neither 404 nor 2xx; else the row |
| UseTutorials.TutorialQueryAgainstServer | client/src/hooks/use-tutorials.ts:28-32 | against the server's get route: null exactly when no row has the id, else a stored row with it |
| UseTutorials.CreateMutation | client/src/hooks/use-tutorials.ts:42-63 | sent iff validation passes; the error per status: 400 the body's message or "Validation failed", 401 the log-in message, others "Failed to create tutorial" |
| UseTutorials.CreateSurfacesServerMessage | client/src/hooks/use-tutorials.ts:53-57 | a server validation failure surfaces the first issue's message |
| SavedPage.SavedTutorials | client/src/pages/Saved.tsx:17 | the filter of the list by favourite ids; SavedTutorialsSpec states its properties |
| SavedPage.SavedTutorialsSpec | client/src/pages/Saved.tsx:17 | exactly the listed tutorials whose id is a favourite, in list order |
| SavedPage.SavedTutorialsIgnoreRepeats | client/src/pages/Saved.tsx:17 | the selection depends only on the set of favourite ids |
| SavedPage.SavedTutorialsCount | client/src/pages/Saved.tsx:17 | a tutorial is selected as often as it is listed, or not at all |
| SavedPage.PageView | client/src/pages/Saved.tsx:19-64 | spinner iff either source loads; empty message iff no favourites; else the grid of the selection |
| SavedPage.UnmatchedFavoritesGiveEmptyGrid | client/src/pages/Saved.tsx:42-64 | favourites matching no tutorial give an empty grid, not the message |
| SupplySuite.InCategory | client/src/pages/SupplySuite.tsx:79 | `p.category.includes(selectedCategory)`: a substring test |
| SupplySuite.MatchesQuery | client/src/pages/SupplySuite.tsx:85-90 | the lower-cased query occurs in the lower-cased name, brand, description when present, or some tag |
| SupplySuite.FilteredProducts | client/src/pages/SupplySuite.tsx:74-94 | the category filter, then the search filter; FilteredProductsSpec states its properties |
| SupplySuite.FilteredProductsSpec | client/src/pages/SupplySuite.tsx:74-94 | a product is kept iff it passes each active filter (category substring, case-insensitive search in name, brand, description or a tag), in order |
| SupplySuite.UnfilteredIsAll | client/src/pages/SupplySuite.tsx:74-94 | no category and no query keeps the whole list |
| SupplySuite.ToolKeepsTools | client/src/pages/SupplySuite.tsx:78-80 | any piece of a product's category, such as "Tool" of "Tools", keeps the product |
| SupplySuite.SupplyPage.constructor | client/src/pages/SupplySuite.tsx:44-48 | empty lists, no filters, loading |
| SupplySuite.SupplyPage.FetchFinished | client/src/pages/SupplySuite.tsx:59-72 | an OK reply sets both lists; loading ends either way |
| SupplySuite.SupplyPage.FilterProducts | client/src/pages/SupplySuite.tsx:74-94 | the shown list becomes the filtered products; nothing else changes |
| SupplySuite.SupplyPage.SelectCategory | client/src/pages/SupplySuite.tsx:74-94 | the category changes and the list is refiltered |
| SupplySuite.SupplyPage.SetQuery | client/src/pages/SupplySuite.tsx:74-94 | the query changes and the list is refiltered |
| SupplySuite.GroupedProducts | client/src/pages/SupplySuite.tsx:96-103 | throws iff some category is a name a plain object inherits; else one group per category in order of first appearance, each with its products in order, sizes summing to the list |
| Seqs.GroupInto | client/src/pages/SupplySuite.tsx:96-103 | the reduce over `{}`: it throws iff some key is inherited, else it gives the groups of GroupBy |
| SupplySuite.ListingOf | client/src/pages/SupplySuite.tsx:96-103 | the page crashes iff some category is an inherited name; else a flat grid iff a filter is active, else the category sections |
| SupplySuite.IsLocked | client/src/pages/SupplySuite.tsx:344 | a members-only product seen by a visitor who is not signed in |
| SupplySuite.LinkAreaOf | client/src/pages/SupplySuite.tsx:297-314 | the prompt, the product link or nothing; LinkAreaRule states when each shows |
| SupplySuite.ShowsEmptyNote | client/src/pages/SupplySuite.tsx:215 | the empty note shows iff no product is left |
| SupplySuite.LinkAreaRule | client/src/pages/SupplySuite.tsx:298-315 | the member prompt iff locked; the product link iff unlocked with a URL that is neither empty nor "#" |
| Text.CountLabel | client/src/pages/SupplySuite.tsx:173 | the count line starts with the count and, for a noun not ending in 's', ends in "s Found" exactly when the count is not 1 |
| SupplySuite.ResultsLabel | client/src/pages/SupplySuite.tsx:173 | the count line with the noun "Product", so "Products" unless the count is 1 |
| SeasonalVault.HolidaysFilterValue | client/src/pages/SeasonalVault.ts:23-30 | the "Holidays" button filters on "Holiday", and no button's value is "Holidays" |
| SeasonalVault.SeasonFiltered | client/src/pages/SeasonalVault.ts:43-49 | all designs without a season, else the exact matches; SeasonFilteredSpec states its properties |
| SeasonalVault.SeasonFilteredSpec | client/src/pages/SeasonalVault.ts:43-49 | a selected season keeps exactly its designs, in order |
| SeasonalVault.SeasonMatchIsExact | client/src/pages/SeasonalVault.ts:43-49 | a season that is only the start of a design's season, as "Holiday" is of "Holidays", does not keep it |
| SeasonalVault.VaultPage.constructor | client/src/pages/SeasonalVault.ts:33-37 | empty lists, no season, loading |
| SeasonalVault.VaultPage.FetchFinished | client/src/pages/SeasonalVault.ts:51-64 | an OK reply sets both lists; loading ends either way |
| SeasonalVault.VaultPage.ApplySeasonFilter | client/src/pages/SeasonalVault.ts:43-49 | the shown list becomes the season filter of the designs |
| SeasonalVault.VaultPage.SelectSeason | client/src/pages/SeasonalVault.ts:43-49 | the season changes and the list is refiltered |
| SeasonalVault.GroupedDesigns | client/src/pages/SeasonalVault.ts:66-73 | throws iff some season is a name a plain object inherits; else one group per season in order of first appearance, each with its designs in order, sizes summing to the list |
| SeasonalVault.SectionStyle | client/src/pages/SeasonalVault.ts:145-147 | the icon and colour of a button with that value, else the grey calendar |
| SeasonalVault.UnlistedSeasonFallback | client/src/pages/SeasonalVault.ts:145-147 | "Holidays" sections get the fallback |
| SeasonalVault.ResultsLabel | client/src/pages/SeasonalVault.ts:125 | the count line with the noun "Design", so "Designs" unless the count is 1 |
| TutorialsPage.CollectionPage.constructor | client/src/pages/Tutorials.tsx:22-24 | no tutorials, loading, the "all" filter |
| TutorialsPage.CollectionPage.FetchSucceeded | client/src/pages/Tutorials.tsx:26-32 | the data becomes the list and loading ends |
| TutorialsPage.CollectionPage.FetchFailed | client/src/pages/Tutorials.tsx:33-36 | loading ends and the list stays |
| TutorialsPage.CollectionPage.Select | client/src/pages/Tutorials.tsx:72 | the filter becomes the category pressed |
| TutorialsPage.FilteredTutorials | client/src/pages/Tutorials.tsx:39-41 | all tutorials for "all", else the exact style matches; FilteredTutorialsSpec states its properties |
| TutorialsPage.Categories | client/src/pages/Tutorials.tsx:43 | "all" before the distinct styles; CategoriesSpec states its properties |
| TutorialsPage.Excerpt | client/src/pages/Tutorials.tsx:116 | the card text; ExcerptSpec states its properties |
| TutorialsPage.HeaderLabel | client/src/pages/Tutorials.tsx:64 | the count of fetched tutorials and " Curated Designs"; HeaderCountsAll states its property |
| TutorialsPage.FilteredTutorialsSpec | client/src/pages/Tutorials.tsx:39-41 | a category keeps exactly its tutorials, in order |
| TutorialsPage.CategoriesSpec | client/src/pages/Tutorials.tsx:43 | "all", then each category in use once, in order of first use |
| TutorialsPage.CategoryButtonsSelectSomething | client/src/pages/Tutorials.tsx:43 | every category button selects at least one tutorial |
| TutorialsPage.ExcerptSpec | client/src/pages/Tutorials.tsx:116 | the stripped content whole when shorter than 100 characters, else its first 100, then "..."; no tag in it |
| TutorialsPage.HeaderCountsAll | client/src/pages/Tutorials.tsx:64 | the header differs for two lists iff their lengths do |
| Markup.StripTags | client/src/pages/Tutorials.tsx:116 | the stripped text is no longer than the input and uses only its characters |
| Markup.StripTagsTagFree | client/src/pages/Tutorials.tsx:116 | no tag is left |
| Markup.StripTagsOfTagFree | client/src/pages/Tutorials.tsx:116 | tag-free text is unchanged |
| Markup.StripTagsIdempotent | client/src/pages/Tutorials.tsx:116 | stripping twice equals stripping once |
| Markup.StripTagsPlainPrefix | client/src/pages/Tutorials.tsx:116 | text before the first '<' is kept |
| Markup.StripTagsLeadingTag | client/src/pages/Tutorials.tsx:116 | a leading `<...>` tag is removed whole |
| Markup.StripTagsDropsTag | client/src/pages/Tutorials.tsx:116 | a whole `<...>` tag is removed |
| Markup.ReplaceAllKeepsTagFree | client/src/pages/TutorialDetail.tsx:104 | replacing "&nbsp;" by a space creates no tag |
| Text.ParseInt | client/src/pages/TutorialDetail.tsx:29 | `parseInt` without a radix; ParseIntDecimal states that it reads back decimal text |
| TutorialDetail.RouteId | client/src/pages/TutorialDetail.tsx:29 | `parseInt` of the parameter, or of "0" when it is missing or empty; RouteIdOfLink and RouteIdMissing state its properties |
| TutorialDetail.RouteIdOfLink | client/src/pages/TutorialDetail.tsx:29 | the id in a card link, `/tutorial/<id>`, parses back to that id |
| TutorialDetail.RouteIdMissing | client/src/pages/TutorialDetail.tsx:29 | a missing id reads as 0 |
| Text.ParseIntDecimal | client/src/pages/TutorialDetail.tsx:29 | `parseInt` of an integer's decimal text, followed by a non-digit, is that integer |
| TutorialDetail.Lookup | client/src/pages/TutorialDetail.tsx:43 | `data.find(t => t.id === tutorialId)`; LookupSpec states its properties |
| TutorialDetail.LookupSpec | client/src/pages/TutorialDetail.tsx:43-48 | the first tutorial with the id, or nothing exactly when none has it (NaN matches none) |
| TutorialDetail.Checked | client/src/pages/TutorialDetail.tsx:99 | the truthiness of `prev[tool]`: an own entry's value, else true exactly for a name inherited from `Object.prototype` |
| TutorialDetail.ToggledTools | client/src/pages/TutorialDetail.tsx:96-101 | `{...prev, [tool]: !prev[tool]}`; ToggleToolEffect states its properties |
| TutorialDetail.ToggleToolEffect | client/src/pages/TutorialDetail.tsx:96-101 | the tool's check flips; an absent tool reads unchecked unless its name is inherited from `Object.prototype`, so its first toggle stores false; other entries are kept |
| TutorialDetail.ToggleToolTwice | client/src/pages/TutorialDetail.tsx:96-101 | toggling twice restores every check |
| TutorialDetail.CleanContent | client/src/pages/TutorialDetail.tsx:104 | tags stripped, then each "&nbsp;" made a space; the CleanContent lemmas state its properties |
| TutorialDetail.CleanContentTagFree | client/src/pages/TutorialDetail.tsx:104 | the cleaned text has no tag |
| TutorialDetail.CleanContentNoNbsp | client/src/pages/TutorialDetail.tsx:104 | the cleaned text has no "&nbsp;" |
| Text.ReplaceAllRemoves | client/src/pages/TutorialDetail.tsx:104 | a global replace by text sharing no character with the pattern leaves no occurrence |
| TutorialDetail.CleanContentOfClean | client/src/pages/TutorialDetail.tsx:104 | clean text is unchanged |
| TutorialDetail.CleanContentIdempotent | client/src/pages/TutorialDetail.tsx:104 | cleaning twice equals cleaning once |
| TutorialDetail.DetailPage.constructor | client/src/pages/TutorialDetail.tsx:33-36 | no tutorial, loading, no error, nothing checked |
| TutorialDetail.DetailPage.FetchSucceeded | client/src/pages/TutorialDetail.tsx:38-50 | the looked-up tutorial is set, or the error when there is none; loading ends |
| TutorialDetail.DetailPage.FetchFailed | client/src/pages/TutorialDetail.tsx:51-55 | the error is set and loading ends |
| TutorialDetail.DetailPage.ToggleTool | client/src/pages/TutorialDetail.tsx:96-101 | the checks become the toggled map, whose properties ToggleToolEffect states |
| TutorialDetail.DetailPage.Shown | client/src/pages/TutorialDetail.tsx:58-104 | skeleton iff loading; not-found iff loaded with an error or no tutorial; else the article with its cleaned text |
| UploadPage.ToolsFieldValid | client/src/pages/Upload.tsx:34 | the `min(1)` check: the tools field has at least one character |
| UploadPage.ParseTools | client/src/pages/Upload.tsx:66-69 | split at ',', trimmed, empties dropped; ParseToolsSpec and ParseToolsOfJoin state its properties |
| UploadPage.ParseToolsSpec | client/src/pages/Upload.tsx:66-69 | every parsed tool is non-empty, trimmed and comma-free, in field order |
| UploadPage.ParseToolsOfJoin | client/src/pages/Upload.tsx:66-69 | joining such tools with "," parses back to them |
| UploadPage.EmptyField | client/src/pages/Upload.tsx:66-69 | an empty field gives no tool |
| UploadPage.SeparatorsOnly | client/src/pages/Upload.tsx:33-35 | a field of commas and spaces passes the length check yet gives no tool |
| UploadPage.Payload | client/src/pages/Upload.tsx:71-75 | `{ ...values, toolsRequired: toolsArray }`: every form field passes through and only the tools are replaced by the parsed list; PayloadRoundTrip is its partner |
| UploadPage.PayloadRoundTrip | client/src/pages/Upload.tsx:64-75 | a tutorial with clean tools, typed into the form with its tools joined by ",", comes back as the request body unchanged |
| Text.SplitJoin | client/src/pages/Upload.tsx:67 | splitting comma-free pieces joined by ',' gives the pieces |
| Text.TrimIdempotent | client/src/pages/Upload.tsx:68 | trimming twice equals trimming once |

## Left out

- The `ILIKE` wildcards `%` and `_` and its escape character `\` inside a search term: the search is a plain case-insensitive substring test. A term ending in `\` escapes the closing `%`, so the source then asks for a literal `%` at its end.
- Case folding and trimming are ASCII only: Unicode case mapping and Unicode white space are not modelled.
- Order among rows with equal `createdAt`: the model takes one stable order, because SQL leaves it unspecified.
- Storage.Store.GetTutorials: the query has no `ORDER BY`, so SQL promises no row order; the model returns the rows in insertion order, and so does ServerRoutes.ListHandler.
- ServerRoutes.GetHandler: the route id is an integer. `Number(req.params.id)` of a segment that is not a number is NaN; Postgres rejects that parameter for an integer column, so the source's route throws instead of answering 404, and the model does not produce that outcome.
- `Number()` and `parseInt` on fractional or very large values: ids are unbounded integers, without 2^53 precision loss.
- SharedRoutes.LaterKeyMatchesEarlierValue: the later key holds no `$`, so the earlier value `:key` goes into the URL as it is written.
- Text.ReplaceAll: it inserts the replacement as it is, where a regular-expression replace would expand `$` patterns; the replacements the source uses (a space and the empty text) hold none.
- Percent-encoding by `URLSearchParams`: the query text joins `key=value` pairs with `&` as they are.
- `Object.entries` lists integer-like keys first: groups keep first-appearance order for every key.
- `JSON.parse` of stored favourites that are valid JSON but not a list of numbers: the parsed list is a parameter.
- Concurrency and rendering: React's batching, effect timing, the non-atomic read-then-update of `toggleFavorite` in storage, and all markup and styling.
- The database layer (`server/db.ts`), authentication, DDL defaults beyond the ones modelled, and the Embed page: these are not part of this model.
- The image model call, `fetch` and `localStorage`: their results are parameters. A failed image model call is the `CallFailed` reply.
- UseTutorials.ListResult, UseTutorials.TutorialResult, UseTutorials.CreateMutation: these take only a status and a parsed body. A rejected `fetch`, a body that is not JSON, or one the response schema rejects throws its own error from the query, and the model does not produce that outcome.
- TutorialsPage.CollectionPage.FetchSucceeded: it takes a list of tutorials. A JSON body that is not a list is stored as it is by the source and breaks the page's `filter` and `map`; the model does not represent such a body.
- TutorialsPage.Excerpt: it counts characters (Unicode scalar values), while `substring(0, 100)` counts UTF-16 code units. For content with characters beyond U+FFFF, such as emoji, the source's excerpt holds fewer characters and can end in half of a surrogate pair.
- Names a plain object inherits: the model takes the twelve standard members of `Object.prototype`; names an engine adds beyond those are not modelled.
- ImageRoutes.Handle: the body's `prompt` and `image` are strings or absent. A JSON `null` or another non-string value is not modelled; the source would pass such a prompt through the guard when an image is present, and its template would render it as "null" or its string form.
- A rejected promise in the create and seed routes: it is the `Thrown` outcome, the 500 page Express renders is not modelled.
- ServerRoutes.Seed: all sample rows share one `now`, where each insert takes its own clock reading.
- The product dialog's visuals, the card-grid empty states beyond the count and empty checks, and the navigation of card links.
