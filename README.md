# Catalog browser view-state engine, in Dafny

A model of the state logic of a one-page catalog browser (`main.js`). The
page loads a list of service entries, shows them as cards, and lets the user
switch between the *all* and *favourites* tabs, narrow the list to one tag,
type a query that produces tag and card suggestions, star favourites, and
open an entry in a detail view with an image carousel.

Modules, one per component:

- `Wrappers` (`wrappers.dfy`): `Option`, for `null` and absent fields.
- `Text` (`text.dfy`): ASCII lower-casing, `includes` as substring search,
  and `trim` with ECMAScript's white-space set.
- `Seqs` (`seqs.dfy`): subsequences, `filter`, and the first-occurrence
  de-duplication an insertion-ordered `Set` performs.
- `Catalog` (`catalog.dfy`): the entry record and the normalisation of
  fetched records (defaulted `tags`, `detalhes` and `imagem`).
- `Favorites` (`favorites.dfy`): the toggle on the favourites set and the
  start-up read that falls back to the empty set.
- `View` (`view.dfy`): `getVisibleCards`, the tab filter followed by the tag
  filter, in catalog order.
- `Search` (`search.dfy`): `searchQuery`, as a specification function and as
  the method with the source's nested loops.
- `Carousel` (`carousel.dfy`): the circular image index.
- `Html` (`html.dfy`): `escapeHtml` and its inverse.
- `Browser` (`browser.dfy`): class `CatalogBrowser`. Its fields are the
  page's module variables. It has one method per handler that changes them.
- `Scenarios` (`scenarios.dfy`): a client of the class. It loads two
  entries, favourites one, switches to the favourites tab and then picks a
  tag, and asserts the visible list after each step.

The class methods state their whole new state. Their `modifies` clauses name
only the fields the handler assigns, so "nothing else changes" is part of
each contract. The class keeps one invariant, `Valid()`: the carousel index
is below the image count of the current entry, which is 1 for an entry with
no images.

Three behaviours of `main.js` worth noting:

- `toggleFavorite` returns nothing (main.js:57-62). It flips the membership
  and redraws; callers get no result.
- The search box keeps the raw text. Trimming happens only when the input
  handler reads it (main.js:107).
- `closeCardModal` does not clear `currentCard` (main.js:248-250). So the
  carousel steps still act on the last opened entry.

## Model

| member | source | states |
|---|---|---|
| `Text.Trim` | main.js:107 | the result is a slice of the input that starts and ends with no white space; what is cut off is white space only; it is empty exactly when the input is all white space |
| `Text.Lower` | main.js:114 | lower-casing keeps the length of the string, one character for each character |
| `Text.LowerMeaning` | main.js:114 | no ASCII capital is left; each capital becomes its small letter, 32 code points above; every other character is kept |
| `Text.LowerIdempotent` | main.js:157 | lower-casing twice is lower-casing once, so lower-casing both sides of the tag comparison is consistent |
| `Text.Contains` | main.js:115 | `includes`: the empty needle is found in every string, a found needle is no longer than the text, and a prefix of the text is found |
| `Seqs.Filter` | main.js:156-157 | `filter` returns a subsequence of its input; it holds x exactly when x is in the input and passes the test; each passing element occurs as often as in the input |
| `Seqs.Dedup` | main.js:117-119 | adding elements one by one to an insertion-ordered `Set` keeps each distinct element exactly once, with no repeats, in the order of first occurrence |
| `Catalog.Images` | main.js:21 | an array `imagem` is kept as is; a non-empty string becomes a one-element list; a missing or empty value becomes the empty list |
| `Catalog.Normalize` | main.js:14-22 | the fields are renamed; missing `tags` become `[]`; missing `detalhes` becomes `""`; the image list is as `Images` says |
| `Catalog.LoadCatalog` | main.js:14-22 | the catalog has one entry per fetched record, in the fetched order, each the normalised record |
| `Catalog.DetailText` | main.js:217 | the detail view shows `detalhes`, or `desc` when `detalhes` is empty |
| `Favorites.LoadFavorites` | main.js:44-53 | a missing, unparsable or non-array stored value gives the empty set; a stored array gives exactly its ids, and no more ids than it has elements |
| `Favorites.DistinctIds` | main.js:49 | `new Set(arr)` holds exactly the elements of the array, and no more of them than the array's length |
| `Favorites.Toggled` | main.js:57-58 | the membership of the toggled id flips; every other id keeps its membership; the size moves by exactly one |
| `Favorites.ToggleTwice` | main.js:57-58 | toggling an id twice restores the set, so `has(id)` and `size` are both restored |
| `View.GetVisibleCards` | main.js:154-159 | the visible list is a subsequence of the catalog, in catalog order; an entry is on it exactly when it passes the tab filter (favourites only on `'favs'`) and the tag filter (some tag equal to the active tag after lower-casing); it occurs as often as in the catalog |
| `View.HasTag` | main.js:157 | an entry that carries the tag exactly passes the tag filter |
| `View.HasTagIgnoresCase` | main.js:157 | the tag filter gives the same answer for the tag and for its lower-cased form |
| `View.VisibleIsOneFilter` | main.js:154-159 | the tab filter followed by the tag filter equals one filter of the catalog by the conjunction of both conditions |
| `View.AllTabShowsCatalog` | main.js:154-158 | with tab `'all'` and no tag, or an empty tag, the visible list is the whole catalog unchanged |
| `View.FavsTabShowsExactlyFavorites` | main.js:156 | on the `'favs'` tab every visible entry's id is a favourite; with no tag active, every catalog entry whose id is a favourite is visible |
| `View.TagFilterShowsOnlyTagged` | main.js:157 | with a non-empty tag active, every visible entry has a tag equal to it up to case |
| `View.ClearingTagWidens` | main.js:157 | the list under a tag is a subsequence of the list for the same tab without the tag |
| `Search.Hit` | main.js:116 | the card suggestion of an entry carries its id, title and url |
| `Search.Hits` | main.js:116 | one suggestion per entry, in catalog order: the suggestion at each position is that of the entry at the same position |
| `Search.CardMatches` | main.js:115-116 | at most one suggestion per entry; its full contract is the four `CardMatches*` lemmas below (sound, exact, in order, with catalog multiplicities) |
| `Search.CardMatchesSound` | main.js:115-116 | every card suggestion has a lower-cased title that contains the query |
| `Search.CardMatchesExact` | main.js:115-116 | a catalog entry is suggested exactly when its lower-cased title contains the query |
| `Search.CardMatchesInOrder` | main.js:115-116 | the card suggestions are a subsequence of the catalog's, so catalog order is kept |
| `Search.CardMatchesCount` | main.js:115-116 | each matching entry is suggested as often as the catalog holds it, and a non-matching one never |
| `Search.AllTagsMembers` | main.js:118 | the tags the nested loop visits are exactly the tags carried by some entry |
| `Search.SearchSpec` | main.js:113-121 | card suggestions are the entries whose title contains the query up to case, in catalog order; tag suggestions have no repeats, hold each tag of some entry that contains the query up to case and no other, and follow the order of first occurrence |
| `Search.MatchingKeepsFirstOrder` | main.js:118 | keeping only the tags that contain the query does not change which of two kept tags is met first |
| `Search.TagSuggestionsInCatalogOrder` | main.js:116-119 | tag suggestions are listed in the order their first occurrence is met, entry after entry and tag after tag within an entry |
| `Search.CollectedStep` | main.js:118 | one more visited tag changes the collected set only by `add`ing it, and only when it matches |
| `Search.CollectedIsDedup` | main.js:117-119 | what the loops collect is the matching tags, in visiting order, each kept once at its first occurrence |
| `Search.Add` | main.js:118 | `tagSet.add(t)`: the tags already collected keep their positions, t is present afterwards, and the collection grows by one exactly when t was new |
| `Search.CollectTags` | main.js:118 | the inner loop over one entry's tags extends the collected set to the set of the tags seen before followed by those tags |
| `Search.SearchQuery` | main.js:113-121 | the loops compute the result `SearchSpec` describes |
| `Carousel.Next` | main.js:243 | one step forward stays in range and wraps from the last image to the first |
| `Carousel.Prev` | main.js:233 | one step back stays in range and wraps from the first image to the last, so from 0 of 3 it gives 2 |
| `Carousel.PrevUndoesNext` | main.js:228-246 | a step back after a step forward restores the index, and so does the reverse |
| `Carousel.ForwardWithinTurn` | main.js:238-246 | up to `total` steps forward from i land on i + k, wrapped at most once |
| `Carousel.FullTurn` | main.js:238-246 | `total` steps forward return to the starting index |
| `Html.Entity` | main.js:259 | characters other than the five markup characters are kept; each of the five becomes a reference that starts with `&` and ends with `;` |
| `Html.EscapeHtml` | main.js:257-260 | the empty string gives the empty string; no `<`, `>`, `"` or `'` is left in the output; the output is no shorter than the input; text with no markup characters is returned unchanged |
| `Html.EscapeConcat` | main.js:259 | escaping a concatenation is the concatenation of the escaped parts |
| `Html.UnescapeEscape` | main.js:257-260 | escaping loses nothing: reading the references back gives the original string |
| `Browser.CatalogBrowser.constructor` | main.js:2-6 | start-up state: empty catalog, tab `'all'`, no tag, empty search box, hidden dropdown, no current entry; the favourites are what storage yields |
| `Browser.CatalogBrowser.LoadCards` | main.js:9-27 | a fetched array replaces the catalog by its normalisation; any failure leaves the catalog unchanged |
| `Browser.CatalogBrowser.RenderCards` | main.js:161-165 | the list drawn is the visible list; the empty-state indicator shows exactly when no catalog entry passes the filters |
| `Browser.CatalogBrowser.ToggleFavorite` | main.js:57-62 | the favourites become the toggled set; no other field changes |
| `Browser.CatalogBrowser.FavCount` | main.js:64 | the counter is the size of the favourites set |
| `Browser.CatalogBrowser.SelectAllTab` | main.js:80 | the tab becomes `'all'`; nothing else changes |
| `Browser.CatalogBrowser.SelectFavsTab` | main.js:81 | the tab becomes `'favs'`; nothing else changes |
| `Browser.CatalogBrowser.ClearTagFilter` | main.js:84-88 | the tag becomes null; the tab, the search text and all else are unchanged |
| `Browser.CatalogBrowser.ApplyTagFilter` | main.js:90-100 | whatever the prior state: the tag is set, the tab is `'all'`, the search text is empty, the dropdown is hidden and the detail view is closed |
| `Scenarios.FavouritesShowFoo` | main.js:155-156 | with entries "a" (tag x) and "b" (tag y), any favourites holding "a" but not "b", the favourites tab and no tag, only "a" is listed |
| `Scenarios.TagShowsBar` | main.js:157 | with the same two entries, the all tab and tag "y", only "b" is listed, whatever the favourites |
| `Browser.CatalogBrowser.OnSearchInput` | main.js:106-111 | text that trims to nothing hides the dropdown and runs no search; any other text shows the matcher's result for the trimmed text, even an empty one; the visible list is untouched |
| `Browser.CatalogBrowser.HideSearchDropdown` | main.js:151 | the dropdown becomes hidden |
| `Browser.CatalogBrowser.OpenCard` | main.js:202-226 | the entry becomes current, the carousel starts at index 0, the detail view opens |
| `Browser.CatalogBrowser.ImageTotal` | main.js:207-215 | `dataset.total` is at least 1, and equals the image count of the open entry when it has images |
| `Browser.CatalogBrowser.CloseCard` | main.js:248-250 | the detail view closes; the current entry and the index stay |
| `Browser.CatalogBrowser.NextImage` | main.js:238-246 | with fewer than two images the index is unchanged, otherwise it takes one step forward; it stays in range |
| `Browser.CatalogBrowser.PrevImage` | main.js:228-236 | with fewer than two images the index is unchanged, otherwise it takes one step back; it stays in range |

## Left out

- The fetch, `res.ok` and `res.json()` are network I/O. `LoadCards` takes the
  settled outcome: the parsed array, or `None` for any failure.
- `saveFavorites` and the `localStorage` write are not modelled. `JSON.parse`
  is not modelled either: `LoadFavorites` takes what the read yields, already
  classified.
- Rendering is not modelled: `innerHTML` markup, `classList` toggles, the tag
  banner text, the dropdown's item nodes, `setActiveTab`'s tab styling, the
  image `src`, and the event-listener wiring. `window.open` for card
  suggestions and `searchInput.blur()` on Escape are left out too.
- `toLowerCase` is modelled on ASCII letters only, because full Unicode case
  mapping is a library detail.
- Ids are strings. The source compares `dataset.id` (always a string) with
  JSON ids that may be numbers. That mismatch is not modelled.
- `Catalog.Normalize` does not model a truthy `imagem` that is neither a
  string nor an array, such as a number or an object. It also does not model
  a `tags` value that is truthy but not an array. Neither fits a list of
  strings.
- Every record is assumed to have a string `nome`, and every element of
  `tags` to be a string. Otherwise the source throws. `searchQuery` throws
  at `c.title.toLowerCase()` (main.js:115) or `t.toLowerCase()`
  (main.js:118), so `onSearchInput` stops before `showDropdown` and the
  dropdown keeps its old contents. `getVisibleCards` throws at
  `t.toLowerCase()` (main.js:157) while a tag is active, so `renderCards`
  fails. Inside `applyTagFilter` that happens at main.js:98, before
  `closeCardModal()` at main.js:99, so the detail view stays open.
  `OnSearchInput` and `ApplyTagFilter` describe only the case without the
  exception.
- `escapeHtml` is modelled on strings. The `String(str)` conversion of
  non-string arguments is left out.
- The carousel index is an integer field. The `parseInt` round trip through
  `dataset.index` is not modelled.
