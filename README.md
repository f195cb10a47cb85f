# Resource Explorer, modelled in Dafny

Resource Explorer is a Next.js front end to the Rick and Morty character API. The URL
query holds the filters: name search, status, species, gender, page, favorites only, and
sort. The home page reads those filters, asks the API for one page of characters, and
shows that page with a pagination bar. A user can mark characters as favorites; the ids
are kept in `localStorage`, and every mounted copy of the favorites hook is told when the
list changes. Search typing is debounced, and a dark-mode preference is resolved on mount
and persisted.

This project models that logic, one module per concern:

- `JsText` (`js_text.dfy`): the JavaScript built-ins the code relies on. These are
  `String#trim` over the ECMAScript white-space set, `Number#toString` of integers,
  `parseInt` on decimal integer text, and `Array#join(",")`.
- `Types` (`types.dfy`): the records the API returns and the filter parameters.
- `Api` (`api.dfy`): the request URL for a page of characters, with `URLSearchParams.set`
  modelled on an ordered list of pairs. It also models how a reply settles into data or
  an error.
- `Storage` and `Navigation`: `localStorage` as a string map, and `router.push` as
  replacing the current query and recording it in a history of pushes.
- `Favorites` (`favorites.dfy`): the list operations, the JSON text stored for the list,
  and the batch request for favorite characters. `FavoritesStore` is a class with the
  hook's state. `FavoritesEvents` is the shared event target; it makes every subscribed
  store reload after a save.
- `Debounce` (`debounce.dfy`): `useDebounce` as explicit Call, Fire and Teardown steps.
  A pure transition function specifies the `Debouncer` class.
- `SearchFilters` (`search_filters.dfy`): each control's edit of the query, and the
  `FilterPanel` class that pushes the edits.
- `HomePage` (`home_page.dfy`): how the page reads the query, the fetch parameters, page
  changes, the page-number window, the pagination bar, and what the page renders.
- `DarkMode` (`dark_mode.dfy`): how the preference is resolved and persisted, and the
  `DarkModeProvider` class.

Where the code and its documented intent differ, the model follows the code:

- `addFavorite` appends even when the id is already a favorite, so the list may hold
  duplicates. `removeFavorite` drops every copy.
- The `sort` parameter is toggled in the URL, but nothing reads it when fetching. In the
  model, `HomePage.FetchParams` ignores it.
- `FavoritesStore.Mount` follows the two effects as written, so a non-empty stored list
  is requested twice. `FavoritesStore.MountFetchingOnce` is the one-request version.

There is one exception. The main `FilterPanel` methods have the corrected search behaviour
from "Findings" below. When a search timer fires, it edits the query as it is at that
moment. A drop-down, the favorites checkbox and "Clear All Filters" each cancel a search
still waiting on its timer. The panel's `AsWritten` members and `StaleSearchTimerFires`
follow the code as written, and the scenarios named in "Findings" compare the two.

## Model

| member | source | states |
|---|---|---|
| JsText.TrimStart | src/components/SearchFilters.tsx:46-47 | the result is a suffix of the input; everything cut off is white space; the result does not start with white space |
| JsText.TrimEnd | src/components/SearchFilters.tsx:46-47 | the result is a prefix of the input; everything cut off is white space; the result does not end with white space |
| JsText.Trim | src/components/SearchFilters.tsx:46-47 | the trimmed text is empty exactly when the input is all white space; otherwise it starts and ends with a non-space character |
| JsText.TrimIsSlice | src/components/SearchFilters.tsx:46-47 | the trimmed text is a contiguous slice of the input, with only white space before and after it |
| JsText.NatToString | src/utils/api.ts:9 | a natural number's text is a non-empty run of decimal digits |
| JsText.NatToStringRoundTrip | src/utils/api.ts:9 | reading the digits of a number's text gives the number back |
| JsText.IntToStringRoundTrip | src/app/page.tsx:23 | `parseInt` of `n.toString()` is `n` for every integer, negatives included |
| JsText.NatToStringNoLeadingZero | src/utils/api.ts:9 | a natural number's text has no redundant leading zero |
| JsText.IntToString | src/app/page.tsx:35 | an integer's text is non-empty, starts with `-` exactly for negatives, is JSON integer text (no leading zero) and holds no comma |
| JsText.JoinInts | src/hooks/useFavorites.ts:27 | joining ids with commas is empty exactly for no ids, and holds one comma fewer than there are ids |
| JsText.IndexOf | src/hooks/useFavorites.ts:80 | the position found holds the character, and no earlier position does |
| JsText.IndexOfAfter | src/hooks/useFavorites.ts:80 | the first separator after a separator-free prefix is found right after that prefix |
| Api.Get | src/utils/api.ts:9-13 | `get` finds nothing exactly when no pair has that name |
| Api.DeleteName | src/utils/api.ts:13 | after `delete`, no pair has the name, and the list did not grow |
| Api.SetParam | src/utils/api.ts:13 | after `set(name, value)`, `get(name)` gives `value` |
| Api.GetIsFirst | src/utils/api.ts:9-13 | `get` gives the value of the first pair with the name |
| Api.DeleteNameKeepsOthers | src/utils/api.ts:13 | deleting a name leaves the lookup of every other name as it was |
| Api.DeleteNameMembers | src/utils/api.ts:13 | `delete` keeps exactly the pairs with another name |
| Api.DeleteNameConcat | src/utils/api.ts:13 | `delete` works piecewise on a concatenation, so the kept pairs stay in their order |
| Api.SetParamKeepsOthers | src/utils/api.ts:13 | setting a name leaves the lookup of every other name as it was |
| Api.SetExistingReplacesFirst | src/utils/api.ts:13 | setting a name already present puts the new pair where the first one was, keeps the pairs before it, and drops the later pairs with that name |
| Api.SetNewNameAppends | src/utils/api.ts:9-13 | setting a name not yet present appends one pair at the end |
| Api.NonEmpty | src/utils/api.ts:12 | a filter is sent exactly when it is present and not the empty string |
| Api.PresentFilters | src/utils/api.ts:11-15 | every pair sent carries the name of one of the filter entries |
| Api.PresentFiltersSnoc | src/utils/api.ts:11-15 | visiting one more entry appends its pair when its value is non-empty, and nothing otherwise |
| Api.BuildSearchParams | src/utils/api.ts:5-15 | the loop builds `page` first (default 1), then each non-empty filter; every name occurs once; each lookup gives the page text or the non-empty filter value |
| Api.GetPresentFilter | src/utils/api.ts:11-15 | with distinct entry names, a lookup of an entry's name gives that entry's value when non-empty, and nothing otherwise |
| Api.PresentFiltersDistinct | src/utils/api.ts:11-15 | distinct entry names yield a query with distinct names |
| Api.FilterEntryNames | src/utils/api.ts:6-11 | the filter names are distinct and none of them is `page` |
| Api.ExpectedQueryDistinct | src/utils/api.ts:9-15 | the built query holds each name once |
| Api.ExpectedQueryFacts | src/utils/api.ts:6-15 | the expected query answers `page` with the page text and each filter with its non-empty value, and its names are distinct |
| Api.Serialize | src/utils/api.ts:17 | no pairs give the empty string; otherwise the text starts with the first pair's `name=value` |
| Api.ParsePair | src/components/SearchFilters.tsx:22 | a piece without `=` is a name with an empty value |
| Api.ParseQuery | src/components/SearchFilters.tsx:22 | the empty string parses as no pairs |
| Api.ParsePairOfPlain | src/components/SearchFilters.tsx:22 | `name=value` of plain text parses as that pair |
| Api.ParseQueryStep | src/components/SearchFilters.tsx:22 | a piece, `&` and more text parse as that piece's pair followed by the rest's pairs |
| Api.ParseSerialize | src/components/SearchFilters.tsx:22 | parsing the serialised text of pairs free of `&` and `=` gives back the same pairs in the same order, as `new URLSearchParams(searchParams.toString())` relies on |
| Api.CharactersUrl | src/utils/api.ts:17 | the list URL is the endpoint, `?`, then the serialised query, and it opens with `?page=` and the page's text (default 1) |
| Api.CharactersUrlReadsBack | src/utils/api.ts:5-17 | the query of the list URL parses back to the built pairs: the page, then every non-empty filter with its value |
| Api.CharacterUrl | src/utils/api.ts:28 | the URL of one character is the endpoint, a slash, and the id, with nothing in between |
| Api.Settle | src/utils/api.ts:20-24 | an ok reply yields its body; a non-ok reply fails with the given message; a failed request fails without one |
| Api.FetchCharacters | src/utils/api.ts:5-25 | one request to the built URL; the outcome is its body or "Failed to fetch characters" |
| Api.FetchCharacter | src/utils/api.ts:27-35 | one request to endpoint `/` id; the outcome is its body or "Failed to fetch character" |
| Storage.LocalStorage.GetItem | src/hooks/useFavorites.ts:21 | a read yields the stored string, or nothing when the key is absent |
| Storage.LocalStorage.SetItem | src/hooks/useFavorites.ts:94 | a write changes exactly that key |
| Navigation.Router.Push | src/components/SearchFilters.tsx:39 | after a push, the current query is the pushed one, and the push history gains it at the end |
| Favorites.Added | src/hooks/useFavorites.ts:99-102 | adding appends the id after the unchanged old list, even if it is already there |
| Favorites.Removed | src/hooks/useFavorites.ts:104-107 | the result holds no copy of the id; every other element of the list is kept; the list does not grow |
| Favorites.RemovedConcat | src/hooks/useFavorites.ts:105 | removal works piecewise on a concatenation, so the order of the rest is kept |
| Favorites.RemovedCounts | src/hooks/useFavorites.ts:105 | removal drops every copy of the id and no copy of any other id |
| Favorites.RemovedAbsent | src/hooks/useFavorites.ts:105 | removing an absent id leaves the list exactly as it was |
| Favorites.Toggled | src/hooks/useFavorites.ts:109-115 | after a toggle, the id is a favorite exactly when it was not one before |
| Favorites.ToggleTwice | src/hooks/useFavorites.ts:109-115 | two toggles restore membership; an absent id gives back the same list; a present id ends up once, at the end |
| Favorites.Stringify | src/hooks/useFavorites.ts:94 | the stored text is bracketed and holds one comma fewer than there are ids |
| Favorites.ParseItems | src/hooks/useFavorites.ts:80 | a parsed item list has one more element than the text has commas |
| Favorites.ParseIdList | src/hooks/useFavorites.ts:22 | a parsed text is bracketed; `[]` is the empty list, and otherwise there is one id more than the text has commas |
| Favorites.ParseItemsStep | src/hooks/useFavorites.ts:80 | an integer's text, a comma and more text parse as that integer followed by what the rest parses as |
| Favorites.ParseItemsJoin | src/hooks/useFavorites.ts:80 | parsing comma-joined ids gives back the ids |
| Favorites.ParseStringify | src/hooks/useFavorites.ts:94 | `JSON.parse` of the text `JSON.stringify` stores gives back the same id list |
| Favorites.RejectsMalformed | src/hooks/useFavorites.ts:22 | text `JSON.parse` rejects (`[01]`, `[1,]`, `1,2`) does not read as a list |
| Favorites.InitialAfterSave | src/hooks/useFavorites.ts:21-23 | a saved list is the list the next mount starts from |
| Favorites.ReloadAfterSave | src/hooks/useFavorites.ts:77-83 | a listener reloading after a save gets exactly the saved list |
| Favorites.Normalize | src/hooks/useFavorites.ts:31 | an array body is taken as is; a single object becomes a one-element list |
| Favorites.BatchUrl | src/hooks/useFavorites.ts:27 | the batch URL is the character endpoint followed by the ids joined with commas |
| Favorites.AfterReply | src/hooks/useFavorites.ts:29-32 | an ok reply replaces the favorite characters with its normalised body; otherwise they are kept |
| Favorites.FavoritesEvents.constructor | src/hooks/useFavorites.ts:6 | the event target starts with no listeners |
| Favorites.FavoritesEvents.Dispatch | src/hooks/useFavorites.ts:96 | with the saved text in storage, every subscribed store ends up holding the saved list |
| Favorites.FavoritesStore.constructor | src/hooks/useFavorites.ts:9-12 | the store starts with no favorites, no characters, not loading and not initialised |
| Favorites.FavoritesStore.IsFavorite | src/hooks/useFavorites.ts:117 | an id is a favorite exactly when it is in the list |
| Favorites.FavoritesStore.Subscribe | src/hooks/useFavorites.ts:85 | subscribing adds the store once, and a second subscription adds nothing |
| Favorites.FavoritesStore.Unsubscribe | src/hooks/useFavorites.ts:88 | unsubscribing removes the store from the listeners |
| Favorites.FavoritesStore.ReloadFromStorage | src/hooks/useFavorites.ts:77-83 | the list becomes the stored list when a non-empty, parseable string is stored; otherwise it is kept |
| Favorites.FavoritesStore.Save | src/hooks/useFavorites.ts:92-97 | the list is set, its JSON is written under the favorites key and nothing else in storage changes, and every subscribed store then holds the new list |
| Favorites.FavoritesStore.Add | src/hooks/useFavorites.ts:99-102 | the appended list is saved, persisted and broadcast |
| Favorites.FavoritesStore.Remove | src/hooks/useFavorites.ts:104-107 | the filtered list is saved, persisted and broadcast |
| Favorites.FavoritesStore.Toggle | src/hooks/useFavorites.ts:109-115 | the toggled list is saved; the id's favorite status flips; storage and every subscribed store agree |
| Favorites.FavoritesStore.Initialize | src/hooks/useFavorites.ts:15-45 | runs once; loads the stored list (an empty one when nothing is stored); requests the batch URL only for a non-empty list; always ends not loading and initialised |
| Favorites.FavoritesStore.RefreshFavoriteCharacters | src/hooks/useFavorites.ts:48-73 | an empty list clears the characters without a request; before initialisation nothing happens; otherwise one batch request updates the characters |
| Favorites.FavoritesStore.Mount | src/hooks/useFavorites.ts:15-73 | as written: loads the stored list (empty when nothing is stored), ends initialised and not loading; a non-empty list is requested twice and the characters are the reply's |
| Favorites.FavoritesStore.LoadStoredList | src/hooks/useFavorites.ts:21-23 | on a first run, reads the stored list into the store and marks it initialised; later runs change nothing |
| Favorites.FavoritesStore.MountFetchingOnce | src/hooks/useFavorites.ts:15-73 | the same end state as `Mount`, with a non-empty list requested once |
| Favorites.MountStoredPair | src/hooks/useFavorites.ts:15-73 | as written, a store mounted over `[1,2]` requests `.../character/1,2` twice and ends holding both characters, not loading |
| Favorites.MountStoredPairFetchingOnce | src/hooks/useFavorites.ts:15-73 | with one request, the same store requests `.../character/1,2` once and ends in the same state |
| Favorites.StoredPairReadsBack | src/hooks/useFavorites.ts:21-27 | the text `[1,2]` reads as the list `[1, 2]`, whose batch URL ends in `1,2` |
| Debounce.AtMostOnePending | src/hooks/useDebounce.ts:9-16 | when only the current handle can be scheduled, at most one timer is pending, and it carries the pending arguments |
| Debounce.Next | src/hooks/useDebounce.ts:9-24 | a call schedules its arguments under a fresh handle and invokes nothing; a firing timer invokes the callback once if still scheduled; teardown invokes nothing; no step schedules anything but the fresh handle |
| Debounce.Run | src/hooks/useDebounce.ts:9-24 | over a sequence of steps, the invocations only grow, by at most one per step, and keep their past |
| Debounce.NextKeepsOnlyCurrent | src/hooks/useDebounce.ts:9-24 | every step keeps the only scheduled timer the one the ref names |
| Debounce.RunKeepsOnlyCurrent | src/hooks/useDebounce.ts:9-24 | after any sequence of steps, at most one timer is scheduled |
| Debounce.CallReplacesPending | src/hooks/useDebounce.ts:10-15 | a call cancels the pending timer, schedules exactly one timer with its own arguments, and invokes nothing |
| Debounce.FireWithoutPendingIsInert | src/hooks/useDebounce.ts:13-15 | with nothing pending, no timer can change anything |
| Debounce.BurstLeavesLast | src/hooks/useDebounce.ts:9-16 | after a burst of calls, only the last call's arguments are pending, and nothing has been invoked |
| Debounce.BurstThenFire | src/hooks/useDebounce.ts:13-15 | when the timer of a burst fires, the callback runs once, with the last arguments, and nothing stays pending |
| Debounce.NothingFiresAfterTeardown | src/hooks/useDebounce.ts:18-24 | after unmount, with no further call, the callback is never invoked |
| Debounce.TornDownStaysQuiet | src/hooks/useDebounce.ts:18-24 | with no timer scheduled and no call, no step changes the state |
| Debounce.Debouncer.constructor | src/hooks/useDebounce.ts:7 | a new hook has no handle and no timers |
| Debounce.Debouncer.DebouncedFn | src/hooks/useDebounce.ts:9-16 | a call takes the Call step: its arguments become the only pending ones, and nothing is invoked |
| Debounce.Debouncer.OnTimeout | src/hooks/useDebounce.ts:13-15 | a timer takes the Fire step: it delivers its arguments only if it is still scheduled |
| Debounce.Debouncer.ClearPending | src/hooks/useDebounce.ts:18-24 | `clearTimeout` of the current handle takes the Teardown step and leaves nothing scheduled |
| SearchFilters.UpdatedQuery | src/components/SearchFilters.tsx:21-40 | a non-empty value is set and an empty one deletes the key; `name` goes when the search is cleared; `page` always goes; every other parameter is kept |
| SearchFilters.SearchQuery | src/components/SearchFilters.tsx:42-54 | `name` becomes the trimmed text, or goes when the text is blank; `page` goes; everything else is kept |
| SearchFilters.CurrentSort | src/components/SearchFilters.tsx:58 | the sort is the non-empty `sort` parameter, otherwise `asc` |
| SearchFilters.SortToggled | src/components/SearchFilters.tsx:59-62 | toggling turns `asc` into `desc` and anything else into `asc`; it drops the page and keeps the search and every other parameter |
| SearchFilters.SortToggleTwice | src/components/SearchFilters.tsx:58-62 | toggling twice restores `asc` or `desc`, whichever was current |
| SearchFilters.FavoritesToggled | src/components/SearchFilters.tsx:177-178 | the checkbox sets `favorites=true` exactly when checked, and drops the search and the page |
| SearchFilters.FilterPanel.constructor | src/components/SearchFilters.tsx:14 | the search box starts with the `name` parameter, or empty |
| SearchFilters.FilterPanel.UpdateQuery | src/components/SearchFilters.tsx:21-40 | pushes the updated query once; clearing the search also empties the box and cancels a pending search; otherwise the timers are untouched |
| SearchFilters.FilterPanel.UpdateQueryAsWritten | src/components/SearchFilters.tsx:21-40 | as written: pushes the updated query once and empties the box when the search is cleared, and touches no timer |
| SearchFilters.FilterPanel.HandleSearchChange | src/components/SearchFilters.tsx:42-54 | shows the typed text and pushes the search query once |
| SearchFilters.FilterPanel.ToggleSort | src/components/SearchFilters.tsx:59-62 | pushes the toggled sort once, keeps the search box and leaves a pending search pending |
| SearchFilters.FilterPanel.SelectOption | src/components/SearchFilters.tsx:93-133 | a drop-down choice pushes its filter set or cleared, clears the search and cancels a pending search |
| SearchFilters.FilterPanel.SetShowFavorites | src/components/SearchFilters.tsx:178 | the checkbox pushes its query, clears the search box and cancels a pending search |
| SearchFilters.FilterPanel.ClearAll | src/components/SearchFilters.tsx:149-155 | pushes the bare path, empties the search box and cancels a pending search |
| SearchFilters.FilterPanel.ClearAllAsWritten | src/components/SearchFilters.tsx:149-155 | as written: pushes the bare path and empties the box, and touches no timer |
| SearchFilters.FilterPanel.SearchInput | src/components/SearchFilters.tsx:56-78 | typing only schedules the debounced search, carrying the typed text, and records the query of the render it was typed in |
| SearchFilters.FilterPanel.SearchTimerFires | src/components/SearchFilters.tsx:56 | a timer still scheduled pushes the search for its text against the current query; a cancelled one pushes nothing |
| SearchFilters.FilterPanel.StaleSearchTimerFires | src/components/SearchFilters.tsx:42-56 | as written: a timer still scheduled pushes the search for its text against the query of the keystroke's render; a cancelled one pushes nothing |
| SearchFilters.TypeFiveKeystrokes | src/components/SearchFilters.tsx:78 | five quick keystrokes lead to exactly one push, the search for the last text |
| SearchFilters.SearchThenChooseStatus | src/components/SearchFilters.tsx:21-56 | a search typed, then status "Alive" chosen before its timer fires: the only push carries the status and no search |
| SearchFilters.SearchThenChooseStatusAsWritten | src/components/SearchFilters.tsx:21-56 | as written: the status choice is pushed, then the timer pushes the search against the keystroke's query, which holds no status unless the starting query did |
| SearchFilters.SearchForRickKeepsStatus | src/components/SearchFilters.tsx:42-54 | the search for "rick" sets `name` and keeps the status filter as it was |
| SearchFilters.SearchThenClearAllAsWritten | src/components/SearchFilters.tsx:149-155 | as written: the bare path is pushed, then the timer pushes the search against the keystroke's query, which brings back its status filter |
| SearchFilters.SearchThenClearAll | src/components/SearchFilters.tsx:149-155 | a search typed and then cleared before its timer fires: the bare path is the only push and stays current |
| HomePage.Param | src/app/page.tsx:18-21 | a missing or empty parameter reads as undefined |
| HomePage.PageText | src/app/page.tsx:23 | the page text is the `page` parameter when present and non-empty, otherwise "1", and is integer text |
| HomePage.ParseState | src/app/page.tsx:18-23 | each filter reads as its parameter (undefined when missing or empty); favorites mode is on exactly when `favorites` is "true"; the page is 1 without a `page` parameter, otherwise its parsed value |
| HomePage.FetchParams | src/app/page.tsx:25-31 | favorites mode requests page 1 with no filter; otherwise the filters and the page as read |
| HomePage.FavoritesModeIgnoresFilters | src/app/page.tsx:25-31 | in favorites mode, the request does not depend on the rest of the query |
| HomePage.StatusChangeIgnoredInFavoritesMode | src/app/page.tsx:26-30 | choosing a status in favorites mode keeps favorites mode, and the request is unchanged |
| HomePage.CheckboxSetsFavoritesMode | src/app/page.tsx:22 | after the checkbox, favorites mode equals its state, with no search and page 1 |
| HomePage.PageChanged | src/app/page.tsx:33-37 | `page` is set to the number's text and every other parameter is kept |
| HomePage.PageChangeReadsBack | src/app/page.tsx:33-37 | after a page change the page reads back as the new number, and every other filter as before |
| HomePage.HandlePageChange | src/app/page.tsx:33-37 | pushes the query with the new page, once |
| HomePage.NotBeyondConsecutive | src/app/page.tsx:89-91 | dropping the numbers past the last page from consecutive page numbers leaves a shorter consecutive run |
| HomePage.PageWindow | src/app/page.tsx:89-91 | exactly `max(0, min(5, pages, pages - start + 1))` consecutive numbers from `start = max(1, page-2)`, all within `1..pages`; they include the current page when it is in range |
| HomePage.PaginationFor | src/app/page.tsx:79-107 | the bar is shown exactly when there is page info with more than one page and favorites mode is off; Previous is disabled exactly on page 1; Next exactly when there is no next link |
| HomePage.ThreePages | src/app/page.tsx:79-107 | with three pages: on page 1 Previous is disabled and Next enabled; on page 3 without a next link Next is disabled; the buttons are 1, 2, 3 |
| HomePage.DisplayedCharacters | src/app/page.tsx:39 | favorites mode shows the favorite characters, otherwise the fetched page |
| HomePage.Render | src/app/page.tsx:41-110 | a skeleton before mount, while favorites load in favorites mode, or while the list loads without error; the error panel with its message on an error; otherwise the list: the favorite characters with no pagination and the empty notice exactly when there are none, or the fetched page with its pagination bar |
| DarkMode.Encode | src/components/DarkModeProvider.tsx:35 | the stored text is "true" exactly for dark mode, and otherwise "false" |
| DarkMode.Decode | src/components/DarkModeProvider.tsx:22 | only the text "true" reads as dark |
| DarkMode.DecodeEncode | src/components/DarkModeProvider.tsx:22-35 | reading back a stored flag gives the flag |
| DarkMode.ResolvePreference | src/components/DarkModeProvider.tsx:21-25 | any stored value decides (dark exactly for "true"); only when nothing is stored does the system setting decide |
| DarkMode.PersistedChoiceRestored | src/components/DarkModeProvider.tsx:18-25 | a persisted choice is restored on the next mount, whatever the system prefers |
| DarkMode.DarkModeProvider.constructor | src/components/DarkModeProvider.tsx:13-14 | starts light and not mounted |
| DarkMode.DarkModeProvider.Context | src/components/DarkModeProvider.tsx:43-47 | the context carries a value only once mounted, and that value is the current mode |
| DarkMode.DarkModeProvider.UseDarkMode | src/components/DarkModeProvider.tsx:50-56 | the hook yields the mode inside a mounted provider, and otherwise the error it throws |
| DarkMode.DarkModeProvider.MountEffect | src/components/DarkModeProvider.tsx:16-26 | mounting sets mounted and resolves the mode from storage and the system setting |
| DarkMode.DarkModeProvider.SyncEffect | src/components/DarkModeProvider.tsx:28-37 | once mounted, the `dark` class follows the mode and the mode is persisted; before mount nothing changes |
| DarkMode.DarkModeProvider.Mount | src/components/DarkModeProvider.tsx:16-37 | after mounting, the class and storage agree with the resolved mode, and no other storage key changes |
| DarkMode.DarkModeProvider.ToggleDarkMode | src/components/DarkModeProvider.tsx:39-41 | the mode flips; once mounted, the class and the stored flag follow it and no other storage key changes |
| DarkMode.ToggleThenRemount | src/components/DarkModeProvider.tsx:16-41 | a mode toggled in one session is the mode of the next session on the same storage |

## Left out

- Network I/O: each request is a parameter of type `string -> Reply`, a function from URL to reply. Response bodies are taken as already-decoded records, so JSON decoding of API replies is not modelled.
- `useCharacters` and the react-query cache behind it (query keys, stale time, placeholder data, `isFetching`) are not modelled. The home page takes the query's `data`, `isLoading` and `error` as inputs (`HomePage.ListStatus`).
- Rendering: JSX markup, CSS classes, the "Loading..." indicator while refetching, and the character cards are not modelled. `HomePage.Render` keeps only which branch is shown and what it lists.
- The `@/types` file is not part of this model. The record fields come from how the code uses them.
- Real time: the 500 ms delay is abstract. A timer runs when a `Fire` step names it, so the order of calls and firings is what matters.
- Concurrency between async requests is not modelled: each effect runs to completion. A slow batch reply overwriting a newer one is not observable. Neither is the brief `isLoadingFavorites = true` while the second mount request is in flight.
- `window.matchMedia` is an input (`systemPrefersDark`). The document's class list is one boolean, `darkClass`.
- HomePage.ParseState: requires the `page` parameter to be absent, empty, or decimal integer text. `parseInt` of other text (prefixes like "2abc", NaN) is not modelled.
- Api.Serialize: the query string is not percent-encoded, and `ParseQuery` does not decode. So `Api.ParseSerialize` and `Api.CharactersUrlReadsBack` hold for names and values free of `&` and `=`.
- The page's query is a map from names to values. The order of `URLSearchParams` entries and repeated names in the address bar are not modelled.
- Favorites.ParseIdList: parses JSON integer arrays without white space, fractions or exponents, which is all the store writes. Leading zeros and trailing commas are rejected, as `JSON.parse` rejects them. Other valid JSON reads here as a parse failure, and the store keeps its list. That covers arrays with spaces, numbers with fractions or exponents, and non-arrays such as `5`, `null`, `{}` or `["a"]`. The source instead sets `favorites` to whatever `JSON.parse` returns (useFavorites.ts:22-23 and 80-81).
- JsText.IntToString: integers are unbounded. Numbers beyond 2^53 and `toString`'s exponent notation are not modelled.
- The character-detail page, `FavoritesToggle`, `DarkModeToggle`, the list and card components, and the app providers are presentation around the modelled logic and are not modelled.

## Findings

| source | as written | input that shows it | evidently intended | confidence | as-written member | corrected member |
|---|---|---|---|---|---|---|
| src/components/SearchFilters.tsx:42-56 | the debounced callback is the `handleSearchChange` of the render in which the key was pressed, so after 500 ms it edits the query as it was at that keystroke; a filter change does not cancel it | on `/`, type "rick", then choose status "Alive" within 500 ms: the later push has `name=rick` but no `status` | a filter change cancels the pending search, and a search that fires edits the current query | medium, not executed | SearchFilters.SearchThenChooseStatusAsWritten | SearchFilters.SearchThenChooseStatus |
| src/hooks/useFavorites.ts:42-73 | the mount effect fetches the stored list, then sets `isInitialized`, which re-runs the update effect, and that effect fetches the same list again | with `[1,2]` stored, mounting requests `.../character/1,2` twice | one batch request at mount | medium, not executed | Favorites.FavoritesStore.Mount | Favorites.FavoritesStore.MountFetchingOnce |
| src/components/SearchFilters.tsx:149-155 | "Clear All Filters" pushes the bare path but leaves a pending debounced search scheduled, and that search edits the query of its keystroke | on `/?status=Alive`, type "rick", then press "Clear All Filters" within 500 ms: the later push is `status=Alive&name=rick`, undoing the clear | clearing cancels the pending search, so the address bar stays `/` | medium, not executed | SearchFilters.SearchThenClearAllAsWritten | SearchFilters.SearchThenClearAll |
