# Libreta Cultureta — a verified model of the leisure tracker's core

The application keeps one list of leisure items across five categories:
concerts, books, movies, series and games. A series carries seasons, and each
season carries episodes. The items live in the browser's local storage.

This project models four parts of that core in Dafny:

- **The item model** (`Models`, `models.dfy`): a closed sum type with one
  variant per category. Each variant has the common base fields and only its
  own category's fields. The category tag is derived from the variant.
- **The storage service** (`Storage`, `storage.dfy`): the class
  `StorageService`. It holds the authoritative list (newest first), the
  persistence flag and the last list written to the durable slot. Its
  operations are:
  - `addItem`, `updateItem`, `deleteItem`, the per-category view;
  - the two episode edits (`toggleEpisode`, `updateEpisodeComment`), each done
    by copying the series and then updating it by id;
  - `loadFromStorage` and `saveToStorage`, with the durable slot's read and
    write outcomes passed in as values.
- **The list page** (`ListView`, `list.dfy`):
  - series aggregates (watched and total episode counts, "season watched",
    "series watched");
  - the details text; the status value (a ratio, or NaN for a series without
    episodes);
  - the search-then-sort pipeline behind `filteredItems`;
  - sort-header clicks and series expansion;
  - the class `ListComponent`, whose actions write back through the store.
    These include the season and series bulk toggles, which call the store
    once per episode whose flag differs from the target.

  The sort is modelled in `Sorting` (`sorting.dfy`). It is a stable insertion
  sort, generic over a key and a strict "comes before" relation, and it is
  proved to be a permutation, ordered and stable.
- **The add/edit form** (`Form`, `form.dfy`): the class `FormComponent` with
  its seasons editor. That covers `addSeason`, `removeSeason`,
  `updateEpisodesForSeason` and the in-place `generateEpisodes` loops. It also
  covers `onSubmit`, which builds an item carrying only the selected
  category's fields and stores it by update (edit mode) or add.

`Text` (`text.dfy`) holds the string behaviour the core borrows from
JavaScript: ASCII lower-casing, `includes`, the order of `<` on strings
(character by character), integer-to-string conversion, and `parseInt(s, 10)`.
A Dafny character is a Unicode scalar value, not a UTF-16 code unit; see
"## Left out".

`Scenarios` (`scenarios.dfy`) proves concrete runs of the model. They cover:
add order, the memory-only fallback, one episode toggle and its undo, the
season bulk toggle, a category-scoped search, and a stable sort by status.

The model follows the code as written:

- `updateItem` replaces every item with the updated id, not only the first.
- `deleteItem` removes every item with the id.
- The episode helpers index the seasons and episodes directly, so indices out
  of range throw rather than do nothing. The store's episode edits state this
  as a precondition (`Addressable`). The list page and the form model the
  throw instead: the action returns `threw` and changes nothing.

## Model

| member | source | states |
|---|---|---|
| Models.CategoryIsVariant | src/models.ts:1-59 | an item's category tag names exactly its own variant: the tag is `c` iff the item is the variant of `c` |
| Models.PlatformListsEndWithOther | src/models.ts:3-4 | the series list has 8 entries and the games list 7; both are free of repeats and end with 'Otra' |
| Text.Includes | src/pages/list/list.component.ts:38 | `s.includes(t)`: the term is a prefix of the text or is included in its tail (see `IncludesIffOccurs`) |
| Text.Lower | src/pages/list/list.component.ts:34-37 | `toLowerCase` on ASCII letters, defined character by character; its properties are stated by `LowerIdempotent` and `ListView.MatchesIgnoresCase` |
| Text.LowerIdempotent | src/pages/list/list.component.ts:34-37 | lower-casing an already lower-cased string changes nothing |
| Text.OccursShift | src/pages/list/list.component.ts:38 | an occurrence at a positive offset is an occurrence in the tail at the offset one less |
| Text.IncludesIffOccurs | src/pages/list/list.component.ts:38 | `includes` holds iff the term occurs at some offset of the text |
| Text.MissingFirstChar | src/pages/list/list.component.ts:38 | a text that lacks the term's first character does not include the term |
| Text.StrLess | src/pages/list/list.component.ts:60-61 | `a < b` on strings: the first differing character decides, and a proper prefix comes first |
| Text.StrLessIrreflexive | src/pages/list/list.component.ts:60-61 | `<` on strings is irreflexive |
| Text.StrLessTransitive | src/pages/list/list.component.ts:60-61 | `<` on strings is transitive |
| Text.StrLessTotal | src/pages/list/list.component.ts:60-61 | two distinct strings are ordered one way or the other |
| Text.NatToString | src/pages/list/list.component.ts:193-198 | a natural number is written as a non-empty string of decimal digits |
| Text.IntToString | src/pages/list/list.component.ts:193-198 | an integer's text is never empty |
| Text.TrimStart | src/pages/form/form.component.ts:146 | the result is a suffix of the input, every character dropped is white space (the `parseInt` set, including U+1680, U+2000 to U+200A, U+202F, U+205F and U+3000), and the result does not start with white space |
| Text.ParseInt | src/pages/form/form.component.ts:146 | `parseInt(s, 10)`: skip leading white space, take an optional sign and the longest run of digits; no digit gives NaN (`None`) |
| Text.DigitPrefix | src/pages/form/form.component.ts:146 | the digit prefix `parseInt` reads is all digits and is followed by a non-digit or the end |
| Text.DigitsOfNat | src/pages/form/form.component.ts:146 | reading back the digits of `n` gives `n` |
| Text.AllDigitsPrefix | src/pages/form/form.component.ts:146 | on a string of digits the digit prefix is the whole string |
| Text.ParseSigned | src/pages/form/form.component.ts:146 | the reading after the white space: an optional sign and the longest run of digits, or NaN (`None`) without a digit |
| Text.NothingToTrim | src/pages/form/form.component.ts:146 | text that starts with a digit or '-' is read as it is, with no white space skipped |
| Text.SignedReadsLeadingNumber | src/pages/form/form.component.ts:146 | the sign-and-digits reading of an integer's text followed by a non-digit gives the integer |
| Text.DigitPrefixStops | src/pages/form/form.component.ts:146 | the digits `parseInt` reads stop exactly where the written digits end when a non-digit follows |
| Text.ParseIntReadsLeadingNumber | src/pages/form/form.component.ts:146 | `parseInt` of an integer's text followed by text that does not start with a digit gives the integer |
| Text.IntToStringRoundTrip | src/pages/form/form.component.ts:146 | `parseInt` of an integer's text gives that integer back |
| Storage.FirstIndex | src/services/storage.service.ts:70-72 | the position `find` stops at: an item with the id, with none before it, or the end when the id is absent |
| Storage.FindById | src/services/storage.service.ts:70-72 | `find` by id: the item at the first index with the id, or nothing (see `FindByIdSpec`) |
| Storage.FindByIdSpec | src/services/storage.service.ts:70-72 | `find` by id answers iff some item has the id, and then with a stored item carrying that id |
| Storage.UpdateById | src/services/storage.service.ts:55-59 | the list keeps its length; every item with the updated id becomes the updated item and every other item is unchanged |
| Storage.DeleteById | src/services/storage.service.ts:61-63 | the survivors are exactly the items whose id differs |
| Storage.ByCategory | src/services/storage.service.ts:65-67 | the view holds exactly the stored items of that category |
| Storage.UpdateAbsent | src/services/storage.service.ts:55-59 | an update whose id is absent leaves the list unchanged |
| Storage.UpdateTwice | src/services/storage.service.ts:55-59 | a second update with the same id overrides the first |
| Storage.UpdateUnique | src/services/storage.service.ts:55-59 | with unique ids, an update replaces exactly the one item holding the id |
| Storage.UpdateKeepsIds | src/services/storage.service.ts:55-59 | an update keeps every id in place, so unique ids stay unique |
| Storage.FindAfterUpdate | src/services/storage.service.ts:55-59 | after updating a present id, `find` returns the new value |
| Storage.FirstIndexUnique | src/services/storage.service.ts:70-72 | the first index is where the id first occurs |
| Storage.DeleteAppend | src/services/storage.service.ts:61-63 | delete distributes over concatenation, keeping the survivors' order |
| Storage.DeleteAbsent | src/services/storage.service.ts:61-63 | deleting an absent id changes nothing |
| Storage.DeleteIdempotent | src/services/storage.service.ts:61-63 | deleting twice is deleting once |
| Storage.UniqueSplit | src/services/storage.service.ts:51-63 | in a list with unique ids, the tail is unique and shares no id with the head |
| Storage.DeleteKeepsUnique | src/services/storage.service.ts:61-63 | delete keeps ids unique |
| Storage.AddKeepsUnique | src/services/storage.service.ts:51-53 | adding an item with a fresh id to a list with unique ids keeps them unique |
| Storage.ByCategoryAppend | src/services/storage.service.ts:65-67 | the category view distributes over concatenation |
| Storage.ByCategoryAfterAdd | src/services/storage.service.ts:51-67 | an added item heads its own category's view and leaves every other view unchanged |
| Storage.ByCategoryDelete | src/services/storage.service.ts:61-67 | the category view and delete by id commute |
| Storage.FlipEpisode | src/services/storage.service.ts:76-77 | the copied seasons with episode [s][e]'s watched flag negated (see `FlipEpisodeTwice`) |
| Storage.CommentEpisode | src/services/storage.service.ts:88-89 | the copied seasons with episode [s][e]'s comment set (see `CommentEpisodeTwice`) |
| Storage.WithEpisode | src/services/storage.service.ts:73-77 | replacing episode [s][e] in a copy of the seasons changes that episode and nothing else |
| Storage.ToggleEpisodeIn | src/services/storage.service.ts:70-80 | the list after toggling episode [s][e]: the found series updated by id with that episode's flag flipped, otherwise the list as it was (see `ToggleEpisodeEffect`) |
| Storage.CommentEpisodeIn | src/services/storage.service.ts:82-92 | the list after setting episode [s][e]'s comment: the found series updated by id with the new comment, otherwise the list as it was (see `CommentEpisodeEffect`) |
| Storage.EpisodeEditsNeedSeries | src/services/storage.service.ts:70-92 | both episode edits leave the list unchanged when the id is missing or names a non-series |
| Storage.ToggleEpisodeEffect | src/services/storage.service.ts:70-80 | with unique ids, toggling flips exactly one episode's watched flag of the one series with the id |
| Storage.FlipEpisodeTwice | src/services/storage.service.ts:73-77 | flipping the same episode twice restores the seasons |
| Storage.ToggleEpisodeTwice | src/services/storage.service.ts:70-80 | toggling twice turns every item with the id back into the first one found |
| Storage.ToggleEpisodeTwiceRestores | src/services/storage.service.ts:70-80 | with unique ids, toggling the same episode twice restores the list |
| Storage.CommentEpisodeTwice | src/services/storage.service.ts:88-89 | a second comment on the same episode overrides the first: commenting c1 then c2 equals commenting c2 |
| Storage.ToggleAfterUpdate | src/services/storage.service.ts:55-80 | toggling after an update works on the updated value |
| Storage.CommentEpisodeIdempotent | src/services/storage.service.ts:82-92 | setting the same episode comment twice is setting it once |
| Storage.CommentEpisodeEffect | src/services/storage.service.ts:82-92 | with unique ids, only that episode's comment changes, to the given text |
| Storage.LoadedItems | src/services/storage.service.ts:24-35 | the loaded list is what the slot stores; an empty slot or a read that throws gives [] |
| Storage.AvailableAfterSave | src/services/storage.service.ts:37-49 | the persistence flag after one save attempt: off once a security error occurs, otherwise as it was |
| Storage.AvailableAfterSaves | src/services/storage.service.ts:37-49 | the persistence flag after a run of save attempts (see `AvailabilityIsMonotone`) |
| Storage.AvailabilityIsMonotone | src/services/storage.service.ts:37-49 | once persistence is off it stays off; while on, it goes off exactly at the first security error |
| Storage.StorageService.constructor | src/services/storage.service.ts:8-35 | starts from the loaded list; persistence is on unless the read threw; nothing written yet |
| Storage.StorageService.LoadFromStorage | src/services/storage.service.ts:24-35 | returns the loaded list and turns persistence off when the read throws |
| Storage.StorageService.SaveToStorage | src/services/storage.service.ts:37-49 | writes the list only while persistence is on and the write succeeds; a security error turns persistence off |
| Storage.StorageService.AddItem | src/services/storage.service.ts:51-53 | the new item goes first, followed by the old list |
| Storage.StorageService.UpdateItem | src/services/storage.service.ts:55-59 | the list becomes the replace-by-id of the old list |
| Storage.StorageService.DeleteItem | src/services/storage.service.ts:61-63 | the list becomes the delete-by-id of the old list |
| Storage.StorageService.ItemsByCategory | src/services/storage.service.ts:65-67 | holds exactly the stored items of the category |
| Storage.StorageService.ToggleEpisode | src/services/storage.service.ts:70-80 | the list becomes the episode toggle of the old list |
| Storage.StorageService.UpdateEpisodeComment | src/services/storage.service.ts:82-92 | the list becomes the episode comment edit of the old list |
| Sorting.KeyLessIrreflexive | src/pages/list/list.component.ts:60-61 | no key is below itself |
| Sorting.KeyLessTransitive | src/pages/list/list.component.ts:60-61 | the key order is transitive |
| Sorting.KeyLessTotal | src/pages/list/list.component.ts:60-61 | distinct keys are ordered one way or the other |
| Sorting.BeforeTransitive | src/pages/list/list.component.ts:60-62 | "the comparator answers -1" is transitive in either direction |
| Sorting.BeforeIrreflexive | src/pages/list/list.component.ts:60-62 | no key sorts before itself |
| Sorting.BeforeIsStrictOrder | src/pages/list/list.component.ts:60-62 | the comparator's "before" is a strict order for both directions |
| Sorting.KeyClassCons | src/pages/list/list.component.ts:42-62 | the key class of a list with a new head is the head's contribution followed by the tail's class |
| Sorting.Insert | src/pages/list/list.component.ts:42-62 | insertion adds exactly one element |
| Sorting.SortBy | src/pages/list/list.component.ts:42-62 | the sort keeps the length |
| Sorting.InsertPermutes | src/pages/list/list.component.ts:42-62 | insertion adds the element to the multiset and nothing else |
| Sorting.SortByPermutes | src/pages/list/list.component.ts:42-62 | the sort is a permutation of its input |
| Sorting.SortedTail | src/pages/list/list.component.ts:42-62 | the tail of a sorted list is sorted |
| Sorting.InsertBounded | src/pages/list/list.component.ts:42-62 | insertion brings in no element that sorts before a bound all the elements respect |
| Sorting.InsertSorted | src/pages/list/list.component.ts:42-62 | inserting into a sorted list keeps it sorted |
| Sorting.SortBySorted | src/pages/list/list.component.ts:42-62 | the sort's result is ordered by the comparator |
| Sorting.KeyClassAppend | src/pages/list/list.component.ts:42-62 | a key class distributes over concatenation |
| Sorting.KeyClassNone | src/pages/list/list.component.ts:42-62 | a list without the key has an empty class |
| Sorting.KeyClassAll | src/pages/list/list.component.ts:42-62 | a list where every element has the key is its own class |
| Sorting.InsertStable | src/pages/list/list.component.ts:42-62 | insertion puts the element after every element with an equal key |
| Sorting.SortByStable | src/pages/list/list.component.ts:42-62 | stability: elements with equal keys keep their relative order |
| Sorting.SortByConstantKey | src/pages/list/list.component.ts:57-58 | with one key for all elements (the `default: return 0` column) the sort leaves the list unchanged |
| ListView.SeasonWatched | src/pages/list/list.component.ts:143-145 | a season is watched when every one of its episodes is (vacuously for no episodes) |
| ListView.SeriesWatched | src/pages/list/list.component.ts:147-149 | a series is watched when every one of its seasons is (vacuously for no seasons) |
| ListView.CountWatched | src/pages/list/list.component.ts:187-189 | the watched count is at most the episode count, and equals it iff every episode is watched |
| ListView.WatchedEpisodes | src/pages/list/list.component.ts:187-189 | the watched total never exceeds the episode total |
| ListView.TotalEpisodes | src/pages/list/list.component.ts:183-185 | the sum of the seasons' episode counts (see `TotalPositiveIff`) |
| ListView.WatchedAllIffSeriesWatched | src/pages/list/list.component.ts:143-189 | the watched total equals the episode total iff every season is watched |
| ListView.NoneWatchedIff | src/pages/list/list.component.ts:187-189 | the watched total is 0 iff no episode of any season is watched |
| ListView.TotalPositiveIff | src/pages/list/list.component.ts:183-185 | the episode total is positive iff some season has an episode |
| ListView.YearTextMeaning | src/pages/list/list.component.ts:193-198 | a year shows as '' iff it is absent or 0; otherwise the text reads back to the year |
| ListView.Or | src/pages/list/list.component.ts:193-202 | `value || fallback` on an optional string: an absent or empty value gives the fallback |
| ListView.YearText | src/pages/list/list.component.ts:194-198 | `item.year || ''`: an absent or 0 year shows as '', any other as its digits (see `YearTextMeaning`) |
| ListView.Details | src/pages/list/list.component.ts:191-206 | the details text of an item, by category (see `DetailsByCategory` and `SearchFindsShownField`) |
| ListView.DetailsByCategory | src/pages/list/list.component.ts:191-206 | spells out `Details` per category (its independent partner is `SearchFindsShownField`): the book's author; the game's platform or 'PC'; the concert's venue or 'Lugar desconocido', a space, then the year; the movie's director, a space, the year, a space and the cast (each absent or empty part as ''); the series' platform or 'TV', season count and episode total |
| ListView.MatchesViaDetails | src/pages/list/list.component.ts:33-39 | a term found inside any piece of the details text is found by the search |
| ListView.SearchFindsShownField | src/pages/list/list.component.ts:33-39 | searching for any part of the venue of a concert, the author of a book, the director or the cast of a movie, or the platform of a series or a game (or the fallback shown in its place) finds the item, whatever the case |
| ListView.ShownFieldPosition | src/pages/list/list.component.ts:191-206 | each such shown field appears at some position of the details text |
| ListView.ConcertVenueLeads | src/pages/list/list.component.ts:193-194 | a concert's details start with its venue or 'Lugar desconocido' |
| ListView.SeriesPlatformLeads | src/pages/list/list.component.ts:199-200 | a series' details start with its platform or 'TV' |
| ListView.MovieFieldPosition | src/pages/list/list.component.ts:197-198 | a movie's director and its cast each appear in its details |
| ListView.MovieDirectorLeads | src/pages/list/list.component.ts:197-198 | a movie's details start with its director, or '' |
| ListView.MovieCastTrails | src/pages/list/list.component.ts:197-198 | a movie's details end with its cast, or '' |
| ListView.StatusFlag | src/pages/list/list.component.ts:212 | the completion flag of a non-series item: attended, read, seen or played |
| ListView.StatusValue | src/pages/list/list.component.ts:208-214 | the sort key of the status column: the watched ratio of a series, 1 or 0 for the other categories' flag (see `StatusValueMeaning`) |
| ListView.RatioBounds | src/pages/list/list.component.ts:208-214 | a watched ratio lies in [0, 1]; it is 1 iff all are watched and 0 iff none are |
| ListView.StatusValueMeaning | src/pages/list/list.component.ts:208-214 | the status is NaN iff the item is a series without episodes; otherwise it lies in [0, 1], is 1 iff done and 0 iff not started |
| ListView.FlipStatus | src/pages/list/list.component.ts:120-131 | a series is unchanged; any other item gets its own category's completion flag flipped and every other field kept |
| ListView.FlipStatusTwice | src/pages/list/list.component.ts:120-131 | flipping twice restores the item; for a non-series the status value becomes 1 minus the old one |
| ListView.Matches | src/pages/list/list.component.ts:33-39 | the search predicate: an empty term matches; otherwise the lower-cased term is in the lower-cased title or details (see `MatchesSpec`) |
| ListView.MatchesSpec | src/pages/list/list.component.ts:33-39 | an item matches iff the lower-cased term is empty or occurs in the lower-cased title or details |
| ListView.MatchesIgnoresCase | src/pages/list/list.component.ts:33-39 | the search ignores the case of the term |
| ListView.FilterBySearch | src/pages/list/list.component.ts:33-39 | the result holds exactly the matching items and is no longer than the input |
| ListView.FilterAppend | src/pages/list/list.component.ts:33-39 | the filter distributes over concatenation, keeping order |
| ListView.FilterEmptyTerm | src/pages/list/list.component.ts:35 | an empty term keeps every item, in order |
| ListView.ColumnKey | src/pages/list/list.component.ts:44-59 | the value the comparator reads for a column: the lower-cased title, the lower-cased details, the status value, or none for any other column (`default: return 0`) |
| ListView.Comparator | src/pages/list/list.component.ts:60-62 | "sorts strictly before" for a direction: `a < b` ascending, `a > b` descending (see `Sorting.BeforeIsStrictOrder`) |
| ListView.FilterAndSort | src/pages/list/list.component.ts:32-66 | `filteredItems`: search first, then a stable sort by the selected column and direction (see `FilterAndSortSpec`) |
| ListView.FilterAndSortSpec | src/pages/list/list.component.ts:32-66 | the listed items are a permutation of the filtered items; with a column they are ordered by it and stable; with an unknown column they are the filtered list itself |
| ListView.Click | src/pages/list/list.component.ts:216-223 | a click selects the column; the same column reverses the direction and a new column starts ascending |
| ListView.ClickTwice | src/pages/list/list.component.ts:216-223 | two clicks on the current column restore the state; two on a new one leave it descending |
| ListView.ToggleMember | src/pages/list/list.component.ts:90-97 | toggling adds an absent id and removes a present one, leaving the rest alone |
| ListView.ToggleMemberTwice | src/pages/list/list.component.ts:90-97 | toggling the same id twice restores the set |
| ListView.MarkEpisodes | src/pages/list/list.component.ts:156-160 | marking the first k episodes keeps the length of the list |
| ListView.MarkSeasons | src/pages/list/list.component.ts:169-175 | marking up to a position keeps the number of seasons |
| ListView.ToggleSeasonWatchedIn | src/pages/list/list.component.ts:151-162 | the list after a season toggle: the series updated by id with every episode of the season set to the opposite of "season watched" (see `MarkSeasonEffect`, `ToggleSeasonFlipsWatched`) |
| ListView.ToggleSeriesWatchedIn | src/pages/list/list.component.ts:164-176 | the list after a series toggle: the series updated by id with every episode set to the opposite of "series watched" (see `MarkSeriesEffect`, `ToggleSeriesFlipsWatched`) |
| ListView.MarkSeasonEffect | src/pages/list/list.component.ts:151-162 | marking a season sets each of its episodes' flags and changes nothing else in the series |
| ListView.ToggleSeasonFlipsWatched | src/pages/list/list.component.ts:151-162 | for a season with episodes, the season toggle flips "season watched" |
| ListView.MarkSeriesEffect | src/pages/list/list.component.ts:164-176 | marking a series sets every episode's flag and keeps the series' other fields and the season shape |
| ListView.ToggleSeriesFlipsWatched | src/pages/list/list.component.ts:164-176 | for a series with episodes, the series toggle flips "series watched" |
| ListView.ToggleSeasonWatchedUnique | src/pages/list/list.component.ts:151-162 | with unique ids, the season toggle replaces only the series itself |
| ListView.MarkEpisodesNone | src/pages/list/list.component.ts:156-160 | marking no episodes changes nothing |
| ListView.MarkEpisodesStep | src/pages/list/list.component.ts:156-160 | one more episode either flips that episode or, when it already has the flag, changes nothing |
| ListView.MarkSeasonStep | src/pages/list/list.component.ts:156-160 | marking one more episode of the season is one episode toggle of the partly marked series |
| ListView.MarkSeasonsStart | src/pages/list/list.component.ts:169-175 | marking from the first position marks nothing |
| ListView.MarkSeasonsNext | src/pages/list/list.component.ts:169-175 | the end of one season is the start of the next |
| ListView.MarkSeriesStep | src/pages/list/list.component.ts:169-175 | marking one more episode of the series is one episode toggle of the partly marked series |
| ListView.UntouchedMarksNothing | src/pages/list/list.component.ts:169-175 | marking episodes that already have the flag changes nothing |
| ListView.SeriesHasDiffering | src/pages/list/list.component.ts:166-172 | a series with episodes has one whose flag differs from the target, so the toggle makes at least one store call |
| ListView.SeasonHasDiffering | src/pages/list/list.component.ts:154-159 | a season with episodes has one whose flag differs from the target |
| ListView.SeasonUntouchedMarksNothing | src/pages/list/list.component.ts:156-160 | marking season episodes that already have the flag changes nothing |
| ListView.SeasonLoopToggle | src/pages/list/list.component.ts:157-159 | a store call for a differing episode is in range and advances the season loop's state |
| ListView.SeasonLoopSkip | src/pages/list/list.component.ts:157-159 | skipping an episode that already has the flag advances the loop without a call |
| ListView.SeasonLoopDone | src/pages/list/list.component.ts:151-162 | after the last episode the list is the season toggle of the starting list |
| ListView.SeriesLoopToggle | src/pages/list/list.component.ts:170-172 | a store call for a differing episode is in range and advances the series loop's state |
| ListView.SeriesLoopSkip | src/pages/list/list.component.ts:170-172 | skipping an episode that already has the flag advances the loop without a call |
| ListView.SeriesLoopNext | src/pages/list/list.component.ts:168-174 | the end of one season's loop is the start of the next season's |
| ListView.SeriesLoopDone | src/pages/list/list.component.ts:164-176 | after the last season the list is the series toggle of the starting list |
| ListView.ListComponent.constructor | src/pages/list/list.component.ts:20-88 | a new page shows the route's category, with no search, no sort and nothing expanded |
| ListView.ListComponent.Items | src/pages/list/list.component.ts:26-30 | the store's view of the page's category; empty without a category |
| ListView.ListComponent.FilteredItems | src/pages/list/list.component.ts:32-66 | what the page lists: the search-then-sort pipeline over `Items` (see `FilterAndSortSpec`) |
| ListView.ListComponent.ToggleSort | src/pages/list/list.component.ts:216-223 | the sort state becomes the click of the old state |
| ListView.ListComponent.ToggleSeries | src/pages/list/list.component.ts:90-97 | the expanded set becomes the toggle of the old set |
| ListView.ListComponent.ToggleItemStatus | src/pages/list/list.component.ts:120-131 | the store's list becomes the update by id with the flipped item |
| ListView.ListComponent.ToggleEpisode | src/pages/list/list.component.ts:133-135 | the store's list becomes the episode toggle of the old list |
| ListView.ListComponent.DeleteItem | src/pages/list/list.component.ts:137-141 | a confirmed delete removes the id; a refused one changes nothing |
| ListView.ListComponent.ToggleSeasonWatched | src/pages/list/list.component.ts:151-162 | throws (`threw`, nothing changed) iff the shown item is not a series or has no season at the index; otherwise a shown series gets the season toggle; a missing id changes nothing |
| ListView.ListComponent.ToggleEpisodesOfShownSeason | src/pages/list/list.component.ts:156-160 | the episode loop ends in the season loop's final state |
| ListView.ListComponent.ToggleSeriesWatched | src/pages/list/list.component.ts:164-176 | throws (`threw`, nothing changed) iff the shown item is not a series; otherwise a shown series gets the series toggle; a missing id changes nothing |
| ListView.ListComponent.ToggleEpisodesOfSeason | src/pages/list/list.component.ts:169-175 | one season's inner loop ends in the state for the end of that season |
| ListView.ListComponent.EditEpisodeComment | src/pages/list/list.component.ts:225-233 | throws (`threw`, nothing changed) iff the shown item is not a series or has no episode at the indices; otherwise an answered prompt, even an empty one, sets the comment; a cancelled prompt or a missing id changes nothing |
| ListView.ListComponent.DeleteEpisodeComment | src/pages/list/list.component.ts:235-239 | once confirmed the comment becomes ''; otherwise nothing changes |
| Form.CreateSeasonGroup | src/pages/form/form.component.ts:123-129 | a new season group: the given number, a count helper of 10, no rows (see `FormComponent.AddSeason`) |
| Form.NewRow | src/pages/form/form.component.ts:161-165 | a generated row: the given number, unwatched, comment '' |
| Form.GenerateEpisodes | src/pages/form/form.component.ts:153-172 | the group ends with exactly `count` rows; growing keeps the rows and appends unwatched rows numbered on with comment ''; shrinking keeps the first `count` |
| Form.SeasonOf | src/pages/form/form.component.ts:208-214 | a submitted season keeps only the group's number and its rows, as episodes |
| Form.GroupOf | src/pages/form/form.component.ts:104-119 | a loaded season becomes a group with its number, a count equal to its episode count, and one row per episode carrying the episode's own number and watched flag and its comment, or '' when it has none |
| Form.GroupRoundTrip | src/pages/form/form.component.ts:104-119 | loading a submitted group gives it back when its count matches its rows |
| Form.SeasonRoundTrip | src/pages/form/form.component.ts:104-119 | submitting a loaded season gives it back when every episode has a comment |
| Form.EffectiveId | src/pages/form/form.component.ts:186 | `itemId() || generateId()`: the edited item's id when present and non-empty, otherwise the fresh id |
| Form.BuildItem | src/pages/form/form.component.ts:185-218 | the item has the selected category, the id, the title, the comment and the submit time, plus that category's own fields from the form: a concert's venue, year and attended flag; a book's author and read flag; a movie's director, cast, year and seen flag; a game's platform and played flag; a series' platform and the submitted groups as its seasons |
| Form.SubmitTo | src/pages/form/form.component.ts:179-224 | the list after a submit: unchanged for an invalid form or unknown category; otherwise the built item stored by update in edit mode or added first (see `SubmitEffect`) |
| Form.SubmitEffect | src/pages/form/form.component.ts:179-224 | a valid edit replaces the stored item with the rebuilt one, with `createdAt` reset to now; a valid add puts the new item first under the fresh id |
| Form.InvalidSubmitStoresNothing | src/pages/form/form.component.ts:179-180 | a form without a title stores nothing |
| Form.AdjustIndex | src/pages/form/form.component.ts:140-150 | the position `FormArray` uses for an index: itself when non-negative, counted from the end when negative |
| Form.FormComponent.constructor | src/pages/form/form.component.ts:23-68 | an edit form iff the route carries an id; empty fields with the current year; concerts; no seasons |
| Form.FormComponent.AddSeason | src/pages/form/form.component.ts:123-138 | appends one season numbered length+1 with 10 unwatched rows numbered 1 to 10 |
| Form.FormComponent.RemoveSeason | src/pages/form/form.component.ts:140-142 | removes exactly the season at the index, keeping the others in order; a negative index counts from the end and is clamped at 0, and a position past the end removes nothing |
| Form.FormComponent.UpdateEpisodesForSeason | src/pages/form/form.component.ts:145-151 | a count that does not parse or is below 1 changes nothing; otherwise it throws (`threw`, nothing changed) iff no season sits at the index (negative counting from the end), and else only that season's rows change (its number and count helper stay), resized as `generateEpisodes` does |
| Form.FormComponent.OnSubmit | src/pages/form/form.component.ts:179-224 | the store's list becomes the submit of the form's values |
| Scenarios.AddOrdering | src/services/storage.service.ts:51-53 | after two adds the later item comes first |
| Scenarios.MemoryOnlyFallback | src/services/storage.service.ts:24-49 | a read that throws leaves an empty list in memory-only mode, and no save reaches the slot |
| Scenarios.FlipSecondOfThree | src/services/storage.service.ts:73-77 | flipping episode 2 of three marks just that one |
| Scenarios.EpisodeToggleScenario | src/services/storage.service.ts:70-80 | toggling an episode marks exactly it, and toggling again restores the list |
| Scenarios.MarkThree | src/pages/list/list.component.ts:156-160 | marking three episodes sets all three flags |
| Scenarios.SeasonToggleScenario | src/pages/list/list.component.ts:151-162 | a partly watched season becomes fully watched, and a fully watched one becomes unwatched |
| Scenarios.ByCategoryOfTwo | src/services/storage.service.ts:65-67 | the view of each category holds only its own item |
| Scenarios.DuneMatchesHerb | src/pages/list/list.component.ts:33-39 | 'herb' finds a book through its author |
| Scenarios.InceptionTitleMissesHerb | src/pages/list/list.component.ts:36-38 | 'herb' is not in the lower-cased title 'Inception' |
| Scenarios.InceptionDetailsMissHerb | src/pages/list/list.component.ts:37-38 | 'herb' is not in the details of a movie without director, year or cast |
| Scenarios.InceptionMissesHerb | src/pages/list/list.component.ts:33-39 | 'herb' does not match that movie |
| Scenarios.SearchScenario | src/pages/list/list.component.ts:26-39 | searching 'herb' finds the book in Books and nothing in Movies |
| Scenarios.StatusKeys | src/pages/list/list.component.ts:208-214 | seen movies have status 1 and unseen ones 0 |
| Scenarios.SortThree | src/pages/list/list.component.ts:41-63 | the status values [1, 0, 1] sort ascending to B, A, C |
| Scenarios.StableStatusSortScenario | src/pages/list/list.component.ts:32-66 | with no search term, the ascending status sort keeps A before C |

## Left out

- The Angular layer is not modelled: dependency injection, signals and their `computed`/`effect` reactivity, the router with its `paramMap`/`queryParams` subscriptions, templates, and navigation (`goBack` and the `navigate` calls). The route's category and id are constructor parameters.
- JSON encoding and browser `localStorage` are not modelled. A read is passed in as a `SlotRead` value (absent or empty, stored list, or threw) and a write as a `WriteResult`. The durable slot is a field that holds the last list written.
- Storage.StorageService: the auto-save `effect` is not modelled. `SaveToStorage` is an explicit call, and the model does not claim one save per change, because the framework schedules effects.
- `window.confirm` and `window.prompt` are not modelled. Their answers are parameters (`confirmed`, `answer`).
- `Date.now()` and the random `generateId` are not modelled. They are the `now` and `freshId` parameters of `OnSubmit`.
- Numbers are exact: counts are `nat`, years and times are `int`, and the status ratio is a `real` or NaN. Floating-point rounding is not modelled.
- ListView.FilterAndSort: sorting by status when a NaN status (a series without episodes) takes part is excluded by `StatusSortable`. NaN makes the comparator inconsistent, so the order the engine produces is implementation-defined.
- Text.Lower: only ASCII letters are lower-cased. Locale-aware case mapping is not modelled.
- Text.StrLess: characters compare by Unicode code point, while JavaScript's `<` compares UTF-16 code units. The two orders differ for characters above U+FFFF: U+1F600 is below U+FF5E in JavaScript (its lead surrogate is 0xD83D) but above it here, so the title and details sorts can order such strings the other way round. Below U+10000 the orders agree.
- Text: all string operations see Unicode scalar values, not UTF-16 code units, so lengths and positions differ from JavaScript's for characters above U+FFFF.
- ListView.ListComponent.ToggleSeasonWatched: requires `ShownIsStored`: the item the page finds for the id must be the first item with that id in the store. This holds whenever ids are unique. It can fail when two items of different categories share an id; the store's edits then hit the other item, and that case is not modelled.
- ListView.ListComponent.ToggleSeriesWatched: the same `ShownIsStored` requirement applies.
- ListView.ListComponent.EditEpisodeComment: the same `ShownIsStored` requirement applies.
- ListView.ListComponent.ToggleEpisode: requires `Addressable`, as the store's `ToggleEpisode` does.
- ListView.ListComponent.DeleteEpisodeComment: requires `Addressable` when confirmed, as the store's `UpdateEpisodeComment` does.
- The list page's season and episode indices are `nat`. A negative index reads `undefined` and throws; that throw is not modelled. The page's template only passes indices from its own loops.
- A thrown exception is modelled as a `threw` result with the state unchanged. Each modelled throw happens before any store call or form change.
- Storage.StorageService.ToggleEpisode: requires `Addressable`. The source throws on an out-of-range season or episode index, and that throw is not modelled.
- Storage.StorageService.UpdateEpisodeComment: requires `Addressable`, for the same reason.
- The form's `changeCategory`, `toggleYearUnknown` and `loadItem` form patching are not modelled. Only `loadItem`'s season rebuild is modelled, as `GroupOf`.
- The category-title lookup, the view mode and the per-season expansion in the list page are not modelled. They only affect presentation.
- `Season.isExpanded` (src/models.ts:44) is not modelled. It is a display flag that no modelled operation reads or writes.
- The form's index handling follows Angular's `FormArray`: `at` and `removeAt` count a negative index from the end.
- `app.component.ts` and `app.routes.ts` are not part of this model.
- Form.FormComponent.UpdateEpisodesForSeason: the season's `episodeCount` control is not updated. The template binding sets it, not this method.
- The form's `Validators.required` is modelled as "the title is empty". Other control validity is not modelled.
- The series bulk toggles: the inner `forEach` loops are separate helper methods, each with its loop invariant.
