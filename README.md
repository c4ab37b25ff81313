# HR Dashboard — a verified model of its state and list logic

The HR Dashboard is a Next.js app. It lists employees fetched from a user
API, enriches each one with a deterministic department, rating, salary,
projects, feedback and performance history, and offers the following:

- a search box and department/rating filters on the dashboard;
- bookmarks kept in a global store;
- a bookmarks page with selection and bulk actions;
- a navigation bar whose links highlight for the current path;
- an analytics page with per-department and per-rating aggregates.

This project models in Dafny the parts of the app that are state and list
logic rather than rendering, and proves what they promise.

| module | file | models |
|---|---|---|
| `Seqs` | seqs.dfy | `Array.prototype.filter`, "remove every occurrence", toggling membership, `[...new Set(xs)]`, counting |
| `Text` | text.dfy | ASCII `toLowerCase`, `includes`, `startsWith`, number-to-string, `split`/`join`, the default string `sort()` |
| `Wrappers` | wrappers.dfy | `null`-able values and results that may throw |
| `Employees` | employees.dfy | the enriched employee record and its projections |
| `Api` | api.dfy | `generateMockData` and the `generateAnalyticsData` loop (`src/lib/api.js`) |
| `Store` | store.dfy | the global store class with its setters, bookmark actions and filtered-users query (`src/store/useStore.js`) |
| `BookmarkHooks` | bookmark_hooks.dfy | bookmarked employees, toggle, clear-all, count (`src/hooks/useBookmarks.js`) |
| `Search` | search.dfy | JavaScript values, `getNestedValue`, the term and filter stages, the hook's state (`src/hooks/useSearch.js`) |
| `FilterDropdown` | filter_dropdown.dfy | the offered options, the two toggles, clear-all, the badge count (`src/components/FilterDropDown.js`) |
| `BookmarksPage` | bookmarks_page.dfy | the selection state machine and bulk actions (`src/app/bookmarks/page.js`) |
| `Navigation` | navigation.dfy | the three links, `isActive`, the bookmark badge (`src/components/Navigation.js`) |
| `Dashboard` | dashboard.dfy | the summary figures, the filter note, the empty-state hint (`src/app/page.js`) |
| `Analytics` | analytics.dfy | `processAnalyticsData` after enrichment, stars, labels, top department, table order (`src/app/analytics/page.js`) |

Modelling decisions:

- **Store and page state.** The store, the search hook's state and the
  bookmarks page are classes. Their handlers are methods that state the
  whole new state.
- **Pure computations.** Filters, aggregates and labels are functions. Each
  is paired with lemmas that tie it to an independent description: a
  one-pass filter, membership, counts adding up to a total, sortedness plus
  permutation, or first maximum.
- **Imperative loops.** The in-place loops of the source are methods with
  loop invariants, proved equal to those functions. These are the
  dictionary-and-counters loop of `generateAnalyticsData`, the
  filter-reassigning loop of `filteredData`, and the
  `forEach(removeBookmark)` loops.
- **Ratings on the analytics page.** The random department, rating and
  bookmark flag that the analytics page assigns are inputs to the model.

## Model

| member | source | states |
|---|---|---|
| `Api.GenerateMockData` | src/lib/api.js:8-41 | Copies the id, names and e-mail. Department is one of the eight listed and the bio names it. Rating is in 1..5. Salary is in [50000, 149000] and a multiple of 1000. There are 1..3 projects and the first names the department. Exactly two feedback ratings and six history ratings, all in 1..5 |
| `Api.SalaryByLastTwoDigits` | src/lib/api.js:16 | salary is 50000 plus 1000 times the id's last two decimal digits |
| `Api.MockDataDependsOnlyOnId` | src/lib/api.js:10-39 | two users with the same id get identical derived fields |
| `Api.DepartmentCycle` | src/lib/api.js:14 | the department is the (id mod 8)-th of the list |
| `Api.DepartmentAverages` | src/lib/api.js:94-98 | one entry per distinct department in first-appearance order, each with count at least 1 |
| `Api.RatingDistribution` | src/lib/api.js:100-105 | five buckets labelled "1 Star", "2 Stars" … "5 Stars" in ascending order, each counting the users with that rating |
| `Api.Visit` | src/lib/api.js:81-91 | one iteration creates the department's tally when missing and keeps the five counter keys |
| `Api.GenerateAnalyticsData` | src/lib/api.js:77-107 | the dictionary-and-counters loop yields exactly `DepartmentAverages` and `RatingDistribution` |
| `Api.ScanStep` | src/lib/api.js:81-91 | each iteration keeps the loop invariant: order of first appearance, every tally equals the sum and count over the prefix, counters equal the rating counts |
| `Api.TallyStep` | src/lib/api.js:83-87 | one more user adds its rating and one to its own department's tally and leaves every other tally alone |
| `Api.DepartmentCountsSum` | src/lib/api.js:81-98 | the department counts add up to the number of users |
| `Api.RatingDistributionSum` | src/lib/api.js:79-105 | with every rating in 1..5 the five bucket counts add up to the number of users |
| `Store.FilterUsers` | src/store/useStore.js:48-77 | the result is an order-preserving subsequence of the users. A user is in it iff they match the query (case-insensitive, in one of four fields, or the query is empty), their department is selected (or none is), and their rating is selected (or none is) |
| `Store.FilterUsersOnePass` | src/store/useStore.js:53-74 | the three staged filters equal a single filter by the conjunction, same users in the same order |
| `Store.NoFiltersListsAll` | src/store/useStore.js:53-74 | with an empty query and no selection the result is the user list itself |
| `Store.Store.constructor` | src/store/useStore.js:5-18 | the initial field values |
| `Store.Store.SetUsers` | src/store/useStore.js:21 | replaces `users`, nothing else changes |
| `Store.Store.SetLoading` | src/store/useStore.js:22 | replaces `loading`, nothing else changes |
| `Store.Store.SetError` | src/store/useStore.js:23 | replaces `error`, nothing else changes |
| `Store.Store.AddBookmark` | src/store/useStore.js:26-28 | appends the id even when present (the length always grows by one); afterwards it is bookmarked; nothing else changes |
| `Store.Store.RemoveBookmark` | src/store/useStore.js:30-37 | drops every occurrence of the id, keeps the remaining ids in order, leaves every other id's bookmarked status as it was, nothing else changes |
| `Seqs.WithoutSpec` | src/store/useStore.js:31 | removal leaves no occurrence, keeps every other id with its multiplicity, and keeps the order |
| `Store.Store.IsBookmarked` | src/store/useStore.js:34-37 | `includes`: true iff some position of the bookmark list holds the id |
| `Store.Store.SetSearchQuery` | src/store/useStore.js:40 | replaces `searchQuery`, nothing else changes |
| `Store.Store.SetSelectedDepartments` | src/store/useStore.js:41 | replaces `selectedDepartments`, nothing else changes |
| `Store.Store.SetSelectedRatings` | src/store/useStore.js:42 | replaces `selectedRatings`, nothing else changes |
| `Store.Store.ToggleTheme` | src/store/useStore.js:45 | negates `isDarkMode`, nothing else changes |
| `Store.ToggleThemeTwice` | src/store/useStore.js:45 | two toggles restore the whole store |
| `Store.Store.GetFilteredUsers` | src/store/useStore.js:48-77 | subsequence of `users` whose members are exactly the users meeting the three conditions; reads the store without changing it |
| `BookmarkHooks.BookmarkedUsers` | src/hooks/useBookmarks.js:13-15 | subsequence of the users; a user is in it iff their id is bookmarked |
| `BookmarkHooks.BookmarkedUsersMultiplicity` | src/hooks/useBookmarks.js:13-15 | each employee appears as often as in the user list when bookmarked and never otherwise, however often the id is repeated |
| `BookmarkHooks.BookmarkedUsersBySet` | src/hooks/useBookmarks.js:14 | only the set of bookmarked ids matters, not their order or repetition |
| `BookmarkHooks.UnmatchedBookmarkIgnored` | src/hooks/useBookmarks.js:14 | an id that belongs to no employee adds nobody |
| `BookmarkHooks.BookmarkedUsersNoDups` | src/hooks/useBookmarks.js:13-15 | with distinct employees nobody is listed twice |
| `BookmarkHooks.ToggleBookmark` | src/hooks/useBookmarks.js:18-26 | returns true iff the id was not bookmarked and iff it is bookmarked afterwards; appends or removes accordingly; nothing else changes |
| `BookmarkHooks.RemoveEach` | src/hooks/useBookmarks.js:30 | the `forEach(removeBookmark)` loop removes exactly the given ids; none of them is bookmarked afterwards; nothing else changes |
| `BookmarkHooks.ClearAllBookmarks` | src/hooks/useBookmarks.js:29-31 | removing every id of the snapshot leaves no bookmark; nothing else changes |
| `BookmarkHooks.BookmarkCount` | src/hooks/useBookmarks.js:41 | zero exactly when nothing is bookmarked, and never below the number of distinct bookmarked ids |
| `BookmarkHooks.RepeatedBookmarkCounted` | src/hooks/useBookmarks.js:41 | re-adding an already bookmarked id (what `addBookmark` does) raises the count by one while the bookmarked employees and the distinct ids stay the same |
| `BookmarkHooks.IsBookmarkedIffListed` | src/hooks/useBookmarks.js:13-15 | for every employee of the store, `isBookmarked` holds iff they are among the bookmarked employees |
| `Search.GetNestedValue` | src/hooks/useSearch.js:36-38 | on `null` or `undefined` the lookup is `undefined`, whatever the path (a path always has a segment) |
| `Search.Step` | src/hooks/useSearch.js:37 | a property read on `null` or `undefined` yields `undefined` |
| `Search.WalkAppend` | src/hooks/useSearch.js:37 | walking a concatenated key path is walking the first part then the second |
| `Search.WalkFromUndefined` | src/hooks/useSearch.js:37 | once `undefined`, the walk stays `undefined` |
| `Search.MissingStepIsUndefined` | src/hooks/useSearch.js:36-38 | a missing step anywhere on the path makes the lookup `undefined` |
| `Search.PlainKeyLookup` | src/hooks/useSearch.js:36-38 | a path without dots reads one property |
| `Search.DottedLookup` | src/hooks/useSearch.js:36-38 | `a.rest` reads `a`, then looks up `rest` in it |
| `Text.JoinSplit` | src/hooks/useSearch.js:37 | splitting on '.' loses nothing: joining the pieces gives back the path |
| `Search.ToJsString` | src/hooks/useSearch.js:15 | `value?.toString()` gives no string exactly for `null` and `undefined` |
| `Search.UndefinedFieldNeverMatches` | src/hooks/useSearch.js:14-15 | an undefined field never matches the term |
| `Search.NoSearchFieldsKeepsNothing` | src/hooks/useSearch.js:11-17 | with a non-empty term and no search fields nothing is kept |
| `Search.Filtered` | src/hooks/useSearch.js:7-34 | the intended result (see Findings): order-preserving subsequence of the data; an item is in it iff it matches the term (or the term is empty) and passes every active filter |
| `Search.FilteredData` | src/hooks/useSearch.js:7-34 | the intended loop (see Findings), reassigning `filtered` once per active filter entry, yields exactly `Filtered` |
| `Search.FilteredDataAsWritten` | src/hooks/useSearch.js:7-36 | as written: throws a ReferenceError exactly when some `getNestedValue` call happens (a term, a field and an item; or no term, an active filter and an item), otherwise returns `Filtered` |
| `Search.SearchTermThrowsAsWritten` | src/hooks/useSearch.js:11-17 | on one object with `firstName` "Ann", the field `firstName` and the term "a", the hook as written throws while `Filtered` keeps the object |
| `Search.HasActiveFilters` | src/hooks/useSearch.js:52 | when it is false the term is empty and every item passes every filter entry |
| `Search.InactiveKeepsAll` | src/hooks/useSearch.js:11-31 | with an empty term and no active filter value the data comes back unchanged |
| `Search.NumberFilterIgnored` | src/hooks/useSearch.js:22 | a numeric filter value has no length and is never active |
| `Search.StringRatingOptionsMatchNothing` | src/hooks/useSearch.js:24-29 | a filter of string options such as `'5'` accepts no employee by its numeric rating, since `===` does not convert |
| `Search.ResultsCount` | src/hooks/useSearch.js:62 | never more than the number of items |
| `Search.Updated` | src/hooks/useSearch.js:40-45 | the key now maps to the new value and every other key keeps its value |
| `Search.KeysOfUpdated` | src/hooks/useSearch.js:40-45 | an existing key keeps its place; a new key goes last |
| `Search.UpdatedKeys` | src/hooks/useSearch.js:40-45 | the filter keys stay distinct |
| `Search.SearchState.constructor` | src/hooks/useSearch.js:4-5 | empty term and empty filter object |
| `Search.SearchState.SetSearchTerm` | src/hooks/useSearch.js:4 | replaces the term, filters unchanged |
| `Search.SearchState.UpdateFilter` | src/hooks/useSearch.js:40-45 | only the given key changes; the term is unchanged; keys stay distinct |
| `Search.SearchState.ClearFilters` | src/hooks/useSearch.js:47-50 | empty term and empty filters, so nothing is active |
| `FilterDropdown.RatingOptions` | src/components/FilterDropDown.js:21 | exactly the ratings 1..5, strictly ascending |
| `FilterDropdown.DepartmentOptions` | src/components/FilterDropDown.js:20 | sorted ascending, duplicate-free, exactly the employees' departments |
| `Text.Sort` | src/components/FilterDropDown.js:20 | sorted in code-unit order and a permutation of its input |
| `FilterDropdown.ToggleDepartment` | src/components/FilterDropDown.js:23-29 | the selected departments become `Toggled(old, dept)`, nothing else changes |
| `FilterDropdown.ToggleRating` | src/components/FilterDropDown.js:31-37 | the selected ratings become `Toggled(old, rating)`, nothing else changes |
| `Seqs.Toggled` | src/components/FilterDropDown.js:23-37 | the value's membership flips and every other value's membership is unchanged |
| `Seqs.ToggledTwiceAbsent` | src/components/FilterDropDown.js:23-37 | toggling an absent value twice restores the list |
| `Seqs.ToggledNoDups` | src/components/FilterDropDown.js:23-37 | toggling keeps a duplicate-free list duplicate-free |
| `FilterDropdown.ToggleDepartmentTwice` | src/components/FilterDropDown.js:23-29 | toggling an unselected department twice restores the whole store |
| `FilterDropdown.ClearAllFilters` | src/components/FilterDropDown.js:39-42 | both selections emptied, nothing else changes, the count is 0 |
| `FilterDropdown.ActiveFiltersCount` | src/components/FilterDropDown.js:44 | zero exactly when both selections are empty, and never less than the number of distinct selected values |
| `FilterDropdown.ZeroCountSelectsAll` | src/components/FilterDropDown.js:44 | a zero count means only the search stage narrows the list |
| `BookmarksPage.DepartmentOptions` | src/app/bookmarks/page.js:40-41 | value equals label, values are distinct, they are exactly the bookmarked employees' departments, and they come in the order of each department's first appearance |
| `Seqs.CountWhereAppend` | src/app/page.js:66 | `filter(p).length` gives a single element 1 exactly when it satisfies `p`, and is additive over concatenation |
| `Seqs.CountWhereNone` | src/app/analytics/page.js:62 | `filter(p).length` is 0 exactly when no element satisfies `p` |
| `Seqs.DistinctOrder` | src/app/bookmarks/page.js:40 | `[...new Set(xs)]` lists the values in the order of their first occurrence in `xs` |
| `BookmarksPage.BookmarksPage.constructor` | src/app/bookmarks/page.js:16-20 | both modals closed, nobody selected, no bulk action |
| `BookmarksPage.BookmarksPage.SetBulkAction` | src/app/bookmarks/page.js:20 | replaces the bulk action only |
| `BookmarksPage.BookmarksPage.HandlePromote` | src/app/bookmarks/page.js:52-55 | remembers the employee and opens the promotion modal |
| `BookmarksPage.BookmarksPage.HandleAssignToProject` | src/app/bookmarks/page.js:57-60 | remembers the employee and opens the assignment modal |
| `BookmarksPage.BookmarksPage.HandleUserSelect` | src/app/bookmarks/page.js:75-81 | removes a selected id or appends an unselected one |
| `BookmarksPage.BookmarksPage.SelectAllChecked` | src/app/bookmarks/page.js:214 | ticked only with a non-empty selection over a non-empty list (lengths compared, not ids) |
| `BookmarksPage.BookmarksPage.HandleSelectAll` | src/app/bookmarks/page.js:83-89 | equal lengths clear the selection, otherwise the shown ids in order. A ticked box becomes unticked. After selecting all, the box is ticked iff the list is non-empty |
| `BookmarksPage.BookmarksPage.HandleBulkAction` | src/app/bookmarks/page.js:62-73 | no-op without a selection or with an unknown action; promote and assign only open their modal; remove drops every selected id from the bookmarks and clears the selection |
| `BookmarksPage.BulkRemoveEffect` | src/app/bookmarks/page.js:69-71 | after a bulk removal no selected id is bookmarked and every other bookmark keeps its multiplicity and order |
| `BookmarksPage.BookmarksPage.ClosePromoteModal` | src/app/bookmarks/page.js:291-294 | modal closed, no employee remembered, selection cleared |
| `BookmarksPage.BookmarksPage.CloseAssignModal` | src/app/bookmarks/page.js:352-355 | modal closed, no employee remembered, selection cleared |
| `Navigation.NavItems` | src/components/Navigation.js:13-17 | the three links in order: `/`, `/bookmarks`, `/analytics` |
| `Navigation.IsActive` | src/components/Navigation.js:19-22 | a link is highlighted on its own path, and only on paths at least as long as its href |
| `Navigation.AtMostOneActive` | src/components/Navigation.js:13-22 | for any path, no two links are highlighted together |
| `Navigation.PrefixHighlights` | src/components/Navigation.js:19-22 | `/bookmarks/1` and `/bookmarksx` both highlight Bookmarks; the root needs an exact match |
| `Navigation.BadgeRule` | src/components/Navigation.js:60-64 | the bookmarks badge carries the count and shows iff it is positive; the others never show one |
| `Dashboard.ComputeStats` | src/app/page.js:62-67 | total is the number of users; departments are at most the total and 0 iff there are none; top performers are at most the total and positive when someone is rated 4 or more (the exact count is `TopPerformersCount`); the average is 0 without users and otherwise the mean |
| `Dashboard.TopPerformersCount` | src/app/page.js:66 | `topPerformers` counts the users rated 4 or more: one user counts 1 or 0 by that test, the counts of two lists add, and it is 0 exactly when nobody is rated 4 or more |
| `Dashboard.AverageInRange` | src/app/page.js:65 | with ratings in 1..5 a non-empty average lies in [1, 5] |
| `Dashboard.DepartmentsFigure` | src/app/page.js:64 | the figure counts the distinct departments, which are exactly the users' departments |
| `Dashboard.FiltersNote` | src/app/page.js:183-187 | empty exactly when no filter is on |
| `Dashboard.FiltersNoteWording` | src/app/page.js:185 | "filter" for one, "filters" for more |
| `Dashboard.ShownAtMostTotal` | src/app/page.js:177 | the shown count never exceeds the total |
| `Dashboard.EmptyStateHint` | src/app/page.js:240-243 | suggests adjusting iff a query or a filter is on |
| `Dashboard.NoDataHintIsTruthful` | src/app/page.js:234-243 | when the no-data hint shows over an empty list, there are no employees |
| `Analytics.DepartmentRow` | src/app/analytics/page.js:27-38 | the count is the number of employees in the department, zero iff nobody is, and average times count is the total |
| `Analytics.DepartmentRatings` | src/app/analytics/page.js:27-39 | a subsequence of the nine rows in list order; every kept row is non-empty and correct; a department has a row iff it is listed and someone is in it |
| `Analytics.DropEmptyRows` | src/app/analytics/page.js:39 | dropping empty rows keeps the employee total |
| `Analytics.DepartmentCountsSum` | src/app/analytics/page.js:19-39 | with every department from the list the counts add up to the number of employees |
| `Analytics.PerformanceDistribution` | src/app/analytics/page.js:52-58 | ascending subsequence of the five buckets; every entry is non-empty and counts its rating; a rating has an entry iff someone has it |
| `Analytics.DistributionSum` | src/app/analytics/page.js:52-60 | with ratings in 1..5 the entries add up to the number of employees |
| `Analytics.ProcessAnalyticsData` | src/app/analytics/page.js:17-72 | the rows are `DepartmentRatings` and the buckets `PerformanceDistribution` of the enriched staff; total is the number of employees; bookmarks are at most the total (the exact count is `TotalBookmarksCount`); the average is `AverageRating`, absent exactly for an empty list |
| `Analytics.TotalBookmarksCount` | src/app/analytics/page.js:62 | `totalBookmarks` counts the employees flagged `isBookmarked`: one employee counts 1 or 0 by its flag, the counts of two lists add, and it is 0 exactly when nobody is flagged |
| `Analytics.AverageRating` | src/app/analytics/page.js:61 | absent exactly for an empty list; otherwise times the number of employees it gives the rating total |
| `Analytics.RenderStars` | src/app/analytics/page.js:110-112 | throws unless 0 ≤ floor(r) ≤ 5; otherwise five characters, floor(r) filled then the rest empty |
| `Analytics.BadgeColor` | src/app/analytics/page.js:114-119 | one of the four colour classes; green exactly from 4.5 up |
| `Analytics.PerformanceLabel` | src/app/analytics/page.js:333-335 | one of the four labels; Excellent exactly from 4.5 up, Needs Improvement exactly below 2.5 |
| `Analytics.ColorMatchesLabel` | src/app/analytics/page.js:114-119 | green, blue, yellow and red go exactly with Excellent, Good, Average and Needs Improvement |
| `Analytics.LabelMonotone` | src/app/analytics/page.js:333-335 | a higher average never gets a lower label |
| `Analytics.BestIndex` | src/app/analytics/page.js:358-360 | the reduce picks a row with maximal average and no earlier row reaches it |
| `Analytics.TopDepartment` | src/app/analytics/page.js:357-361 | "N/A" without rows; otherwise the department of the first row with maximal average |
| `Analytics.SortByAvgDesc` | src/app/analytics/page.js:316-318 | a copy sorted by descending average that is a permutation of the rows |

## Findings

| source | as written | input that shows it | evidently intended | confidence | as-written member | corrected member |
|---|---|---|---|---|---|---|
| src/hooks/useSearch.js:14 | The `useMemo` factory at lines 7-34 runs during the hook call. It calls `getNestedValue` at lines 14 and 24, but that `const` is only initialised at line 36, so the first call throws a ReferenceError | data `[{firstName: "Ann"}]`, search fields `["firstName"]`, term `"a"` | the lookup helper is available to the factory, and the item is kept | high (not executed; follows from JavaScript's temporal dead zone for `const`) | `Search.FilteredDataAsWritten`, `Search.SearchTermThrowsAsWritten` | `Search.FilteredData` (proved equal to `Search.Filtered`, which `Search.ResultsCount` uses) |

## Left out

- Fetching: `fetchUsers` and `fetchUserById`, the analytics fetch, and the dashboard's `loadUsers`/`handleRefresh` sequences. These are network I/O with async sequencing. The store setters they call are modelled.
- Random generation: the analytics page's random department, rating and bookmark flag, and the random generators in `src/lib/utils.js`. The analytics model takes the chosen values as input.
- Dates and locale: `hireDate` in `generateMockData`, the month names of the performance history (only its ratings are kept), and date and currency formatting.
- Rounding: averages are exact rationals. The source rounds them with `toFixed(1)`. The bookmark-rate percentage is not modelled. So the averages that `Analytics.PerformanceLabel`, `Analytics.BadgeColor`, `Analytics.TopDepartment` and `Analytics.SortByAvgDesc` receive are unrounded, where the source passes `Number(avg.toFixed(1))`. For example, a department averaging 67/15 (about 4.47) reads 4.5 in the source and is labelled "Excellent"; the model labels it "Good". Departments whose averages round to the same value may also come out in a different order or with a different top department.
- Timers and debouncing in the search bar and the analytics loading delay.
- Unicode: `toLowerCase` is ASCII-only here. String order compares characters by code point; the source compares UTF-16 code units, which differ only outside the Basic Multilingual Plane.
- Presentation: JSX, charts, badges, cards, modal contents, `alert()`, the constant monthly `bookmarkTrends` table, the drop-down's open/closed flag, and the colour lookups in `src/lib/utils.js` and `UserCard.js`.
- Prop wiring: the props the bookmarks page hands to `SearchBar` and `FilterDropdown` are ignored by those components, so the search hook is modelled on its own.
- Property reads: `Search.Step` reads object keys and the `length` of strings and arrays. Array and string indices and prototype members such as `toString` read as `undefined`.
- Object identity: `Search.StrictEq` treats two objects or arrays as never equal, since references are not modelled. `includes` uses SameValueZero, which equals `===` here because there is no NaN.
- Key order: `Object.entries` lists integer-like keys first in ascending order. The model keeps insertion order, which is what the source gets for its department names and filter keys.
- `Api.GenerateAnalyticsData`: treats every department name as a fresh key of the tally. The source tallies in a plain object literal (src/lib/api.js:78). For a name that is an `Object.prototype` member (`constructor`, `toString`, `valueOf`, `hasOwnProperty`, `__proto__`, ...), the lookup at api.js:83 finds the inherited member, which is truthy, so no own entry is created. The `+=` updates then write NaN onto that inherited object; for `__proto__` that pollutes `Object.prototype` itself. `Object.entries` leaves the department out of `departmentAverages`. The department names `Api.GenerateMockData` produces are never such members.
- `Api.Visit`: the same fresh-key assumption, one step of the loop at a time.
- `Api.DepartmentCountsSum`: the counts add up to `users.length` only under the fresh-key assumption. In the source, a user whose department is an `Object.prototype` member is counted in no entry.
- `Api.GenerateAnalyticsData`: a rating outside 1..5 adds a NaN-valued extra bucket in the source. The model counts it in no bucket.
- `Api.GenerateMockData`: requires a non-negative id. The user API's ids are positive. A negative id would index the department list at a negative position, because `%` keeps the sign.
- `Api.GenerateMockData`: follows only the id, names and e-mail of the API record. Every other API field is copied unchanged by the spread.
- `Analytics.SortByAvgDesc`: states sorted order and permutation but not the stability of `Array.prototype.sort`.
- `Analytics.RenderStars`: takes a finite real. NaN and infinite ratings are not modelled.
- `Analytics.ProcessAnalyticsData`: the average of an empty list is NaN in the source; here it is `None`.
- `Store.Store.SetError`: the store accepts any value as the error. The model keeps an optional message.
- `Search.HasActiveFilters`: the source yields the term itself when it is non-empty, which is truthy. The model gives a boolean.
