# VitechAsia news blog: a Dafny model of its list, set and map logic

This project models the in-memory logic of the VitechAsia Android news app.
Its articles come from a generated catalogue, a fake Retrofit service or a
fake local HTTP server. The app lists them page by page, searches and filters
them, and keeps bookmarks, likes, shares, reading progress, a search history
and a login session in preferences files. The Android views, the network
stack and the threads are not modelled.

Each Java file of the core has a module:

- Value classes become datatypes: `Article`, `User`, Parcel slots, preference values.
- Objects whose fields the code updates become classes with `modifies` clauses:
  - `PaginationUtils`, `SearchFilters`, `Category`, `CategoryManager`;
  - the preference-backed managers (bookmarks, likes and shares, reading progress, search history, session);
  - the search screen, the article adapter, `FakeCall` and the fake server.
- Loops over lists become methods with loop invariants. Each is proved
  against a specification function, and the properties the app relies on
  are proved as lemmas about those functions.
- `SharedPreferences` is a `map<string, Pref>` with typed reads. A read of a
  key that holds another type throws `ClassCastException`.
- Java `null` is `Option`, and exceptions are the `Thrown` case of a `Result`.
- `int` and `long` arithmetic that can overflow wraps explicitly (`Wrap32`, `Wrap64`).
- `List.sort` is a stable insertion sort (`Sequences.SortBy`).

Module map:

| module | Java source |
|---|---|
| `JavaLang`, `Sequences`, `Parcels`, `Preferences` | the JDK and Android calls the app makes |
| `Pagination` | `utils/PaginationUtils.java` |
| `SearchHistory` | `utils/SearchHistoryManager.java` |
| `Bookmarks` | `utils/BookmarkManager.java` |
| `Social` | `utils/SocialInteractionManager.java` |
| `ReadingProgress` | `utils/ReadingProgressManager.java` |
| `Filters` | `models/SearchFilters.java` |
| `CategoryModel` | `models/Category.java` |
| `ArticleModel` | `models/Article.java` |
| `Formatter` | `adapters/ArticleFormatter.java` |
| `Sharing` | `utils/ShareUtils.java` |
| `Catalog` | `utils/DataHandler.java`, `utils/DummyDataGenerator.java` |
| `Categories` | `utils/CategoryManager.java` |
| `SearchResults` | `fragments/SearchResultsFragment.java` |
| `ApiService` | `api/FakeArticleApiService.java` |
| `ApiServer` | `api/FakeApiServer.java` |
| `Session` | `utils/SessionManager.java` |
| `Forms`, `Login` | `activities/LoginActivity.java` |
| `Signup` | `activities/SignupActivity.java` |
| `Adapters` | `adapters/BaseArticleAdapter.java` |

## Model

| member | source | states |
|---|---|---|
| JavaLang.Wrap32 | app/src/main/java/com/rafdi/vitechasia/blog/utils/PaginationUtils.java:27-48 | the result is the unique `int` congruent to the input modulo 2^32, and inputs already in range are unchanged |
| JavaLang.Wrap64 | app/src/main/java/com/rafdi/vitechasia/blog/fragments/SearchResultsFragment.java:280-294 | the result is the unique `long` congruent to the input modulo 2^64 |
| JavaLang.JavaDiv | app/src/main/java/com/rafdi/vitechasia/blog/utils/DataHandler.java:737-757 | division truncates toward zero: the quotient is the Euclidean one for non-negative operands, its sign follows the operands' signs, and the remainder `a - q*b` is smaller than the divisor in magnitude and zero or of the dividend's sign |
| JavaLang.ParseInt | app/src/main/java/com/rafdi/vitechasia/blog/api/FakeApiServer.java:206-225 | null and "" give None; a parsed value is the signed decimal value of the digits after an optional sign |
| JavaLang.ParseIntComplete | app/src/main/java/com/rafdi/vitechasia/blog/api/FakeApiServer.java:206-225 | an optional sign followed by at least one ASCII digit whose value fits an `int` parses to that signed value |
| JavaLang.ParseIntOfDecimal | app/src/main/java/com/rafdi/vitechasia/blog/api/FakeApiServer.java:206-225 | parsing the decimal text of any `int` gives it back |
| JavaLang.Trim | app/src/main/java/com/rafdi/vitechasia/blog/utils/SearchHistoryManager.java:40-60 | no longer than the input, and neither starts nor ends with a character <= U+0020 |
| JavaLang.TrimIsSlice | app/src/main/java/com/rafdi/vitechasia/blog/utils/SearchHistoryManager.java:40-60 | the trim is a slice of the input, and everything cut on either side is a character <= U+0020 |
| JavaLang.TrimIdempotent | app/src/main/java/com/rafdi/vitechasia/blog/utils/SearchHistoryManager.java:40-60 | trimming twice is trimming once |
| JavaLang.ToLower | app/src/main/java/com/rafdi/vitechasia/blog/utils/DataHandler.java:343-361 | same length; each ASCII upper-case letter is lowered and every other character is kept |
| JavaLang.EqualsIgnoreCaseSymmetric | app/src/main/java/com/rafdi/vitechasia/blog/utils/DataHandler.java:203-211 | `equalsIgnoreCase` is symmetric on non-null strings |
| Sequences.Filter | app/src/main/java/com/rafdi/vitechasia/blog/utils/DataHandler.java:203-211 | every kept element passes, and the result is no longer than the input |
| Sequences.FilterMultiset | app/src/main/java/com/rafdi/vitechasia/blog/utils/DataHandler.java:203-211 | no element is kept more often than it occurs |
| Sequences.FilterAppend | app/src/main/java/com/rafdi/vitechasia/blog/utils/DataHandler.java:203-211 | filtering distributes over concatenation, so relative order is kept |
| Sequences.FilterMembers | app/src/main/java/com/rafdi/vitechasia/blog/utils/DataHandler.java:203-211 | an element is kept exactly when it occurs and passes |
| Sequences.SortBy | app/src/main/java/com/rafdi/vitechasia/blog/utils/DataHandler.java:309-335 | the sorted list is a permutation of its input |
| Sequences.SortBySorted | app/src/main/java/com/rafdi/vitechasia/blog/utils/DataHandler.java:309-335 | under a total preorder the sorted list is ordered |
| Sequences.RemoveFirst | app/src/main/java/com/rafdi/vitechasia/blog/utils/SearchHistoryManager.java:97-105 | `List.remove(Object)` drops exactly the first occurrence and keeps the rest in order |
| Sequences.RemoveFirstMultiset | app/src/main/java/com/rafdi/vitechasia/blog/utils/SearchHistoryManager.java:97-105 | removing takes exactly one copy of the element out of the multiset |
| Preferences.GetBoolean | app/src/main/java/com/rafdi/vitechasia/blog/utils/SessionManager.java:50-52 | the stored boolean, the default when the key is missing, ClassCastException for another type |
| Preferences.GetInt | app/src/main/java/com/rafdi/vitechasia/blog/utils/SocialInteractionManager.java:114-116 | the stored int, the default when the key is missing, ClassCastException for another type |
| Preferences.GetString | app/src/main/java/com/rafdi/vitechasia/blog/utils/SessionManager.java:35-48 | the stored string, the default when the key is missing, ClassCastException for another type |
| Preferences.PutGetString | app/src/main/java/com/rafdi/vitechasia/blog/utils/SessionManager.java:25-48 | a string written with `putString` reads back, a null one as the default |
| Pagination.CeilDiv | app/src/main/java/com/rafdi/vitechasia/blog/utils/PaginationUtils.java:18-25 | the least page count whose pages hold n items |
| Pagination.TotalPagesFor | app/src/main/java/com/rafdi/vitechasia/blog/utils/PaginationUtils.java:18-25 | at least one page, and exactly enough pages for a non-empty list |
| Pagination.Page | app/src/main/java/com/rafdi/vitechasia/blog/utils/PaginationUtils.java:27-48 | page k is the slice from (k-1)*perPage to min(k*perPage, size), empty past the end, never more than perPage items |
| Pagination.PagesUpToIsPrefix | app/src/main/java/com/rafdi/vitechasia/blog/utils/PaginationUtils.java:27-48 | the first k pages together are the first k*perPage items: pages neither overlap nor skip |
| Pagination.AllPagesCoverList | app/src/main/java/com/rafdi/vitechasia/blog/utils/PaginationUtils.java:27-48 | reading every page in order gives back the whole list |
| Pagination.PageSizes | app/src/main/java/com/rafdi/vitechasia/blog/utils/PaginationUtils.java:27-48 | every page but the last is full, and no page of a non-empty list is empty |
| Pagination.PaginationUtils.constructor | app/src/main/java/com/rafdi/vitechasia/blog/utils/PaginationUtils.java:12-16 | a null list becomes empty, fewer than one item per page becomes one, and paging starts at page 1 |
| Pagination.PaginationUtils.CurrentPageItems | app/src/main/java/com/rafdi/vitechasia/blog/utils/PaginationUtils.java:27-48 | returns the current page and keeps 1 <= currentPage <= totalPages |
| Pagination.PaginationUtils.HasNextPage | app/src/main/java/com/rafdi/vitechasia/blog/utils/PaginationUtils.java:50-52 | true exactly when some item lies beyond the current page |
| Pagination.PaginationUtils.HasPreviousPage | app/src/main/java/com/rafdi/vitechasia/blog/utils/PaginationUtils.java:54-56 | true exactly when the current page is not the first |
| Pagination.PaginationUtils.NextPage | app/src/main/java/com/rafdi/vitechasia/blog/utils/PaginationUtils.java:58-64 | moves forward one page and returns it only when there is a next page; otherwise nothing changes and the result is empty |
| Pagination.PaginationUtils.PreviousPage | app/src/main/java/com/rafdi/vitechasia/blog/utils/PaginationUtils.java:66-72 | the same, backwards |
| Pagination.PaginationUtils.LoadNextPage | app/src/main/java/com/rafdi/vitechasia/blog/utils/PaginationUtils.java:93-99 | the same as `nextPage` |
| Pagination.PaginationUtils.GetCurrentPage | app/src/main/java/com/rafdi/vitechasia/blog/utils/PaginationUtils.java:101-103 | the current page, with nothing changed |
| Pagination.PaginationUtils.Reset | app/src/main/java/com/rafdi/vitechasia/blog/utils/PaginationUtils.java:74-76 | back to page 1, the list untouched |
| Pagination.PaginationUtils.UpdateData | app/src/main/java/com/rafdi/vitechasia/blog/utils/PaginationUtils.java:86-91 | replaces the list (null becomes empty), recomputes the page count and goes back to page 1 |
| SearchHistory.ReadHistory | app/src/main/java/com/rafdi/vitechasia/blog/utils/SearchHistoryManager.java:65-80 | the saved list, or empty when nothing is stored or the stored value does not parse |
| SearchHistory.WithQueryAdded | app/src/main/java/com/rafdi/vitechasia/blog/utils/SearchHistoryManager.java:40-60 | null or blank queries change nothing; otherwise the trimmed query comes first, followed by the old history without it, cut to five entries |
| SearchHistory.AddKeepsNoDuplicates | app/src/main/java/com/rafdi/vitechasia/blog/utils/SearchHistoryManager.java:46-56 | adding never creates a duplicate |
| SearchHistory.AddTwiceIsAddOnce | app/src/main/java/com/rafdi/vitechasia/blog/utils/SearchHistoryManager.java:40-60 | adding the same query twice is adding it once |
| SearchHistory.WithQueryRemoved | app/src/main/java/com/rafdi/vitechasia/blog/utils/SearchHistoryManager.java:97-105 | null changes nothing; otherwise one copy of the trimmed query is removed and none is left in a duplicate-free history |
| SearchHistory.SearchHistoryManager.AddSearchQuery | app/src/main/java/com/rafdi/vitechasia/blog/utils/SearchHistoryManager.java:40-60 | saves the added list; the trimmed query is then the newest entry |
| SearchHistory.SearchHistoryManager.RemoveSearchQuery | app/src/main/java/com/rafdi/vitechasia/blog/utils/SearchHistoryManager.java:97-105 | saves the list without the query; null changes nothing |
| SearchHistory.SearchHistoryManager.ClearSearchHistory | app/src/main/java/com/rafdi/vitechasia/blog/utils/SearchHistoryManager.java:90-92 | the key is removed and the history reads empty |
| SearchHistory.SearchHistoryManager.IsHistoryEmpty | app/src/main/java/com/rafdi/vitechasia/blog/utils/SearchHistoryManager.java:110-117 | true exactly when the history reads empty |
| Bookmarks.Toggled | app/src/main/java/com/rafdi/vitechasia/blog/utils/BookmarkManager.java:34-48 | the id's membership flips and every other id keeps its membership |
| Bookmarks.ToggleTwice | app/src/main/java/com/rafdi/vitechasia/blog/utils/BookmarkManager.java:34-48 | toggling twice restores the set |
| Bookmarks.Synced | app/src/main/java/com/rafdi/vitechasia/blog/utils/BookmarkManager.java:61-64 | an article with an id takes set membership as its flag; one without an id is unchanged |
| Bookmarks.SyncedAll | app/src/main/java/com/rafdi/vitechasia/blog/utils/BookmarkManager.java:50-59 | each article is synced on its own, and the length is kept |
| Bookmarks.SyncIdempotent | app/src/main/java/com/rafdi/vitechasia/blog/utils/BookmarkManager.java:50-59 | syncing twice is syncing once, and only the bookmark flag ever changes |
| Bookmarks.BookmarkManager.IsBookmarked | app/src/main/java/com/rafdi/vitechasia/blog/utils/BookmarkManager.java:29-32 | true exactly when the id is non-null and in the stored set |
| Bookmarks.BookmarkManager.ToggleBookmark | app/src/main/java/com/rafdi/vitechasia/blog/utils/BookmarkManager.java:34-48 | toggles the id in the set and sets the article's flag to its new membership; a null article or id changes nothing |
| Bookmarks.BookmarkManager.SyncArticles | app/src/main/java/com/rafdi/vitechasia/blog/utils/BookmarkManager.java:50-59 | the list is synced and the set is untouched |
| Bookmarks.BookmarkManager.SyncArticle | app/src/main/java/com/rafdi/vitechasia/blog/utils/BookmarkManager.java:61-64 | the article is synced; null stays null |
| Social.KeyFamiliesDisjoint | app/src/main/java/com/rafdi/vitechasia/blog/utils/SocialInteractionManager.java:43-186 | the five key families never collide |
| Social.IsLiked | app/src/main/java/com/rafdi/vitechasia/blog/utils/SocialInteractionManager.java:100-102 | false unless a like is stored |
| Social.LikeCount | app/src/main/java/com/rafdi/vitechasia/blog/utils/SocialInteractionManager.java:114-116 | 0 unless a count is stored |
| Social.NextLikeCount | app/src/main/java/com/rafdi/vitechasia/blog/utils/SocialInteractionManager.java:56-63 | one more when liked; one less, never below 0, when unliked |
| Social.LikeUnlikeCounts | app/src/main/java/com/rafdi/vitechasia/blog/utils/SocialInteractionManager.java:56-63 | liking then unliking restores the count |
| Social.ToggledLike | app/src/main/java/com/rafdi/vitechasia/blog/utils/SocialInteractionManager.java:43-70 | the flag is negated, the count moves with it, and no other key changes |
| Social.ToggleLikeTwice | app/src/main/java/com/rafdi/vitechasia/blog/utils/SocialInteractionManager.java:43-70 | toggling twice restores the flag, and the count from an unliked state |
| Social.RecordedShare | app/src/main/java/com/rafdi/vitechasia/blog/utils/SocialInteractionManager.java:75-95 | the first share sets the flag and adds one to the count; later shares change nothing |
| Social.RecordShareIdempotent | app/src/main/java/com/rafdi/vitechasia/blog/utils/SocialInteractionManager.java:75-95 | recording a share twice is recording it once |
| Social.WithSocialState | app/src/main/java/com/rafdi/vitechasia/blog/utils/SocialInteractionManager.java:162-179 | the article takes the stored flags always, and the stored counts only where they are positive |
| Social.EmptyStoreDefaults | app/src/main/java/com/rafdi/vitechasia/blog/utils/SocialInteractionManager.java:100-148 | on an empty store every flag is false and every count 0 |
| Social.SocialInteractionManager.ToggleLike | app/src/main/java/com/rafdi/vitechasia/blog/utils/SocialInteractionManager.java:43-70 | returns and stores the negated flag, and the article carries the stored flag and count; null returns false and changes nothing |
| Social.SocialInteractionManager.RecordShare | app/src/main/java/com/rafdi/vitechasia/blog/utils/SocialInteractionManager.java:75-95 | only the first share changes the store and the article |
| Social.SocialInteractionManager.SetLikeCount | app/src/main/java/com/rafdi/vitechasia/blog/utils/SocialInteractionManager.java:121-125 | the like count reads back as set |
| Social.SocialInteractionManager.SetShareCount | app/src/main/java/com/rafdi/vitechasia/blog/utils/SocialInteractionManager.java:137-141 | the share count reads back as set |
| Social.SocialInteractionManager.SetCommentCount | app/src/main/java/com/rafdi/vitechasia/blog/utils/SocialInteractionManager.java:153-157 | the comment count reads back as set |
| Social.SocialInteractionManager.InitializeArticleSocialState | app/src/main/java/com/rafdi/vitechasia/blog/utils/SocialInteractionManager.java:162-179 | the article gets the stored social state; a null article or id is left alone |
| Social.SocialInteractionManager.ResetAllInteractions | app/src/main/java/com/rafdi/vitechasia/blog/utils/SocialInteractionManager.java:184-186 | the store is empty, so every value reads its default |
| ReadingProgress.KeysDistinct | app/src/main/java/com/rafdi/vitechasia/blog/utils/ReadingProgressManager.java:45-59 | the three keys of an article are pairwise different |
| ReadingProgress.Clamp | app/src/main/java/com/rafdi/vitechasia/blog/utils/ReadingProgressManager.java:51 | the result lies in 0..100 and equals the input when the input does |
| ReadingProgress.GetReadingProgress | app/src/main/java/com/rafdi/vitechasia/blog/utils/ReadingProgressManager.java:64-67 | 0 for a null or unseen id, the stored value otherwise |
| ReadingProgress.SavedReadsBack | app/src/main/java/com/rafdi/vitechasia/blog/utils/ReadingProgressManager.java:45-59 | after a save the id reads back the clamped progress, the time, and a flag that holds exactly when 0 < progress < 100; other keys are untouched |
| ReadingProgress.CompletedIsNotInProgress | app/src/main/java/com/rafdi/vitechasia/blog/utils/ReadingProgressManager.java:101-104 | a completed article reads 100 and is not in progress |
| ReadingProgress.ClearUndoesSave | app/src/main/java/com/rafdi/vitechasia/blog/utils/ReadingProgressManager.java:109-117 | clearing undoes a save of the same id and removes only that id's keys |
| ReadingProgress.KeptPositions | app/src/main/java/com/rafdi/vitechasia/blog/utils/ReadingProgressManager.java:72-96 | the increasing positions of exactly the articles with an id whose flag is set |
| ReadingProgress.InProgressArticlesInOrder | app/src/main/java/com/rafdi/vitechasia/blog/utils/ReadingProgressManager.java:72-96 | the loop's result lists the flagged articles in input order, each equal to its input article but for the stored reading progress |
| ReadingProgress.InProgressArticles | app/src/main/java/com/rafdi/vitechasia/blog/utils/ReadingProgressManager.java:72-96 | every kept article has an id whose flag is set and carries its stored progress; no longer than the input |
| ReadingProgress.ContinueReading | app/src/main/java/com/rafdi/vitechasia/blog/utils/ReadingProgressManager.java:72-96 | the kept articles, most recently read first |
| ReadingProgress.ContinueReadingSorted | app/src/main/java/com/rafdi/vitechasia/blog/utils/ReadingProgressManager.java:72-96 | the continue-reading list is ordered by last-read time, descending |
| ReadingProgress.SavedArticleIsCounted | app/src/main/java/com/rafdi/vitechasia/blog/utils/ReadingProgressManager.java:137-153 | a saved article counts as started, and as completed exactly when it reads 100 or more |
| ReadingProgress.ReadingProgressManager.SaveReadingProgress | app/src/main/java/com/rafdi/vitechasia/blog/utils/ReadingProgressManager.java:45-59 | stores the clamped progress, the time and the flag, and gives the article the unclamped progress; a null article or id changes nothing |
| ReadingProgress.ReadingProgressManager.ReadingProgressOf | app/src/main/java/com/rafdi/vitechasia/blog/utils/ReadingProgressManager.java:64-67 | `getReadingProgress` on the manager's store |
| ReadingProgress.ReadingProgressManager.GetContinueReadingArticles | app/src/main/java/com/rafdi/vitechasia/blog/utils/ReadingProgressManager.java:72-96 | the loop and the sort give the continue-reading list |
| ReadingProgress.ReadingProgressManager.MarkArticleAsCompleted | app/src/main/java/com/rafdi/vitechasia/blog/utils/ReadingProgressManager.java:101-104 | a save of 100, so the article reads 100 and is not in progress |
| ReadingProgress.ReadingProgressManager.ClearReadingProgress | app/src/main/java/com/rafdi/vitechasia/blog/utils/ReadingProgressManager.java:109-117 | removes the id's three keys; a null id changes nothing |
| ReadingProgress.ReadingProgressManager.GetReadingStats | app/src/main/java/com/rafdi/vitechasia/blog/utils/ReadingProgressManager.java:137-153 | started counts the progress entries, completed those at 100 or more, and completed <= started |
| ReadingProgress.StatsAsWritten | app/src/main/java/com/rafdi/vitechasia/blog/utils/ReadingProgressManager.java:137-153 | as written, `getInt` runs on every key ending in "_progress" and throws at the first boolean |
| ReadingProgress.StatsAsWrittenThrowAfterSave | app/src/main/java/com/rafdi/vitechasia/blog/utils/ReadingProgressManager.java:137-153 | as written, the statistics throw ClassCastException after any save |
| Filters.WithCategory | app/src/main/java/com/rafdi/vitechasia/blog/models/SearchFilters.java:58-62 | null and present categories are ignored, others appended |
| Filters.WithCategoryNoDuplicates | app/src/main/java/com/rafdi/vitechasia/blog/models/SearchFilters.java:58-62 | the category list never gains a duplicate |
| Filters.WithCategoryIdempotent | app/src/main/java/com/rafdi/vitechasia/blog/models/SearchFilters.java:58-62 | adding twice is adding once |
| Filters.RemoveUndoesAdd | app/src/main/java/com/rafdi/vitechasia/blog/models/SearchFilters.java:58-66 | removing a category just added restores the list |
| Filters.SearchFilters.constructor | app/src/main/java/com/rafdi/vitechasia/blog/models/SearchFilters.java:27-29 | relevance, all time, no categories, and no active filter |
| Filters.SearchFilters.SetSortBy | app/src/main/java/com/rafdi/vitechasia/blog/models/SearchFilters.java:35-37 | null gives relevance; nothing else changes |
| Filters.SearchFilters.SetDateRange | app/src/main/java/com/rafdi/vitechasia/blog/models/SearchFilters.java:43-45 | null gives all time; nothing else changes |
| Filters.SearchFilters.GetSelectedCategories | app/src/main/java/com/rafdi/vitechasia/blog/models/SearchFilters.java:47-49 | a copy of the list |
| Filters.SearchFilters.SetSelectedCategories | app/src/main/java/com/rafdi/vitechasia/blog/models/SearchFilters.java:51-56 | the list is replaced, null by empty |
| Filters.SearchFilters.AddCategory | app/src/main/java/com/rafdi/vitechasia/blog/models/SearchFilters.java:58-62 | the list becomes `WithCategory` of the old list and stays duplicate-free |
| Filters.SearchFilters.RemoveCategory | app/src/main/java/com/rafdi/vitechasia/blog/models/SearchFilters.java:64-66 | the first occurrence is removed; null changes nothing |
| Filters.SearchFilters.Clear | app/src/main/java/com/rafdi/vitechasia/blog/models/SearchFilters.java:68-72 | the defaults are restored and no filter is active |
| Filters.SearchFilters.HasActiveFilters | app/src/main/java/com/rafdi/vitechasia/blog/models/SearchFilters.java:74-78 | true exactly when order, range or categories differ from the defaults |
| Filters.SearchFilters.Equals | app/src/main/java/com/rafdi/vitechasia/blog/models/SearchFilters.java:81-89 | true for the same object, or another filter with equal order, range and category list; false for null |
| Filters.EqualsHashCode | app/src/main/java/com/rafdi/vitechasia/blog/models/SearchFilters.java:81-97 | equal filters have equal hash codes |
| Filters.EqualsSymmetric | app/src/main/java/com/rafdi/vitechasia/blog/models/SearchFilters.java:81-89 | `equals` is symmetric |
| CategoryModel.DecodeCategory | app/src/main/java/com/rafdi/vitechasia/blog/models/Category.java:30-34 | reads two strings and a list, and fails exactly when the slots do not have those kinds |
| CategoryModel.CategoryParcelRoundTrip | app/src/main/java/com/rafdi/vitechasia/blog/models/Category.java:30-34 | what `writeToParcel` writes, the Parcel constructor reads back whole, whatever follows |
| CategoryModel.Category.Empty | app/src/main/java/com/rafdi/vitechasia/blog/models/Category.java:20-22 | no id, no name, an empty list |
| CategoryModel.Category.constructor | app/src/main/java/com/rafdi/vitechasia/blog/models/Category.java:24-28 | a null list becomes empty |
| CategoryModel.Category.CreateFromParcel | app/src/main/java/com/rafdi/vitechasia/blog/models/Category.java:30-45 | a fresh category holding what the Parcel holds |
| CategoryModel.Category.WriteToParcel | app/src/main/java/com/rafdi/vitechasia/blog/models/Category.java:154-158 | the written Parcel decodes to this category |
| CategoryModel.Category.SetSubcategories | app/src/main/java/com/rafdi/vitechasia/blog/models/Category.java:68-70 | a null list becomes empty |
| CategoryModel.Category.AddSubcategory | app/src/main/java/com/rafdi/vitechasia/blog/models/Category.java:72-79 | appends non-null, non-blank names, duplicates included; anything else is ignored |
| CategoryModel.Category.HasSubcategories | app/src/main/java/com/rafdi/vitechasia/blog/models/Category.java:81-83 | true exactly when the list is non-empty |
| ArticleModel.WriteToParcel | app/src/main/java/com/rafdi/vitechasia/blog/models/Article.java:203-217 | nine strings, two ints, a 0/1 byte and the date or -1 |
| ArticleModel.ReadArticle | app/src/main/java/com/rafdi/vitechasia/blog/models/Article.java:55-71 | reads the slots in write order: a non-zero byte is true, -1 is a null date |
| ArticleModel.ParcelRoundTrip | app/src/main/java/com/rafdi/vitechasia/blog/models/Article.java:55-71 | reading what was written gives the article's Parcel view and stops right after it |
| ArticleModel.ParcelViewExact | app/src/main/java/com/rafdi/vitechasia/blog/models/Article.java:55-71 | an article survives exactly when its date is not -1 and its unparcelled fields hold defaults |
| ArticleModel.WriteToParcelInjective | app/src/main/java/com/rafdi/vitechasia/blog/models/Article.java:203-217 | articles differing in a parcelled field write different Parcels |
| ArticleModel.GetCategory | app/src/main/java/com/rafdi/vitechasia/blog/models/Article.java:118-120 | null exactly for a null category id, the display name otherwise |
| ArticleModel.SubcategoryDisplayName | app/src/main/java/com/rafdi/vitechasia/blog/models/Article.java:138-141 | null when either id is null, the subcategory id otherwise |
| ArticleModel.FormattedDate | app/src/main/java/com/rafdi/vitechasia/blog/models/Article.java:191-195 | "" for a null date |
| Formatter.FormatCategory | app/src/main/java/com/rafdi/vitechasia/blog/adapters/ArticleFormatter.java:14-26 | "" for null; otherwise the trimmed, lowercased id with its first letter upper-cased |
| Formatter.FormatCategoryIdempotent | app/src/main/java/com/rafdi/vitechasia/blog/adapters/ArticleFormatter.java:14-26 | formatting a formatted name changes nothing |
| Formatter.FormatAuthorName | app/src/main/java/com/rafdi/vitechasia/blog/adapters/ArticleFormatter.java:52-57 | "Unknown Author" for null or blank, the trimmed name otherwise |
| Formatter.FormatDate | app/src/main/java/com/rafdi/vitechasia/blog/adapters/ArticleFormatter.java:64-69 | "" exactly for null or blank, `Trim` of the text otherwise, and the result is its own trim |
| Formatter.TrimmedFormattersIdempotent | app/src/main/java/com/rafdi/vitechasia/blog/adapters/ArticleFormatter.java:52-69 | both formatters are idempotent |
| Formatter.ReadingTimeRoundTrip | app/src/main/java/com/rafdi/vitechasia/blog/adapters/ArticleFormatter.java:76-93 | every positive reading time is read back from its text, and "Quick read" reads as no time |
| Formatter.LastWordBreakUnique | app/src/main/java/com/rafdi/vitechasia/blog/adapters/ArticleFormatter.java:125-136 | the cut point is the last whitespace-preceded position within the limit, or 0 |
| Formatter.PreviewOfLong | app/src/main/java/com/rafdi/vitechasia/blog/adapters/ArticleFormatter.java:125-136 | a negative limit throws; otherwise the text up to the last word break within the limit (the limit itself when there is none), trimmed, plus "...", at most limit + 3 characters |
| Formatter.FormatContentPreview | app/src/main/java/com/rafdi/vitechasia/blog/adapters/ArticleFormatter.java:118-137 | "" for null, the text when it fits, its preview otherwise |
| Formatter.FormatTitleWrapsAtIntMin | app/src/main/java/com/rafdi/vitechasia/blog/adapters/ArticleFormatter.java:145-153 | with maxLength `Integer.MIN_VALUE` a title of `Integer.MAX_VALUE` characters is cut at `Integer.MAX_VALUE - 2` instead of throwing |
| Formatter.FormatTitle | app/src/main/java/com/rafdi/vitechasia/blog/adapters/ArticleFormatter.java:145-153 | "" for null; the title when it fits; for a longer title and maxLength >= 3 the first maxLength - 3 characters trimmed plus "...", at most maxLength characters; throws for 0 <= maxLength < 3, and for a negative maxLength unless `maxLength - 3` wraps past a title of nearly `Integer.MAX_VALUE` characters |
| Sharing.ContentExcerpt | app/src/main/java/com/rafdi/vitechasia/blog/utils/ShareUtils.java:170-174 | "null" for null; text over 150 characters is cut to 150 plus "..." |
| Sharing.CapitalizeFirst | app/src/main/java/com/rafdi/vitechasia/blog/utils/ShareUtils.java:220-225 | null and "" are unchanged; otherwise only the first character is upper-cased |
| Sharing.BuildShareText | app/src/main/java/com/rafdi/vitechasia/blog/utils/ShareUtils.java:165-191 | the builder appends title, excerpt, byline and branding in order |
| Sharing.ShareTextStart | app/src/main/java/com/rafdi/vitechasia/blog/utils/ShareUtils.java:165-191 | the text starts with the book sign, the title and a blank line, then the excerpt |
| Sharing.ShareTextEnd | app/src/main/java/com/rafdi/vitechasia/blog/utils/ShareUtils.java:186-188 | the text ends with the store link carrying the package name |
| Sharing.ShareTextNamesAuthor | app/src/main/java/com/rafdi/vitechasia/blog/utils/ShareUtils.java:177-182 | "By <author>" appears whenever the article has an author |
| Sharing.TweetText | app/src/main/java/com/rafdi/vitechasia/blog/utils/ShareUtils.java:118-120 | at most 280 characters; longer texts become their first 277 characters plus "..." |
| Sharing.TweetTextIdempotent | app/src/main/java/com/rafdi/vitechasia/blog/utils/ShareUtils.java:118-120 | cutting a cut text changes nothing |
| Sharing.ArticleLink | app/src/main/java/com/rafdi/vitechasia/blog/utils/ShareUtils.java:148-160 | the site URL followed by the id |
| Sharing.ArticleLinkInjective | app/src/main/java/com/rafdi/vitechasia/blog/utils/ShareUtils.java:148-160 | two articles get the same link exactly when their ids print the same |
| Sharing.SharedText | app/src/main/java/com/rafdi/vitechasia/blog/utils/ShareUtils.java:22-160 | every entry point is a no-op for a null context or article; otherwise it hands over the share text, the cut text for Twitter, or the link |
| Sharing.ShareMimeType | app/src/main/java/com/rafdi/vitechasia/blog/utils/ShareUtils.java:22-42 | an image when the article has a non-empty image URL, plain text otherwise |
| Catalog.ArticleCache.GetDummyArticles | app/src/main/java/com/rafdi/vitechasia/blog/utils/DataHandler.java:140-145 | the same contents on every call, built once |
| Catalog.Selected | app/src/main/java/com/rafdi/vitechasia/blog/utils/DataHandler.java:203-211 | the filter loop throws exactly when the argument is null and the list is non-empty |
| Catalog.ByCategoryExact | app/src/main/java/com/rafdi/vitechasia/blog/utils/DataHandler.java:203-211 | keeps, in order, exactly the articles whose category matches ignoring case |
| Catalog.BySubcategoryExact | app/src/main/java/com/rafdi/vitechasia/blog/utils/DataHandler.java:281-289 | the same for subcategories |
| Catalog.ByAuthorExact | app/src/main/java/com/rafdi/vitechasia/blog/utils/DataHandler.java:294-302 | the author filter is exact |
| Catalog.FilterLoop | app/src/main/java/com/rafdi/vitechasia/blog/utils/DataHandler.java:203-211 | the loop computes the filter |
| Catalog.TopBy | app/src/main/java/com/rafdi/vitechasia/blog/utils/DataHandler.java:309-335 | min(limit, n) articles, a sub-multiset of the input; a negative limit throws |
| Catalog.Newest | app/src/main/java/com/rafdi/vitechasia/blog/utils/DataHandler.java:331-335 | the sort throws exactly when an undated article takes part in a comparison |
| Catalog.MostViewedOrdered | app/src/main/java/com/rafdi/vitechasia/blog/utils/DataHandler.java:309-313 | non-increasing view counts, and nothing left out has more views than anything kept |
| Catalog.MostLikedOrdered | app/src/main/java/com/rafdi/vitechasia/blog/utils/DataHandler.java:320-324 | the same for likes |
| Catalog.NewestOrdered | app/src/main/java/com/rafdi/vitechasia/blog/utils/DataHandler.java:331-335 | newest first, and nothing left out is newer than anything kept |
| Catalog.GetMostViewedArticles | app/src/main/java/com/rafdi/vitechasia/blog/utils/DummyDataGenerator.java:121-125 | the method computes the most viewed articles |
| Catalog.SearchArticles | app/src/main/java/com/rafdi/vitechasia/blog/utils/DataHandler.java:343-361 | nothing for a null or blank query; matches in order otherwise |
| Catalog.SearchArticlesExact | app/src/main/java/com/rafdi/vitechasia/blog/utils/DataHandler.java:343-361 | exactly the articles whose lowercased title, content or author contains the trimmed, lowercased query |
| Catalog.SearchArticlesLoop | app/src/main/java/com/rafdi/vitechasia/blog/utils/DummyDataGenerator.java:152-170 | the loop computes the search |
| Catalog.AllCategories | app/src/main/java/com/rafdi/vitechasia/blog/utils/DataHandler.java:366-395 | six categories with their display names and subcategory lists |
| Catalog.SubcategoriesFor | app/src/main/java/com/rafdi/vitechasia/blog/utils/DataHandler.java:400-417 | a case-insensitive switch; an unknown name gives an empty list and a null one throws |
| Catalog.SubcategoriesAgree | app/src/main/java/com/rafdi/vitechasia/blog/utils/DataHandler.java:366-417 | the switch agrees with the table for every category |
| Catalog.SubcategoriesCaseInsensitive | app/src/main/java/com/rafdi/vitechasia/blog/utils/DummyDataGenerator.java:209-226 | the switch ignores case |
| Catalog.CreateArticle | app/src/main/java/com/rafdi/vitechasia/blog/utils/DummyDataGenerator.java:428-454 | throws exactly for a null author name; otherwise id, title, content, category, subcategory, author name, date and views as given, image URL from the image name, author image URL from the lower-cased, underscored author name, author id "author_" + id, likes views / 10 in Java division, bookmarked exactly for the five seeded ids, the other fields at their defaults |
| Catalog.JavaDivTenBounds | app/src/main/java/com/rafdi/vitechasia/blog/utils/DataHandler.java:737-757 | a tenth of an `int` is an `int` between 0 and the views, whatever their sign |
| Catalog.BookmarkedArticles | app/src/main/java/com/rafdi/vitechasia/blog/utils/DummyDataGenerator.java:54-66 | the synced articles whose flag is set, in order |
| Catalog.BookmarkedArticlesExact | app/src/main/java/com/rafdi/vitechasia/blog/utils/DummyDataGenerator.java:54-66 | an article is listed exactly when its id is in the stored set (or it has no id and was already flagged) |
| Catalog.PopularArticles | app/src/main/java/com/rafdi/vitechasia/blog/utils/DataHandler.java:622-647 | the received list sorted by views and cut to count; null reports an error |
| Catalog.LatestArticles | app/src/main/java/com/rafdi/vitechasia/blog/utils/DataHandler.java:655-680 | the received list sorted newest first and cut to count; null reports an error |
| Categories.CategoryDisplayName | app/src/main/java/com/rafdi/vitechasia/blog/utils/CategoryManager.java:77-88 | sports, tech and news map to their names; other ids map to themselves; null throws |
| Categories.DisplayNameFixedPoints | app/src/main/java/com/rafdi/vitechasia/blog/utils/CategoryManager.java:77-88 | only ids outside the table are their own display name |
| Categories.CategoryManager.constructor | app/src/main/java/com/rafdi/vitechasia/blog/utils/CategoryManager.java:31-52 | exactly the keys sports, tech and news, each with its three subcategories |
| Categories.CategoryManager.AllCategories | app/src/main/java/com/rafdi/vitechasia/blog/utils/CategoryManager.java:54-56 | exactly the categories of the map |
| Categories.CategoryManager.GetCategory | app/src/main/java/com/rafdi/vitechasia/blog/utils/CategoryManager.java:58-60 | null for a null or unknown id |
| Categories.CategoryManager.GetSubcategories | app/src/main/java/com/rafdi/vitechasia/blog/utils/CategoryManager.java:62-65 | an empty list for an unknown id |
| Categories.CategoryManager.ValidSubcategoryIff | app/src/main/java/com/rafdi/vitechasia/blog/utils/CategoryManager.java:67-74 | valid exactly when the category exists and its list holds the non-null name |
| SearchResults.MatchesSearchQuery | app/src/main/java/com/rafdi/vitechasia/blog/fragments/SearchResultsFragment.java:241-260 | false for a null article or query; otherwise a case-insensitive substring test on title, content or author, without trimming |
| SearchResults.MatchesAgreesWithCatalogSearch | app/src/main/java/com/rafdi/vitechasia/blog/fragments/SearchResultsFragment.java:241-260 | for an already trimmed, lowercase query it is the catalogue's search test |
| SearchResults.CollectMatches | app/src/main/java/com/rafdi/vitechasia/blog/fragments/SearchResultsFragment.java:211-221 | the loop keeps the matching articles in order; a null list gives none |
| SearchResults.TimeRangeMillis | app/src/main/java/com/rafdi/vitechasia/blog/fragments/SearchResultsFragment.java:530-544 | 24 hours, 7, 30 and 365 days in milliseconds, and `Long.MAX_VALUE` for all time |
| SearchResults.TimeRangesIncrease | app/src/main/java/com/rafdi/vitechasia/blog/fragments/SearchResultsFragment.java:530-544 | the ranges grow in that order |
| SearchResults.NoSelectionPassesAll | app/src/main/java/com/rafdi/vitechasia/blog/fragments/SearchResultsFragment.java:280-294 | with no category, no subcategory and all time, every article passes |
| SearchResults.RecentArticlePasses | app/src/main/java/com/rafdi/vitechasia/blog/fragments/SearchResultsFragment.java:280-294 | an article dated within the range passes the date test |
| SearchResults.SortResults | app/src/main/java/com/rafdi/vitechasia/blog/fragments/SearchResultsFragment.java:297-309 | a permutation; relevance keeps the match order |
| SearchResults.SortNewestOrdered | app/src/main/java/com/rafdi/vitechasia/blog/fragments/SearchResultsFragment.java:297-309 | over dated articles, newest first |
| SearchResults.SortOldestOrdered | app/src/main/java/com/rafdi/vitechasia/blog/fragments/SearchResultsFragment.java:297-309 | over dated articles, oldest first |
| SearchResults.SortPopularityOrdered | app/src/main/java/com/rafdi/vitechasia/blog/fragments/SearchResultsFragment.java:297-309 | non-increasing view counts |
| SearchResults.FilterResults | app/src/main/java/com/rafdi/vitechasia/blog/fragments/SearchResultsFragment.java:278-295 | the loop keeps exactly the passing articles, in order |
| SearchResults.ShownExact | app/src/main/java/com/rafdi/vitechasia/blog/fragments/SearchResultsFragment.java:262-325 | the sorted list holds exactly the passing articles |
| SearchResults.DisplayedAsWritten | app/src/main/java/com/rafdi/vitechasia/blog/fragments/SearchResultsFragment.java:262-325 | as written, the page shown is a page of the unfiltered results |
| SearchResults.PagerIgnoresFilters | app/src/main/java/com/rafdi/vitechasia/blog/fragments/SearchResultsFragment.java:262-325 | as written, an article the category filter rejects is still shown |
| SearchResults.Displayed | app/src/main/java/com/rafdi/vitechasia/blog/fragments/SearchResultsFragment.java:262-325 | the page shown is the first page of the filtered, sorted list |
| SearchResults.DisplayedRespectsFilters | app/src/main/java/com/rafdi/vitechasia/blog/fragments/SearchResultsFragment.java:262-325 | every shown article passes the filter, the page starts the sorted list, and no results shows exactly when nothing passes |
| SearchResults.DisplayedAsWrittenNoResults | app/src/main/java/com/rafdi/vitechasia/blog/fragments/SearchResultsFragment.java:262-325 | as written, the no-results message shows exactly when no result passes the filter |
| SearchResults.AsWrittenAgreesWithoutSelection | app/src/main/java/com/rafdi/vitechasia/blog/fragments/SearchResultsFragment.java:262-325 | with no selection, all time and relevance order, the screen as written and the corrected one show the same |
| SearchResults.SearchResultsScreen.ApplyFilters | app/src/main/java/com/rafdi/vitechasia/blog/fragments/SearchResultsFragment.java:262-325 | as written: shows `DisplayedAsWritten`, and for non-empty results leaves the pager on page 1 of the unfiltered `allSearchResults` |
| SearchResults.SearchResultsScreen.ApplyFiltersCorrected | app/src/main/java/com/rafdi/vitechasia/blog/fragments/SearchResultsFragment.java:262-325 | corrected: shows `Displayed` and leaves the pager on page 1 of the filtered, sorted list |
| SearchResults.SearchResultsScreen.LoadMore | app/src/main/java/com/rafdi/vitechasia/blog/fragments/SearchResultsFragment.java:660-666 | moves the pager (over all the matches after `ApplyFilters`) to its next page and shows that page alone, only when there is one |
| SearchResults.SearchResultsScreen.PerformSearch | app/src/main/java/com/rafdi/vitechasia/blog/fragments/SearchResultsFragment.java:192-239 | a null or blank query shows the history; otherwise the matches become the results and the screen shows `DisplayedAsWritten`, with the pager over all the matches |
| ApiService.InCategory | app/src/main/java/com/rafdi/vitechasia/blog/api/FakeArticleApiService.java:43-51 | all articles for a null or blank category; otherwise exactly the articles of that category, ignoring case |
| ApiService.PageSlice | app/src/main/java/com/rafdi/vitechasia/blog/api/FakeArticleApiService.java:57-64 | empty past the end; otherwise the slice from the start index, at most limit long; `subList` errors for negative or crossed bounds |
| ApiService.PageSliceSorted | app/src/main/java/com/rafdi/vitechasia/blog/api/FakeArticleApiService.java:54-64 | a page of a sorted list is sorted |
| ApiService.PageSliceIsPage | app/src/main/java/com/rafdi/vitechasia/blog/api/FakeArticleApiService.java:57-64 | without overflow the slice is the pager's page |
| ApiService.NegativeLimitThrows | app/src/main/java/com/rafdi/vitechasia/blog/api/FakeArticleApiService.java:57-64 | a negative limit on a non-empty list throws |
| ApiService.PageBelowOneThrows | app/src/main/java/com/rafdi/vitechasia/blog/api/FakeArticleApiService.java:57-64 | a page below one on a non-empty list throws |
| ApiService.ArticlesPage | app/src/main/java/com/rafdi/vitechasia/blog/api/FakeArticleApiService.java:39-69 | the date sort throws exactly when an undated article is among two or more; otherwise the page of the sorted category list |
| ApiService.ArticlesPageMembers | app/src/main/java/com/rafdi/vitechasia/blog/api/FakeArticleApiService.java:43-64 | every returned article belongs to the category |
| ApiService.ArticlesPageNewestFirst | app/src/main/java/com/rafdi/vitechasia/blog/api/FakeArticleApiService.java:54-64 | the returned page is newest first |
| ApiService.ArticlesPageIsPage | app/src/main/java/com/rafdi/vitechasia/blog/api/FakeArticleApiService.java:43-64 | without overflow, it is the pager's page of the sorted list |
| ApiService.GetArticles | app/src/main/java/com/rafdi/vitechasia/blog/api/FakeArticleApiService.java:30-71 | the callable computes `ArticlesPage`, or the simulated error |
| ApiService.ArticleById | app/src/main/java/com/rafdi/vitechasia/blog/api/FakeArticleApiService.java:83-92 | the first article with an equal id, or null; a null id throws |
| ApiService.ArticleByIdFirst | app/src/main/java/com/rafdi/vitechasia/blog/api/FakeArticleApiService.java:83-92 | the found article has the id and no earlier article does |
| ApiService.GetArticleById | app/src/main/java/com/rafdi/vitechasia/blog/api/FakeArticleApiService.java:74-94 | the callable computes `ArticleById`, or the simulated error |
| ApiService.ErrorBody | app/src/main/java/com/rafdi/vitechasia/blog/api/FakeArticleApiService.java:137-141 | the JSON error body holds the message between its fixed delimiters |
| ApiService.FakeCall.Execute | app/src/main/java/com/rafdi/vitechasia/blog/api/FakeArticleApiService.java:130-144 | marks the call executed; a result is a success, a throw becomes a 500 error response |
| ApiService.FakeCall.IsExecuted | app/src/main/java/com/rafdi/vitechasia/blog/api/FakeArticleApiService.java:160-162 | reports `execute` |
| ApiService.FakeCall.IsCanceled | app/src/main/java/com/rafdi/vitechasia/blog/api/FakeArticleApiService.java:170-172 | never canceled |
| ApiService.FakeCall.Clone | app/src/main/java/com/rafdi/vitechasia/blog/api/FakeArticleApiService.java:175-177 | a fresh, unexecuted call over the same callable |
| ApiServer.IntParam | app/src/main/java/com/rafdi/vitechasia/blog/api/FakeApiServer.java:206-225 | the parsed first value, or the default when absent or unparseable |
| ApiServer.IntParamOfDecimal | app/src/main/java/com/rafdi/vitechasia/blog/api/FakeApiServer.java:206-225 | a decimal parameter gives its value |
| ApiServer.ServerCategoryFilter | app/src/main/java/com/rafdi/vitechasia/blog/api/FakeApiServer.java:184-196 | all articles when absent, none when blank, the case-insensitive matches otherwise |
| ApiServer.ServerCategoryExact | app/src/main/java/com/rafdi/vitechasia/blog/api/FakeApiServer.java:184-196 | a present, non-blank category keeps exactly its articles |
| ApiServer.GetArticlesReply | app/src/main/java/com/rafdi/vitechasia/blog/api/FakeApiServer.java:167-247 | throws exactly when the limit is 0 (ArithmeticException) or the page cut throws; otherwise 200 with a sub-multiset of the filtered articles and exact pagination info |
| ApiServer.GetArticlesReplyIsPage | app/src/main/java/com/rafdi/vitechasia/blog/api/FakeApiServer.java:167-247 | for page >= 1 and limit >= 1 with an `int` product, the reply is that page of the filtered articles sorted newest first |
| ApiServer.DefaultListIsFirstPage | app/src/main/java/com/rafdi/vitechasia/blog/api/FakeApiServer.java:206-240 | without parameters the reply is the first 20 articles |
| ApiServer.ListNewestFirst | app/src/main/java/com/rafdi/vitechasia/blog/api/FakeApiServer.java:227-240 | over dated articles the reply is newest first |
| ApiServer.FilterByCategoryParam | app/src/main/java/com/rafdi/vitechasia/blog/api/FakeApiServer.java:184-196 | the loop computes the category filter |
| ApiServer.HandleGetArticles | app/src/main/java/com/rafdi/vitechasia/blog/api/FakeApiServer.java:167-247 | the handler computes `GetArticlesReply` |
| ApiServer.ByIdReply | app/src/main/java/com/rafdi/vitechasia/blog/api/FakeApiServer.java:249-277 | 400 for a null or blank id, 200 with the first match, 404 otherwise |
| ApiServer.ByIdAgreesWithService | app/src/main/java/com/rafdi/vitechasia/blog/api/FakeApiServer.java:249-277 | the server and the service find the same article |
| ApiServer.HandleGetArticleById | app/src/main/java/com/rafdi/vitechasia/blog/api/FakeApiServer.java:249-277 | the loop computes `ByIdReply` |
| ApiServer.SplitOnJoin | app/src/main/java/com/rafdi/vitechasia/blog/api/FakeApiServer.java:296-299 | joining the pieces with the separator gives the text back |
| ApiServer.JoinOnSplit | app/src/main/java/com/rafdi/vitechasia/blog/api/FakeApiServer.java:296-299 | splitting pieces joined by a separator none contains gives the pieces back |
| ApiServer.SplitOn | app/src/main/java/com/rafdi/vitechasia/blog/api/FakeApiServer.java:296-299 | at least one piece, and no piece contains the separator |
| ApiServer.ExtractArticleId | app/src/main/java/com/rafdi/vitechasia/blog/api/FakeApiServer.java:296-299 | the last non-trailing-empty segment of the path |
| ApiServer.ExtractFromSlashesThrows | app/src/main/java/com/rafdi/vitechasia/blog/api/FakeApiServer.java:296-299 | a path of only slashes throws |
| ApiServer.ExtractArticleIdOfPath | app/src/main/java/com/rafdi/vitechasia/blog/api/FakeApiServer.java:150-157 | the by-id path gives back its segment |
| ApiServer.RouteOf | app/src/main/java/com/rafdi/vitechasia/blog/api/FakeApiServer.java:145-162 | exactly the list path routes to the list, one more segment to by-id, anything else to 404 |
| ApiServer.RouteOfArticlePath | app/src/main/java/com/rafdi/vitechasia/blog/api/FakeApiServer.java:145-162 | a by-id path routes to its id |
| ApiServer.ArticlesRequestReply | app/src/main/java/com/rafdi/vitechasia/blog/api/FakeApiServer.java:145-162 | a thrown handler becomes 500 |
| ApiServer.ZeroLimitFails | app/src/main/java/com/rafdi/vitechasia/blog/api/FakeApiServer.java:206-240 | "limit=0" gives 500 |
| ApiServer.FakeApiServer.Stop | app/src/main/java/com/rafdi/vitechasia/blog/api/FakeApiServer.java:94-98 | the server is no longer running |
| ApiServer.FakeApiServer.Serve | app/src/main/java/com/rafdi/vitechasia/blog/api/FakeApiServer.java:113-143 | 503 when stopped, 200 for OPTIONS, 404 outside the articles path |
| ApiServer.ByIdStatuses | app/src/main/java/com/rafdi/vitechasia/blog/api/FakeApiServer.java:249-277 | the by-id reply is 200, 400 or 404 |
| ApiServer.ServerHost.StartServer | app/src/main/java/com/rafdi/vitechasia/blog/api/FakeApiServer.java:61-84 | true without restarting when running; false for ports outside 1024..65535 or a bind failure; otherwise a running server on the port |
| Session.WithSession | app/src/main/java/com/rafdi/vitechasia/blog/utils/SessionManager.java:25-33 | the flag is set and keys outside the session are untouched |
| Session.StoredUser | app/src/main/java/com/rafdi/vitechasia/blog/utils/SessionManager.java:35-48 | null when not logged in; otherwise the five stored strings |
| Session.LoginRoundTrip | app/src/main/java/com/rafdi/vitechasia/blog/utils/SessionManager.java:25-48 | after a login, the session is logged in and `getUser` returns the user, nulls as "" |
| Session.LoginRoundTripExact | app/src/main/java/com/rafdi/vitechasia/blog/utils/SessionManager.java:25-48 | a user without nulls comes back unchanged |
| Session.SessionManager.CreateLoginSession | app/src/main/java/com/rafdi/vitechasia/blog/utils/SessionManager.java:25-33 | the store becomes `WithSession` and is logged in |
| Session.SessionManager.IsLoggedIn | app/src/main/java/com/rafdi/vitechasia/blog/utils/SessionManager.java:50-52 | false when the flag is missing |
| Session.SessionManager.GetUser | app/src/main/java/com/rafdi/vitechasia/blog/utils/SessionManager.java:35-48 | `StoredUser`, null when not logged in |
| Session.SessionManager.LogoutUser | app/src/main/java/com/rafdi/vitechasia/blog/utils/SessionManager.java:54-57 | every key is cleared, so not logged in and no user |
| Forms.PasswordInvalidIffShort | app/src/main/java/com/rafdi/vitechasia/blog/activities/LoginActivity.java:62-70 | a password is rejected exactly when shorter than six characters |
| Login.ValidateLogin | app/src/main/java/com/rafdi/vitechasia/blog/activities/LoginActivity.java:58-86 | each failing field is reported; the email takes focus when it fails, else the password |
| Login.AttemptLogin | app/src/main/java/com/rafdi/vitechasia/blog/activities/LoginActivity.java:48-99 | trimmed input; a session only for the demo credentials after validation; otherwise the store is unchanged |
| Login.DemoCredentialsValid | app/src/main/java/com/rafdi/vitechasia/blog/activities/LoginActivity.java:89-90 | the demo credentials pass validation |
| Login.EntryScreen | app/src/main/java/com/rafdi/vitechasia/blog/activities/LoginActivity.java:33-37 | a logged-in user skips the form |
| Login.LoginSkipsFormAfterwards | app/src/main/java/com/rafdi/vitechasia/blog/activities/LoginActivity.java:33-99 | after the demo login the form is skipped |
| Signup.ValidateSignup | app/src/main/java/com/rafdi/vitechasia/blog/activities/SignupActivity.java:58-104 | every failing field is reported; focus is the first failing field in form order |
| Signup.AttemptSignup | app/src/main/java/com/rafdi/vitechasia/blog/activities/SignupActivity.java:48-117 | proceeds exactly when all four checks pass on trimmed input, then stores the entered name and email |
| Signup.SignupStoresNameAndEmail | app/src/main/java/com/rafdi/vitechasia/blog/activities/SignupActivity.java:109-117 | the signed-up user reads back with the entered name and email |
| Adapters.UpdatedList | app/src/main/java/com/rafdi/vitechasia/blog/adapters/BaseArticleAdapter.java:200-209 | only the first article with a matching id is replaced, and the length is kept; a null id reached first throws |
| Adapters.UpdateReplacesFirstMatch | app/src/main/java/com/rafdi/vitechasia/blog/adapters/BaseArticleAdapter.java:200-209 | when the articles up to the first one with the updated id have ids, the update lands at that index |
| Adapters.UpdateWithUnknownIdKeepsList | app/src/main/java/com/rafdi/vitechasia/blog/adapters/BaseArticleAdapter.java:200-209 | an unknown id changes nothing |
| Adapters.BaseArticleAdapter.SetArticles | app/src/main/java/com/rafdi/vitechasia/blog/adapters/BaseArticleAdapter.java:48-55 | null gives an empty list, anything else a copy |
| Adapters.BaseArticleAdapter.RemoveArticle | app/src/main/java/com/rafdi/vitechasia/blog/adapters/BaseArticleAdapter.java:189-195 | the first equal article is removed, the rest keep their order; absent or null changes nothing |
| Adapters.BaseArticleAdapter.UpdateArticle | app/src/main/java/com/rafdi/vitechasia/blog/adapters/BaseArticleAdapter.java:200-209 | a null update throws on a non-empty list; otherwise the loop computes `UpdatedList`; a throw leaves the list unchanged |
| Adapters.BaseArticleAdapter.ClearArticles | app/src/main/java/com/rafdi/vitechasia/blog/adapters/BaseArticleAdapter.java:214-218 | the list is empty |
| Adapters.BaseArticleAdapter.GetArticles | app/src/main/java/com/rafdi/vitechasia/blog/adapters/BaseArticleAdapter.java:223-225 | a copy of the list |
| Adapters.BaseArticleAdapter.GetArticle | app/src/main/java/com/rafdi/vitechasia/blog/adapters/BaseArticleAdapter.java:230-235 | the article at the position, null outside 0..size-1 |
| Adapters.BaseArticleAdapter.ItemCount | app/src/main/java/com/rafdi/vitechasia/blog/adapters/BaseArticleAdapter.java:238-240 | the list's size |

## Left out

- The Android layer: views, Glide, chips, dialogs, toasts, intents, RecyclerView notifications and fragment transactions.
- Also the Android layer: `bindArticleData` and the other binding helpers of `BaseArticleAdapter`.
- Threads: `FakeCall.enqueue`, the `wait`/`notify` of `Category.getArticlesForSubcategorySync`, and the synchronized singletons.
- The observer-based fetches of `DataHandler`.
- I/O and time are parameters. `System.currentTimeMillis` becomes `now`, the random error draw becomes a boolean, and the HTTP bind failure becomes `bindFails`.
- The network delays are left out.
- Gson: the search history is stored as the list itself.
- `Patterns.EMAIL_ADDRESS` is the parameter `isEmail`.
- `SimpleDateFormat` is a function parameter of `ArticleModel.FormattedDate`.
- Floating point: `formatViewCount` and `getCompletionRate`.
- `Math.ceil` of a double is integer ceiling division.
- Strings are sequences of Unicode scalar values, not UTF-16 units, so lengths of texts with emoji differ.
- Case conversion covers ASCII letters only.
- JDK exception messages are represented by the exception's class name.
- Java object identity: `Article` is a value. `removeArticle` uses `indexOf` with the default `Object.equals`, i.e. reference equality; the model compares values, which differ only when two equal articles are distinct objects.
- Aliasing between a caller's list and the copies the classes take is not modelled; every copy is a value.
- Lists never hold null elements.
- Filters.SearchFilters.HashCode: the enum constants' identity hashes are parameters.
- Sequences.SortBy: `List.sort` in place is modelled as a value-returning stable insertion sort. Java's TimSort agrees with it only for comparators that are total preorders. The date comparators treat an undated article as equal to everything, so they are not transitive, and on lists mixing dated and undated articles the two sorts can order differently (e.g. dates 2020, 2022, undated, 2021 newest first). The generated fixtures all carry dates.
- ParseInt: accepts ASCII digits only. Java's `Character.digit` also accepts the other Unicode decimal digits (for instance "٢"), which `Integer.parseInt` would parse and the model rejects.
- SearchResults.SortNewestOrdered: ordering is proved only for dated articles, because the null-tolerant comparators are not transitive.
- SearchResults.SortOldestOrdered: the same restriction as `SortNewestOrdered`.
- ApiService.ArticlesPage: ordering is proved only when no undated article takes part.
- The fixture literals of the dummy generators (titles, URLs and texts) are left out; `CreateArticle` models how they are combined.
- The SearchResultsFragment error path (`onError` and the `catch` in `performSearch`, lines 225-237), which shows the no-results message, is left out.
- Compile errors in the source:
  - `FakeApiServer.java:85` lacks a closing brace.
  - The handlers at `FakeApiServer.java:151,154` are called with one argument but declared with two; the session argument is ignored.
  - Login and sign-up call a four-argument `User` constructor that `User.java` lacks; the model gives those users a null bio.
  - `Article` lacks the social and reading fields that the managers call (`setLikedByUser`, `setShareCount` and others); they are plain fields of `ArticleModel.Article`.
- `SharedPreferences.apply` is modelled as an immediate write.
- The `try`/`catch` around sign-up's session creation: nothing in the model throws there.
- `ThemeManager`, `User.java` beyond its fields, `ApiTestUtils`, `FakeApiTestActivity` and the Retrofit and repository plumbing are not part of this model.

## Findings

| source | as written | input that shows it | evidently intended | confidence | as-written member | corrected member |
|---|---|---|---|---|---|---|
| app/src/main/java/com/rafdi/vitechasia/blog/utils/ReadingProgressManager.java:137-153 | every key ending in "_progress" is read with `getInt`, and the boolean "_in_progress" flag also ends that way | any `saveReadingProgress` call, then `getReadingStats` | count only the integer progress entries | not executed | ReadingProgress.StatsAsWrittenThrowAfterSave | ReadingProgress.ReadingProgressManager.GetReadingStats |
| app/src/main/java/com/rafdi/vitechasia/blog/fragments/SearchResultsFragment.java:262-325 | `applyFilters` filters and sorts into a list, then builds the pager over the unfiltered `allSearchResults` | results [tech article, health article] with category "health" selected: the tech article is still shown | page the filtered, sorted list | not executed | SearchResults.PagerIgnoresFilters | SearchResults.SearchResultsScreen.ApplyFiltersCorrected |
