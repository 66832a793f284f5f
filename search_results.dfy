/**
 * The search core of `fragments/SearchResultsFragment.java`: the match test,
 * the category / subcategory / date-range filter, the sort, and what the
 * screen shows after `applyFilters`. The clock is a parameter. The
 * fragment's private `SortBy` and `DateRange` enums have the same constants
 * as those of the filter model and are represented by them.
 */
module SearchResults {
  import opened JavaLang
  import opened Sequences
  import opened ArticleModel
  import opened Filters
  import opened Pagination
  import Catalog

  const ITEMS_PER_PAGE: nat := 10

  const DAY_MILLIS: int := 24 * 60 * 60 * 1000

  // ---------------------------------------------------------------- matching

  /**
   * `matchesSearchQuery`: false for a null article or query; otherwise the
   * lowercased title, content or author name contains the lowercased query,
   * which is not trimmed.
   */
  predicate MatchesSearchQuery(article: Option<Article>, query: Option<string>)
    ensures MatchesSearchQuery(article, query) ==> article.Some? && query.Some?
  {
    article.Some? && query.Some? && Catalog.SearchTest(ToLower(query.value))(article.value)
  }

  function MatchTest(query: string): Article -> bool
  {
    (a: Article) => MatchesSearchQuery(Some(a), Some(query))
  }

  /**
   * For a query with nothing to trim, the fragment's test and the data
   * layer's `searchArticles` select the same articles; the fragment differs
   * only in not trimming the query.
   */
  lemma MatchesAgreesWithCatalogSearch(a: Article, query: string)
    requires !IsBlank(query) && Trim(ToLower(query)) == ToLower(query)
    ensures MatchesSearchQuery(Some(a), Some(query)) <==> a in Catalog.SearchArticles([a], Some(query))
  {
    Catalog.SearchArticlesExact([a], query);
  }

  /** The `performSearch` loop: the received articles that match, in order. */
  method CollectMatches(articles: Option<seq<Article>>, query: string) returns (results: seq<Article>)
    ensures results == Filter(articles.GetOr([]), MatchTest(query))
  {
    results := [];
    if articles.None? {
      return;
    }
    var list := articles.value;
    for i := 0 to |list|
      invariant results == Filter(list[..i], MatchTest(query))
    {
      FilterStep(list, i, MatchTest(query));
      if MatchesSearchQuery(Some(list[i]), Some(query)) {
        results := results + [list[i]];
      }
    }
    assert list[..|list|] == list;
  }

  // ---------------------------------------------------------------- filtering

  /** `getTimeRangeInMillis`: the length of each range in milliseconds; all time is `Long.MAX_VALUE`. */
  function TimeRangeMillis(range: DateRange): (millis: Int64)
    ensures range == Last24Hours ==> millis == DAY_MILLIS
    ensures range == LastWeek ==> millis == 7 * DAY_MILLIS
    ensures range == LastMonth ==> millis == 30 * DAY_MILLIS
    ensures range == LastYear ==> millis == 365 * DAY_MILLIS
    ensures range == AllTime ==> millis == LONG_MAX
  {
    match range
    case Last24Hours => 86_400_000
    case LastWeek => 604_800_000
    case LastMonth => 2_592_000_000
    case LastYear => 31_536_000_000
    case AllTime => 0x7FFF_FFFF_FFFF_FFFF
  }

  /** The ranges grow strictly from a day to a year, so a shorter range admits no more articles than a longer one. */
  lemma TimeRangesIncrease()
    ensures TimeRangeMillis(Last24Hours) < TimeRangeMillis(LastWeek) < TimeRangeMillis(LastMonth)
      < TimeRangeMillis(LastYear) < TimeRangeMillis(AllTime)
  {
  }

  /**
   * The `applyFilters` test at time `now`: the category and subcategory match
   * ignoring case when one is selected, and the article was published at most
   * the range ago (a `long` difference) unless the range is all time.
   */
  predicate Passes(a: Article, category: Option<string>, subcategory: Option<string>, range: DateRange, now: Int64)
  {
    (category.None? || EqualsIgnoreCase(category.value, a.categoryId))
    && (subcategory.None? || EqualsIgnoreCase(subcategory.value, a.subcategoryId))
    && (range == AllTime || (a.publishDate.Some? && Wrap64(now - a.publishDate.value) <= TimeRangeMillis(range)))
  }

  function PassTest(category: Option<string>, subcategory: Option<string>, range: DateRange, now: Int64): Article -> bool
  {
    (a: Article) => Passes(a, category, subcategory, range, now)
  }

  /** With nothing selected and all time, every article passes. */
  lemma NoSelectionPassesAll(a: Article, now: Int64)
    ensures Passes(a, None, None, AllTime, now)
  {
  }

  /** An article with a later date than `now` minus the range passes the date test (without wrap-around). */
  lemma RecentArticlePasses(a: Article, range: DateRange, now: Int64)
    requires a.publishDate.Some? && LONG_MIN <= now - a.publishDate.value
    requires now - a.publishDate.value <= TimeRangeMillis(range)
    ensures Passes(a, None, None, range, now)
  {
  }

  // ---------------------------------------------------------------- sorting

  /** The date-newest comparator: undated articles compare equal to everything. */
  predicate NewestFirst(x: Article, y: Article)
  {
    x.publishDate.None? || y.publishDate.None? || y.publishDate.value <= x.publishDate.value
  }

  /** The date-oldest comparator: undated articles compare equal to everything. */
  predicate OldestFirst(x: Article, y: Article)
  {
    x.publishDate.None? || y.publishDate.None? || x.publishDate.value <= y.publishDate.value
  }

  /** The sort step of `applyFilters`; relevance keeps the match order. */
  function SortResults(filtered: seq<Article>, sortBy: SortBy): (r: seq<Article>)
    ensures multiset(r) == multiset(filtered) && |r| == |filtered|
    ensures sortBy == Relevance ==> r == filtered
  {
    match sortBy
    case DateNewest => Sequences.SortBy(filtered, NewestFirst)
    case DateOldest => Sequences.SortBy(filtered, OldestFirst)
    case Popularity => Sequences.SortBy(filtered, Catalog.MoreViewed)
    case Relevance => filtered
  }

  predicate AllDated(s: seq<Article>)
  {
    forall i :: 0 <= i < |s| ==> s[i].publishDate.Some?
  }

  lemma NewestFirstPreorder(s: seq<Article>)
    requires AllDated(s)
    ensures TotalPreorderOn(s, NewestFirst)
  {
    forall x | x in s ensures x.publishDate.Some? {
      var i :| 0 <= i < |s| && s[i] == x;
    }
  }

  lemma OldestFirstPreorder(s: seq<Article>)
    requires AllDated(s)
    ensures TotalPreorderOn(s, OldestFirst)
  {
    forall x | x in s ensures x.publishDate.Some? {
      var i :| 0 <= i < |s| && s[i] == x;
    }
  }

  lemma AllDatedPermutation(s: seq<Article>, t: seq<Article>)
    requires AllDated(s) && multiset(t) <= multiset(s)
    ensures AllDated(t)
  {
    forall i | 0 <= i < |t| ensures t[i].publishDate.Some? {
      assert t[i] in multiset(s);
      var j :| 0 <= j < |s| && s[j] == t[i];
    }
  }

  /** Dated articles in newest-first order have non-increasing dates. */
  lemma NewestFirstDates(s: seq<Article>)
    requires AllDated(s) && SortedBy(s, NewestFirst)
    ensures forall i, j :: 0 <= i < j < |s| ==> s[j].publishDate.value <= s[i].publishDate.value
  {
    forall i, j | 0 <= i < j < |s| ensures s[j].publishDate.value <= s[i].publishDate.value {
      assert NewestFirst(s[i], s[j]);
    }
  }

  /** With every article dated, newest-first sorting gives non-increasing dates. */
  lemma SortNewestOrdered(filtered: seq<Article>)
    requires AllDated(filtered)
    ensures AllDated(SortResults(filtered, DateNewest))
    ensures forall i, j :: 0 <= i < j < |SortResults(filtered, DateNewest)| ==>
      SortResults(filtered, DateNewest)[j].publishDate.value <= SortResults(filtered, DateNewest)[i].publishDate.value
  {
    var r := SortResults(filtered, DateNewest);
    NewestFirstPreorder(filtered);
    SortBySorted(filtered, NewestFirst);
    AllDatedPermutation(filtered, r);
    forall i, j | 0 <= i < j < |r| ensures r[j].publishDate.value <= r[i].publishDate.value {
      assert NewestFirst(r[i], r[j]);
    }
  }

  /** With every article dated, oldest-first sorting gives non-decreasing dates. */
  lemma SortOldestOrdered(filtered: seq<Article>)
    requires AllDated(filtered)
    ensures AllDated(SortResults(filtered, DateOldest))
    ensures forall i, j :: 0 <= i < j < |SortResults(filtered, DateOldest)| ==>
      SortResults(filtered, DateOldest)[i].publishDate.value <= SortResults(filtered, DateOldest)[j].publishDate.value
  {
    var r := SortResults(filtered, DateOldest);
    OldestFirstPreorder(filtered);
    SortBySorted(filtered, OldestFirst);
    AllDatedPermutation(filtered, r);
    forall i, j | 0 <= i < j < |r| ensures r[i].publishDate.value <= r[j].publishDate.value {
      assert OldestFirst(r[i], r[j]);
    }
  }

  /** Popularity sorting gives non-increasing view counts. */
  lemma SortPopularityOrdered(filtered: seq<Article>)
    ensures forall i, j :: 0 <= i < j < |SortResults(filtered, Popularity)| ==>
      SortResults(filtered, Popularity)[j].viewCount <= SortResults(filtered, Popularity)[i].viewCount
  {
    var r := SortResults(filtered, Popularity);
    Catalog.MoreViewedPreorder(filtered);
    SortBySorted(filtered, Catalog.MoreViewed);
    forall i, j | 0 <= i < j < |r| ensures r[j].viewCount <= r[i].viewCount {
      assert Catalog.MoreViewed(r[i], r[j]);
    }
  }

  // ---------------------------------------------------------------- the screen

  /** The `applyFilters` loop: the results that pass the filter, in order. */
  method FilterResults(all: seq<Article>, category: Option<string>, subcategory: Option<string>,
                       range: DateRange, now: Int64) returns (filtered: seq<Article>)
    ensures filtered == Filter(all, PassTest(category, subcategory, range, now))
  {
    var test := PassTest(category, subcategory, range, now);
    filtered := [];
    for i := 0 to |all|
      invariant filtered == Filter(all[..i], test)
    {
      FilterStep(all, i, test);
      if Passes(all[i], category, subcategory, range, now) {
        filtered := filtered + [all[i]];
      }
    }
    assert all[..|all|] == all;
  }

  /** What the screen shows: the search history, the no-results message, or a page of results and whether "load more" is visible. */
  datatype View = History | NoResults | Results(page: seq<Article>, loadMore: bool)

  /** The articles the filter lets through, sorted as selected. */
  function Shown(all: seq<Article>, category: Option<string>, subcategory: Option<string>,
                 sortBy: SortBy, range: DateRange, now: Int64): seq<Article>
  {
    SortResults(Filter(all, PassTest(category, subcategory, range, now)), sortBy)
  }

  /** An article is shown exactly when it is a search result that passes the filter. */
  lemma ShownExact(all: seq<Article>, category: Option<string>, subcategory: Option<string>,
                   sortBy: SortBy, range: DateRange, now: Int64)
    ensures forall a :: a in Shown(all, category, subcategory, sortBy, range, now) <==>
      a in all && Passes(a, category, subcategory, range, now)
  {
    var f := Filter(all, PassTest(category, subcategory, range, now));
    var r := Shown(all, category, subcategory, sortBy, range, now);
    FilterMembers(all, PassTest(category, subcategory, range, now));
    forall a | a in r ensures a in f {
      assert a in multiset(r);
    }
    forall a | a in f ensures a in r {
      assert a in multiset(f);
    }
  }

  /**
   * `applyFilters` as written: the pager is given the unfiltered
   * `allSearchResults`, so the page shown is the first page of all the
   * matches; the filtered, sorted list only decides between that page and
   * the no-results message.
   */
  function DisplayedAsWritten(all: seq<Article>, category: Option<string>, subcategory: Option<string>,
                              sortBy: SortBy, range: DateRange, now: Int64): (v: View)
    ensures v != History
    ensures v.Results? ==> v.page == Page(all, ITEMS_PER_PAGE, 1)
  {
    if all == [] then NoResults
    else if Shown(all, category, subcategory, sortBy, range, now) == [] then NoResults
    else Results(Page(all, ITEMS_PER_PAGE, 1), ITEMS_PER_PAGE < |all|)
  }

  /** A technology article and a health article, both matching a search. */
  function TechArticle(): Article
  {
    NewArticle(Some("t1"), Some("Phones"), None, None, Some("tech"), None, None, None, None, Some(0), 5, 0)
  }

  function HealthArticle(): Article
  {
    NewArticle(Some("h1"), Some("Phones and sleep"), None, None, Some("health"), None, None, None, None, Some(0), 9, 0)
  }

  lemma HealthFilterSplits()
    ensures !Passes(TechArticle(), Some("health"), None, AllTime, 0)
    ensures Passes(HealthArticle(), Some("health"), None, AllTime, 0)
  {
    assert |ToLower("health")| != |ToLower("tech")|;
  }

  /**
   * With the health category selected, the page shown as written still holds
   * the technology article, which the filter rejects.
   */
  lemma PagerIgnoresFilters()
    ensures !Passes(TechArticle(), Some("health"), None, AllTime, 0)
    ensures DisplayedAsWritten([TechArticle(), HealthArticle()], Some("health"), None, Relevance, AllTime, 0)
      == Results([TechArticle(), HealthArticle()], false)
  {
    var all := [TechArticle(), HealthArticle()];
    HealthFilterSplits();
    var test := PassTest(Some("health"), None, AllTime, 0);
    assert test(all[1]);
    assert all[1] in Filter(all, test);
    assert Shown(all, Some("health"), None, Relevance, AllTime, 0) != [];
    assert Page(all, ITEMS_PER_PAGE, 1) == all[0..2] == all;
  }

  /**
   * `applyFilters` with the pager built over the filtered, sorted list: the
   * page shown is its first page, and "load more" shows when more than a
   * page passes the filter.
   */
  function Displayed(all: seq<Article>, category: Option<string>, subcategory: Option<string>,
                     sortBy: SortBy, range: DateRange, now: Int64): (v: View)
    ensures v != History
    ensures v.Results? ==> v.page == Page(Shown(all, category, subcategory, sortBy, range, now), ITEMS_PER_PAGE, 1)
  {
    var shown := Shown(all, category, subcategory, sortBy, range, now);
    if all == [] || shown == [] then NoResults
    else Results(Page(shown, ITEMS_PER_PAGE, 1), ITEMS_PER_PAGE < |shown|)
  }

  /**
   * Every article on the page shown passes the filter, the page is the
   * start of the sorted filtered list, and an empty filtered list shows the
   * no-results message.
   */
  lemma DisplayedRespectsFilters(all: seq<Article>, category: Option<string>, subcategory: Option<string>,
                                 sortBy: SortBy, range: DateRange, now: Int64)
    ensures Displayed(all, category, subcategory, sortBy, range, now).Results? ==>
      (forall a :: a in Displayed(all, category, subcategory, sortBy, range, now).page ==>
        a in all && Passes(a, category, subcategory, range, now))
      && Displayed(all, category, subcategory, sortBy, range, now).page
         <= Shown(all, category, subcategory, sortBy, range, now)
    ensures Displayed(all, category, subcategory, sortBy, range, now) == NoResults <==>
      forall a :: a in all ==> !Passes(a, category, subcategory, range, now)
  {
    var shown := Shown(all, category, subcategory, sortBy, range, now);
    ShownExact(all, category, subcategory, sortBy, range, now);
    if shown != [] {
      FirstPageMembers(shown);
      assert shown[0] in shown;
    }
  }

  /** The first page is a prefix of the list, so it holds only list members. */
  lemma FirstPageMembers(shown: seq<Article>)
    ensures Page(shown, ITEMS_PER_PAGE, 1) <= shown
    ensures forall a :: a in Page(shown, ITEMS_PER_PAGE, 1) ==> a in shown
  {
    var page := Page(shown, ITEMS_PER_PAGE, 1);
    assert page == shown[..|page|];
    forall a | a in page ensures a in shown {
      var k :| 0 <= k < |page| && page[k] == a;
      assert shown[k] == a;
    }
  }

  /** As written, the no-results message shows exactly when no search result passes the filter. */
  lemma DisplayedAsWrittenNoResults(all: seq<Article>, category: Option<string>, subcategory: Option<string>,
                                    sortBy: SortBy, range: DateRange, now: Int64)
    ensures DisplayedAsWritten(all, category, subcategory, sortBy, range, now) == NoResults <==>
      forall a :: a in all ==> !Passes(a, category, subcategory, range, now)
  {
    var shown := Shown(all, category, subcategory, sortBy, range, now);
    ShownExact(all, category, subcategory, sortBy, range, now);
    if shown != [] {
      assert shown[0] in shown;
    }
  }

  /**
   * With no category, no subcategory, all time and relevance order, every
   * search result passes, and the screen as written shows what the
   * corrected screen shows.
   */
  lemma AsWrittenAgreesWithoutSelection(all: seq<Article>, now: Int64)
    ensures DisplayedAsWritten(all, None, None, Relevance, AllTime, now) == Displayed(all, None, None, Relevance, AllTime, now)
  {
    FilterAll(all, PassTest(None, None, AllTime, now));
  }

  /**
   * The search screen's state: the matches of the last search, the
   * selections of the filter dialog, and the pager.
   */
  class SearchResultsScreen {
    var allSearchResults: seq<Article>
    var selectedCategory: Option<string>
    var selectedSubcategory: Option<string>
    var currentSortBy: SortBy
    var currentDateRange: DateRange
    var pager: PaginationUtils?<Article>

    ghost predicate Valid()
      reads this, pager
    {
      |allSearchResults| <= INT_MAX
      && (pager != null ==> pager.Valid() && pager.itemsPerPage == ITEMS_PER_PAGE)
    }

    /** A new screen: no results, no selection, relevance order, all time, no pager yet. */
    constructor ()
      ensures Valid() && allSearchResults == [] && pager == null
      ensures selectedCategory.None? && selectedSubcategory.None?
      ensures currentSortBy == Relevance && currentDateRange == AllTime
    {
      allSearchResults := [];
      selectedCategory := None;
      selectedSubcategory := None;
      currentSortBy := Relevance;
      currentDateRange := AllTime;
      pager := null;
    }

    /**
     * `applyFilters` at time `now`, as written: an empty result list shows
     * the no-results message and leaves the pager alone; otherwise the pager
     * is reset over the unfiltered `allSearchResults`, the results are
     * filtered and sorted, and an empty filtered list shows the no-results
     * message while any other shows the pager's first page of all the
     * matches. Nothing but the pager changes.
     */
    method ApplyFilters(now: Int64) returns (view: View)
      requires Valid()
      modifies this, pager
      ensures Valid()
      ensures view == DisplayedAsWritten(allSearchResults, selectedCategory, selectedSubcategory, currentSortBy, currentDateRange, now)
      ensures allSearchResults == old(allSearchResults) && selectedCategory == old(selectedCategory)
      ensures selectedSubcategory == old(selectedSubcategory)
      ensures currentSortBy == old(currentSortBy) && currentDateRange == old(currentDateRange)
      ensures allSearchResults == [] ==> pager == old(pager) && (pager != null ==> unchanged(pager))
      ensures allSearchResults != [] ==>
        pager != null && pager.currentPage == 1 && pager.fullList == allSearchResults
    {
      if allSearchResults == [] {
        return NoResults;
      }
      ResetPager(allSearchResults);
      var filtered := FilterResults(allSearchResults, selectedCategory, selectedSubcategory, currentDateRange, now);
      var shown := SortResults(filtered, currentSortBy);
      assert shown == Shown(allSearchResults, selectedCategory, selectedSubcategory, currentSortBy, currentDateRange, now);
      if shown == [] {
        return NoResults;
      }
      var page := pager.CurrentPageItems();
      var more := pager.HasNextPage();
      view := Results(page, more);
    }

    /**
     * `applyFilters` with the pager built over the filtered, sorted list
     * instead: the view is the corrected `Displayed`, and the pager holds
     * exactly the articles shown.
     */
    method ApplyFiltersCorrected(now: Int64) returns (view: View)
      requires Valid()
      modifies this, pager
      ensures Valid()
      ensures view == Displayed(allSearchResults, selectedCategory, selectedSubcategory, currentSortBy, currentDateRange, now)
      ensures allSearchResults == old(allSearchResults) && selectedCategory == old(selectedCategory)
      ensures selectedSubcategory == old(selectedSubcategory)
      ensures currentSortBy == old(currentSortBy) && currentDateRange == old(currentDateRange)
      ensures allSearchResults != [] ==>
        (pager != null && pager.currentPage == 1
         && pager.fullList == Shown(allSearchResults, selectedCategory, selectedSubcategory, currentSortBy, currentDateRange, now))
    {
      if allSearchResults == [] {
        return NoResults;
      }
      var filtered := FilterResults(allSearchResults, selectedCategory, selectedSubcategory, currentDateRange, now);
      var shown := SortResults(filtered, currentSortBy);
      assert shown == Shown(allSearchResults, selectedCategory, selectedSubcategory, currentSortBy, currentDateRange, now);
      assert |shown| <= INT_MAX by {
        assert |shown| == |filtered| <= |allSearchResults|;
      }
      ResetPager(shown);
      if shown == [] {
        return NoResults;
      }
      var page := pager.CurrentPageItems();
      var more := pager.HasNextPage();
      view := Results(page, more);
    }

    /** The pager part of `applyFilters`: a new pager, or `updateData` on the existing one, over `shown`. */
    method ResetPager(shown: seq<Article>)
      requires Valid() && |shown| <= INT_MAX
      modifies this, pager
      ensures Valid() && pager != null && pager.fullList == shown && pager.currentPage == 1
      ensures pager == old(pager) || fresh(pager)
      ensures allSearchResults == old(allSearchResults) && selectedCategory == old(selectedCategory)
      ensures selectedSubcategory == old(selectedSubcategory)
      ensures currentSortBy == old(currentSortBy) && currentDateRange == old(currentDateRange)
    {
      if pager == null {
        pager := new PaginationUtils(Some(shown), ITEMS_PER_PAGE as Int32);
      } else {
        pager.UpdateData(Some(shown));
      }
    }

    /**
     * `loadNextPage` behind the "load more" button: when the pager has a next
     * page it moves there and the screen shows that page (the page alone,
     * not the pages before it); otherwise nothing happens. After
     * `ApplyFilters` the pager runs over all the matches, filtered or not.
     */
    method LoadMore() returns (view: Option<View>)
      requires Valid()
      modifies pager
      ensures Valid()
      ensures pager == null || !old(pager.HasNextPage()) ==> view.None?
      ensures pager != null && old(pager.HasNextPage()) ==>
        && pager.currentPage == old(pager.currentPage) + 1 && pager.fullList == old(pager.fullList)
        && (pager.currentPage * ITEMS_PER_PAGE <= INT_MAX ==>
              view == Some(Results(Page(pager.fullList, ITEMS_PER_PAGE, pager.currentPage), pager.HasNextPage())))
    {
      if pager == null || !pager.HasNextPage() {
        return None;
      }
      var _ := pager.LoadNextPage();
      var page := pager.CurrentPageItems();
      view := Some(Results(page, pager.HasNextPage()));
    }

    /**
     * `performSearch` at time `now`: a null or blank query shows the history;
     * otherwise the matches of the received articles (none for a null list)
     * become the results, and the filters are applied.
     */
    method PerformSearch(query: Option<string>, articles: Option<seq<Article>>, now: Int64) returns (view: View)
      requires Valid()
      requires articles.Some? ==> |articles.value| <= INT_MAX
      modifies this, pager
      ensures Valid()
      ensures query.None? || IsBlank(query.value) ==> view == History && allSearchResults == old(allSearchResults)
      ensures query.Some? && !IsBlank(query.value) ==>
        && allSearchResults == Filter(articles.GetOr([]), MatchTest(query.value))
        && view == DisplayedAsWritten(allSearchResults, selectedCategory, selectedSubcategory, currentSortBy, currentDateRange, now)
        && (allSearchResults != [] ==> pager != null && pager.currentPage == 1 && pager.fullList == allSearchResults)
    {
      if query.None? || IsBlank(query.value) {
        return History;
      }
      allSearchResults := CollectMatches(articles, query.value);
      view := ApplyFilters(now);
    }
  }
}
