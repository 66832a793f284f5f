/**
 * The offline stand-in for the article API in `api/FakeArticleApiService.java`:
 * a page of articles of one category, newest first, and a lookup by id,
 * each wrapped in a call object that runs once per `execute`. The article
 * list the service reads is a parameter, and so is the simulated failure
 * the random generator decides; the delay is not modelled.
 */
module ApiService {
  import opened JavaLang
  import opened Sequences
  import opened ArticleModel
  import Pagination
  import Catalog

  const SIMULATED_ERROR: string := "Simulated network error"
  const INDEX_OUT_OF_BOUNDS: string := "IndexOutOfBoundsException"
  const INTERNAL_ERROR: int := 500

  // ---------------------------------------------------------------- getArticles

  /** The category step: a null or blank category keeps every article, any other those whose category matches it ignoring case. */
  function InCategory(articles: seq<Article>, category: Option<string>): (r: seq<Article>)
    ensures category.None? || IsBlank(category.value) ==> r == articles
    ensures category.Some? && !IsBlank(category.value) ==>
      forall a :: a in r <==> a in articles && EqualsIgnoreCase(category.value, a.categoryId)
    ensures multiset(r) <= multiset(articles)
  {
    if category.None? || IsBlank(category.value) then articles
    else
      FilterMembers(articles, Catalog.CategoryTest(category.value));
      FilterMultiset(articles, Catalog.CategoryTest(category.value));
      Filter(articles, Catalog.CategoryTest(category.value))
  }

  /** The first index of a page, `(page - 1) * limit`, in `int` arithmetic. */
  function StartIndex(page: Int32, limit: Int32): Int32
  {
    Wrap32(Wrap32(page - 1) * limit)
  }

  /**
   * `subList(start, Math.min(start + limit, size))` with the start computed
   * as above: empty when the start is at or past the end; otherwise a
   * negative start is an IndexOutOfBoundsException and an end before the
   * start an IllegalArgumentException.
   */
  function PageSlice(list: seq<Article>, page: Int32, limit: Int32): (r: Result<seq<Article>>)
    ensures r.Thrown? ==> r.exception == INDEX_OUT_OF_BOUNDS || r.exception == ILLEGAL_ARGUMENT
    ensures r.Ok? ==> |r.value| <= |list| && multiset(r.value) <= multiset(list)
    ensures limit == 0 ==> r == Ok([])
    ensures r.Ok? && r.value != [] ==>
      1 <= |r.value| <= limit && 0 <= StartIndex(page, limit) && StartIndex(page, limit) + |r.value| <= |list|
    ensures r.Ok? && r.value != [] ==> r.value == list[StartIndex(page, limit)..StartIndex(page, limit) + |r.value|]
  {
    var start := StartIndex(page, limit);
    var sum := Wrap32(start + limit);
    var end := if sum < |list| then sum else |list|;
    if start >= |list| then Ok([])
    else if start < 0 then Thrown(INDEX_OUT_OF_BOUNDS)
    else if start > end then Thrown(ILLEGAL_ARGUMENT)
    else
      SliceMultiset(list, start, end);
      Ok(list[start..end])
  }

  /** A page of a sorted list is sorted. */
  lemma PageSliceSorted(list: seq<Article>, page: Int32, limit: Int32, before: (Article, Article) -> bool)
    requires SortedBy(list, before)
    ensures PageSlice(list, page, limit).Ok? ==> SortedBy(PageSlice(list, page, limit).value, before)
  {
    var r := PageSlice(list, page, limit);
    if r.Ok? && r.value != [] {
      var start := StartIndex(page, limit);
      SliceSorted(list, start, start + |r.value|, before);
    }
  }

  /** For a positive page and limit whose product fits in an `int`, the slice is the pager's page. */
  lemma PageSliceIsPage(list: seq<Article>, page: Int32, limit: Int32)
    requires 1 <= page && 1 <= limit && page * limit <= INT_MAX
    ensures PageSlice(list, page, limit) == Ok(Pagination.Page(list, limit, page))
  {
    assert 0 <= (page - 1) * limit <= page * limit;
    assert (page - 1) * limit + limit == page * limit;
  }

  /** A negative limit on the first page of a non-empty list is an IllegalArgumentException. */
  lemma NegativeLimitThrows(list: seq<Article>, limit: Int32)
    requires limit < 0 && list != []
    ensures PageSlice(list, 1, limit) == Thrown(ILLEGAL_ARGUMENT)
  {
  }

  /** A page below 1 with a positive limit (and no overflow) starts before the list: IndexOutOfBoundsException. */
  lemma PageBelowOneThrows(list: seq<Article>, page: Int32, limit: Int32)
    requires page <= 0 && limit >= 1 && INT_MIN <= (page - 1) * limit
    ensures PageSlice(list, page, limit) == Thrown(INDEX_OUT_OF_BOUNDS)
  {
    var previous := page - 1;
    var product := previous * limit;
    StartBeforeFirstPage(page, limit);
    assert Wrap32(previous) == previous;
    assert StartIndex(page, limit) == product;
  }

  /** Pages before the first start a whole page or more before the list. */
  lemma StartBeforeFirstPage(page: int, limit: int)
    requires page <= 0 && limit >= 1
    ensures (page - 1) * limit <= -limit
  {
    assert (page - 1) * limit == -((1 - page) * limit);
    assert (1 - page) * limit >= limit;
  }

  /**
   * The body of `getArticles` when no error is simulated: the category
   * filter, the newest-first sort (a NullPointerException when two or more
   * articles are compared and one has no date), then the page.
   */
  function ArticlesPage(articles: seq<Article>, category: Option<string>, page: Int32, limit: Int32): (r: Result<seq<Article>>)
    ensures Catalog.UndatedAmongSeveral(InCategory(articles, category)) <==> r == Thrown(NPE)
  {
    var filtered := InCategory(articles, category);
    if Catalog.UndatedAmongSeveral(filtered) then Thrown(NPE)
    else PageSlice(SortBy(filtered, Catalog.NewerOrSame), page, limit)
  }

  /** Every article of a page is one of the service's articles, and of the requested category when one is given. */
  lemma ArticlesPageMembers(articles: seq<Article>, category: Option<string>, page: Int32, limit: Int32)
    ensures ArticlesPage(articles, category, page, limit).Ok? ==>
      forall a :: a in ArticlesPage(articles, category, page, limit).value ==>
        a in articles && (category.Some? && !IsBlank(category.value) ==> EqualsIgnoreCase(category.value, a.categoryId))
  {
    var filtered := InCategory(articles, category);
    var r := ArticlesPage(articles, category, page, limit);
    if r.Ok? {
      var sorted := SortBy(filtered, Catalog.NewerOrSame);
      assert r == PageSlice(sorted, page, limit);
      forall a | a in r.value ensures a in filtered {
        assert a in multiset(r.value);
        assert a in multiset(sorted);
      }
    }
  }

  /** A page lists its articles newest first (an undated article counting as dated 0). */
  lemma ArticlesPageNewestFirst(articles: seq<Article>, category: Option<string>, page: Int32, limit: Int32)
    ensures ArticlesPage(articles, category, page, limit).Ok? ==>
      SortedBy(ArticlesPage(articles, category, page, limit).value, Catalog.NewerOrSame)
  {
    var filtered := InCategory(articles, category);
    if !Catalog.UndatedAmongSeveral(filtered) {
      Catalog.NewerOrSamePreorder(filtered);
      SortBySorted(filtered, Catalog.NewerOrSame);
      PageSliceSorted(SortBy(filtered, Catalog.NewerOrSame), page, limit, Catalog.NewerOrSame);
    }
  }

  /** With sensible parameters and dated articles, the result is page `page` of the sorted, filtered list. */
  lemma ArticlesPageIsPage(articles: seq<Article>, category: Option<string>, page: Int32, limit: Int32)
    requires 1 <= page && 1 <= limit && page * limit <= INT_MAX
    requires !Catalog.UndatedAmongSeveral(InCategory(articles, category))
    ensures ArticlesPage(articles, category, page, limit)
      == Ok(Pagination.Page(SortBy(InCategory(articles, category), Catalog.NewerOrSame), limit, page))
  {
    PageSliceIsPage(SortBy(InCategory(articles, category), Catalog.NewerOrSame), page, limit);
  }

  /** `getArticles`' callable: the filter loop, the sort and the page. */
  method GetArticles(articles: seq<Article>, category: Option<string>, page: Int32, limit: Int32)
    returns (r: Result<seq<Article>>)
    ensures r == ArticlesPage(articles, category, page, limit)
  {
    var filtered: seq<Article> := [];
    if category.Some? && !IsBlank(category.value) {
      var test := Catalog.CategoryTest(category.value);
      for i := 0 to |articles|
        invariant filtered == Filter(articles[..i], test)
      {
        FilterStep(articles, i, test);
        if EqualsIgnoreCase(category.value, articles[i].categoryId) {
          filtered := filtered + [articles[i]];
        }
      }
      assert articles[..|articles|] == articles;
    } else {
      filtered := filtered + articles;
    }
    assert filtered == InCategory(articles, category);
    if Catalog.UndatedAmongSeveral(filtered) {
      return Thrown(NPE);
    }
    r := PageSlice(SortBy(filtered, Catalog.NewerOrSame), page, limit);
  }

  // ---------------------------------------------------------------- getArticleById

  function IdTest(id: string): Article -> bool
  {
    (a: Article) => a.id == Some(id)
  }

  /**
   * `getArticleById`'s callable: the first article whose id equals `id`, or
   * null; a null id throws on the first comparison.
   */
  function ArticleById(articles: seq<Article>, id: Option<string>): (r: Result<Option<Article>>)
    ensures id.None? ==> (r == Thrown(NPE) <==> articles != [])
    ensures id.Some? ==> r.Ok?
    ensures r.Ok? && r.value.Some? ==> r.value.value in articles && r.value.value.id == id
    ensures id.Some? && r.value.None? ==> forall a :: a in articles ==> a.id != id
  {
    if id.None? then (if articles == [] then Ok(None) else Thrown(NPE))
    else
      var k := FirstIndexWhere(articles, IdTest(id.value));
      if k < 0 then Ok(None) else Ok(Some(articles[k]))
  }

  /** The article found is the first with that id: every article before it has another id. */
  lemma ArticleByIdFirst(articles: seq<Article>, id: string, k: nat)
    requires k < |articles| && articles[k].id == Some(id)
    ensures ArticleById(articles, Some(id)).value.Some?
    ensures ArticleById(articles, Some(id)).value.value == articles[k] || exists j :: 0 <= j < k && articles[j].id == Some(id)
  {
    var f := FirstIndexWhere(articles, IdTest(id));
    assert IdTest(id)(articles[k]);
    if f != k {
      assert f < k && articles[f].id == Some(id);
    }
  }

  /** The lookup loop, returning at the first match. */
  method GetArticleById(articles: seq<Article>, id: Option<string>) returns (r: Result<Option<Article>>)
    ensures r == ArticleById(articles, id)
  {
    for i := 0 to |articles|
      invariant id.None? ==> i == 0
      invariant id.Some? ==> forall j :: 0 <= j < i ==> !IdTest(id.value)(articles[j])
    {
      if id.None? {
        return Thrown(NPE);
      }
      if Some(id.value) == articles[i].id {
        assert IdTest(id.value)(articles[i]);
        return Ok(Some(articles[i]));
      }
    }
    return Ok(None);
  }

  // ---------------------------------------------------------------- FakeCall

  /** The response `execute` hands back: the callable's value, or code 500 with a JSON error body. */
  datatype Response<T> = Success(body: T) | ErrorResponse(code: int, errorBody: string)

  /** `{"error":"<message>"}`. */
  function ErrorBody(message: string): (body: string)
    ensures |body| == |message| + 12
    ensures StartsWith(body, "{\"error\":\"") && EndsWith(body, "\"}")
    ensures body[10..|body| - 2] == message
  {
    var body := "{\"error\":\"" + message + "\"}";
    assert body[|body| - 2..] == "\"}";
    body
  }

  /**
   * `getArticles`' callable with the simulated failure as an argument: when
   * the random draw fails, a RuntimeException with the simulated message.
   */
  function ArticlesCallable(articles: seq<Article>, category: Option<string>, page: Int32, limit: Int32): bool -> Result<seq<Article>>
  {
    (fails: bool) => if fails then Thrown(SIMULATED_ERROR) else ArticlesPage(articles, category, page, limit)
  }

  function ByIdCallable(articles: seq<Article>, id: Option<string>): bool -> Result<Option<Article>>
  {
    (fails: bool) => if fails then Thrown(SIMULATED_ERROR) else ArticleById(articles, id)
  }

  /**
   * A call that runs its callable each time it is executed. The callable
   * takes the outcome of the random failure draw; an exception's message is
   * the string the `Result` carries.
   */
  class FakeCall<T> {
    const callable: bool -> Result<T>
    var executed: bool
    var result: Option<T>
    var error: Option<string>

    constructor (callable: bool -> Result<T>)
      ensures this.callable == callable
      ensures !executed && result.None? && error.None?
    {
      this.callable := callable;
      executed := false;
      result := None;
      error := None;
    }

    /**
     * `execute`: marks the call executed and runs the callable; a value is
     * kept and returned as a success, an exception is kept and becomes a 500
     * response whose body carries its message.
     */
    method Execute(fails: bool) returns (response: Response<T>)
      modifies this
      ensures executed && IsExecuted()
      ensures callable(fails).Ok? ==>
        response == Success(callable(fails).value) && result == Some(callable(fails).value) && error == old(error)
      ensures callable(fails).Thrown? ==>
        response == ErrorResponse(INTERNAL_ERROR, ErrorBody(callable(fails).exception))
        && error == Some(callable(fails).exception) && result == old(result)
    {
      executed := true;
      var outcome := callable(fails);
      if outcome.Ok? {
        result := Some(outcome.value);
        response := Success(outcome.value);
      } else {
        error := Some(outcome.exception);
        response := ErrorResponse(INTERNAL_ERROR, ErrorBody(outcome.exception));
      }
    }

    /** `isExecuted`: whether `execute` has run on this call. */
    predicate IsExecuted()
      reads this
      ensures IsExecuted() <==> executed
    {
      executed
    }

    /** `isCanceled`: cancelling is a no-op, so a call is never cancelled. */
    predicate IsCanceled()
      ensures !IsCanceled()
    {
      false
    }

    /** `clone`: a new, unexecuted call over the same callable. */
    method Clone() returns (c: FakeCall<T>)
      ensures fresh(c) && c.callable == callable && !c.IsExecuted()
    {
      c := new FakeCall(callable);
    }
  }

  /** `getArticles`: a new, unexecuted call that pages the articles of `category`. */
  method GetArticlesCall(articles: seq<Article>, category: Option<string>, page: Int32, limit: Int32)
    returns (call: FakeCall<seq<Article>>)
    ensures fresh(call) && !call.IsExecuted()
    ensures call.callable == ArticlesCallable(articles, category, page, limit)
  {
    call := new FakeCall(ArticlesCallable(articles, category, page, limit));
  }

  /** `getArticleById`: a new, unexecuted call that looks the id up. */
  method GetArticleByIdCall(articles: seq<Article>, id: Option<string>) returns (call: FakeCall<Option<Article>>)
    ensures fresh(call) && !call.IsExecuted()
    ensures call.callable == ByIdCallable(articles, id)
  {
    call := new FakeCall(ByIdCallable(articles, id));
  }
}
