/**
 * The static article queries that `utils/DataHandler.java` and
 * `utils/DummyDataGenerator.java` both define, over the list their
 * `getDummyArticles` hands out, with the lazily built cache behind it, the
 * fixed category table and the fixture constructor `createArticle`.
 */
module Catalog {
  import opened JavaLang
  import opened Sequences
  import opened ArticleModel
  import opened CategoryModel
  import Bookmarks

  const TECH: string := "tech"
  const HEALTH: string := "health"
  const LIFESTYLE: string := "lifestyle"
  const BUSINESS: string := "business"
  const SPORTS: string := "sports"
  const NEWS: string := "news"

  const IMAGE_PREFIX: string := "https://example.com/images/"
  const AUTHOR_IMAGE_PREFIX: string := "https://example.com/authors/"
  const AUTHOR_ID_PREFIX: string := "author_"

  // ---------------------------------------------------------------- the cache

  /**
   * The static `allArticles` cache: null until the first `getDummyArticles`,
   * then the generated fixture list. `generated` stands for what
   * `generateDummyArticles` builds; its literal titles are not modelled.
   */
  class ArticleCache {
    var cache: Option<seq<Article>>
    const generated: seq<Article>

    ghost predicate Valid()
      reads this
    {
      cache.None? || cache.value == generated
    }

    constructor (generated: seq<Article>)
      ensures cache.None? && this.generated == generated && Valid()
    {
      cache := None;
      this.generated := generated;
    }

    /** `getDummyArticles`: fills the cache on the first call and returns a copy of it, the same contents every time. */
    method GetDummyArticles() returns (copy: seq<Article>)
      requires Valid()
      modifies this
      ensures Valid() && cache == Some(generated)
      ensures copy == generated
    {
      if cache.None? {
        cache := Some(generated);
      }
      copy := cache.value;
    }
  }

  // ---------------------------------------------------------------- filters

  function CategoryTest(categoryId: string): Article -> bool
  {
    (a: Article) => EqualsIgnoreCase(categoryId, a.categoryId)
  }

  function SubcategoryTest(subcategoryId: string): Article -> bool
  {
    (a: Article) => EqualsIgnoreCase(subcategoryId, a.subcategoryId)
  }

  function AuthorTest(authorId: string): Article -> bool
  {
    (a: Article) => a.authorId == Some(authorId)
  }

  /**
   * A filter loop `if (arg.test(article)) filtered.add(article)`: a null
   * argument throws at the first article, so only a non-empty list throws.
   */
  function Selected(articles: seq<Article>, arg: Option<string>, test: string -> (Article -> bool)): (r: Result<seq<Article>>)
    ensures r.Thrown? <==> arg.None? && articles != []
    ensures r.Thrown? ==> r.exception == NPE
    ensures arg.None? && r.Ok? ==> r.value == []
    ensures arg.Some? ==> r == Ok(Filter(articles, test(arg.value)))
  {
    if arg.None? then (if articles == [] then Ok([]) else Thrown(NPE))
    else Ok(Filter(articles, test(arg.value)))
  }

  /** `getDummyArticlesByCategory`: the articles whose category matches, ignoring case. */
  function ByCategory(articles: seq<Article>, categoryId: Option<string>): Result<seq<Article>>
  {
    Selected(articles, categoryId, CategoryTest)
  }

  /** `getDummyArticlesBySubcategory`: the articles whose subcategory matches, ignoring case. */
  function BySubcategory(articles: seq<Article>, subcategoryId: Option<string>): Result<seq<Article>>
  {
    Selected(articles, subcategoryId, SubcategoryTest)
  }

  /** `getDummyArticlesByAuthor`: the articles whose author id is exactly the given one. */
  function ByAuthor(articles: seq<Article>, authorId: Option<string>): Result<seq<Article>>
  {
    Selected(articles, authorId, AuthorTest)
  }

  /** The category filter keeps, in their order, exactly the articles of that category ignoring case. */
  lemma ByCategoryExact(articles: seq<Article>, categoryId: string)
    ensures ByCategory(articles, Some(categoryId)).Ok?
    ensures forall a :: a in ByCategory(articles, Some(categoryId)).value <==>
      a in articles && EqualsIgnoreCase(categoryId, a.categoryId)
    ensures Filter(ByCategory(articles, Some(categoryId)).value, CategoryTest(categoryId))
      == ByCategory(articles, Some(categoryId)).value
  {
    FilterMembers(articles, CategoryTest(categoryId));
    FilterIdempotent(articles, CategoryTest(categoryId));
  }

  /** The subcategory filter keeps exactly the articles of that subcategory, ignoring case. */
  lemma BySubcategoryExact(articles: seq<Article>, subcategoryId: string)
    ensures BySubcategory(articles, Some(subcategoryId)).Ok?
    ensures forall a :: a in BySubcategory(articles, Some(subcategoryId)).value <==>
      a in articles && EqualsIgnoreCase(subcategoryId, a.subcategoryId)
  {
    FilterMembers(articles, SubcategoryTest(subcategoryId));
  }

  /** The author filter is exact: an author id differing only in case selects nothing of the other's. */
  lemma ByAuthorExact(articles: seq<Article>, authorId: string)
    ensures ByAuthor(articles, Some(authorId)).Ok?
    ensures forall a :: a in ByAuthor(articles, Some(authorId)).value <==>
      a in articles && a.authorId == Some(authorId)
  {
    FilterMembers(articles, AuthorTest(authorId));
  }

  /** The loop of `getDummyArticlesByCategory`. */
  method ArticlesByCategory(articles: seq<Article>, categoryId: Option<string>) returns (r: Result<seq<Article>>)
    ensures r == ByCategory(articles, categoryId)
  {
    r := FilterLoop(articles, categoryId, CategoryTest);
  }

  /** The loop of `getDummyArticlesBySubcategory`. */
  method ArticlesBySubcategory(articles: seq<Article>, subcategoryId: Option<string>) returns (r: Result<seq<Article>>)
    ensures r == BySubcategory(articles, subcategoryId)
  {
    r := FilterLoop(articles, subcategoryId, SubcategoryTest);
  }

  /** The loop of `getDummyArticlesByAuthor`. */
  method ArticlesByAuthor(articles: seq<Article>, authorId: Option<string>) returns (r: Result<seq<Article>>)
    ensures r == ByAuthor(articles, authorId)
  {
    r := FilterLoop(articles, authorId, AuthorTest);
  }

  /** The shared filter loop: one pass that appends every article passing the test. */
  method FilterLoop(articles: seq<Article>, arg: Option<string>, test: string -> (Article -> bool)) returns (r: Result<seq<Article>>)
    ensures r == Selected(articles, arg, test)
  {
    var filtered: seq<Article> := [];
    for i := 0 to |articles|
      invariant arg.None? ==> i == 0 && filtered == []
      invariant arg.Some? ==> filtered == Filter(articles[..i], test(arg.value))
    {
      if arg.None? {
        return Thrown(NPE);
      }
      FilterStep(articles, i, test(arg.value));
      if test(arg.value)(articles[i]) {
        filtered := filtered + [articles[i]];
      }
    }
    assert articles[..|articles|] == articles;
    r := Ok(filtered);
  }

  // ---------------------------------------------------------------- top-N

  /** `Integer.compare(a2.getViewCount(), a1.getViewCount()) <= 0`. */
  predicate MoreViewed(x: Article, y: Article)
  {
    x.viewCount >= y.viewCount
  }

  /** `Integer.compare(a2.getLikeCount(), a1.getLikeCount()) <= 0`. */
  predicate MoreLiked(x: Article, y: Article)
  {
    x.likeCount >= y.likeCount
  }

  /** `a2.getPublishDate().compareTo(a1.getPublishDate()) <= 0`, on articles that both have a date. */
  predicate NewerOrSame(x: Article, y: Article)
  {
    x.publishDate.GetOr(0) >= y.publishDate.GetOr(0)
  }

  lemma MoreViewedPreorder(s: seq<Article>)
    ensures TotalPreorderOn(s, MoreViewed)
  {
  }

  lemma MoreLikedPreorder(s: seq<Article>)
    ensures TotalPreorderOn(s, MoreLiked)
  {
  }

  lemma NewerOrSamePreorder(s: seq<Article>)
    ensures TotalPreorderOn(s, NewerOrSame)
  {
  }

  /** Some article of a list of two or more has no date, so the date comparator dereferences null. */
  predicate UndatedAmongSeveral(articles: seq<Article>)
  {
    |articles| >= 2 && exists i :: 0 <= i < |articles| && articles[i].publishDate.None?
  }

  /**
   * Sort a copy with a comparator, then `subList(0, Math.min(limit, size))`:
   * a negative limit is rejected by `subList`.
   */
  function TopBy(articles: seq<Article>, limit: Int32, before: (Article, Article) -> bool): (r: Result<seq<Article>>)
    ensures r.Thrown? <==> limit < 0
    ensures r.Thrown? ==> r.exception == ILLEGAL_ARGUMENT
    ensures r.Ok? ==> |r.value| == (if limit < |articles| then limit else |articles|)
    ensures r.Ok? ==> multiset(r.value) <= multiset(articles)
  {
    if limit < 0 then Thrown(ILLEGAL_ARGUMENT)
    else
      var sorted := SortBy(articles, before);
      var top := Take(sorted, limit);
      assert sorted == top + sorted[|top|..];
      Ok(top)
  }

  /** `getMostViewedArticles`. */
  function MostViewed(articles: seq<Article>, limit: Int32): Result<seq<Article>>
  {
    TopBy(articles, limit, MoreViewed)
  }

  /** `getMostLikedArticles`. */
  function MostLiked(articles: seq<Article>, limit: Int32): Result<seq<Article>>
  {
    TopBy(articles, limit, MoreLiked)
  }

  /** `getNewestArticles`: the sort throws before `subList` when an undated article takes part in a comparison. */
  function Newest(articles: seq<Article>, limit: Int32): (r: Result<seq<Article>>)
    ensures UndatedAmongSeveral(articles) ==> r == Thrown(NPE)
    ensures !UndatedAmongSeveral(articles) ==> r == TopBy(articles, limit, NewerOrSame)
  {
    if UndatedAmongSeveral(articles) then Thrown(NPE) else TopBy(articles, limit, NewerOrSame)
  }

  /**
   * The top-N result is ordered by the comparator, and nothing left out goes
   * before anything kept.
   */
  lemma {:induction false} TopByIsTop(articles: seq<Article>, limit: Int32, before: (Article, Article) -> bool)
    requires TotalPreorderOn(articles, before)
    ensures TopBy(articles, limit, before).Ok? ==> SortedBy(TopBy(articles, limit, before).value, before)
    ensures TopBy(articles, limit, before).Ok? ==>
      forall x, y :: (x in TopBy(articles, limit, before).value
        && y in multiset(articles) - multiset(TopBy(articles, limit, before).value)) ==> before(x, y)
  {
    if limit >= 0 {
      var sorted := SortBy(articles, before);
      SortBySorted(articles, before);
      var top := Take(sorted, limit);
      var rest := sorted[|top|..];
      assert sorted == top + rest;
      assert multiset(articles) == multiset(top) + multiset(rest);
      forall x, y | x in top && y in multiset(articles) - multiset(top) ensures before(x, y) {
        assert y in multiset(rest);
        assert y in rest;
        var i :| 0 <= i < |top| && top[i] == x;
        var j :| 0 <= j < |rest| && rest[j] == y;
        assert sorted[i] == x && sorted[|top| + j] == y;
      }
    }
  }

  /** The most viewed articles come in non-increasing view count, none left out has more views than one kept. */
  lemma MostViewedOrdered(articles: seq<Article>, limit: Int32)
    ensures MostViewed(articles, limit).Ok? ==>
      forall i, j :: 0 <= i < j < |MostViewed(articles, limit).value| ==>
        MostViewed(articles, limit).value[i].viewCount >= MostViewed(articles, limit).value[j].viewCount
    ensures MostViewed(articles, limit).Ok? ==>
      forall x, y :: (x in MostViewed(articles, limit).value
        && y in multiset(articles) - multiset(MostViewed(articles, limit).value)) ==> x.viewCount >= y.viewCount
  {
    if limit >= 0 {
      var r := MostViewed(articles, limit).value;
      MoreViewedPreorder(articles);
      TopByIsTop(articles, limit, MoreViewed);
      forall i, j | 0 <= i < j < |r| ensures r[i].viewCount >= r[j].viewCount {
        assert MoreViewed(r[i], r[j]);
      }
      forall x, y | x in r && y in multiset(articles) - multiset(r) ensures x.viewCount >= y.viewCount {
        assert MoreViewed(x, y);
      }
    }
  }

  /** The most liked articles come in non-increasing like count, none left out has more likes than one kept. */
  lemma MostLikedOrdered(articles: seq<Article>, limit: Int32)
    ensures MostLiked(articles, limit).Ok? ==>
      forall i, j :: 0 <= i < j < |MostLiked(articles, limit).value| ==>
        MostLiked(articles, limit).value[i].likeCount >= MostLiked(articles, limit).value[j].likeCount
    ensures MostLiked(articles, limit).Ok? ==>
      forall x, y :: (x in MostLiked(articles, limit).value
        && y in multiset(articles) - multiset(MostLiked(articles, limit).value)) ==> x.likeCount >= y.likeCount
  {
    if limit >= 0 {
      var r := MostLiked(articles, limit).value;
      MoreLikedPreorder(articles);
      TopByIsTop(articles, limit, MoreLiked);
      forall i, j | 0 <= i < j < |r| ensures r[i].likeCount >= r[j].likeCount {
        assert MoreLiked(r[i], r[j]);
      }
      forall x, y | x in r && y in multiset(articles) - multiset(r) ensures x.likeCount >= y.likeCount {
        assert MoreLiked(x, y);
      }
    }
  }

  /** The newest articles come newest first, and none left out is newer than one kept. */
  lemma NewestOrdered(articles: seq<Article>, limit: Int32)
    ensures Newest(articles, limit).Ok? ==>
      forall i, j :: 0 <= i < j < |Newest(articles, limit).value| ==>
        Newest(articles, limit).value[i].publishDate.GetOr(0) >= Newest(articles, limit).value[j].publishDate.GetOr(0)
    ensures Newest(articles, limit).Ok? ==>
      forall x, y :: (x in Newest(articles, limit).value
        && y in multiset(articles) - multiset(Newest(articles, limit).value)) ==>
        x.publishDate.GetOr(0) >= y.publishDate.GetOr(0)
  {
    if Newest(articles, limit).Ok? {
      var r := Newest(articles, limit).value;
      NewerOrSamePreorder(articles);
      TopByIsTop(articles, limit, NewerOrSame);
      forall i, j | 0 <= i < j < |r| ensures r[i].publishDate.GetOr(0) >= r[j].publishDate.GetOr(0) {
        assert NewerOrSame(r[i], r[j]);
      }
      forall x, y | x in r && y in multiset(articles) - multiset(r) ensures x.publishDate.GetOr(0) >= y.publishDate.GetOr(0) {
        assert NewerOrSame(x, y);
      }
    }
  }

  /** `getMostViewedArticles`: copies, sorts and cuts the list. */
  method GetMostViewedArticles(articles: seq<Article>, limit: Int32) returns (r: Result<seq<Article>>)
    ensures r == MostViewed(articles, limit)
  {
    var copy := articles;
    copy := SortBy(copy, MoreViewed);
    if limit < 0 {
      return Thrown(ILLEGAL_ARGUMENT);
    }
    r := Ok(Take(copy, limit));
  }

  // ---------------------------------------------------------------- search

  /** The search test: the lowercased title, content or author name contains the prepared query. */
  function SearchTest(searchQuery: string): Article -> bool
  {
    (a: Article) =>
      (a.title.Some? && Contains(ToLower(a.title.value), searchQuery))
      || (a.content.Some? && Contains(ToLower(a.content.value), searchQuery))
      || (a.authorName.Some? && Contains(ToLower(a.authorName.value), searchQuery))
  }

  /** `searchArticles`: nothing for a null or blank query; otherwise the articles matching the lowercased, trimmed query, in order. */
  function SearchArticles(articles: seq<Article>, query: Option<string>): (r: seq<Article>)
    ensures query.None? || IsBlank(query.value) ==> r == []
  {
    if query.None? || IsBlank(query.value) then []
    else Filter(articles, SearchTest(Trim(ToLower(query.value))))
  }

  /** A non-blank query finds exactly the articles with a field containing it, after lowercasing and trimming the query. */
  lemma SearchArticlesExact(articles: seq<Article>, query: string)
    requires !IsBlank(query)
    ensures forall a :: a in SearchArticles(articles, Some(query)) <==>
      a in articles && SearchTest(Trim(ToLower(query)))(a)
  {
    FilterMembers(articles, SearchTest(Trim(ToLower(query))));
  }

  /** The loop of `searchArticles`. */
  method SearchArticlesLoop(articles: seq<Article>, query: Option<string>) returns (results: seq<Article>)
    ensures results == SearchArticles(articles, query)
  {
    if query.None? || IsBlank(query.value) {
      return [];
    }
    var searchQuery := Trim(ToLower(query.value));
    results := [];
    for i := 0 to |articles|
      invariant results == Filter(articles[..i], SearchTest(searchQuery))
    {
      FilterStep(articles, i, SearchTest(searchQuery));
      var article := articles[i];
      var matches := (article.title.Some? && Contains(ToLower(article.title.value), searchQuery))
        || (article.content.Some? && Contains(ToLower(article.content.value), searchQuery))
        || (article.authorName.Some? && Contains(ToLower(article.authorName.value), searchQuery));
      assert matches == SearchTest(searchQuery)(article);
      if matches {
        results := results + [article];
      }
    }
    assert articles[..|articles|] == articles;
  }

  // ---------------------------------------------------------------- categories

  /** The six categories of `getAllCategories`, each with its display name and subcategory list. */
  function AllCategories(): (r: seq<CategoryData>)
    ensures |r| == 6
    ensures forall i :: 0 <= i < |r| ==> r[i].id.Some? && r[i].subcategories.Some?
  {
    [CategoryData(Some(TECH), Some("Technology"), Some(["android", "ios", "web", "ai"])),
     CategoryData(Some(HEALTH), Some("Health"), Some(["fitness", "nutrition", "mental health"])),
     CategoryData(Some(LIFESTYLE), Some("Lifestyle"), Some(["travel", "food", "fashion"])),
     CategoryData(Some(BUSINESS), Some("Business"), Some(["finance", "economy"])),
     CategoryData(Some(SPORTS), Some("Sports"), Some(["football", "basketball", "tennis"])),
     CategoryData(Some(NEWS), Some("News"), Some(["world", "politics", "economy"]))]
  }

  /** `getSubcategoriesForCategory`: a switch on the lowercased name; a null name throws. */
  function SubcategoriesFor(categoryName: Option<string>): (r: Result<seq<string>>)
    ensures r.Thrown? <==> categoryName.None?
  {
    if categoryName.None? then Thrown(NPE)
    else
      var key := ToLower(categoryName.value);
      Ok(if key == TECH then ["android", "ios", "web", "ai"]
         else if key == HEALTH then ["fitness", "nutrition", "mental health"]
         else if key == LIFESTYLE then ["travel", "food", "fashion"]
         else if key == BUSINESS then ["finance", "economy"]
         else if key == SPORTS then ["football", "basketball", "tennis"]
         else if key == NEWS then ["world", "politics", "economy"]
         else [])
  }

  /** The switch and the category table agree on every one of the six categories. */
  lemma SubcategoriesAgree()
    ensures forall i :: 0 <= i < |AllCategories()| ==>
      SubcategoriesFor(AllCategories()[i].id) == Ok(AllCategories()[i].subcategories.value)
  {
    var cs := AllCategories();
    assert ToLower(TECH) == TECH;
    assert ToLower(HEALTH) == HEALTH;
    assert ToLower(LIFESTYLE) == LIFESTYLE;
    assert ToLower(BUSINESS) == BUSINESS;
    assert ToLower(SPORTS) == SPORTS;
    assert ToLower(NEWS) == NEWS;
  }

  /** The switch ignores case, and a name that is none of the six gives an empty list. */
  lemma SubcategoriesCaseInsensitive(a: string, b: string)
    requires ToLower(a) == ToLower(b)
    ensures SubcategoriesFor(Some(a)) == SubcategoriesFor(Some(b))
    ensures ToLower(a) !in {TECH, HEALTH, LIFESTYLE, BUSINESS, SPORTS, NEWS} ==> SubcategoriesFor(Some(a)) == Ok([])
  {
  }

  // ---------------------------------------------------------------- fixtures

  /** `toLowerCase().replace(" ", "_")` on an author name. */
  function AuthorSlug(name: string): (r: string)
    ensures |r| == |name|
    ensures forall i :: 0 <= i < |name| ==> r[i] == (if name[i] == ' ' then '_' else LowerChar(name[i]))
  {
    if name == [] then []
    else AuthorSlug(name[..|name| - 1]) + [if name[|name| - 1] == ' ' then '_' else LowerChar(name[|name| - 1])]
  }

  /** The ids `DummyDataGenerator.createArticle` marks as bookmarked. */
  const SEEDED_BOOKMARKS: seq<string> := ["tech2", "tech4", "tech6", "tech8", "health2"]

  /**
   * `createArticle`: image and author URLs built from the names, author id
   * "author_" + id, likes a tenth of the views (Java `int` division); a null
   * author name throws. `seedBookmarks` selects the DummyDataGenerator
   * version, which also bookmarks the seeded ids.
   */
  function CreateArticle(id: Option<string>, title: Option<string>, content: Option<string>,
                         authorName: Option<string>, imageName: Option<string>, date: Option<Int64>,
                         viewCount: Int32, categoryId: Option<string>, subcategoryId: Option<string>,
                         seedBookmarks: bool): (r: Result<Article>)
    ensures r.Thrown? <==> authorName.None?
    ensures r.Ok? ==> r.value.authorId == Some(AUTHOR_ID_PREFIX + JavaStr(id))
    ensures r.Ok? ==> r.value.likeCount == JavaDiv(viewCount, 10)
    ensures r.Ok? ==> r.value.isBookmarked == (seedBookmarks && id.Some? && id.value in SEEDED_BOOKMARKS)
    ensures r.Ok? ==> r.value.imageUrl == Some(IMAGE_PREFIX + JavaStr(imageName))
    ensures r.Ok? ==> r.value.authorImageUrl == Some(AUTHOR_IMAGE_PREFIX + AuthorSlug(authorName.value) + ".jpg")
    ensures r.Ok? ==> r.value.id == id && r.value.title == title && r.value.content == content
    ensures r.Ok? ==> r.value.categoryId == categoryId && r.value.subcategoryId == subcategoryId
    ensures r.Ok? ==> r.value.authorName == authorName && r.value.publishDate == date && r.value.viewCount == viewCount
    ensures r.Ok? ==> !r.value.likedByUser && !r.value.sharedByUser && r.value.shareCount == 0
    ensures r.Ok? ==> r.value.commentCount == 0 && r.value.readingProgress == 0 && r.value.lastReadTime == 0
  {
    if authorName.None? then Thrown(NPE)
    else
      var q := JavaDiv(viewCount, 10);
      assert INT_MIN <= q <= INT_MAX by { JavaDivTenBounds(viewCount); }
      var a := NewArticle(id, title, content, Some(IMAGE_PREFIX + JavaStr(imageName)), categoryId, subcategoryId,
                          Some(AUTHOR_ID_PREFIX + JavaStr(id)), authorName,
                          Some(AUTHOR_IMAGE_PREFIX + AuthorSlug(authorName.value) + ".jpg"),
                          date, viewCount, q);
      Ok(if seedBookmarks && id.Some? && id.value in SEEDED_BOOKMARKS then a.(isBookmarked := true) else a)
  }

  /** A tenth of an `int`, rounded toward zero, is an `int` again, with the sign of the views. */
  lemma JavaDivTenBounds(v: Int32)
    ensures INT_MIN <= JavaDiv(v, 10) <= INT_MAX
    ensures v >= 0 ==> 0 <= JavaDiv(v, 10) <= v
    ensures v < 0 ==> v <= JavaDiv(v, 10) <= 0
  {
  }

  /**
   * `getBookmarkedArticles`: sync every article with the stored bookmark
   * set, then keep those flagged, in order.
   */
  function BookmarkedArticles(articles: seq<Article>, bookmarks: set<string>): (r: seq<Article>)
    ensures forall i :: 0 <= i < |r| ==> r[i].isBookmarked
  {
    Filter(Bookmarks.SyncedAll(articles, bookmarks), IsFlagged)
  }

  predicate IsFlagged(a: Article)
  {
    a.isBookmarked
  }

  /**
   * An article is listed exactly when its id is in the stored set, or, for
   * an article without an id, when its own flag was already set.
   */
  lemma BookmarkedArticlesExact(articles: seq<Article>, bookmarks: set<string>, i: nat)
    requires i < |articles|
    ensures Bookmarks.SyncedAll(articles, bookmarks)[i] in BookmarkedArticles(articles, bookmarks) <==>
      if articles[i].id.Some? then articles[i].id.value in bookmarks else articles[i].isBookmarked
  {
    var synced := Bookmarks.SyncedAll(articles, bookmarks);
    var r := BookmarkedArticles(articles, bookmarks);
    FilterMembers(synced, IsFlagged);
    if synced[i] in r {
      var k :| 0 <= k < |r| && r[k] == synced[i];
      assert r[k].isBookmarked;
    }
  }

  // ---------------------------------------------------------------- popular and latest

  /** What `getPopularArticles` / `getLatestArticles` hand their listener. */
  datatype Delivery = DataLoaded(articles: seq<Article>) | LoadError(message: string)

  /**
   * `getPopularArticles`: the received list sorted by views and cut to
   * `count`; a null list reports an error.
   */
  function PopularArticles(received: Option<seq<Article>>, count: Int32): (r: Result<Delivery>)
    ensures received.None? ==> r == Ok(LoadError("Failed to load popular articles"))
    ensures received.Some? ==>
      (r.Ok? <==> MostViewed(received.value, count).Ok?)
      && (r.Ok? ==> r.value == DataLoaded(MostViewed(received.value, count).value))
  {
    if received.None? then Ok(LoadError("Failed to load popular articles"))
    else
      match MostViewed(received.value, count)
      case Ok(top) => Ok(DataLoaded(top))
      case Thrown(e) => Thrown(e)
  }

  /**
   * `getLatestArticles`: the received list sorted newest first and cut to
   * `count`; a null list reports an error.
   */
  function LatestArticles(received: Option<seq<Article>>, count: Int32): (r: Result<Delivery>)
    ensures received.None? ==> r == Ok(LoadError("Failed to load latest articles"))
    ensures received.Some? ==>
      (r.Ok? <==> Newest(received.value, count).Ok?)
      && (r.Ok? ==> r.value == DataLoaded(Newest(received.value, count).value))
  {
    if received.None? then Ok(LoadError("Failed to load latest articles"))
    else
      match Newest(received.value, count)
      case Ok(top) => Ok(DataLoaded(top))
      case Thrown(e) => Thrown(e)
  }
}
