/**
 * The local HTTP server of `api/FakeApiServer.java`: the start-up port
 * check, the routing of `/api/v1/articles` requests, the list endpoint with
 * its category filter, parameter parsing and paging, and the lookup by id.
 * The article list the server reads is a parameter (a failing or null data
 * source is the empty list); JSON serialisation is represented by the
 * values serialised, and the random delay is not modelled.
 */
module ApiServer {
  import opened JavaLang
  import opened Sequences
  import opened ArticleModel
  import ApiService
  import SearchResults
  import Catalog
  import Pagination
  import Filters

  const ARTICLES_PATH: string := "/api/v1/articles"
  const MIN_PORT: int := 1024
  const MAX_PORT: int := 65535
  const DEFAULT_PAGE: Int32 := 1
  const DEFAULT_LIMIT: Int32 := 20
  const ARITHMETIC: string := "ArithmeticException"
  const ARRAY_INDEX_OUT_OF_BOUNDS: string := "ArrayIndexOutOfBoundsException"

  const OK: int := 200
  const BAD_REQUEST: int := 400
  const NOT_FOUND: int := 404
  const INTERNAL_ERROR: int := 500
  const SERVICE_UNAVAILABLE: int := 503

  const SHUTTING_DOWN: string := "Server is shutting down"
  const ENDPOINT_NOT_FOUND: string := "Endpoint not found"
  const ARTICLE_ENDPOINT_NOT_FOUND: string := "Article endpoint not found"
  const REQUEST_FAILED: string := "Failed to process articles request"
  const INVALID_ID: string := "Invalid article ID"
  const ARTICLE_NOT_FOUND: string := "Article not found"

  datatype HttpMethod = Get | Post | Put | Delete | Head | Options | Patch

  /** The query parameters: each name with its values, in order; a value may be null. */
  type Params = map<string, seq<Option<string>>>

  /** The `pagination` object of a list response. */
  datatype PaginationInfo = PaginationInfo(page: Int32, limit: Int32, total: int, count: int)

  /** What a response carries: literal JSON, or the value Gson serialises. */
  datatype Body = Json(text: string) | ArticleList(articles: seq<Article>, pagination: PaginationInfo) | ArticleJson(article: Article)

  datatype Reply = Reply(status: int, body: Body)

  function ErrorReply(status: int, message: string): Reply
  {
    Reply(status, Json(ApiService.ErrorBody(message)))
  }

  // ---------------------------------------------------------------- parameters

  /** The first value of a parameter, when the parameter is present with at least one value. */
  function FirstValue(params: Params, name: string): (v: Option<Option<string>>)
    ensures v.Some? <==> name in params && params[name] != []
    ensures v.Some? ==> v.value == params[name][0]
  {
    if name in params && params[name] != [] then Some(params[name][0]) else None
  }

  /** `page` or `limit`: the parsed first value, and the default when it is missing or not a number. */
  function IntParam(params: Params, name: string, default: Int32): (n: Int32)
    ensures FirstValue(params, name).None? ==> n == default
    ensures FirstValue(params, name).Some? && ParseInt(FirstValue(params, name).value).None? ==> n == default
    ensures FirstValue(params, name).Some? && ParseInt(FirstValue(params, name).value).Some? ==>
      n == ParseInt(FirstValue(params, name).value).value
  {
    var first := FirstValue(params, name);
    if first.None? then default
    else
      var parsed := ParseInt(first.value);
      if parsed.Some? then parsed.value else default
  }

  /** A parameter written as `Integer.toString(n)` is read back as `n`. */
  lemma IntParamOfDecimal(params: Params, name: string, n: Int32, default: Int32)
    ensures IntParam(params[name := [Some(IntToDecimal(n))]], name, default) == n
  {
    ParseIntOfDecimal(n);
  }

  /**
   * The category step of `handleGetArticles`: no `category` parameter keeps
   * every article; a present but null or blank first value keeps none; any
   * other keeps the articles whose category matches it ignoring case.
   */
  function ServerCategoryFilter(articles: seq<Article>, params: Params): (r: seq<Article>)
    ensures FirstValue(params, "category").None? ==> r == articles
    ensures FirstValue(params, "category").Some? ==>
      var c := FirstValue(params, "category").value;
      (c.None? || IsBlank(c.value) ==> r == [])
      && (c.Some? && !IsBlank(c.value) ==> r == ApiService.InCategory(articles, c))
  {
    var first := FirstValue(params, "category");
    if first.None? then articles
    else if first.value.None? || IsBlank(first.value.value) then []
    else ApiService.InCategory(articles, first.value)
  }

  /** A non-blank category keeps exactly the articles of that category, ignoring case. */
  lemma ServerCategoryExact(articles: seq<Article>, params: Params, c: string)
    requires FirstValue(params, "category") == Some(Some(c)) && !IsBlank(c)
    ensures forall a :: a in ServerCategoryFilter(articles, params) <==> a in articles && EqualsIgnoreCase(c, a.categoryId)
  {
  }

  // ---------------------------------------------------------------- list endpoint

  /**
   * `handleGetArticles`: filter, sort newest first (an undated article
   * compares equal to every other), read `page` and `limit`, cut the page,
   * and reply 200 with the page and its pagination info. The page cut may
   * throw, and the log line's `(total + limit - 1) / limit` throws an
   * ArithmeticException for a zero limit.
   */
  function GetArticlesReply(articles: seq<Article>, params: Params): (r: Result<Reply>)
    ensures r == Thrown(ARITHMETIC) <==> IntParam(params, "limit", DEFAULT_LIMIT) == 0
    ensures r.Ok? ==>
      var filtered := ServerCategoryFilter(articles, params);
      && r.value.status == OK && r.value.body.ArticleList?
      && r.value.body.pagination == PaginationInfo(IntParam(params, "page", DEFAULT_PAGE),
           IntParam(params, "limit", DEFAULT_LIMIT), |filtered|, |r.value.body.articles|)
      && multiset(r.value.body.articles) <= multiset(filtered)
    ensures r.Thrown? <==>
      IntParam(params, "limit", DEFAULT_LIMIT) == 0
      || ApiService.PageSlice(SortBy(ServerCategoryFilter(articles, params), SearchResults.NewestFirst),
                              IntParam(params, "page", DEFAULT_PAGE), IntParam(params, "limit", DEFAULT_LIMIT)).Thrown?
  {
    var filtered := ServerCategoryFilter(articles, params);
    var sorted := SortBy(filtered, SearchResults.NewestFirst);
    var page := IntParam(params, "page", DEFAULT_PAGE);
    var limit := IntParam(params, "limit", DEFAULT_LIMIT);
    var slice := ApiService.PageSlice(sorted, page, limit);
    if slice.Thrown? then Thrown(slice.exception)
    else if limit == 0 then Thrown(ARITHMETIC)
    else Ok(Reply(OK, ArticleList(slice.value, PaginationInfo(page, limit, |filtered|, |slice.value|))))
  }

  /** Without parameters the reply is the first 20 articles, newest first. */
  lemma DefaultListIsFirstPage(articles: seq<Article>)
    ensures GetArticlesReply(articles, map[]).Ok?
    ensures GetArticlesReply(articles, map[]).value.body.articles
      == Pagination.Page(SortBy(articles, SearchResults.NewestFirst), 20, 1)
  {
    ApiService.PageSliceIsPage(SortBy(articles, SearchResults.NewestFirst), 1, 20);
  }

  /**
   * For a positive page and limit whose product is an `int`, the reply is
   * that page of the filtered articles, newest first.
   */
  lemma GetArticlesReplyIsPage(articles: seq<Article>, params: Params)
    requires 1 <= IntParam(params, "page", DEFAULT_PAGE) && 1 <= IntParam(params, "limit", DEFAULT_LIMIT)
    requires IntParam(params, "page", DEFAULT_PAGE) * IntParam(params, "limit", DEFAULT_LIMIT) <= INT_MAX
    ensures GetArticlesReply(articles, params).Ok?
    ensures GetArticlesReply(articles, params).value.body.articles
      == Pagination.Page(SortBy(ServerCategoryFilter(articles, params), SearchResults.NewestFirst),
                         IntParam(params, "limit", DEFAULT_LIMIT), IntParam(params, "page", DEFAULT_PAGE))
  {
    ApiService.PageSliceIsPage(SortBy(ServerCategoryFilter(articles, params), SearchResults.NewestFirst),
                               IntParam(params, "page", DEFAULT_PAGE), IntParam(params, "limit", DEFAULT_LIMIT));
  }

  /** With every listed article dated, the page is newest first. */
  lemma ListNewestFirst(articles: seq<Article>, params: Params)
    requires SearchResults.AllDated(ServerCategoryFilter(articles, params))
    ensures GetArticlesReply(articles, params).Ok? ==>
      var page := GetArticlesReply(articles, params).value.body.articles;
      SearchResults.AllDated(page) && forall i, j :: 0 <= i < j < |page| ==> page[j].publishDate.value <= page[i].publishDate.value
  {
    var filtered := ServerCategoryFilter(articles, params);
    var r := GetArticlesReply(articles, params);
    if r.Ok? {
      var sorted := SortBy(filtered, SearchResults.NewestFirst);
      SearchResults.NewestFirstPreorder(filtered);
      SortBySorted(filtered, SearchResults.NewestFirst);
      var pageNumber := IntParam(params, "page", DEFAULT_PAGE);
      var limit := IntParam(params, "limit", DEFAULT_LIMIT);
      var page := r.value.body.articles;
      assert ApiService.PageSlice(sorted, pageNumber, limit) == Ok(page);
      ApiService.PageSliceSorted(sorted, pageNumber, limit, SearchResults.NewestFirst);
      SearchResults.AllDatedPermutation(filtered, sorted);
      SearchResults.AllDatedPermutation(sorted, page);
      SearchResults.NewestFirstDates(page);
    }
  }

  /** The category loop of `handleGetArticles`. */
  method FilterByCategoryParam(articles: seq<Article>, params: Params) returns (filtered: seq<Article>)
    ensures filtered == ServerCategoryFilter(articles, params)
  {
    filtered := [];
    var categories := if "category" in params then Some(params["category"]) else None;
    if categories.Some? && categories.value != [] {
      var categoryFilter := categories.value[0];
      if categoryFilter.Some? && !IsBlank(categoryFilter.value) {
        var test := Catalog.CategoryTest(categoryFilter.value);
        for i := 0 to |articles|
          invariant filtered == Filter(articles[..i], test)
        {
          FilterStep(articles, i, test);
          if EqualsIgnoreCase(categoryFilter.value, articles[i].categoryId) {
            filtered := filtered + [articles[i]];
          }
        }
        assert articles[..|articles|] == articles;
      }
    } else {
      filtered := filtered + articles;
    }
  }

  /** `handleGetArticles` step by step: the category loop, the sort, the parameters parsed into locals, the page. */
  method HandleGetArticles(articles: seq<Article>, params: Params) returns (r: Result<Reply>)
    ensures r == GetArticlesReply(articles, params)
  {
    var filtered := FilterByCategoryParam(articles, params);
    var sorted := SortBy(filtered, SearchResults.NewestFirst);
    var page: Int32 := DEFAULT_PAGE;
    var limit: Int32 := DEFAULT_LIMIT;
    if "page" in params && params["page"] != [] {
      var parsed := ParseInt(params["page"][0]);
      if parsed.Some? {
        page := parsed.value;
      }
    }
    assert page == IntParam(params, "page", DEFAULT_PAGE);
    if "limit" in params && params["limit"] != [] {
      var parsed := ParseInt(params["limit"][0]);
      if parsed.Some? {
        limit := parsed.value;
      }
    }
    assert limit == IntParam(params, "limit", DEFAULT_LIMIT);
    var slice := ApiService.PageSlice(sorted, page, limit);
    if slice.Thrown? {
      return Thrown(slice.exception);
    }
    if limit == 0 {
      return Thrown(ARITHMETIC);
    }
    r := Ok(Reply(OK, ArticleList(slice.value, PaginationInfo(page, limit, |filtered|, |slice.value|))));
  }

  // ---------------------------------------------------------------- by id

  /** `handleGetArticleById`: 400 for a null or blank id, 200 with the first article of that id, 404 when there is none. */
  function ByIdReply(articles: seq<Article>, articleId: Option<string>): (r: Reply)
    ensures articleId.None? || IsBlank(articleId.value) ==> r == ErrorReply(BAD_REQUEST, INVALID_ID)
    ensures r.status == OK <==> articleId.Some? && !IsBlank(articleId.value) && exists a :: a in articles && a.id == articleId
    ensures r.status == OK ==> r.body.ArticleJson? && r.body.article in articles && r.body.article.id == articleId
    ensures r.status != OK && articleId.Some? && !IsBlank(articleId.value) ==> r == ErrorReply(NOT_FOUND, ARTICLE_NOT_FOUND)
  {
    if articleId.None? || IsBlank(articleId.value) then ErrorReply(BAD_REQUEST, INVALID_ID)
    else
      var k := FirstIndexWhere(articles, ApiService.IdTest(articleId.value));
      if k < 0 then
        assert forall a :: a in articles ==> a.id != articleId by {
          forall a | a in articles ensures a.id != articleId {
            var i :| 0 <= i < |articles| && articles[i] == a;
            assert !ApiService.IdTest(articleId.value)(articles[i]);
          }
        }
        ErrorReply(NOT_FOUND, ARTICLE_NOT_FOUND)
      else Reply(OK, ArticleJson(articles[k]))
  }

  /** The server and the service find the same article for the same id. */
  lemma ByIdAgreesWithService(articles: seq<Article>, id: string)
    requires !IsBlank(id)
    ensures ByIdReply(articles, Some(id)).status == OK <==> ApiService.ArticleById(articles, Some(id)).value.Some?
    ensures ByIdReply(articles, Some(id)).status == OK ==>
      ByIdReply(articles, Some(id)).body.article == ApiService.ArticleById(articles, Some(id)).value.value
  {
  }

  /** The lookup loop, returning at the first match. */
  method HandleGetArticleById(articles: seq<Article>, articleId: Option<string>) returns (r: Reply)
    ensures r == ByIdReply(articles, articleId)
  {
    if articleId.None? || IsBlank(articleId.value) {
      return ErrorReply(BAD_REQUEST, INVALID_ID);
    }
    var id := articleId.value;
    for i := 0 to |articles|
      invariant forall j :: 0 <= j < i ==> !ApiService.IdTest(id)(articles[j])
    {
      if Some(id) == articles[i].id {
        assert ApiService.IdTest(id)(articles[i]);
        return Reply(OK, ArticleJson(articles[i]));
      }
    }
    r := ErrorReply(NOT_FOUND, ARTICLE_NOT_FOUND);
  }

  // ---------------------------------------------------------------- routing

  /** The pieces between separators `c`, empty pieces included (built from the back). */
  function SplitOn(s: string, c: char): (parts: seq<string>)
    ensures |parts| >= 1
    ensures forall k :: 0 <= k < |parts| ==> c !in parts[k]
  {
    if s == [] then [[]]
    else
      var init := SplitOn(s[..|s| - 1], c);
      if s[|s| - 1] == c then init + [[]]
      else init[..|init| - 1] + [init[|init| - 1] + [s[|s| - 1]]]
  }

  /** A separator followed by a piece without separators adds that piece at the end. */
  lemma {:induction false} SplitOnLast(p: string, c: char, t: string)
    requires c !in t
    ensures SplitOn(p + [c] + t, c) == SplitOn(p, c) + [t]
    decreases |t|
  {
    var s := p + [c] + t;
    if t == [] {
      assert s[..|s| - 1] == p;
    } else {
      var t' := t[..|t| - 1];
      assert s[..|s| - 1] == p + [c] + t';
      SplitOnLast(p, c, t');
      assert t' + [t[|t| - 1]] == t;
    }
  }

  /** The pieces joined back together with `c` between neighbours. */
  function JoinOn(parts: seq<string>, c: char): string
  {
    if parts == [] then []
    else if |parts| == 1 then parts[0]
    else JoinOn(parts[..|parts| - 1], c) + [c] + parts[|parts| - 1]
  }

  /** Joining the pieces with the separator gives the string back. */
  lemma {:induction false} SplitOnJoin(s: string, c: char)
    ensures JoinOn(SplitOn(s, c), c) == s
    decreases |s|
  {
    if s != [] {
      var s' := s[..|s| - 1];
      var x := s[|s| - 1];
      var init := SplitOn(s', c);
      SplitOnJoin(s', c);
      var n := |init|;
      if x == c {
        assert (init + [[]])[..n] == init;
      } else {
        var parts := init[..n - 1] + [init[n - 1] + [x]];
        if n > 1 {
          assert parts[..n - 1] == init[..n - 1];
          assert JoinOn(init, c) == JoinOn(init[..n - 1], c) + [c] + init[n - 1];
        }
        assert s == s' + [x];
      }
    }
  }

  /** A string without the separator is a single piece. */
  lemma {:induction false} SplitOnWithout(t: string, c: char)
    requires c !in t
    ensures SplitOn(t, c) == [t]
    decreases |t|
  {
    if t != [] {
      SplitOnWithout(t[..|t| - 1], c);
      assert t[..|t| - 1] + [t[|t| - 1]] == t;
    }
  }

  /** Splitting pieces joined with a separator none of them contains gives the pieces back. */
  lemma {:induction false} JoinOnSplit(parts: seq<string>, c: char)
    requires parts != [] && forall k :: 0 <= k < |parts| ==> c !in parts[k]
    ensures SplitOn(JoinOn(parts, c), c) == parts
    decreases |parts|
  {
    if |parts| == 1 {
      SplitOnWithout(parts[0], c);
    } else {
      var init := parts[..|parts| - 1];
      JoinOnSplit(init, c);
      SplitOnLast(JoinOn(init, c), c, parts[|parts| - 1]);
      assert init + [parts[|parts| - 1]] == parts;
    }
  }

  /** Drops the empty strings at the end, as `String.split` does. */
  function DropTrailingEmpty(parts: seq<string>): (r: seq<string>)
    ensures r <= parts
    ensures r != [] ==> r[|r| - 1] != []
  {
    if parts == [] then []
    else if parts[|parts| - 1] == [] then DropTrailingEmpty(parts[..|parts| - 1])
    else parts
  }

  /** `s.split(String.valueOf(c))` for a separator that is not a regular-expression metacharacter. */
  function JavaSplit(s: string, c: char): seq<string>
  {
    if c !in s then [s] else DropTrailingEmpty(SplitOn(s, c))
  }

  /** `extractArticleId`: the last piece of the split; an array index exception when nothing is left. */
  function ExtractArticleId(uri: string): (r: Result<string>)
    ensures r.Thrown? ==> r.exception == ARRAY_INDEX_OUT_OF_BOUNDS
  {
    var parts := JavaSplit(uri, '/');
    if parts == [] then Thrown(ARRAY_INDEX_OUT_OF_BOUNDS) else Ok(parts[|parts| - 1])
  }

  /** A path of separators alone has no piece to return. */
  lemma ExtractFromSlashesThrows()
    ensures ExtractArticleId("//") == Thrown(ARRAY_INDEX_OUT_OF_BOUNDS)
  {
    assert "//"[..1] == "/" && "/"[..0] == [];
    assert SplitOn("/", '/') == [[], []];
  }

  /** `uri.matches("/api/v1/articles/[^/]+")`: the articles path, a slash, and one non-empty segment. */
  predicate IsByIdPath(uri: string)
  {
    |uri| > |ARTICLES_PATH| + 1 && uri[..|ARTICLES_PATH| + 1] == ARTICLES_PATH + "/" && '/' !in uri[|ARTICLES_PATH| + 1..]
  }

  /** On a by-id path, the extracted id is the segment after the articles path. */
  lemma ExtractArticleIdOfPath(uri: string)
    requires IsByIdPath(uri)
    ensures ExtractArticleId(uri) == Ok(uri[|ARTICLES_PATH| + 1..])
  {
    var id := uri[|ARTICLES_PATH| + 1..];
    assert uri == ARTICLES_PATH + ['/'] + id;
    assert uri[|ARTICLES_PATH|] == '/';
    SplitOnLast(ARTICLES_PATH, '/', id);
  }

  datatype Route = ListRoute | ByIdRoute(id: string) | NoRoute

  /**
   * The routing of `handleArticlesRequest`: the articles path itself (or
   * with a query) lists, a by-id path looks its segment up, anything else
   * has no route.
   */
  function RouteOf(uri: string): (r: Route)
    ensures r == ListRoute <==> uri == ARTICLES_PATH || StartsWith(uri, ARTICLES_PATH + "?")
    ensures r.ByIdRoute? ==> IsByIdPath(uri) && r.id == uri[|ARTICLES_PATH| + 1..] && r.id != [] && '/' !in r.id
    ensures r == NoRoute <==> !(uri == ARTICLES_PATH || StartsWith(uri, ARTICLES_PATH + "?")) && !IsByIdPath(uri)
  {
    if uri == ARTICLES_PATH || StartsWith(uri, ARTICLES_PATH + "?") then ListRoute
    else if IsByIdPath(uri) then
      ExtractArticleIdOfPath(uri);
      ByIdRoute(ExtractArticleId(uri).value)
    else NoRoute
  }

  /** `/api/v1/articles/<id>` routes to the lookup of `id` exactly when `id` is one non-empty segment. */
  lemma RouteOfArticlePath(id: string)
    ensures RouteOf(ARTICLES_PATH + "/" + id) == (if id != [] && '/' !in id then ByIdRoute(id) else NoRoute)
  {
    var uri := ARTICLES_PATH + "/" + id;
    assert uri[..|ARTICLES_PATH| + 1] == ARTICLES_PATH + "/";
    assert uri[|ARTICLES_PATH| + 1..] == id;
    assert uri[|ARTICLES_PATH|] != '?';
    assert uri != ARTICLES_PATH;
  }

  /** `handleArticlesRequest`: the routed handler; an exception in a handler becomes a 500 reply. */
  function ArticlesRequestReply(uri: string, params: Params, articles: seq<Article>): (r: Reply)
    ensures RouteOf(uri) == NoRoute ==> r == ErrorReply(NOT_FOUND, ARTICLE_ENDPOINT_NOT_FOUND)
    ensures RouteOf(uri).ByIdRoute? ==> r == ByIdReply(articles, Some(RouteOf(uri).id))
    ensures RouteOf(uri) == ListRoute ==>
      r == (if GetArticlesReply(articles, params).Ok? then GetArticlesReply(articles, params).value
            else ErrorReply(INTERNAL_ERROR, REQUEST_FAILED))
  {
    match RouteOf(uri)
    case ListRoute =>
      var reply := GetArticlesReply(articles, params);
      if reply.Ok? then reply.value else ErrorReply(INTERNAL_ERROR, REQUEST_FAILED)
    case ByIdRoute(id) => ByIdReply(articles, Some(id))
    case NoRoute => ErrorReply(NOT_FOUND, ARTICLE_ENDPOINT_NOT_FOUND)
  }

  /** A zero limit makes the list request fail with 500 rather than return an empty page. */
  lemma ZeroLimitFails(articles: seq<Article>, params: Params)
    requires FirstValue(params, "limit") == Some(Some("0"))
    ensures ArticlesRequestReply(ARTICLES_PATH, params, articles) == ErrorReply(INTERNAL_ERROR, REQUEST_FAILED)
  {
    assert "0"[1..] == [] && AllDigits("0");
    assert DigitsValue("0") == 0 by {
      assert "0"[..0] == [];
    }
  }

  // ---------------------------------------------------------------- the server

  /** A server instance: the port it was created for and whether it is running. */
  class FakeApiServer {
    const port: int
    var isRunning: bool

    constructor (port: int)
      ensures this.port == port && !isRunning
    {
      this.port := port;
      isRunning := false;
    }

    /** `stop`. */
    method Stop()
      modifies this
      ensures !isRunning
    {
      isRunning := false;
    }

    /**
     * `serve`: 503 unless running; 200 `{}` for a preflight request; the
     * articles handler for a URI that starts with the articles path; 404
     * otherwise.
     */
    function Serve(verb: HttpMethod, uri: string, params: Params, articles: seq<Article>): (r: Reply)
      reads this
      ensures !isRunning ==> r == ErrorReply(SERVICE_UNAVAILABLE, SHUTTING_DOWN)
      ensures isRunning && verb == Options ==> r == Reply(OK, Json("{}"))
      ensures isRunning && verb != Options && !StartsWith(uri, ARTICLES_PATH) ==> r == ErrorReply(NOT_FOUND, ENDPOINT_NOT_FOUND)
      ensures isRunning && verb != Options && StartsWith(uri, ARTICLES_PATH) ==> r == ArticlesRequestReply(uri, params, articles)
    {
      if !isRunning then ErrorReply(SERVICE_UNAVAILABLE, SHUTTING_DOWN)
      else if verb == Options then Reply(OK, Json("{}"))
      else if StartsWith(uri, ARTICLES_PATH) then ArticlesRequestReply(uri, params, articles)
      else ErrorReply(NOT_FOUND, ENDPOINT_NOT_FOUND)
    }
  }

  /** Every reply of a running server to a by-id path is 200, 400 or 404. */
  lemma ByIdStatuses(server: FakeApiServer, verb: HttpMethod, id: string, params: Params, articles: seq<Article>)
    requires server.isRunning && verb != Options
    ensures var r := server.Serve(verb, ARTICLES_PATH + "/" + id, params, articles);
      id != [] && '/' !in id ==> r.status == OK || r.status == BAD_REQUEST || r.status == NOT_FOUND
  {
    RouteOfArticlePath(id);
    assert StartsWith(ARTICLES_PATH + "/" + id, ARTICLES_PATH);
  }

  /** The static `instance` field that `startServer` and `isServerRunning` share. */
  class ServerHost {
    var instance: FakeApiServer?

    constructor ()
      ensures instance == null
    {
      instance := null;
    }

    /** `isServerRunning`. */
    predicate IsServerRunning()
      reads this, instance
    {
      instance != null && instance.isRunning
    }

    /**
     * `startServer`: a running server is left alone and reported started; a
     * port outside 1024..65535 is refused; otherwise a new server starts,
     * unless binding the port fails (`bindFails`), which leaves no instance.
     */
    method StartServer(port: int, bindFails: bool) returns (started: bool)
      modifies this
      ensures started <==> IsServerRunning()
      ensures old(IsServerRunning()) ==> started && instance == old(instance)
      ensures !old(IsServerRunning()) && !(MIN_PORT <= port <= MAX_PORT) ==> !started && instance == old(instance)
      ensures !old(IsServerRunning()) && MIN_PORT <= port <= MAX_PORT && bindFails ==> !started && instance == null
      ensures !old(IsServerRunning()) && MIN_PORT <= port <= MAX_PORT && !bindFails ==>
        started && fresh(instance) && instance.port == port
    {
      if instance != null && instance.isRunning {
        return true;
      }
      if port < MIN_PORT || port > MAX_PORT {
        return false;
      }
      instance := new FakeApiServer(port);
      if bindFails {
        instance := null;
        return false;
      }
      instance.isRunning := true;
      started := true;
    }
  }
}
