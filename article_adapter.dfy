/**
 * The list operations of `adapters/BaseArticleAdapter.java`: the adapter owns
 * a list of articles that the screens replace, prune and patch. View binding
 * and the RecyclerView notifications are not modelled.
 */
module Adapters {
  import opened JavaLang
  import opened Sequences
  import opened ArticleModel

  /** Where `updateArticle`'s loop stops: an article with a null id (the comparison throws) or one with the same id. */
  function StopsAt(updated: Article): Article -> bool
  {
    (a: Article) => a.id.None? || a.id == updated.id
  }

  /**
   * The list after `updateArticle(updated)`: the first article whose id
   * equals the updated one's is replaced and the loop ends; an article with
   * a null id reached before that throws NullPointerException.
   */
  function UpdatedList(s: seq<Article>, updated: Article): (r: Result<seq<Article>>)
    ensures r.Thrown? <==> exists i :: 0 <= i < |s| && s[i].id.None? && forall j :: 0 <= j < i ==> s[j].id != updated.id
    ensures r.Thrown? ==> r.exception == NPE
    ensures r.Ok? ==> |r.value| == |s|
    ensures r.Ok? ==> forall i :: 0 <= i < |s| && r.value[i] != s[i] ==>
      r.value[i] == updated && s[i].id == updated.id && forall j :: 0 <= j < i ==> s[j].id != updated.id
  {
    var k := FirstIndexWhere(s, StopsAt(updated));
    if k < 0 then
      assert forall i :: 0 <= i < |s| ==> s[i].id.Some?;
      Ok(s)
    else if s[k].id.None? then Thrown(NPE)
    else
      assert forall i :: 0 <= i < |s| && s[i].id.None? ==> k < i;
      Ok(s[k := updated])
  }

  /**
   * When the articles up to and including the first one sharing the updated
   * (non-null) id all have ids, the update lands at that index.
   */
  lemma UpdateReplacesFirstMatch(s: seq<Article>, updated: Article, i: nat)
    requires i < |s| && forall j :: 0 <= j <= i ==> s[j].id.Some?
    requires s[i].id == updated.id && forall j :: 0 <= j < i ==> s[j].id != updated.id
    ensures UpdatedList(s, updated) == Ok(s[i := updated])
  {
    var k := FirstIndexWhere(s, StopsAt(updated));
    assert StopsAt(updated)(s[i]);
    assert k == i;
  }

  /** An update whose id no article has changes nothing. */
  lemma UpdateWithUnknownIdKeepsList(s: seq<Article>, updated: Article)
    requires forall j :: 0 <= j < |s| ==> s[j].id.Some? && s[j].id != updated.id
    ensures UpdatedList(s, updated) == Ok(s)
  {
    assert forall j :: 0 <= j < |s| ==> !StopsAt(updated)(s[j]);
  }

  /** The list part of the adapter; `notify*` calls are left out. */
  class BaseArticleAdapter {
    var articles: seq<Article>

    /** A new adapter shows nothing. */
    constructor ()
      ensures articles == []
    {
      articles := [];
    }

    /** `setArticles`: a null list clears the adapter, any other list is copied in. */
    method SetArticles(list: Option<seq<Article>>)
      modifies this
      ensures articles == list.GetOr([])
      ensures list.None? ==> articles == []
    {
      if list.None? {
        articles := [];
      } else {
        articles := list.value;
      }
    }

    /** `removeArticle`: drops the first equal article; absent ones, and null, change nothing. */
    method RemoveArticle(article: Option<Article>)
      modifies this
      ensures article.None? ==> articles == old(articles)
      ensures article.Some? ==> articles == RemoveFirst(old(articles), article.value)
      ensures article.Some? ==> multiset(articles) == multiset(old(articles)) - multiset{article.value}
    {
      if article.None? {
        return;
      }
      RemoveFirstMultiset(articles, article.value);
      var position := IndexOf(articles, article.value);
      if position != -1 {
        articles := articles[..position] + articles[position + 1..];
      }
    }

    /**
     * `updateArticle`: walks the list and replaces the first article whose
     * id equals the updated one's; a null id met first throws and leaves the
     * list as it was. A null update throws at the first article, so only on
     * a non-empty list.
     */
    method UpdateArticle(updatedArticle: Option<Article>) returns (r: Result<()>)
      modifies this
      ensures updatedArticle.None? ==> articles == old(articles) && (r.Thrown? <==> old(articles) != [])
      ensures r.Thrown? ==> articles == old(articles) && r.exception == NPE
      ensures updatedArticle.Some? ==> (r.Thrown? <==> UpdatedList(old(articles), updatedArticle.value).Thrown?)
      ensures updatedArticle.Some? && r.Ok? ==> UpdatedList(old(articles), updatedArticle.value) == Ok(articles)
    {
      if updatedArticle.None? {
        if articles == [] {
          return Ok(());
        }
        return Thrown(NPE);
      }
      var updated := updatedArticle.value;
      var i := 0;
      while i < |articles|
        invariant 0 <= i <= |articles|
        invariant forall j :: 0 <= j < i ==> !StopsAt(updated)(articles[j])
        invariant articles == old(articles)
      {
        var article := articles[i];
        if article.id.None? {
          assert FirstIndexWhere(articles, StopsAt(updated)) == i;
          return Thrown(NPE);
        }
        if article.id == updated.id {
          assert FirstIndexWhere(articles, StopsAt(updated)) == i;
          articles := articles[i := updated];
          return Ok(());
        }
        i := i + 1;
      }
      assert FirstIndexWhere(articles, StopsAt(updated)) == -1;
      return Ok(());
    }

    /** `clearArticles`. */
    method ClearArticles()
      modifies this
      ensures articles == []
    {
      articles := [];
    }

    /** `getArticles`: a copy, which for a value list is the list itself. */
    method GetArticles() returns (list: seq<Article>)
      ensures list == articles
    {
      list := articles;
    }

    /** `getArticle(position)`: the article at the position, or null outside the list. */
    method GetArticle(position: int) returns (article: Option<Article>)
      ensures article.Some? <==> 0 <= position < |articles|
      ensures article.Some? ==> article.value == articles[position]
    {
      if 0 <= position < |articles| {
        article := Some(articles[position]);
      } else {
        article := None;
      }
    }

    /** `getItemCount`. */
    function ItemCount(): (n: nat)
      reads this
      ensures n == |articles|
    {
      |articles|
    }
  }
}
