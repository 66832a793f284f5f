/** The bookmarked-id set of `utils/BookmarkManager.java`. */
module Bookmarks {
  import opened JavaLang
  import opened ArticleModel

  /** The stored set after toggling `id`: removed if present, added otherwise. */
  function Toggled(s: set<string>, id: string): (r: set<string>)
    ensures id in r <==> id !in s
    ensures forall x :: x != id ==> (x in r <==> x in s)
  {
    if id in s then s - {id} else s + {id}
  }

  /** Toggling the same id twice restores the set. */
  lemma ToggleTwice(s: set<string>, id: string)
    ensures Toggled(Toggled(s, id), id) == s
  {
  }

  /** One article's flag brought in line with the set; an article without an id is left alone. */
  function Synced(a: Article, bookmarks: set<string>): (b: Article)
    ensures a.id.Some? ==> b == a.(isBookmarked := a.id.value in bookmarks)
    ensures a.id.None? ==> b == a
  {
    if a.id.None? then a else a.(isBookmarked := a.id.value in bookmarks)
  }

  function SyncedAll(articles: seq<Article>, bookmarks: set<string>): (r: seq<Article>)
    ensures |r| == |articles|
    ensures forall i :: 0 <= i < |r| ==> r[i] == Synced(articles[i], bookmarks)
  {
    seq(|articles|, i requires 0 <= i < |articles| => Synced(articles[i], bookmarks))
  }

  /** Syncing twice is syncing once, and syncing only ever touches the bookmark flag. */
  lemma SyncIdempotent(articles: seq<Article>, bookmarks: set<string>)
    ensures SyncedAll(SyncedAll(articles, bookmarks), bookmarks) == SyncedAll(articles, bookmarks)
    ensures forall i :: 0 <= i < |articles| ==> SyncedAll(articles, bookmarks)[i].(isBookmarked := false) == articles[i].(isBookmarked := false)
  {
  }

  class BookmarkManager {
    /** The string set stored under the bookmarks key; a missing key reads as the empty set. */
    var bookmarks: set<string>

    constructor (stored: set<string>)
      ensures bookmarks == stored
    {
      bookmarks := stored;
    }

    /** `isBookmarked`: membership in the stored set (a null id is never a member). */
    predicate IsBookmarked(id: Option<string>)
      reads this
      ensures IsBookmarked(id) <==> id.Some? && id.value in bookmarks
    {
      match id
      case None => false
      case Some(x) => x in bookmarks
    }

    /**
     * `toggleBookmark`: flips the id's membership and sets the article's flag
     * to the new membership; a null article or id changes nothing.
     */
    method ToggleBookmark(article: Option<Article>) returns (updated: Option<Article>)
      modifies this
      ensures article.None? || article.value.id.None? ==> bookmarks == old(bookmarks) && updated == article
      ensures article.Some? && article.value.id.Some? ==>
        && bookmarks == Toggled(old(bookmarks), article.value.id.value)
        && updated == Some(article.value.(isBookmarked := IsBookmarked(article.value.id)))
    {
      if article.None? || article.value.id.None? {
        return article;
      }
      var id := article.value.id.value;
      var set' := bookmarks;
      if id in set' {
        set' := set' - {id};
        updated := Some(article.value.(isBookmarked := false));
      } else {
        set' := set' + {id};
        updated := Some(article.value.(isBookmarked := true));
      }
      bookmarks := set';
    }

    /** `syncArticleBookmarkStatus(List)`: sets each flag to set membership, skipping articles without an id. */
    method SyncArticles(articles: Option<seq<Article>>) returns (synced: Option<seq<Article>>)
      ensures articles.None? ==> synced.None?
      ensures articles.Some? ==> synced == Some(SyncedAll(articles.value, bookmarks))
    {
      if articles.None? {
        return None;
      }
      var list := articles.value;
      var i := 0;
      while i < |list|
        invariant 0 <= i <= |list|
        invariant |list| == |articles.value|
        invariant forall k :: 0 <= k < i ==> list[k] == Synced(articles.value[k], bookmarks)
        invariant forall k :: i <= k < |list| ==> list[k] == articles.value[k]
      {
        var article := list[i];
        if article.id.Some? {
          list := list[i := article.(isBookmarked := article.id.value in bookmarks)];
        }
        i := i + 1;
      }
      assert list == SyncedAll(articles.value, bookmarks);
      return Some(list);
    }

    /** `syncArticleBookmarkStatus(Article)`: the same for one article; null or id-less articles are left alone. */
    method SyncArticle(article: Option<Article>) returns (synced: Option<Article>)
      ensures article.None? ==> synced.None?
      ensures article.Some? ==> synced == Some(Synced(article.value, bookmarks))
    {
      if article.None? || article.value.id.None? {
        return article;
      }
      return Some(article.value.(isBookmarked := IsBookmarked(article.value.id)));
    }
  }
}
