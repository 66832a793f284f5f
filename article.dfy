/**
 * A news article (`models/Article.java`) as a value, with its Parcel codec
 * and the derived display properties.
 */
module ArticleModel {
  import opened JavaLang
  import opened Parcels
  import Categories

  /**
   * The fields of `Article.java` (the publish date as epoch milliseconds),
   * followed by the fields that SocialInteractionManager, ReadingProgressManager
   * and BaseArticleAdapter set or read on an article.
   */
  datatype Article = Article(
    id: Option<string>,
    title: Option<string>,
    content: Option<string>,
    imageUrl: Option<string>,
    categoryId: Option<string>,
    subcategoryId: Option<string>,
    authorId: Option<string>,
    authorName: Option<string>,
    authorImageUrl: Option<string>,
    publishDate: Option<Int64>,
    viewCount: Int32,
    likeCount: Int32,
    isBookmarked: bool,
    likedByUser: bool,
    sharedByUser: bool,
    shareCount: Int32,
    commentCount: Int32,
    readingProgress: Int32,
    lastReadTime: Int64)

  /** The twelve-argument constructor; the remaining fields keep Java's defaults. */
  function NewArticle(id: Option<string>, title: Option<string>, content: Option<string>,
                      imageUrl: Option<string>, categoryId: Option<string>, subcategoryId: Option<string>,
                      authorId: Option<string>, authorName: Option<string>, authorImageUrl: Option<string>,
                      publishDate: Option<Int64>, viewCount: Int32, likeCount: Int32): Article
  {
    Article(id, title, content, imageUrl, categoryId, subcategoryId, authorId, authorName,
            authorImageUrl, publishDate, viewCount, likeCount, false, false, false, 0, 0, 0, 0)
  }

  // ---------------------------------------------------------------- Parcel

  const ARTICLE_SLOTS: nat := 13

  /** `writeToParcel`: nine strings, two ints, the bookmark flag as byte 1/0, and the date or -1. */
  function WriteToParcel(a: Article): (p: seq<ParcelValue>)
    ensures |p| == ARTICLE_SLOTS
    ensures forall k :: 0 <= k < 9 ==> p[k].PString?
    ensures p[9] == PInt(a.viewCount) && p[10] == PInt(a.likeCount)
    ensures p[11] == PByte(if a.isBookmarked then 1 else 0)
    ensures p[12] == PLong(if a.publishDate.Some? then a.publishDate.value else -1)
  {
    [PString(a.id), PString(a.title), PString(a.content), PString(a.imageUrl),
     PString(a.categoryId), PString(a.subcategoryId), PString(a.authorId),
     PString(a.authorName), PString(a.authorImageUrl),
     PInt(a.viewCount), PInt(a.likeCount),
     PByte(if a.isBookmarked then 1 else 0),
     PLong(if a.publishDate.Some? then a.publishDate.value else -1)]
  }

  /** The slot kinds `Article(Parcel)` reads, starting at `at`. */
  predicate HasArticleSlots(p: seq<ParcelValue>, at: nat)
  {
    at + ARTICLE_SLOTS <= |p|
    && (forall k :: at <= k < at + 9 ==> p[k].PString?)
    && p[at + 9].PInt? && p[at + 10].PInt? && p[at + 11].PByte? && p[at + 12].PLong?
  }

  /**
   * `Article(Parcel)`: reads the slots in the order they were written; the
   * byte is read as "not zero" and -1 millis is read as a null date. The
   * fields the Parcel does not carry start at their defaults.
   */
  function ReadArticle(p: seq<ParcelValue>, at: nat): (r: Option<(Article, nat)>)
    ensures r.Some? <==> HasArticleSlots(p, at)
    ensures r.Some? ==> r.value.1 == at + ARTICLE_SLOTS
    ensures r.Some? ==> r.value.0.isBookmarked == (p[at + 11].b != 0)
    ensures r.Some? ==> (r.value.0.publishDate.None? <==> p[at + 12].l == -1)
  {
    if !HasArticleSlots(p, at) then None
    else
      var millis := p[at + 12].l;
      Some((NewArticle(p[at].s, p[at + 1].s, p[at + 2].s, p[at + 3].s, p[at + 4].s,
                       p[at + 5].s, p[at + 6].s, p[at + 7].s, p[at + 8].s,
                       if millis == -1 then None else Some(millis),
                       p[at + 9].i, p[at + 10].i).(isBookmarked := p[at + 11].b != 0),
            at + ARTICLE_SLOTS))
  }

  /**
   * What survives a Parcel round trip: every parcelled field, except that a
   * date of -1 millis becomes null; the unparcelled fields reset to defaults.
   */
  function ParcelView(a: Article): Article
  {
    NewArticle(a.id, a.title, a.content, a.imageUrl, a.categoryId, a.subcategoryId,
               a.authorId, a.authorName, a.authorImageUrl,
               if a.publishDate == Some(-1) then None else a.publishDate,
               a.viewCount, a.likeCount).(isBookmarked := a.isBookmarked)
  }

  /** Reading what was written gives the article's Parcel view and stops right after it. */
  lemma ParcelRoundTrip(a: Article, rest: seq<ParcelValue>)
    ensures ReadArticle(WriteToParcel(a) + rest, 0) == Some((ParcelView(a), ARTICLE_SLOTS))
  {
    var p := WriteToParcel(a) + rest;
    assert HasArticleSlots(p, 0);
  }

  /** An article survives a Parcel unchanged exactly when its date is not -1 and its extra fields hold defaults. */
  lemma ParcelViewExact(a: Article)
    ensures ParcelView(a) == a <==>
      a.publishDate != Some(-1) && !a.likedByUser && !a.sharedByUser
      && a.shareCount == 0 && a.commentCount == 0 && a.readingProgress == 0 && a.lastReadTime == 0
  {
  }

  /** Two articles that differ in any parcelled field other than a null/-1 date write different Parcels. */
  lemma WriteToParcelInjective(a: Article, b: Article)
    requires WriteToParcel(a) == WriteToParcel(b)
    ensures ParcelView(a) == ParcelView(b)
  {
    ParcelRoundTrip(a, []);
    ParcelRoundTrip(b, []);
    assert WriteToParcel(a) + [] == WriteToParcel(b) + [];
  }

  // ---------------------------------------------------------------- display

  /** `getCategory`: null for a null category id, otherwise its display name. */
  function GetCategory(a: Article): (r: Option<string>)
    ensures r.None? <==> a.categoryId.None?
    ensures a.categoryId == Some("tech") ==> r == Some("Technology")
    ensures r.Some? ==> Categories.CategoryDisplayName(a.categoryId) == Ok(r.value)
  {
    match a.categoryId
    case None => None
    case Some(c) => Some(Categories.CategoryDisplayName(Some(c)).value)
  }

  /** `getSubcategoryDisplayName`: the subcategory id, or null when either id is null. */
  function SubcategoryDisplayName(a: Article): (r: Option<string>)
    ensures r.None? <==> a.subcategoryId.None? || a.categoryId.None?
    ensures r.Some? ==> r == a.subcategoryId
  {
    if a.subcategoryId.None? || a.categoryId.None? then None else a.subcategoryId
  }

  /** `getFormattedDate`, with the date formatter as a parameter: "" for a null date. */
  function FormattedDate(a: Article, format: Int64 -> string): (r: string)
    ensures a.publishDate.None? ==> r == ""
    ensures a.publishDate.Some? ==> r == format(a.publishDate.value)
  {
    match a.publishDate
    case None => ""
    case Some(millis) => format(millis)
  }
}
