/**
 * The texts `utils/ShareUtils.java` hands to other apps. A context is
 * modelled by its package name (null for a null context); the intents, the
 * chooser, the clipboard and the toast are not modelled.
 */
module Sharing {
  import opened JavaLang
  import opened ArticleModel
  import Formatter

  const CONTENT_LIMIT: nat := 150
  const TWEET_LIMIT: nat := 280
  const LINK_PREFIX: string := "https://your-blog-url.com/article/"
  const BOOK: string := "\U{1F4D6} "
  const BLANK_LINE: string := "\n\n"
  const BY: string := "By "
  const BULLET: string := " \U{2022} "
  const BRANDING: string := "Shared from Sintesis Blog App\n"
  const DOWNLOAD_PREFIX: string := "\U{1F4F1} Download: https://play.google.com/store/apps/details?id="

  /** The content part of the share text: null prints "null", and more than 150 characters are cut to 150 plus "...". */
  function ContentExcerpt(content: Option<string>): (r: string)
    ensures content.None? ==> r == "null"
    ensures content.Some? && |content.value| <= CONTENT_LIMIT ==> r == content.value
    ensures content.Some? && |content.value| > CONTENT_LIMIT ==>
      |r| == CONTENT_LIMIT + 3 && r[..CONTENT_LIMIT] == content.value[..CONTENT_LIMIT] && r[CONTENT_LIMIT..] == "..."
  {
    match content
    case None => "null"
    case Some(c) => if |c| > CONTENT_LIMIT then c[..CONTENT_LIMIT] + "..." else c
  }

  /** `capitalizeFirst`: null and "" are returned as they are; otherwise the first character goes to upper case. */
  function CapitalizeFirst(text: Option<string>): (r: Option<string>)
    ensures text.None? ==> r.None?
    ensures text.Some? ==> r.Some? && |r.value| == |text.value|
    ensures text.Some? && text.value != [] ==> r.value[0] == UpperChar(text.value[0]) && r.value[1..] == text.value[1..]
  {
    match text
    case None => None
    case Some(t) => Some(Formatter.Capitalized(t))
  }

  /** The text of a string builder: its appended pieces, in order. */
  function Concat(pieces: seq<string>): string
  {
    if pieces == [] then [] else Concat(pieces[..|pieces| - 1]) + pieces[|pieces| - 1]
  }

  lemma {:induction false} ConcatAppend(xs: seq<string>, ys: seq<string>)
    ensures Concat(xs + ys) == Concat(xs) + Concat(ys)
    decreases |ys|
  {
    if ys == [] {
      assert xs + ys == xs;
    } else {
      var init := ys[..|ys| - 1];
      assert (xs + ys)[..|xs + ys| - 1] == xs + init;
      ConcatAppend(xs, init);
    }
  }

  /** `StringBuilder.append` of each of `more`, in order: the builder's pieces grow by `more`. */
  method AppendAll(builder: string, ghost pieces: seq<string>, more: seq<string>) returns (builder': string, ghost pieces': seq<string>)
    requires builder == Concat(pieces)
    ensures pieces' == pieces + more && builder' == Concat(pieces')
  {
    builder', pieces' := builder, pieces;
    for i := 0 to |more|
      invariant pieces' == pieces + more[..i] && builder' == Concat(pieces')
    {
      assert (pieces' + [more[i]])[..|pieces'|] == pieces';
      assert more[..i + 1] == more[..i] + [more[i]];
      builder' := builder' + more[i];
      pieces' := pieces' + [more[i]];
    }
    assert more[..|more|] == more;
  }

  lemma ConcatPair(x: string, y: string)
    ensures Concat([x, y]) == x + y
  {
    assert [x, y][..1] == [x];
    assert [x][..0] == [];
    assert Concat([x]) == Concat([]) + x == x;
    assert Concat([x, y]) == Concat([x]) + y;
  }

  /** The author and category part: "By <author>" when there is an author, " • <Category>" when there is a category. */
  function BylinePieces(a: Article): seq<string>
  {
    (if a.authorName.Some? then [BY, a.authorName.value] else [])
    + (if a.categoryId.Some? then [BULLET, CapitalizeFirst(a.categoryId).value] else [])
  }

  /** The pieces `buildShareText` appends, in order. */
  function SharePieces(a: Article, packageName: string): seq<string>
  {
    [BOOK, JavaStr(a.title), BLANK_LINE, ContentExcerpt(a.content), BLANK_LINE]
    + BylinePieces(a)
    + [BLANK_LINE, BRANDING, DOWNLOAD_PREFIX, packageName]
  }

  /** The whole share text of an article, for an app with the given package name. */
  function ShareText(a: Article, packageName: string): string
  {
    Concat(SharePieces(a, packageName))
  }

  /** `buildShareText`: appends the title, the content excerpt, the byline and the branding to a builder, in order. */
  method BuildShareText(packageName: string, article: Article) returns (text: string)
    ensures text == ShareText(article, packageName)
  {
    var shareText := "";
    ghost var pieces: seq<string> := [];
    var content := article.content;
    if content.Some? && |content.value| > CONTENT_LIMIT {
      content := Some(content.value[..CONTENT_LIMIT] + "...");
    }
    shareText, pieces := AppendAll(shareText, pieces, [BOOK, JavaStr(article.title), BLANK_LINE, JavaStr(content), BLANK_LINE]);
    assert JavaStr(content) == ContentExcerpt(article.content);
    ghost var head := pieces;
    assert head == [BOOK, JavaStr(article.title), BLANK_LINE, ContentExcerpt(article.content), BLANK_LINE];
    if article.authorName.Some? {
      shareText, pieces := AppendAll(shareText, pieces, [BY, article.authorName.value]);
    }
    if article.categoryId.Some? {
      shareText, pieces := AppendAll(shareText, pieces, [BULLET, CapitalizeFirst(article.categoryId).value]);
    }
    assert pieces == head + BylinePieces(article);
    shareText, pieces := AppendAll(shareText, pieces, [BLANK_LINE, BRANDING, DOWNLOAD_PREFIX, packageName]);
    text := shareText;
  }

  /** The share text opens with the book sign and the title, followed by the content excerpt after a blank line. */
  lemma ShareTextStart(a: Article, packageName: string)
    ensures StartsWith(ShareText(a, packageName), Concat([BOOK, JavaStr(a.title), BLANK_LINE, ContentExcerpt(a.content)]))
  {
    var head := [BOOK, JavaStr(a.title), BLANK_LINE, ContentExcerpt(a.content)];
    var rest := [BLANK_LINE] + BylinePieces(a) + [BLANK_LINE, BRANDING, DOWNLOAD_PREFIX, packageName];
    assert SharePieces(a, packageName) == head + rest;
    ConcatAppend(head, rest);
  }

  /** The share text ends with the store link to the app's package. */
  lemma ShareTextEnd(a: Article, packageName: string)
    ensures EndsWith(ShareText(a, packageName), DOWNLOAD_PREFIX + packageName)
  {
    var pieces := SharePieces(a, packageName);
    var init := pieces[..|pieces| - 2];
    assert pieces == init + [DOWNLOAD_PREFIX, packageName];
    ConcatAppend(init, [DOWNLOAD_PREFIX, packageName]);
    ConcatPair(DOWNLOAD_PREFIX, packageName);
    var s := ShareText(a, packageName);
    var tail := DOWNLOAD_PREFIX + packageName;
    assert s[|s| - |tail|..] == tail;
  }

  /** The author's name appears in the share text, after BY, whenever the article has one. */
  lemma ShareTextNamesAuthor(a: Article, packageName: string)
    requires a.authorName.Some?
    ensures Contains(ShareText(a, packageName), BY + a.authorName.value)
  {
    var byAuthor := BY + a.authorName.value;
    var head := [BOOK, JavaStr(a.title), BLANK_LINE, ContentExcerpt(a.content), BLANK_LINE];
    var rest := (if a.categoryId.Some? then [BULLET, CapitalizeFirst(a.categoryId).value] else [])
      + [BLANK_LINE, BRANDING, DOWNLOAD_PREFIX, packageName];
    var pieces := SharePieces(a, packageName);
    assert pieces == head + ([BY, a.authorName.value] + rest);
    ConcatAppend(head, [BY, a.authorName.value] + rest);
    ConcatAppend([BY, a.authorName.value], rest);
    ConcatPair(BY, a.authorName.value);
    var s := ShareText(a, packageName);
    var at := |Concat(head)|;
    assert s == Concat(head) + (byAuthor + Concat(rest));
    assert s[at..at + |byAuthor|] == byAuthor;
    assert OccursAt(s, byAuthor, at);
    ContainsIffOccurs(s, byAuthor);
  }

  /** The Twitter cut: a text over 280 characters becomes its first 277 characters plus "...". */
  function TweetText(text: string): (r: string)
    ensures |r| <= TWEET_LIMIT
    ensures |text| <= TWEET_LIMIT ==> r == text
    ensures |text| > TWEET_LIMIT ==> |r| == TWEET_LIMIT && r[..TWEET_LIMIT - 3] == text[..TWEET_LIMIT - 3] && EndsWith(r, "...")
  {
    if |text| > TWEET_LIMIT then
      var r := text[..TWEET_LIMIT - 3] + "...";
      assert r[|r| - 3..] == "...";
      r
    else text
  }

  /** Cutting a cut text changes nothing. */
  lemma TweetTextIdempotent(text: string)
    ensures TweetText(TweetText(text)) == TweetText(text)
  {
  }

  /** `copyLink`: the article URL, with "null" for a null id. */
  function ArticleLink(a: Article): (link: string)
    ensures StartsWith(link, LINK_PREFIX)
    ensures link[|LINK_PREFIX|..] == JavaStr(a.id)
  {
    LINK_PREFIX + JavaStr(a.id)
  }

  /** Two articles get the same link exactly when their ids print the same. */
  lemma ArticleLinkInjective(a: Article, b: Article)
    ensures ArticleLink(a) == ArticleLink(b) <==> JavaStr(a.id) == JavaStr(b.id)
  {
    if ArticleLink(a) == ArticleLink(b) {
      assert ArticleLink(a)[|LINK_PREFIX|..] == ArticleLink(b)[|LINK_PREFIX|..];
    }
  }

  datatype Channel = System | WhatsApp | Facebook | Twitter | Email | Clipboard

  /**
   * The text each entry point hands over: nothing for a null context or
   * article, or when WhatsApp is not installed; the share text otherwise,
   * cut for Twitter; the link for the clipboard. Facebook falls back to its
   * web sharer with the same text when the app is missing.
   */
  method SharedText(channel: Channel, context: Option<string>, article: Option<Article>, installed: bool)
    returns (text: Option<string>)
    ensures context.None? || article.None? ==> text.None?
    ensures context.Some? && article.Some? ==>
      match channel
      case WhatsApp => text == (if installed then Some(ShareText(article.value, context.value)) else None)
      case Twitter => text == Some(TweetText(ShareText(article.value, context.value)))
      case Clipboard => text == Some(ArticleLink(article.value))
      case _ => text == Some(ShareText(article.value, context.value))
  {
    if article.None? || context.None? {
      return None;
    }
    if channel == Clipboard {
      return Some(ArticleLink(article.value));
    }
    var shareText := BuildShareText(context.value, article.value);
    match channel {
      case WhatsApp =>
        text := if installed then Some(shareText) else None;
      case Twitter =>
        if |shareText| > TWEET_LIMIT {
          shareText := shareText[..TWEET_LIMIT - 3] + "...";
        }
        text := Some(shareText);
      case _ =>
        text := Some(shareText);
    }
  }

  /** `shareArticle` sends an image when the article has a non-empty image URL, plain text otherwise. */
  function ShareMimeType(a: Article): (mime: string)
    ensures mime == "image/*" <==> a.imageUrl.Some? && a.imageUrl.value != []
    ensures mime != "image/*" ==> mime == "text/plain"
  {
    if a.imageUrl.Some? && a.imageUrl.value != [] then "image/*" else "text/plain"
  }
}
