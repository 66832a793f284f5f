/**
 * Likes, shares and counters kept per article id by
 * `utils/SocialInteractionManager.java`, over its preferences map.
 */
module Social {
  import opened JavaLang
  import opened Preferences
  import opened ArticleModel

  const LIKED_PREFIX: string := "liked_"
  const SHARED_PREFIX: string := "shared_"
  const LIKES_COUNT_PREFIX: string := "likes_count_"
  const SHARES_COUNT_PREFIX: string := "shares_count_"
  const COMMENTS_COUNT_PREFIX: string := "comments_count_"

  // Keys are built by string concatenation, so a null id gives the key "<prefix>null".
  function LikedKey(id: Option<string>): string { LIKED_PREFIX + JavaStr(id) }
  function SharedKey(id: Option<string>): string { SHARED_PREFIX + JavaStr(id) }
  function LikesCountKey(id: Option<string>): string { LIKES_COUNT_PREFIX + JavaStr(id) }
  function SharesCountKey(id: Option<string>): string { SHARES_COUNT_PREFIX + JavaStr(id) }
  function CommentsCountKey(id: Option<string>): string { COMMENTS_COUNT_PREFIX + JavaStr(id) }

  predicate IsFlagKey(k: string)
  {
    StartsWith(k, LIKED_PREFIX) || StartsWith(k, SHARED_PREFIX)
  }

  predicate IsCountKey(k: string)
  {
    StartsWith(k, LIKES_COUNT_PREFIX) || StartsWith(k, SHARES_COUNT_PREFIX) || StartsWith(k, COMMENTS_COUNT_PREFIX)
  }

  /** The five key families never collide: a flag key is never a count key. */
  lemma KeyFamiliesDisjoint(k: string)
    ensures !(IsFlagKey(k) && IsCountKey(k))
  {
    if StartsWith(k, LIKED_PREFIX) {
      assert k[4] == 'd';
    }
    if StartsWith(k, SHARED_PREFIX) {
      assert k[5] == 'd';
    }
  }

  /** Flags are stored as booleans and counters as ints, as every writer of this file does. */
  ghost predicate ValidStore(p: Store)
  {
    forall k :: k in p ==> (IsFlagKey(k) ==> p[k].BoolPref?) && (IsCountKey(k) ==> p[k].IntPref?)
  }

  lemma KeysInFamilies(id: Option<string>)
    ensures IsFlagKey(LikedKey(id)) && IsFlagKey(SharedKey(id))
    ensures IsCountKey(LikesCountKey(id)) && IsCountKey(SharesCountKey(id)) && IsCountKey(CommentsCountKey(id))
  {
    assert StartsWith(LikedKey(id), LIKED_PREFIX);
    assert StartsWith(SharedKey(id), SHARED_PREFIX);
    assert StartsWith(LikesCountKey(id), LIKES_COUNT_PREFIX);
    assert StartsWith(SharesCountKey(id), SHARES_COUNT_PREFIX);
    assert StartsWith(CommentsCountKey(id), COMMENTS_COUNT_PREFIX);
  }

  /** `isLiked`: false unless a like was stored. */
  function IsLiked(p: Store, id: Option<string>): (r: bool)
    requires ValidStore(p)
    ensures LikedKey(id) !in p ==> !r
    ensures LikedKey(id) in p ==> p[LikedKey(id)] == BoolPref(r)
  {
    KeysInFamilies(id);
    GetBoolean(p, LikedKey(id), false).value
  }

  /** `isShared`: false unless a share was stored. */
  function IsShared(p: Store, id: Option<string>): (r: bool)
    requires ValidStore(p)
    ensures SharedKey(id) !in p ==> !r
    ensures SharedKey(id) in p ==> p[SharedKey(id)] == BoolPref(r)
  {
    KeysInFamilies(id);
    GetBoolean(p, SharedKey(id), false).value
  }

  /** `getLikeCount`: 0 unless a count was stored. */
  function LikeCount(p: Store, id: Option<string>): (r: Int32)
    requires ValidStore(p)
    ensures LikesCountKey(id) !in p ==> r == 0
    ensures LikesCountKey(id) in p ==> p[LikesCountKey(id)] == IntPref(r)
  {
    KeysInFamilies(id);
    GetInt(p, LikesCountKey(id), 0).value
  }

  /** `getShareCount`: 0 unless a count was stored. */
  function ShareCount(p: Store, id: Option<string>): (r: Int32)
    requires ValidStore(p)
    ensures SharesCountKey(id) !in p ==> r == 0
    ensures SharesCountKey(id) in p ==> p[SharesCountKey(id)] == IntPref(r)
  {
    KeysInFamilies(id);
    GetInt(p, SharesCountKey(id), 0).value
  }

  /** `getCommentCount`: 0 unless a count was stored. */
  function CommentCount(p: Store, id: Option<string>): (r: Int32)
    requires ValidStore(p)
    ensures CommentsCountKey(id) !in p ==> r == 0
    ensures CommentsCountKey(id) in p ==> p[CommentsCountKey(id)] == IntPref(r)
  {
    KeysInFamilies(id);
    GetInt(p, CommentsCountKey(id), 0).value
  }

  /** The like count after a toggle: one more when liked, one less but never below 0 when unliked (Java `int` arithmetic). */
  function NextLikeCount(count: Int32, likedNow: bool): (r: Int32)
    ensures likedNow && count < INT_MAX ==> r == count + 1
    ensures !likedNow && count > INT_MIN ==> r == if count >= 1 then count - 1 else 0
    ensures 0 <= count < INT_MAX ==> r >= 0
  {
    if likedNow then Wrap32(count + 1)
    else
      var less := Wrap32(count - 1);
      if less > 0 then less else 0
  }

  /** Liking then unliking gives the count back; unliking then liking does too unless the count was 0. */
  lemma LikeUnlikeCounts(count: Int32)
    ensures 0 <= count < INT_MAX ==> NextLikeCount(NextLikeCount(count, true), false) == count
    ensures 1 <= count ==> NextLikeCount(NextLikeCount(count, false), true) == count
    ensures NextLikeCount(NextLikeCount(0, false), true) == 1
  {
  }

  /** The store after `toggleLike` on an article with this id. */
  function ToggledLike(p: Store, id: Option<string>): (r: Store)
    requires ValidStore(p)
    ensures ValidStore(r)
    ensures IsLiked(r, id) == !IsLiked(p, id)
    ensures LikeCount(r, id) == NextLikeCount(LikeCount(p, id), !IsLiked(p, id))
    ensures forall k :: k != LikedKey(id) && k != LikesCountKey(id) ==> (k in r <==> k in p) && (k in p ==> r[k] == p[k])
  {
    var likedNow := !IsLiked(p, id);
    var count := NextLikeCount(LikeCount(p, id), likedNow);
    KeysInFamilies(id);
    KeyFamiliesDisjoint(LikedKey(id));
    KeyFamiliesDisjoint(LikesCountKey(id));
    p[LikedKey(id) := BoolPref(likedNow)][LikesCountKey(id) := IntPref(count)]
  }

  /** Toggling a like twice restores the flag, and the count too when it started in 0..INT_MAX-1 and unliked. */
  lemma ToggleLikeTwice(p: Store, id: Option<string>)
    requires ValidStore(p)
    ensures IsLiked(ToggledLike(ToggledLike(p, id), id), id) == IsLiked(p, id)
    ensures !IsLiked(p, id) && 0 <= LikeCount(p, id) < INT_MAX ==>
      LikeCount(ToggledLike(ToggledLike(p, id), id), id) == LikeCount(p, id)
  {
    LikeUnlikeCounts(LikeCount(p, id));
  }

  /** The store after `recordShare`: the first share sets the flag and adds one to the count; later ones change nothing. */
  function RecordedShare(p: Store, id: Option<string>): (r: Store)
    requires ValidStore(p)
    ensures ValidStore(r)
    ensures IsShared(r, id)
    ensures IsShared(p, id) ==> r == p
    ensures !IsShared(p, id) && ShareCount(p, id) < INT_MAX ==> ShareCount(r, id) == ShareCount(p, id) + 1
    ensures forall k :: k != SharedKey(id) && k != SharesCountKey(id) ==> (k in r <==> k in p) && (k in p ==> r[k] == p[k])
  {
    if IsShared(p, id) then p
    else
      KeysInFamilies(id);
      KeyFamiliesDisjoint(SharedKey(id));
      KeyFamiliesDisjoint(SharesCountKey(id));
      p[SharedKey(id) := BoolPref(true)][SharesCountKey(id) := IntPref(Wrap32(ShareCount(p, id) + 1))]
  }

  /** Setting the shared flag leaves the share count as it was. */
  lemma SharedFlagKeepsCount(p: Store, id: Option<string>)
    requires ValidStore(p)
    ensures ValidStore(p[SharedKey(id) := BoolPref(true)])
    ensures ShareCount(p[SharedKey(id) := BoolPref(true)], id) == ShareCount(p, id)
  {
    KeysInFamilies(id);
    KeyFamiliesDisjoint(SharedKey(id));
    KeyFamiliesDisjoint(SharesCountKey(id));
  }

  /** A share counts once: recording it again changes nothing. */
  lemma RecordShareIdempotent(p: Store, id: Option<string>)
    requires ValidStore(p)
    ensures RecordedShare(RecordedShare(p, id), id) == RecordedShare(p, id)
  {
  }

  /**
   * `initializeArticleSocialState`: the article takes the stored flags, and
   * the stored counts only where they are positive.
   */
  function WithSocialState(p: Store, a: Article): (b: Article)
    requires ValidStore(p) && a.id.Some?
    ensures b.likedByUser == IsLiked(p, a.id) && b.sharedByUser == IsShared(p, a.id)
    ensures b.likeCount == if LikeCount(p, a.id) > 0 then LikeCount(p, a.id) else a.likeCount
    ensures b.shareCount == if ShareCount(p, a.id) > 0 then ShareCount(p, a.id) else a.shareCount
    ensures b.commentCount == if CommentCount(p, a.id) > 0 then CommentCount(p, a.id) else a.commentCount
    ensures b.(likedByUser := a.likedByUser, sharedByUser := a.sharedByUser, likeCount := a.likeCount,
               shareCount := a.shareCount, commentCount := a.commentCount) == a
  {
    var likes := LikeCount(p, a.id);
    var shares := ShareCount(p, a.id);
    var comments := CommentCount(p, a.id);
    a.(likedByUser := IsLiked(p, a.id), sharedByUser := IsShared(p, a.id),
       likeCount := if likes > 0 then likes else a.likeCount,
       shareCount := if shares > 0 then shares else a.shareCount,
       commentCount := if comments > 0 then comments else a.commentCount)
  }

  /** On an empty store every flag reads false and every count 0. */
  lemma EmptyStoreDefaults(id: Option<string>)
    ensures ValidStore(map[])
    ensures !IsLiked(map[], id) && !IsShared(map[], id)
    ensures LikeCount(map[], id) == 0 && ShareCount(map[], id) == 0 && CommentCount(map[], id) == 0
  {
  }

  class SocialInteractionManager {
    var prefs: Store

    ghost predicate Valid()
      reads this
    {
      ValidStore(prefs)
    }

    constructor (stored: Store)
      requires ValidStore(stored)
      ensures Valid() && prefs == stored
    {
      prefs := stored;
    }

    /**
     * `toggleLike`: stores and returns the negation of the liked flag, moves the
     * count, and copies both onto the article. A null article returns false
     * and changes nothing.
     */
    method ToggleLike(article: Option<Article>) returns (likedNow: bool, updated: Option<Article>)
      requires Valid()
      modifies this
      ensures Valid()
      ensures article.None? ==> !likedNow && updated.None? && prefs == old(prefs)
      ensures article.Some? ==>
        && prefs == ToggledLike(old(prefs), article.value.id)
        && likedNow == !IsLiked(old(prefs), article.value.id)
        && updated == Some(article.value.(likedByUser := likedNow, likeCount := LikeCount(prefs, article.value.id)))
    {
      if article.None? {
        return false, None;
      }
      var a := article.value;
      var wasLiked := IsLiked(prefs, a.id);
      likedNow := !wasLiked;
      prefs := prefs[LikedKey(a.id) := BoolPref(likedNow)];
      KeysInFamilies(a.id);
      KeyFamiliesDisjoint(LikedKey(a.id));
      KeyFamiliesDisjoint(LikesCountKey(a.id));
      var currentLikes := LikeCount(prefs, a.id);
      currentLikes := NextLikeCount(currentLikes, likedNow);
      prefs := prefs[LikesCountKey(a.id) := IntPref(currentLikes)];
      updated := Some(a.(likedByUser := likedNow, likeCount := currentLikes));
    }

    /** `recordShare`: only the first share of an article sets the flag, bumps the count and updates the article. */
    method RecordShare(article: Option<Article>) returns (updated: Option<Article>)
      requires Valid()
      modifies this
      ensures Valid()
      ensures article.None? ==> updated.None? && prefs == old(prefs)
      ensures article.Some? ==> prefs == RecordedShare(old(prefs), article.value.id)
      ensures article.Some? && IsShared(old(prefs), article.value.id) ==> updated == article
      ensures article.Some? && !IsShared(old(prefs), article.value.id) ==>
        updated == Some(article.value.(sharedByUser := true, shareCount := ShareCount(prefs, article.value.id)))
    {
      if article.None? {
        return None;
      }
      var a := article.value;
      var wasShared := IsShared(prefs, a.id);
      if !wasShared {
        ghost var before := prefs;
        SharedFlagKeepsCount(before, a.id);
        prefs := prefs[SharedKey(a.id) := BoolPref(true)];
        var currentShares := Wrap32(ShareCount(prefs, a.id) + 1);
        prefs := prefs[SharesCountKey(a.id) := IntPref(currentShares)];
        assert prefs == RecordedShare(before, a.id);
        updated := Some(a.(sharedByUser := true, shareCount := currentShares));
      } else {
        updated := article;
      }
    }

    /** `setLikeCount`. */
    method SetLikeCount(id: Option<string>, count: Int32)
      requires Valid()
      modifies this
      ensures Valid() && LikeCount(prefs, id) == count && IsLiked(prefs, id) == IsLiked(old(prefs), id)
      ensures forall k :: k != LikesCountKey(id) ==> (k in prefs <==> k in old(prefs)) && (k in prefs ==> prefs[k] == old(prefs)[k])
    {
      KeysInFamilies(id);
      KeyFamiliesDisjoint(LikesCountKey(id));
      prefs := prefs[LikesCountKey(id) := IntPref(count)];
    }

    /** `setShareCount`. */
    method SetShareCount(id: Option<string>, count: Int32)
      requires Valid()
      modifies this
      ensures Valid() && ShareCount(prefs, id) == count && IsShared(prefs, id) == IsShared(old(prefs), id)
      ensures forall k :: k != SharesCountKey(id) ==> (k in prefs <==> k in old(prefs)) && (k in prefs ==> prefs[k] == old(prefs)[k])
    {
      KeysInFamilies(id);
      KeyFamiliesDisjoint(SharesCountKey(id));
      prefs := prefs[SharesCountKey(id) := IntPref(count)];
    }

    /** `setCommentCount`. */
    method SetCommentCount(id: Option<string>, count: Int32)
      requires Valid()
      modifies this
      ensures Valid() && CommentCount(prefs, id) == count
      ensures forall k :: k != CommentsCountKey(id) ==> (k in prefs <==> k in old(prefs)) && (k in prefs ==> prefs[k] == old(prefs)[k])
    {
      KeysInFamilies(id);
      KeyFamiliesDisjoint(CommentsCountKey(id));
      prefs := prefs[CommentsCountKey(id) := IntPref(count)];
    }

    /** `initializeArticleSocialState`: a null article or id is left alone. */
    method InitializeArticleSocialState(article: Option<Article>) returns (updated: Option<Article>)
      requires Valid()
      ensures article.None? || article.value.id.None? ==> updated == article
      ensures article.Some? && article.value.id.Some? ==> updated == Some(WithSocialState(prefs, article.value))
    {
      if article.None? || article.value.id.None? {
        return article;
      }
      var a := article.value;
      a := a.(likedByUser := IsLiked(prefs, a.id), sharedByUser := IsShared(prefs, a.id));
      var likeCount := LikeCount(prefs, a.id);
      var shareCount := ShareCount(prefs, a.id);
      var commentCount := CommentCount(prefs, a.id);
      if likeCount > 0 { a := a.(likeCount := likeCount); }
      if shareCount > 0 { a := a.(shareCount := shareCount); }
      if commentCount > 0 { a := a.(commentCount := commentCount); }
      return Some(a);
    }

    /** `resetAllInteractions` clears the whole file, so every flag and count is back at its default. */
    method ResetAllInteractions()
      modifies this
      ensures Valid() && prefs == map[]
      ensures forall id :: !IsLiked(prefs, id) && !IsShared(prefs, id) && LikeCount(prefs, id) == 0
    {
      prefs := map[];
    }
  }
}
