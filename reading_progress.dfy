/**
 * Per-article reading progress kept by `utils/ReadingProgressManager.java`
 * in its preferences map, under three keys per article id:
 * `article_<id>_progress` (an int), `article_<id>_last_read` (a long) and
 * `article_<id>_in_progress` (a boolean).
 */
module ReadingProgress {
  import opened JavaLang
  import opened Preferences
  import opened Sequences
  import opened ArticleModel

  const ARTICLE_PREFIX: string := "article_"
  const PROGRESS_SUFFIX: string := "_progress"
  const LAST_READ_SUFFIX: string := "_last_read"
  const IN_PROGRESS_SUFFIX: string := "_in_progress"

  function ProgressKey(id: string): string { ARTICLE_PREFIX + id + PROGRESS_SUFFIX }
  function LastReadKey(id: string): string { ARTICLE_PREFIX + id + LAST_READ_SUFFIX }
  function InProgressKey(id: string): string { ARTICLE_PREFIX + id + IN_PROGRESS_SUFFIX }

  /** The three keys of one id are pairwise different (their suffixes have different lengths). */
  lemma KeysDistinct(id: string)
    ensures ProgressKey(id) != LastReadKey(id)
    ensures ProgressKey(id) != InProgressKey(id)
    ensures LastReadKey(id) != InProgressKey(id)
  {
    assert |ProgressKey(id)| != |LastReadKey(id)|;
    assert |ProgressKey(id)| != |InProgressKey(id)|;
    assert |LastReadKey(id)| != |InProgressKey(id)|;
  }

  /** `Math.max(0, Math.min(100, progress))`. */
  function Clamp(progress: int): (r: int)
    ensures 0 <= r <= 100
    ensures 0 <= progress <= 100 ==> r == progress
    ensures progress < 0 ==> r == 0
    ensures progress > 100 ==> r == 100
  {
    if progress < 0 then 0 else if progress > 100 then 100 else progress
  }

  /** The map after `saveReadingProgress(article, progress)` at time `now`, for an article with this id. */
  function Saved(p: Store, id: string, progress: Int32, now: Int64): Store
  {
    p[ProgressKey(id) := IntPref(Clamp(progress))]
     [LastReadKey(id) := LongPref(now)]
     [InProgressKey(id) := BoolPref(progress > 0 && progress < 100)]
  }

  /** The map after `clearReadingProgress(id)`: the three keys of that id are gone. */
  function Cleared(p: Store, id: string): Store
  {
    p - {ProgressKey(id), LastReadKey(id), InProgressKey(id)}
  }

  /** `getReadingProgress`: 0 for a null or unseen id; a key of another type makes `getInt` throw. */
  function GetReadingProgress(p: Store, id: Option<string>): (r: Result<Int32>)
    ensures id.None? ==> r == Ok(0)
    ensures id.Some? && ProgressKey(id.value) !in p ==> r == Ok(0)
    ensures id.Some? && ProgressKey(id.value) in p ==>
      (r.Ok? <==> p[ProgressKey(id.value)].IntPref?) && (r.Ok? ==> r.value == p[ProgressKey(id.value)].i)
  {
    match id
    case None => Ok(0)
    case Some(x) => GetInt(p, ProgressKey(x), 0)
  }

  /** The in-progress flag of an id, as `getContinueReadingArticles` reads it. */
  function InProgressFlag(p: Store, id: string): Result<bool>
  {
    GetBoolean(p, InProgressKey(id), false)
  }

  /**
   * After a save, the id reads back the clamped progress, the time and a flag
   * that holds exactly when the clamped value is strictly between 0 and 100;
   * every other key is untouched.
   */
  lemma SavedReadsBack(p: Store, id: string, progress: Int32, now: Int64)
    ensures GetReadingProgress(Saved(p, id, progress, now), Some(id)) == Ok(Clamp(progress))
    ensures GetLong(Saved(p, id, progress, now), LastReadKey(id), 0) == Ok(now)
    ensures InProgressFlag(Saved(p, id, progress, now), id) == Ok(0 < Clamp(progress) < 100)
    ensures forall k :: k !in {ProgressKey(id), LastReadKey(id), InProgressKey(id)} ==>
      (k in Saved(p, id, progress, now) <==> k in p) && (k in p ==> Saved(p, id, progress, now)[k] == p[k])
  {
    KeysDistinct(id);
  }

  /** A completed article reads 100 and is no longer in progress. */
  lemma CompletedIsNotInProgress(p: Store, id: string, now: Int64)
    ensures GetReadingProgress(Saved(p, id, 100, now), Some(id)) == Ok(100)
    ensures InProgressFlag(Saved(p, id, 100, now), id) == Ok(false)
  {
    SavedReadsBack(p, id, 100, now);
  }

  /** Clearing undoes any save of the same id, and afterwards the id reads progress 0 and no flag. */
  lemma ClearUndoesSave(p: Store, id: string, progress: Int32, now: Int64)
    ensures Cleared(Saved(p, id, progress, now), id) == Cleared(p, id)
    ensures GetReadingProgress(Cleared(p, id), Some(id)) == Ok(0)
    ensures InProgressFlag(Cleared(p, id), id) == Ok(false)
  {
  }

  // ---------------------------------------------------------------- continue reading

  /**
   * The loop of `getContinueReadingArticles`, from the front: articles without
   * an id are skipped; an article whose flag is set is kept, carrying its
   * stored progress. The first read of a key of the wrong type throws.
   */
  function InProgressArticles(p: Store, articles: seq<Article>): (r: Result<seq<Article>>)
    ensures r.Ok? ==> |r.value| <= |articles|
    ensures r.Ok? ==> forall a :: a in r.value ==>
      a.id.Some? && InProgressFlag(p, a.id.value) == Ok(true) && GetReadingProgress(p, a.id) == Ok(a.readingProgress)
    decreases |articles|
  {
    if articles == [] then Ok([])
    else
      var init := InProgressArticles(p, articles[..|articles| - 1]);
      var a := articles[|articles| - 1];
      if init.Thrown? || a.id.None? then init
      else match InProgressFlag(p, a.id.value)
        case Thrown(e) => Thrown(e)
        case Ok(flag) =>
          if !flag then init
          else match GetReadingProgress(p, a.id)
            case Thrown(e) => Thrown(e)
            case Ok(progress) => Ok(init.value + [a.(readingProgress := progress)])
  }

  /** An article the loop keeps: it has an id whose in-progress flag reads true. */
  predicate Flagged(p: Store, a: Article)
  {
    a.id.Some? && InProgressFlag(p, a.id.value) == Ok(true)
  }

  /** The positions, in increasing order, of the flagged articles. */
  function KeptPositions(p: Store, articles: seq<Article>): (r: seq<nat>)
    ensures forall k :: 0 <= k < |r| ==> r[k] < |articles| && Flagged(p, articles[r[k]])
    ensures forall k, l :: 0 <= k < l < |r| ==> r[k] < r[l]
    ensures forall j :: 0 <= j < |articles| && Flagged(p, articles[j]) ==> j in r
    decreases |articles|
  {
    if articles == [] then []
    else
      var n := |articles| - 1;
      var init := KeptPositions(p, articles[..n]);
      assert forall k :: 0 <= k < |init| ==> articles[init[k]] == articles[..n][init[k]];
      if Flagged(p, articles[n]) then init + [n] else init
  }

  /**
   * When the loop does not throw, its result lists the flagged articles in
   * their order, each unchanged but for its reading progress, which is the
   * stored one.
   */
  lemma {:induction false} InProgressArticlesInOrder(p: Store, articles: seq<Article>)
    requires InProgressArticles(p, articles).Ok?
    ensures |InProgressArticles(p, articles).value| == |KeptPositions(p, articles)|
    ensures forall k :: 0 <= k < |KeptPositions(p, articles)| ==>
      var a := articles[KeptPositions(p, articles)[k]];
      GetReadingProgress(p, a.id).Ok?
      && InProgressArticles(p, articles).value[k] == a.(readingProgress := GetReadingProgress(p, a.id).value)
    decreases |articles|
  {
    if articles != [] {
      var n := |articles| - 1;
      var init := articles[..n];
      var a := articles[n];
      assert InProgressArticles(p, init).Ok?;
      InProgressArticlesInOrder(p, init);
      var pos := KeptPositions(p, init);
      var kept := InProgressArticles(p, init).value;
      assert forall k :: 0 <= k < |pos| ==> articles[pos[k]] == init[pos[k]];
      if Flagged(p, a) {
        var progress := GetReadingProgress(p, a.id);
        assert progress.Ok?;
        assert InProgressArticles(p, articles).value == kept + [a.(readingProgress := progress.value)];
        assert KeptPositions(p, articles) == pos + [n];
      } else {
        assert InProgressArticles(p, articles).value == kept;
        assert KeptPositions(p, articles) == pos;
      }
    }
  }

  /** Once a prefix of the list throws, so does the whole loop, with the same exception. */
  lemma {:induction false} ThrownPrefix(p: Store, articles: seq<Article>, i: nat)
    requires i <= |articles| && InProgressArticles(p, articles[..i]).Thrown?
    ensures InProgressArticles(p, articles) == InProgressArticles(p, articles[..i])
    decreases |articles|
  {
    if i == |articles| {
      assert articles[..i] == articles;
    } else {
      var init := articles[..|articles| - 1];
      assert init[..i] == articles[..i];
      ThrownPrefix(p, init, i);
    }
  }

  /** Every article with an id and a set flag is in the result, carrying its stored progress. */
  lemma {:induction false} InProgressArticlesComplete(p: Store, articles: seq<Article>, j: nat)
    requires j < |articles| && InProgressArticles(p, articles).Ok?
    requires articles[j].id.Some? && InProgressFlag(p, articles[j].id.value) == Ok(true)
    ensures GetReadingProgress(p, articles[j].id).Ok?
    ensures articles[j].(readingProgress := GetReadingProgress(p, articles[j].id).value) in InProgressArticles(p, articles).value
    decreases |articles|
  {
    var init := articles[..|articles| - 1];
    if j < |articles| - 1 {
      InProgressArticlesComplete(p, init, j);
    }
  }

  /** When every flag and progress key the loop reads has the right type, the loop does not throw. */
  lemma {:induction false} InProgressArticlesNoThrow(p: Store, articles: seq<Article>)
    requires forall a :: a in articles && a.id.Some? ==>
      (InProgressKey(a.id.value) in p ==> p[InProgressKey(a.id.value)].BoolPref?)
      && (ProgressKey(a.id.value) in p ==> p[ProgressKey(a.id.value)].IntPref?)
    ensures InProgressArticles(p, articles).Ok?
    decreases |articles|
  {
    if articles != [] {
      InProgressArticlesNoThrow(p, articles[..|articles| - 1]);
    }
  }

  /** The comparator `Long.compare(a2.lastReadTime, a1.lastReadTime)`: `a1` may go first when it was read no earlier. */
  predicate ReadMoreRecently(a1: Article, a2: Article)
  {
    a1.lastReadTime >= a2.lastReadTime
  }

  /** `getContinueReadingArticles`: the loop's result sorted most recently read first. */
  function ContinueReading(p: Store, articles: seq<Article>): (r: Result<seq<Article>>)
    ensures r.Thrown? <==> InProgressArticles(p, articles).Thrown?
    ensures r.Ok? ==> multiset(r.value) == multiset(InProgressArticles(p, articles).value)
  {
    match InProgressArticles(p, articles)
    case Thrown(e) => Thrown(e)
    case Ok(list) => Ok(SortBy(list, ReadMoreRecently))
  }

  /** The continue-reading list is ordered by last-read time, most recent first. */
  lemma ContinueReadingSorted(p: Store, articles: seq<Article>)
    requires ContinueReading(p, articles).Ok?
    ensures forall i, j :: 0 <= i < j < |ContinueReading(p, articles).value| ==>
      ContinueReading(p, articles).value[i].lastReadTime >= ContinueReading(p, articles).value[j].lastReadTime
  {
    var list := InProgressArticles(p, articles).value;
    SortBySorted(list, ReadMoreRecently);
  }

  // ---------------------------------------------------------------- statistics

  /** `getReadingStats` as written: every key ending in "_progress" is read with `getInt`. */
  function StatsAsWritten(p: Store): (r: Result<(int, int)>)
    ensures r.Thrown? <==> exists k :: k in p && EndsWith(k, PROGRESS_SUFFIX) && !p[k].IntPref?
    ensures r.Ok? ==> 0 <= r.value.1 <= r.value.0
  {
    if exists k :: k in p && EndsWith(k, PROGRESS_SUFFIX) && !p[k].IntPref? then Thrown(CLASS_CAST)
    else
      var started := set k | k in p && EndsWith(k, PROGRESS_SUFFIX);
      var completed := set k | k in p && EndsWith(k, PROGRESS_SUFFIX) && p[k].IntPref? && p[k].i >= 100;
      SubsetCardinality(completed, started);
      Ok((|started|, |completed|))
  }

  /**
   * The in-progress key also ends in "_progress" and holds a boolean, so as
   * written the statistics throw ClassCastException after any save at all.
   */
  lemma StatsAsWrittenThrowAfterSave(p: Store, id: string, progress: Int32, now: Int64)
    ensures StatsAsWritten(Saved(p, id, progress, now)).Thrown?
  {
    var k := InProgressKey(id);
    assert k[|k| - |PROGRESS_SUFFIX|..] == PROGRESS_SUFFIX;
    assert k in Saved(p, id, progress, now) && !Saved(p, id, progress, now)[k].IntPref?;
  }

  /** A progress entry: a key ending in "_progress" that holds an int; the boolean in-progress flags are skipped. */
  predicate IsProgressEntry(p: Store, k: string)
  {
    k in p && EndsWith(k, PROGRESS_SUFFIX) && p[k].IntPref?
  }

  /** The articles counted as started among the keys `ks`. */
  function StartedAmong(p: Store, ks: set<string>): set<string>
  {
    set k | k in ks && IsProgressEntry(p, k)
  }

  /** The articles counted as completed among the keys `ks`: progress at least 100. */
  function CompletedAmong(p: Store, ks: set<string>): set<string>
  {
    set k | k in ks && IsProgressEntry(p, k) && p[k].i >= 100
  }

  /** Counting one more key adds it to the started set when it is a progress entry, and to the completed set when it also reads 100 or more. */
  lemma CountStep(p: Store, seen: set<string>, key: string)
    requires key in p && key !in seen
    ensures |StartedAmong(p, seen + {key})| == |StartedAmong(p, seen)| + (if IsProgressEntry(p, key) then 1 else 0)
    ensures |CompletedAmong(p, seen + {key})| ==
      |CompletedAmong(p, seen)| + (if IsProgressEntry(p, key) && p[key].i >= 100 then 1 else 0)
  {
    if IsProgressEntry(p, key) {
      assert StartedAmong(p, seen + {key}) == StartedAmong(p, seen) + {key};
      if p[key].i >= 100 {
        assert CompletedAmong(p, seen + {key}) == CompletedAmong(p, seen) + {key};
      } else {
        assert CompletedAmong(p, seen + {key}) == CompletedAmong(p, seen);
      }
    } else {
      assert StartedAmong(p, seen + {key}) == StartedAmong(p, seen);
      assert CompletedAmong(p, seen + {key}) == CompletedAmong(p, seen);
    }
  }

  lemma SubsetCardinality(a: set<string>, b: set<string>)
    requires a <= b
    ensures |a| <= |b|
  {
    assert b == a + (b - a);
  }

  /** The statistics the method computes: every saved article is started, and it is completed when it reads 100. */
  lemma SavedArticleIsCounted(p: Store, id: string, progress: Int32, now: Int64)
    ensures ProgressKey(id) in StartedAmong(Saved(p, id, progress, now), Saved(p, id, progress, now).Keys)
    ensures ProgressKey(id) in CompletedAmong(Saved(p, id, progress, now), Saved(p, id, progress, now).Keys) <==> progress >= 100
  {
    KeysDistinct(id);
    var k := ProgressKey(id);
    assert k[|k| - |PROGRESS_SUFFIX|..] == PROGRESS_SUFFIX;
  }

  class ReadingProgressManager {
    var prefs: Store

    constructor (stored: Store)
      ensures prefs == stored
    {
      prefs := stored;
    }

    /**
     * `saveReadingProgress`: stores the clamped progress, the time and the
     * in-progress flag, and gives the article the unclamped progress. A null
     * article or id changes nothing.
     */
    method SaveReadingProgress(article: Option<Article>, progress: Int32, now: Int64) returns (updated: Option<Article>)
      modifies this
      ensures article.None? || article.value.id.None? ==> updated == article && prefs == old(prefs)
      ensures article.Some? && article.value.id.Some? ==>
        && prefs == Saved(old(prefs), article.value.id.value, progress, now)
        && updated == Some(article.value.(readingProgress := progress))
    {
      if article.None? || article.value.id.None? {
        return article;
      }
      var articleId := article.value.id.value;
      var editor := prefs;
      var atMost100 := if progress < 100 then progress else 100;
      editor := editor[ProgressKey(articleId) := IntPref(if atMost100 > 0 then atMost100 else 0)];
      editor := editor[LastReadKey(articleId) := LongPref(now)];
      editor := editor[InProgressKey(articleId) := BoolPref(progress > 0 && progress < 100)];
      prefs := editor;
      updated := Some(article.value.(readingProgress := progress));
    }

    /** `getReadingProgress`. */
    function ReadingProgressOf(id: Option<string>): (r: Result<Int32>)
      reads this
      ensures r.Ok? ==> id.Some? && ProgressKey(id.value) in prefs ==> prefs[ProgressKey(id.value)] == IntPref(r.value)
      ensures id.None? || ProgressKey(id.value) !in prefs ==> r == Ok(0)
    {
      GetReadingProgress(prefs, id)
    }

    /**
     * `getContinueReadingArticles`: the articles with an id whose flag is set,
     * each carrying its stored progress, most recently read first.
     */
    method GetContinueReadingArticles(allArticles: seq<Article>) returns (r: Result<seq<Article>>)
      ensures r == ContinueReading(prefs, allArticles)
    {
      var continueReading: seq<Article> := [];
      var i := 0;
      while i < |allArticles|
        invariant 0 <= i <= |allArticles|
        invariant InProgressArticles(prefs, allArticles[..i]) == Ok(continueReading)
      {
        var article := allArticles[i];
        assert allArticles[..i + 1][..i] == allArticles[..i];
        if article.id.Some? {
          var isInProgress := GetBoolean(prefs, InProgressKey(article.id.value), false);
          if isInProgress.Thrown? {
            ThrownPrefix(prefs, allArticles, i + 1);
            return Thrown(isInProgress.exception);
          }
          if isInProgress.value {
            var progress := GetReadingProgress(prefs, article.id);
            if progress.Thrown? {
              ThrownPrefix(prefs, allArticles, i + 1);
              return Thrown(progress.exception);
            }
            continueReading := continueReading + [article.(readingProgress := progress.value)];
          }
        }
        i := i + 1;
      }
      assert allArticles[..i] == allArticles;
      return Ok(SortBy(continueReading, ReadMoreRecently));
    }

    /** `markArticleAsCompleted`: a save of 100. */
    method MarkArticleAsCompleted(article: Option<Article>, now: Int64) returns (updated: Option<Article>)
      modifies this
      ensures article.None? || article.value.id.None? ==> updated == article && prefs == old(prefs)
      ensures article.Some? && article.value.id.Some? ==>
        && prefs == Saved(old(prefs), article.value.id.value, 100, now)
        && updated == Some(article.value.(readingProgress := 100))
    {
      if article.None? || article.value.id.None? {
        return article;
      }
      updated := SaveReadingProgress(article, 100, now);
    }

    /** `clearReadingProgress`: removes the id's three keys; a null id changes nothing. */
    method ClearReadingProgress(id: Option<string>)
      modifies this
      ensures id.None? ==> prefs == old(prefs)
      ensures id.Some? ==> prefs == Cleared(old(prefs), id.value)
    {
      if id.None? {
        return;
      }
      var editor := prefs;
      editor := editor - {ProgressKey(id.value)};
      editor := editor - {LastReadKey(id.value)};
      editor := editor - {InProgressKey(id.value)};
      prefs := editor;
    }

    /**
     * `getReadingStats`, with the boolean in-progress flags skipped: started
     * counts the progress entries and completed those at 100 or more.
     */
    method GetReadingStats() returns (started: nat, completed: nat)
      ensures started == |StartedAmong(prefs, prefs.Keys)|
      ensures completed == |CompletedAmong(prefs, prefs.Keys)|
      ensures completed <= started
    {
      var keys := prefs.Keys;
      ghost var seen: set<string> := {};
      started, completed := 0, 0;
      while keys != {}
        invariant keys + seen == prefs.Keys && keys !! seen
        invariant started == |StartedAmong(prefs, seen)|
        invariant completed == |CompletedAmong(prefs, seen)|
        decreases |keys|
      {
        var key :| key in keys;
        var entry := prefs[key];
        CountStep(prefs, seen, key);
        if EndsWith(key, PROGRESS_SUFFIX) && entry.IntPref? {
          started := started + 1;
          if entry.i >= 100 {
            completed := completed + 1;
          }
        }
        keys := keys - {key};
        seen := seen + {key};
      }
      assert seen == prefs.Keys;
      SubsetCardinality(CompletedAmong(prefs, seen), StartedAmong(prefs, seen));
    }
  }
}
