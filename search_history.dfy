/** The recent-search list of `utils/SearchHistoryManager.java`. */
module SearchHistory {
  import opened JavaLang
  import opened Sequences

  const MAX_HISTORY_SIZE: nat := 5

  /**
   * What the preferences hold under the history key: nothing, a value that
   * does not parse as a list (or is empty or JSON null), or a saved list.
   */
  datatype Stored = Missing | Unreadable | Saved(entries: seq<string>)

  /** `getSearchHistory`: the saved list, or an empty list when there is none or it does not parse. */
  function ReadHistory(stored: Stored): (h: seq<string>)
    ensures stored.Saved? ==> h == stored.entries
    ensures !stored.Saved? ==> h == []
  {
    if stored.Saved? then stored.entries else []
  }

  /**
   * The list `addSearchQuery` saves: the trimmed query moved (or added) to
   * the front, keeping at most five entries. A null or blank query changes nothing.
   */
  function WithQueryAdded(h: seq<string>, query: Option<string>): (r: seq<string>)
    ensures query.None? || IsBlank(query.value) ==> r == h
    ensures query.Some? && !IsBlank(query.value) ==>
      && 1 <= |r| <= MAX_HISTORY_SIZE
      && r[0] == Trim(query.value)
      && r[1..] <= RemoveFirst(h, Trim(query.value))
      && |r| == if |RemoveFirst(h, Trim(query.value))| < MAX_HISTORY_SIZE then |RemoveFirst(h, Trim(query.value))| + 1 else MAX_HISTORY_SIZE
  {
    if query.None? || IsBlank(query.value) then h
    else
      var t := Trim(query.value);
      var moved := [t] + RemoveFirst(h, t);
      if |moved| > MAX_HISTORY_SIZE then moved[..MAX_HISTORY_SIZE] else moved
  }

  /** Adding never creates a duplicate: a duplicate-free history stays duplicate-free. */
  lemma AddKeepsNoDuplicates(h: seq<string>, query: Option<string>)
    requires NoDuplicates(h)
    ensures NoDuplicates(WithQueryAdded(h, query))
  {
    if query.Some? && !IsBlank(query.value) {
      var t := Trim(query.value);
      var rest := RemoveFirst(h, t);
      RemoveFirstNoDuplicates(h, t);
      var r := WithQueryAdded(h, query);
      forall i, j | 0 <= i < j < |r| ensures r[i] != r[j] {
        if i > 0 {
          assert r[i] == rest[i - 1] && r[j] == rest[j - 1];
        } else {
          assert r[j] == rest[j - 1];
        }
      }
    }
  }

  /** Adding the same query twice in a row is the same as adding it once. */
  lemma AddTwiceIsAddOnce(h: seq<string>, query: Option<string>)
    requires NoDuplicates(h)
    ensures WithQueryAdded(WithQueryAdded(h, query), query) == WithQueryAdded(h, query)
  {
    if query.Some? && !IsBlank(query.value) {
      var t := Trim(query.value);
      var once := WithQueryAdded(h, query);
      AddKeepsNoDuplicates(h, query);
      assert IndexOf(once, t) == 0;
      assert RemoveFirst(once, t) == once[1..];
      TrimIdempotent(query.value);
    }
  }

  /** The list `removeSearchQuery` saves: the first occurrence of the trimmed query removed; null changes nothing. */
  function WithQueryRemoved(h: seq<string>, query: Option<string>): (r: seq<string>)
    ensures query.None? ==> r == h
    ensures query.Some? ==> multiset(r) == multiset(h) - multiset{Trim(query.value)}
    ensures query.Some? && NoDuplicates(h) ==> Trim(query.value) !in r
  {
    if query.None? then h
    else
      var t := Trim(query.value);
      RemoveFirstMultiset(h, t);
      if NoDuplicates(h) then
        RemoveFirstNoDuplicates(h, t);
        RemoveFirst(h, t)
      else RemoveFirst(h, t)
  }

  class SearchHistoryManager {
    var stored: Stored

    /** The manager over whatever the preferences file already holds. */
    constructor (stored: Stored)
      ensures this.stored == stored
    {
      this.stored := stored;
    }

    function SearchHistory(): seq<string>
      reads this
    {
      ReadHistory(stored)
    }

    /** `addSearchQuery`: a null or blank query returns before anything is read or saved. */
    method AddSearchQuery(query: Option<string>)
      modifies this
      ensures query.None? || IsBlank(query.value) ==> stored == old(stored)
      ensures query.Some? && !IsBlank(query.value) ==> stored == Saved(WithQueryAdded(old(SearchHistory()), query))
      ensures query.Some? && !IsBlank(query.value) ==> !IsHistoryEmpty() && SearchHistory()[0] == Trim(query.value)
    {
      if query.None? || IsBlank(query.value) {
        return;
      }
      var historyList := SearchHistory();
      var t := Trim(query.value);
      historyList := RemoveFirst(historyList, t);
      historyList := [t] + historyList;
      if |historyList| > MAX_HISTORY_SIZE {
        historyList := historyList[..MAX_HISTORY_SIZE];
      }
      stored := Saved(historyList);
    }

    /** `removeSearchQuery`: a null query returns at once; otherwise the list is saved back even if nothing was removed. */
    method RemoveSearchQuery(query: Option<string>)
      modifies this
      ensures query.None? ==> stored == old(stored)
      ensures query.Some? ==> stored == Saved(WithQueryRemoved(old(SearchHistory()), query))
    {
      if query.None? {
        return;
      }
      var history := SearchHistory();
      history := RemoveFirst(history, Trim(query.value));
      stored := Saved(history);
    }

    /** `clearSearchHistory` removes the key. */
    method ClearSearchHistory()
      modifies this
      ensures stored == Missing && SearchHistory() == []
    {
      stored := Missing;
    }

    /** `isHistoryEmpty`. */
    predicate IsHistoryEmpty()
      reads this
      ensures IsHistoryEmpty() <==> !stored.Saved? || stored.entries == []
    {
      SearchHistory() == []
    }
  }
}
