/** The search filter state of `models/SearchFilters.java`. */
module Filters {
  import opened JavaLang
  import opened Sequences

  datatype SortBy = Relevance | DateNewest | DateOldest | Popularity
  datatype DateRange = AllTime | Last24Hours | LastWeek | LastMonth | LastYear

  /** The categories after `addCategory(c)`: a null or already present category is ignored, any other is appended. */
  function WithCategory(l: seq<string>, c: Option<string>): (r: seq<string>)
    ensures c.None? || c.value in l ==> r == l
    ensures c.Some? && c.value !in l ==> r == l + [c.value]
    ensures c.Some? ==> c.value in r
  {
    if c.Some? && c.value !in l then l + [c.value] else l
  }

  /** Adding a category keeps a duplicate-free list duplicate-free. */
  lemma WithCategoryNoDuplicates(l: seq<string>, c: Option<string>)
    requires NoDuplicates(l)
    ensures NoDuplicates(WithCategory(l, c))
  {
  }

  /** Adding a category twice is adding it once. */
  lemma WithCategoryIdempotent(l: seq<string>, c: Option<string>)
    ensures WithCategory(WithCategory(l, c), c) == WithCategory(l, c)
  {
  }

  /** Removing a category just added gives back the list it was added to. */
  lemma {:induction false} RemoveUndoesAdd(l: seq<string>, c: string)
    requires c !in l
    ensures RemoveFirst(WithCategory(l, Some(c)), c) == l
  {
    var r := l + [c];
    assert r[..|l|] == l;
    assert forall i :: 0 <= i < |l| ==> r[i] == l[i];
  }

  /** `String.hashCode`: the polynomial in 31 over the characters, in Java `int` arithmetic. */
  function StringHash(s: string): Int32
  {
    if s == [] then 0 else Wrap32(31 * StringHash(s[..|s| - 1]) + s[|s| - 1] as int)
  }

  /** `List.hashCode` of a list of strings: starts at 1 and folds each element's hash in with 31. */
  function ListHash(l: seq<string>): Int32
  {
    if l == [] then 1 else Wrap32(31 * ListHash(l[..|l| - 1]) + StringHash(l[|l| - 1]))
  }

  class SearchFilters {
    var sortBy: SortBy
    var dateRange: DateRange
    var selectedCategories: seq<string>

    /** A new filter: relevance order, all time, no categories. */
    constructor ()
      ensures sortBy == Relevance && dateRange == AllTime && selectedCategories == []
      ensures !HasActiveFilters()
    {
      sortBy := Relevance;
      dateRange := AllTime;
      selectedCategories := [];
    }

    /** `setSortBy`: null restores relevance order. */
    method SetSortBy(s: Option<SortBy>)
      modifies this
      ensures sortBy == s.GetOr(Relevance)
      ensures dateRange == old(dateRange) && selectedCategories == old(selectedCategories)
    {
      sortBy := if s.Some? then s.value else Relevance;
    }

    /** `setDateRange`: null restores all time. */
    method SetDateRange(d: Option<DateRange>)
      modifies this
      ensures dateRange == d.GetOr(AllTime)
      ensures sortBy == old(sortBy) && selectedCategories == old(selectedCategories)
    {
      dateRange := if d.Some? then d.value else AllTime;
    }

    /** `getSelectedCategories` hands out a copy; a sequence value cannot be changed through it. */
    method GetSelectedCategories() returns (copy: seq<string>)
      ensures copy == selectedCategories
    {
      copy := selectedCategories;
    }

    /** `setSelectedCategories`: clears the list, then copies the given one in (null leaves it empty). */
    method SetSelectedCategories(categories: Option<seq<string>>)
      modifies this
      ensures selectedCategories == categories.GetOr([])
      ensures sortBy == old(sortBy) && dateRange == old(dateRange)
    {
      selectedCategories := [];
      if categories.Some? {
        selectedCategories := selectedCategories + categories.value;
      }
    }

    /** `addCategory`: appends a non-null category that is not selected yet. */
    method AddCategory(category: Option<string>)
      modifies this
      ensures selectedCategories == WithCategory(old(selectedCategories), category)
      ensures NoDuplicates(old(selectedCategories)) ==> NoDuplicates(selectedCategories)
      ensures sortBy == old(sortBy) && dateRange == old(dateRange)
    {
      if category.Some? && category.value !in selectedCategories {
        selectedCategories := selectedCategories + [category.value];
      }
      if NoDuplicates(old(selectedCategories)) {
        WithCategoryNoDuplicates(old(selectedCategories), category);
      }
    }

    /** `removeCategory`: drops the first occurrence; null matches nothing, as the list holds no nulls. */
    method RemoveCategory(category: Option<string>)
      modifies this
      ensures category.None? ==> selectedCategories == old(selectedCategories)
      ensures category.Some? ==> selectedCategories == RemoveFirst(old(selectedCategories), category.value)
      ensures category.Some? && NoDuplicates(old(selectedCategories)) ==>
        NoDuplicates(selectedCategories) && category.value !in selectedCategories
      ensures sortBy == old(sortBy) && dateRange == old(dateRange)
    {
      if category.Some? {
        if NoDuplicates(selectedCategories) {
          RemoveFirstNoDuplicates(selectedCategories, category.value);
        }
        selectedCategories := RemoveFirst(selectedCategories, category.value);
      }
    }

    /** `clear`: back to the defaults, so no filter is active. */
    method Clear()
      modifies this
      ensures sortBy == Relevance && dateRange == AllTime && selectedCategories == []
      ensures !HasActiveFilters()
    {
      sortBy := Relevance;
      dateRange := AllTime;
      selectedCategories := [];
    }

    /** `hasActiveFilters`: the state differs from a freshly constructed filter. */
    predicate HasActiveFilters()
      reads this
      ensures HasActiveFilters() <==> !(sortBy == Relevance && dateRange == AllTime && selectedCategories == [])
    {
      sortBy != Relevance || dateRange != AllTime || |selectedCategories| != 0
    }

    /** `equals`: the same object, or another filter with the same order, range and category list. */
    predicate Equals(obj: SearchFilters?)
      reads this, obj
      ensures Equals(obj) <==>
        (obj != null && sortBy == obj.sortBy && dateRange == obj.dateRange && selectedCategories == obj.selectedCategories)
    {
      if this == obj then true
      else if obj == null then false
      else sortBy == obj.sortBy && dateRange == obj.dateRange && selectedCategories == obj.selectedCategories
    }

    /**
     * `hashCode`, with the enum constants' identity hashes as parameters:
     * `31 * (31 * h(sortBy) + h(dateRange)) + categories.hashCode()` in `int` arithmetic.
     */
    function HashCode(sortHash: SortBy -> Int32, rangeHash: DateRange -> Int32): (h: Int32)
      reads this
    {
      var result := sortHash(sortBy);
      var result' := Wrap32(31 * result + rangeHash(dateRange));
      Wrap32(31 * result' + ListHash(selectedCategories))
    }
  }

  /** Equal filters have equal hash codes, whatever hashes the enum constants have. */
  lemma EqualsHashCode(a: SearchFilters, b: SearchFilters, sortHash: SortBy -> Int32, rangeHash: DateRange -> Int32)
    requires a.Equals(b)
    ensures a.HashCode(sortHash, rangeHash) == b.HashCode(sortHash, rangeHash)
  {
  }

  /** `equals` is symmetric. */
  lemma EqualsSymmetric(a: SearchFilters, b: SearchFilters)
    ensures a.Equals(b) <==> b.Equals(a)
  {
  }
}
