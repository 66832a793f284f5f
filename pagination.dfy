/** The page cursor of `utils/PaginationUtils.java`. */
module Pagination {
  import opened JavaLang

  /** Multiplying by a non-negative factor keeps the order. */
  lemma MulMonotone(a: int, b: int, c: nat)
    requires a <= b
    ensures a * c <= b * c
  {
  }

  /** Integer ceiling division, the value `(int) Math.ceil((double) n / perPage)` computes for `int` operands. */
  function CeilDiv(n: nat, perPage: nat): (q: nat)
    requires perPage >= 1
    ensures (q - 1) * perPage < n <= q * perPage || (n == 0 && q == 0)
  {
    var m := n + perPage - 1;
    var q := m / perPage;
    assert m == q * perPage + m % perPage;
    assert (q - 1) * perPage == q * perPage - perPage;
    q
  }

  /** `calculateTotalPages`: one page for an empty list, otherwise enough pages to hold every item. */
  function TotalPagesFor(n: nat, perPage: nat): (pages: nat)
    requires perPage >= 1
    ensures pages >= 1
    ensures n > 0 ==> (pages - 1) * perPage < n <= pages * perPage
    ensures n <= perPage ==> pages == 1
  {
    if n == 0 then 1
    else
      var q := CeilDiv(n, perPage);
      assert n <= perPage ==> q <= 1 by {
        if q >= 2 { MulMonotone(1, q - 1, perPage); }
      }
      q
  }

  /** Page `page` (counted from 1): the items from `(page-1)*perPage` up to `page*perPage`, clipped to the list. */
  function Page<T>(s: seq<T>, perPage: nat, page: nat): (r: seq<T>)
    requires perPage >= 1 && page >= 1
    ensures |r| <= perPage
    ensures (page - 1) * perPage < |s| ==> r == s[(page - 1) * perPage..if page * perPage < |s| then page * perPage else |s|]
    ensures (page - 1) * perPage >= |s| ==> r == []
  {
    var from := (page - 1) * perPage;
    if from >= |s| then [] else s[from..if from + perPage < |s| then from + perPage else |s|]
  }

  /** Pages 1 to `k`, one after the other. */
  function PagesUpTo<T>(s: seq<T>, perPage: nat, k: nat): seq<T>
    requires perPage >= 1
  {
    if k == 0 then [] else PagesUpTo(s, perPage, k - 1) + Page(s, perPage, k)
  }

  /** The first `k` pages are exactly the first `k * perPage` items: pages neither overlap nor skip. */
  lemma {:induction false} PagesUpToIsPrefix<T>(s: seq<T>, perPage: nat, k: nat)
    requires perPage >= 1
    ensures PagesUpTo(s, perPage, k) == s[..if k * perPage < |s| then k * perPage else |s|]
  {
    if k > 0 {
      PagesUpToIsPrefix(s, perPage, k - 1);
      var lo := (k - 1) * perPage;
      assert k * perPage == lo + perPage;
      if lo < |s| {
        var hi := if k * perPage < |s| then k * perPage else |s|;
        assert s[..lo] + s[lo..hi] == s[..hi];
      }
    }
  }

  /** Reading every page in order gives back the whole list. */
  lemma AllPagesCoverList<T>(s: seq<T>, perPage: nat)
    requires perPage >= 1
    ensures PagesUpTo(s, perPage, TotalPagesFor(|s|, perPage)) == s
  {
    PagesUpToIsPrefix(s, perPage, TotalPagesFor(|s|, perPage));
  }

  /** Every page but the last is full, and the last one is not empty unless the list is. */
  lemma PageSizes<T>(s: seq<T>, perPage: nat, page: nat)
    requires perPage >= 1 && 1 <= page <= TotalPagesFor(|s|, perPage)
    ensures page < TotalPagesFor(|s|, perPage) ==> |Page(s, perPage, page)| == perPage
    ensures |s| > 0 ==> |Page(s, perPage, page)| > 0
  {
    var pages := TotalPagesFor(|s|, perPage);
    if page < pages {
      assert page * perPage <= (pages - 1) * perPage;
    }
    if |s| > 0 {
      assert (page - 1) * perPage <= (pages - 1) * perPage;
    }
  }

  class PaginationUtils<T> {
    var fullList: seq<T>
    const itemsPerPage: int
    var currentPage: int
    var totalPages: int

    ghost predicate Valid()
      reads this
    {
      1 <= itemsPerPage <= INT_MAX && |fullList| <= INT_MAX
      && totalPages == TotalPagesFor(|fullList|, itemsPerPage)
      && 1 <= currentPage <= totalPages
    }

    /** A null list becomes empty, and fewer than one item per page becomes one. */
    constructor (list: Option<seq<T>>, perPage: Int32)
      requires list.Some? ==> |list.value| <= INT_MAX
      ensures Valid()
      ensures fullList == list.GetOr([])
      ensures itemsPerPage == if perPage < 1 then 1 else perPage
      ensures currentPage == 1
    {
      fullList := list.GetOr([]);
      itemsPerPage := if perPage < 1 then 1 else perPage;
      currentPage := 1;
      new;
      totalPages := TotalPagesFor(|fullList|, itemsPerPage);
    }

    /**
     * `getCurrentPageItems`: the current page. The `int` sum `from + itemsPerPage`
     * is computed with wrap-around; the re-positioning to the last page when
     * the start is past the end never fires while `Valid()` holds.
     */
    method CurrentPageItems() returns (items: seq<T>)
      requires Valid()
      modifies this
      ensures Valid() && currentPage == old(currentPage) && fullList == old(fullList) && totalPages == old(totalPages)
      ensures currentPage * itemsPerPage <= INT_MAX ==> items == Page(fullList, itemsPerPage, currentPage)
      ensures currentPage * itemsPerPage > INT_MAX ==> items == []
    {
      if |fullList| == 0 {
        return [];
      }
      var fromIndex := (currentPage - 1) * itemsPerPage;
      MulMonotone(currentPage - 1, totalPages - 1, itemsPerPage);
      MulMonotone(0, currentPage - 1, itemsPerPage);
      if fromIndex >= |fullList| {
        currentPage := totalPages;
        fromIndex := (currentPage - 1) * itemsPerPage;
      }
      assert fromIndex + itemsPerPage == currentPage * itemsPerPage;
      var sum := Wrap32(fromIndex + itemsPerPage);
      var toIndex := if sum < |fullList| then sum else |fullList|;
      if fromIndex >= toIndex {
        return [];
      }
      items := fullList[fromIndex..toIndex];
    }

    /** `hasNextPage`: some item lies beyond the current page. */
    predicate HasNextPage()
      requires Valid()
      reads this
      ensures HasNextPage() <==> currentPage * itemsPerPage < |fullList|
    {
      assert currentPage < totalPages <==> currentPage * itemsPerPage < |fullList| by {
        if currentPage < totalPages {
          MulMonotone(currentPage, totalPages - 1, itemsPerPage);
        } else {
          MulMonotone(totalPages, currentPage, itemsPerPage);
        }
      }
      currentPage < totalPages
    }

    /** `hasPreviousPage`: some item lies before the current page. */
    predicate HasPreviousPage()
      requires Valid()
      reads this
      ensures HasPreviousPage() <==> (currentPage - 1) * itemsPerPage > 0
    {
      currentPage > 1
    }

    /** `nextPage`: moves forward and returns the new page only when there is one; otherwise nothing changes. */
    method NextPage() returns (items: seq<T>)
      requires Valid()
      modifies this
      ensures Valid() && fullList == old(fullList) && totalPages == old(totalPages)
      ensures old(HasNextPage()) ==> currentPage == old(currentPage) + 1
      ensures old(HasNextPage()) && currentPage * itemsPerPage <= INT_MAX ==> items == Page(fullList, itemsPerPage, currentPage)
      ensures !old(HasNextPage()) ==> currentPage == old(currentPage) && items == []
    {
      if HasNextPage() {
        currentPage := currentPage + 1;
        items := CurrentPageItems();
      } else {
        items := [];
      }
    }

    /** `previousPage`: moves back and returns the new page only when there is one; otherwise nothing changes. */
    method PreviousPage() returns (items: seq<T>)
      requires Valid()
      modifies this
      ensures Valid() && fullList == old(fullList) && totalPages == old(totalPages)
      ensures old(HasPreviousPage()) ==> currentPage == old(currentPage) - 1
      ensures old(HasPreviousPage()) && currentPage * itemsPerPage <= INT_MAX ==> items == Page(fullList, itemsPerPage, currentPage)
      ensures !old(HasPreviousPage()) ==> currentPage == old(currentPage) && items == []
    {
      if HasPreviousPage() {
        currentPage := currentPage - 1;
        items := CurrentPageItems();
      } else {
        items := [];
      }
    }

    /** `loadNextPage` has the same body as `nextPage`. */
    method LoadNextPage() returns (items: seq<T>)
      requires Valid()
      modifies this
      ensures Valid() && fullList == old(fullList) && totalPages == old(totalPages)
      ensures old(HasNextPage()) ==> currentPage == old(currentPage) + 1
      ensures old(HasNextPage()) && currentPage * itemsPerPage <= INT_MAX ==> items == Page(fullList, itemsPerPage, currentPage)
      ensures !old(HasNextPage()) ==> currentPage == old(currentPage) && items == []
    {
      items := NextPage();
    }

    /** `getCurrentPage` is another name for `getCurrentPageItems`. */
    method GetCurrentPage() returns (items: seq<T>)
      requires Valid()
      modifies this
      ensures Valid() && currentPage == old(currentPage) && fullList == old(fullList) && totalPages == old(totalPages)
      ensures currentPage * itemsPerPage <= INT_MAX ==> items == Page(fullList, itemsPerPage, currentPage)
    {
      items := CurrentPageItems();
    }

    /** `reset`. */
    method Reset()
      requires Valid()
      modifies this
      ensures Valid() && currentPage == 1 && fullList == old(fullList) && totalPages == old(totalPages)
    {
      currentPage := 1;
    }

    /** `updateData`: replaces the list (null becomes empty), recomputes the page count and goes back to page 1. */
    method UpdateData(newData: Option<seq<T>>)
      requires Valid()
      requires newData.Some? ==> |newData.value| <= INT_MAX
      modifies this
      ensures Valid()
      ensures fullList == newData.GetOr([]) && currentPage == 1
      ensures totalPages == TotalPagesFor(|fullList|, itemsPerPage)
    {
      fullList := newData.GetOr([]);
      totalPages := TotalPagesFor(|fullList|, itemsPerPage);
      currentPage := 1;
    }
  }
}
