/** The paging proxy in front of the thumbnail list (PagedProxy in
    pagedproxy.cpp): it shows one page of `pageSize` source rows at a time
    and maps row indexes between the page and the source. The source model is
    reduced to its row and column counts. */
module Paging {
  import opened Wrappers

  function Max(a: int, b: int): int {
    if a >= b then a else b
  }

  function Min(a: int, b: int): int {
    if a <= b then a else b
  }

  /** qBound(lo, v, hi): `v` clamped into [lo, hi]. */
  function Bound(lo: int, v: int, hi: int): (r: int)
    requires lo <= hi
    ensures lo <= r <= hi
    ensures lo <= v <= hi ==> r == v
    ensures v < lo ==> r == lo
    ensures v > hi ==> r == hi
  {
    Max(lo, Min(v, hi))
  }

  /** totalPages for `items` source rows: at least one page, and otherwise
      just enough pages of `pageSize` rows to hold every row. */
  function PageCount(items: int, pageSize: int): (r: int)
    requires pageSize >= 1
    ensures r >= 1
    ensures items <= 0 ==> r == 1
    ensures items > 0 ==> (r - 1) * pageSize < items <= r * pageSize
  {
    if items <= 0 then 1
    else
      var q := (items + pageSize - 1) / pageSize;
      CeilingDivision(items, pageSize);
      Max(1, q)
  }

  lemma MulMonotone(a: int, b: int, c: int)
    requires a <= b && c >= 0
    ensures a * c <= b * c
  {
    assert b * c - a * c == (b - a) * c;
  }

  lemma MulLessCancel(a: int, b: int, c: int)
    requires c >= 1 && a * c < b * c
    ensures a < b
  {
    if b <= a {
      MulMonotone(b, a, c);
    }
  }

  lemma CeilingDivision(items: int, pageSize: int)
    requires items > 0 && pageSize >= 1
    ensures var q := (items + pageSize - 1) / pageSize;
      q >= 1 && (q - 1) * pageSize < items <= q * pageSize
  {
    var n := items + pageSize - 1;
    var q, m := n / pageSize, n % pageSize;
    assert n == q * pageSize + m && 0 <= m < pageSize;
    assert (q - 1) * pageSize == q * pageSize - pageSize;
    MulLessCancel(0, q, pageSize);
  }

  /** The first source row of `page`. */
  function PageStart(page: int, pageSize: int): int {
    (page - 1) * pageSize
  }

  /** rowCount: how many source rows fall on `page`. */
  function PageRowCount(items: int, pageSize: int, page: int): (n: int)
    requires pageSize >= 0
    ensures 0 <= n <= pageSize
  {
    var start := PageStart(page, pageSize);
    var end := Min(start + pageSize, items);
    Max(0, end - start)
  }

  /** Row `r` of the page exists exactly when it is below the page size and
      its source row exists. */
  lemma PageRowMembership(items: int, pageSize: int, page: int, r: int)
    requires pageSize >= 1 && page >= 1 && items >= 0
    ensures 0 <= r < PageRowCount(items, pageSize, page)
      <==> 0 <= r < pageSize && PageStart(page, pageSize) + r < items
  {
  }

  /** The pages partition the source rows: every source row is on page
      s / pageSize + 1, which is one of the pages, and appears there ... */
  lemma EveryRowOnItsPage(items: int, pageSize: int, s: int)
    requires pageSize >= 1 && 0 <= s < items
    ensures 1 <= s / pageSize + 1 <= PageCount(items, pageSize)
    ensures 0 <= s - PageStart(s / pageSize + 1, pageSize) < PageRowCount(items, pageSize, s / pageSize + 1)
  {
    var q, m := s / pageSize, s % pageSize;
    assert s == q * pageSize + m && 0 <= m < pageSize;
    assert PageStart(q + 1, pageSize) == q * pageSize;
    var tp := PageCount(items, pageSize);
    MulLessCancel(q, tp, pageSize);
  }

  /** ... and on no other page. */
  lemma RowOnOnePageOnly(pageSize: int, s: int, page: int)
    requires pageSize >= 1 && 0 <= s
    requires 0 <= s - PageStart(page, pageSize) < pageSize
    ensures page == s / pageSize + 1
  {
    var q, m := s / pageSize, s % pageSize;
    assert s == q * pageSize + m && 0 <= m < pageSize;
    assert (q + 1) * pageSize == q * pageSize + pageSize;
    assert page * pageSize == (page - 1) * pageSize + pageSize;
    MulLessCancel(page - 1, q + 1, pageSize);
    MulLessCancel(q, page, pageSize);
  }

  /** For a non-empty source every page up to the page count has rows, and
      the pages after it have none. */
  lemma PagesInRangeAreNonEmpty(items: int, pageSize: int, page: int)
    requires pageSize >= 1 && items > 0 && page >= 1
    ensures page <= PageCount(items, pageSize) <==> PageRowCount(items, pageSize, page) >= 1
  {
    var tp := PageCount(items, pageSize);
    if page <= tp {
      MulMonotone(page - 1, tp - 1, pageSize);
    } else {
      MulMonotone(tp, page - 1, pageSize);
    }
  }

  /** What the proxy reads of its source model. */
  datatype SourceModel = SourceModel(rows: nat, columns: nat)

  /** QModelIndex reduced to validity and position (top-level indexes only). */
  datatype ModelIndex = InvalidIndex | IndexAt(row: int, column: int)

  /** index() of the source model: valid exactly inside the source. */
  function SourceIndex(sm: SourceModel, row: int, column: int): (r: ModelIndex)
    ensures r.IndexAt? <==> 0 <= row < sm.rows && 0 <= column < sm.columns
    ensures r.IndexAt? ==> r == IndexAt(row, column)
  {
    if 0 <= row < sm.rows && 0 <= column < sm.columns then IndexAt(row, column) else InvalidIndex
  }

  class PagedProxy {
    var pageSize: int
    var currentPage: int
    var source: Option<SourceModel>

    /** The page size is positive and the current page is one of the pages. */
    ghost predicate Valid()
      reads this
    {
      pageSize >= 1 && 1 <= currentPage <= TotalPages()
    }

    /** The defaults of pagedproxy.h: 60 rows per page, on page 1, no source. */
    constructor()
      ensures pageSize == 60 && currentPage == 1 && source == None
      ensures Valid()
    {
      pageSize := 60;
      currentPage := 1;
      source := None;
    }

    /** totalItems: the source's row count, 0 without a source. */
    function TotalItems(): nat
      reads this
    {
      if source.Some? then source.value.rows else 0
    }

    function TotalPages(): (r: int)
      requires pageSize >= 1
      reads this
      ensures r >= 1
    {
      PageCount(TotalItems(), pageSize)
    }

    function ColumnCount(): nat
      reads this
    {
      if source.Some? then source.value.columns else 0
    }

    /** rowCount: the rows on the current page, none without a source. */
    function RowCount(): (n: int)
      requires Valid()
      reads this
      ensures 0 <= n <= pageSize
    {
      if source.None? then 0 else PageRowCount(TotalItems(), pageSize, currentPage)
    }

    /** index: a valid index exactly for rows and columns of the current page. */
    function Index(row: int, column: int): (r: ModelIndex)
      requires Valid()
      reads this
      ensures r.IndexAt? <==> 0 <= row < RowCount() && 0 <= column < ColumnCount()
      ensures r.IndexAt? ==> r == IndexAt(row, column)
    {
      if row < 0 || column < 0 then InvalidIndex
      else if row >= RowCount() || column >= ColumnCount() then InvalidIndex
      else IndexAt(row, column)
    }

    /** mapToSource: row `r` of the page is source row (page - 1) * pageSize + r. */
    function MapToSource(proxyIndex: ModelIndex): (r: ModelIndex)
      requires Valid()
      reads this
      ensures source.None? || proxyIndex.InvalidIndex? ==> r == InvalidIndex
      ensures source.Some? && proxyIndex.IndexAt? ==>
        r == SourceIndex(source.value, PageStart(currentPage, pageSize) + proxyIndex.row, proxyIndex.column)
    {
      if source.None? || proxyIndex.InvalidIndex? then InvalidIndex
      else
        var sourceRow := PageStart(currentPage, pageSize) + proxyIndex.row;
        SourceIndex(source.value, sourceRow, proxyIndex.column)
    }

    /** mapFromSource: source rows outside the current page have no proxy index. */
    function MapFromSource(sourceIndex: ModelIndex): (r: ModelIndex)
      requires Valid()
      reads this
      ensures sourceIndex.IndexAt? && source.Some? ==>
        (r.IndexAt? <==>
          var k := sourceIndex.row - PageStart(currentPage, pageSize);
          0 <= k < RowCount() && 0 <= sourceIndex.column < ColumnCount())
      ensures source.None? || sourceIndex.InvalidIndex? ==> r == InvalidIndex
      ensures r.IndexAt? ==> r == IndexAt(sourceIndex.row - PageStart(currentPage, pageSize), sourceIndex.column)
    {
      if source.None? || sourceIndex.InvalidIndex? then InvalidIndex
      else
        var start := PageStart(currentPage, pageSize);
        var r := sourceIndex.row - start;
        if r < 0 || r >= pageSize then InvalidIndex
        else Index(r, sourceIndex.column)
    }

    /** setPageSize: the size is clamped to at least 1; an actual change goes
        back to page 1 and reports `changed` (the reset and pagingChanged). */
    method SetPageSize(ps: int) returns (changed: bool)
      requires Valid()
      modifies this
      ensures Valid()
      ensures changed <==> old(pageSize) != Max(1, ps)
      ensures pageSize == Max(1, ps) && source == old(source)
      ensures currentPage == if changed then 1 else old(currentPage)
    {
      var size := Max(1, ps);
      if pageSize == size {
        return false;
      }
      pageSize := size;
      currentPage := 1;
      changed := true;
    }

    /** setCurrentPage: the page is clamped into [1, totalPages]; nothing
        happens when that is already the current page. */
    method SetCurrentPage(page: int) returns (changed: bool)
      requires Valid()
      modifies this
      ensures Valid()
      ensures currentPage == Bound(1, page, old(TotalPages()))
      ensures changed <==> currentPage != old(currentPage)
      ensures pageSize == old(pageSize) && source == old(source)
    {
      var tp := TotalPages();
      var p := Bound(1, page, tp);
      if currentPage == p {
        return false;
      }
      currentPage := p;
      changed := true;
    }

    /** onSourceModelResetOrChanged: a current page past the last page is
        lowered to the last page; the page is never raised. */
    method OnSourceModelResetOrChanged()
      requires pageSize >= 1 && currentPage >= 1
      modifies this
      ensures Valid()
      ensures currentPage == Min(old(currentPage), TotalPages())
      ensures currentPage <= old(currentPage)
      ensures pageSize == old(pageSize) && source == old(source)
    {
      var tp := TotalPages();
      if currentPage > tp {
        currentPage := tp;
      }
    }

    /** setSourceModel: the new source is attached and the current page is
        brought back into range. */
    method SetSourceModel(sm: Option<SourceModel>)
      requires Valid()
      modifies this
      ensures Valid()
      ensures source == sm && pageSize == old(pageSize)
      ensures currentPage == Min(old(currentPage), TotalPages())
    {
      source := sm;
      OnSourceModelResetOrChanged();
    }

    /** A reset, layout change, insertion or removal in the attached source:
        the source now has the shape `sm`, and the connected slot runs. */
    method SourceChanged(sm: SourceModel)
      requires Valid() && source.Some?
      modifies this
      ensures Valid()
      ensures source == Some(sm) && pageSize == old(pageSize)
      ensures currentPage == Min(old(currentPage), TotalPages())
    {
      source := Some(sm);
      OnSourceModelResetOrChanged();
    }
  }

  /** Every valid index of the page maps to a source index and back. */
  lemma MapRoundTrip(p: PagedProxy, row: int, column: int)
    requires p.Valid()
    requires p.Index(row, column).IndexAt?
    ensures p.MapToSource(p.Index(row, column)).IndexAt?
    ensures p.MapFromSource(p.MapToSource(p.Index(row, column))) == p.Index(row, column)
  {
    var s := p.source.value;
    var start := PageStart(p.currentPage, p.pageSize);
    PageRowMembership(s.rows, p.pageSize, p.currentPage, row);
  }

  /** A source index on the current page maps to the page and back; one off
      the page has no proxy index. */
  lemma MapFromSourceRoundTrip(p: PagedProxy, row: int, column: int)
    requires p.Valid() && p.source.Some?
    requires 0 <= row < p.source.value.rows && 0 <= column < p.source.value.columns
    ensures var start := PageStart(p.currentPage, p.pageSize);
      p.MapFromSource(IndexAt(row, column)).IndexAt? <==> start <= row < start + p.RowCount()
    ensures p.MapFromSource(IndexAt(row, column)).IndexAt? ==>
      p.MapToSource(p.MapFromSource(IndexAt(row, column))) == IndexAt(row, column)
  {
  }

  /** The page size shown by default is 60 and the proxy starts on page 1 of 1. */
  lemma DefaultsGiveOnePage(p: PagedProxy)
    requires p.pageSize == 60 && p.currentPage == 1 && p.source.None?
    ensures p.Valid() && p.TotalPages() == 1 && p.RowCount() == 0
  {
  }
}
