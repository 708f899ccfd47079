/** The page selector under the thumbnail list (PaginationBar in
    paginationbar.cpp): First and Prev, a window of at most seven page
    buttons with "..." where pages are hidden, then Next and Last. The layout
    is modelled as the sequence of widgets it holds, from left to right. */
module Pagination {
  import opened QtText
  import opened Paging

  /** A widget in the bar's layout. */
  datatype Widget =
    | FirstButton | PrevButton | NextButton | LastButton
    | Dots                                // the "..." label
    | PageButton(page: int, checked: bool)
    | Stretch

  const WindowSize: int := 7

  /** The pages [start, end] that get a button. */
  datatype Window = Window(start: int, end: int)

  /** The window of rebuild: centred on the current page where possible,
      shifted to stay inside [1, total], and seven pages wide unless there
      are fewer pages. */
  function PageWindow(current: int, total: int): (w: Window)
    requires 1 <= current <= total
    ensures 1 <= w.start <= current <= w.end <= total
    ensures w.end - w.start + 1 == Min(WindowSize, total)
  {
    var start := Max(1, current - WindowSize / 2);
    var end := Min(total, start + WindowSize - 1);
    Window(Max(1, end - WindowSize + 1), end)
  }

  /** Away from both ends the window has three pages on each side of the
      current one. */
  lemma WindowCentred(current: int, total: int)
    requires 4 <= current <= total - 3
    ensures PageWindow(current, total) == Window(current - 3, current + 3)
  {
  }

  /** One checkable button per page of the window, the current one checked. */
  function PageButtons(start: int, end: int, current: int): (r: seq<Widget>)
    requires start <= end + 1
    ensures |r| == end - start + 1
    ensures forall i :: 0 <= i < |r| ==> r[i] == PageButton(start + i, start + i == current)
  {
    seq(end - start + 1, i => PageButton(start + i, start + i == current))
  }

  /** The layout rebuild produces for a given current page and page count. */
  function Layout(current: int, total: int): seq<Widget>
    requires 1 <= current <= total
  {
    var w := PageWindow(current, total);
    [FirstButton, PrevButton]
      + (if w.start > 1 then [Dots] else [])
      + PageButtons(w.start, w.end, current)
      + (if w.end < total then [Dots] else [])
      + [Stretch, NextButton, LastButton]
  }

  /** The pages of the page buttons, in layout order. */
  function ButtonPages(ws: seq<Widget>): seq<int>
    decreases |ws|
  {
    if ws == [] then []
    else (if ws[0].PageButton? then [ws[0].page] else []) + ButtonPages(ws[1..])
  }

  /** The pages of the checked page buttons, in layout order. */
  function CheckedPages(ws: seq<Widget>): seq<int>
    decreases |ws|
  {
    if ws == [] then []
    else (if ws[0].PageButton? && ws[0].checked then [ws[0].page] else []) + CheckedPages(ws[1..])
  }

  /** The ascending run start, start + 1, ..., end. */
  function Range(start: int, end: int): (r: seq<int>)
    requires start <= end + 1
    ensures |r| == end - start + 1
    ensures forall i :: 0 <= i < |r| ==> r[i] == start + i
  {
    seq(end - start + 1, i => start + i)
  }

  lemma {:induction false} ButtonPagesAppend(a: seq<Widget>, b: seq<Widget>)
    ensures ButtonPages(a + b) == ButtonPages(a) + ButtonPages(b)
    decreases |a|
  {
    if a == [] {
      assert a + b == b;
      AppendEmpty(ButtonPages(b));
    } else {
      assert (a + b)[0] == a[0] && (a + b)[1..] == a[1..] + b;
      ButtonPagesAppend(a[1..], b);
      AppendAssoc(if a[0].PageButton? then [a[0].page] else [], ButtonPages(a[1..]), ButtonPages(b));
    }
  }

  lemma {:induction false} CheckedPagesAppend(a: seq<Widget>, b: seq<Widget>)
    ensures CheckedPages(a + b) == CheckedPages(a) + CheckedPages(b)
    decreases |a|
  {
    if a == [] {
      assert a + b == b;
      AppendEmpty(CheckedPages(b));
    } else {
      assert (a + b)[0] == a[0] && (a + b)[1..] == a[1..] + b;
      CheckedPagesAppend(a[1..], b);
      AppendAssoc(if a[0].PageButton? && a[0].checked then [a[0].page] else [], CheckedPages(a[1..]), CheckedPages(b));
    }
  }

  lemma {:induction false} PageButtonsPages(start: int, end: int, current: int)
    requires start <= end + 1
    ensures ButtonPages(PageButtons(start, end, current)) == Range(start, end)
    ensures CheckedPages(PageButtons(start, end, current))
      == if start <= current <= end then [current] else []
    decreases end - start + 1
  {
    var bs := PageButtons(start, end, current);
    if start <= end {
      PageButtonsPages(start + 1, end, current);
      assert bs[1..] == PageButtons(start + 1, end, current);
      assert Range(start, end) == [start] + Range(start + 1, end);
    }
  }

  lemma NoButtons(ws: seq<Widget>)
    requires forall i :: 0 <= i < |ws| ==> !ws[i].PageButton?
    ensures ButtonPages(ws) == [] && CheckedPages(ws) == []
  {
    if ws != [] {
      NoButtons(ws[1..]);
    }
  }

  /** Widgets around a run of page buttons add no pages of their own. */
  lemma PagesOfSurrounded(head: seq<Widget>, mid: seq<Widget>, tail: seq<Widget>)
    requires forall i :: 0 <= i < |head| ==> !head[i].PageButton?
    requires forall i :: 0 <= i < |tail| ==> !tail[i].PageButton?
    ensures ButtonPages(head + mid + tail) == ButtonPages(mid)
    ensures CheckedPages(head + mid + tail) == CheckedPages(mid)
  {
    NoButtons(head);
    NoButtons(tail);
    ButtonPagesAppend(head, mid);
    ButtonPagesAppend(head + mid, tail);
    CheckedPagesAppend(head, mid);
    CheckedPagesAppend(head + mid, tail);
    AppendEmpty(ButtonPages(mid));
    AppendEmpty(CheckedPages(mid));
  }

  /** The layout as the widgets before the page buttons, the page buttons
      and the widgets after them. */
  lemma LayoutParts(current: int, total: int) returns (head: seq<Widget>, tail: seq<Widget>)
    requires 1 <= current <= total
    ensures var w := PageWindow(current, total);
      Layout(current, total) == head + PageButtons(w.start, w.end, current) + tail
    ensures forall i :: 0 <= i < |head| ==> !head[i].PageButton?
    ensures forall i :: 0 <= i < |tail| ==> !tail[i].PageButton?
  {
    var w := PageWindow(current, total);
    var lead := if w.start > 1 then [Dots] else [];
    var trail := if w.end < total then [Dots] else [];
    head := [FirstButton, PrevButton] + lead;
    tail := trail + [Stretch, NextButton, LastButton];
    AppendAssoc3(head, PageButtons(w.start, w.end, current), tail, [FirstButton, PrevButton], lead,
      trail, [Stretch, NextButton, LastButton]);
  }

  /** The layout shows exactly one button for each page of the window, in
      order, and only the current page's button is checked. */
  lemma LayoutButtons(current: int, total: int)
    requires 1 <= current <= total
    ensures var w := PageWindow(current, total);
      ButtonPages(Layout(current, total)) == Range(w.start, w.end)
    ensures CheckedPages(Layout(current, total)) == [current]
  {
    var w := PageWindow(current, total);
    var head, tail := LayoutParts(current, total);
    PagesOfSurrounded(head, PageButtons(w.start, w.end, current), tail);
    PageButtonsPages(w.start, w.end, current);
  }

  /** Layout spelled out from the window's ends and the two optional "...". */
  lemma LayoutIs(current: int, total: int, start: int, end: int, lead: seq<Widget>, trail: seq<Widget>)
    requires 1 <= current <= total
    requires Window(start, end) == PageWindow(current, total)
    requires lead == if start > 1 then [Dots] else []
    requires trail == if end < total then [Dots] else []
    ensures Layout(current, total)
      == [FirstButton, PrevButton] + lead + PageButtons(start, end, current) + trail
         + ([Stretch] + [NextButton, LastButton])
  {
    assert [Stretch] + [NextButton, LastButton] == [Stretch, NextButton, LastButton];
  }

  lemma AppendAssoc3(head: seq<Widget>, mid: seq<Widget>, tail: seq<Widget>,
                     a: seq<Widget>, b: seq<Widget>, c: seq<Widget>, d: seq<Widget>)
    requires head == a + b && tail == c + d
    ensures a + b + mid + c + d == head + mid + tail
  {
  }

  /** A "..." comes right after Prev exactly when pages before the window are
      hidden, and right before the stretch exactly when pages after it are. */
  lemma LayoutDots(current: int, total: int)
    requires 1 <= current <= total
    ensures var w := PageWindow(current, total);
      var ws := Layout(current, total);
      (ws[2] == Dots <==> w.start > 1) && (ws[|ws| - 4] == Dots <==> w.end < total)
  {
    var w := PageWindow(current, total);
    var lead := if w.start > 1 then [Dots] else [];
    var trail := if w.end < total then [Dots] else [];
    var mid := PageButtons(w.start, w.end, current);
    var ws := Layout(current, total);
    assert |mid| >= 1 && mid[0].PageButton? && mid[|mid| - 1].PageButton?;
    assert ws == [FirstButton, PrevButton] + lead + mid + trail + [Stretch, NextButton, LastButton];
    assert ws[2] == if w.start > 1 then Dots else mid[0];
    assert ws[|ws| - 4] == if w.end < total then Dots else mid[|mid| - 1];
  }

  class PaginationBar {
    var current: int
    var total: int
    /** The widgets in the layout, left to right. */
    var layout: seq<Widget>
    var firstEnabled: bool
    var prevEnabled: bool
    var nextEnabled: bool
    var lastEnabled: bool

    ghost predicate Valid()
      reads this
    {
      1 <= current <= total
    }

    /** The constructor: page 1 of 1, then rebuild. */
    constructor()
      ensures current == 1 && total == 1 && Valid()
      ensures layout == Layout(1, 1)
      ensures !firstEnabled && !prevEnabled && !nextEnabled && !lastEnabled
    {
      current, total := 1, 1;
      layout := [];
      new;
      Rebuild();
    }

    /** setPageInfo: at least one page, the current page clamped into range. */
    method SetPageInfo(currentPage: int, totalPages: int)
      modifies this
      ensures total == Max(1, totalPages)
      ensures current == Bound(1, currentPage, total)
      ensures Valid() && layout == Layout(current, total)
      ensures firstEnabled == prevEnabled == (current > 1)
      ensures nextEnabled == lastEnabled == (current < total)
    {
      current := Bound(1, currentPage, Max(1, totalPages));
      total := Max(1, totalPages);
      Rebuild();
    }

    /** rebuild: empties the layout, then adds First and Prev, the leading
        "...", one button per page of the window, the trailing "...", a
        stretch, Next and Last, and sets which of the four buttons are enabled. */
    method Rebuild()
      requires Valid()
      modifies this
      ensures current == old(current) && total == old(total)
      ensures layout == Layout(current, total)
      ensures firstEnabled == prevEnabled == (current > 1)
      ensures nextEnabled == lastEnabled == (current < total)
    {
      ClearLayout();
      layout := layout + [FirstButton, PrevButton];
      AppendEmpty([FirstButton, PrevButton]);
      firstEnabled := current > 1;
      prevEnabled := current > 1;
      nextEnabled := current < total;
      lastEnabled := current < total;

      var start := Max(1, current - WindowSize / 2);
      var end := Min(total, start + WindowSize - 1);
      start := Max(1, end - WindowSize + 1);
      assert Window(start, end) == PageWindow(current, total);

      ghost var lead: seq<Widget> := if start > 1 then [Dots] else [];
      ghost var trail: seq<Widget> := if end < total then [Dots] else [];
      if start > 1 {
        layout := layout + [Dots];
      } else {
        AppendEmpty(layout);
      }
      AddPageButtons(start, end);
      ghost var upToButtons := layout;
      if end < total {
        layout := layout + [Dots];
      } else {
        AppendEmpty(layout);
      }
      layout := layout + [Stretch];
      layout := layout + [NextButton, LastButton];
      AppendAssoc(upToButtons + trail, [Stretch], [NextButton, LastButton]);
      LayoutIs(current, total, start, end, lead, trail);
    }

    /** The loop at the top of rebuild that takes the items out of the layout
        one at a time until it is empty. */
    method ClearLayout()
      modifies this`layout
      ensures layout == []
    {
      while layout != []
        decreases |layout|
      {
        layout := layout[1..];
      }
    }

    /** The loop of rebuild that adds one checkable button per page from start
        to end, checking the one of the current page. */
    method AddPageButtons(start: int, end: int)
      requires start <= end + 1
      modifies this`layout
      ensures layout == old(layout) + PageButtons(start, end, current)
    {
      var p := start;
      while p <= end
        invariant start <= p <= end + 1
        invariant layout == old(layout) + PageButtons(start, p - 1, current)
        decreases end - p
      {
        ghost var before := PageButtons(start, p - 1, current);
        assert PageButtons(start, p, current) == before + [PageButton(p, p == current)];
        AppendAssoc(old(layout), before, [PageButton(p, p == current)]);
        layout := layout + [PageButton(p, p == current)];
        p := p + 1;
      }
    }

    /** The First button asks for page 1. */
    function FirstRequest(): (p: int)
      reads this
      ensures p == 1
    {
      1
    }

    /** Prev asks for the page before the current one, unclamped. */
    function PrevRequest(): (p: int)
      reads this
      ensures p + 1 == current
    {
      current - 1
    }

    /** Next asks for the page after the current one, unclamped. */
    function NextRequest(): (p: int)
      reads this
      ensures p - 1 == current
    {
      current + 1
    }

    /** Last asks for the last page. */
    function LastRequest(): (p: int)
      reads this
      ensures p == total
    {
      total
    }
  }

  /** The unclamped Prev and Next requests land on a page once the proxy's
      setCurrentPage clamps them: Prev on the first page and Next on the last
      page leave the page where it is. */
  lemma PrevNextAfterClamping(current: int, total: int)
    requires 1 <= current <= total
    ensures Bound(1, current - 1, total) == Max(1, current - 1)
    ensures Bound(1, current + 1, total) == Min(total, current + 1)
    ensures current == 1 ==> Bound(1, current - 1, total) == current
    ensures current == total ==> Bound(1, current + 1, total) == current
  {
  }
}
