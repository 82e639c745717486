/** The pagination controls of the to-do list: the sliding window of page
    buttons, the ellipses around it, and the First/Previous/Next/Last and
    page-button navigation with the rules that disable those buttons. All
    of it is `u32` arithmetic; an overflow the code does not guard against
    yields `None`. */
module Pagination {
  import opened Wrappers
  import opened MachineInt
  import Paging

  /** The number of page buttons shown at once. */
  const VISIBLE_PAGES: U32 := 5
  const HALF_VISIBLE: U32 := VISIBLE_PAGES / 2

  /** The half-open range `[start, end)` of pages that get a button. */
  datatype PageWindow = PageWindow(start: U32, end: U32) {

    predicate Valid() {
      start <= end
    }

    /** The page indices the buttons are drawn for, in ascending order. */
    function Pages(): (pages: seq<U32>)
      requires Valid()
      ensures |pages| == end - start
      ensures forall i :: 0 <= i < |pages| ==> pages[i] == start + i
    {
      seq(end - start, i requires 0 <= i < end - start => (start + i) as U32)
    }
  }

  function Clamp(x: int, lo: int, hi: int): int
    requires lo <= hi
  {
    if x < lo then lo else if x > hi then hi else x
  }

  // ---------------------------------------------------------------------
  // The window

  /** The window for page `current` out of `totalPages`. It fails only
      when `current + HALF_VISIBLE` overflows, which needs a current page
      within two of `u32::MAX`. Otherwise it is an ascending run of
      `min(5, totalPages)` pages inside `[0, totalPages)`, whatever
      `current` is, and it holds `current` when `current` is a page. */
  function VisiblePages(current: U32, totalPages: U32): (w: Option<PageWindow>)
    ensures w.Some? <==> current <= HALF_VISIBLE || current <= U32_MAX - HALF_VISIBLE
    ensures w.Some? ==> w.value.Valid() && w.value.end <= totalPages
    ensures w.Some? ==> w.value.end - w.value.start == Min(VISIBLE_PAGES, totalPages)
    ensures w.Some? && current < totalPages ==> w.value.start <= current < w.value.end
  {
    var start :-
      if current > HALF_VISIBLE then
        var reach :- CheckedAdd(current, HALF_VISIBLE);
        if reach >= totalPages then Some(SaturatingSub(totalPages, VISIBLE_PAGES))
        else Some(SaturatingSub(current, HALF_VISIBLE))
      else Some(0);
    // start <= max(totalPages - 5, current - 2) with current + 2 < totalPages,
    // so `start + VISIBLE_PAGES` cannot overflow
    Some(PageWindow(start, Min(start + VISIBLE_PAGES, totalPages)))
  }

  /** An independent description of the window: it starts two pages before
      `current`, pushed right to 0 and left to `totalPages - 5`. */
  lemma WindowIsClampedCentre(current: U32, totalPages: U32)
    requires current <= U32_MAX - HALF_VISIBLE
    ensures VisiblePages(current, totalPages).Some?
    ensures VisiblePages(current, totalPages).value.start
            == Clamp(current - HALF_VISIBLE, 0, if totalPages >= VISIBLE_PAGES then totalPages - VISIBLE_PAGES else 0)
  {
  }

  /** At the edges the window clamps instead of centring: it starts at 0
      for the first three pages and ends at the last page when `current` is
      within two of it; in between it is centred on `current`. */
  lemma WindowAtTheEdges(current: U32, totalPages: U32)
    requires current <= U32_MAX - HALF_VISIBLE
    ensures var w := VisiblePages(current, totalPages).value;
            && (current <= HALF_VISIBLE ==> w.start == 0)
            && (current + HALF_VISIBLE >= totalPages ==> w.end == totalPages)
            && (HALF_VISIBLE < current && current + HALF_VISIBLE < totalPages ==>
                  w.start == current - HALF_VISIBLE && w.end == current + HALF_VISIBLE + 1)
  {
  }

  // ---------------------------------------------------------------------
  // Ellipses

  /** `pages.first().copied().unwrap_or(0)`. */
  function FirstOrZero(pages: seq<U32>): U32 {
    if |pages| > 0 then pages[0] else 0
  }

  /** `pages.last().copied().unwrap_or(0)`. */
  function LastOrZero(pages: seq<U32>): U32 {
    if |pages| > 0 then pages[|pages| - 1] else 0
  }

  /** The "..." before the buttons: shown when the first button is past page 0. */
  function ShowStartEllipsis(pages: seq<U32>): bool {
    FirstOrZero(pages) > 0
  }

  /** The start ellipsis shows exactly when some page lies before the window. */
  lemma StartEllipsisMeansHiddenPages(current: U32, totalPages: U32)
    requires current <= U32_MAX - HALF_VISIBLE
    ensures var w := VisiblePages(current, totalPages).value;
            ShowStartEllipsis(w.Pages()) <==> 0 < w.start
  {
  }

  /** The "..." after the buttons as written: `last < total_pages - 1`, in
      `u32`. With no records `total_pages` is 0 and the subtraction
      underflows (`None`). */
  function EndEllipsisAsWritten(pages: seq<U32>, totalPages: U32): Option<bool> {
    var lastPage :- CheckedSub(totalPages, 1);
    Some(LastOrZero(pages) < lastPage)
  }

  /** With no pages the window is empty and the as-written end ellipsis
      underflows: a checked build panics, and a wrapping build compares
      `0 < u32::MAX` and draws an ellipsis with no page buttons at all. */
  lemma EndEllipsisUnderflowsWithoutPages(current: U32)
    requires current <= U32_MAX - HALF_VISIBLE
    ensures var w := VisiblePages(current, 0).value;
            && w.Pages() == []
            && EndEllipsisAsWritten(w.Pages(), 0) == None
            && LastOrZero(w.Pages()) < WrappingSub(0, 1)
  {
  }

  /** The end ellipsis as intended: shown when there is a last button and
      it is before the last page. */
  function ShowEndEllipsis(pages: seq<U32>, totalPages: U32): bool {
    |pages| > 0 && pages[|pages| - 1] + 1 < totalPages
  }

  /** The corrected end ellipsis shows exactly when some page lies after
      the window, never underflows, and agrees with the original wherever
      the original does not underflow. */
  lemma EndEllipsisMeansHiddenPages(current: U32, totalPages: U32)
    requires current <= U32_MAX - HALF_VISIBLE
    ensures var w := VisiblePages(current, totalPages).value;
            ShowEndEllipsis(w.Pages(), totalPages) <==> w.end < totalPages
    ensures var w := VisiblePages(current, totalPages).value;
            totalPages >= 1 ==> EndEllipsisAsWritten(w.Pages(), totalPages) == Some(ShowEndEllipsis(w.Pages(), totalPages))
  {
  }

  // ---------------------------------------------------------------------
  // Navigation

  /** The buttons of the controls; `Jump(p)` is the button of page `p`. */
  datatype NavAction = First | Previous | Next | Last | Jump(page: U32)

  /** First and Previous are disabled on page 0. */
  function BackDisabled(current: U32): bool {
    current == 0
  }

  /** Next and Last are disabled when `current + 1 >= total_pages`; the
      sum is formed in `u32`. */
  function ForwardDisabled(current: U32, totalPages: U32): Option<bool> {
    var following :- CheckedAdd(current, 1);
    Some(following >= totalPages)
  }

  /** The page a click on `action` sets. The handlers of Previous and Next
      re-check their bound and do nothing at it; First, Last and the page
      buttons assign unconditionally (Last computes `total_pages - 1`,
      which underflows with no pages). */
  function Navigate(action: NavAction, current: U32, totalPages: U32): Option<U32> {
    match action
    case First => Some(0)
    case Previous => if current > 0 then Some(current - 1) else Some(current)
    case Next =>
      var following :- CheckedAdd(current, 1);
      if following < totalPages then Some(following) else Some(current)
    case Last => CheckedSub(totalPages, 1)
    case Jump(page) => Some(page)
  }

  /** Whether the button of `action` can be clicked; a page button is
      there only for a page of the window. */
  function Enabled(action: NavAction, current: U32, totalPages: U32, window: PageWindow): Option<bool>
    requires window.Valid()
  {
    match action
    case First => Some(!BackDisabled(current))
    case Previous => Some(!BackDisabled(current))
    case Next => var d :- ForwardDisabled(current, totalPages); Some(!d)
    case Last => var d :- ForwardDisabled(current, totalPages); Some(!d)
    case Jump(page) => Some(page in window.Pages())
  }

  /** Previous never goes below page 0 and Next never reaches
      `totalPages`; at their bound both leave the page alone. First goes to
      page 0, Last to the final page and a page button to its page. */
  lemma NavigationTargets(current: U32, totalPages: U32)
    ensures Navigate(First, current, totalPages) == Some(0)
    ensures Navigate(Previous, current, totalPages) == Some(if current > 0 then current - 1 else 0)
    ensures current < U32_MAX ==>
              Navigate(Next, current, totalPages) == Some(if current + 1 < totalPages then current + 1 else current)
    ensures current == U32_MAX ==> Navigate(Next, current, totalPages) == None
    ensures totalPages >= 1 ==> Navigate(Last, current, totalPages) == Some(totalPages - 1)
    ensures forall p: U32 :: Navigate(Jump(p), current, totalPages) == Some(p)
  {
  }

  /** First and Previous are disabled exactly on page 0; Next and Last
      exactly when there is no following page, so a clickable Last never
      computes `0 - 1`. */
  lemma DisableRules(current: U32, totalPages: U32, window: PageWindow)
    requires current < U32_MAX && window.Valid()
    ensures Enabled(First, current, totalPages, window) == Some(current != 0)
    ensures Enabled(Previous, current, totalPages, window) == Some(current != 0)
    ensures Enabled(Next, current, totalPages, window) == Some(current + 1 < totalPages)
    ensures Enabled(Last, current, totalPages, window) == Some(current + 1 < totalPages)
    ensures Enabled(Last, current, totalPages, window) == Some(true) ==>
              Navigate(Last, current, totalPages).Some?
  {
  }

  /** The pages the controls can be on: page 0, or a real page. */
  predicate InRange(current: U32, totalPages: U32) {
    current == 0 || current < totalPages
  }

  /** Clicking any enabled button of the controls drawn for an in-range
      page succeeds and lands on an in-range page again. */
  lemma NavigationStaysInRange(action: NavAction, current: U32, totalPages: U32)
    requires totalPages <= U32_MAX - 1
    requires InRange(current, totalPages)
    requires Enabled(action, current, totalPages, VisiblePages(current, totalPages).value) == Some(true)
    ensures Navigate(action, current, totalPages).Some?
    ensures InRange(Navigate(action, current, totalPages).value, totalPages)
  {
    var w := VisiblePages(current, totalPages).value;
    if action.Jump? {
      var i :| 0 <= i < |w.Pages()| && w.Pages()[i] == action.page;
    }
  }

  // ---------------------------------------------------------------------
  // The controls as drawn

  /** Everything the controls show for one response. */
  datatype Controls = Controls(
    totalPages: U32,
    pages: seq<U32>,
    firstDisabled: bool,
    previousDisabled: bool,
    nextDisabled: bool,
    lastDisabled: bool,
    startEllipsis: bool,
    endEllipsis: bool)

  /** The controls for a response of `total` records while the list is on
      `current`, with the end ellipsis corrected. */
  function RenderControls(total: U32, current: U32): (c: Option<Controls>)
    ensures c.Some? <==> total <= U32_MAX - Paging.PER_PAGE && current <= U32_MAX - HALF_VISIBLE
    ensures c.Some? ==> Paging.TotalPages(total) == Some(c.value.totalPages)
    ensures c.Some? ==>
              var w := VisiblePages(current, c.value.totalPages).value;
              && c.value.pages == w.Pages()
              && (c.value.startEllipsis <==> 0 < w.start)
              && (c.value.endEllipsis <==> w.end < c.value.totalPages)
    ensures c.Some? ==> c.value.nextDisabled == c.value.lastDisabled == (current + 1 >= c.value.totalPages)
    ensures c.Some? ==> c.value.firstDisabled == c.value.previousDisabled == (current == 0)
    ensures c.Some? ==> |c.value.pages| == Min(VISIBLE_PAGES, c.value.totalPages)
  {
    var totalPages :- Paging.TotalPages(total);
    var window :- VisiblePages(current, totalPages);
    // the window already needed `current + 2` to fit, so `current + 1` does
    var forward := ForwardDisabled(current, totalPages).value;
    var pages := window.Pages();
    StartEllipsisMeansHiddenPages(current, totalPages);
    EndEllipsisMeansHiddenPages(current, totalPages);
    Some(Controls(totalPages, pages, BackDisabled(current), BackDisabled(current), forward, forward,
                  ShowStartEllipsis(pages), ShowEndEllipsis(pages, totalPages)))
  }

  /** With no records there are no pages and no buttons and every
      navigation button is disabled. The corrected controls draw no
      ellipsis; the original end ellipsis would compute `0 - 1` there. */
  lemma EmptyListControls()
    ensures RenderControls(0, 0) == Some(Controls(0, [], true, true, true, true, false, false))
    ensures EndEllipsisAsWritten([], 0) == None
  {
  }

  /** 23 records on page 0: three pages, all shown, only Next and Last
      enabled; after Last, page 2 has only First and Previous enabled. */
  lemma TwentyThreeRecords()
    ensures RenderControls(23, 0) == Some(Controls(3, [0, 1, 2], true, true, false, false, false, false))
    ensures Navigate(Last, 0, 3) == Some(2)
    ensures RenderControls(23, 2) == Some(Controls(3, [0, 1, 2], false, false, true, true, false, false))
  {
    var w := VisiblePages(0, 3).value;
    assert w.Pages() == [0, 1, 2];
    var w2 := VisiblePages(2, 3).value;
    assert w2.Pages() == [0, 1, 2];
  }
}
