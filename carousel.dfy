/**
 * The `Carousel` component as a stateful object: the props it reads
 * (`pageWidth`, `sneak`, `initialPage`, whether `onPageChange` is given), the
 * window width read once at load, the state fields `gap` and `activePage`,
 * and two logs standing for the side effects it issues: every `scrollTo` on
 * the host scroll view (by its x target; y is always 0) and every call of
 * `onPageChange`.
 */
module CarouselComponent {
  import opened Wrappers
  import opened Geometry

  /**
   * `activePage` before any gesture: `initialPage || 0`. `None` stands for a
   * `null` prop, which is falsy and is not replaced by the default; an absent
   * prop defaults to `Some(0)`. On integers `x || 0` is `x`.
   */
  function InitialActivePage(initialPage: Option<int>): int
  {
    match initialPage
    case None => 0
    case Some(p) => p
  }

  /** `componentDidMount` navigates only for an initial page greater than 0. */
  predicate NavigatesOnMount(initialPage: Option<int>)
  {
    initialPage.Some? && initialPage.value > 0
  }

  class Carousel {
    /** Window width, read once when the module loads. */
    const width: real
    /** The `initialPage` prop. */
    const initialPage: Option<int>
    /** Whether an `onPageChange` callback is given. */
    const hasOnPageChange: bool

    /** The `pageWidth` and `sneak` props in force. */
    var pageWidth: real
    var sneak: real
    /** State: spacing between pages, set by `CalculateGap`. */
    var gap: real
    /** State: the page last selected by a drag end. */
    var activePage: int
    /** The x targets of every `scrollTo` issued, oldest first. */
    var scrollTargets: seq<real>
    /** The arguments of every `onPageChange` call, oldest first. */
    var pageChanges: seq<int>

    /** The gap in state is the one the current props and window give. */
    ghost predicate Valid()
      reads this
    {
      CheckedGap(width, pageWidth, sneak) == Success(gap)
    }

    /** Where the scroll view was last asked to go; 0 (the content origin) before any request. */
    function CurrentScrollX(): real
      reads this
    {
      if scrollTargets == [] then 0.0 else scrollTargets[|scrollTargets| - 1]
    }

    /**
     * Construction and the initial `state`: `activePage` is `initialPage || 0`;
     * `gap` has no value until `CalculateGap` runs (0 stands for it here).
     */
    constructor (width: real, pageWidth: real, sneak: real, initialPage: Option<int>, hasOnPageChange: bool)
      ensures this.width == width && this.pageWidth == pageWidth && this.sneak == sneak
      ensures this.initialPage == initialPage && this.hasOnPageChange == hasOnPageChange
      ensures activePage == InitialActivePage(initialPage)
      ensures scrollTargets == [] && pageChanges == []
    {
      this.width := width;
      this.pageWidth := pageWidth;
      this.sneak := sneak;
      this.initialPage := initialPage;
      this.hasOnPageChange := hasOnPageChange;
      gap := 0.0;
      activePage := InitialActivePage(initialPage);
      scrollTargets := [];
      pageChanges := [];
    }

    /**
     * `calculateGap(props)`, run at mount with the current props and again
     * whenever new props arrive. It fails, changing nothing, exactly when the
     * page is wider than the window; otherwise the props become current and
     * `gap` is recomputed from them. Nothing else changes.
     */
    method CalculateGap(newPageWidth: real, newSneak: real) returns (r: Outcome<GapError>)
      modifies this`pageWidth, this`sneak, this`gap
      ensures r.Fail? <==> newPageWidth > width
      ensures r.Fail? ==> r.error == InvalidPageWidth && unchanged(this)
      ensures r.Pass? ==> pageWidth == newPageWidth && sneak == newSneak && Valid()
      ensures r.Pass? ==> 2.0 * sneak + 2.0 * gap + pageWidth == width
    {
      if newPageWidth > width {
        return Fail(InvalidPageWidth);
      }
      var g := (width - 2.0 * newSneak - newPageWidth) / 2.0;
      pageWidth, sneak, gap := newPageWidth, newSneak, g;
      r := Pass;
    }

    /**
     * `goToPage(position)`: one `scrollTo` to the page's anchor. The position is
     * not bounds-checked, and neither `activePage` nor `onPageChange` is touched.
     */
    method GoToPage(position: int)
      modifies this`scrollTargets
      ensures scrollTargets == old(scrollTargets) + [Anchor(position, pageWidth, gap)]
    {
      var pagePosition := position as real * (pageWidth + gap);
      assert pagePosition == Anchor(position, pageWidth, gap);
      scrollTargets := scrollTargets + [pagePosition];
    }

    /** `componentDidMount`: navigates to `initialPage` only when it is greater than 0. */
    method DidMount()
      modifies this`scrollTargets
      ensures scrollTargets == old(scrollTargets) +
        (if NavigatesOnMount(initialPage) then [Anchor(initialPage.value, pageWidth, gap)] else [])
    {
      if initialPage.Some? && initialPage.value > 0 {
        GoToPage(initialPage.value);
      }
    }

    /**
     * `handleScrollEnd`: selects the page from the viewport midpoint at the
     * drag-end content offset, snaps to that page's anchor (the target
     * `GoToPage` would use), records it as `activePage` and reports it to
     * `onPageChange` when one is given, whether or not the page changed.
     * For a non-negative midpoint and a positive page offset, the selected
     * page's anchor span contains the midpoint; the page is not clamped.
     */
    method HandleScrollEnd(offsetX: real)
      requires PageOffset(pageWidth, gap) != 0.0
      modifies this`activePage, this`scrollTargets, this`pageChanges
      ensures activePage == PageAt(offsetX, width, PageOffset(pageWidth, gap))
      ensures scrollTargets == old(scrollTargets) + [Anchor(activePage, pageWidth, gap)]
      ensures CurrentScrollX() == Anchor(activePage, pageWidth, gap)
      ensures pageChanges == old(pageChanges) + (if hasOnPageChange then [activePage] else [])
      ensures PageOffset(pageWidth, gap) > 0.0 && Midpoint(offsetX, width) >= 0.0 ==>
        var po := PageOffset(pageWidth, gap);
        activePage as real * po <= Midpoint(offsetX, width) < (activePage + 1) as real * po
    {
      var pageOffset := pageWidth + gap;
      var currentPosition := offsetX + width / 2.0;
      var currentPage := Trunc(currentPosition / pageOffset);
      assert currentPage as real * pageOffset == Anchor(currentPage, pageWidth, gap);
      scrollTargets := scrollTargets + [currentPage as real * pageOffset];
      activePage := currentPage;
      if hasOnPageChange {
        pageChanges := pageChanges + [currentPage];
      }
      if pageOffset > 0.0 && currentPosition >= 0.0 {
        PageAtSpanContainsMidpoint(offsetX, width, pageOffset, currentPage);
      }
    }
  }

  /**
   * The mount sequence: construction, `componentWillMount` (the first
   * `CalculateGap`, which can throw) and `componentDidMount`. It fails exactly
   * for a page wider than the window. After it the gap is consistent, no
   * page change has been reported, and the view rests on the active page's
   * anchor unless `initialPage` is negative (then `activePage` is negative
   * while the view stays at the content origin).
   */
  method Mount(width: real, pageWidth: real, sneak: real, initialPage: Option<int>, hasOnPageChange: bool)
    returns (r: Result<Carousel, GapError>)
    ensures r.Failure? <==> pageWidth > width
    ensures r.Success? ==> fresh(r.value) && r.value.Valid()
    ensures r.Success? ==>
      && r.value.width == width && r.value.pageWidth == pageWidth && r.value.sneak == sneak
      && r.value.initialPage == initialPage && r.value.hasOnPageChange == hasOnPageChange
      && r.value.gap == Gap(width, pageWidth, sneak)
    ensures r.Success? ==> r.value.activePage == InitialActivePage(initialPage) && r.value.pageChanges == []
    ensures r.Success? ==>
      r.value.scrollTargets ==
        (if NavigatesOnMount(initialPage) then [Anchor(initialPage.value, pageWidth, r.value.gap)] else [])
    ensures r.Success? && r.value.activePage >= 0 ==>
      r.value.CurrentScrollX() == Anchor(r.value.activePage, r.value.pageWidth, r.value.gap)
  {
    var c := new Carousel(width, pageWidth, sneak, initialPage, hasOnPageChange);
    var gapOutcome := c.CalculateGap(pageWidth, sneak);
    if gapOutcome.Fail? {
      return Failure(gapOutcome.error);
    }
    c.DidMount();
    AnchorStep(0, c.pageWidth, c.gap);
    r := Success(c);
  }
}

/** A client of the component's contracts: mount on page 2, then a drag ending nearer page 1. */
module CarouselClient {
  import opened Wrappers
  import opened Geometry
  import opened CarouselComponent

  method ExampleSession()
  {
    var r := Mount(400.0, 300.0, 20.0, Some(2), true);
    assert r.Success?;
    var c := r.value;
    assert c.gap == 30.0 && PageOffset(c.pageWidth, c.gap) == 330.0;
    assert c.scrollTargets == [660.0] && c.activePage == 2;
    c.HandleScrollEnd(400.0);
    PageAtSpanContainsMidpoint(400.0, 400.0, 330.0, 1);
    assert c.activePage == 1;
    assert c.pageChanges == [1] && c.scrollTargets == [660.0, 330.0];
  }
}
