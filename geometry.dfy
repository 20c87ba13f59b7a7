/**
 * The paging geometry of the carousel: the gap derived from the window width,
 * page width and sneak; the padding and margins the render pass gives the
 * scroll content; the horizontal scroll anchor of a page; and the page the
 * drag-end handler picks from a content offset. All of it is exact `real`
 * arithmetic (JavaScript doubles are not modelled).
 */
module Geometry {
  import opened Wrappers

  /** The only configuration error: a page wider than the window ("invalid pageWith"). */
  datatype GapError = InvalidPageWidth

  // ---------------------------------------------------------------------------
  // Gap

  /** The gap between pages: two sneaks, two gaps and one page fill the window. */
  function Gap(width: real, pageWidth: real, sneak: real): (gap: real)
    ensures 2.0 * sneak + 2.0 * gap + pageWidth == width
  {
    (width - 2.0 * sneak - pageWidth) / 2.0
  }

  /**
   * `calculateGap` as a value: it fails exactly when the page is wider than the
   * window; a page as wide as the window is accepted. On success the window is
   * exactly filled and the space on each side of a centred page, `sneak + gap`,
   * is never negative.
   */
  function CheckedGap(width: real, pageWidth: real, sneak: real): (r: Result<real, GapError>)
    ensures r.Failure? <==> pageWidth > width
    ensures r.Failure? ==> r.error == InvalidPageWidth
    ensures r.Success? ==> 2.0 * sneak + 2.0 * r.value + pageWidth == width
    ensures r.Success? ==> sneak + r.value >= 0.0
  {
    if pageWidth > width then Failure(InvalidPageWidth)
    else Success(Gap(width, pageWidth, sneak))
  }

  // ---------------------------------------------------------------------------
  // Layout produced by render

  /** Padding on the left of the scroll content. */
  function PaddingLeft(sneak: real, gap: real): real { sneak + gap / 2.0 }

  /** Padding on the right of the scroll content. */
  function PaddingRight(sneak: real, gap: real): real { sneak + gap / 2.0 }

  /** Margin on the left of every page. */
  function MarginLeft(gap: real): real { gap / 2.0 }

  /** Margin on the right of every page. */
  function MarginRight(gap: real): real { gap / 2.0 }

  /** The padding and the margins are symmetric, and the padding is one sneak wider than a margin. */
  lemma PaddingSymmetric(sneak: real, gap: real)
    ensures PaddingLeft(sneak, gap) == PaddingRight(sneak, gap)
    ensures MarginLeft(gap) == MarginRight(gap)
    ensures PaddingLeft(sneak, gap) == sneak + MarginLeft(gap)
    ensures MarginLeft(gap) + MarginRight(gap) == gap
  {
  }

  /**
   * Content x at which page `i` begins, laid out as a horizontal row: the left
   * padding, then for each earlier page its left margin, its width and its
   * right margin, then this page's left margin.
   */
  function PageStart(i: nat, pageWidth: real, sneak: real, gap: real): real
  {
    if i == 0 then PaddingLeft(sneak, gap) + MarginLeft(gap)
    else PageStart(i - 1, pageWidth, sneak, gap) + MarginRight(gap) + pageWidth + MarginLeft(gap)
  }

  /** Total width of the scroll content holding `n` pages. */
  function ContentWidth(n: nat, pageWidth: real, sneak: real, gap: real): real
  {
    if n == 0 then PaddingLeft(sneak, gap) + PaddingRight(sneak, gap)
    else PageStart(n - 1, pageWidth, sneak, gap) + pageWidth + MarginRight(gap) + PaddingRight(sneak, gap)
  }

  /** Distance between the anchors of two consecutive pages. */
  function PageOffset(pageWidth: real, gap: real): real { pageWidth + gap }

  /** Horizontal scroll target of page `position`; no bounds check. */
  function Anchor(position: int, pageWidth: real, gap: real): real
  {
    position as real * PageOffset(pageWidth, gap)
  }

  /** Consecutive anchors are one page offset apart, whatever the position. */
  lemma AnchorStep(position: int, pageWidth: real, gap: real)
    ensures Anchor(position + 1, pageWidth, gap) - Anchor(position, pageWidth, gap) == PageOffset(pageWidth, gap)
    ensures Anchor(0, pageWidth, gap) == 0.0
  {
  }

  /** Page `i` starts one sneak and one gap after its anchor. */
  lemma {:induction false} PageStartClosedForm(i: nat, pageWidth: real, sneak: real, gap: real)
    ensures PageStart(i, pageWidth, sneak, gap) == sneak + gap + Anchor(i, pageWidth, gap)
  {
    if i > 0 {
      PageStartClosedForm(i - 1, pageWidth, sneak, gap);
      AnchorStep(i - 1, pageWidth, gap);
    }
  }

  /**
   * Scrolled to page `i`'s anchor, the viewport `[Anchor(i), Anchor(i) + width]`
   * has exactly `sneak + gap` of space on both sides of page `i` (the page is
   * centred), and exactly `sneak` pixels of each neighbouring page show.
   */
  lemma PageCentredAtAnchor(i: nat, width: real, pageWidth: real, sneak: real)
    ensures var gap := Gap(width, pageWidth, sneak);
            var left := Anchor(i, pageWidth, gap);
            var start := PageStart(i, pageWidth, sneak, gap);
            && start - left == sneak + gap
            && (left + width) - (start + pageWidth) == sneak + gap
            && (i > 0 ==> (PageStart(i - 1, pageWidth, sneak, gap) + pageWidth) - left == sneak)
            && (left + width) - PageStart(i + 1, pageWidth, sneak, gap) == sneak
  {
    var gap := Gap(width, pageWidth, sneak);
    PageStartClosedForm(i, pageWidth, sneak, gap);
    PageStartClosedForm(i + 1, pageWidth, sneak, gap);
    AnchorStep(i, pageWidth, gap);
    if i > 0 {
      PageStartClosedForm(i - 1, pageWidth, sneak, gap);
      AnchorStep(i - 1, pageWidth, gap);
    }
  }

  /**
   * With `n` pages the content is `Anchor(n - 1)` wider than the window: the
   * last anchor is exactly the end of the scroll range, so the last page can
   * be centred too.
   */
  lemma LastAnchorIsScrollEnd(n: nat, width: real, pageWidth: real, sneak: real)
    requires n > 0
    ensures var gap := Gap(width, pageWidth, sneak);
            ContentWidth(n, pageWidth, sneak, gap) - width == Anchor(n - 1, pageWidth, gap)
  {
    var gap := Gap(width, pageWidth, sneak);
    PageStartClosedForm(n - 1, pageWidth, sneak, gap);
  }

  // ---------------------------------------------------------------------------
  // Page selection on drag end

  /** JavaScript `~~x` on a value in int32 range: truncation toward zero. */
  function Trunc(x: real): (r: int)
    ensures 0.0 <= x ==> r as real <= x < r as real + 1.0
    ensures x < 0.0 ==> r as real - 1.0 < x <= r as real
  {
    if x >= 0.0 then x.Floor else -((-x).Floor)
  }

  /** Content x of the viewport's horizontal midpoint at content offset `offsetX`. */
  function Midpoint(offsetX: real, width: real): real { offsetX + width / 2.0 }

  /** The page `handleScrollEnd` selects: the midpoint divided by the page offset, truncated. */
  function PageAt(offsetX: real, width: real, pageOffset: real): int
    requires pageOffset != 0.0
  {
    Trunc(Midpoint(offsetX, width) / pageOffset)
  }

  /** A product of two positive reals is positive. */
  lemma MulPos(x: real, d: real)
    requires x > 0.0 && d > 0.0
    ensures x * d > 0.0
  {
  }

  /** Multiplying by a positive `d` keeps the order of two reals, in both directions. */
  lemma ScaleOrder(x: real, y: real, d: real)
    requires d > 0.0
    ensures x <= y <==> x * d <= y * d
    ensures x < y <==> x * d < y * d
  {
    assert y * d - x * d == (y - x) * d;
    if x < y {
      MulPos(y - x, d);
    } else if y < x {
      MulPos(x - y, d);
    }
  }

  /** A bound below a quotient is, scaled, a bound below the dividend. */
  lemma QuotientAbove(m: real, d: real, lo: real)
    requires d > 0.0
    ensures lo <= m / d <==> lo * d <= m
    ensures lo < m / d <==> lo * d < m
  {
    assert m / d * d == m;
    ScaleOrder(lo, m / d, d);
  }

  /** A bound above a quotient is, scaled, a bound above the dividend. */
  lemma QuotientBelow(m: real, d: real, hi: real)
    requires d > 0.0
    ensures m / d <= hi <==> m <= hi * d
    ensures m / d < hi <==> m < hi * d
  {
    assert m / d * d == m;
    ScaleOrder(m / d, hi, d);
  }

  /** Bounds on a quotient carry over to the dividend. */
  lemma QuotientBounds(m: real, d: real, k: int)
    requires d > 0.0
    ensures k as real <= m / d <==> k as real * d <= m
    ensures m / d < k as real + 1.0 <==> m < k as real * d + d
    ensures m / d <= k as real <==> m <= k as real * d
    ensures k as real - 1.0 < m / d <==> k as real * d - d < m
  {
    var a := k as real;
    QuotientAbove(m, d, a);
    QuotientBelow(m, d, a);
    QuotientBelow(m, d, a + 1.0);
    assert (a + 1.0) * d == a * d + d;
    QuotientAbove(m, d, a - 1.0);
    assert (a - 1.0) * d == a * d - d;
  }

  /** If `j * d <= m < j * d + d` and the same for `k`, then `j == k`. */
  lemma SpanIndexUnique(m: real, d: real, j: int, k: int)
    requires d > 0.0
    requires j as real * d <= m < j as real * d + d
    requires k as real * d <= m < k as real * d + d
    ensures j == k
  {
    SpanIndexBelow(m, d, j, k);
    SpanIndexBelow(m, d, k, j);
  }

  /** If `j * d <= m` and `m < k * d + d`, then `j <= k`. */
  lemma SpanIndexBelow(m: real, d: real, j: int, k: int)
    requires d > 0.0
    requires j as real * d <= m < k as real * d + d
    ensures j <= k
  {
    var a, b := j as real, k as real;
    assert (b + 1.0) * d == b * d + d;
    ScaleOrder(a, b + 1.0, d);
  }

  /**
   * For a non-negative midpoint and a positive page offset, the selected page
   * is exactly the one whose anchor span `[j * pageOffset, (j + 1) * pageOffset)`
   * contains the midpoint.
   */
  lemma PageAtSpanContainsMidpoint(offsetX: real, width: real, pageOffset: real, j: int)
    requires pageOffset > 0.0
    requires Midpoint(offsetX, width) >= 0.0
    ensures var m := Midpoint(offsetX, width);
            j == PageAt(offsetX, width, pageOffset) <==>
              j as real * pageOffset <= m < j as real * pageOffset + pageOffset
  {
    var m := Midpoint(offsetX, width);
    var k := PageAt(offsetX, width, pageOffset);
    assert m / pageOffset >= 0.0;
    QuotientBounds(m, pageOffset, k);
    if j as real * pageOffset <= m < j as real * pageOffset + pageOffset {
      SpanIndexUnique(m, pageOffset, j, k);
    }
  }

  /**
   * A midpoint left of the content origin (an overscroll of more than half a
   * window) selects a page index `<= 0`, rounding toward zero: the midpoint lies
   * in `((k - 1) * pageOffset, k * pageOffset]`.
   */
  lemma PageAtNegativeMidpoint(offsetX: real, width: real, pageOffset: real)
    requires pageOffset > 0.0
    requires Midpoint(offsetX, width) < 0.0
    ensures var k := PageAt(offsetX, width, pageOffset);
            var m := Midpoint(offsetX, width);
            && k <= 0
            && k as real * pageOffset - pageOffset < m <= k as real * pageOffset
  {
    var m := Midpoint(offsetX, width);
    var k := PageAt(offsetX, width, pageOffset);
    assert m / pageOffset < 0.0;
    QuotientBounds(m, pageOffset, k);
  }

  /**
   * Releasing a drag exactly on page `k`'s anchor selects `k` again if and only
   * if the page is wider than two sneaks; otherwise the viewport midpoint is
   * already past the next anchor and a later page is selected.
   */
  lemma RestingOnAnchor(k: nat, width: real, pageWidth: real, sneak: real)
    requires 0.0 <= width
    requires PageOffset(pageWidth, Gap(width, pageWidth, sneak)) > 0.0
    ensures var gap := Gap(width, pageWidth, sneak);
            var po := PageOffset(pageWidth, gap);
            var p := PageAt(Anchor(k, pageWidth, gap), width, po);
            && (p == k <==> pageWidth > 2.0 * sneak)
            && p >= k
  {
    var gap := Gap(width, pageWidth, sneak);
    var po := PageOffset(pageWidth, gap);
    DragThresholds(k, 0.0, width, pageWidth, sneak);
    var left := Anchor(k, pageWidth, gap);
    var p := PageAt(left, width, po);
    assert k as real * po <= Midpoint(left, width);
    PageAtSpanContainsMidpoint(left, width, po, p);
    SpanIndexBelow(Midpoint(left, width), po, k, p);
  }

  /**
   * Thresholds of a drag released `t` pixels from page `k`'s anchor, while the
   * midpoint stays non-negative (always the case for `k >= 1` and
   * `t >= -width / 2`): page `k` is kept exactly when
   * `-width / 2 <= t < pageWidth / 2 - sneak`.
   */
  lemma DragThresholds(k: nat, t: real, width: real, pageWidth: real, sneak: real)
    requires PageOffset(pageWidth, Gap(width, pageWidth, sneak)) > 0.0
    requires Midpoint(Anchor(k, pageWidth, Gap(width, pageWidth, sneak)) + t, width) >= 0.0
    ensures var gap := Gap(width, pageWidth, sneak);
            var po := PageOffset(pageWidth, gap);
            PageAt(Anchor(k, pageWidth, gap) + t, width, po) == k <==>
              -width / 2.0 <= t < pageWidth / 2.0 - sneak
  {
    var gap := Gap(width, pageWidth, sneak);
    var po := PageOffset(pageWidth, gap);
    var offsetX := Anchor(k, pageWidth, gap) + t;
    assert Midpoint(offsetX, width) == k as real * po + t + width / 2.0;
    assert po - width / 2.0 == pageWidth / 2.0 - sneak;
    PageAtSpanContainsMidpoint(offsetX, width, po, k);
  }

  /**
   * The asymmetry of the thresholds: when the page is wider than two sneaks,
   * a forward drag of `t` pixels with `pageWidth / 2 - sneak <= t < width / 2`
   * leaves page `k`, while a backward drag of the same length keeps it.
   */
  lemma DragAsymmetry(k: nat, t: real, width: real, pageWidth: real, sneak: real)
    requires PageOffset(pageWidth, Gap(width, pageWidth, sneak)) > 0.0
    requires pageWidth > 2.0 * sneak
    requires pageWidth / 2.0 - sneak <= t < width / 2.0
    ensures var gap := Gap(width, pageWidth, sneak);
            var po := PageOffset(pageWidth, gap);
            && PageAt(Anchor(k, pageWidth, gap) + t, width, po) != k
            && PageAt(Anchor(k, pageWidth, gap) + -t, width, po) == k
  {
    var gap := Gap(width, pageWidth, sneak);
    var po := PageOffset(pageWidth, gap);
    assert 0.0 <= k as real * po;
    assert po - width / 2.0 == pageWidth / 2.0 - sneak;
    DragThresholds(k, t, width, pageWidth, sneak);
    DragThresholds(k, -t, width, pageWidth, sneak);
  }

  /**
   * A backward drag from page 0 (when the page is wider than two sneaks): the
   * midpoint may go negative, and truncation toward zero keeps page 0 until the
   * drag reaches `width / 2 + pageOffset`.
   */
  lemma FirstPageBackwardDrag(t: real, width: real, pageWidth: real, sneak: real)
    requires PageOffset(pageWidth, Gap(width, pageWidth, sneak)) > 0.0
    requires pageWidth > 2.0 * sneak
    requires t <= 0.0
    ensures var gap := Gap(width, pageWidth, sneak);
            var po := PageOffset(pageWidth, gap);
            PageAt(t, width, po) == 0 <==> -(width / 2.0 + po) < t
  {
    var gap := Gap(width, pageWidth, sneak);
    var po := PageOffset(pageWidth, gap);
    var m := Midpoint(t, width);
    var k := PageAt(t, width, po);
    if m >= 0.0 {
      assert Anchor(0, pageWidth, gap) + t == t;
      assert po - width / 2.0 == pageWidth / 2.0 - sneak;
      DragThresholds(0, t, width, pageWidth, sneak);
    } else {
      PageAtNegativeMidpoint(t, width, po);
      NegativeSpanIsZero(m, po, k);
    }
  }

  /** For a negative `m` in `(k * d - d, k * d]`, `k` is 0 exactly when `m > -d`. */
  lemma NegativeSpanIsZero(m: real, d: real, k: int)
    requires d > 0.0
    requires m < 0.0
    requires k as real * d - d < m <= k as real * d
    ensures k == 0 <==> -d < m
  {
    var a := k as real;
    assert -1.0 * d == -d;
    ScaleOrder(-1.0, a, d);
    assert 0.0 * d == 0.0;
    ScaleOrder(a, 0.0, d);
  }

  /** Example: window 400, page offset 300, content offset 250 selects page 1. */
  lemma PageAtExample()
    ensures PageAt(250.0, 400.0, 300.0) == 1
    ensures PageAt(-500.0, 400.0, 300.0) == -1
    ensures PageAt(-250.0, 400.0, 300.0) == 0
  {
  }
}
