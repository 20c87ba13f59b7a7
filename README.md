# Carousel paging model

A Dafny model of the `Carousel` component of react-native-carousel-control
(`index.js`). The component is a horizontally paging scroll view. Each page is
`pageWidth` wide. The neighbouring pages "sneak" `sneak` pixels in at each edge
of the window. The model covers the component's paging geometry and its state:

- **Gap calculation** (`calculateGap`). It derives the spacing between pages from
  the window width, `pageWidth` and `sneak`, and throws for a page wider than
  the window.
- **Padding and margins** set by `render`. They make a page centred when the view
  rests on the page's scroll anchor.
- **Programmatic navigation** (`goToPage`). It scrolls to `position * (pageWidth + gap)`.
- **Drag-end resolution** (`handleScrollEnd`). It picks a page from the viewport
  midpoint, snaps to that page's anchor, stores it as `activePage` and reports
  it to `onPageChange`.
- **Mount**. This covers the initial `state`, `componentWillMount` and
  `componentDidMount`.

Files:

- `wrappers.dfy`: the `Option`, `Result` and `Outcome` types.
- `geometry.dfy` (module `Geometry`): the formulas as pure functions, and
  lemmas about centring, the scroll range and page selection.
- `carousel.dfy` (module `CarouselComponent`): the component as a class with
  the fields `width`, `pageWidth`, `sneak`, `gap` and `activePage`. It also has
  two logs for its side effects:
  - `scrollTargets`: the x target of every `scrollTo` (y is always 0).
  - `pageChanges`: every `onPageChange` argument.

This version of the component is modelled as written. Paging behaviours found in
other carousels are absent from it, and from the model:

- No page index is clamped to `[0, N-1]`.
- There is no swipe threshold, no controlled `currentPage` and no deferred
  realignment timer.
- `onPageChange` fires on every drag end, even when the page is unchanged.
- A tap on a page (`goToPage`) scrolls but does not update `activePage` and
  does not call `onPageChange`.
- `~~` truncates toward zero. It does not floor, so a midpoint at least one
  page offset to the left of the content origin selects a negative page.
- The midpoint is taken as `offsetX + width / 2`, half the window and not
  half a page offset.

These proved facts describe how the selection behaves:

- `RestingOnAnchor`: releasing a drag exactly on page `k`'s anchor selects `k`
  again if and only if `pageWidth > 2 * sneak`. Otherwise it selects a later page.
- `DragThresholds` and `DragAsymmetry`: the anchor spans
  `[k * pageOffset, (k + 1) * pageOffset)` are not centred on the pages,
  because they ignore the left padding. While the viewport midpoint stays
  non-negative (always so for `k >= 1`), a forward drag from page `k`'s anchor
  changes the page after `pageWidth / 2 - sneak` pixels and a backward drag
  after `width / 2`. When `pageWidth > 2 * sneak`, a drag length between the
  two leaves the page going forward but keeps it going back.
- `FirstPageBackwardDrag`: from page 0 the midpoint can go negative, and
  truncation toward zero keeps page 0 until the backward drag reaches
  `width / 2 + pageOffset`.

## Model

| member | source | states |
|---|---|---|
| `Geometry.PaddingLeft` | index.js:106 | definition: `sneak + gap / 2` (its properties are stated by `PaddingSymmetric` and `PageStartClosedForm`) |
| `Geometry.PaddingRight` | index.js:107 | definition: `sneak + gap / 2` |
| `Geometry.MarginLeft` | index.js:112 | definition: `gap / 2` |
| `Geometry.MarginRight` | index.js:113 | definition: `gap / 2` |
| `Geometry.PageStart` | index.js:116-143 | definition: the content x where page `i` begins in the row of pages (its closed form is stated by `PageStartClosedForm`) |
| `Geometry.ContentWidth` | index.js:116-143 | definition: the width of the content holding `n` pages (stated by `LastAnchorIsScrollEnd`) |
| `Geometry.PageOffset` | index.js:87 | definition: `pageWidth + gap`, the distance between consecutive anchors, also the factor at index.js:80 |
| `Geometry.Anchor` | index.js:80 | definition: `position * (pageWidth + gap)`, also the snap target at index.js:92 (stated by `AnchorStep` and `PageCentredAtAnchor`) |
| `Geometry.Midpoint` | index.js:89 | definition: `offsetX + width / 2` |
| `Geometry.PageAt` | index.js:89-91 | definition: `~~(midpoint / pageOffset)` (stated by `PageAtSpanContainsMidpoint`, `PageAtNegativeMidpoint`, `DragThresholds` and `RestingOnAnchor`) |
| `CarouselComponent.InitialActivePage` | index.js:39 | definition: `initialPage \|\| 0`, with a null prop giving 0 |
| `CarouselComponent.NavigatesOnMount` | index.js:47 | definition: `initialPage > 0`, false for a null prop |
| `Geometry.Gap` | index.js:57-73 | two sneaks, two gaps and one page exactly fill the window width |
| `Geometry.CheckedGap` | index.js:69-73 | fails with the invalid-page-width error exactly when `pageWidth > width` (equal widths are accepted); otherwise the window is exactly filled and `sneak + gap >= 0` |
| `Geometry.PaddingSymmetric` | index.js:105-113 | left and right padding are equal, left and right margins are equal, the padding is one sneak plus one margin, and two margins make one gap |
| `Geometry.AnchorStep` | index.js:80 | the scroll target is linear in the position: consecutive anchors are one page offset `pageWidth + gap` apart, and page 0's anchor is 0 |
| `Geometry.PageStartClosedForm` | index.js:105-113 | in the row laid out from the padding and margins, page `i` starts at content x `sneak + gap + i * (pageWidth + gap)` |
| `Geometry.PageCentredAtAnchor` | index.js:73-113 | with the computed gap and the view scrolled to page `i`'s anchor, the page has `sneak + gap` of space on both sides (it is centred), and exactly `sneak` of each neighbour shows |
| `Geometry.LastAnchorIsScrollEnd` | index.js:105-113 | the content for `n` pages is wider than the window by exactly the anchor of page `n - 1`, so the last page can be centred too |
| `Geometry.Trunc` | index.js:91 | `~~` truncates toward zero: for `x >= 0` the result is the floor of `x`, and for `x < 0` it is the ceiling |
| `Geometry.PageAtSpanContainsMidpoint` | index.js:87-91 | for a non-negative midpoint and a positive page offset, `j` is the selected page if and only if `j * pageOffset <= offsetX + width/2 < j * pageOffset + pageOffset` |
| `Geometry.PageAtNegativeMidpoint` | index.js:87-91 | a negative midpoint selects a page `k <= 0` with `(k - 1) * pageOffset < midpoint <= k * pageOffset` (truncation, not floor) |
| `Geometry.DragThresholds` | index.js:87-91 | while the midpoint stays non-negative (always so for `k >= 1` and `t >= -width/2`), a drag released `t` pixels from page `k`'s anchor keeps page `k` if and only if `-width/2 <= t < pageWidth/2 - sneak` |
| `Geometry.DragAsymmetry` | index.js:87-91 | when `pageWidth > 2*sneak`, a drag of length `t` with `pageWidth/2 - sneak <= t < width/2` selects a page other than `k` going forward and keeps `k` going backward |
| `Geometry.FirstPageBackwardDrag` | index.js:87-91 | when `pageWidth > 2*sneak`, a backward drag of `-t` from page 0 keeps page 0 if and only if `t < width/2 + pageOffset` (truncation toward zero of a negative midpoint) |
| `Geometry.RestingOnAnchor` | index.js:87-91 | a drag released exactly on page `k`'s anchor selects a page `>= k`, and selects `k` itself if and only if `pageWidth > 2 * sneak` |
| `Geometry.PageAtExample` | index.js:87-91 | window 400 and page offset 300: offset 250 selects page 1, offset -500 selects page -1, and offset -250 selects page 0 |
| `CarouselComponent.Carousel.constructor` | index.js:31-40 | the props are stored, `activePage` starts at `initialPage \|\| 0`, and no scroll or page change has happened |
| `CarouselComponent.Carousel.CalculateGap` | index.js:52-75 | fails and changes nothing exactly when the new page width exceeds the window; otherwise it installs the new props and the gap that fills the window, and leaves `activePage` and both logs alone |
| `CarouselComponent.Carousel.GoToPage` | index.js:77-82 | appends exactly one scroll to `position * (pageWidth + gap)`, without a bounds check; nothing else changes |
| `CarouselComponent.Carousel.DidMount` | index.js:46-50 | scrolls to `initialPage`'s anchor when `initialPage > 0`, and does nothing otherwise |
| `CarouselComponent.Carousel.HandleScrollEnd` | index.js:84-98 | sets `activePage` to the truncated midpoint page, snaps to that page's anchor (the same target `GoToPage` uses), and reports the page to `onPageChange` on every drag end when the callback is given; for a non-negative midpoint and a positive page offset, the page's anchor span contains the midpoint |
| `CarouselComponent.Mount` | index.js:38-50 | mounting fails exactly when `pageWidth > width`; on success the object holds the given width, props and callback flag, the gap is the window-filling `Gap(width, pageWidth, sneak)`, `activePage` is `initialPage \|\| 0`, nothing is reported, the view scrolls only when `initialPage > 0`, and for a non-negative active page it rests on that page's anchor |

## Left out

- Rendering is not modelled: the JSX tree, `StyleSheet.create`, `TouchableWithoutFeedback`, the `styles` module and `children.map` (index.js:100-146). Only the padding and margin numbers are kept, as functions.
- The host `ScrollView`, its ref and its native `scrollTo` are foreign code. Each call is recorded as its x target in `scrollTargets`, and y is always 0.
- `Dimensions.get("window")` is I/O. The window width is a constructor parameter.
- JavaScript numbers are modelled as exact `real`s. IEEE-754 rounding, `NaN` and `Infinity` are not modelled.
- Trunc: does not model the int32 wrap-around of `~~` for quotients outside the int32 range.
- CarouselComponent.Carousel.HandleScrollEnd: requires a non-zero page offset, because division by zero (which gives `Infinity` or `NaN` in JavaScript) is not modelled.
- `initialPage` is modelled as an integer or null. A fractional or `NaN` initial page is not modelled.
- React plumbing is not modelled: lifecycle ordering, `setState` batching, PropTypes checks and the `defaultProps` values (including `pageWidth: width - 100`). `componentWillReceiveProps` is `CalculateGap` called with the new `pageWidth` and `sneak`.
- The effects are kept in two separate logs, `scrollTargets` and `pageChanges`. Their relative order is not recorded: in the source a drag end's `scrollTo` comes before its `onPageChange` call (index.js:92, 96), and a later `goToPage` scroll comes after both.
- A new `onPageChange` or `initialPage` passed in later props is not modelled. These are fixed at construction.
- The layout lemmas (`PageStartClosedForm`, `PageCentredAtAnchor`, `LastAnchorIsScrollEnd`, `DragThresholds`, `RestingOnAnchor`) assume each page has exactly the width and margins of the computed page style. The caller's `pageStyle` comes last in the style array (index.js:123) and can override them; that case is not modelled.
- The value of `gap` before the first `calculateGap` is `undefined` in the source. The model uses 0 as a placeholder. `Mount` always runs `CalculateGap` before any navigation.
