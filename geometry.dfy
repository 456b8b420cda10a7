/**
 * The cover-fit computation of `_fitToScreen` (src/fsvideo.js), over exact
 * reals. The source writes its four results into the element's style; here
 * they are returned as a Layout.
 */
module Geometry {

  /** Scaled size of the surface and the centring margins, in pixels. */
  datatype Layout = Layout(width: real, height: real, marginTop: int, marginLeft: int)

  /** `factorWidth > factorHeight ? factorWidth : factorHeight` */
  function Max(a: real, b: real): (m: real)
    ensures m >= a && m >= b && (m == a || m == b)
  {
    if a > b then a else b
  }

  /** The margin for one dimension: half the overflow, rounded down, or 0 without overflow. */
  function Offset(window: real, scaled: real): (m: int)
    ensures scaled <= window ==> m == 0
    ensures scaled > window ==> m < 0 && 2.0 * (m as real) <= window - scaled < 2.0 * (m as real) + 2.0
  {
    if scaled > window then ((window - scaled) / 2.0).Floor else 0
  }

  /**
   * `_fitToScreen(width, height, windowWidth, windowHeight)`: scale the
   * intrinsic size by the larger of the two window/intrinsic ratios, so that
   * the surface covers the window, and centre the overflow.
   */
  function FitToScreen(width: real, height: real, windowWidth: real, windowHeight: real): (r: Layout)
    requires width > 0.0 && height > 0.0
    // cover: both dimensions reach the window, and one of them matches it exactly
    ensures r.width >= windowWidth && r.height >= windowHeight
    ensures r.width == windowWidth || r.height == windowHeight
    // the aspect ratio is kept
    ensures r.width * height == r.height * width
    // margins centre the overflow, rounded down, and are 0 where nothing overflows
    ensures r.width == windowWidth ==> r.marginLeft == 0
    ensures r.height == windowHeight ==> r.marginTop == 0
    ensures r.width > windowWidth ==>
              r.marginLeft < 0 && 2.0 * (r.marginLeft as real) <= windowWidth - r.width < 2.0 * (r.marginLeft as real) + 2.0
    ensures r.height > windowHeight ==>
              r.marginTop < 0 && 2.0 * (r.marginTop as real) <= windowHeight - r.height < 2.0 * (r.marginTop as real) + 2.0
  {
    var factorWidth := windowWidth / width;
    var factorHeight := windowHeight / height;
    var factor := Max(factorWidth, factorHeight);
    var newWidth := width * factor;
    var newHeight := height * factor;
    assert width * factorWidth == windowWidth;
    assert height * factorHeight == windowHeight;
    Layout(newWidth, newHeight, Offset(windowHeight, newHeight), Offset(windowWidth, newWidth))
  }

  /**
   * Of all uniform scalings that cover the window, the fit picks the smallest:
   * any factor that covers gives a surface at least as large.
   */
  lemma CoverIsMinimal(width: real, height: real, windowWidth: real, windowHeight: real, f: real)
    requires width > 0.0 && height > 0.0
    requires width * f >= windowWidth && height * f >= windowHeight
    ensures FitToScreen(width, height, windowWidth, windowHeight).width <= width * f
    ensures FitToScreen(width, height, windowWidth, windowHeight).height <= height * f
  {
    var r := FitToScreen(width, height, windowWidth, windowHeight);
    if r.width == windowWidth {
      MulMonotone(windowWidth, width * f, height);
      assert r.height * width <= (height * f) * width;
      DivideOut(r.height, height * f, width);
    } else {
      MulMonotone(windowHeight, height * f, width);
      assert r.width * height <= (width * f) * height;
      DivideOut(r.width, width * f, height);
    }
  }

  lemma MulMonotone(a: real, b: real, c: real)
    requires a <= b && c > 0.0
    ensures a * c <= b * c
  {
    assert (b - a) * c >= 0.0;
  }

  lemma DivideOut(a: real, b: real, c: real)
    requires c > 0.0 && a * c <= b * c
    ensures a <= b
  {
    assert (a - b) * c <= 0.0;
  }

  /** 16x9 in a 32x18 window: scale 2, no margins. */
  lemma FitExactExample()
    ensures FitToScreen(16.0, 9.0, 32.0, 18.0) == Layout(32.0, 18.0, 0, 0)
  {
  }

  /** 16x9 in an 18x36 window: scale 4, 64x36, left margin floor((18 - 64) / 2) = -23. */
  lemma FitOverflowExample()
    ensures FitToScreen(16.0, 9.0, 18.0, 36.0) == Layout(64.0, 36.0, 0, -23)
  {
  }

  /** An odd overflow: 1x1 in a 3x2 window scales to 3x3, and the top margin is floor(-1 / 2) = -1. */
  lemma OddOverflowExample()
    ensures FitToScreen(1.0, 1.0, 3.0, 2.0) == Layout(3.0, 3.0, -1, 0)
  {
  }
}
