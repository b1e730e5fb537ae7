/**
 * Grid geometry of the snake game: grid cells and the logical grid
 * extents derived from a base density and the window's size.
 *
 * Floating point is replaced by exact `real` arithmetic; rounding to the
 * nearest integer is `Floor(x + 0.5)`, which is what rounding half away
 * from zero does on the non-negative values that occur here.
 */
module Geometry {

  /** A grid coordinate, copied by value. */
  datatype Cell = Cell(x: int, y: int)

  /** Rounding of a non-negative value to the nearest integer, halves upwards. */
  function Round(v: real): (r: int)
    requires v >= 0.0
    ensures r >= 0 && RoundsTo(v, r)
  {
    (v + 0.5).Floor
  }

  /** `r` is the nearest integer to `v` (halves rounded upwards). */
  predicate RoundsTo(v: real, r: int)
  {
    r as real - 0.5 <= v < r as real + 0.5
  }

  /** Rounding an integer gives that integer back. */
  lemma RoundOfInteger(n: nat)
    ensures Round(n as real) == n
  {
    assert RoundsTo(n as real, Round(n as real));
  }

  /** Division by a positive height: the quotient times the height gives
      the width back, is positive for a positive width, is at least one
      exactly when the width is at least the height, and is one for equal sides. */
  lemma RatioFacts(w: real, h: real)
    requires h > 0.0
    ensures (w / h) * h == w
    ensures w > 0.0 ==> w / h > 0.0
    ensures w / h >= 1.0 <==> w >= h
    ensures w == h ==> w / h == 1.0
  {
    var a := w / h;
    assert a * h == w;
    assert w - h == (a - 1.0) * h;
    if a >= 1.0 {
      assert (a - 1.0) * h >= 0.0;
    } else {
      assert (1.0 - a) * h > 0.0;
    }
  }

  /** Scaling by a factor of at least one keeps at least the base. */
  lemma ScaleUp(base: nat, aspect: real)
    requires aspect >= 1.0
    ensures base as real * aspect >= base as real
  {
    assert base as real * (aspect - 1.0) >= 0.0;
  }

  /** Dividing by a factor in (0, 1) gives at least the base. */
  lemma ScaleDown(base: nat, aspect: real)
    requires 0.0 < aspect < 1.0
    ensures base as real / aspect >= base as real
  {
    var q := base as real / aspect;
    assert q * aspect == base as real;
    assert (q - base as real) * aspect == base as real * (1.0 - aspect);
    assert base as real * (1.0 - aspect) >= 0.0;
  }

  /** Integer grid extents `(xMax, yMax)` for a positive aspect ratio: the
      shorter axis gets `base`, the longer one `base` scaled by the ratio
      and rounded; both are at least `base`. */
  function Extents(base: nat, aspect: real): (r: (int, int))
    requires aspect > 0.0
    ensures r.0 >= base && r.1 >= base
    ensures aspect >= 1.0 ==> r.1 == base && RoundsTo(base as real * aspect, r.0)
    ensures aspect < 1.0 ==> r.0 == base && RoundsTo(base as real / aspect, r.1)
  {
    if aspect >= 1.0 then
      ScaleUp(base, aspect);
      (Round(base as real * aspect), base)
    else
      ScaleDown(base, aspect);
      (base, Round(base as real / aspect))
  }

  /** The same extents computed into floating-point values. */
  function ExtentsF(base: nat, aspect: real): (r: (real, real))
    requires aspect > 0.0
  {
    if aspect >= 1.0 then
      ScaleUp(base, aspect);
      (Round(base as real * aspect) as real, base as real)
    else
      ScaleDown(base, aspect);
      (base as real, Round(base as real / aspect) as real)
  }

  /** The floating-point extents are numerically the integer extents. */
  lemma ExtentsAgree(base: nat, aspect: real)
    requires aspect > 0.0
    ensures ExtentsF(base, aspect) == (Extents(base, aspect).0 as real, Extents(base, aspect).1 as real)
  {
  }

  /** The window's logical grid: base density and screen size in pixels. */
  class GridInfo {
    var baseSize: nat
    var screenSize: (int, int)

    constructor (gridSize: nat, screen: (int, int))
      ensures baseSize == gridSize && screenSize == screen
    {
      baseSize := gridSize;
      screenSize := screen;
    }

    /** The height used in every aspect computation: zero counts as one. */
    function Height(): (h: int)
      reads this
      ensures h != 0
      ensures screenSize.1 == 0 ==> h == 1
      ensures screenSize.1 != 0 ==> h == screenSize.1
    {
      if screenSize.1 == 0 then 1 else screenSize.1
    }

    /** A window the extents can be computed for: positive width, non-negative height. */
    predicate Usable()
      reads this
    {
      screenSize.0 > 0 && screenSize.1 >= 0
    }

    /** Width over height, with a zero height counted as one. */
    function AspectRatio(): (r: real)
      reads this
      ensures screenSize.1 >= 0 ==> r * Height() as real == screenSize.0 as real
      ensures screenSize.1 == 0 ==> r == screenSize.0 as real
      ensures Usable() ==> r > 0.0
      ensures Usable() ==> (r >= 1.0 <==> screenSize.0 >= Height())
    {
      var w, h := screenSize.0 as real, Height() as real;
      if h > 0.0 then RatioFacts(w, h); w / h else w / h
    }

    /** Integer grid extents `(xMax, yMax)` of the current window. */
    function GridSizeI(): (r: (int, int))
      reads this
      requires Usable()
      ensures r.0 >= baseSize && r.1 >= baseSize
      ensures screenSize.0 >= Height() ==> r.1 == baseSize
      ensures screenSize.0 < Height() ==> r.0 == baseSize
    {
      Extents(baseSize, AspectRatio())
    }

    /** Floating-point grid extents of the current window, for the
        projection: numerically the integer extents. */
    function GridSizeF(): (r: (real, real))
      reads this
      requires Usable()
      ensures r == (GridSizeI().0 as real, GridSizeI().1 as real)
    {
      ExtentsAgree(baseSize, AspectRatio());
      ExtentsF(baseSize, AspectRatio())
    }

    /** A square window gives a square grid of `baseSize` cells per side. */
    lemma SquareScreen()
      requires screenSize.0 == screenSize.1 > 0
      ensures GridSizeI() == (baseSize, baseSize)
    {
      RatioFacts(screenSize.0 as real, Height() as real);
      assert AspectRatio() == 1.0;
      assert baseSize as real * 1.0 == baseSize as real;
      RoundOfInteger(baseSize);
    }

    method UpdateScreenSize(newSize: (int, int))
      modifies this
      ensures screenSize == newSize && baseSize == old(baseSize)
    {
      screenSize := newSize;
    }
  }
}
