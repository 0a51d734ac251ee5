/**
 * The raster canvas as the flood fill sees it: an RGBA byte buffer of
 * `w * h` pixels stored row by row, four bytes per pixel.  A pixel is
 * fillable when its red, green and blue are all below 50 and it is not
 * fully transparent; a painted pixel takes the fill colour and alpha 200.
 */
module Raster {
  import opened JsValues
  import opened Colors

  /** Channels at or above this value are not part of a dark outline region. */
  const DARK_LIMIT := 50
  /** The alpha every painted pixel receives. */
  const FILL_ALPHA := 200

  datatype Rgba = Rgba(r: int, g: int, b: int, a: int)
  datatype Pixel = Pixel(x: int, y: int)

  /** The seed test of `floodFill`: red, green and blue below 50 (alpha is not looked at). */
  predicate IsDark(c: Rgba)
  {
    c.r < DARK_LIMIT && c.g < DARK_LIMIT && c.b < DARK_LIMIT
  }

  /** `matchStartColor`: dark and not fully transparent. */
  predicate Fillable(c: Rgba)
  {
    IsDark(c) && c.a > 0
  }

  /** What `colorPixel` writes. */
  function PaintedColor(c: Rgb): Rgba
  {
    Rgba(c.r, c.g, c.b, FILL_ALPHA)
  }

  /** A fill colour that the fillable test rejects once written. */
  predicate LightFill(c: Rgb)
  {
    !Fillable(PaintedColor(c))
  }

  /** A buffer holding exactly `w * h` pixels. */
  predicate Canvas(s: seq<byte>, w: int, h: int)
  {
    0 <= w && 0 <= h && |s| == 4 * (w * h)
  }

  /** The pixel stored at pixel index `i`. */
  function PixelAt(s: seq<byte>, i: int): Rgba
    requires 0 <= i && 4 * i + 3 < |s|
  {
    Rgba(s[4 * i], s[4 * i + 1], s[4 * i + 2], s[4 * i + 3])
  }

  predicate InBounds(w: int, h: int, p: Pixel)
  {
    0 <= p.x < w && 0 <= p.y < h
  }

  /** `y * width + x`: the pixel index of `p`. */
  function Idx(w: int, p: Pixel): int
  {
    p.y * w + p.x
  }

  lemma MulLe(a: int, b: int, c: int)
    requires a <= b && 0 <= c
    ensures a * c <= b * c
  {
  }

  /** Every pixel of the canvas has its four bytes inside the buffer. */
  lemma IdxBounds(w: int, h: int, p: Pixel)
    requires InBounds(w, h, p)
    ensures 0 <= Idx(w, p) < w * h
  {
    assert 0 <= p.y * w;
    assert (p.y + 1) * w == p.y * w + w;
    MulLe(p.y + 1, h, w);
  }

  /** Distinct pixels have distinct indices. */
  lemma IdxInjective(w: int, h: int, p: Pixel, q: Pixel)
    requires InBounds(w, h, p) && InBounds(w, h, q) && p != q
    ensures Idx(w, p) != Idx(w, q)
  {
    if p.y < q.y {
      assert (p.y + 1) * w == p.y * w + w;
      MulLe(p.y + 1, q.y, w);
    } else if q.y < p.y {
      assert (q.y + 1) * w == q.y * w + w;
      MulLe(q.y + 1, p.y, w);
    }
  }

  /** The colour of pixel `p`. */
  function At(s: seq<byte>, w: int, h: int, p: Pixel): Rgba
    requires Canvas(s, w, h) && InBounds(w, h, p)
  {
    IdxBounds(w, h, p);
    PixelAt(s, Idx(w, p))
  }

  predicate FillableAt(s: seq<byte>, w: int, h: int, p: Pixel)
    requires Canvas(s, w, h)
  {
    InBounds(w, h, p) && Fillable(At(s, w, h, p))
  }

  /** Left, right, up or down by one. */
  predicate Adjacent(p: Pixel, q: Pixel)
  {
    (p.x == q.x && (p.y == q.y + 1 || p.y + 1 == q.y))
    || (p.y == q.y && (p.x == q.x + 1 || p.x + 1 == q.x))
  }

  // ---------------------------------------------------------------------
  // The 4-connected component of fillable pixels
  // ---------------------------------------------------------------------

  /** A walk through fillable pixels, each step to a 4-neighbour. */
  predicate IsWalk(s: seq<byte>, w: int, h: int, path: seq<Pixel>)
    requires Canvas(s, w, h)
  {
    |path| > 0
    && (forall k :: 0 <= k < |path| ==> FillableAt(s, w, h, path[k]))
    && (forall k :: 0 <= k < |path| - 1 ==> Adjacent(path[k], path[k + 1]))
  }

  /** `p` is reached from `root` by a walk through fillable pixels of `s`. */
  ghost predicate InComponent(s: seq<byte>, w: int, h: int, root: Pixel, p: Pixel)
    requires Canvas(s, w, h)
  {
    exists path :: IsWalk(s, w, h, path) && path[0] == root && path[|path| - 1] == p
  }

  /** A fillable pixel is its own component's root. */
  lemma ComponentRoot(s: seq<byte>, w: int, h: int, root: Pixel)
    requires Canvas(s, w, h) && FillableAt(s, w, h, root)
    ensures InComponent(s, w, h, root, root)
  {
    assert IsWalk(s, w, h, [root]);
  }

  /** Only fillable pixels belong to a component. */
  lemma ComponentFillable(s: seq<byte>, w: int, h: int, root: Pixel, p: Pixel)
    requires Canvas(s, w, h) && InComponent(s, w, h, root, p)
    ensures FillableAt(s, w, h, p) && FillableAt(s, w, h, root)
  {
    var path :| IsWalk(s, w, h, path) && path[0] == root && path[|path| - 1] == p;
    assert FillableAt(s, w, h, path[|path| - 1]);
  }

  /** A fillable neighbour of a member is a member. */
  lemma ComponentStep(s: seq<byte>, w: int, h: int, root: Pixel, p: Pixel, q: Pixel)
    requires Canvas(s, w, h) && InComponent(s, w, h, root, p)
    requires FillableAt(s, w, h, q) && Adjacent(p, q)
    ensures InComponent(s, w, h, root, q)
  {
    var path :| IsWalk(s, w, h, path) && path[0] == root && path[|path| - 1] == p;
    var path' := path + [q];
    assert path'[|path'| - 2] == p;
    assert IsWalk(s, w, h, path');
  }

  /** A member's fillable column run upwards belongs to the component. */
  lemma {:induction false} ComponentUp(s: seq<byte>, w: int, h: int, root: Pixel, x: int, a: int, b: int)
    requires Canvas(s, w, h) && a <= b && InComponent(s, w, h, root, Pixel(x, b))
    requires forall y :: a <= y <= b ==> FillableAt(s, w, h, Pixel(x, y))
    ensures InComponent(s, w, h, root, Pixel(x, a))
    decreases b - a
  {
    if a < b {
      ComponentStep(s, w, h, root, Pixel(x, b), Pixel(x, b - 1));
      ComponentUp(s, w, h, root, x, a, b - 1);
    }
  }

  // ---------------------------------------------------------------------
  // Counting
  // ---------------------------------------------------------------------

  /** How many of the first `n` pixels are fillable: the colourable count. */
  function CountFillable(s: seq<byte>, n: nat): (k: nat)
    requires 4 * n <= |s|
    ensures k <= n
  {
    if n == 0 then 0
    else CountFillable(s, n - 1) + (if Fillable(PixelAt(s, n - 1)) then 1 else 0)
  }

  /** How many of the first `n` pixels differ between `s0` and `s`. */
  function CountChanged(s0: seq<byte>, s: seq<byte>, n: nat): (k: nat)
    requires 4 * n <= |s0| && 4 * n <= |s|
    ensures k <= n
  {
    if n == 0 then 0
    else CountChanged(s0, s, n - 1) + (if PixelAt(s0, n - 1) != PixelAt(s, n - 1) then 1 else 0)
  }

  /** Nothing differs between a buffer and itself. */
  lemma {:induction false} CountChangedSame(s: seq<byte>, n: nat)
    requires 4 * n <= |s|
    ensures CountChanged(s, s, n) == 0
  {
    if n > 0 {
      CountChangedSame(s, n - 1);
    }
  }

  /**
   * Every one of the first `n` pixels of `s` is either as in `s0`, or was
   * fillable there and now holds the painted colour.
   */
  predicate OnlyFilled(s0: seq<byte>, s: seq<byte>, n: nat, c: Rgb)
    requires 4 * n <= |s0| && 4 * n <= |s|
  {
    forall i :: 0 <= i < n ==>
      PixelAt(s, i) == PixelAt(s0, i) || (Fillable(PixelAt(s0, i)) && PixelAt(s, i) == PaintedColor(c))
  }

  /** When only fillable pixels were painted, the colourable count fell by the number of pixels changed. */
  lemma {:induction false} CountDrop(s0: seq<byte>, s: seq<byte>, n: nat, c: Rgb)
    requires 4 * n <= |s0| && 4 * n <= |s|
    requires LightFill(c) && OnlyFilled(s0, s, n, c)
    ensures CountFillable(s0, n) - CountFillable(s, n) == CountChanged(s0, s, n)
  {
    if n > 0 {
      CountDrop(s0, s, n - 1, c);
    }
  }

  // ---------------------------------------------------------------------
  // Painting one pixel
  // ---------------------------------------------------------------------

  /** `colorPixel`: the four bytes of pixel `i` become the fill colour and alpha 200. */
  function Paint(s: seq<byte>, i: int, c: Rgb): (t: seq<byte>)
    requires 0 <= i && 4 * i + 3 < |s|
    ensures |t| == |s|
    ensures PixelAt(t, i) == PaintedColor(c)
    ensures forall j :: 0 <= j && 4 * j + 3 < |s| && j != i ==> PixelAt(t, j) == PixelAt(s, j)
  {
    s[4 * i := c.r][4 * i + 1 := c.g][4 * i + 2 := c.b][4 * i + 3 := FILL_ALPHA]
  }

  /** Painting a fillable pixel with a light colour lowers the colourable count by one. */
  lemma {:induction false} CountAfterPaint(s: seq<byte>, i: int, c: Rgb, n: nat)
    requires 0 <= i < n && 4 * n <= |s|
    requires Fillable(PixelAt(s, i)) && LightFill(c)
    ensures CountFillable(Paint(s, i, c), n) == CountFillable(s, n) - 1
  {
    if n - 1 != i {
      CountAfterPaint(s, i, c, n - 1);
    } else {
      CountUnchangedPrefix(s, Paint(s, i, c), i);
    }
  }

  lemma {:induction false} CountUnchangedPrefix(s: seq<byte>, t: seq<byte>, n: nat)
    requires 4 * n <= |s| && 4 * n <= |t|
    requires forall j :: 0 <= j < n ==> PixelAt(t, j) == PixelAt(s, j)
    ensures CountFillable(t, n) == CountFillable(s, n)
  {
    if n > 0 {
      CountUnchangedPrefix(s, t, n - 1);
    }
  }

  /** Painting pixel `p` of the canvas. */
  function PaintPixel(s: seq<byte>, w: int, h: int, p: Pixel, c: Rgb): (t: seq<byte>)
    requires Canvas(s, w, h) && InBounds(w, h, p)
    ensures Canvas(t, w, h)
  {
    IdxBounds(w, h, p);
    Paint(s, Idx(w, p), c)
  }

  /** Painting a fillable pixel of the canvas with a light colour lowers the colourable count by one. */
  lemma CountAfterPaintPixel(s: seq<byte>, w: int, h: int, p: Pixel, c: Rgb)
    requires Canvas(s, w, h) && FillableAt(s, w, h, p) && LightFill(c)
    ensures CountFillable(PaintPixel(s, w, h, p, c), w * h) == CountFillable(s, w * h) - 1
  {
    IdxBounds(w, h, p);
    CountAfterPaint(s, Idx(w, p), c, w * h);
  }

  /** Painting pixel `p` changes the colour of `p` and of no other pixel. */
  lemma PaintAt(s: seq<byte>, w: int, h: int, p: Pixel, c: Rgb)
    requires Canvas(s, w, h) && InBounds(w, h, p)
    ensures Canvas(PaintPixel(s, w, h, p, c), w, h)
    ensures At(PaintPixel(s, w, h, p, c), w, h, p) == PaintedColor(c)
    ensures forall q :: InBounds(w, h, q) && q != p ==> At(PaintPixel(s, w, h, p, c), w, h, q) == At(s, w, h, q)
  {
    IdxBounds(w, h, p);
    forall q | InBounds(w, h, q) && q != p
      ensures At(PaintPixel(s, w, h, p, c), w, h, q) == At(s, w, h, q)
    {
      IdxBounds(w, h, q);
      IdxInjective(w, h, p, q);
    }
  }
}
