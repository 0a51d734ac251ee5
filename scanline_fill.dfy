/**
 * The stack-based scanline flood fill of the raster canvas and the
 * argument that it paints exactly the 4-connected component of fillable
 * pixels around its seed.
 *
 * Processing a stack entry `e` in column `x` climbs from `e` while pixels
 * are fillable, then paints downwards while pixels are fillable, pushing
 * the first pixel of every fillable run met on the left and on the right.
 * The proof keeps a closure invariant: every fillable pixel that is the
 * root or touches a painted pixel is still "pending", that is, some stack
 * entry in its column would reach it through fillable pixels.  When the
 * stack is empty nothing is pending, so the painted set is closed under
 * 4-adjacency and holds the whole component.
 */
module ScanlineFill {
  import opened JsValues
  import opened Colors
  import opened Raster

  // ---------------------------------------------------------------------
  // Specification predicates
  // ---------------------------------------------------------------------

  /** Pixel `p` no longer has its original colour. */
  predicate Changed(s0: seq<byte>, s: seq<byte>, w: int, h: int, p: Pixel)
    requires Canvas(s0, w, h) && Canvas(s, w, h)
  {
    InBounds(w, h, p) && At(s, w, h, p) != At(s0, w, h, p)
  }

  /** One of the four neighbours of `q` has been painted. */
  predicate TouchesChanged(s0: seq<byte>, s: seq<byte>, w: int, h: int, q: Pixel)
    requires Canvas(s0, w, h) && Canvas(s, w, h)
  {
    Changed(s0, s, w, h, Pixel(q.x - 1, q.y)) || Changed(s0, s, w, h, Pixel(q.x + 1, q.y))
    || Changed(s0, s, w, h, Pixel(q.x, q.y - 1)) || Changed(s0, s, w, h, Pixel(q.x, q.y + 1))
  }

  /** Rows `a` to `b` (inclusive) of column `x` are all fillable. */
  predicate Run(s: seq<byte>, w: int, h: int, x: int, a: int, b: int)
    requires Canvas(s, w, h)
  {
    forall y :: a <= y <= b ==> FillableAt(s, w, h, Pixel(x, y))
  }

  /**
   * Processing stack entry `e` would paint `q`: same column, `q` fillable
   * and joined to `e` by fillable pixels (below `e` the entry itself may
   * already be painted, since the scan then starts just under it).
   */
  predicate Covers(s: seq<byte>, w: int, h: int, e: Pixel, q: Pixel)
    requires Canvas(s, w, h)
  {
    e.x == q.x && FillableAt(s, w, h, q)
    && (e.y <= q.y ==> Run(s, w, h, q.x, e.y + 1, q.y))
    && (q.y < e.y ==> Run(s, w, h, q.x, q.y, e.y))
  }

  ghost predicate Pending(s: seq<byte>, w: int, h: int, stack: seq<Pixel>, q: Pixel)
    requires Canvas(s, w, h)
  {
    exists k :: 0 <= k < |stack| && Covers(s, w, h, stack[k], q)
  }

  /** The downward scan of column `x`, now at row `cur`, will still reach `q`. */
  predicate ScanCovers(s: seq<byte>, w: int, h: int, x: int, cur: int, q: Pixel)
    requires Canvas(s, w, h)
  {
    q.x == x && cur <= q.y && Run(s, w, h, x, cur, q.y)
  }

  /**
   * Where the scan of the seed's column starts: the seed itself when it is
   * fillable, otherwise the pixel under it (a dark but fully transparent
   * seed passes the seed test, fails the fillable test, and the downward
   * scan then begins one row lower).
   */
  function Root(s0: seq<byte>, w: int, h: int, seed: Pixel): Pixel
    requires Canvas(s0, w, h)
  {
    if FillableAt(s0, w, h, seed) then seed else Pixel(seed.x, seed.y + 1)
  }

  ghost predicate Closed(s0: seq<byte>, s: seq<byte>, w: int, h: int, root: Pixel, stack: seq<Pixel>)
    requires Canvas(s0, w, h) && Canvas(s, w, h)
  {
    forall q {:trigger Pending(s, w, h, stack, q)} :: FillableAt(s, w, h, q) && (q == root || TouchesChanged(s0, s, w, h, q)) ==>
      Pending(s, w, h, stack, q)
  }

  ghost predicate ClosedButScan(s0: seq<byte>, s: seq<byte>, w: int, h: int, root: Pixel,
                                stack: seq<Pixel>, x: int, cur: int)
    requires Canvas(s0, w, h) && Canvas(s, w, h)
  {
    forall q {:trigger Pending(s, w, h, stack, q)} :: FillableAt(s, w, h, q) && (q == root || TouchesChanged(s0, s, w, h, q)) ==>
      Pending(s, w, h, stack, q) || ScanCovers(s, w, h, x, cur, q)
  }

  /**
   * As `ClosedButScan` just after row `cur` of column `x` was painted and
   * before its left and right neighbours were checked.
   */
  ghost predicate ClosedButRow(s0: seq<byte>, s: seq<byte>, w: int, h: int, root: Pixel,
                               stack: seq<Pixel>, x: int, cur: int)
    requires Canvas(s0, w, h) && Canvas(s, w, h)
  {
    forall q {:trigger Pending(s, w, h, stack, q)} :: FillableAt(s, w, h, q) && (q == root || TouchesChanged(s0, s, w, h, q)) ==>
      Pending(s, w, h, stack, q) || ScanCovers(s, w, h, x, cur + 1, q)
      || q == Pixel(x - 1, cur) || q == Pixel(x + 1, cur)
  }

  ghost predicate Sound(s0: seq<byte>, s: seq<byte>, w: int, h: int, root: Pixel)
    requires Canvas(s0, w, h) && Canvas(s, w, h)
  {
    forall p :: Changed(s0, s, w, h, p) ==> InComponent(s0, w, h, root, p)
  }

  /** Every stack entry is in the canvas and in the component, or is the seed outside it. */
  ghost predicate Anchored(s0: seq<byte>, w: int, h: int, root: Pixel, seed: Pixel, stack: seq<Pixel>)
    requires Canvas(s0, w, h)
  {
    forall k :: 0 <= k < |stack| ==>
      InBounds(w, h, stack[k])
      && (InComponent(s0, w, h, root, stack[k]) || (stack[k] == seed && !FillableAt(s0, w, h, seed)))
  }

  /**
   * `reach` (`reachLeft` or `reachRight`) is set only while the stack holds
   * an entry in column `nx` joined by fillable pixels to row `cur - 1`.
   */
  ghost predicate Reach(s: seq<byte>, w: int, h: int, stack: seq<Pixel>, nx: int, cur: int, reach: bool)
    requires Canvas(s, w, h)
  {
    reach ==> exists k :: 0 <= k < |stack| && stack[k].x == nx && stack[k].y <= cur - 1
                          && Run(s, w, h, nx, stack[k].y, cur - 1)
  }

  // ---------------------------------------------------------------------
  // Facts about a buffer in which only fillable pixels were painted
  // ---------------------------------------------------------------------

  lemma OnlyFilledAt(s0: seq<byte>, s: seq<byte>, w: int, h: int, c: Rgb, p: Pixel)
    requires Canvas(s0, w, h) && Canvas(s, w, h) && OnlyFilled(s0, s, w * h, c)
    requires InBounds(w, h, p)
    ensures At(s, w, h, p) == At(s0, w, h, p)
            || (Fillable(At(s0, w, h, p)) && At(s, w, h, p) == PaintedColor(c))
  {
    IdxBounds(w, h, p);
  }

  /** A pixel still fillable has its original colour, and was fillable at the start. */
  lemma StillFillable(s0: seq<byte>, s: seq<byte>, w: int, h: int, c: Rgb, p: Pixel)
    requires Canvas(s0, w, h) && Canvas(s, w, h) && OnlyFilled(s0, s, w * h, c) && LightFill(c)
    requires FillableAt(s, w, h, p)
    ensures FillableAt(s0, w, h, p) && !Changed(s0, s, w, h, p)
  {
    OnlyFilledAt(s0, s, w, h, c, p);
  }

  /** A painted pixel was fillable at the start and is not fillable now. */
  lemma ChangedWasFillable(s0: seq<byte>, s: seq<byte>, w: int, h: int, c: Rgb, p: Pixel)
    requires Canvas(s0, w, h) && Canvas(s, w, h) && OnlyFilled(s0, s, w * h, c) && LightFill(c)
    requires Changed(s0, s, w, h, p)
    ensures FillableAt(s0, w, h, p) && !FillableAt(s, w, h, p)
  {
    OnlyFilledAt(s0, s, w, h, c, p);
  }

  lemma RunOriginal(s0: seq<byte>, s: seq<byte>, w: int, h: int, c: Rgb, x: int, a: int, b: int)
    requires Canvas(s0, w, h) && Canvas(s, w, h) && OnlyFilled(s0, s, w * h, c) && LightFill(c)
    requires Run(s, w, h, x, a, b)
    ensures Run(s0, w, h, x, a, b)
  {
    forall y | a <= y <= b
      ensures FillableAt(s0, w, h, Pixel(x, y))
    {
      StillFillable(s0, s, w, h, c, Pixel(x, y));
    }
  }

  /** Painting a pixel that is still fillable keeps only fillable pixels painted. */
  lemma OnlyFilledPaint(s0: seq<byte>, s: seq<byte>, w: int, h: int, c: Rgb, p: Pixel)
    requires Canvas(s0, w, h) && Canvas(s, w, h) && OnlyFilled(s0, s, w * h, c) && LightFill(c)
    requires FillableAt(s, w, h, p)
    ensures OnlyFilled(s0, PaintPixel(s, w, h, p, c), w * h, c)
  {
    PaintAt(s, w, h, p, c);
    IdxBounds(w, h, p);
    var t := PaintPixel(s, w, h, p, c);
    var i := Idx(w, p);
    forall j | 0 <= j < w * h
      ensures PixelAt(t, j) == PixelAt(s0, j)
              || (Fillable(PixelAt(s0, j)) && PixelAt(t, j) == PaintedColor(c))
    {
      if j == i {
        assert PixelAt(s, i) == At(s, w, h, p);
      }
    }
  }

  // ---------------------------------------------------------------------
  // Painting one pixel of the scanned column
  // ---------------------------------------------------------------------

  /** A run that does not contain the painted pixel is still a run. */
  lemma RunAfterPaint(s: seq<byte>, w: int, h: int, c: Rgb, P: Pixel, x: int, a: int, b: int)
    requires Canvas(s, w, h) && InBounds(w, h, P) && Run(s, w, h, x, a, b)
    requires !(x == P.x && a <= P.y <= b)
    ensures Run(PaintPixel(s, w, h, P, c), w, h, x, a, b)
  {
    PaintAt(s, w, h, P, c);
  }

  /** Painting a light colour over `P` adds `P` to the changed pixels and changes nothing else. */
  lemma ChangedAfterPaint(s0: seq<byte>, s: seq<byte>, w: int, h: int, c: Rgb, P: Pixel)
    requires Canvas(s0, w, h) && Canvas(s, w, h) && InBounds(w, h, P)
    requires FillableAt(s, w, h, P) && LightFill(c)
    requires OnlyFilled(s0, s, w * h, c)
    ensures Changed(s0, PaintPixel(s, w, h, P, c), w, h, P)
    ensures !FillableAt(PaintPixel(s, w, h, P, c), w, h, P)
    ensures forall n :: n != P ==>
              (Changed(s0, PaintPixel(s, w, h, P, c), w, h, n) <==> Changed(s0, s, w, h, n))
  {
    PaintAt(s, w, h, P, c);
    StillFillable(s0, s, w, h, c, P);
  }

  /**
   * An entry that covered `q` before the paint still does, unless the
   * painted pixel lay between them; then `q` is below it and the scan
   * itself reaches `q`.
   */
  lemma CoversAfterPaint(s: seq<byte>, w: int, h: int, c: Rgb, e: Pixel, q: Pixel,
                         x: int, top: int, cur: int)
    requires Canvas(s, w, h) && 0 <= x < w && 0 <= top <= cur < h
    requires top == 0 || !FillableAt(s, w, h, Pixel(x, top - 1))
    requires forall y :: top <= y < cur ==> !FillableAt(s, w, h, Pixel(x, y))
    requires Covers(s, w, h, e, q) && q != Pixel(x, cur)
    ensures Covers(PaintPixel(s, w, h, Pixel(x, cur), c), w, h, e, q)
            || ScanCovers(PaintPixel(s, w, h, Pixel(x, cur), c), w, h, x, cur + 1, q)
  {
    var P := Pixel(x, cur);
    var t := PaintPixel(s, w, h, P, c);
    PaintAt(s, w, h, P, c);
    if q.x != x {
      if e.y <= q.y {
        RunAfterPaint(s, w, h, c, P, q.x, e.y + 1, q.y);
      } else {
        RunAfterPaint(s, w, h, c, P, q.x, q.y, e.y);
      }
    } else if e.y <= q.y {
      if e.y + 1 <= cur <= q.y {
        assert q.y > cur;
        RunAfterPaint(s, w, h, c, P, x, cur + 1, q.y);
      } else {
        RunAfterPaint(s, w, h, c, P, x, e.y + 1, q.y);
      }
    } else {
      if q.y <= cur <= e.y {
        assert false;
      } else {
        RunAfterPaint(s, w, h, c, P, x, q.y, e.y);
      }
    }
  }

  /**
   * After painting row `cur` of the scanned column, every pixel that must
   * be reached is pending, or below in the scan, or one of the two
   * neighbours the left and right checks look at next.
   */
  lemma PaintCoverage(s0: seq<byte>, s: seq<byte>, w: int, h: int, c: Rgb, root: Pixel,
                      stack: seq<Pixel>, x: int, top: int, cur: int)
    requires Canvas(s0, w, h) && Canvas(s, w, h) && OnlyFilled(s0, s, w * h, c) && LightFill(c)
    requires 0 <= x < w && 0 <= top <= cur < h
    requires top == 0 || !FillableAt(s, w, h, Pixel(x, top - 1))
    requires forall y :: top <= y < cur ==> !FillableAt(s, w, h, Pixel(x, y))
    requires FillableAt(s, w, h, Pixel(x, cur))
    requires ClosedButScan(s0, s, w, h, root, stack, x, cur)
    ensures ClosedButRow(s0, PaintPixel(s, w, h, Pixel(x, cur), c), w, h, root, stack, x, cur)
  {
    var P := Pixel(x, cur);
    var t := PaintPixel(s, w, h, P, c);
    PaintAt(s, w, h, P, c);
    ChangedAfterPaint(s0, s, w, h, c, P);
    forall q | FillableAt(t, w, h, q) && (q == root || TouchesChanged(s0, t, w, h, q))
      ensures Pending(t, w, h, stack, q) || ScanCovers(t, w, h, x, cur + 1, q)
              || q == Pixel(x - 1, cur) || q == Pixel(x + 1, cur)
    {
      assert q != P;
      assert FillableAt(s, w, h, q);
      if q == Pixel(x - 1, cur) || q == Pixel(x + 1, cur) {
      } else if q == root || TouchesChanged(s0, s, w, h, q) {
        assert Pending(s, w, h, stack, q) || ScanCovers(s, w, h, x, cur, q);
        if ScanCovers(s, w, h, x, cur, q) {
          RunAfterPaint(s, w, h, c, P, x, cur + 1, q.y);
        } else {
          var k :| 0 <= k < |stack| && Covers(s, w, h, stack[k], q);
          CoversAfterPaint(s, w, h, c, stack[k], q, x, top, cur);
        }
      } else {
        // The only newly changed neighbour is P itself.
        if q == Pixel(x, cur - 1) {
          assert false;
        } else {
          assert q == Pixel(x, cur + 1);
          assert Run(t, w, h, x, cur + 1, cur + 1);
        }
      }
    }
  }

  // ---------------------------------------------------------------------
  // Popping an entry, pushing neighbours, ending a column
  // ---------------------------------------------------------------------

  /**
   * After popping `e` and climbing to `top`, whatever `e` covered is
   * covered by the downward scan from `top`.
   */
  lemma PopCoverage(s0: seq<byte>, s: seq<byte>, w: int, h: int, root: Pixel,
                    stack: seq<Pixel>, top: int)
    requires Canvas(s0, w, h) && Canvas(s, w, h) && |stack| > 0
    requires Closed(s0, s, w, h, root, stack)
    requires var e := stack[|stack| - 1];
             0 <= top <= e.y + 1 && Run(s, w, h, e.x, top, e.y)
             && (top == 0 || !FillableAt(s, w, h, Pixel(e.x, top - 1)))
    ensures ClosedButScan(s0, s, w, h, root, stack[..|stack| - 1], stack[|stack| - 1].x, top)
  {
    var e := stack[|stack| - 1];
    var rest := stack[..|stack| - 1];
    forall q | FillableAt(s, w, h, q) && (q == root || TouchesChanged(s0, s, w, h, q))
      ensures Pending(s, w, h, rest, q) || ScanCovers(s, w, h, e.x, top, q)
    {
      assert Pending(s, w, h, stack, q);
      var k :| 0 <= k < |stack| && Covers(s, w, h, stack[k], q);
      if k < |rest| {
        assert rest[k] == stack[k];
      } else {
        assert stack[k] == e;
        if e.y <= q.y {
          assert top <= q.y;
        } else {
          assert top <= q.y;
        }
      }
    }
  }

  /** The first pixel the downward scan looks at is fillable only if it is in the component. */
  lemma ScanStartSound(s0: seq<byte>, s: seq<byte>, w: int, h: int, c: Rgb, seed: Pixel,
                       e: Pixel, top: int)
    requires Canvas(s0, w, h) && Canvas(s, w, h) && OnlyFilled(s0, s, w * h, c) && LightFill(c)
    requires InBounds(w, h, e)
    requires InComponent(s0, w, h, Root(s0, w, h, seed), e) || (e == seed && !FillableAt(s0, w, h, seed))
    requires 0 <= top <= e.y + 1 && Run(s, w, h, e.x, top, e.y)
    requires top == 0 || !FillableAt(s, w, h, Pixel(e.x, top - 1))
    ensures FillableAt(s, w, h, Pixel(e.x, top)) ==> InComponent(s0, w, h, Root(s0, w, h, seed), Pixel(e.x, top))
  {
    var root := Root(s0, w, h, seed);
    var p := Pixel(e.x, top);
    if FillableAt(s, w, h, p) {
      StillFillable(s0, s, w, h, c, p);
      if top <= e.y {
        StillFillable(s0, s, w, h, c, e);
        RunOriginal(s0, s, w, h, c, e.x, top, e.y);
        ComponentUp(s0, w, h, root, e.x, top, e.y);
      } else if InComponent(s0, w, h, root, e) {
        ComponentStep(s0, w, h, root, e, p);
      } else {
        ComponentRoot(s0, w, h, p);
      }
    }
  }

  lemma PendingGrow(s: seq<byte>, w: int, h: int, stack: seq<Pixel>, more: seq<Pixel>, q: Pixel)
    requires Canvas(s, w, h) && Pending(s, w, h, stack, q)
    ensures Pending(s, w, h, stack + more, q)
  {
    var k :| 0 <= k < |stack| && Covers(s, w, h, stack[k], q);
    assert (stack + more)[k] == stack[k];
  }

  lemma ReachGrow(s: seq<byte>, w: int, h: int, stack: seq<Pixel>, more: seq<Pixel>,
                  nx: int, cur: int, reach: bool)
    requires Canvas(s, w, h) && Reach(s, w, h, stack, nx, cur, reach)
    ensures Reach(s, w, h, stack + more, nx, cur, reach)
  {
    if reach {
      var k :| 0 <= k < |stack| && stack[k].x == nx && stack[k].y <= cur - 1
               && Run(s, w, h, nx, stack[k].y, cur - 1);
      assert (stack + more)[k] == stack[k];
    }
  }

  /** Painting in column `x` leaves what is known of a neighbouring column alone. */
  lemma ReachAfterPaint(s: seq<byte>, w: int, h: int, c: Rgb, stack: seq<Pixel>,
                        nx: int, cur: int, reach: bool, P: Pixel)
    requires Canvas(s, w, h) && InBounds(w, h, P) && P.x != nx
    requires Reach(s, w, h, stack, nx, cur, reach)
    ensures Reach(PaintPixel(s, w, h, P, c), w, h, stack, nx, cur, reach)
  {
    if reach {
      var k :| 0 <= k < |stack| && stack[k].x == nx && stack[k].y <= cur - 1
               && Run(s, w, h, nx, stack[k].y, cur - 1);
      RunAfterPaint(s, w, h, c, P, nx, stack[k].y, cur - 1);
    }
  }

  /**
   * A fillable neighbour is pending after the check: pushed now, or joined
   * to the entry pushed for the run it belongs to.
   */
  lemma PushNeighbour(s: seq<byte>, w: int, h: int, stack: seq<Pixel>, nx: int, cur: int, reach: bool)
    requires Canvas(s, w, h) && Reach(s, w, h, stack, nx, cur, reach)
    requires FillableAt(s, w, h, Pixel(nx, cur))
    ensures var stack' := if reach then stack else stack + [Pixel(nx, cur)];
            Pending(s, w, h, stack', Pixel(nx, cur)) && Reach(s, w, h, stack', nx, cur + 1, true)
  {
    var n := Pixel(nx, cur);
    if reach {
      var k :| 0 <= k < |stack| && stack[k].x == nx && stack[k].y <= cur - 1
               && Run(s, w, h, nx, stack[k].y, cur - 1);
      assert Run(s, w, h, nx, stack[k].y, cur);
      assert Covers(s, w, h, stack[k], n);
    } else {
      var stack' := stack + [n];
      assert stack'[|stack|] == n;
      assert Covers(s, w, h, n, n);
      assert Run(s, w, h, nx, cur, cur);
    }
  }

  /** The left and right checks discharge the two neighbours of the painted pixel. */
  lemma FinishRow(s0: seq<byte>, s: seq<byte>, w: int, h: int, root: Pixel,
                  stack: seq<Pixel>, x: int, cur: int, pushLeft: bool, pushRight: bool)
    requires Canvas(s0, w, h) && Canvas(s, w, h)
    requires ClosedButRow(s0, s, w, h, root, stack, x, cur)
    requires var stack' := Pushed(Pushed(stack, Pixel(x - 1, cur), pushLeft), Pixel(x + 1, cur), pushRight);
             (FillableAt(s, w, h, Pixel(x - 1, cur)) ==> Pending(s, w, h, stack', Pixel(x - 1, cur)))
             && (FillableAt(s, w, h, Pixel(x + 1, cur)) ==> Pending(s, w, h, stack', Pixel(x + 1, cur)))
    ensures ClosedButScan(s0, s, w, h, root,
                          Pushed(Pushed(stack, Pixel(x - 1, cur), pushLeft), Pixel(x + 1, cur), pushRight), x, cur + 1)
  {
    var left := Pushed(stack, Pixel(x - 1, cur), pushLeft);
    var stack' := Pushed(left, Pixel(x + 1, cur), pushRight);
    assert stack' == stack + stack'[|stack|..] by {
      assert stack'[..|stack|] == left[..|stack|];
    }
    forall q | FillableAt(s, w, h, q) && (q == root || TouchesChanged(s0, s, w, h, q))
      ensures Pending(s, w, h, stack', q) || ScanCovers(s, w, h, x, cur + 1, q)
    {
      if Pending(s, w, h, stack, q) {
        PendingGrow(s, w, h, stack, stack'[|stack|..], q);
      }
    }
  }

  /** When the downward scan stops, nothing is left to it. */
  lemma EndScan(s0: seq<byte>, s: seq<byte>, w: int, h: int, root: Pixel,
                stack: seq<Pixel>, x: int, cur: int)
    requires Canvas(s0, w, h) && Canvas(s, w, h)
    requires ClosedButScan(s0, s, w, h, root, stack, x, cur)
    requires cur >= h || !FillableAt(s, w, h, Pixel(x, cur))
    ensures Closed(s0, s, w, h, root, stack)
  {
    forall q | FillableAt(s, w, h, q) && (q == root || TouchesChanged(s0, s, w, h, q))
      ensures Pending(s, w, h, stack, q)
    {
      assert Pending(s, w, h, stack, q) || ScanCovers(s, w, h, x, cur, q);
      assert !ScanCovers(s, w, h, x, cur, q);
    }
  }

  // ---------------------------------------------------------------------
  // Start and end of the fill
  // ---------------------------------------------------------------------

  /** The stack holding only the seed covers the root, and nothing has changed yet. */
  lemma Start(s0: seq<byte>, w: int, h: int, seed: Pixel)
    requires Canvas(s0, w, h) && InBounds(w, h, seed)
    ensures Closed(s0, s0, w, h, Root(s0, w, h, seed), [seed])
    ensures Anchored(s0, w, h, Root(s0, w, h, seed), seed, [seed])
    ensures Sound(s0, s0, w, h, Root(s0, w, h, seed))
    ensures forall p :: !Changed(s0, s0, w, h, p)
  {
    var root := Root(s0, w, h, seed);
    if FillableAt(s0, w, h, seed) {
      ComponentRoot(s0, w, h, seed);
    }
    forall q | FillableAt(s0, w, h, q) && (q == root || TouchesChanged(s0, s0, w, h, q))
      ensures Pending(s0, w, h, [seed], q)
    {
      assert q == root;
      assert Run(s0, w, h, seed.x, seed.y + 1, q.y);
      assert Covers(s0, w, h, [seed][0], q);
    }
  }

  lemma {:induction false} WalkPainted(s0: seq<byte>, s: seq<byte>, w: int, h: int, c: Rgb, root: Pixel,
                                       path: seq<Pixel>, k: nat)
    requires Canvas(s0, w, h) && Canvas(s, w, h) && OnlyFilled(s0, s, w * h, c) && LightFill(c)
    requires Closed(s0, s, w, h, root, [])
    requires IsWalk(s0, w, h, path) && path[0] == root && k < |path|
    ensures Changed(s0, s, w, h, path[k])
    decreases k
  {
    var p := path[k];
    OnlyFilledAt(s0, s, w, h, c, p);
    if k > 0 {
      WalkPainted(s0, s, w, h, c, root, path, k - 1);
      assert Adjacent(path[k - 1], p);
      assert TouchesChanged(s0, s, w, h, p);
    }
    assert FillableAt(s, w, h, p) ==> Pending(s, w, h, [], p);
  }

  /** With nothing pending, every pixel of the component has been painted. */
  lemma ClosedIsComplete(s0: seq<byte>, s: seq<byte>, w: int, h: int, c: Rgb, root: Pixel)
    requires Canvas(s0, w, h) && Canvas(s, w, h) && OnlyFilled(s0, s, w * h, c) && LightFill(c)
    requires Closed(s0, s, w, h, root, [])
    ensures forall p :: InComponent(s0, w, h, root, p) ==> Changed(s0, s, w, h, p)
  {
    forall p | InComponent(s0, w, h, root, p)
      ensures Changed(s0, s, w, h, p)
    {
      var path :| IsWalk(s0, w, h, path) && path[0] == root && path[|path| - 1] == p;
      WalkPainted(s0, s, w, h, c, root, path, |path| - 1);
    }
  }

  lemma AnchoredPush(s0: seq<byte>, w: int, h: int, root: Pixel, seed: Pixel, stack: seq<Pixel>, n: Pixel)
    requires Canvas(s0, w, h) && Anchored(s0, w, h, root, seed, stack)
    requires InBounds(w, h, n) && InComponent(s0, w, h, root, n)
    ensures Anchored(s0, w, h, root, seed, stack + [n])
  {
  }

  lemma AnchoredPop(s0: seq<byte>, w: int, h: int, root: Pixel, seed: Pixel, stack: seq<Pixel>)
    requires Canvas(s0, w, h) && Anchored(s0, w, h, root, seed, stack) && |stack| > 0
    ensures Anchored(s0, w, h, root, seed, stack[..|stack| - 1])
  {
  }

  /** Everything one iteration of the downward scan learns from painting row `cur`. */
  lemma PaintStep(s0: seq<byte>, s: seq<byte>, w: int, h: int, c: Rgb, root: Pixel,
                  stack: seq<Pixel>, x: int, top: int, cur: int, reachLeft: bool, reachRight: bool)
    requires Canvas(s0, w, h) && Canvas(s, w, h) && OnlyFilled(s0, s, w * h, c) && LightFill(c)
    requires 0 <= x < w && 0 <= top <= cur < h
    requires top == 0 || !FillableAt(s, w, h, Pixel(x, top - 1))
    requires forall y :: top <= y < cur ==> !FillableAt(s, w, h, Pixel(x, y))
    requires FillableAt(s, w, h, Pixel(x, cur)) && InComponent(s0, w, h, root, Pixel(x, cur))
    requires ClosedButScan(s0, s, w, h, root, stack, x, cur) && Sound(s0, s, w, h, root)
    requires Reach(s, w, h, stack, x - 1, cur, reachLeft) && Reach(s, w, h, stack, x + 1, cur, reachRight)
    ensures var t := PaintPixel(s, w, h, Pixel(x, cur), c);
            OnlyFilled(s0, t, w * h, c)
            && CountFillable(t, w * h) == CountFillable(s, w * h) - 1
            && Sound(s0, t, w, h, root)
            && (top == 0 || !FillableAt(t, w, h, Pixel(x, top - 1)))
            && (forall y :: top <= y <= cur ==> !FillableAt(t, w, h, Pixel(x, y)))
            && ClosedButRow(s0, t, w, h, root, stack, x, cur)
            && Reach(t, w, h, stack, x - 1, cur, reachLeft) && Reach(t, w, h, stack, x + 1, cur, reachRight)
            && (forall n :: Adjacent(Pixel(x, cur), n) && FillableAt(t, w, h, n) ==> InComponent(s0, w, h, root, n))
  {
    var P := Pixel(x, cur);
    IdxBounds(w, h, P);
    OnlyFilledPaint(s0, s, w, h, c, P);
    CountAfterPaintPixel(s, w, h, P, c);
    PaintSound(s0, s, w, h, c, root, P);
    PaintColumn(s, w, h, c, x, top, cur);
    PaintCoverage(s0, s, w, h, c, root, stack, x, top, cur);
    ReachAfterPaint(s, w, h, c, stack, x - 1, cur, reachLeft, P);
    ReachAfterPaint(s, w, h, c, stack, x + 1, cur, reachRight, P);
    PaintNeighbours(s0, s, w, h, c, root, P);
  }

  lemma PaintSound(s0: seq<byte>, s: seq<byte>, w: int, h: int, c: Rgb, root: Pixel, P: Pixel)
    requires Canvas(s0, w, h) && Canvas(s, w, h) && OnlyFilled(s0, s, w * h, c) && LightFill(c)
    requires FillableAt(s, w, h, P) && InComponent(s0, w, h, root, P) && Sound(s0, s, w, h, root)
    ensures Sound(s0, PaintPixel(s, w, h, P, c), w, h, root)
  {
    var t := PaintPixel(s, w, h, P, c);
    ChangedAfterPaint(s0, s, w, h, c, P);
    forall n | Changed(s0, t, w, h, n)
      ensures InComponent(s0, w, h, root, n)
    {
      if n != P {
        assert Changed(s0, s, w, h, n);
      }
    }
  }

  /** Painting row `cur` extends the stretch of column `x` that is no longer fillable. */
  lemma PaintColumn(s: seq<byte>, w: int, h: int, c: Rgb, x: int, top: int, cur: int)
    requires Canvas(s, w, h) && 0 <= x < w && 0 <= top <= cur < h && LightFill(c)
    requires top == 0 || !FillableAt(s, w, h, Pixel(x, top - 1))
    requires forall y :: top <= y < cur ==> !FillableAt(s, w, h, Pixel(x, y))
    ensures var t := PaintPixel(s, w, h, Pixel(x, cur), c);
            (top == 0 || !FillableAt(t, w, h, Pixel(x, top - 1)))
            && (forall y :: top <= y <= cur ==> !FillableAt(t, w, h, Pixel(x, y)))
  {
    var t := PaintPixel(s, w, h, Pixel(x, cur), c);
    PaintAt(s, w, h, Pixel(x, cur), c);
    forall y | top <= y <= cur
      ensures !FillableAt(t, w, h, Pixel(x, y))
    {
      if y < cur {
        assert !FillableAt(s, w, h, Pixel(x, y));
      }
    }
  }

  /** The fillable neighbours of a painted member of the component are members. */
  lemma PaintNeighbours(s0: seq<byte>, s: seq<byte>, w: int, h: int, c: Rgb, root: Pixel, P: Pixel)
    requires Canvas(s0, w, h) && Canvas(s, w, h) && OnlyFilled(s0, s, w * h, c) && LightFill(c)
    requires InBounds(w, h, P) && InComponent(s0, w, h, root, P)
    requires OnlyFilled(s0, PaintPixel(s, w, h, P, c), w * h, c)
    ensures var t := PaintPixel(s, w, h, P, c);
            forall n :: Adjacent(P, n) && FillableAt(t, w, h, n) ==> InComponent(s0, w, h, root, n)
  {
    var t := PaintPixel(s, w, h, P, c);
    forall n | Adjacent(P, n) && FillableAt(t, w, h, n)
      ensures InComponent(s0, w, h, root, n)
    {
      StillFillable(s0, t, w, h, c, n);
      ComponentStep(s0, w, h, root, P, n);
    }
  }

  /**
   * The left and right checks after painting row `cur`: a fillable
   * neighbour is pushed unless its run already has an entry, each flag
   * then records whether its neighbour was fillable, and the scan may go on
   * to row `cur + 1`.
   */
  lemma NeighbourChecks(s0: seq<byte>, t: seq<byte>, w: int, h: int, root: Pixel, seed: Pixel,
                        stack: seq<Pixel>, x: int, cur: int, reachLeft: bool, reachRight: bool)
    returns (right: seq<Pixel>)
    requires Canvas(s0, w, h) && Canvas(t, w, h)
    requires 0 <= x < w && 0 <= cur < h
    requires Reach(t, w, h, stack, x - 1, cur, reachLeft) && Reach(t, w, h, stack, x + 1, cur, reachRight)
    requires Anchored(s0, w, h, root, seed, stack)
    requires FillableAt(t, w, h, Pixel(x - 1, cur)) ==> InComponent(s0, w, h, root, Pixel(x - 1, cur))
    requires FillableAt(t, w, h, Pixel(x + 1, cur)) ==> InComponent(s0, w, h, root, Pixel(x + 1, cur))
    ensures right == Pushed(Pushed(stack, Pixel(x - 1, cur), FillableAt(t, w, h, Pixel(x - 1, cur)) && !reachLeft),
                            Pixel(x + 1, cur), FillableAt(t, w, h, Pixel(x + 1, cur)) && !reachRight)
    ensures Anchored(s0, w, h, root, seed, right)
    ensures Reach(t, w, h, right, x - 1, cur + 1, FillableAt(t, w, h, Pixel(x - 1, cur)))
    ensures Reach(t, w, h, right, x + 1, cur + 1, FillableAt(t, w, h, Pixel(x + 1, cur)))
    ensures FillableAt(t, w, h, Pixel(x - 1, cur)) ==> Pending(t, w, h, right, Pixel(x - 1, cur))
    ensures FillableAt(t, w, h, Pixel(x + 1, cur)) ==> Pending(t, w, h, right, Pixel(x + 1, cur))
  {
    var L := Pixel(x - 1, cur);
    var left := CheckSide(s0, t, w, h, root, seed, stack, x - 1, cur, reachLeft, x + 1, cur, reachRight, L);
    right := CheckSide(s0, t, w, h, root, seed, left, x + 1, cur, reachRight, x - 1, cur + 1, FillableAt(t, w, h, L), L);
  }

  /** `stack` with `n` pushed when `push` holds. */
  function Pushed(stack: seq<Pixel>, n: Pixel, push: bool): (r: seq<Pixel>)
    ensures |stack| <= |r| <= |stack| + 1 && r[..|stack|] == stack
  {
    if push then stack + [n] else stack
  }

  /**
   * One of the two checks: the neighbour `(nx, cur)` is pushed when it is
   * fillable and its run has no entry yet, and the flag becomes whether it
   * is fillable.  What was pending, and the other flag's entry, stay.
   */
  lemma CheckSide(s0: seq<byte>, t: seq<byte>, w: int, h: int, root: Pixel, seed: Pixel,
                  stack: seq<Pixel>, nx: int, cur: int, reach: bool,
                  ox: int, ocur: int, oreach: bool, other: Pixel)
    returns (stack': seq<Pixel>)
    requires Canvas(s0, w, h) && Canvas(t, w, h)
    requires Reach(t, w, h, stack, nx, cur, reach) && Reach(t, w, h, stack, ox, ocur, oreach)
    requires Anchored(s0, w, h, root, seed, stack)
    requires FillableAt(t, w, h, Pixel(nx, cur)) ==> InComponent(s0, w, h, root, Pixel(nx, cur))
    ensures stack' == Pushed(stack, Pixel(nx, cur), FillableAt(t, w, h, Pixel(nx, cur)) && !reach)
    ensures Anchored(s0, w, h, root, seed, stack')
    ensures Reach(t, w, h, stack', nx, cur + 1, FillableAt(t, w, h, Pixel(nx, cur)))
    ensures FillableAt(t, w, h, Pixel(nx, cur)) ==> Pending(t, w, h, stack', Pixel(nx, cur))
    ensures Reach(t, w, h, stack', ox, ocur, oreach)
    ensures Pending(t, w, h, stack, other) ==> Pending(t, w, h, stack', other)
  {
    var n := Pixel(nx, cur);
    stack' := Pushed(stack, n, FillableAt(t, w, h, n) && !reach);
    if FillableAt(t, w, h, n) {
      PushNeighbour(t, w, h, stack, nx, cur, reach);
      if !reach {
        AnchoredPush(s0, w, h, root, seed, stack, n);
      }
    }
    assert stack + stack'[|stack|..] == stack';
    ReachGrow(t, w, h, stack, stack'[|stack|..], ox, ocur, oreach);
    if Pending(t, w, h, stack, other) {
      PendingGrow(t, w, h, stack, stack'[|stack|..], other);
    }
  }

  /** What holds between two pops of the fill's outer loop. */
  ghost predicate FillInv(s0: seq<byte>, s: seq<byte>, w: int, h: int, c: Rgb, root: Pixel, seed: Pixel,
                          stack: seq<Pixel>)
  {
    Canvas(s0, w, h) && Canvas(s, w, h) && LightFill(c) && OnlyFilled(s0, s, w * h, c)
    && Anchored(s0, w, h, root, seed, stack) && Sound(s0, s, w, h, root)
    && Closed(s0, s, w, h, root, stack)
  }

  /**
   * What holds at each row of the downward scan of column `x`, started at
   * row `top`.  The scan's methods state it as `ScanInv(...) == true`, so
   * that it is carried as one fact instead of being checked conjunct by
   * conjunct at every call.
   */
  ghost predicate ScanInv(s0: seq<byte>, s: seq<byte>, w: int, h: int, c: Rgb, root: Pixel, seed: Pixel,
                          stack: seq<Pixel>, x: int, top: int, cur: int, reachLeft: bool, reachRight: bool)
  {
    Canvas(s0, w, h) && Canvas(s, w, h) && LightFill(c) && OnlyFilled(s0, s, w * h, c)
    && 0 <= x < w && 0 <= top <= cur <= h
    && Anchored(s0, w, h, root, seed, stack) && Sound(s0, s, w, h, root)
    && (top == 0 || !FillableAt(s, w, h, Pixel(x, top - 1)))
    && (forall y :: top <= y < cur ==> !FillableAt(s, w, h, Pixel(x, y)))
    && ClosedButScan(s0, s, w, h, root, stack, x, cur)
    && (FillableAt(s, w, h, Pixel(x, cur)) ==> InComponent(s0, w, h, root, Pixel(x, cur)))
    && (reachLeft ==> x > 0) && (reachRight ==> x < w - 1)
    && Reach(s, w, h, stack, x - 1, cur, reachLeft) && Reach(s, w, h, stack, x + 1, cur, reachRight)
  }

  /** Once the scan meets a pixel that is not fillable (or the bottom), the outer invariant is back. */
  lemma EndScanFill(s0: seq<byte>, s: seq<byte>, w: int, h: int, c: Rgb, root: Pixel, seed: Pixel,
                    stack: seq<Pixel>, x: int, top: int, cur: int, reachLeft: bool, reachRight: bool)
    requires ScanInv(s0, s, w, h, c, root, seed, stack, x, top, cur, reachLeft, reachRight) == true
    requires cur >= h || !FillableAt(s, w, h, Pixel(x, cur))
    ensures FillInv(s0, s, w, h, c, root, seed, stack)
  {
    EndScan(s0, s, w, h, root, stack, x, cur);
  }

  /**
   * One row of the downward scan keeps the scan invariant: paint `(x, cur)`,
   * run the two checks, move to row `cur + 1`; one fillable pixel fewer.
   */
  lemma ScanStep(s0: seq<byte>, s: seq<byte>, t: seq<byte>, w: int, h: int, c: Rgb, root: Pixel, seed: Pixel,
                 stack: seq<Pixel>, stack': seq<Pixel>, x: int, top: int, cur: int,
                 reachLeft: bool, reachRight: bool, reachLeft': bool, reachRight': bool)
    requires ScanInv(s0, s, w, h, c, root, seed, stack, x, top, cur, reachLeft, reachRight)
    requires cur < h && FillableAt(s, w, h, Pixel(x, cur))
    requires t == PaintPixel(s, w, h, Pixel(x, cur), c)
    requires reachLeft' == FillableAt(t, w, h, Pixel(x - 1, cur))
    requires reachRight' == FillableAt(t, w, h, Pixel(x + 1, cur))
    requires stack' == Pushed(Pushed(stack, Pixel(x - 1, cur), reachLeft' && !reachLeft),
                              Pixel(x + 1, cur), reachRight' && !reachRight)
    ensures ScanInv(s0, t, w, h, c, root, seed, stack', x, top, cur + 1, reachLeft', reachRight')
    ensures CountFillable(t, w * h) == CountFillable(s, w * h) - 1
    ensures |stack'| <= |stack| + 2
  {
    var P := Pixel(x, cur);
    PaintStep(s0, s, w, h, c, root, stack, x, top, cur, reachLeft, reachRight);
    assert Adjacent(P, Pixel(x - 1, cur)) && Adjacent(P, Pixel(x + 1, cur));
    assert Adjacent(P, Pixel(x, cur + 1));
    var next := NeighbourChecks(s0, t, w, h, root, seed, stack, x, cur, reachLeft, reachRight);
    FinishRow(s0, t, w, h, root, stack, x, cur, reachLeft' && !reachLeft, reachRight' && !reachRight);
  }

  // ---------------------------------------------------------------------
  // The fill
  // ---------------------------------------------------------------------

  /** `(y * width + x) * 4`: where the bytes of pixel `(x, y)` start. */
  function PixelPos(w: int, h: int, x: int, y: int): (pos: int)
    requires InBounds(w, h, Pixel(x, y))
    ensures pos == 4 * Idx(w, Pixel(x, y)) && 0 <= pos && pos + 3 < 4 * (w * h)
    ensures pos % 4 == 0 && pos / 4 == Idx(w, Pixel(x, y))
  {
    IdxBounds(w, h, Pixel(x, y));
    (y * w + x) * 4
  }

  /** `matchStartColor(pos)`: the four bytes at `pos` form a fillable pixel. */
  predicate MatchStartColor(data: array<byte>, pos: int)
    reads data
    requires 0 <= pos && pos + 3 < data.Length
  {
    data[pos] < DARK_LIMIT && data[pos + 1] < DARK_LIMIT && data[pos + 2] < DARK_LIMIT && data[pos + 3] > 0
  }

  lemma MatchIsFillable(data: array<byte>, w: int, h: int, p: Pixel)
    requires Canvas(data[..], w, h) && InBounds(w, h, p)
    ensures MatchStartColor(data, PixelPos(w, h, p.x, p.y)) == FillableAt(data[..], w, h, p)
  {
    var pos := PixelPos(w, h, p.x, p.y);
    assert data[..][pos] == data[pos] && data[..][pos + 1] == data[pos + 1];
    assert data[..][pos + 2] == data[pos + 2] && data[..][pos + 3] == data[pos + 3];
  }

  /** `matchStartColor` at the position of pixel `(x, y)`: exactly the fillable test. */
  function MatchesAt(data: array<byte>, w: int, h: int, x: int, y: int): (b: bool)
    reads data
    requires Canvas(data[..], w, h) && InBounds(w, h, Pixel(x, y))
    ensures b == FillableAt(data[..], w, h, Pixel(x, y))
  {
    MatchIsFillable(data, w, h, Pixel(x, y));
    MatchStartColor(data, PixelPos(w, h, x, y))
  }

  /**
   * The climb of `floodFill`: from row `y` of column `x`, move up while the
   * pixel is fillable.  The result is the top of the fillable run through
   * `(x, y)`, or `y + 1` when `(x, y)` itself is not fillable.
   */
  method ClimbColumn(data: array<byte>, w: int, h: int, x: int, y: int) returns (top: int)
    requires Canvas(data[..], w, h) && InBounds(w, h, Pixel(x, y))
    ensures 0 <= top <= y + 1
    ensures Run(data[..], w, h, x, top, y)
    ensures top == 0 || !FillableAt(data[..], w, h, Pixel(x, top - 1))
  {
    var currentY := y;
    while currentY >= 0 && MatchesAt(data, w, h, x, currentY)
      invariant -1 <= currentY <= y
      invariant Run(data[..], w, h, x, currentY + 1, y)
      decreases currentY
    {
      currentY := currentY - 1;
    }
    top := currentY + 1;
  }

  /** `colorPixel(pos, color)`: the four bytes at `pos` become the fill colour and alpha 200. */
  method ColorPixel(data: array<byte>, w: int, h: int, pos: int, c: Rgb)
    requires Canvas(data[..], w, h) && 0 <= pos && pos % 4 == 0 && pos + 3 < data.Length
    modifies data
    ensures data[..] == Paint(old(data[..]), pos / 4, c)
  {
    data[pos] := c.r;
    data[pos + 1] := c.g;
    data[pos + 2] := c.b;
    data[pos + 3] := FILL_ALPHA;
  }

  /**
   * The left and right checks after row `cur` of column `x` was painted:
   * a fillable neighbour is pushed unless its flag says its run already has
   * an entry, and each flag becomes whether its neighbour is fillable.
   */
  method CheckNeighbours(data: array<byte>, w: int, h: int, x: int, cur: int,
                         stack: seq<Pixel>, reachLeft: bool, reachRight: bool)
    returns (stack': seq<Pixel>, reachLeft': bool, reachRight': bool)
    requires Canvas(data[..], w, h) && 0 <= x < w && 0 <= cur < h
    requires (reachLeft ==> x > 0) && (reachRight ==> x < w - 1)
    ensures reachLeft' == FillableAt(data[..], w, h, Pixel(x - 1, cur))
    ensures reachRight' == FillableAt(data[..], w, h, Pixel(x + 1, cur))
    ensures stack' == Pushed(Pushed(stack, Pixel(x - 1, cur), FillableAt(data[..], w, h, Pixel(x - 1, cur)) && !reachLeft),
                             Pixel(x + 1, cur), FillableAt(data[..], w, h, Pixel(x + 1, cur)) && !reachRight)
  {
    stack', reachLeft', reachRight' := stack, reachLeft, reachRight;
    var currentPos := PixelPos(w, h, x, cur);
    // Check left.
    if x > 0 {
      MatchIsFillable(data, w, h, Pixel(x - 1, cur));
      if MatchStartColor(data, currentPos - 4) {
        if !reachLeft' {
          stack' := stack' + [Pixel(x - 1, cur)];
          reachLeft' := true;
        }
      } else if reachLeft' {
        reachLeft' := false;
      }
    }
    // Check right.
    if x < w - 1 {
      MatchIsFillable(data, w, h, Pixel(x + 1, cur));
      if MatchStartColor(data, currentPos + 4) {
        if !reachRight' {
          stack' := stack' + [Pixel(x + 1, cur)];
          reachRight' := true;
        }
      } else if reachRight' {
        reachRight' := false;
      }
    }
  }

  /**
   * One row of the downward scan: paint `(x, cur)`, then the left and
   * right checks.  The scan invariant moves on to row `cur + 1` and one
   * fillable pixel fewer remains.
   */
  method ScanRow(data: array<byte>, w: int, h: int, c: Rgb, x: int, top: int, cur: int,
                 ghost s0: seq<byte>, ghost root: Pixel, ghost seed: Pixel,
                 stack: seq<Pixel>, reachLeft: bool, reachRight: bool)
    returns (stack': seq<Pixel>, reachLeft': bool, reachRight': bool)
    modifies data
    requires ScanInv(s0, data[..], w, h, c, root, seed, stack, x, top, cur, reachLeft, reachRight) == true
    requires cur < h && FillableAt(data[..], w, h, Pixel(x, cur))
    ensures ScanInv(s0, data[..], w, h, c, root, seed, stack', x, top, cur + 1, reachLeft', reachRight') == true
    ensures CountFillable(data[..], w * h) == CountFillable(old(data[..]), w * h) - 1
    ensures |stack'| <= |stack| + 2
  {
    ghost var before := data[..];
    var currentPos := PixelPos(w, h, x, cur);
    ColorPixel(data, w, h, currentPos, c);
    assert data[..] == PaintPixel(before, w, h, Pixel(x, cur), c);
    stack', reachLeft', reachRight' := CheckNeighbours(data, w, h, x, cur, stack, reachLeft, reachRight);
    ScanStep(s0, before, data[..], w, h, c, root, seed, stack, stack', x, top, cur,
             reachLeft, reachRight, reachLeft', reachRight');
  }

  /**
   * The downward scan of `floodFill` in column `x` from row `top`: paint
   * while the pixel is fillable, and push the first pixel of each fillable
   * run met on the left and on the right.  It returns the new stack and the
   * number of pixels painted; afterwards every pixel that must be reached
   * is pending again.
   */
  method ScanDown(data: array<byte>, w: int, h: int, c: Rgb, x: int, top: int,
                  ghost s0: seq<byte>, ghost root: Pixel, ghost seed: Pixel, stack: seq<Pixel>)
    returns (stack': seq<Pixel>, painted: nat)
    modifies data
    requires ScanInv(s0, data[..], w, h, c, root, seed, stack, x, top, top, false, false) == true
    ensures FillInv(s0, data[..], w, h, c, root, seed, stack')
    ensures CountFillable(data[..], w * h) + painted == CountFillable(old(data[..]), w * h)
    ensures |stack'| <= |stack| + 2 * painted
  {
    ghost var countAtStart := CountFillable(data[..], w * h);
    stack' := stack;
    painted := 0;
    var currentY := top;
    var reachLeft := false;
    var reachRight := false;
    while currentY < h && MatchesAt(data, w, h, x, currentY)
      invariant ScanInv(s0, data[..], w, h, c, root, seed, stack', x, top, currentY, reachLeft, reachRight) == true
      invariant painted == currentY - top
      invariant CountFillable(data[..], w * h) + painted == countAtStart
      invariant |stack'| <= |stack| + 2 * painted
      decreases h - currentY
    {
      stack', reachLeft, reachRight := ScanRow(data, w, h, c, x, top, currentY, s0, root, seed,
                                               stack', reachLeft, reachRight);
      painted := painted + 1;
      currentY := currentY + 1;
    }
    EndScanFill(s0, data[..], w, h, c, root, seed, stack', x, top, currentY, reachLeft, reachRight);
  }

  /**
   * `floodFill(startX, startY, fillColor)` on the canvas bytes `data`.
   * It does nothing unless the seed's red, green and blue are below 50 and
   * the fill colour is `#rrggbb`; otherwise it paints exactly the
   * 4-connected fillable region of the seed (of the pixel under it when the
   * seed is fully transparent) and counts the pixels it changed.
   */
  method FloodFill(data: array<byte>, w: int, h: int, startX: int, startY: int, fillColor: string)
    returns (proceeded: bool, newlyColored: nat)
    requires Canvas(data[..], w, h) && InBounds(w, h, Pixel(startX, startY))
    requires HexToRgb(fillColor).Some? ==> LightFill(HexToRgb(fillColor).value)
    modifies data
    ensures Canvas(data[..], w, h)
    ensures proceeded <==> IsDark(At(old(data[..]), w, h, Pixel(startX, startY))) && HexToRgb(fillColor).Some?
    ensures !proceeded ==> data[..] == old(data[..])
    ensures proceeded ==> OnlyFilled(old(data[..]), data[..], w * h, HexToRgb(fillColor).value)
    ensures newlyColored == CountChanged(old(data[..]), data[..], w * h)
    ensures CountFillable(data[..], w * h) + newlyColored == CountFillable(old(data[..]), w * h)
    ensures proceeded ==> forall p :: InBounds(w, h, p) ==>
              (Changed(old(data[..]), data[..], w, h, p)
               <==> InComponent(old(data[..]), w, h, Root(old(data[..]), w, h, Pixel(startX, startY)), p))
  {
    ghost var s0 := data[..];
    var seed := Pixel(startX, startY);
    var startPos := PixelPos(w, h, startX, startY);
    if !(data[startPos] < DARK_LIMIT && data[startPos + 1] < DARK_LIMIT && data[startPos + 2] < DARK_LIMIT) {
      CountChangedSame(s0, w * h);
      return false, 0;
    }
    var colorRGB := HexToRgb(fillColor);
    if colorRGB.None? {
      CountChangedSame(s0, w * h);
      return false, 0;
    }
    var c := colorRGB.value;
    ghost var root := Root(s0, w, h, seed);
    var pixelStack := [seed];
    newlyColored := 0;
    Start(s0, w, h, seed);

    while |pixelStack| > 0
      invariant FillInv(s0, data[..], w, h, c, root, seed, pixelStack)
      invariant newlyColored == CountFillable(s0, w * h) - CountFillable(data[..], w * h)
      decreases CountFillable(data[..], w * h), |pixelStack|
    {
      ghost var popped := pixelStack;
      var e := pixelStack[|pixelStack| - 1];
      pixelStack := pixelStack[..|pixelStack| - 1];
      AnchoredPop(s0, w, h, root, seed, popped);
      var top := ClimbColumn(data, w, h, e.x, e.y);
      PopCoverage(s0, data[..], w, h, root, popped, top);
      ScanStartSound(s0, data[..], w, h, c, seed, e, top);
      var painted;
      assert ScanInv(s0, data[..], w, h, c, root, seed, pixelStack, e.x, top, top, false, false);
      pixelStack, painted := ScanDown(data, w, h, c, e.x, top, s0, root, seed, pixelStack);
      newlyColored := newlyColored + painted;
    }
    ClosedIsComplete(s0, data[..], w, h, c, root);
    CountDrop(s0, data[..], w * h, c);
    proceeded := true;
  }
}
