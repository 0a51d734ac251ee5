/**
 * The raster colouring component: its state fields and the handlers and
 * effects that update them.  The canvas itself is the RGBA byte buffer
 * `pixels`; loading an image replaces it, a click runs the scanline fill
 * on it, and a running tally keeps the colourable total equal to the
 * pixels coloured plus the fillable pixels still left.
 */
module CanvasPage {
  import opened JsValues
  import opened Colors
  import opened Raster
  import opened Selection
  import ScanlineFill

  /**
   * The completion test of the effect that starts the celebration:
   * something is colourable, something is coloured, and the coloured share
   * is above 80 percent.
   */
  predicate Celebrates(colored: int, total: int)
  {
    total > 0 && colored > 0 && 100 * colored > 80 * total
  }

  /**
   * With the tally kept by the component, the celebration starts exactly
   * when something was coloured and fewer than a fifth of the colourable
   * pixels are still unpainted.
   */
  lemma CelebratesByRemaining(colored: int, remaining: int, total: int)
    requires remaining >= 0 && colored + remaining == total
    ensures Celebrates(colored, total) <==> colored > 0 && 5 * remaining < total
  {
  }

  /**
   * The integer form agrees with the effect's percentage test, which
   * computes `(colored / total) * 100` and compares it with 80.
   */
  lemma CelebratesIsPercentTest(colored: nat, total: nat)
    ensures Celebrates(colored, total) <==>
      total > 0 && colored > 0 && (colored as real / total as real) * 100.0 > 80.0
  {
    if total > 0 {
      var c, t := colored as real, total as real;
      var p := (c / t) * 100.0;
      ScaleByPositive(p, 80.0, t);
      assert p * t == 100.0 * c by { QuotientTimes(c, t); }
    }
  }

  /** Multiplying both sides by a positive number keeps a strict order. */
  lemma ScaleByPositive(a: real, b: real, t: real)
    requires t > 0.0
    ensures a > b <==> a * t > b * t
  {
    assert (a - b) * t == a * t - b * t;
    if a > b {
      assert (a - b) * t > 0.0;
    } else {
      assert (b - a) * t >= 0.0;
    }
  }

  /** Scaling a quotient back by its divisor. */
  lemma QuotientTimes(c: real, t: real)
    requires t > 0.0
    ensures (c / t) * 100.0 * t == 100.0 * c
  {
    assert (c / t) * t == c;
  }

  /**
   * Whether a click on `seed` fills: a colour is selected, no load is
   * under way, the clicked pixel is dark and the colour is `#rrggbb`.
   */
  predicate ClickFills(selected: Option<string>, loading: bool, s: seq<byte>, w: int, h: int, seed: Pixel)
    requires Canvas(s, w, h) && InBounds(w, h, seed)
  {
    Truthy(selected) && !loading && IsDark(At(s, w, h, seed)) && HexToRgb(selected.value).Some?
  }

  class ColoringCanvas {
    var pixels: array<byte>
    var width: int
    var height: int
    var selectedColor: Option<string>
    var selectedColorIndex: Option<int>
    var isLoading: bool
    var hasChanges: bool
    var showConfetti: bool
    var coloredPixels: int
    var totalColorablePixels: int

    /** The buffer holds `width * height` pixels. */
    ghost predicate Valid()
      reads this, pixels
    {
      Canvas(pixels[..], width, height)
    }

    /** Every colourable pixel is either coloured already or still fillable. */
    ghost predicate Tally()
      reads this, pixels
    {
      Valid() && coloredPixels + CountFillable(pixels[..], width * height) == totalColorablePixels
    }

    /** The initial state: loading, nothing selected, nothing coloured. */
    constructor ()
      ensures Valid() && isLoading && !hasChanges && !showConfetti
      ensures selectedColor == None && selectedColorIndex == None
      ensures coloredPixels == 0 && totalColorablePixels == 0
      ensures fresh(pixels) && width == 0 && height == 0
    {
      pixels := new byte[0];
      width, height := 0, 0;
      selectedColor, selectedColorIndex := None, None;
      isLoading, hasChanges, showConfetti := true, false, false;
      coloredPixels, totalColorablePixels := 0, 0;
    }

    /** The start of an image load: loading again, and nothing to save. */
    method StartLoad()
      modifies this
      ensures isLoading && !hasChanges
      ensures pixels == old(pixels) && width == old(width) && height == old(height)
      ensures selectedColor == old(selectedColor) && selectedColorIndex == old(selectedColorIndex)
      ensures showConfetti == old(showConfetti)
      ensures coloredPixels == old(coloredPixels) && totalColorablePixels == old(totalColorablePixels)
    {
      isLoading := true;
      hasChanges := false;
    }

    /** The image arrived: the canvas takes its size and its pixels, and loading ends. */
    method ImageLoaded(image: seq<byte>, w: int, h: int)
      requires Canvas(image, w, h)
      modifies this
      ensures Valid() && fresh(pixels) && pixels[..] == image && width == w && height == h
      ensures !isLoading && hasChanges == old(hasChanges)
      ensures selectedColor == old(selectedColor) && selectedColorIndex == old(selectedColorIndex)
      ensures showConfetti == old(showConfetti)
      ensures coloredPixels == old(coloredPixels) && totalColorablePixels == old(totalColorablePixels)
    {
      pixels := new byte[|image|](i requires 0 <= i < |image| => image[i]);
      width, height := w, h;
      isLoading := false;
    }

    /** The image failed to load: loading ends and the canvas is left as it was. */
    method ImageFailed()
      modifies this
      ensures !isLoading && hasChanges == old(hasChanges)
      ensures pixels == old(pixels) && width == old(width) && height == old(height)
      ensures selectedColor == old(selectedColor) && selectedColorIndex == old(selectedColorIndex)
      ensures showConfetti == old(showConfetti)
      ensures coloredPixels == old(coloredPixels) && totalColorablePixels == old(totalColorablePixels)
    {
      isLoading := false;
    }

    /**
     * The effect that runs when loading ends: count the fillable pixels of
     * the whole buffer, make that the total and restart the coloured count.
     */
    method RecountColorable()
      requires Valid()
      modifies this
      ensures Valid() && pixels == old(pixels) && width == old(width) && height == old(height)
      ensures old(isLoading) ==> totalColorablePixels == old(totalColorablePixels) && coloredPixels == old(coloredPixels)
      ensures !old(isLoading) ==> totalColorablePixels == CountFillable(pixels[..], width * height) && coloredPixels == 0
      ensures !old(isLoading) ==> Tally()
      ensures isLoading == old(isLoading) && hasChanges == old(hasChanges) && showConfetti == old(showConfetti)
      ensures selectedColor == old(selectedColor) && selectedColorIndex == old(selectedColorIndex)
    {
      if isLoading {
        return;
      }
      var data := pixels;
      var colorable := 0;
      var i := 0;
      ghost var n := 0;
      while i < data.Length
        invariant 0 <= n <= width * height && i == 4 * n
        invariant colorable == CountFillable(data[..], n)
      {
        if data[i] < DARK_LIMIT && data[i + 1] < DARK_LIMIT && data[i + 2] < DARK_LIMIT && data[i + 3] > 0 {
          colorable := colorable + 1;
        }
        i := i + 4;
        n := n + 1;
      }
      totalColorablePixels := colorable;
      coloredPixels := 0;
    }

    /** The completion effect: start the celebration once the coloured share passes 80 percent. */
    method CheckCompletion()
      modifies this
      ensures showConfetti == (old(showConfetti) || Celebrates(coloredPixels, totalColorablePixels))
      ensures pixels == old(pixels) && width == old(width) && height == old(height)
      ensures selectedColor == old(selectedColor) && selectedColorIndex == old(selectedColorIndex)
      ensures isLoading == old(isLoading) && hasChanges == old(hasChanges)
      ensures coloredPixels == old(coloredPixels) && totalColorablePixels == old(totalColorablePixels)
    {
      if totalColorablePixels > 0 && coloredPixels > 0 {
        if 100 * coloredPixels > 80 * totalColorablePixels && !showConfetti {
          showConfetti := true;
        }
      }
    }

    /** The celebration finished; the completion effect may start it again. */
    method ConfettiDone()
      modifies this
      ensures !showConfetti
      ensures pixels == old(pixels) && width == old(width) && height == old(height)
      ensures selectedColor == old(selectedColor) && selectedColorIndex == old(selectedColorIndex)
      ensures isLoading == old(isLoading) && hasChanges == old(hasChanges)
      ensures coloredPixels == old(coloredPixels) && totalColorablePixels == old(totalColorablePixels)
    {
      showConfetti := false;
    }

    /** A palette button: select `color` with its index, or clear both when it is already selected. */
    method SelectColor(color: string, index: int)
      modifies this
      ensures selectedColor == Toggle(old(selectedColor), color)
      ensures selectedColorIndex == ToggleTag(old(selectedColor), color, index)
      ensures pixels == old(pixels) && width == old(width) && height == old(height)
      ensures isLoading == old(isLoading) && hasChanges == old(hasChanges) && showConfetti == old(showConfetti)
      ensures coloredPixels == old(coloredPixels) && totalColorablePixels == old(totalColorablePixels)
    {
      if selectedColor == Some(color) {
        selectedColor := None;
        selectedColorIndex := None;
      } else {
        selectedColor := Some(color);
        selectedColorIndex := Some(index);
      }
    }

    /**
     * A click on pixel (x, y): with a colour selected and no load under
     * way, flood-fill from there.  A fill that went ahead marks the canvas
     * changed and adds the pixels it painted to the coloured count, which
     * keeps the tally.
     */
    method CanvasClick(x: int, y: int)
      requires Valid() && InBounds(width, height, Pixel(x, y))
      requires selectedColor.Some? && HexToRgb(selectedColor.value).Some? ==> LightFill(HexToRgb(selectedColor.value).value)
      modifies this, pixels
      ensures Valid() && pixels == old(pixels) && width == old(width) && height == old(height)
      ensures selectedColor == old(selectedColor) && selectedColorIndex == old(selectedColorIndex)
      ensures isLoading == old(isLoading) && showConfetti == old(showConfetti)
      ensures totalColorablePixels == old(totalColorablePixels)
      ensures !Truthy(selectedColor) || isLoading ==>
                pixels[..] == old(pixels[..]) && hasChanges == old(hasChanges) && coloredPixels == old(coloredPixels)
      ensures coloredPixels == old(coloredPixels) + CountChanged(old(pixels[..]), pixels[..], width * height)
      ensures hasChanges == (old(hasChanges) || ClickFills(selectedColor, isLoading, old(pixels[..]), width, height, Pixel(x, y)))
      ensures !ClickFills(selectedColor, isLoading, old(pixels[..]), width, height, Pixel(x, y)) ==>
                pixels[..] == old(pixels[..])
      ensures ClickFills(selectedColor, isLoading, old(pixels[..]), width, height, Pixel(x, y)) ==>
                OnlyFilled(old(pixels[..]), pixels[..], width * height, HexToRgb(selectedColor.value).value)
      ensures ClickFills(selectedColor, isLoading, old(pixels[..]), width, height, Pixel(x, y)) ==>
                forall p :: InBounds(width, height, p) ==>
                  (ScanlineFill.Changed(old(pixels[..]), pixels[..], width, height, p)
                   <==> InComponent(old(pixels[..]), width, height,
                                    ScanlineFill.Root(old(pixels[..]), width, height, Pixel(x, y)), p))
      ensures old(Tally()) ==> Tally()
    {
      if !Truthy(selectedColor) || isLoading {
        CountChangedSame(pixels[..], width * height);
        return;
      }
      var proceeded, newlyColored := ScanlineFill.FloodFill(pixels, width, height, x, y, selectedColor.value);
      if proceeded {
        hasChanges := true;
        coloredPixels := coloredPixels + newlyColored;
      }
    }

    /**
     * The reset button, before the original image is drawn again: loading
     * starts, the coloured count restarts and the celebration stops.
     */
    method StartReset()
      modifies this
      ensures isLoading && coloredPixels == 0 && !showConfetti
      ensures pixels == old(pixels) && width == old(width) && height == old(height)
      ensures selectedColor == old(selectedColor) && selectedColorIndex == old(selectedColorIndex)
      ensures hasChanges == old(hasChanges) && totalColorablePixels == old(totalColorablePixels)
    {
      isLoading := true;
      coloredPixels := 0;
      showConfetti := false;
    }

    /** The original image is back on the canvas at its current size: loading ends with nothing to save. */
    method ResetLoaded(image: seq<byte>)
      requires Valid() && |image| == pixels.Length
      modifies pixels, this
      ensures Valid() && pixels == old(pixels) && pixels[..] == image
      ensures width == old(width) && height == old(height)
      ensures !isLoading && !hasChanges
      ensures selectedColor == old(selectedColor) && selectedColorIndex == old(selectedColorIndex)
      ensures showConfetti == old(showConfetti)
      ensures coloredPixels == old(coloredPixels) && totalColorablePixels == old(totalColorablePixels)
    {
      var data := pixels;
      var i := 0;
      while i < data.Length
        invariant 0 <= i <= data.Length
        invariant data[..i] == image[..i]
        invariant unchanged(this)
      {
        data[i] := image[i];
        i := i + 1;
      }
      assert data[..] == image[..data.Length];
      isLoading := false;
      hasChanges := false;
    }
  }

  /**
   * A whole session on one image: the count after loading keeps the tally,
   * and every click keeps it, so the coloured count never exceeds the total.
   */
  method ColorTwice(c: ColoringCanvas, x0: int, y0: int, x1: int, y1: int)
    requires c.Valid() && !c.isLoading
    requires InBounds(c.width, c.height, Pixel(x0, y0)) && InBounds(c.width, c.height, Pixel(x1, y1))
    requires c.selectedColor.Some? && HexToRgb(c.selectedColor.value).Some? ==> LightFill(HexToRgb(c.selectedColor.value).value)
    modifies c, c.pixels
    ensures c.Tally() && 0 <= c.coloredPixels <= c.totalColorablePixels
  {
    c.RecountColorable();
    c.CanvasClick(x0, y0);
    c.CanvasClick(x1, y1);
  }

  /**
   * A picture whose every colourable pixel has been coloured: with the
   * tally kept and no fillable pixel left, the completion effect starts
   * the celebration.
   */
  method CompletionCelebrates(c: ColoringCanvas)
    requires c.Tally() && c.totalColorablePixels > 0
    requires CountFillable(c.pixels[..], c.width * c.height) == 0
    modifies c
    ensures c.showConfetti
  {
    c.CheckCompletion();
  }
}
