/**
 * The colour-by-number page over numbered areas: selecting a colour
 * highlights the areas carrying that colour's 1-based palette number, and
 * only a highlighted area takes the selected colour when clicked.
 */
module NumberedPage {
  import opened JsValues
  import opened Selection

  /** An area of the picture: its id, its own colour, its number and its outline. */
  datatype ColorArea = ColorArea(id: string, color: Option<string>, number: int, path: string)

  /** The ids of the areas numbered `n`, in the order of `areas`. */
  function AreasNumbered(areas: seq<ColorArea>, n: int): (ids: seq<string>)
    ensures |ids| <= |areas|
    ensures forall x :: x in ids <==> exists a :: a in areas && a.id == x && a.number == n
  {
    if |areas| == 0 then []
    else
      var rest := AreasNumbered(areas[1..], n);
      assert forall a :: a in areas <==> a == areas[0] || a in areas[1..];
      if areas[0].number == n then [areas[0].id] + rest else rest
  }

  /**
   * The highlight effect: with a colour selected, the areas numbered one
   * more than the colour's palette position; with none, no area.
   */
  function Highlighted(areas: seq<ColorArea>, palette: seq<string>, selected: Option<string>): (ids: seq<string>)
    ensures !Truthy(selected) ==> ids == []
    ensures Truthy(selected) ==> forall x :: x in ids <==>
              exists a :: a in areas && a.id == x && a.number == IndexOf(palette, selected.value) + 1
  {
    if Truthy(selected) then AreasNumbered(areas, IndexOf(palette, selected.value) + 1) else []
  }

  /** A selected colour missing from the palette highlights exactly the areas numbered 0. */
  lemma HighlightedOffPalette(areas: seq<ColorArea>, palette: seq<string>, color: string)
    requires color != "" && color !in palette
    ensures Highlighted(areas, palette, Some(color)) == AreasNumbered(areas, 0)
  {
  }

  /** A colour at palette position `k` (its first occurrence) highlights the areas numbered `k + 1`. */
  lemma HighlightedAtPosition(areas: seq<ColorArea>, palette: seq<string>, k: nat)
    requires k < |palette| && palette[k] != "" && palette[k] !in palette[..k]
    ensures Highlighted(areas, palette, Some(palette[k])) == AreasNumbered(areas, k + 1)
  {
  }

  class ColoringPage {
    const colorAreas: seq<ColorArea>
    const palette: seq<string>
    var selectedColor: Option<string>
    var highlightedAreas: seq<string>
    var coloredAreas: map<string, string>

    /** Nothing selected, highlighted or coloured. */
    constructor (areas: seq<ColorArea>, colors: seq<string>)
      ensures colorAreas == areas && palette == colors
      ensures selectedColor == None && highlightedAreas == [] && coloredAreas == map[]
    {
      colorAreas, palette := areas, colors;
      selectedColor := None;
      highlightedAreas := [];
      coloredAreas := map[];
    }

    /** The effect that recomputes the highlighted areas after the selection changes. */
    method UpdateHighlight()
      modifies this
      ensures highlightedAreas == Highlighted(colorAreas, palette, selectedColor)
      ensures selectedColor == old(selectedColor) && coloredAreas == old(coloredAreas)
    {
      if Truthy(selectedColor) {
        var colorIndex := IndexOf(palette, selectedColor.value);
        highlightedAreas := AreasNumbered(colorAreas, colorIndex + 1);
      } else {
        highlightedAreas := [];
      }
    }

    /** A palette button: select the colour, or clear the selection when it is the selected one. */
    method SelectColor(color: string)
      modifies this
      ensures selectedColor == Toggle(old(selectedColor), color)
      ensures highlightedAreas == old(highlightedAreas) && coloredAreas == old(coloredAreas)
    {
      selectedColor := if Some(color) == selectedColor then None else Some(color);
    }

    /** A click on an area: it takes the selected colour only when it is highlighted; other areas keep theirs. */
    method AreaClick(areaId: string)
      modifies this
      ensures Truthy(old(selectedColor)) && areaId in old(highlightedAreas) ==>
                coloredAreas == old(coloredAreas)[areaId := old(selectedColor).value]
      ensures !(Truthy(old(selectedColor)) && areaId in old(highlightedAreas)) ==> coloredAreas == old(coloredAreas)
      ensures selectedColor == old(selectedColor) && highlightedAreas == old(highlightedAreas)
    {
      if Truthy(selectedColor) && areaId in highlightedAreas {
        coloredAreas := coloredAreas[areaId := selectedColor.value];
      }
    }

    /** The reset button: no area is coloured. */
    method Reset()
      modifies this
      ensures coloredAreas == map[]
      ensures selectedColor == old(selectedColor) && highlightedAreas == old(highlightedAreas)
    {
      coloredAreas := map[];
    }
  }

  /**
   * Selecting a colour, letting the highlight catch up, then clicking an
   * area: the area is coloured exactly when its number matches the colour's.
   */
  method SelectThenClick(page: ColoringPage, color: string, areaId: string)
    requires color != "" && page.selectedColor != Some(color)
    modifies page
    ensures page.selectedColor == Some(color)
    ensures (exists a :: a in page.colorAreas && a.id == areaId && a.number == IndexOf(page.palette, color) + 1) ==>
              page.coloredAreas == old(page.coloredAreas)[areaId := color]
    ensures !(exists a :: a in page.colorAreas && a.id == areaId && a.number == IndexOf(page.palette, color) + 1) ==>
              page.coloredAreas == old(page.coloredAreas)
  {
    page.SelectColor(color);
    page.UpdateHighlight();
    page.AreaClick(areaId);
  }
}
