/**
 * The simplest colouring page: a palette, a selected colour with its
 * 1-based number, and a map from region number to the colour applied to
 * it.  Applying a colour checks nothing about the region.
 */
module SimplePage {
  import opened JsValues
  import opened Selection

  class SimpleColoringPage {
    var selectedColor: Option<string>
    var selectedColorNumber: Option<int>
    var coloredRegions: map<int, string>

    /** Nothing selected, nothing coloured. */
    constructor ()
      ensures selectedColor == None && selectedColorNumber == None && coloredRegions == map[]
    {
      selectedColor, selectedColorNumber := None, None;
      coloredRegions := map[];
    }

    /** The number the prompt announces, if any: a number of 0 would count as none. */
    function PromptNumber(): (n: Option<int>)
      reads this
      ensures n.Some? <==> selectedColorNumber.Some? && selectedColorNumber.value != 0
      ensures n.Some? ==> n.value == selectedColorNumber.value
    {
      if selectedColorNumber.Some? && selectedColorNumber.value != 0 then selectedColorNumber else None
    }

    /** The palette button at `index`: select the colour with number `index + 1`, or clear both when it is already selected. */
    method SelectColor(color: string, index: int)
      modifies this
      ensures selectedColor == Toggle(old(selectedColor), color)
      ensures selectedColorNumber == ToggleTag(old(selectedColor), color, index + 1)
      ensures coloredRegions == old(coloredRegions)
    {
      if selectedColor == Some(color) {
        selectedColor := None;
        selectedColorNumber := None;
      } else {
        selectedColor := Some(color);
        selectedColorNumber := Some(index + 1);
      }
    }

    /**
     * The apply handler, which the page defines but no element calls: with a
     * colour selected, that colour replaces whatever the region had.
     */
    method ApplyColor(regionId: int)
      modifies this
      ensures Truthy(old(selectedColor)) ==> coloredRegions == old(coloredRegions)[regionId := old(selectedColor).value]
      ensures !Truthy(old(selectedColor)) ==> coloredRegions == old(coloredRegions)
      ensures selectedColor == old(selectedColor) && selectedColorNumber == old(selectedColorNumber)
    {
      if Truthy(selectedColor) {
        coloredRegions := coloredRegions[regionId := selectedColor.value];
      }
    }

    /** The reset button: every region is uncoloured again. */
    method Reset()
      modifies this
      ensures coloredRegions == map[]
      ensures selectedColor == old(selectedColor) && selectedColorNumber == old(selectedColorNumber)
    {
      coloredRegions := map[];
    }
  }

  /**
   * The prompt after a palette click: the button's 1-based number when the
   * click selected a colour, nothing when it cleared the selection.
   */
  method PromptAfterSelect(page: SimpleColoringPage, color: string, index: nat) returns (shown: Option<int>)
    modifies page
    ensures page.selectedColor == Some(color) ==> shown == Some(index + 1)
    ensures page.selectedColor == None ==> shown == None
  {
    page.SelectColor(color, index);
    shown := page.PromptNumber();
  }
}
