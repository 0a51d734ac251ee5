/**
 * The colour choice every colouring component keeps: a click on a palette
 * button selects that colour, and a click on the colour already selected
 * clears the choice.
 */
module Selection {
  import opened JsValues

  /** `selectedColor === color ? null : color`. */
  function Toggle(selected: Option<string>, color: string): (r: Option<string>)
    ensures r.None? <==> selected == Some(color)
    ensures r.Some? ==> r.value == color
  {
    if selected == Some(color) then None else Some(color)
  }

  /**
   * The number shown beside a selection: the palette index (or position)
   * that came with the colour, cleared together with it.
   */
  function ToggleTag(selected: Option<string>, color: string, tag: int): (r: Option<int>)
    ensures r.None? <==> Toggle(selected, color).None?
    ensures r.Some? ==> r.value == tag
  {
    if selected == Some(color) then None else Some(tag)
  }

  /** Choosing the same colour twice undoes the first choice when it selected the colour, and selects it otherwise. */
  lemma ToggleTwice(selected: Option<string>, color: string)
    ensures Toggle(Toggle(selected, color), color) == (if selected == Some(color) then selected else None)
  {
  }
}
