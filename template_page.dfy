/**
 * The template page: it loads one catalogue template, prepares it with the
 * same path preparation as the preparation tool, and shows the colouring
 * canvas, or an error, or a waiting message.
 */
module TemplatePage {
  import opened JsValues
  import opened SvgDocument
  import opened Palettes
  import opened SvgPreparation
  import PreparationTool

  /** Why the page shows an error instead of the canvas. */
  datatype Failure = LoadFailed | NoPaths

  /** What the page renders. */
  datatype View =
    | Loading
    | Failed(failure: Failure)
    | Colouring(svg: seq<Element>, title: string, palette: PaletteProp)
    | Preparing

  /** The render decision: loading first, then the error, then the canvas once prepared. */
  function Render(isLoading: bool, error: Option<Failure>, isProcessed: bool,
                  svg: seq<Element>, title: string, colors: seq<string>): (v: View)
    ensures v.Loading? <==> isLoading
    ensures v.Failed? <==> !isLoading && error.Some?
    ensures v.Failed? ==> v.failure == error.value
    ensures v.Colouring? <==> !isLoading && error.None? && isProcessed
    ensures v.Colouring? ==> v.svg == svg && v.title == title && v.palette == PaletteFallback(colors)
  {
    if isLoading then Loading
    else if error.Some? then Failed(error.value)
    else if isProcessed then Colouring(svg, title, PaletteFallback(colors))
    else Preparing
  }

  /**
   * A canvas shown by the page starts on the colours the template produced,
   * or on the default palette when it produced none.
   */
  lemma RenderedPalette(svg: seq<Element>, title: string, colors: seq<string>)
    ensures var v := Render(false, None, true, svg, title, colors);
            v.Colouring? &&
            InitialPalette(v.palette) == (if |colors| > 0 then colors else DEFAULT_PALETTE)
  {
    PaletteFallbackStartsCanvas(colors);
  }

  class Page {
    var processedSvg: seq<Element>
    var extractedColors: seq<string>
    var isLoading: bool
    var isProcessed: bool
    var error: Option<Failure>
    var templateTitle: string

    /** The initial state: loading, nothing prepared, no error. */
    constructor ()
      ensures processedSvg == [] && extractedColors == []
      ensures isLoading && !isProcessed && error == None && templateTitle == ""
    {
      processedSvg, extractedColors := [], [];
      isLoading, isProcessed, error, templateTitle := true, false, None, "";
    }

    /** What the page renders in its current state. */
    function Shown(): View
      reads this
    {
      Render(isLoading, error, isProcessed, processedSvg, templateTitle, extractedColors)
    }

    /**
     * The load effect for a template id: nothing without an id; otherwise the
     * catalogue title (when the catalogue has the template) and loading.
     * An earlier error or result is not cleared.
     */
    method StartLoad(templateId: string, catalogueTitle: Option<string>)
      modifies this
      ensures templateId == "" ==>
                isLoading == old(isLoading) && templateTitle == old(templateTitle)
      ensures templateId != "" ==>
                isLoading && templateTitle == (if catalogueTitle.Some? then catalogueTitle.value else old(templateTitle))
      ensures processedSvg == old(processedSvg) && extractedColors == old(extractedColors)
      ensures isProcessed == old(isProcessed) && error == old(error)
    {
      if templateId == "" {
        return;
      }
      if catalogueTitle.Some? {
        templateTitle := catalogueTitle.value;
      }
      isLoading := true;
    }

    /** A response that is not ok: the load error, and loading ends. */
    method LoadFailure()
      modifies this
      ensures error == Some(LoadFailed) && !isLoading
      ensures processedSvg == old(processedSvg) && extractedColors == old(extractedColors)
      ensures isProcessed == old(isProcessed) && templateTitle == old(templateTitle)
      ensures Shown() == Failed(LoadFailed)
    {
      error := Some(LoadFailed);
      isLoading := false;
    }

    /**
     * The template's text arrived, parsed to `parsed`: loading ends, and
     * either the no-path error is set or every path is prepared and the
     * result and its palette are stored.
     */
    method Loaded(parsed: seq<Element>, probe: string -> string)
      requires WellFormed(parsed)
      modifies this
      ensures !isLoading && templateTitle == old(templateTitle)
      ensures |Tagged(parsed, "path")| == 0 ==>
                error == Some(NoPaths) && processedSvg == old(processedSvg) &&
                extractedColors == old(extractedColors) && isProcessed == old(isProcessed)
      ensures |Tagged(parsed, "path")| > 0 ==>
                var r := PreparationTool.Preparation(parsed, probe);
                processedSvg == r.doc && extractedColors == Distinct(r.found) &&
                isProcessed && error == old(error)
      ensures |Tagged(parsed, "path")| == 0 ==> Shown() == Failed(NoPaths)
      ensures |Tagged(parsed, "path")| > 0 && old(error).None? ==>
                var r := PreparationTool.Preparation(parsed, probe);
                Shown() == Colouring(r.doc, templateTitle, PaletteFallback(Distinct(r.found)))
    {
      isLoading := false;
      var d := new Document(parsed);
      var paths := Tagged(d.elements, "path");
      if |paths| == 0 {
        error := Some(NoPaths);
        return;
      }
      var uniqueColors := ProcessPaths(d, probe);
      processedSvg := d.elements;
      extractedColors := uniqueColors;
      isProcessed := true;
    }
  }
}
