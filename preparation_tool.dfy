/**
 * The preparation tool component: its state fields and the handlers that
 * update them.  Choosing a file records its name, reading it stores the
 * text, preparing runs the path preparation on the parsed document, and
 * the download handler names the result.
 */
module PreparationTool {
  import opened JsValues
  import opened SvgDocument
  import opened ColorExtraction
  import opened Palettes
  import opened FileNames
  import opened SvgPreparation

  /** The status line, one constructor per message the component shows. */
  datatype Status =
    | Empty
    | Loaded
    | NoContent
    | NoPaths
    | Done(paths: nat, colors: nat)
    | NothingToDownload

  /** One call of the `onSVGProcessed` callback. */
  datatype Handoff = Handoff(svg: seq<Element>, fileName: string, colors: seq<string>)

  /** What preparing a parsed document yields: every `path`, in document order. */
  function Preparation(doc: seq<Element>, probe: string -> string): (r: Prepared)
    requires WellFormed(doc)
    ensures SameShape(doc, r.doc) && WellFormed(r.doc)
  {
    PrepareAll(doc, Tagged(doc, "path"), probe)
  }

  /**
   * The `k`-th path after preparation: its paint is stripped to an outline,
   * it has an id (its own, or `area<k+1>`), it carries the colour found for it
   * in `data-color`, and its class is kept in `data-original-class`.
   */
  lemma PreparedPathOf(doc: seq<Element>, probe: string -> string, k: nat)
    requires WellFormed(doc) && k < |Tagged(doc, "path")|
    ensures var paths := Tagged(doc, "path");
            var e0 := doc[paths[k]];
            var x := StepExtraction(doc, paths, ExtractIn(probe), k);
            var e := Preparation(doc, probe).doc[paths[k]];
            Stripped(e) &&
            Attr(e, "id") == (if Truthy(Attr(e0, "id")) then Attr(e0, "id") else Some(AreaId(k))) &&
            Attr(e, "data-color") == (if |Found(x)| == 1 then Some(x.color.value) else Attr(e0, "data-color")) &&
            Attr(e, "data-original-class") ==
              (if x.recorded || (Attr(e0, "class").Some? && Attr(e0, "data-original-class").None?) then Attr(e0, "class")
               else Attr(e0, "data-original-class"))
  {
    var paths := Tagged(doc, "path");
    var x := StepExtraction(doc, paths, ExtractIn(probe), k);
    ExtractInRecordsOnlyClassed(probe);
    PreparedPath(doc, paths, ExtractIn(probe), k);
    StepResult(doc[paths[k]], k, x);
  }

  /** Preparation touches the paths only: every other element comes out as it went in. */
  lemma PreparationKeepsOthers(doc: seq<Element>, probe: string -> string, j: nat)
    requires WellFormed(doc) && j < |doc| && doc[j].tag != "path"
    ensures Preparation(doc, probe).doc[j] == doc[j]
  {
    var paths := Tagged(doc, "path");
    PathStepKeepsFields(ExtractIn(probe));
    ReplayKeepsOthers(doc, paths, PathStep(ExtractIn(probe)), j);
  }

  /**
   * The palette a preparation hands on holds no colour twice, holds exactly
   * the colours the paths produced, and keeps the order in which they were
   * first produced.
   */
  lemma PaletteOfPreparation(doc: seq<Element>, probe: string -> string)
    requires WellFormed(doc)
    ensures var found := Preparation(doc, probe).found;
            var palette := Distinct(found);
            NoDuplicates(palette) &&
            (forall c :: c in palette <==> c in found) &&
            (forall i, j :: 0 <= i < j < |palette| ==> IndexOf(found, palette[i]) < IndexOf(found, palette[j]))
  {
    var found := Preparation(doc, probe).found;
    DistinctMembers(found);
    DistinctFirstSeenOrder(found);
  }

  /**
   * Every colour of the palette is a real colour other than `none`, and some
   * path of the prepared document carries it in `data-color`.
   */
  lemma PaletteIsPainted(doc: seq<Element>, probe: string -> string, c: string) returns (k: nat)
    requires WellFormed(doc)
    requires c in Distinct(Preparation(doc, probe).found)
    ensures c != "" && c != "none"
    ensures k < |Tagged(doc, "path")|
    ensures Attr(Preparation(doc, probe).doc[Tagged(doc, "path")[k]], "data-color") == Some(c)
  {
    var paths := Tagged(doc, "path");
    var r := PrepareWith(doc, paths, ExtractIn(probe));
    assert c in r.found by {
      DistinctMembers(r.found);
    }
    ExtractInRecordsOnlyClassed(probe);
    k := FoundIsPainted(doc, paths, ExtractIn(probe), c);
  }

  class Preparer {
    var svgContent: string
    var processedSvg: Option<seq<Element>>
    var status: Status
    var extractedColors: seq<string>
    var originalFileName: string
    /** Whether the parent passed `onSVGProcessed`. */
    const hasCallback: bool
    /** The calls made to `onSVGProcessed`, oldest first. */
    var handoffs: seq<Handoff>

    /** The initial state: nothing loaded, nothing prepared. */
    constructor (onSvgProcessed: bool)
      ensures hasCallback == onSvgProcessed
      ensures svgContent == "" && processedSvg == None && status == Empty
      ensures extractedColors == [] && originalFileName == "" && handoffs == []
    {
      hasCallback := onSvgProcessed;
      svgContent, processedSvg, status := "", None, Empty;
      extractedColors, originalFileName, handoffs := [], "", [];
    }

    /** `handleFileChange`: no file leaves everything as it was; a file's name is kept. */
    method FileChosen(fileName: Option<string>)
      modifies this
      ensures originalFileName == if fileName.Some? then fileName.value else old(originalFileName)
      ensures svgContent == old(svgContent) && processedSvg == old(processedSvg) && status == old(status)
      ensures extractedColors == old(extractedColors) && handoffs == old(handoffs)
    {
      if fileName.Some? {
        originalFileName := fileName.value;
      }
    }

    /** The reader's `onload`: the text becomes the content to prepare. */
    method FileRead(content: string)
      modifies this
      ensures svgContent == content && status == Loaded
      ensures originalFileName == old(originalFileName) && processedSvg == old(processedSvg)
      ensures extractedColors == old(extractedColors) && handoffs == old(handoffs)
    {
      svgContent := content;
      status := Loaded;
    }

    /**
     * `processSvg`, given the document the content parses to: nothing but a
     * status without content or without paths; otherwise every path is
     * prepared, the distinct colours become the extracted palette, and the
     * result goes to the callback when there is one.
     */
    method ProcessSvg(parsed: seq<Element>, probe: string -> string)
      requires WellFormed(parsed)
      modifies this
      ensures originalFileName == old(originalFileName) && svgContent == old(svgContent)
      ensures old(svgContent) == "" ==>
                status == NoContent && processedSvg == old(processedSvg) &&
                extractedColors == old(extractedColors) && handoffs == old(handoffs)
      ensures old(svgContent) != "" && |Tagged(parsed, "path")| == 0 ==>
                status == NoPaths && processedSvg == old(processedSvg) &&
                extractedColors == old(extractedColors) && handoffs == old(handoffs)
      ensures old(svgContent) != "" && |Tagged(parsed, "path")| > 0 ==>
                var r := Preparation(parsed, probe);
                processedSvg == Some(r.doc) && extractedColors == Distinct(r.found) &&
                status == Done(|Tagged(parsed, "path")|, |Distinct(r.found)|) &&
                handoffs == old(handoffs) + if hasCallback then [Handoff(r.doc, originalFileName, Distinct(r.found))] else []
    {
      ghost var before := (originalFileName, svgContent);
      if svgContent == "" {
        status := NoContent;
        return;
      }
      var d := new Document(parsed);
      var paths := Tagged(d.elements, "path");
      if |paths| == 0 {
        status := NoPaths;
        return;
      }
      var uniqueColors := ProcessPaths(d, probe);
      extractedColors := uniqueColors;
      processedSvg := Some(d.elements);
      status := Done(|paths|, |uniqueColors|);
      if hasCallback {
        handoffs := handoffs + [Handoff(d.elements, originalFileName, uniqueColors)];
      }
      assert before == (originalFileName, svgContent);
    }

    /**
     * `downloadProcessedSvg`: without a prepared document only a status;
     * otherwise the name the download is saved under.
     */
    method Download() returns (fileName: Option<string>)
      modifies this
      ensures processedSvg.None? ==> fileName == None && status == NothingToDownload
      ensures processedSvg.Some? ==> fileName == Some(ProcessedFileName(originalFileName)) && status == old(status)
      ensures svgContent == old(svgContent) && processedSvg == old(processedSvg) && originalFileName == old(originalFileName)
      ensures extractedColors == old(extractedColors) && handoffs == old(handoffs)
    {
      if processedSvg.None? {
        status := NothingToDownload;
        return None;
      }
      fileName := Some(ProcessedFileName(originalFileName));
    }

    /** The "go to colouring" button, shown only with a result and a callback. */
    method GoToColoring()
      modifies this
      ensures handoffs == old(handoffs) + if processedSvg.Some? && hasCallback
                                           then [Handoff(processedSvg.value, originalFileName, extractedColors)] else []
      ensures svgContent == old(svgContent) && processedSvg == old(processedSvg) && status == old(status)
      ensures extractedColors == old(extractedColors) && originalFileName == old(originalFileName)
    {
      if processedSvg.Some? && hasCallback {
        handoffs := handoffs + [Handoff(processedSvg.value, originalFileName, extractedColors)];
      }
    }
  }
}
