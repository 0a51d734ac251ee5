# Colour-by-number region colouring, modelled in Dafny

This project models the region-colouring engine of a colour-by-number web
app and proves properties of it.  It has four parts.

- **The raster canvas** (`ColoringCanvas.tsx`).
  - A picture is an RGBA byte buffer.
  - A click runs a stack-based, 4-connected scanline flood fill in place. It paints every dark, non-transparent pixel connected to the clicked one with the selected colour at alpha 200.
  - The component keeps a tally of colourable and coloured pixels. It starts a celebration once more than 80 percent are coloured.
- **The vector preparer** (`utils/SVGPreparation.tsx`, with the same code in `App.tsx` and `pages/TemplatePage.tsx`).
  - It finds each path's original fill. The chain is the `fill` attribute, then the inline `style`, then a `cls-N` rule of the first `<style>` block, then the nearest filled ancestor. The colour is normalised to `#rrggbb`.
  - It gives every path an id and a `data-color`, and strips the path to an outline.
  - It collects the distinct colours in first-seen order as the palette.
  - The copies in `src/App.tsx` (lines 107-306) and `src/pages/TemplatePage.tsx` (lines 46-245) are modelled by the same members. The table cites `utils/SVGPreparation.tsx` for them.
- **The vector paint engine** (`SVGColoringCanvas.tsx`). A state machine over the selected colour and its index, the palette, the painted paths and the "changed" flag. It covers palette discovery, the highlight effect, colour selection, path clicks and reset.
- **Two simpler pages** (`ColoringPage.tsx`, `SimpleColoringPage.tsx`). They keep a selected colour and a map of painted areas.

How each part is modelled:

- **Documents.**
  - An SVG document is a sequence of elements. Each has a tag, an attribute map, the index of its parent (always earlier in the sequence) and its text.
  - `querySelectorAll("path")` is the list of path positions in document order.
  - The DOM methods `setAttribute` and `removeAttribute` are methods of a `Document` class that update its element sequence in place.
- **Components.**
  - Each React component is a `class` whose fields are its state.
  - Each handler or effect is a method that updates those fields.
  - Each such method is proved against a pure specification function. Properties are then proved as lemmas about that function.
- **The flood fill.** It works on an `array<byte>` in place, like the source.
- **The browser's colour probe.** The colour-normalising step (`getComputedStyle` on a scratch element) is a function parameter `probe`. Only the formatting of its `rgb(r, g, b)` answer is modelled.

## Model

| member | source | states |
|---|---|---|
| Colors.HexToRgb | src/components/ColoringCanvas.tsx:341-350 | a colour is returned exactly when the text is an optional `#` followed by six hexadecimal digits of either case; otherwise `null` |
| Colors.HexToRgbOfNotation | src/components/ColoringCanvas.tsx:342-348 | writing a colour as `#rrggbb` (or without `#`) and parsing it returns that colour |
| Colors.HexToRgbAcceptsOnlyNotations | src/components/ColoringCanvas.tsx:342-348 | whatever is accepted is the six-digit notation of the returned colour, up to letter case |
| Colors.ByteDigits | src/utils/SVGPreparation.tsx:123-125 | a byte is written as two hexadecimal digits that read back as the byte |
| Colors.ByteDigitsOfPair | src/components/ColoringCanvas.tsx:345-347 | reading a digit pair and writing it back gives the pair in lower case |
| Colors.Hex2IsByteDigits | src/utils/SVGPreparation.tsx:123-125 | `toString(16).padStart(2, "0")` on a byte writes its two lower-case digits |
| Colors.DigitRun | src/utils/SVGPreparation.tsx:119-121 | the greedy `\d+` run: all digits, and the next character is not a digit |
| Colors.Field | src/utils/SVGPreparation.tsx:119-121 | a field read ends strictly after where it starts and within the text |
| Colors.ParseRgbFunctionOfText | src/utils/SVGPreparation.tsx:119-126 | the text `rgb(R, G, B)` of any channels is matched and read back channel by channel |
| Colors.ParseRgbFunctionOfFields | src/utils/SVGPreparation.tsx:119-126 | the match succeeds with the channels of three decimal fields separated by `,` and one blank |
| Colors.NormalizeComputedIsHexNotation | src/utils/SVGPreparation.tsx:117-127 | an opaque computed colour becomes the `#rrggbb` notation of the same colour, which `hexToRgb` reads back |
| Colors.ChannelsToHexIsNotation | src/utils/SVGPreparation.tsx:123-126 | for byte channels the conversion writes `#` and two lower-case digits per channel |
| Colors.NormalizeComputedKeepsOthers | src/utils/SVGPreparation.tsx:128 | a computed text not in `rgb(...)` form is returned unchanged |
| JsStrings.SpaceRun | src/utils/SVGPreparation.tsx:52 | the greedy `\s*` run: all white space, and the next character is not |
| JsStrings.TrimStart | src/utils/SVGPreparation.tsx:54 | removes exactly the leading white space: a suffix of the input, whatever was removed is white space, and the result does not start with white space |
| JsStrings.TrimEnd | src/utils/SVGPreparation.tsx:54 | removes exactly the trailing white space |
| JsStrings.Trim | src/utils/SVGPreparation.tsx:54 | the result neither starts nor ends with white space and is no longer than the input |
| JsStrings.TrimIsInfix | src/utils/SVGPreparation.tsx:54 | the trimmed text is a slice of the input with only white space around it |
| JsStrings.TrimOfTrimmed | src/utils/SVGPreparation.tsx:54 | trimming a text without surrounding white space changes nothing |
| JsStrings.ToLower | src/components/SVGColoringCanvas.tsx:421-423 | same length, every character lower-cased in place (ASCII) |
| JsStrings.HexChar | src/utils/SVGPreparation.tsx:123-125 | the digit written for a value below 16 is a lower-case hexadecimal digit of that value |
| JsStrings.HexCharOfValue | src/components/ColoringCanvas.tsx:345-347 | reading a hexadecimal digit and writing its value gives the digit in lower case |
| JsStrings.NatToDecimal | src/components/SVGColoringCanvas.tsx:225 | `String(n)` is a non-empty run of decimal digits |
| JsStrings.ParseNatToDecimal | src/utils/SVGPreparation.tsx:123-125 | `parseInt(String(n))` is `n` |
| JsStrings.NatToDecimalInjective | src/utils/SVGPreparation.tsx:174 | different numbers are written differently, so generated ids never collide |
| JsStrings.PadStart2 | src/utils/SVGPreparation.tsx:123-125 | `padStart(2, "0")`: texts of two or more characters are kept; shorter ones get leading zeros up to two |
| JsStrings.Hex2Digits | src/utils/SVGPreparation.tsx:123-125 | a byte is written as its high then low hexadecimal digit |
| JsValues.IndexOf | src/components/ColoringPage.tsx:25 | `indexOf`: -1 exactly when absent, otherwise the first position holding the value |
| Search.FirstWhereIsFirst | src/utils/SVGPreparation.tsx:71 | the first position where a test holds: nothing before it passes, and no result means none passes |
| Search.LastWhereIsLast | src/utils/SVGPreparation.tsx:75 | the last position where a test holds: nothing after it passes, and no result means none passes |
| Selection.Toggle | src/components/ColoringCanvas.tsx:129-137 | choosing the selected colour clears the selection; any other colour becomes selected |
| Selection.ToggleTag | src/components/SVGColoringCanvas.tsx:258-299 | the index (or number) is cleared together with the colour and otherwise set |
| Selection.ToggleTwice | src/components/ColoringPage.tsx:36-38 | selecting the same colour twice returns to no selection, or to the colour when it was selected before |
| Palettes.DistinctMembers | src/utils/SVGPreparation.tsx:184-186 | the de-duplicated palette has no duplicates and the same members as the colours found |
| Palettes.IndexOfExtend | src/utils/SVGPreparation.tsx:184-186 | pushing a new colour keeps every earlier position and puts it last |
| Palettes.DistinctFirstSeenOrder | src/utils/SVGPreparation.tsx:184-186 | the palette lists colours in the order they were first seen |
| Palettes.PaletteFallback | src/pages/TemplatePage.tsx:274 | an empty palette is passed as `undefined`, any other palette as itself |
| Palettes.PaletteFallbackStartsCanvas | src/App.tsx:424 | the canvas then starts with the default palette for an empty palette and with the given colours otherwise |
| Raster.ComponentStep | src/components/ColoringCanvas.tsx:224-247 | a fillable 4-neighbour of a member of the fillable component is a member |
| Raster.ComponentUp | src/components/ColoringCanvas.tsx:207-211 | the fillable run above a member of the component, in its column, belongs to the component |
| Raster.CountFillable | src/components/ColoringCanvas.tsx:99-108 | the colourable count of the first `n` pixels is at most `n` |
| Raster.CountDrop | src/components/ColoringCanvas.tsx:194-199 | when only fillable pixels were painted with a light colour, the colourable count fell by exactly the number of pixels changed |
| Raster.Paint | src/components/ColoringCanvas.tsx:194-198 | painting a pixel writes the fill colour with alpha 200 there and nothing elsewhere |
| Raster.CountAfterPaint | src/components/ColoringCanvas.tsx:194-199 | painting one fillable pixel with a light colour lowers the colourable count by one |
| Raster.PaintAt | src/components/ColoringCanvas.tsx:194-198 | the painted pixel has the fill colour and alpha 200; every other pixel is unchanged |
| ScanlineFill.OnlyFilledPaint | src/components/ColoringCanvas.tsx:217-221 | painting a still-fillable pixel keeps "every changed pixel was fillable and now holds the fill colour" |
| ScanlineFill.ChangedWasFillable | src/components/ColoringCanvas.tsx:177-200 | a changed pixel was fillable at the start and is no longer fillable |
| ScanlineFill.StillFillable | src/components/ColoringCanvas.tsx:177-200 | a pixel still fillable was fillable at the start and keeps its colour |
| ScanlineFill.Start | src/components/ColoringCanvas.tsx:174 | a stack holding only the seed covers the whole component, and nothing has changed |
| ScanlineFill.ClosedIsComplete | src/components/ColoringCanvas.tsx:203 | with nothing pending, every pixel of the component has been painted |
| ScanlineFill.PopCoverage | src/components/ColoringCanvas.tsx:204-211 | after a pop and the climb, the downward scan covers what the popped entry covered |
| ScanlineFill.ScanStartSound | src/components/ColoringCanvas.tsx:211-217 | the first pixel the downward scan tests is fillable only if it is in the component |
| ScanlineFill.PaintNeighbours | src/components/ColoringCanvas.tsx:223-247 | the fillable neighbours of a painted member of the component are members |
| ScanlineFill.CheckSide | src/components/ColoringCanvas.tsx:223-234 | one neighbour check pushes the neighbour when it is fillable and its run has no entry yet, and every pending pixel stays pending |
| ScanlineFill.ScanStep | src/components/ColoringCanvas.tsx:217-250 | one row of the downward scan keeps the scan invariant and leaves one fillable pixel fewer |
| ScanlineFill.EndScanFill | src/components/ColoringCanvas.tsx:217 | when the scan meets a non-fillable pixel or the bottom, the outer loop invariant holds again |
| ScanlineFill.PixelPos | src/components/ColoringCanvas.tsx:155 | `(y * width + x) * 4` is the first byte of the pixel and lies inside the buffer |
| ScanlineFill.MatchesAt | src/components/ColoringCanvas.tsx:177-188 | `matchStartColor` at a pixel is exactly the fillable test: RGB below 50 and alpha above 0 |
| ScanlineFill.ClimbColumn | src/components/ColoringCanvas.tsx:206-211 | the climb stops at the top of the fillable run through the start pixel, or just below a non-fillable start |
| ScanlineFill.ColorPixel | src/components/ColoringCanvas.tsx:194-200 | the four bytes become the fill RGB and alpha 200 |
| ScanlineFill.CheckNeighbours | src/components/ColoringCanvas.tsx:223-247 | each flag becomes whether its neighbour is fillable; a fillable neighbour is pushed unless its flag was already set |
| ScanlineFill.ScanRow | src/components/ColoringCanvas.tsx:218-249 | painting a row and checking its neighbours keeps the scan invariant, uses one fillable pixel and pushes at most two entries |
| ScanlineFill.ScanDown | src/components/ColoringCanvas.tsx:213-250 | the downward scan restores the outer invariant; the pixels painted equal the fall in the colourable count |
| ScanlineFill.FloodFill | src/components/ColoringCanvas.tsx:139-259 | no change and no count unless the seed's RGB is below 50 and the colour is `#rrggbb`; otherwise exactly the seed's 4-connected fillable component changes (the pixel below a transparent seed), each changed pixel was fillable and now holds the colour at alpha 200, and the count is the number of pixels changed |
| CanvasPage.CelebratesIsPercentTest | src/components/ColoringCanvas.tsx:118-127 | the integer test `100 * colored > 80 * total` (with both counts positive) holds exactly when the effect's real-valued `(colored / total) * 100 > 80` does |
| CanvasPage.CelebratesByRemaining | src/components/ColoringCanvas.tsx:118-127 | with the tally kept, the celebration starts exactly when something is coloured and fewer than a fifth of the colourable pixels remain |
| CanvasPage.CompletionCelebrates | src/components/ColoringCanvas.tsx:118-127 | with the tally kept and no fillable pixel left in a picture with something colourable, the completion effect turns the celebration on |
| CanvasPage.ColoringCanvas.constructor | src/components/ColoringCanvas.tsx:30-40 | initial state: loading, nothing selected, no changes, no celebration, counts zero |
| CanvasPage.ColoringCanvas.StartLoad | src/components/ColoringCanvas.tsx:53-55 | loading starts and the change flag clears |
| CanvasPage.ColoringCanvas.ImageLoaded | src/components/ColoringCanvas.tsx:61-75 | the buffer becomes the drawn image and loading ends |
| CanvasPage.ColoringCanvas.ImageFailed | src/components/ColoringCanvas.tsx:77-80 | loading ends and nothing else changes |
| CanvasPage.ColoringCanvas.RecountColorable | src/components/ColoringCanvas.tsx:84-115 | once loaded, the total is the number of fillable pixels and the coloured count is zero, which establishes the tally |
| CanvasPage.ColoringCanvas.CheckCompletion | src/components/ColoringCanvas.tsx:118-127 | the celebration is on when it was on or the 80 percent rule holds |
| CanvasPage.ColoringCanvas.ConfettiDone | src/components/ColoringCanvas.tsx:442 | the celebration is switched off |
| CanvasPage.ColoringCanvas.SelectColor | src/components/ColoringCanvas.tsx:129-137 | the colour toggles and the index follows it |
| CanvasPage.ColoringCanvas.CanvasClick | src/components/ColoringCanvas.tsx:261-277 | without a colour, while loading, on a light pixel or with a colour that is not `#rrggbb`, no pixel changes; otherwise exactly the pixels of the clicked pixel's 4-connected fillable component (for a transparent clicked pixel, that of the pixel below it) change, each to the selected colour at alpha 200; the change flag is set in that case, the coloured count grows by the pixels changed and the tally is kept |
| CanvasPage.ColoringCanvas.StartReset | src/components/ColoringCanvas.tsx:279-305 | loading starts, the coloured count is zero and the celebration is off |
| CanvasPage.ColoringCanvas.ResetLoaded | src/components/ColoringCanvas.tsx:294-301 | the buffer is redrawn from the image, loading ends and the change flag clears |
| CanvasPage.ColorTwice | src/components/ColoringCanvas.tsx:84-127 | after loading and any clicks the coloured count stays between zero and the colourable total |
| SvgDocument.Attr | src/utils/SVGPreparation.tsx:44 | `getAttribute`: a value exactly when the attribute is present, and then its value |
| SvgDocument.SetAttr | src/utils/SVGPreparation.tsx:181 | `setAttribute` writes one attribute and leaves every other attribute, the tag and the parent |
| SvgDocument.RemoveAttr | src/utils/SVGPreparation.tsx:199 | `removeAttribute` removes one attribute and leaves every other one |
| SvgDocument.Tagged | src/utils/SVGPreparation.tsx:159 | `querySelectorAll("path")`: exactly the positions of the paths, in increasing document order |
| SvgDocument.TaggedSameShape | src/utils/SVGPreparation.tsx:170-213 | attribute writes do not change which elements are paths |
| SvgDocument.FirstBelowRoot | src/utils/SVGPreparation.tsx:64-68 | the first element with a tag below the root element, or none when there is none |
| SvgDocument.FindById | src/components/SVGColoringCanvas.tsx:317 | `querySelector("#id")`: the first element whose id is the given one, or none when there is none |
| SvgDocument.Document.SetAttribute | src/utils/SVGPreparation.tsx:181 | the element sequence changes at one position, by `setAttribute`, and keeps its shape |
| SvgDocument.Document.RemoveAttribute | src/utils/SVGPreparation.tsx:199 | the element sequence changes at one position, by `removeAttribute`, and keeps its shape |
| ColorExtraction.SemicolonFrom | src/utils/SVGPreparation.tsx:52 | the `[^;]+` run ends at the next `;` or at the end of the text |
| ColorExtraction.StyleFill | src/utils/SVGPreparation.tsx:50-55 | a style yields a value exactly when it has a `fill:` declaration with a value; the value never contains `;` |
| ColorExtraction.StyleFillOfDeclaration | src/utils/SVGPreparation.tsx:52-54 | for `fill:` followed by a value without `;`, the value is that text trimmed |
| ColorExtraction.ClassNumber | src/utils/SVGPreparation.tsx:71-73 | a class gives a rule name exactly when it contains `cls-` and a digit; the name is `cls-` and digits |
| ColorExtraction.CloseBraceFrom | src/utils/SVGPreparation.tsx:75 | the `[^}]*` run ends at the next `}` or at the end of the text |
| ColorExtraction.ValueRun | src/utils/SVGPreparation.tsx:75 | the `[^;\s]+` value run stops at the first `;` or white-space character |
| ColorExtraction.RuleFill | src/utils/SVGPreparation.tsx:74-81 | the rule's value is found exactly when `.cls-N`, optional white space, `{` and a `fill:` declaration match; the value is non-empty with no `;` and no white space |
| ColorExtraction.RuleFillKeepsBrace | src/utils/SVGPreparation.tsx:75 | in `.cls-1{fill:red}` the value read is `red}`: a rule without `;` keeps the closing brace |
| ColorExtraction.AncestorFill | src/utils/SVGPreparation.tsx:90-100 | the ancestor walk yields only a non-empty fill other than `none` |
| ColorExtraction.AncestorFillSameFills | src/utils/SVGPreparation.tsx:90-100 | the walk depends only on the parents, tags and fills of the document |
| ColorExtraction.NormalizeFillKeepsHash | src/utils/SVGPreparation.tsx:105-107 | a value starting with `#` is returned unchanged |
| ColorExtraction.NormalizeFillOfProbedColor | src/utils/SVGPreparation.tsx:109-127 | a value the probe reports as `rgb(r, g, b)` becomes `#rrggbb` of that colour |
| ColorExtraction.RuleCandidate | src/utils/SVGPreparation.tsx:61-87 | the class rule is tried only for an element with a class containing a `cls-N` name |
| ColorExtraction.Extract | src/utils/SVGPreparation.tsx:42-141 | the extraction records `data-original-class` only for an element that has a class |
| ColorExtraction.ExtractPrecedence | src/utils/SVGPreparation.tsx:44-100 | the first of the `fill` attribute, the style `fill:`, the class rule and the ancestor fill that resolves decides the colour |
| ColorExtraction.ExtractRecordsOnlyForRule | src/utils/SVGPreparation.tsx:80-84 | `data-original-class` is written exactly when the class rule supplied the colour |
| ColorExtraction.ExtractNoneGoesToProbe | src/utils/SVGPreparation.tsx:103-130 | `fill="none"` with no other source is still sent to the probe and returned as its result |
| ColorExtraction.NearestAncestorFill | src/utils/SVGPreparation.tsx:91-99 | the parent-walking loop returns the ancestor fill |
| ColorExtraction.ExtractColorFromElement | src/utils/SVGPreparation.tsx:42-141 | returns the extracted colour and writes `data-original-class` exactly when the extraction records it |
| SvgPreparation.AreaIdInjective | src/utils/SVGPreparation.tsx:174 | different indices give different `area<index+1>` ids |
| SvgPreparation.WithId | src/utils/SVGPreparation.tsx:171-175 | a non-empty id is kept; otherwise the path gets `area<index+1>`; nothing else changes |
| SvgPreparation.Outline | src/utils/SVGPreparation.tsx:192-196 | fill `none`, fill-rule `evenodd`, stroke `#000`, stroke-width `1`, stroke-linejoin `round`; other attributes unchanged |
| SvgPreparation.Unstyled | src/utils/SVGPreparation.tsx:192-199 | the outline attributes and no `style`; other attributes unchanged |
| SvgPreparation.MoveClass | src/utils/SVGPreparation.tsx:203-212 | `class` is removed and copied to `data-original-class` only when that is not already present |
| SvgPreparation.StripPath | src/utils/SVGPreparation.tsx:192-212 | the path is stripped to an outline and keeps its id and `data-color` |
| SvgPreparation.StripPathKeepsOthers | src/utils/SVGPreparation.tsx:192-212 | stripping leaves every attribute it does not name |
| SvgPreparation.Found | src/utils/SVGPreparation.tsx:179 | a colour counts exactly when it is non-empty and not `none` |
| SvgPreparation.Record | src/utils/SVGPreparation.tsx:83 | the extraction's write of `data-original-class`, and nothing else |
| SvgPreparation.Paint | src/utils/SVGPreparation.tsx:179-181 | `data-color` is set exactly when a colour counts |
| SvgPreparation.Finish | src/utils/SVGPreparation.tsx:178-212 | after extraction a path is stripped; `data-color` is set when a colour counts; the class is kept when the rule recorded it or none was kept |
| SvgPreparation.Replay | src/utils/SVGPreparation.tsx:170-213 | the `forEach` over the paths keeps the document's shape |
| SvgPreparation.ReplayKeepsOthers | src/utils/SVGPreparation.tsx:170-213 | elements that are not visited are unchanged |
| SvgPreparation.ReplayAt | src/utils/SVGPreparation.tsx:170-213 | a path's final element is what its own step made of it |
| SvgPreparation.ReplayAtUntouched | src/utils/SVGPreparation.tsx:170-213 | a path's step sees that path as it was in the input |
| SvgPreparation.ReplayStep | src/utils/SVGPreparation.tsx:170-213 | one more path extends the document and the colours found by exactly that path's step |
| SvgPreparation.PrepareAll | src/utils/SVGPreparation.tsx:167-213 | the preparation keeps the document's shape |
| SvgPreparation.StepResult | src/utils/SVGPreparation.tsx:171-212 | one path's id, `data-color`, `data-original-class` and stripping, from its input element and its extraction |
| SvgPreparation.PreparedPath | src/utils/SVGPreparation.tsx:171-212 | every path ends as its step's result on the input element with its index |
| SvgPreparation.PreparedFound | src/utils/SVGPreparation.tsx:178-186 | each path adds the colour it counts, in order |
| SvgPreparation.FoundIsPainted | src/utils/SVGPreparation.tsx:178-186 | every colour found is non-empty, not `none`, and is the `data-color` of some prepared path |
| SvgPreparation.DistinctAppend | src/utils/SVGPreparation.tsx:184-186 | the `includes`/`push` de-duplication follows the colours one path at a time |
| SvgPreparation.EnsureId | src/utils/SVGPreparation.tsx:171-175 | the id step updates the document at one path |
| SvgPreparation.OutlineElement | src/utils/SVGPreparation.tsx:192-196 | the five attribute writes update the document at one path |
| SvgPreparation.MoveClassElement | src/utils/SVGPreparation.tsx:203-212 | the class move updates the document at one path |
| SvgPreparation.StripPathElement | src/utils/SVGPreparation.tsx:191-212 | the whole stripping updates the document at one path |
| SvgPreparation.KeepColor | src/utils/SVGPreparation.tsx:179-186 | `data-color` is written and the colour pushed if new, exactly when it counts |
| SvgPreparation.ExtractAndKeep | src/utils/SVGPreparation.tsx:178-186 | extraction, its record, the `data-color` write and the palette push, at one path |
| SvgPreparation.PreparePath | src/utils/SVGPreparation.tsx:170-213 | one iteration of the `forEach` on one path |
| SvgPreparation.ProcessPaths | src/utils/SVGPreparation.tsx:167-216 | the loop's document is the preparation's and its colours are the distinct colours found |
| PreparationTool.Preparation | src/utils/SVGPreparation.tsx:159-213 | preparing all paths keeps the document's shape |
| PreparationTool.PreparedPathOf | src/utils/SVGPreparation.tsx:170-212 | the k-th path keeps a non-empty id or gets `area<k+1>`, has `data-color` when its colour counts, is stripped, and has its class moved |
| PreparationTool.PreparationKeepsOthers | src/utils/SVGPreparation.tsx:159-213 | elements that are not paths are unchanged |
| PreparationTool.PaletteOfPreparation | src/utils/SVGPreparation.tsx:184-186 | the palette has no duplicates, the same members as the colours found, and first-seen order |
| PreparationTool.PaletteIsPainted | src/utils/SVGPreparation.tsx:178-186 | each palette colour is non-empty, not `none`, and the `data-color` of some path |
| PreparationTool.Preparer.constructor | src/utils/SVGPreparation.tsx:18-22 | empty content, no result, no colours, no file name |
| PreparationTool.Preparer.FileChosen | src/utils/SVGPreparation.tsx:25-30 | a chosen file's name is kept; no file changes nothing |
| PreparationTool.Preparer.FileRead | src/utils/SVGPreparation.tsx:32-37 | the content is stored and the status says it is loaded |
| PreparationTool.Preparer.ProcessSvg | src/utils/SVGPreparation.tsx:143-236 | no content or no paths: only a status, no output and no callback; otherwise the prepared document, the distinct colours, a status with both counts, and one callback when there is one |
| PreparationTool.Preparer.Download | src/utils/SVGPreparation.tsx:244-274 | without a result only a status; otherwise the processed file name |
| PreparationTool.Preparer.GoToColoring | src/utils/SVGPreparation.tsx:336-340 | the result goes to the callback only when there is a result and a callback |
| FileNames.DashRuns | src/components/SVGColoringCanvas.tsx:423 | after `replace(/\s+/g, "-")` no white space is left and the text is no longer |
| FileNames.DashRunsOfNoSpace | src/components/SVGColoringCanvas.tsx:423 | a text without white space is unchanged |
| FileNames.DashRunsIdempotent | src/components/SVGColoringCanvas.tsx:423 | replacing twice is replacing once |
| FileNames.DashRunsOfRun | src/components/SVGColoringCanvas.tsx:423 | each run of white space becomes exactly one `-` |
| FileNames.ExportFileName | src/components/ColoringCanvas.tsx:322 | the download name has no white space and ends with `-boyama.png` |
| FileNames.ExportFileNameOfWord | src/components/SVGColoringCanvas.tsx:421-423 | a lower-case title without white space gives `<title>-boyama.png` |
| FileNames.ExportFileNameOfTwoWords | src/components/SVGColoringCanvas.tsx:421-423 | two words separated by white space give `<a>-<b>-boyama.png` |
| FileNames.Split | src/utils/SVGPreparation.tsx:260 | `split(".")` yields at least one part |
| FileNames.SplitPartsLackSeparator | src/utils/SVGPreparation.tsx:260 | no part contains the separator |
| FileNames.JoinSplit | src/utils/SVGPreparation.tsx:260-264 | joining the parts of a split gives the text back |
| FileNames.LastIndexOf | src/utils/SVGPreparation.tsx:262-263 | -1 exactly when the character is absent, otherwise its last position |
| FileNames.ProcessedFileNameInsertsBeforeLastDot | src/utils/SVGPreparation.tsx:258-268 | a name with a dot gets `-processed` before its last dot; a name without one gets `-processed.svg` |
| FileNames.ProcessedFileNameDefault | src/utils/SVGPreparation.tsx:258 | without a file name the download is `processed-svg.svg` |
| FileNames.StripExtensionOfExtension | src/App.tsx:353 | a name ending in `.` and an extension without dots or slashes loses exactly that suffix |
| FileNames.StripExtensionRemovesSuffix | src/App.tsx:353 | the title is the name itself or the name with a final `.ext` removed |
| TemplatePage.Render | src/pages/TemplatePage.tsx:247-281 | loading first, then the error, then the canvas when processed (with the palette fallback), otherwise the preparing view |
| TemplatePage.RenderedPalette | src/pages/TemplatePage.tsx:269-275 | the canvas of a processed template starts with its colours, or with the default palette when none was found |
| TemplatePage.Page.constructor | src/pages/TemplatePage.tsx:8-13 | loading, nothing processed, no error, no title |
| TemplatePage.Page.StartLoad | src/pages/TemplatePage.tsx:16-26 | without a template id nothing happens; otherwise the catalogue title is taken when found and loading starts |
| TemplatePage.Page.LoadFailure | src/pages/TemplatePage.tsx:39-42 | a failed fetch shows the error and ends loading |
| TemplatePage.Page.Loaded | src/pages/TemplatePage.tsx:34-38 | with no paths the error is shown and nothing is processed; otherwise the prepared document and its distinct colours are shown with the palette fallback |
| NumberedPage.AreasNumbered | src/components/ColoringPage.tsx:26-28 | exactly the ids of the areas with the given number |
| NumberedPage.Highlighted | src/components/ColoringPage.tsx:23-34 | no selection highlights nothing; a selection highlights exactly the areas numbered one more than its palette position |
| NumberedPage.HighlightedOffPalette | src/components/ColoringPage.tsx:25-27 | a colour missing from the palette highlights the areas numbered 0 |
| NumberedPage.HighlightedAtPosition | src/components/ColoringPage.tsx:25-27 | the palette's k-th colour, if it appears first there, highlights the areas numbered k+1 |
| NumberedPage.ColoringPage.constructor | src/components/ColoringPage.tsx:17-19 | nothing selected, highlighted or painted |
| NumberedPage.ColoringPage.UpdateHighlight | src/components/ColoringPage.tsx:23-34 | the highlighted ids are recomputed from the selection |
| NumberedPage.ColoringPage.SelectColor | src/components/ColoringPage.tsx:36-38 | the colour toggles |
| NumberedPage.ColoringPage.AreaClick | src/components/ColoringPage.tsx:40-47 | a highlighted area is painted with the selected colour; otherwise nothing changes |
| NumberedPage.ColoringPage.Reset | src/components/ColoringPage.tsx:124 | the painted map is emptied |
| NumberedPage.SelectThenClick | src/components/ColoringPage.tsx:23-47 | after selecting a colour, a click paints an area exactly when its number matches the colour's palette position |
| SimplePage.SimpleColoringPage.constructor | src/components/SimpleColoringPage.tsx:33-39 | nothing selected, nothing painted |
| SimplePage.SimpleColoringPage.PromptNumber | src/components/SimpleColoringPage.tsx:69-71 | the prompt shows a number exactly when a non-zero number is selected |
| SimplePage.SimpleColoringPage.SelectColor | src/components/SimpleColoringPage.tsx:41-49 | the colour toggles and the number becomes `index + 1` or clears with it |
| SimplePage.SimpleColoringPage.ApplyColor | src/components/SimpleColoringPage.tsx:51-58 | with a colour the region gets it, overwriting any earlier one; without one nothing changes |
| SimplePage.SimpleColoringPage.Reset | src/components/SimpleColoringPage.tsx:96 | the painted map is emptied |
| SimplePage.PromptAfterSelect | src/components/SimpleColoringPage.tsx:41-71 | after a selection the prompt shows the 1-based number, after a deselection none |
| SvgCanvas.CanvasIdInjective | src/components/SVGColoringCanvas.tsx:98 | different indices give different `path-<index>` ids |
| SvgCanvas.WithCanvasId | src/components/SVGColoringCanvas.tsx:97-103 | a non-empty id is kept, otherwise `path-<index>`; nothing else changes |
| SvgCanvas.DataColor | src/components/SVGColoringCanvas.tsx:113-123 | a path offers its `data-color` exactly when that is non-empty |
| SvgCanvas.Discovery | src/components/SVGColoringCanvas.tsx:95-135 | the discovery pass keeps the document's shape |
| SvgCanvas.DataColorsMembers | src/components/SVGColoringCanvas.tsx:113-123 | the colours collected are exactly the non-empty `data-color` values of the paths |
| SvgCanvas.DiscoveredColors | src/components/SVGColoringCanvas.tsx:113-123 | the pass collects the paths' `data-color` values in path order |
| SvgCanvas.DiscoveredPalette | src/components/SVGColoringCanvas.tsx:121-123 | the discovered palette has no duplicates, keeps first-seen order, and holds exactly the non-empty `data-color` values |
| SvgCanvas.DiscoveredPath | src/components/SVGColoringCanvas.tsx:97-130 | each path keeps a non-empty id or gets `path-<k>`, keeps its `data-color`, and gets the outline attributes |
| SvgCanvas.DiscoveredElement | src/components/SVGColoringCanvas.tsx:95-135 | each path ends as the outline of its input element with its id |
| SvgCanvas.DiscoveryKeepsPreparedIds | src/components/SVGColoringCanvas.tsx:97-103 | on a prepared document every path already has an id, so discovery keeps the `area<k>` ids |
| SvgCanvas.HighlightStyle | src/components/SVGColoringCanvas.tsx:173-245 | a matching path keeps its paint or gets the yellow fill, with a dashed orange stroke of width 3; any other path keeps its paint with stroke `#333`, or gets fill `none` and stroke `#000`, with width 1 and no dash |
| SvgCanvas.HighlightIdempotent | src/components/SVGColoringCanvas.tsx:173-245 | highlighting a path twice is highlighting it once |
| SvgCanvas.SpotlitIdempotent | src/components/SVGColoringCanvas.tsx:183-195 | the matching branch is idempotent |
| SvgCanvas.PlainIdempotent | src/components/SVGColoringCanvas.tsx:232-245 | the other branch is idempotent |
| SvgCanvas.UnhighlightIsUnselectedHighlight | src/components/SVGColoringCanvas.tsx:264-293 | deselecting restyles and relabels each path as the highlight effect does with no selection |
| SvgCanvas.Painted | src/components/SVGColoringCanvas.tsx:344-347 | a painted path has the colour at full opacity, stroke `#333` and width 1; nothing else changes |
| SvgCanvas.Restyled | src/components/SVGColoringCanvas.tsx:169-173 | every path is rewritten and every other element kept |
| SvgCanvas.RestyledAtPaths | src/components/SVGColoringCanvas.tsx:169-173 | rewriting the listed paths one by one is rewriting every path |
| SvgCanvas.RestyledShape | src/components/SVGColoringCanvas.tsx:169-255 | attribute rewrites keep the document's shape |
| SvgCanvas.RestyledTwice | src/components/SVGColoringCanvas.tsx:169-255 | an idempotent rewrite of every path is idempotent on the document |
| SvgCanvas.UnselectedRemovesLabels | src/components/SVGColoringCanvas.tsx:247-253 | with no selection every path with an id loses its label, and no label is added |
| SvgCanvas.SelectedLabels | src/components/SVGColoringCanvas.tsx:197-227 | with a selection each label is an old one or belongs to a matching path and reads `✓` when painted, `index+1` otherwise |
| SvgCanvas.KeepLabelsKeeps | src/components/SVGColoringCanvas.tsx:364-378 | reset leaves the labels alone |
| SvgCanvas.ResetIdempotent | src/components/SVGColoringCanvas.tsx:373-376 | resetting twice is resetting once |
| SvgCanvas.HighlightAllIdempotent | src/components/SVGColoringCanvas.tsx:166-256 | running the highlight effect twice is running it once |
| SvgCanvas.ClickTarget | src/components/SVGColoringCanvas.tsx:306-338 | a click hits exactly when a colour is selected, an element has the id, and the first such element's `data-color` is the selected palette entry |
| SvgCanvas.FindByIdSameMarks | src/components/SVGColoringCanvas.tsx:317 | lookups by id do not change when only styles change |
| SvgCanvas.ConsistentSameMarks | src/components/SVGColoringCanvas.tsx:350-353 | every painted id still names an element with that colour after style-only changes |
| SvgCanvas.ClickKeepsConsistent | src/components/SVGColoringCanvas.tsx:344-353 | a hit keeps every painted id's colour equal to its element's `data-color`; repainting a painted path leaves the record unchanged |
| SvgCanvas.RestyledKeepsConsistent | src/components/SVGColoringCanvas.tsx:166-256 | highlight and reset rewrites keep the painted record consistent |
| SvgCanvas.RestyleEach | src/components/SVGColoringCanvas.tsx:173-255 | the `forEach` rewrites the listed paths and updates the labels path by path |
| SvgCanvas.DiscoverPath | src/components/SVGColoringCanvas.tsx:95-135 | one path: its id, its colour pushed if new, and its outline |
| SvgCanvas.DiscoverEach | src/components/SVGColoringCanvas.tsx:86-135 | the loop yields the discovery document and its distinct colours |
| SvgCanvas.PaintClicked | src/components/SVGColoringCanvas.tsx:303-361 | a hit paints the first element with the id and records its colour; otherwise nothing changes; paint consistency is kept and a repaint leaves the record unchanged |
| SvgCanvas.Canvas.constructor | src/components/SVGColoringCanvas.tsx:30-44 | nothing selected or painted, no changes, and the palette is the prop or the default |
| SvgCanvas.Canvas.DiscoverPalette | src/components/SVGColoringCanvas.tsx:81-155 | paths are discovered; the distinct colours replace the palette only when some were found and the prop is the default palette |
| SvgCanvas.Canvas.UpdateHighlight | src/components/SVGColoringCanvas.tsx:166-256 | every path is restyled and relabelled for the current selection, and the paint record stays consistent |
| SvgCanvas.Canvas.SelectColor | src/components/SVGColoringCanvas.tsx:258-300 | the colour toggles with its index; deselecting restyles every path as unselected and removes the labels |
| SvgCanvas.Canvas.PathClick | src/components/SVGColoringCanvas.tsx:303-362 | a hit paints the path, records `coloredPaths[id]` and sets the change flag; a miss changes nothing; a repaint leaves the record unchanged |
| SvgCanvas.Canvas.Reset | src/components/SVGColoringCanvas.tsx:364-378 | no changes, no share image, nothing painted, and every path has fill `none` at opacity 1 |

## Left out

- Fetching, `FileReader`, `Image.onload`, `localStorage` and routing are asynchronous I/O. The methods that receive their results (`ImageLoaded`, `FileRead`, `Loaded`, `LoadFailure`) take the result as a parameter.
- `DOMParser` and `XMLSerializer` are left out. A parsed document is a parameter (`parsed`), and a serialised one is kept as its element sequence.
- The `getComputedStyle` probe and the `try`/`catch` around it are left out. The probe is an arbitrary function parameter.
- Pixel scaling of the click position and `getBBox` label placement are floating-point geometry and are left out. A label is one entry of a map from path id to its text.
- Confetti timing, share links, image export and downloads through links are foreign calls and are left out. Only the download names are modelled.
- Console logging and the exact status texts are left out. Status messages are constructors of a `Status` datatype.
- `toLowerCase` is modelled on ASCII letters only, without Unicode case mapping.
- Discovery's `style.cursor`/`style.pointerEvents` writes and the always-empty `pathNumbers` map are left out. Neither affects colouring.
- The vector canvas's own `svgSrc` fetch and its early return without content are left out. The canvas starts from an already rendered document.
- The effect that copies a changed `palette` prop into `customPalette` after mount is left out. The palette is the constructor's.
- `querySelector("#id")` throws on ids that are not valid CSS identifiers. That case is left out: the lookup finds the first element with the id.
- SvgCanvas.Canvas.UpdateHighlight: the source runs this effect after every change of selection, palette or paint; the model has it as a separate method to call.
- ScanlineFill.FloodFill: requires a `#rrggbb` fill colour to fail the fillable test, so it excludes dark fills (each channel below 50). With such a fill, painted pixels still pass `matchStartColor`. The source then loops forever whenever two horizontally adjacent pixels of the region are fillable, because each column's scan pushes its neighbour column again. The precondition also excludes dark fills whose run would have ended: a one-column region, a 1x1 canvas, or a transparent dark seed whose lower pixel is not fillable.
- CanvasPage.ColoringCanvas.CanvasClick: inherits the precondition of ScanlineFill.FloodFill, so a dark selected colour such as `#000000` is excluded, although the source accepts any selected colour. CanvasPage.ColorTwice carries the same exclusion.
- CanvasPage.Celebrates: the source tests `(coloredPixels / totalColorablePixels) * 100 > 80` in IEEE doubles. The model compares integers (`100 * colored > 80 * total`), and CanvasPage.CelebratesIsPercentTest proves that this agrees with the same test in exact real arithmetic. Double rounding is not modelled. It cannot change the outcome for pixel counts: when the exact value is not 80, it differs from 80 by at least `20 / total`, far above the rounding error of the two operations for any count below about 10^14. When the exact value is 80, the rounded quotient of 0.8 times 100 rounds back to exactly 80.
- SvgCanvas.PaintOf: the source keeps `coloredPaths` in a plain object. Its tests `coloredPaths[pathId] !== undefined` and truthy `coloredPaths[pathId]` also pass for ids that name inherited object members (`constructor`, `toString`, `__proto__`), and the source then writes that member's text as the fill. The model's paint record is a map and finds only ids that were painted. Such ids can come from an uploaded document, because discovery keeps any non-empty id.
- TemplatePage.Page.Loaded: the empty-content case of the template copy is not modelled separately. An empty fetched text parses to a document without paths.
