/**
 * The vector colouring canvas.  It shows a prepared drawing, discovers the
 * palette from the paths' `data-color` attributes, highlights the paths of
 * the selected palette colour, and paints a clicked path only when its
 * `data-color` is the selected palette entry.
 */
module SvgCanvas {
  import opened JsValues
  import opened JsStrings
  import opened SvgDocument
  import opened Palettes
  import opened Selection
  import opened SvgPreparation

  // ---------------------------------------------------------------------
  // Palette discovery
  // ---------------------------------------------------------------------

  /** The id a path without one receives: `path-` and its 0-based position among the paths. */
  function CanvasId(index: nat): string
  {
    "path-" + NatToDecimal(index)
  }

  /** Different positions give different ids. */
  lemma CanvasIdInjective(m: nat, n: nat)
    requires CanvasId(m) == CanvasId(n)
    ensures m == n
  {
    assert NatToDecimal(m) == CanvasId(m)[5..] == CanvasId(n)[5..] == NatToDecimal(n);
    NatToDecimalInjective(m, n);
  }

  /** `origId || "path-" + index`, written back only when the path had no id. */
  function WithCanvasId(e: Element, index: nat): (e': Element)
    ensures Attr(e', "id") == if Truthy(Attr(e, "id")) then Attr(e, "id") else Some(CanvasId(index))
    ensures forall other :: other != "id" ==> Attr(e', other) == Attr(e, other)
    ensures e'.tag == e.tag && e'.parent == e.parent && e'.text == e.text
  {
    if Truthy(Attr(e, "id")) then e else SetAttr(e, "id", CanvasId(index))
  }

  /** The colour a path contributes to the palette: its `data-color`, when non-empty. */
  function DataColor(e: Element): (found: seq<string>)
    ensures |found| <= 1
    ensures |found| == 1 <==> Truthy(Attr(e, "data-color"))
    ensures |found| == 1 ==> Attr(e, "data-color") == Some(found[0])
  {
    if Truthy(Attr(e, "data-color")) then [Attr(e, "data-color").value] else []
  }

  /** The discovery effect's work on one path: an id, the outline, and the colour it carries. */
  function DiscoverStep(): StepFn
  {
    (d: seq<Element>, p: nat, n: nat) =>
      if p >= |d| then Outcome(Element("", map[], -1, ""), [])
      else Outcome(Outline(WithCanvasId(d[p], n)), DataColor(d[p]))
  }

  lemma DiscoverStepOn(d: seq<Element>, p: nat, n: nat)
    requires p < |d|
    ensures DiscoverStep()(d, p, n) == Outcome(Outline(WithCanvasId(d[p], n)), DataColor(d[p]))
  {
  }

  lemma DiscoverStepKeepsFields()
    ensures KeepsFields(DiscoverStep())
  {
    forall d: seq<Element>, p: nat, n: nat | WellFormed(d) && p < |d|
      ensures var e := DiscoverStep()(d, p, n).elem;
              e.tag == d[p].tag && e.parent == d[p].parent && e.text == d[p].text
    {
      assert DiscoverStep()(d, p, n).elem == Outline(WithCanvasId(d[p], n));
    }
  }

  /** The discovery effect over every path of `doc`, in document order. */
  function Discovery(doc: seq<Element>): (r: Prepared)
    requires WellFormed(doc)
    ensures SameShape(doc, r.doc) && WellFormed(r.doc)
  {
    DiscoverStepKeepsFields();
    Replay(doc, Tagged(doc, "path"), DiscoverStep())
  }

  /** The non-empty `data-color` values of the elements at `paths`, in that order. */
  function DataColors(doc: seq<Element>, paths: seq<nat>): seq<string>
    requires InRange(doc, paths)
    decreases |paths|
  {
    if |paths| == 0 then []
    else
      var n := |paths| - 1;
      assert InRange(doc, paths[..n]);
      DataColors(doc, paths[..n]) + DataColor(doc[paths[n]])
  }

  /** A colour is among the data colours exactly when some listed element carries it. */
  lemma {:induction false} DataColorsMembers(doc: seq<Element>, paths: seq<nat>, c: string)
    requires InRange(doc, paths)
    ensures c in DataColors(doc, paths) <==>
              c != "" && exists k :: 0 <= k < |paths| && Attr(doc[paths[k]], "data-color") == Some(c)
    decreases |paths|
  {
    if |paths| > 0 {
      var n := |paths| - 1;
      assert InRange(doc, paths[..n]);
      DataColorsMembers(doc, paths[..n], c);
      if c in DataColors(doc, paths) && c !in DataColors(doc, paths[..n]) {
        assert Attr(doc[paths[n]], "data-color") == Some(c);
      }
      if c != "" && exists k :: 0 <= k < |paths| && Attr(doc[paths[k]], "data-color") == Some(c) {
        var k :| 0 <= k < |paths| && Attr(doc[paths[k]], "data-color") == Some(c);
        if k < n {
          assert paths[..n][k] == paths[k];
        }
      }
    }
  }

  /** The colours the first `m` discovery steps collect are the data colours of those paths. */
  lemma {:induction false} DiscoveredPrefix(doc: seq<Element>, paths: seq<nat>, m: nat)
    requires WellFormed(doc) && InRange(doc, paths) && Increasing(paths) && m <= |paths|
    requires KeepsFields(DiscoverStep())
    ensures InRange(doc, paths[..m])
    ensures Replay(doc, paths[..m], DiscoverStep()).found == DataColors(doc, paths[..m])
    decreases m
  {
    assert InRange(doc, paths[..m]);
    if m > 0 {
      var step := DiscoverStep();
      var k := m - 1;
      DiscoveredPrefix(doc, paths, k);
      ReplayStep(doc, paths, step, k);
      var d := Before(doc, paths, k, step);
      assert d[paths[k]] == doc[paths[k]] by {
        assert paths[k] !in paths[..k];
        ReplayKeepsOthers(doc, paths[..k], step, paths[k]);
      }
      assert step(d, paths[k], k).found == DataColor(doc[paths[k]]);
      assert paths[..m][..k] == paths[..k];
    }
  }

  /** Discovery collects exactly the non-empty `data-color` values of the paths, in document order. */
  lemma DiscoveredColors(doc: seq<Element>)
    requires WellFormed(doc)
    ensures Discovery(doc).found == DataColors(doc, Tagged(doc, "path"))
  {
    var paths := Tagged(doc, "path");
    DiscoverStepKeepsFields();
    DiscoveredPrefix(doc, paths, |paths|);
    assert paths[..|paths|] == paths;
  }

  /**
   * The discovered palette: no colour twice, exactly the non-empty
   * `data-color` values of the paths, in the order they were first met.
   */
  lemma DiscoveredPalette(doc: seq<Element>, c: string)
    requires WellFormed(doc)
    ensures var found := Discovery(doc).found;
            var palette := Distinct(found);
            NoDuplicates(palette) &&
            (forall i, j :: 0 <= i < j < |palette| ==> IndexOf(found, palette[i]) < IndexOf(found, palette[j]))
    ensures var paths := Tagged(doc, "path");
            c in Distinct(Discovery(doc).found) <==>
              c != "" && exists k :: 0 <= k < |paths| && Attr(doc[paths[k]], "data-color") == Some(c)
  {
    var found := Discovery(doc).found;
    DistinctMembers(found);
    DistinctFirstSeenOrder(found);
    DiscoveredColors(doc);
    DataColorsMembers(doc, Tagged(doc, "path"), c);
  }

  /** After discovery the `k`-th path has an id (its own, or `path-k`), the outline, and the same colour. */
  lemma DiscoveredPath(doc: seq<Element>, k: nat)
    requires WellFormed(doc) && k < |Tagged(doc, "path")|
    ensures var p := Tagged(doc, "path")[k];
            var e := Discovery(doc).doc[p];
            Attr(e, "id") == (if Truthy(Attr(doc[p], "id")) then Attr(doc[p], "id") else Some(CanvasId(k))) &&
            Attr(e, "data-color") == Attr(doc[p], "data-color") &&
            Attr(e, "fill") == Some("none") && Attr(e, "fill-rule") == Some("evenodd") &&
            Attr(e, "stroke") == Some("#000") && Attr(e, "stroke-width") == Some("1") &&
            Attr(e, "stroke-linejoin") == Some("round")
  {
    var p := Tagged(doc, "path")[k];
    DiscoveredElement(doc, k);
    var e1 := WithCanvasId(doc[p], k);
    assert Attr(e1, "data-color") == Attr(doc[p], "data-color");
    assert Attr(Outline(e1), "data-color") == Attr(e1, "data-color");
  }

  /** What discovery leaves at the `k`-th path is the outline of the path with its id. */
  lemma DiscoveredElement(doc: seq<Element>, k: nat)
    requires WellFormed(doc) && k < |Tagged(doc, "path")|
    ensures var p := Tagged(doc, "path")[k];
            Discovery(doc).doc[p] == Outline(WithCanvasId(doc[p], k))
  {
    var paths := Tagged(doc, "path");
    DiscoverStepKeepsFields();
    ReplayAtUntouched(doc, paths, DiscoverStep(), k);
  }

  /** Discovery on a prepared drawing keeps the ids the preparation gave every path. */
  lemma DiscoveryKeepsPreparedIds(doc: seq<Element>, probe: string -> string, k: nat)
    requires WellFormed(doc) && k < |Tagged(doc, "path")|
    ensures var prepared := PrepareAll(doc, Tagged(doc, "path"), probe).doc;
            var p := Tagged(doc, "path")[k];
            k < |Tagged(prepared, "path")| && Tagged(prepared, "path")[k] == p &&
            Truthy(Attr(prepared[p], "id")) &&
            Attr(Discovery(prepared).doc[p], "id") == Attr(prepared[p], "id")
  {
    var paths := Tagged(doc, "path");
    var prepared := PrepareAll(doc, paths, probe).doc;
    TaggedSameShape(doc, prepared, "path");
    var p := paths[k];
    assert Truthy(Attr(prepared[p], "id")) by {
      var ex := ExtractIn(probe);
      ExtractInRecordsOnlyClassed(probe);
      PreparedPath(doc, paths, ex, k);
      StepResult(doc[p], k, StepExtraction(doc, paths, ex, k));
    }
    DiscoveredPath(prepared, k);
  }

  // ---------------------------------------------------------------------
  // The highlight decision
  // ---------------------------------------------------------------------

  /** `path.id || ""`: the key a path is painted and labelled under. */
  function PathKey(e: Element): string
  {
    if Attr(e, "id").Some? then Attr(e, "id").value else ""
  }

  /** `selectedColorIndex !== null && data-color === customPalette[selectedColorIndex]`. */
  predicate Matches(e: Element, selectedIndex: Option<nat>, palette: seq<string>)
  {
    selectedIndex.Some? && selectedIndex.value < |palette| &&
    Attr(e, "data-color") == Some(palette[selectedIndex.value])
  }

  /** The fill of an unpainted path of the selected colour. */
  const HIGHLIGHT_FILL := "rgba(255, 255, 0, 0.3)"

  /** The attributes the highlight effect may write. */
  const HIGHLIGHTED: set<string> := {"fill", "fill-opacity", "stroke", "stroke-width", "stroke-dasharray"}

  /** The rewrite of a path of the selected colour: its paint or the yellow tint, and the dashed orange outline. */
  function Spotlit(paint: Option<string>, e: Element): (e': Element)
    ensures forall other :: other !in HIGHLIGHTED ==> Attr(e', other) == Attr(e, other)
    ensures e'.tag == e.tag && e'.parent == e.parent && e'.text == e.text
  {
    var filled :=
      if paint.Some? then SetAttr(SetAttr(e, "fill", paint.value), "fill-opacity", "1")
      else SetAttr(e, "fill", HIGHLIGHT_FILL);
    SetAttr(SetAttr(SetAttr(filled, "stroke", "#FF9500"), "stroke-width", "3"), "stroke-dasharray", "3,3")
  }

  /** The rewrite of any other path: its paint with a grey outline, or no fill with a black one. */
  function Plain(paint: Option<string>, e: Element): (e': Element)
    ensures forall other :: other !in HIGHLIGHTED ==> Attr(e', other) == Attr(e, other)
    ensures e'.tag == e.tag && e'.parent == e.parent && e'.text == e.text
  {
    var filled :=
      if paint.Some? then SetAttr(SetAttr(SetAttr(e, "fill", paint.value), "fill-opacity", "1"), "stroke", "#333")
      else SetAttr(SetAttr(e, "fill", "none"), "stroke", "#000");
    SetAttr(SetAttr(filled, "stroke-width", "1"), "stroke-dasharray", "none")
  }

  /** The paint recorded for a path, if any: `coloredPaths[pathId]`. */
  function PaintOf(painted: map<string, string>, e: Element): Option<string>
  {
    var key := PathKey(e);
    if key in painted then Some(painted[key]) else None
  }

  /** The highlight effect's rewrite of one path. */
  function Highlight(painted: map<string, string>, selectedIndex: Option<nat>, palette: seq<string>, e: Element): Element
  {
    if Matches(e, selectedIndex, palette) then Spotlit(PaintOf(painted, e), e) else Plain(PaintOf(painted, e), e)
  }

  /**
   * The style decision: a painted path always shows its paint; a path of
   * the selected colour gets the dashed orange outline and, while unpainted,
   * the yellow tint; every other path gets the plain outline and, while
   * unpainted, no fill.  Nothing else about the path changes.
   */
  lemma HighlightStyle(painted: map<string, string>, selectedIndex: Option<nat>, palette: seq<string>, e: Element)
    ensures var h := Highlight(painted, selectedIndex, palette, e);
            var key := PathKey(e);
            (key in painted ==> Attr(h, "fill") == Some(painted[key]) && Attr(h, "fill-opacity") == Some("1")) &&
            (Matches(e, selectedIndex, palette) ==>
               Attr(h, "stroke") == Some("#FF9500") && Attr(h, "stroke-width") == Some("3") &&
               Attr(h, "stroke-dasharray") == Some("3,3") &&
               (key !in painted ==> Attr(h, "fill") == Some(HIGHLIGHT_FILL))) &&
            (!Matches(e, selectedIndex, palette) ==>
               Attr(h, "stroke") == Some(if key in painted then "#333" else "#000") &&
               Attr(h, "stroke-width") == Some("1") && Attr(h, "stroke-dasharray") == Some("none") &&
               (key !in painted ==> Attr(h, "fill") == Some("none")))
    ensures forall other :: other !in HIGHLIGHTED ==> Attr(Highlight(painted, selectedIndex, palette, e), other) == Attr(e, other)
    ensures var h := Highlight(painted, selectedIndex, palette, e);
            h.tag == e.tag && h.parent == e.parent && h.text == e.text
  {
  }

  /** Highlighting an already highlighted path changes nothing. */
  lemma HighlightIdempotent(painted: map<string, string>, selectedIndex: Option<nat>, palette: seq<string>, e: Element)
    ensures var h := Highlight(painted, selectedIndex, palette, e);
            Highlight(painted, selectedIndex, palette, h) == h
  {
    var h := Highlight(painted, selectedIndex, palette, e);
    assert Attr(h, "id") == Attr(e, "id") && Attr(h, "data-color") == Attr(e, "data-color");
    assert PaintOf(painted, h) == PaintOf(painted, e);
    assert Matches(h, selectedIndex, palette) == Matches(e, selectedIndex, palette);
    if Matches(e, selectedIndex, palette) {
      SpotlitIdempotent(PaintOf(painted, e), e);
    } else {
      PlainIdempotent(PaintOf(painted, e), e);
    }
  }

  lemma SpotlitIdempotent(paint: Option<string>, e: Element)
    ensures Spotlit(paint, Spotlit(paint, e)) == Spotlit(paint, e)
  {
    var h := Spotlit(paint, e);
    assert Spotlit(paint, h).attrs == h.attrs;
  }

  lemma PlainIdempotent(paint: Option<string>, e: Element)
    ensures Plain(paint, Plain(paint, e)) == Plain(paint, e)
  {
    var h := Plain(paint, e);
    assert Plain(paint, h).attrs == h.attrs;
  }

  /** The label the highlight effect leaves for one path: a mark or the 1-based number, or none. */
  function HighlightLabel(painted: map<string, string>, selectedIndex: Option<nat>, palette: seq<string>,
                          e: Element, labels: map<string, string>): map<string, string>
  {
    var key := PathKey(e);
    if Matches(e, selectedIndex, palette) then
      labels[key := if key in painted then "\U{2713}" else NatToDecimal(selectedIndex.value + 1)]
    else if key != "" then labels - {key}
    else labels
  }

  /** The deselecting click's rewrite of one path: the paint, when it is non-empty, or the plain outline. */
  function Unhighlight(painted: map<string, string>, e: Element): Element
  {
    var key := PathKey(e);
    var filled :=
      if key in painted && painted[key] != "" then
        SetAttr(SetAttr(SetAttr(e, "fill", painted[key]), "fill-opacity", "1"), "stroke", "#333")
      else SetAttr(SetAttr(e, "fill", "none"), "stroke", "#000");
    SetAttr(SetAttr(filled, "stroke-width", "1"), "stroke-dasharray", "none")
  }

  /** The deselecting click removes the path's label. */
  function UnhighlightLabel(e: Element, labels: map<string, string>): map<string, string>
  {
    var key := PathKey(e);
    if key != "" then labels - {key} else labels
  }

  /**
   * The deselecting click's rewrite is what the highlight effect does with no
   * selection, as long as no path was painted with the empty colour.
   */
  lemma UnhighlightIsUnselectedHighlight(painted: map<string, string>, palette: seq<string>, e: Element, labels: map<string, string>)
    requires PathKey(e) in painted ==> painted[PathKey(e)] != ""
    ensures Unhighlight(painted, e) == Highlight(painted, None, palette, e)
    ensures UnhighlightLabel(e, labels) == HighlightLabel(painted, None, palette, e, labels)
  {
  }

  /** `path.setAttribute("fill", "none"); path.setAttribute("fill-opacity", "1")`: the reset of one path. */
  function Cleared(e: Element): Element
  {
    SetAttr(SetAttr(e, "fill", "none"), "fill-opacity", "1")
  }

  /** The paint a matching click gives a path. */
  function Painted(e: Element, color: string): (e': Element)
    ensures Attr(e', "fill") == Some(color) && Attr(e', "fill-opacity") == Some("1")
    ensures Attr(e', "stroke") == Some("#333") && Attr(e', "stroke-width") == Some("1")
    ensures forall other :: other !in {"fill", "fill-opacity", "stroke", "stroke-width"} ==> Attr(e', other) == Attr(e, other)
    ensures e'.tag == e.tag && e'.parent == e.parent && e'.text == e.text
  {
    SetAttr(SetAttr(SetAttr(SetAttr(e, "fill", color), "fill-opacity", "1"), "stroke", "#333"), "stroke-width", "1")
  }

  // ---------------------------------------------------------------------
  // Rewriting every path
  // ---------------------------------------------------------------------

  /** A rewrite of one element that changes attributes only. */
  ghost predicate KeepsShape(f: Element -> Element)
  {
    forall e: Element :: f(e).tag == e.tag && f(e).parent == e.parent && f(e).text == e.text
  }

  /** The document with `f` applied to every path and every other element left alone. */
  function Restyled(doc: seq<Element>, f: Element -> Element): (r: seq<Element>)
    ensures |r| == |doc|
    ensures forall j :: 0 <= j < |doc| ==> r[j] == if doc[j].tag == "path" then f(doc[j]) else doc[j]
  {
    seq(|doc|, j requires 0 <= j < |doc| => if doc[j].tag == "path" then f(doc[j]) else doc[j])
  }

  /** The document with `f` applied to the elements at `paths`, one after the other. */
  function RestyledAt(doc: seq<Element>, paths: seq<nat>, f: Element -> Element): (r: seq<Element>)
    requires InRange(doc, paths)
    ensures |r| == |doc|
    decreases |paths|
  {
    if |paths| == 0 then doc
    else
      var n := |paths| - 1;
      assert InRange(doc, paths[..n]);
      RestyledAt(doc, paths[..n], f)[paths[n] := f(doc[paths[n]])]
  }

  /** An element not listed is left alone. */
  lemma {:induction false} RestyledAtOthers(doc: seq<Element>, paths: seq<nat>, f: Element -> Element, j: nat)
    requires InRange(doc, paths) && j < |doc| && j !in paths
    ensures RestyledAt(doc, paths, f)[j] == doc[j]
    decreases |paths|
  {
    if |paths| > 0 {
      var n := |paths| - 1;
      assert InRange(doc, paths[..n]);
      assert j != paths[n];
      RestyledAtOthers(doc, paths[..n], f, j);
    }
  }

  /** A listed element is rewritten once, from its original. */
  lemma {:induction false} RestyledAtListed(doc: seq<Element>, paths: seq<nat>, f: Element -> Element, i: nat)
    requires InRange(doc, paths) && Increasing(paths) && i < |paths|
    ensures RestyledAt(doc, paths, f)[paths[i]] == f(doc[paths[i]])
    decreases |paths|
  {
    var n := |paths| - 1;
    if i < n {
      assert InRange(doc, paths[..n]) && Increasing(paths[..n]);
      RestyledAtListed(doc, paths[..n], f, i);
    }
  }

  /** Rewriting the paths one after the other is rewriting every path. */
  lemma RestyledAtPaths(doc: seq<Element>, f: Element -> Element)
    ensures RestyledAt(doc, Tagged(doc, "path"), f) == Restyled(doc, f)
  {
    var paths := Tagged(doc, "path");
    var r := RestyledAt(doc, paths, f);
    forall j | 0 <= j < |doc|
      ensures r[j] == Restyled(doc, f)[j]
    {
      if doc[j].tag == "path" {
        var i :| 0 <= i < |paths| && paths[i] == j;
        RestyledAtListed(doc, paths, f, i);
      } else {
        RestyledAtOthers(doc, paths, f, j);
      }
    }
  }

  /** Rewriting the paths keeps the document's shape. */
  lemma RestyledShape(doc: seq<Element>, f: Element -> Element)
    requires WellFormed(doc) && KeepsShape(f)
    ensures SameShape(doc, Restyled(doc, f)) && WellFormed(Restyled(doc, f))
  {
  }

  /** A rewrite that is idempotent on each path is idempotent on the document. */
  lemma RestyledTwice(doc: seq<Element>, f: Element -> Element)
    requires KeepsShape(f)
    requires forall j :: 0 <= j < |doc| && doc[j].tag == "path" ==> f(f(doc[j])) == f(doc[j])
    ensures Restyled(Restyled(doc, f), f) == Restyled(doc, f)
  {
  }

  /** The labels after visiting the elements at `paths` in order, `relabel` deciding for each one. */
  function Relabel(labels: map<string, string>, doc: seq<Element>, paths: seq<nat>,
                   relabel: (Element, map<string, string>) -> map<string, string>): map<string, string>
    requires InRange(doc, paths)
    decreases |paths|
  {
    if |paths| == 0 then labels
    else
      var n := |paths| - 1;
      assert InRange(doc, paths[..n]);
      relabel(doc[paths[n]], Relabel(labels, doc, paths[..n], relabel))
  }

  /** `e => Highlight(painted, selectedIndex, palette, e)`. */
  function HighlightFn(painted: map<string, string>, selectedIndex: Option<nat>, palette: seq<string>): Element -> Element
  {
    (e: Element) => Highlight(painted, selectedIndex, palette, e)
  }

  /** `(e, labels) => HighlightLabel(painted, selectedIndex, palette, e, labels)`. */
  function HighlightLabels(painted: map<string, string>, selectedIndex: Option<nat>, palette: seq<string>)
    : (Element, map<string, string>) -> map<string, string>
  {
    (e: Element, labels: map<string, string>) => HighlightLabel(painted, selectedIndex, palette, e, labels)
  }

  /**
   * With nothing selected the highlight effect removes the label of every
   * path with an id, and adds none.
   */
  lemma {:induction false} UnselectedRemovesLabels(labels: map<string, string>, doc: seq<Element>, paths: seq<nat>,
                                                   painted: map<string, string>, palette: seq<string>)
    requires InRange(doc, paths)
    ensures var r := Relabel(labels, doc, paths, HighlightLabels(painted, None, palette));
            (forall k :: 0 <= k < |paths| && PathKey(doc[paths[k]]) != "" ==> PathKey(doc[paths[k]]) !in r) &&
            (forall key :: key in r ==> key in labels)
    decreases |paths|
  {
    if |paths| > 0 {
      var n := |paths| - 1;
      assert InRange(doc, paths[..n]);
      UnselectedRemovesLabels(labels, doc, paths[..n], painted, palette);
      forall k | 0 <= k < n
        ensures paths[..n][k] == paths[k]
      {
      }
    }
  }

  /**
   * With a colour selected, every label the effect adds belongs to a path of
   * that colour, and shows a check mark when the path is painted or the 1-based
   * colour number when it is not.
   */
  lemma {:induction false} SelectedLabels(labels: map<string, string>, doc: seq<Element>, paths: seq<nat>,
                                          painted: map<string, string>, index: nat, palette: seq<string>, key: string)
    requires InRange(doc, paths)
    requires key in Relabel(labels, doc, paths, HighlightLabels(painted, Some(index), palette))
    ensures var r := Relabel(labels, doc, paths, HighlightLabels(painted, Some(index), palette));
            (key in labels && r[key] == labels[key]) ||
            exists k :: 0 <= k < |paths| && PathKey(doc[paths[k]]) == key && Matches(doc[paths[k]], Some(index), palette) &&
                        r[key] == if key in painted then "\U{2713}" else NatToDecimal(index + 1)
    decreases |paths|
  {
    if |paths| > 0 {
      var n := |paths| - 1;
      assert InRange(doc, paths[..n]);
      var e := doc[paths[n]];
      if !(Matches(e, Some(index), palette) && PathKey(e) == key) {
        SelectedLabels(labels, doc, paths[..n], painted, index, palette, key);
        var r0 := Relabel(labels, doc, paths[..n], HighlightLabels(painted, Some(index), palette));
        var r := Relabel(labels, doc, paths, HighlightLabels(painted, Some(index), palette));
        assert r[key] == r0[key];
        if !(key in labels && r0[key] == labels[key]) {
          var k :| 0 <= k < n && PathKey(doc[paths[..n][k]]) == key && Matches(doc[paths[..n][k]], Some(index), palette) &&
                   r0[key] == if key in painted then "\U{2713}" else NatToDecimal(index + 1);
          assert paths[..n][k] == paths[k];
        }
      }
    }
  }

  /** `(e, labels) => UnhighlightLabel(e, labels)`. */
  function UnhighlightLabels(): (Element, map<string, string>) -> map<string, string>
  {
    (e: Element, labels: map<string, string>) => UnhighlightLabel(e, labels)
  }

  /** `e => Unhighlight(painted, e)`. */
  function UnhighlightFn(painted: map<string, string>): Element -> Element
  {
    (e: Element) => Unhighlight(painted, e)
  }

  /** Resetting leaves every label where it is. */
  function KeepLabels(): (Element, map<string, string>) -> map<string, string>
  {
    (e: Element, labels: map<string, string>) => labels
  }

  lemma {:induction false} KeepLabelsKeeps(labels: map<string, string>, doc: seq<Element>, paths: seq<nat>)
    requires InRange(doc, paths)
    ensures Relabel(labels, doc, paths, KeepLabels()) == labels
    decreases |paths|
  {
    if |paths| > 0 {
      assert InRange(doc, paths[..|paths| - 1]);
      KeepLabelsKeeps(labels, doc, paths[..|paths| - 1]);
    }
  }

  /** Resetting twice leaves the document as resetting once. */
  lemma ResetIdempotent(doc: seq<Element>)
    ensures Restyled(Restyled(doc, Cleared), Cleared) == Restyled(doc, Cleared)
  {
    forall e: Element
      ensures Cleared(Cleared(e)) == Cleared(e)
    {
      assert Cleared(Cleared(e)).attrs == Cleared(e).attrs;
    }
    RestyledTwice(doc, Cleared);
  }

  /** Running the highlight effect twice over the document leaves it as running it once. */
  lemma HighlightAllIdempotent(doc: seq<Element>, painted: map<string, string>, selectedIndex: Option<nat>, palette: seq<string>)
    ensures var f := (e: Element) => Highlight(painted, selectedIndex, palette, e);
            Restyled(Restyled(doc, f), f) == Restyled(doc, f)
  {
    var f := (e: Element) => Highlight(painted, selectedIndex, palette, e);
    forall e: Element
      ensures f(f(e)) == f(e)
    {
      HighlightIdempotent(painted, selectedIndex, palette, e);
    }
    RestyledTwice(doc, f);
  }

  // ---------------------------------------------------------------------
  // Clicks
  // ---------------------------------------------------------------------

  /**
   * The element a click on `pathId` paints: the first element with that id,
   * provided a colour is selected and the element's `data-color` is the
   * selected palette entry.
   */
  function ClickTarget(doc: seq<Element>, pathId: string, selected: Option<string>,
                       selectedIndex: Option<nat>, palette: seq<string>): (r: Option<nat>)
    ensures r.Some? <==>
              Truthy(selected) && FindById(doc, pathId).Some? &&
              Matches(doc[FindById(doc, pathId).value], selectedIndex, palette)
    ensures r.Some? ==>
              r == FindById(doc, pathId) && Attr(doc[r.value], "id") == Some(pathId) &&
              Attr(doc[r.value], "data-color") == Some(palette[selectedIndex.value])
  {
    if !Truthy(selected) then None
    else
      var found := FindById(doc, pathId);
      if found.Some? && Matches(doc[found.value], selectedIndex, palette) then found else None
  }

  /** Two documents whose elements carry the same ids and colours, position by position. */
  predicate SameMarks(d1: seq<Element>, d2: seq<Element>)
  {
    |d1| == |d2| &&
    forall i :: 0 <= i < |d1| ==> Attr(d1[i], "id") == Attr(d2[i], "id") && Attr(d1[i], "data-color") == Attr(d2[i], "data-color")
  }

  /** Elements with the same ids are found at the same place. */
  lemma {:induction false} FindByIdSameMarks(d1: seq<Element>, d2: seq<Element>, id: string)
    requires SameMarks(d1, d2)
    ensures FindById(d1, id) == FindById(d2, id)
    decreases |d1|
  {
    if |d1| > 0 {
      var n := |d1| - 1;
      FindByIdSameMarks(d1[..n], d2[..n], id);
    }
  }

  /** Every painted id names an element, the first with that id, whose `data-color` is the paint. */
  ghost predicate PaintConsistent(doc: seq<Element>, painted: map<string, string>)
  {
    forall id :: id in painted ==>
      FindById(doc, id).Some? && Attr(doc[FindById(doc, id).value], "data-color") == Some(painted[id])
  }

  /** Rewrites that keep ids and colours keep the paint consistent. */
  lemma ConsistentSameMarks(d1: seq<Element>, d2: seq<Element>, painted: map<string, string>)
    requires SameMarks(d1, d2) && PaintConsistent(d1, painted)
    ensures PaintConsistent(d2, painted)
  {
    forall id | id in painted
      ensures FindById(d2, id).Some? && Attr(d2[FindById(d2, id).value], "data-color") == Some(painted[id])
    {
      FindByIdSameMarks(d1, d2, id);
    }
  }

  /**
   * Painting the clicked element keeps the paint consistent, and painting an
   * element that is already painted records the same colour again, so the
   * record does not change.
   */
  lemma ClickKeepsConsistent(doc: seq<Element>, painted: map<string, string>, pathId: string,
                             selected: Option<string>, selectedIndex: Option<nat>, palette: seq<string>)
    requires PaintConsistent(doc, painted)
    requires ClickTarget(doc, pathId, selected, selectedIndex, palette).Some?
    ensures var j := ClickTarget(doc, pathId, selected, selectedIndex, palette).value;
            var color := palette[selectedIndex.value];
            PaintConsistent(doc[j := Painted(doc[j], color)], painted[pathId := color]) &&
            (pathId in painted ==> painted[pathId := color] == painted)
  {
    var j := ClickTarget(doc, pathId, selected, selectedIndex, palette).value;
    var color := palette[selectedIndex.value];
    var doc' := doc[j := Painted(doc[j], color)];
    assert SameMarks(doc, doc');
    ConsistentSameMarks(doc, doc', painted);
    FindByIdSameMarks(doc, doc', pathId);
    if pathId in painted {
      assert painted[pathId] == color;
    }
  }

  /** A rewrite that keeps every element's id and colour. */
  ghost predicate KeepsMarks(f: Element -> Element)
  {
    forall e: Element :: Attr(f(e), "id") == Attr(e, "id") && Attr(f(e), "data-color") == Attr(e, "data-color")
  }

  /** Rewriting paths with such a rewrite keeps the paint consistent. */
  lemma RestyledKeepsConsistent(doc: seq<Element>, f: Element -> Element, painted: map<string, string>)
    requires KeepsMarks(f) && PaintConsistent(doc, painted)
    ensures PaintConsistent(Restyled(doc, f), painted)
  {
    assert SameMarks(doc, Restyled(doc, f));
    ConsistentSameMarks(doc, Restyled(doc, f), painted);
  }

  /** The loop over `querySelectorAll("path")` shared by the effects and handlers that restyle every path. */
  method RestyleEach(doc: seq<Element>, paths: seq<nat>, labels: map<string, string>, f: Element -> Element,
                     relabel: (Element, map<string, string>) -> map<string, string>)
    returns (els: seq<Element>, labs: map<string, string>)
    requires InRange(doc, paths) && Increasing(paths)
    ensures els == RestyledAt(doc, paths, f)
    ensures labs == Relabel(labels, doc, paths, relabel)
  {
    els, labs := doc, labels;
    var k := 0;
    while k < |paths|
      invariant 0 <= k <= |paths| && InRange(doc, paths[..k])
      invariant els == RestyledAt(doc, paths[..k], f)
      invariant labs == Relabel(labels, doc, paths[..k], relabel)
    {
      var p := paths[k];
      assert els[p] == doc[p] by {
        assert p !in paths[..k];
        RestyledAtOthers(doc, paths[..k], f, p);
      }
      assert paths[..k + 1][..k] == paths[..k];
      labs := relabel(els[p], labs);
      els := els[p := f(els[p])];
      k := k + 1;
    }
    assert paths[..k] == paths;
  }

  /** The path-processing effect's work on the path at `p`, the `index`-th path. */
  method DiscoverPath(els: seq<Element>, p: nat, index: nat, colors: seq<string>)
    returns (els': seq<Element>, colors': seq<string>)
    requires p < |els|
    ensures els' == els[p := Outline(WithCanvasId(els[p], index))]
    ensures colors' == if |DataColor(els[p])| == 1 then PushIfNew(colors, DataColor(els[p])[0]) else colors
  {
    var e := els[p];
    var origId := Attr(e, "id");
    if !Truthy(origId) {
      e := SetAttr(e, "id", CanvasId(index));
    }
    var dataColor := Attr(e, "data-color");
    colors' := colors;
    if Truthy(dataColor) && dataColor.value !in colors {
      colors' := colors + [dataColor.value];
    }
    els' := els[p := Outline(e)];
  }

  /** The path-processing effect's loop over the paths. */
  method DiscoverEach(doc: seq<Element>) returns (els: seq<Element>, uniqueColors: seq<string>)
    requires WellFormed(doc)
    ensures els == Discovery(doc).doc
    ensures uniqueColors == Distinct(Discovery(doc).found)
  {
    var paths := Tagged(doc, "path");
    var step := DiscoverStep();
    DiscoverStepKeepsFields();
    els, uniqueColors := doc, [];
    var k := 0;
    while k < |paths|
      invariant 0 <= k <= |paths| && InRange(doc, paths[..k])
      invariant els == Replay(doc, paths[..k], step).doc
      invariant uniqueColors == Distinct(Replay(doc, paths[..k], step).found)
    {
      ReplayStep(doc, paths, step, k);
      ghost var prev := Replay(doc, paths[..k], step);
      DiscoverStepOn(prev.doc, paths[k], k);
      DistinctAppend(prev.found, DataColor(prev.doc[paths[k]]));
      els, uniqueColors := DiscoverPath(els, paths[k], k, uniqueColors);
      k := k + 1;
    }
    assert paths[..k] == paths;
  }

  // ---------------------------------------------------------------------
  // The component
  // ---------------------------------------------------------------------

  /**
   * The document and paint record after a click on `pathId`, and whether the
   * click painted anything.
   */
  method PaintClicked(doc: seq<Element>, painted: map<string, string>, pathId: string,
                      selected: Option<string>, selectedIndex: Option<nat>, palette: seq<string>)
    returns (doc': seq<Element>, painted': map<string, string>, hit: bool)
    requires WellFormed(doc)
    ensures WellFormed(doc')
    ensures var target := ClickTarget(doc, pathId, selected, selectedIndex, palette);
            hit == target.Some? &&
            if hit then
              var color := palette[selectedIndex.value];
              doc' == doc[target.value := Painted(doc[target.value], color)] && painted' == painted[pathId := color]
            else
              doc' == doc && painted' == painted
    ensures PaintConsistent(doc, painted) ==> PaintConsistent(doc', painted')
    ensures PaintConsistent(doc, painted) && pathId in painted ==> painted' == painted
  {
    doc', painted', hit := doc, painted, false;
    var target := ClickTarget(doc, pathId, selected, selectedIndex, palette);
    if target.Some? {
      var path := target.value;
      var color := palette[selectedIndex.value];
      if PaintConsistent(doc, painted) {
        ClickKeepsConsistent(doc, painted, pathId, selected, selectedIndex, palette);
      }
      doc' := doc[path := Painted(doc[path], color)];
      assert forall i :: 0 <= i < |doc| ==> doc'[i].parent == doc[i].parent;
      painted' := painted[pathId := color];
      hit := true;
    }
  }

  /**
   * The canvas component's state.  `elements` is the drawing rendered under
   * the canvas's `svg` element, and `labels` maps a path id to the text of
   * the number label drawn over it.
   */
  class Canvas {
    /** The `palette` prop, which the discovered colours replace only when it is the default. */
    const palette: PaletteProp
    const title: string
    var elements: seq<Element>
    var selectedColor: Option<string>
    var selectedColorIndex: Option<nat>
    var customPalette: seq<string>
    var coloredPaths: map<string, string>
    var hasChanges: bool
    var shareImageUrl: Option<string>
    var labels: map<string, string>

    ghost predicate Valid()
      reads this
    {
      WellFormed(elements)
    }

    /** The first render: nothing selected or painted, the palette prop as the palette. */
    constructor (rendered: seq<Element>, paletteProp: PaletteProp, pageTitle: string)
      requires WellFormed(rendered)
      ensures Valid()
      ensures elements == rendered && palette == paletteProp && title == pageTitle
      ensures selectedColor == None && selectedColorIndex == None
      ensures customPalette == InitialPalette(paletteProp)
      ensures coloredPaths == map[] && !hasChanges && shareImageUrl == None && labels == map[]
    {
      palette, title := paletteProp, pageTitle;
      elements := rendered;
      selectedColor, selectedColorIndex := None, None;
      customPalette := InitialPalette(paletteProp);
      coloredPaths, hasChanges, shareImageUrl, labels := map[], false, None, map[];
    }

    /**
     * The path-processing effect: every path gets an id and the plain
     * outline, and the distinct colours of the paths become the palette
     * when there are any and the palette prop is the default one.
     */
    method DiscoverPalette()
      requires Valid()
      modifies this
      ensures Valid()
      ensures elements == Discovery(old(elements)).doc
      ensures var colors := Distinct(Discovery(old(elements)).found);
              customPalette == if |colors| > 0 && palette.DefaultPalette? then colors else old(customPalette)
      ensures selectedColor == old(selectedColor) && selectedColorIndex == old(selectedColorIndex)
      ensures coloredPaths == old(coloredPaths) && hasChanges == old(hasChanges)
      ensures shareImageUrl == old(shareImageUrl) && labels == old(labels)
    {
      ghost var before := (selectedColor, selectedColorIndex, coloredPaths, hasChanges, shareImageUrl, labels);
      var els, uniqueColors := DiscoverEach(elements);
      elements := els;
      if |uniqueColors| > 0 && palette.DefaultPalette? {
        customPalette := uniqueColors;
      }
      assert before == (selectedColor, selectedColorIndex, coloredPaths, hasChanges, shareImageUrl, labels);
    }

    /** Applies `f` to every path and lets `relabel` update the labels, path by path. */
    method RestylePaths(f: Element -> Element, relabel: (Element, map<string, string>) -> map<string, string>)
      requires Valid() && KeepsShape(f)
      modifies this
      ensures Valid()
      ensures elements == Restyled(old(elements), f)
      ensures labels == Relabel(old(labels), old(elements), Tagged(old(elements), "path"), relabel)
      ensures selectedColor == old(selectedColor) && selectedColorIndex == old(selectedColorIndex)
      ensures customPalette == old(customPalette) && coloredPaths == old(coloredPaths)
      ensures hasChanges == old(hasChanges) && shareImageUrl == old(shareImageUrl)
    {
      ghost var before := (selectedColor, selectedColorIndex, customPalette, coloredPaths, hasChanges, shareImageUrl);
      var paths := Tagged(elements, "path");
      var els, labs := RestyleEach(elements, paths, labels, f, relabel);
      assert els == Restyled(elements, f) && WellFormed(els) by {
        RestyledAtPaths(elements, f);
        RestyledShape(elements, f);
      }
      elements, labels := els, labs;
      assert before == (selectedColor, selectedColorIndex, customPalette, coloredPaths, hasChanges, shareImageUrl);
    }

    /** The highlight effect: every path restyled and relabelled for the current selection. */
    method UpdateHighlight()
      requires Valid()
      modifies this
      ensures Valid()
      ensures elements == Restyled(old(elements), HighlightFn(coloredPaths, selectedColorIndex, customPalette))
      ensures labels == Relabel(old(labels), old(elements), Tagged(old(elements), "path"),
                                HighlightLabels(coloredPaths, selectedColorIndex, customPalette))
      ensures PaintConsistent(old(elements), coloredPaths) ==> PaintConsistent(elements, coloredPaths)
      ensures selectedColor == old(selectedColor) && selectedColorIndex == old(selectedColorIndex)
      ensures customPalette == old(customPalette) && coloredPaths == old(coloredPaths)
      ensures hasChanges == old(hasChanges) && shareImageUrl == old(shareImageUrl)
    {
      var painted, index, colors := coloredPaths, selectedColorIndex, customPalette;
      var f := HighlightFn(painted, index, colors);
      forall e: Element
        ensures f(e).tag == e.tag && f(e).parent == e.parent && f(e).text == e.text
        ensures Attr(f(e), "id") == Attr(e, "id") && Attr(f(e), "data-color") == Attr(e, "data-color")
      {
        HighlightStyle(painted, index, colors, e);
      }
      ghost var doc0 := elements;
      ghost var before := (selectedColor, selectedColorIndex, customPalette, coloredPaths, hasChanges, shareImageUrl);
      RestylePaths(f, HighlightLabels(painted, index, colors));
      if PaintConsistent(doc0, painted) {
        RestyledKeepsConsistent(doc0, f, painted);
      }
      assert before == (selectedColor, selectedColorIndex, customPalette, coloredPaths, hasChanges, shareImageUrl);
    }

    /**
     * A palette button: choosing the selected colour again clears the
     * selection and restores every path's plain or painted look, any other
     * colour becomes the selection with its index.
     */
    method SelectColor(color: string, index: nat)
      requires Valid()
      modifies this
      ensures Valid()
      ensures selectedColor == Toggle(old(selectedColor), color)
      ensures selectedColorIndex == if old(selectedColor) == Some(color) then None else Some(index)
      ensures old(selectedColor) == Some(color) ==>
                elements == Restyled(old(elements), UnhighlightFn(coloredPaths)) &&
                labels == Relabel(old(labels), old(elements), Tagged(old(elements), "path"), UnhighlightLabels())
      ensures old(selectedColor) != Some(color) ==> elements == old(elements) && labels == old(labels)
      ensures customPalette == old(customPalette) && coloredPaths == old(coloredPaths)
      ensures hasChanges == old(hasChanges) && shareImageUrl == old(shareImageUrl)
    {
      if selectedColor == Some(color) {
        selectedColor, selectedColorIndex := None, None;
        var f := UnhighlightFn(coloredPaths);
        forall e: Element
          ensures f(e).tag == e.tag && f(e).parent == e.parent && f(e).text == e.text
        {
        }
        RestylePaths(f, UnhighlightLabels());
      } else {
        selectedColor, selectedColorIndex := Some(color), Some(index);
      }
    }

    /**
     * A click on the path with id `pathId`: the first element with that id
     * is painted with its own colour, and recorded as painted, exactly when
     * a colour is selected and that colour's palette entry is the element's
     * `data-color`; otherwise nothing changes.
     */
    method PathClick(pathId: string)
      requires Valid()
      modifies this
      ensures Valid()
      ensures var target := ClickTarget(old(elements), pathId, selectedColor, selectedColorIndex, customPalette);
              if target.Some? then
                var color := customPalette[selectedColorIndex.value];
                elements == old(elements)[target.value := Painted(old(elements)[target.value], color)] &&
                coloredPaths == old(coloredPaths)[pathId := color] && hasChanges
              else
                elements == old(elements) && coloredPaths == old(coloredPaths) && hasChanges == old(hasChanges)
      ensures PaintConsistent(old(elements), old(coloredPaths)) ==> PaintConsistent(elements, coloredPaths)
      ensures PaintConsistent(old(elements), old(coloredPaths)) && pathId in old(coloredPaths) ==> coloredPaths == old(coloredPaths)
      ensures selectedColor == old(selectedColor) && selectedColorIndex == old(selectedColorIndex)
      ensures customPalette == old(customPalette) && shareImageUrl == old(shareImageUrl) && labels == old(labels)
    {
      ghost var before := (selectedColor, selectedColorIndex, customPalette, shareImageUrl, labels);
      var els, paints, hit := PaintClicked(elements, coloredPaths, pathId, selectedColor, selectedColorIndex, customPalette);
      elements, coloredPaths := els, paints;
      if hit {
        hasChanges := true;
      }
      assert before == (selectedColor, selectedColorIndex, customPalette, shareImageUrl, labels);
    }

    /**
     * The reset button: no change pending, no share image, nothing painted,
     * and every path's fill cleared.
     */
    method Reset()
      requires Valid()
      modifies this
      ensures Valid()
      ensures !hasChanges && shareImageUrl == None && coloredPaths == map[]
      ensures elements == Restyled(old(elements), Cleared)
      ensures selectedColor == old(selectedColor) && selectedColorIndex == old(selectedColorIndex)
      ensures customPalette == old(customPalette) && labels == old(labels)
    {
      hasChanges := false;
      shareImageUrl := None;
      coloredPaths := map[];
      RestylePaths(Cleared, KeepLabels());
      assert labels == old(labels) by {
        KeepLabelsKeeps(old(labels), old(elements), Tagged(old(elements), "path"));
      }
    }
  }
}
