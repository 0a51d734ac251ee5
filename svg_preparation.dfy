/**
 * The preparer turns a coloured drawing into a colouring template.  Every
 * `path` element, in document order, gets an id, keeps the colour it was
 * drawn with in `data-color`, and is stripped to a black outline; the
 * distinct colours found, in the order first seen, become the palette.
 */
module SvgPreparation {
  import opened JsValues
  import opened JsStrings
  import opened SvgDocument
  import opened ColorExtraction
  import opened Palettes
  import opened FileNames

  // ---------------------------------------------------------------------
  // One path
  // ---------------------------------------------------------------------

  /** The id a path without one receives: `area` and its 1-based position among the paths. */
  function AreaId(index: nat): string
  {
    "area" + NatToDecimal(index + 1)
  }

  /** Different positions give different ids. */
  lemma AreaIdInjective(m: nat, n: nat)
    requires AreaId(m) == AreaId(n)
    ensures m == n
  {
    assert NatToDecimal(m + 1) == AreaId(m)[4..] == AreaId(n)[4..] == NatToDecimal(n + 1);
    NatToDecimalInjective(m + 1, n + 1);
  }

  /** The id step: a non-empty id is kept, otherwise `AreaId(index)` is set. */
  function WithId(e: Element, index: nat): (e': Element)
    ensures Attr(e', "id") == if Truthy(Attr(e, "id")) then Attr(e, "id") else Some(AreaId(index))
    ensures forall other :: other != "id" ==> Attr(e', other) == Attr(e, other)
    ensures e'.tag == e.tag && e'.parent == e.parent && e'.text == e.text
  {
    if Truthy(Attr(e, "id")) then e else SetAttr(e, "id", AreaId(index))
  }

  /** The five outline attributes the stripping step writes. */
  function Outline(e: Element): (e': Element)
    ensures Attr(e', "fill") == Some("none") && Attr(e', "fill-rule") == Some("evenodd")
    ensures Attr(e', "stroke") == Some("#000") && Attr(e', "stroke-width") == Some("1")
    ensures Attr(e', "stroke-linejoin") == Some("round")
    ensures forall other :: other !in {"fill", "fill-rule", "stroke", "stroke-width", "stroke-linejoin"} ==> Attr(e', other) == Attr(e, other)
    ensures e'.tag == e.tag && e'.parent == e.parent && e'.text == e.text
  {
    SetAttr(SetAttr(SetAttr(SetAttr(SetAttr(e, "fill", "none"), "fill-rule", "evenodd"),
      "stroke", "#000"), "stroke-width", "1"), "stroke-linejoin", "round")
  }

  /** An outline-only path: what every path looks like once prepared. */
  predicate Stripped(e: Element)
  {
    Attr(e, "fill") == Some("none") && Attr(e, "fill-rule") == Some("evenodd") &&
    Attr(e, "stroke") == Some("#000") && Attr(e, "stroke-width") == Some("1") &&
    Attr(e, "stroke-linejoin") == Some("round") && Attr(e, "style") == None && Attr(e, "class") == None
  }

  /** The attributes the stripping step may change. */
  const STRIPPED: set<string> := {"fill", "fill-rule", "stroke", "stroke-width", "stroke-linejoin", "style", "class", "data-original-class"}

  /** The outline with the inline style removed. */
  function Unstyled(e: Element): (e': Element)
    ensures Attr(e', "fill") == Some("none") && Attr(e', "fill-rule") == Some("evenodd")
    ensures Attr(e', "stroke") == Some("#000") && Attr(e', "stroke-width") == Some("1")
    ensures Attr(e', "stroke-linejoin") == Some("round") && Attr(e', "style") == None
    ensures forall other :: other !in {"fill", "fill-rule", "stroke", "stroke-width", "stroke-linejoin", "style"} ==> Attr(e', other) == Attr(e, other)
    ensures e'.tag == e.tag && e'.parent == e.parent && e'.text == e.text
  {
    RemoveAttr(Outline(e), "style")
  }

  /** The class moved to `data-original-class`, unless that attribute is already there. */
  function MoveClass(e: Element): (e': Element)
    ensures Attr(e', "class") == None
    ensures Attr(e', "data-original-class") ==
              if Attr(e, "class").Some? && Attr(e, "data-original-class").None? then Attr(e, "class")
              else Attr(e, "data-original-class")
    ensures forall other :: other != "class" && other != "data-original-class" ==> Attr(e', other) == Attr(e, other)
    ensures e'.tag == e.tag && e'.parent == e.parent && e'.text == e.text
  {
    if Attr(e, "class").Some? then
      var e1 := if Attr(e, "data-original-class").None? then SetAttr(e, "data-original-class", Attr(e, "class").value) else e;
      RemoveAttr(e1, "class")
    else e
  }

  /**
   * The stripping step: no fill, an even-odd rule, a thin black round-joined
   * outline, no inline style, and the class moved to `data-original-class`
   * unless that attribute is already there.
   */
  function StripPath(e: Element): (e': Element)
    ensures Stripped(e')
    ensures Attr(e', "data-original-class") ==
              if Attr(e, "class").Some? && Attr(e, "data-original-class").None? then Attr(e, "class")
              else Attr(e, "data-original-class")
    ensures Attr(e', "data-color") == Attr(e, "data-color") && Attr(e', "id") == Attr(e, "id")
    ensures e'.tag == e.tag && e'.parent == e.parent && e'.text == e.text
  {
    MoveClass(Unstyled(e))
  }

  /** Stripping touches no attribute outside `STRIPPED`. */
  lemma StripPathKeepsOthers(e: Element, other: string)
    requires other !in STRIPPED
    ensures Attr(StripPath(e), other) == Attr(e, other)
  {
    assert Attr(Unstyled(e), other) == Attr(e, other);
  }

  /** The colour a path contributes: a resolved colour other than `none`. */
  function Found(x: Extraction): (f: seq<string>)
    ensures |f| <= 1
    ensures |f| == 1 <==> Truthy(x.color) && x.color.value != "none"
    ensures |f| == 1 ==> f[0] == x.color.value
  {
    if Truthy(x.color) && x.color.value != "none" then [x.color.value] else []
  }

  /** Recording the class the extraction took its colour from, when it did. */
  function Record(e: Element, x: Extraction): (e': Element)
    ensures Attr(e', "data-original-class") ==
              if x.recorded && Attr(e, "class").Some? then Attr(e, "class") else Attr(e, "data-original-class")
    ensures forall other :: other != "data-original-class" ==> Attr(e', other) == Attr(e, other)
    ensures e'.tag == e.tag && e'.parent == e.parent && e'.text == e.text
  {
    if x.recorded && Attr(e, "class").Some? then SetAttr(e, "data-original-class", Attr(e, "class").value) else e
  }

  /** Keeping the colour found in `data-color`. */
  function Paint(e: Element, x: Extraction): (e': Element)
    ensures Attr(e', "data-color") == if |Found(x)| == 1 then Some(Found(x)[0]) else Attr(e, "data-color")
    ensures forall other :: other != "data-color" ==> Attr(e', other) == Attr(e, other)
    ensures e'.tag == e.tag && e'.parent == e.parent && e'.text == e.text
  {
    if |Found(x)| == 1 then SetAttr(e, "data-color", Found(x)[0]) else e
  }

  /**
   * The rest of the per-path step, once the id is set and the colour
   * extracted: the class recorded by the extraction, `data-color` when a
   * colour was found, then stripping.
   */
  function Finish(e: Element, x: Extraction): (e': Element)
    ensures Stripped(e')
    ensures Attr(e', "data-color") == if |Found(x)| == 1 then Some(Found(x)[0]) else Attr(e, "data-color")
    ensures Attr(e', "data-original-class") ==
              if Attr(e, "class").Some? && (x.recorded || Attr(e, "data-original-class").None?) then Attr(e, "class")
              else Attr(e, "data-original-class")
    ensures Attr(e', "id") == Attr(e, "id")
    ensures e'.tag == e.tag && e'.parent == e.parent && e'.text == e.text
  {
    var e2 := Record(e, x);
    var e3 := Paint(e2, x);
    assert Attr(e3, "class") == Attr(e, "class");
    assert Attr(e3, "id") == Attr(e, "id");
    StripPath(e3)
  }

  // ---------------------------------------------------------------------
  // All paths
  // ---------------------------------------------------------------------

  /** The document after the steps so far, and the colours found, one per path that had one. */
  datatype Prepared = Prepared(doc: seq<Element>, found: seq<string>)

  /** Every position names an element of the document. */
  predicate InRange(doc: seq<Element>, paths: seq<nat>)
  {
    forall k :: 0 <= k < |paths| ==> paths[k] < |doc|
  }

  /** Positions in document order, as `querySelectorAll` returns them. */
  predicate Increasing(paths: seq<nat>)
  {
    forall k, l :: 0 <= k < l < |paths| ==> paths[k] < paths[l]
  }

  /** Replacing one element by one of the same tag, parent and text keeps the shape. */
  lemma ReplaceKeepsShape(doc0: seq<Element>, doc: seq<Element>, p: nat, e: Element)
    requires WellFormed(doc0) && SameShape(doc0, doc) && p < |doc|
    requires e.tag == doc[p].tag && e.parent == doc[p].parent && e.text == doc[p].text
    ensures WellFormed(doc[p := e]) && SameShape(doc0, doc[p := e])
  {
    var d := doc[p := e];
    assert forall j :: 0 <= j < |d| ==> d[j].parent == doc0[j].parent;
  }

  /** What one step leaves at its path, and the colours it found there. */
  datatype Outcome = Outcome(elem: Element, found: seq<string>)

  /** A per-path step, given the document so far, the path's position and its index among the paths. */
  type StepFn = (seq<Element>, nat, nat) -> Outcome

  /** A step that changes attributes only: tag, parent and text stay. */
  ghost predicate KeepsFields(step: StepFn)
  {
    forall d: seq<Element>, p: nat, n: nat :: WellFormed(d) && p < |d| ==>
      var e := step(d, p, n).elem;
      e.tag == d[p].tag && e.parent == d[p].parent && e.text == d[p].text
  }

  /** `paths.forEach(step)`: each step sees the document the earlier ones left. */
  function Replay(doc: seq<Element>, paths: seq<nat>, step: StepFn): (r: Prepared)
    requires WellFormed(doc) && InRange(doc, paths) && KeepsFields(step)
    ensures SameShape(doc, r.doc) && WellFormed(r.doc)
    decreases |paths|
  {
    if |paths| == 0 then Prepared(doc, [])
    else
      var n := |paths| - 1;
      var prev := Replay(doc, paths[..n], step);
      var o := step(prev.doc, paths[n], n);
      ReplaceKeepsShape(doc, prev.doc, paths[n], o.elem);
      Prepared(prev.doc[paths[n] := o.elem], prev.found + o.found)
  }

  /** The document the step for `paths[k]` starts from. */
  function Before(doc: seq<Element>, paths: seq<nat>, k: nat, step: StepFn): (d: seq<Element>)
    requires WellFormed(doc) && InRange(doc, paths) && KeepsFields(step) && k <= |paths|
    ensures SameShape(doc, d) && WellFormed(d)
  {
    assert InRange(doc, paths[..k]);
    Replay(doc, paths[..k], step).doc
  }

  /** Elements that are not among the paths come out as they went in. */
  lemma {:induction false} ReplayKeepsOthers(doc: seq<Element>, paths: seq<nat>, step: StepFn, j: nat)
    requires WellFormed(doc) && InRange(doc, paths) && KeepsFields(step) && j < |doc| && j !in paths
    ensures Replay(doc, paths, step).doc[j] == doc[j]
    decreases |paths|
  {
    if |paths| > 0 {
      var n := |paths| - 1;
      assert InRange(doc, paths[..n]);
      assert j !in paths[..n] by {
        assert forall k :: 0 <= k < n ==> paths[..n][k] == paths[k];
      }
      ReplayKeepsOthers(doc, paths[..n], step, j);
    }
  }

  /** An element no later step touches keeps what the steps up to `m` left there. */
  lemma {:induction false} ReplayLater(doc: seq<Element>, paths: seq<nat>, step: StepFn, m: nat, j: nat)
    requires WellFormed(doc) && InRange(doc, paths) && KeepsFields(step) && m <= |paths| && j < |doc|
    requires forall i :: m <= i < |paths| ==> paths[i] != j
    ensures InRange(doc, paths[..m])
    ensures Replay(doc, paths, step).doc[j] == Replay(doc, paths[..m], step).doc[j]
    decreases |paths|
  {
    if m == |paths| {
      assert paths[..m] == paths;
    } else {
      var n := |paths| - 1;
      assert InRange(doc, paths[..n]);
      ReplayLater(doc, paths[..n], step, m, j);
      assert paths[..n][..m] == paths[..m];
    }
  }

  /**
   * The path at position `k` comes out as its own step left it: later
   * steps touch only later paths.
   */
  lemma ReplayAt(doc: seq<Element>, paths: seq<nat>, step: StepFn, k: nat)
    requires WellFormed(doc) && InRange(doc, paths) && Increasing(paths) && KeepsFields(step) && k < |paths|
    ensures Replay(doc, paths, step).doc[paths[k]] == step(Before(doc, paths, k, step), paths[k], k).elem
  {
    ReplayLater(doc, paths, step, k + 1, paths[k]);
    var pre := paths[..k + 1];
    assert pre[..k] == paths[..k];
    assert InRange(doc, pre[..k]);
  }

  /** The `k`-th step sees its path as it was in the original document. */
  lemma ReplayAtUntouched(doc: seq<Element>, paths: seq<nat>, step: StepFn, k: nat)
    requires WellFormed(doc) && InRange(doc, paths) && Increasing(paths) && KeepsFields(step) && k < |paths|
    ensures Before(doc, paths, k, step)[paths[k]] == doc[paths[k]]
    ensures Replay(doc, paths, step).doc[paths[k]] == step(Before(doc, paths, k, step), paths[k], k).elem
  {
    assert paths[k] !in paths[..k];
    ReplayKeepsOthers(doc, paths[..k], step, paths[k]);
    ReplayAt(doc, paths, step, k);
  }

  /** The first `k + 1` steps: the first `k`, then the step for `paths[k]`. */
  lemma ReplayStep(doc: seq<Element>, paths: seq<nat>, step: StepFn, k: nat)
    requires WellFormed(doc) && InRange(doc, paths) && KeepsFields(step) && k < |paths|
    ensures InRange(doc, paths[..k + 1])
    ensures var d := Before(doc, paths, k, step);
            var o := step(d, paths[k], k);
            Replay(doc, paths[..k + 1], step) ==
              Prepared(d[paths[k] := o.elem], Replay(doc, paths[..k], step).found + o.found)
  {
    var pre := paths[..k + 1];
    assert pre[..k] == paths[..k];
    assert InRange(doc, pre);
  }

  // ---------------------------------------------------------------------
  // The preparation step
  // ---------------------------------------------------------------------

  /** An extraction as a function of the document and the element's position. */
  type ExtractFn = (seq<Element>, nat) -> Extraction

  /** `extractColorFromElement` with the colour probe fixed; nothing outside a well-formed document. */
  function ExtractIn(probe: string -> string): ExtractFn
  {
    (d: seq<Element>, i: nat) => if WellFormed(d) && i < |d| then Extract(d, i, probe) else Extraction(None, false)
  }

  /** An extraction that asks for the class to be recorded only from an element that has one. */
  ghost predicate RecordsOnlyClassed(ex: ExtractFn)
  {
    forall d: seq<Element>, i: nat :: i < |d| && ex(d, i).recorded ==> Attr(d[i], "class").Some?
  }

  lemma ExtractInRecordsOnlyClassed(probe: string -> string)
    ensures RecordsOnlyClassed(ExtractIn(probe))
  {
  }

  /**
   * The per-path step of the preparer: the id, the extraction on the
   * document with that id in place, then recording, `data-color` and
   * stripping.
   */
  function PathStep(ex: ExtractFn): StepFn
  {
    (d: seq<Element>, p: nat, n: nat) =>
      if p >= |d| then Outcome(Element("", map[], -1, ""), [])
      else
        var e1 := WithId(d[p], n);
        var x := ex(d[p := e1], p);
        Outcome(Finish(e1, x), Found(x))
  }

  lemma PathStepKeepsFields(ex: ExtractFn)
    ensures KeepsFields(PathStep(ex))
  {
    forall d: seq<Element>, p: nat, n: nat | WellFormed(d) && p < |d|
      ensures var e := PathStep(ex)(d, p, n).elem;
              e.tag == d[p].tag && e.parent == d[p].parent && e.text == d[p].text
    {
      var e1 := WithId(d[p], n);
      assert PathStep(ex)(d, p, n).elem == Finish(e1, ex(d[p := e1], p));
    }
  }

  /** The preparation of the paths at `paths`, with the extraction `ex`. */
  function PrepareWith(doc: seq<Element>, paths: seq<nat>, ex: ExtractFn): (r: Prepared)
    requires WellFormed(doc) && InRange(doc, paths)
    ensures SameShape(doc, r.doc) && WellFormed(r.doc)
  {
    PathStepKeepsFields(ex);
    Replay(doc, paths, PathStep(ex))
  }

  /** The whole preparation of the paths at `paths`. */
  function PrepareAll(doc: seq<Element>, paths: seq<nat>, probe: string -> string): (r: Prepared)
    requires WellFormed(doc) && InRange(doc, paths)
    ensures SameShape(doc, r.doc) && WellFormed(r.doc)
  {
    PrepareWith(doc, paths, ExtractIn(probe))
  }

  /** The extraction the step for the `k`-th path makes. */
  function StepExtraction(doc: seq<Element>, paths: seq<nat>, ex: ExtractFn, k: nat): Extraction
    requires WellFormed(doc) && InRange(doc, paths) && k < |paths|
  {
    PathStepKeepsFields(ex);
    var d := Before(doc, paths, k, PathStep(ex));
    ex(d[paths[k] := WithId(d[paths[k]], k)], paths[k])
  }

  /**
   * What the step leaves at a path: an outline with an id, `data-color`
   * holding the colour found, and the class the colour came from kept in
   * `data-original-class`.
   */
  lemma StepResult(e0: Element, index: nat, x: Extraction)
    requires x.recorded ==> Attr(e0, "class").Some?
    ensures var e := Finish(WithId(e0, index), x);
            Stripped(e) &&
            Attr(e, "id") == (if Truthy(Attr(e0, "id")) then Attr(e0, "id") else Some(AreaId(index))) &&
            Attr(e, "data-color") == (if |Found(x)| == 1 then Some(x.color.value) else Attr(e0, "data-color")) &&
            Attr(e, "data-original-class") ==
              (if x.recorded || (Attr(e0, "class").Some? && Attr(e0, "data-original-class").None?) then Attr(e0, "class")
               else Attr(e0, "data-original-class"))
  {
    var e1 := WithId(e0, index);
    assert Attr(e1, "class") == Attr(e0, "class");
    assert Attr(e1, "data-original-class") == Attr(e0, "data-original-class");
    assert Attr(e1, "data-color") == Attr(e0, "data-color");
  }

  /** What preparation leaves at the `k`-th path is what its step left there. */
  lemma PreparedPath(doc: seq<Element>, paths: seq<nat>, ex: ExtractFn, k: nat)
    requires WellFormed(doc) && InRange(doc, paths) && Increasing(paths) && k < |paths|
    requires RecordsOnlyClassed(ex)
    ensures var x := StepExtraction(doc, paths, ex, k);
            (x.recorded ==> Attr(doc[paths[k]], "class").Some?) &&
            PrepareWith(doc, paths, ex).doc[paths[k]] == Finish(WithId(doc[paths[k]], k), x)
  {
    var step := PathStep(ex);
    PathStepKeepsFields(ex);
    var d := Before(doc, paths, k, step);
    var p := paths[k];
    var e1 := WithId(doc[p], k);
    var x := StepExtraction(doc, paths, ex, k);
    assert d[p] == doc[p] by {
      assert InRange(doc, paths[..k]);
      assert paths[k] !in paths[..k];
      ReplayKeepsOthers(doc, paths[..k], step, p);
    }
    assert x == ex(d[p := e1], p);
    assert x.recorded ==> Attr(doc[p], "class").Some? by {
      assert d[p := e1][p] == e1;
    }
    assert PrepareWith(doc, paths, ex).doc[p] == step(d, p, k).elem by {
      ReplayAt(doc, paths, step, k);
    }
    assert step(d, p, k).elem == Finish(e1, x) by {
      PathStepOn(d, p, k, ex);
    }
  }

  /** The colours found by the first `k + 1` steps: those of the first `k`, then the `k`-th path's. */
  lemma PreparedFound(doc: seq<Element>, paths: seq<nat>, ex: ExtractFn, k: nat)
    requires WellFormed(doc) && InRange(doc, paths) && k < |paths|
    ensures InRange(doc, paths[..k]) && InRange(doc, paths[..k + 1])
    ensures PrepareWith(doc, paths[..k + 1], ex).found ==
              PrepareWith(doc, paths[..k], ex).found + Found(StepExtraction(doc, paths, ex, k))
  {
    var step := PathStep(ex);
    PathStepKeepsFields(ex);
    ReplayStep(doc, paths, step, k);
    assert InRange(doc, paths[..k]);
    var d := Before(doc, paths, k, step);
    var p := paths[k];
    var e1 := WithId(d[p], k);
    assert step(d, p, k).found == Found(ex(d[p := e1], p));
  }

  /** Every colour found by the first `m` steps was found by one of them. */
  lemma {:induction false} FoundBy(doc: seq<Element>, paths: seq<nat>, ex: ExtractFn, m: nat, c: string)
    returns (k: nat)
    requires WellFormed(doc) && InRange(doc, paths) && m <= |paths|
    requires InRange(doc, paths[..m]) && c in PrepareWith(doc, paths[..m], ex).found
    ensures k < m && c in Found(StepExtraction(doc, paths, ex, k))
  {
    if m == 0 {
      assert false;
    }
    assert InRange(doc, paths[..m - 1]);
    var earlier := c in PrepareWith(doc, paths[..m - 1], ex).found;
    assert earlier || c in Found(StepExtraction(doc, paths, ex, m - 1)) by {
      PreparedFound(doc, paths, ex, m - 1);
      assert paths[..m - 1 + 1] == paths[..m];
    }
    if earlier {
      k := FoundBy(doc, paths, ex, m - 1, c);
    } else {
      k := m - 1;
    }
  }

  /**
   * Every colour found is a real colour other than `none`, and the `k`-th
   * path, for some `k`, ends up carrying it in `data-color`.
   */
  lemma FoundIsPainted(doc: seq<Element>, paths: seq<nat>, ex: ExtractFn, c: string)
    returns (k: nat)
    requires WellFormed(doc) && InRange(doc, paths) && Increasing(paths)
    requires RecordsOnlyClassed(ex)
    requires c in PrepareWith(doc, paths, ex).found
    ensures c != "" && c != "none"
    ensures k < |paths| && Attr(PrepareWith(doc, paths, ex).doc[paths[k]], "data-color") == Some(c)
  {
    assert paths[..|paths|] == paths;
    k := FoundBy(doc, paths, ex, |paths|, c);
    var x := StepExtraction(doc, paths, ex, k);
    PreparedPath(doc, paths, ex, k);
    StepResult(doc[paths[k]], k, x);
  }

  // ---------------------------------------------------------------------
  // The preparation on a live document
  // ---------------------------------------------------------------------

  /** Appending at most one colour to the list the palette is built from. */
  lemma DistinctAppend(xs: seq<string>, f: seq<string>)
    requires |f| <= 1
    ensures Distinct(xs + f) == if |f| == 1 then PushIfNew(Distinct(xs), f[0]) else Distinct(xs)
  {
    if |f| == 1 {
      assert (xs + f)[..|xs|] == xs;
    } else {
      assert xs + f == xs;
    }
  }

  /** The id step: `area<index + 1>` unless the path already has a non-empty id. */
  method EnsureId(d: Document, p: nat, index: nat)
    requires d.Valid() && p < |d.elements|
    modifies d
    ensures d.Valid()
    ensures d.elements == old(d.elements)[p := WithId(old(d.elements)[p], index)]
  {
    var existingId := Attr(d.elements[p], "id");
    if !Truthy(existingId) {
      d.SetAttribute(p, "id", AreaId(index));
    }
  }

  /** The five outline writes. */
  method OutlineElement(d: Document, p: nat)
    requires d.Valid() && p < |d.elements|
    modifies d
    ensures d.Valid()
    ensures d.elements == old(d.elements)[p := Outline(old(d.elements)[p])]
  {
    d.SetAttribute(p, "fill", "none");
    d.SetAttribute(p, "fill-rule", "evenodd");
    d.SetAttribute(p, "stroke", "#000");
    d.SetAttribute(p, "stroke-width", "1");
    d.SetAttribute(p, "stroke-linejoin", "round");
  }

  /** The class writes: `data-original-class` unless already there, then no class. */
  method MoveClassElement(d: Document, p: nat)
    requires d.Valid() && p < |d.elements|
    modifies d
    ensures d.Valid()
    ensures d.elements == old(d.elements)[p := MoveClass(old(d.elements)[p])]
  {
    if Attr(d.elements[p], "class").Some? {
      if Attr(d.elements[p], "data-original-class").None? {
        d.SetAttribute(p, "data-original-class", Attr(d.elements[p], "class").value);
      }
      d.RemoveAttribute(p, "class");
    }
  }

  /** The stripping writes, one attribute at a time. */
  method StripPathElement(d: Document, p: nat)
    requires d.Valid() && p < |d.elements|
    modifies d
    ensures d.Valid()
    ensures d.elements == old(d.elements)[p := StripPath(old(d.elements)[p])]
  {
    OutlineElement(d, p);
    d.RemoveAttribute(p, "style");
    MoveClassElement(d, p);
  }

  /** `data-color` and the colour list, for the colour the extraction returned. */
  method KeepColor(d: Document, p: nat, originalColor: Option<string>, colors: seq<string>, ghost x: Extraction)
    returns (colors': seq<string>)
    requires d.Valid() && p < |d.elements| && originalColor == x.color
    modifies d
    ensures d.Valid()
    ensures d.elements == old(d.elements)[p := Paint(old(d.elements)[p], x)] &&
            colors' == if |Found(x)| == 1 then PushIfNew(colors, Found(x)[0]) else colors
  {
    colors' := colors;
    if Truthy(originalColor) && originalColor.value != "none" {
      d.SetAttribute(p, "data-color", originalColor.value);
      if originalColor.value !in colors' {
        colors' := colors' + [originalColor.value];
      }
    }
  }

  /** The per-path step, spelled out for a well-formed document. */
  lemma PathStepOn(doc: seq<Element>, p: nat, index: nat, ex: ExtractFn)
    requires WellFormed(doc) && p < |doc|
    ensures var e1 := WithId(doc[p], index);
            var x := ex(doc[p := e1], p);
            PathStep(ex)(doc, p, index) == Outcome(Finish(e1, x), Found(x))
  {
  }

  /** On a well-formed document the extraction function is `Extract` itself. */
  lemma ExtractInOn(doc: seq<Element>, p: nat, index: nat, probe: string -> string)
    requires WellFormed(doc) && p < |doc|
    ensures var d1 := doc[p := WithId(doc[p], index)];
            WellFormed(d1) && ExtractIn(probe)(d1, p) == Extract(d1, p, probe)
  {
    var d1 := doc[p := WithId(doc[p], index)];
    assert forall j :: 0 <= j < |d1| ==> d1[j].parent == doc[j].parent;
  }

  /**
   * The extraction on the live document, then `data-color` with the colour
   * pushed onto `colors` when it is new.
   */
  method ExtractAndKeep(d: Document, p: nat, probe: string -> string, colors: seq<string>)
    returns (colors': seq<string>)
    requires d.Valid() && p < |d.elements|
    modifies d
    ensures d.Valid()
    ensures var x := Extract(old(d.elements), p, probe);
            d.elements == old(d.elements)[p := Paint(Record(old(d.elements)[p], x), x)] &&
            colors' == if |Found(x)| == 1 then PushIfNew(colors, Found(x)[0]) else colors
  {
    ghost var doc := d.elements;
    ghost var x := Extract(doc, p, probe);
    var originalColor := ExtractColorFromElement(d, p, probe);
    ghost var e2 := Record(doc[p], x);
    if !x.recorded {
      UpdateSame(doc, p);
    }
    assert d.elements == doc[p := e2];
    colors' := KeepColor(d, p, originalColor, colors, x);
    UpdateTwice(doc, p, e2, Paint(e2, x));
  }

  /**
   * The body of the `forEach`: the step for the path at `p`, `index`-th
   * among the paths, on the live document, with its colour pushed onto
   * `colors` when it is new.
   */
  method PreparePath(d: Document, p: nat, index: nat, probe: string -> string, colors: seq<string>)
    returns (colors': seq<string>)
    requires d.Valid() && p < |d.elements|
    modifies d
    ensures d.Valid()
    ensures var e1 := WithId(old(d.elements)[p], index);
            var x := Extract(old(d.elements)[p := e1], p, probe);
            d.elements == old(d.elements)[p := Finish(e1, x)] &&
            colors' == if |Found(x)| == 1 then PushIfNew(colors, Found(x)[0]) else colors
  {
    ghost var doc := d.elements;
    ghost var e1 := WithId(doc[p], index);
    EnsureId(d, p, index);
    ghost var d1 := d.elements;
    ghost var x := Extract(d1, p, probe);
    colors' := ExtractAndKeep(d, p, probe, colors);
    ghost var e3 := Paint(Record(e1, x), x);
    UpdateTwice(doc, p, e1, e3);
    StripPathElement(d, p);
    UpdateTwice(doc, p, e3, StripPath(e3));
  }

  /** Writing an element back unchanged leaves the document as it was. */
  lemma UpdateSame(s: seq<Element>, p: nat)
    requires p < |s|
    ensures s[p := s[p]] == s
  {
  }

  /** Two writes to the same element leave only the second. */
  lemma UpdateTwice(s: seq<Element>, p: nat, a: Element, b: Element)
    requires p < |s|
    ensures s[p := a][p := b] == s[p := b]
  {
  }

  /**
   * The `forEach` over `querySelectorAll("path")`: afterwards the document
   * is the preparation of every path, and the colour list is the distinct
   * colours found, in the order first seen.
   */
  method ProcessPaths(d: Document, probe: string -> string) returns (uniqueColors: seq<string>)
    requires d.Valid()
    modifies d
    ensures d.Valid()
    ensures var r := PrepareAll(old(d.elements), Tagged(old(d.elements), "path"), probe);
            d.elements == r.doc && uniqueColors == Distinct(r.found)
  {
    ghost var doc0 := d.elements;
    var paths := Tagged(d.elements, "path");
    ghost var step := PathStep(ExtractIn(probe));
    PathStepKeepsFields(ExtractIn(probe));
    uniqueColors := [];
    var k := 0;
    while k < |paths|
      invariant 0 <= k <= |paths| && d.Valid()
      invariant InRange(doc0, paths[..k])
      invariant d.elements == Replay(doc0, paths[..k], step).doc
      invariant uniqueColors == Distinct(Replay(doc0, paths[..k], step).found)
    {
      ReplayStep(doc0, paths, step, k);
      ghost var prev := Replay(doc0, paths[..k], step);
      PathStepOn(prev.doc, paths[k], k, ExtractIn(probe));
      ExtractInOn(prev.doc, paths[k], k, probe);
      uniqueColors := PreparePath(d, paths[k], k, probe, uniqueColors);
      DistinctAppend(prev.found, step(prev.doc, paths[k], k).found);
      k := k + 1;
    }
    assert paths[..k] == paths;
  }
}
