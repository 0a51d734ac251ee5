/**
 * How the preparer finds the colour a path was drawn with.  The sources
 * are tried in a fixed order, each only while no colour is resolved yet:
 * the `fill` attribute, the first `fill:` declaration of the inline
 * `style`, the `.cls-N { ... fill: ... }` rule of the document's first
 * `<style>` element for the first `cls-N` class, and the `fill` of the
 * nearest ancestor below the `svg` element.  A value starting with `#` is
 * kept as written; anything else goes through the browser's colour probe,
 * whose `rgb(r, g, b)` answer becomes `#rrggbb`.
 */
module ColorExtraction {
  import opened JsValues
  import opened JsStrings
  import opened Colors
  import opened SvgDocument
  import opened Search

  /** A fill that names a colour: present, non-empty and not `none`. */
  predicate Resolved(o: Option<string>)
  {
    !Unresolved(o)
  }

  // ---------------------------------------------------------------------
  // Inline style: style.match(/fill:\s*([^;]+)/), group trimmed
  // ---------------------------------------------------------------------

  /** `fill:` at `i` with at least one character other than `;` after it. */
  predicate StyleDeclAt(s: string, i: nat)
  {
    i + 5 < |s| && s[i..i + 5] == "fill:" && s[i + 5] != ';'
  }

  /** Where the inline-style pattern can match. */
  function StyleDeclIn(s: string): nat -> bool
  {
    (i: nat) => StyleDeclAt(s, i)
  }

  /** The first `;` at or after `j`, or the end of `s`. */
  function SemicolonFrom(s: string, j: nat): (e: nat)
    requires j <= |s|
    ensures j <= e <= |s| && ';' !in s[j..e]
    ensures e < |s| ==> s[e] == ';'
    decreases |s| - j
  {
    if j == |s| || s[j] == ';' then j
    else
      var e := SemicolonFrom(s, j + 1);
      assert s[j..e] == [s[j]] + s[j + 1..e];
      e
  }

  /**
   * The inline style's fill: the text after the first matching `fill:` up
   * to the next `;`, trimmed.  The greedy `\s*` only moves white space out
   * of the group, and trimming removes it anyway.
   */
  function StyleFill(style: string): (v: Option<string>)
    ensures v.Some? <==> exists i :: StyleDeclAt(style, i)
    ensures v.Some? ==> ';' !in v.value
  {
    FirstWhereIsFirst(StyleDeclIn(style), 0, |style|);
    match FirstWhere(StyleDeclIn(style), 0, |style|)
    case None =>
      assert forall i: nat :: StyleDeclAt(style, i) ==> i < |style| && StyleDeclIn(style)(i);
      None
    case Some(i) =>
      var seg := style[i + 5..SemicolonFrom(style, i + 5)];
      TrimIsInfix(seg);
      Some(Trim(seg))
  }

  /** A style made of one `fill:` declaration gives its trimmed value. */
  lemma StyleFillOfDeclaration(v: string)
    requires |v| > 0 && v[0] != ';' && ';' !in v
    ensures StyleFill("fill:" + v) == Some(Trim(v))
  {
    var s := "fill:" + v;
    assert FirstWhere(StyleDeclIn(s), 0, |s|) == Some(0) by {
      assert s[0..5] == "fill:" && s[5] == v[0];
    }
    assert SemicolonFrom(s, 5) == |s| by {
      assert forall k :: 5 <= k < |s| ==> s[k] == v[k - 5];
    }
    assert s[5..|s|] == v;
  }

  // ---------------------------------------------------------------------
  // Class number: className.match(/cls-(\d+)/)[0]
  // ---------------------------------------------------------------------

  /** `cls-` followed by a decimal digit at `p`. */
  predicate ClassRefAt(s: string, p: nat)
  {
    p + 4 < |s| && s[p..p + 4] == "cls-" && IsDecDigit(s[p + 4])
  }

  /** Where the class-number pattern can match. */
  function ClassRefIn(s: string): nat -> bool
  {
    (p: nat) => ClassRefAt(s, p)
  }

  /** The first `cls-` class reference with all of its digits, such as `cls-14`. */
  function ClassNumber(className: string): (r: Option<string>)
    ensures r.Some? <==> exists q :: ClassRefAt(className, q)
    ensures r.Some? ==> |r.value| > 4 && r.value[..4] == "cls-" && AllDecDigits(r.value[4..])
  {
    FirstWhereIsFirst(ClassRefIn(className), 0, |className|);
    match FirstWhere(ClassRefIn(className), 0, |className|)
    case None =>
      assert forall q: nat :: ClassRefAt(className, q) ==> q < |className| && ClassRefIn(className)(q);
      None
    case Some(p) =>
      var n := DigitRun(className, p + 4);
      var r := className[p..p + 4 + n];
      assert r[4..] == className[p + 4..p + 4 + n];
      Some(r)
  }

  // ---------------------------------------------------------------------
  // Class rule: /\.cls-N\s*{[^}]*fill:\s*([^;\s]+)/i
  // ---------------------------------------------------------------------

  /** Two strings equal once ASCII letters are folded to lower case. */
  predicate EqualIgnoringCase(a: string, b: string)
  {
    |a| == |b| && forall k :: 0 <= k < |a| ==> ToLowerChar(a[k]) == ToLowerChar(b[k])
  }

  /** `t` occurs at `i` in `s` when ASCII letters are compared without regard to case. */
  predicate MatchesIgnoringCase(s: string, i: nat, t: string)
  {
    i + |t| <= |s| && EqualIgnoringCase(s[i..i + |t|], t)
  }

  /** The first `}` at or after `j`, or the end of `s`. */
  function CloseBraceFrom(s: string, j: nat): (e: nat)
    requires j <= |s|
    ensures j <= e <= |s| && '}' !in s[j..e]
    ensures e < |s| ==> s[e] == '}'
    decreases |s| - j
  {
    if j == |s| || s[j] == '}' then j
    else
      var e := CloseBraceFrom(s, j + 1);
      assert s[j..e] == [s[j]] + s[j + 1..e];
      e
  }

  /** A character the value group `[^;\s]` accepts. */
  predicate ValueChar(c: char)
  {
    c != ';' && !IsSpace(c)
  }

  predicate AllValueChars(v: string)
  {
    forall k :: 0 <= k < |v| ==> ValueChar(v[k])
  }

  /** The length of the run of value characters starting at `j`. */
  function ValueRun(s: string, j: nat): (n: nat)
    requires j <= |s|
    ensures j + n <= |s| && AllValueChars(s[j..j + n])
    ensures j + n < |s| ==> !ValueChar(s[j + n])
    decreases |s| - j
  {
    if j < |s| && ValueChar(s[j]) then
      var n := 1 + ValueRun(s, j + 1);
      assert s[j..j + n] == [s[j]] + s[j + 1..j + n];
      n
    else 0
  }

  /** `fill:\s*([^;\s]+)` at `q`, ignoring case: the group when it matches. */
  function DeclValue(s: string, q: nat): (v: Option<string>)
    ensures v.Some? ==> |v.value| > 0 && AllValueChars(v.value)
  {
    if !MatchesIgnoringCase(s, q, "fill:") then None
    else
      var w := q + 5 + SpaceRun(s, q + 5);
      var n := ValueRun(s, w);
      if n == 0 then None else Some(s[w..w + n])
  }

  /** Where a fill declaration starts. */
  function DeclIn(s: string): nat -> bool
  {
    (q: nat) => DeclValue(s, q).Some?
  }

  /** `\.cls-N\s*{` anchored at `p`: the position of the opening brace. */
  function RuleOpen(s: string, cls: string, p: nat): (b: Option<nat>)
    ensures b.Some? ==> p + |cls| < b.value < |s| && s[b.value] == '{'
  {
    if !(p < |s| && s[p] == '.' && MatchesIgnoringCase(s, p + 1, cls)) then None
    else
      var b0 := p + 1 + |cls|;
      var b := b0 + SpaceRun(s, b0);
      if b >= |s| || s[b] != '{' then None else Some(b)
  }

  /** The whole rule pattern anchored at `p`: the value of the block's last fill declaration. */
  function RuleAt(s: string, cls: string, p: nat): (v: Option<string>)
    ensures v.Some? ==> RuleOpen(s, cls, p).Some?
    ensures v.Some? ==> |v.value| > 0 && AllValueChars(v.value)
  {
    match RuleOpen(s, cls, p)
    case None => None
    case Some(b) =>
      // the greedy `[^}]*` gives characters back from the right, so the
      // declaration used is the last one before the closing brace
      match LastWhere(DeclIn(s), b + 1, CloseBraceFrom(s, b + 1))
      case None => None
      case Some(q) => DeclValue(s, q)
  }

  /** Where the class rule pattern matches. */
  function RuleIn(s: string, cls: string): nat -> bool
  {
    (p: nat) => RuleAt(s, cls, p).Some?
  }

  /** The fill a stylesheet gives to class `cls`, as the class rule pattern reads it. */
  function RuleFill(styleText: string, cls: string): (v: Option<string>)
    ensures v.Some? <==> exists p :: 0 <= p < |styleText| && RuleIn(styleText, cls)(p)
    ensures v.Some? ==> |v.value| > 0 && ';' !in v.value && NoSpace(v.value)
  {
    FirstWhereIsFirst(RuleIn(styleText, cls), 0, |styleText|);
    match FirstWhere(RuleIn(styleText, cls), 0, |styleText|)
    case None => None
    case Some(p) => RuleAt(styleText, cls, p)
  }

  /** A rule whose fill is not ended by `;`, the value keeps the closing brace. */
  const BRACE_RULE: string := ".cls-1{fill:red}"

  /** The class rule pattern reads `red}` as the fill of `cls-1` in `BRACE_RULE`. */
  lemma RuleFillKeepsBrace()
    ensures RuleFill(BRACE_RULE, "cls-1") == Some("red}")
  {
    BraceRuleOpens();
    BraceRuleCloses();
    BraceRuleDeclaration();
    BraceRuleNoLaterDeclaration();
    LastWhereSkips(DeclIn(BRACE_RULE), 7, 8, 15);
    assert LastWhere(DeclIn(BRACE_RULE), 7, 15) == Some(7);
    assert RuleAt(BRACE_RULE, "cls-1", 0) == Some("red}");
    assert FirstWhere(RuleIn(BRACE_RULE, "cls-1"), 0, |BRACE_RULE|) == Some(0);
  }

  lemma BraceRuleOpens()
    ensures RuleOpen(BRACE_RULE, "cls-1", 0) == Some(6)
  {
    var s := BRACE_RULE;
    assert s[0] == '.' && |"cls-1"| == 5;
    assert s[1..6] == "cls-1";
    assert s[6] == '{' && !IsSpace(s[6]);
    assert SpaceRun(s, 6) == 0;
  }

  lemma BraceRuleCloses()
    ensures CloseBraceFrom(BRACE_RULE, 7) == 15
  {
    var s := BRACE_RULE;
    assert s[15] == '}' && '}' !in s[7..15];
  }

  lemma BraceRuleDeclaration()
    ensures DeclValue(BRACE_RULE, 7) == Some("red}")
  {
    var s := BRACE_RULE;
    assert s[7..12] == "fill:";
    assert s[12] == 'r' && !IsSpace(s[12]);
    assert SpaceRun(s, 12) == 0;
    assert ValueRun(s, 12) == 4;
    assert s[12..16] == "red}";
  }

  lemma BraceRuleNoLaterDeclaration()
    ensures forall q :: 8 <= q <= 15 ==> !DeclIn(BRACE_RULE)(q)
  {
    var s := BRACE_RULE;
    forall q | 8 <= q <= 15
      ensures DeclValue(s, q).None?
    {
      if q + 5 <= |s| {
        assert s[q..q + 5][0] == s[q];
        assert ToLowerChar(s[q]) != ToLowerChar("fill:"[0]);
      }
    }
  }

  // ---------------------------------------------------------------------
  // Ancestors
  // ---------------------------------------------------------------------

  /**
   * The fill of the nearest ancestor, starting at `j`, whose fill is
   * resolved; the walk gives up at the root's missing parent and at an
   * element tagged `svg`.
   */
  function AncestorFill(doc: seq<Element>, j: int): (v: Option<string>)
    requires WellFormed(doc) && -1 <= j < |doc|
    ensures v.Some? ==> Resolved(v)
    decreases j + 1
  {
    if j < 0 || doc[j].tag == "svg" then None
    else
      var f := Attr(doc[j], "fill");
      if Resolved(f) then f else AncestorFill(doc, doc[j].parent)
  }

  /** The walk reads only tags, parents and fills. */
  lemma {:induction false} AncestorFillSameFills(d1: seq<Element>, d2: seq<Element>, j: int)
    requires WellFormed(d1) && SameShape(d1, d2) && -1 <= j < |d1|
    requires forall k :: 0 <= k < |d1| ==> Attr(d1[k], "fill") == Attr(d2[k], "fill")
    ensures WellFormed(d2) && AncestorFill(d1, j) == AncestorFill(d2, j)
    decreases j + 1
  {
    assert WellFormed(d2) by {
      forall i | 0 <= i < |d2|
        ensures -1 <= d2[i].parent < i && (i > 0 ==> d2[i].parent >= 0)
      {
        assert d2[i].parent == d1[i].parent;
      }
    }
    if j >= 0 && d1[j].tag != "svg" && !Resolved(Attr(d1[j], "fill")) {
      AncestorFillSameFills(d1, d2, d1[j].parent);
    }
  }

  // ---------------------------------------------------------------------
  // Normalisation
  // ---------------------------------------------------------------------

  /**
   * A `#` value as written; otherwise the probe's computed colour, with
   * `rgb(r, g, b)` rewritten as `#rrggbb`, or the value itself when the
   * probe gives nothing.
   */
  function NormalizeFill(fill: string, probe: string -> string): string
  {
    if |fill| > 0 && fill[0] == '#' then fill
    else
      var computed := probe(fill);
      if computed != "" then NormalizeComputed(computed) else fill
  }

  /** A `#` value is kept exactly, letter case included. */
  lemma NormalizeFillKeepsHash(fill: string, probe: string -> string)
    requires |fill| > 0 && fill[0] == '#'
    ensures NormalizeFill(fill, probe) == fill
  {
  }

  /** A named colour the probe reports as an opaque `rgb(...)` becomes its lower-case `#rrggbb` notation. */
  lemma NormalizeFillOfProbedColor(fill: string, probe: string -> string, c: Rgb)
    requires !(|fill| > 0 && fill[0] == '#')
    requires probe(fill) == RgbFunctionText(Channels(c.r, c.g, c.b))
    ensures NormalizeFill(fill, probe) == HexNotation(c)
    ensures HexToRgb(NormalizeFill(fill, probe)) == Some(c)
  {
    NormalizeComputedIsHexNotation(c);
  }

  // ---------------------------------------------------------------------
  // The whole chain
  // ---------------------------------------------------------------------

  /** The colour found for an element, and whether the class rule supplied it (which records the class). */
  datatype Extraction = Extraction(color: Option<string>, recorded: bool)

  /** The inline style's fill, when there is a style to read. */
  function StyleCandidate(e: Element): Option<string>
  {
    var style := Attr(e, "style");
    if Truthy(style) then StyleFill(style.value) else None
  }

  /** The class rule's fill, when there is a class, a `cls-N` in it and a `<style>` element. */
  function RuleCandidate(doc: seq<Element>, e: Element): (r: Option<string>)
    ensures r.Some? ==> Truthy(Attr(e, "class")) && ClassNumber(Attr(e, "class").value).Some?
  {
    var cls := Attr(e, "class");
    if !Truthy(cls) then None
    else
      match FirstBelowRoot(doc, "style", 1)
      case None => None
      case Some(k) =>
        match ClassNumber(cls.value)
        case None => None
        case Some(cn) => RuleFill(doc[k].text, cn)
  }

  /**
   * The chain over the four candidates: each later source is consulted
   * only while the fill so far is unresolved, and what is left at the end
   * is normalised when it is a non-empty string.
   */
  function Pick(fill: Option<string>, style: Option<string>, rule: Option<string>, up: Option<string>,
                probe: string -> string): Extraction
  {
    var f1 := if Unresolved(fill) && style.Some? then style else fill;
    var r := if Unresolved(f1) then rule else None;
    var f2 := if r.Some? then r else f1;
    var f3 := if Unresolved(f2) && up.Some? then up else f2;
    Extraction(if Truthy(f3) then Some(NormalizeFill(f3.value, probe)) else f3, r.Some?)
  }

  /** `extractColorFromElement` for the element at `i`. */
  function Extract(doc: seq<Element>, i: nat, probe: string -> string): (x: Extraction)
    requires WellFormed(doc) && i < |doc|
    ensures x.recorded ==> Truthy(Attr(doc[i], "class"))
  {
    Pick(Attr(doc[i], "fill"), StyleCandidate(doc[i]), RuleCandidate(doc, doc[i]), AncestorFill(doc, doc[i].parent), probe)
  }

  /**
   * The sources are tried in order, and the first one that names a colour
   * gives the colour, normalised.
   */
  lemma ExtractPrecedence(doc: seq<Element>, i: nat, probe: string -> string)
    requires WellFormed(doc) && i < |doc|
    ensures var fill := Attr(doc[i], "fill");
            Resolved(fill) ==> Extract(doc, i, probe).color == Some(NormalizeFill(fill.value, probe))
    ensures var style := StyleCandidate(doc[i]);
            Unresolved(Attr(doc[i], "fill")) && Resolved(style) ==>
              Extract(doc, i, probe).color == Some(NormalizeFill(style.value, probe))
    ensures var rule := RuleCandidate(doc, doc[i]);
            Unresolved(Attr(doc[i], "fill")) && !Resolved(StyleCandidate(doc[i])) && Resolved(rule) ==>
              Extract(doc, i, probe).color == Some(NormalizeFill(rule.value, probe))
    ensures var up := AncestorFill(doc, doc[i].parent);
            Unresolved(Attr(doc[i], "fill")) && !Resolved(StyleCandidate(doc[i])) &&
            !Resolved(RuleCandidate(doc, doc[i])) && up.Some? ==>
              Extract(doc, i, probe).color == Some(NormalizeFill(up.value, probe))
  {
  }

  /** The class is recorded exactly when fill and style left the colour open and the class rule matched. */
  lemma ExtractRecordsOnlyForRule(doc: seq<Element>, i: nat, probe: string -> string)
    requires WellFormed(doc) && i < |doc|
    ensures Extract(doc, i, probe).recorded <==>
              Unresolved(Attr(doc[i], "fill")) && !Resolved(StyleCandidate(doc[i])) && RuleCandidate(doc, doc[i]).Some?
  {
  }

  /** A fill of `none` with nothing else to go on is handed to the probe, not dropped. */
  lemma ExtractNoneGoesToProbe(doc: seq<Element>, i: nat, probe: string -> string)
    requires WellFormed(doc) && i < |doc|
    requires Attr(doc[i], "fill") == Some("none")
    requires StyleCandidate(doc[i]).None? && RuleCandidate(doc, doc[i]).None? && AncestorFill(doc, doc[i].parent).None?
    ensures Extract(doc, i, probe) == Extraction(Some(NormalizeFill("none", probe)), false)
  {
  }

  /**
   * The ancestor walk of `extractColorFromElement`: from `start` up to, but
   * not including, the `svg` element, the first fill that is neither empty
   * nor `none`.
   */
  method NearestAncestorFill(d: Document, start: int) returns (fill: Option<string>)
    requires d.Valid() && -1 <= start < |d.elements|
    ensures fill == AncestorFill(d.elements, start)
  {
    fill := None;
    var parent := start;
    while parent >= 0 && d.elements[parent].tag != "svg"
      invariant -1 <= parent < |d.elements|
      invariant AncestorFill(d.elements, parent) == AncestorFill(d.elements, start)
      decreases parent + 1
    {
      var parentFill := Attr(d.elements[parent], "fill");
      if Truthy(parentFill) && parentFill.value != "none" {
        fill := parentFill;
        break;
      }
      parent := d.elements[parent].parent;
    }
  }

  /**
   * `extractColorFromElement` on a live document: tries the sources in
   * order, records the class as `data-original-class` when the class rule
   * supplied the fill, and normalises what it found.
   */
  method ExtractColorFromElement(d: Document, i: nat, probe: string -> string) returns (color: Option<string>)
    requires d.Valid() && i < |d.elements|
    modifies d
    ensures d.Valid() && SameShape(old(d.elements), d.elements)
    ensures color == Extract(old(d.elements), i, probe).color
    ensures d.elements == if Extract(old(d.elements), i, probe).recorded
                          then old(d.elements)[i := SetAttr(old(d.elements)[i], "data-original-class", Attr(old(d.elements)[i], "class").value)]
                          else old(d.elements)
  {
    ghost var doc := d.elements;
    var e := d.elements[i];
    var fill := Attr(e, "fill");
    if Unresolved(fill) {
      var fillMatch := StyleCandidate(e);
      if fillMatch.Some? {
        fill := fillMatch;
      }
    }
    var recorded := false;
    if Unresolved(fill) {
      var match_ := RuleCandidate(d.elements, e);
      if match_.Some? {
        fill := match_;
        d.SetAttribute(i, "data-original-class", Attr(e, "class").value);
        recorded := true;
      }
    }
    if Unresolved(fill) {
      assert forall k :: 0 <= k < |doc| ==> Attr(doc[k], "fill") == Attr(d.elements[k], "fill");
      AncestorFillSameFills(doc, d.elements, e.parent);
      var parentFill := NearestAncestorFill(d, e.parent);
      if parentFill.Some? {
        fill := parentFill;
      }
    }
    color := if Truthy(fill) then Some(NormalizeFill(fill.value, probe)) else fill;
    assert Extract(doc, i, probe) == Extraction(color, recorded);
  }
}
