/**
 * Colour palettes: the default palette both canvases start from, the
 * ordered de-duplication that builds a palette from the colours found in a
 * drawing, and the fallback a page applies when nothing was found.
 */
module Palettes {
  import opened JsValues

  /** The palette both canvases use when none is passed in. */
  const DEFAULT_PALETTE: seq<string> := [
    "#196F3D", "#7FBA00", "#3498DB", "#C0392B", "#FF5733",
    "#F1C40F", "#1F3A93", "#9B59B6", "#5D6D7E", "#935116"
  ]

  predicate NoDuplicates<T(==)>(s: seq<T>)
  {
    forall i, j :: 0 <= i < j < |s| ==> s[i] != s[j]
  }

  /** `if (!list.includes(c)) list.push(c)`. */
  function PushIfNew(list: seq<string>, c: string): seq<string>
  {
    if c in list then list else list + [c]
  }

  /** The list a run of `PushIfNew` over `xs` builds from an empty list. */
  function Distinct(xs: seq<string>): seq<string>
  {
    if |xs| == 0 then [] else PushIfNew(Distinct(xs[..|xs| - 1]), xs[|xs| - 1])
  }

  /** The distinct list holds each colour of the input once and nothing else. */
  lemma {:induction false} DistinctMembers(xs: seq<string>)
    ensures NoDuplicates(Distinct(xs))
    ensures forall c :: c in Distinct(xs) <==> c in xs
  {
    if |xs| > 0 {
      var init := xs[..|xs| - 1];
      DistinctMembers(init);
      assert xs == init + [xs[|xs| - 1]];
    }
  }

  lemma IndexOfExtend(p: seq<string>, x: string, y: string)
    ensures y in p ==> IndexOf(p + [x], y) == IndexOf(p, y)
    ensures x !in p ==> IndexOf(p + [x], x) == |p|
  {
    var q := p + [x];
    if y in p {
      var k := IndexOf(p, y);
      assert q[k] == y;
      assert forall j :: 0 <= j < k ==> q[j] == p[j];
    }
    if x !in p {
      assert q[|p|] == x;
      assert forall j :: 0 <= j < |p| ==> q[j] == p[j];
    }
  }

  /**
   * The distinct list is in first-seen order: an earlier entry first occurs
   * earlier in the input.
   */
  lemma {:induction false} DistinctFirstSeenOrder(xs: seq<string>)
    ensures forall i, j :: 0 <= i < j < |Distinct(xs)| ==>
              IndexOf(xs, Distinct(xs)[i]) < IndexOf(xs, Distinct(xs)[j])
  {
    if |xs| > 0 {
      var init, x := xs[..|xs| - 1], xs[|xs| - 1];
      assert xs == init + [x];
      DistinctFirstSeenOrder(init);
      DistinctMembers(init);
      var d0 := Distinct(init);
      var d := Distinct(xs);
      forall i, j | 0 <= i < j < |d|
        ensures IndexOf(xs, d[i]) < IndexOf(xs, d[j])
      {
        IndexOfExtend(init, x, d[i]);
        IndexOfExtend(init, x, d[j]);
        if j == |d0| {
          assert d[i] in init;
          assert IndexOf(init, d[i]) < |init|;
        }
      }
    }
  }

  /** What a canvas receives as its `palette` prop. */
  datatype PaletteProp = DefaultPalette | Supplied(colors: seq<string>)

  /** `colors.length > 0 ? colors : undefined`. */
  function PaletteFallback(colors: seq<string>): (p: PaletteProp)
    ensures p.DefaultPalette? <==> |colors| == 0
    ensures p.Supplied? ==> p.colors == colors
  {
    if |colors| > 0 then Supplied(colors) else DefaultPalette
  }

  /** The palette a canvas starts with: the prop, or `DEFAULT_PALETTE` when none was given. */
  function InitialPalette(p: PaletteProp): seq<string>
  {
    match p
    case DefaultPalette => DEFAULT_PALETTE
    case Supplied(colors) => colors
  }

  /** A page that found no colours leaves the canvas on the default palette; otherwise it uses exactly the colours found. */
  lemma PaletteFallbackStartsCanvas(colors: seq<string>)
    ensures |colors| == 0 ==> InitialPalette(PaletteFallback(colors)) == DEFAULT_PALETTE
    ensures |colors| > 0 ==> InitialPalette(PaletteFallback(colors)) == colors
  {
  }
}
