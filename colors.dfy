/**
 * Colour notations: the `#rrggbb` parser the raster canvas uses before a
 * fill (`hexToRgb`) and the `rgb(r, g, b)` to `#rrggbb` conversion the SVG
 * preparation applies to a browser-computed colour.
 */
module Colors {
  import opened JsValues
  import opened JsStrings

  datatype Rgb = Rgb(r: byte, g: byte, b: byte)

  /** The two digits `hi lo` read as one byte. */
  function ByteOf(hi: char, lo: char): byte
    requires IsHexDigit(hi) && IsHexDigit(lo)
  {
    16 * HexValue(hi) + HexValue(lo)
  }

  /** The six digits after the optional `#`, when the text has that shape. */
  function HexDigitsOf(hex: string): string
  {
    if |hex| == 7 && hex[0] == '#' then hex[1..] else hex
  }

  predicate SixHexDigits(d: string)
  {
    |d| == 6 && forall i :: 0 <= i < 6 ==> IsHexDigit(d[i])
  }

  /**
   * `hexToRgb`: an optional `#` and exactly three pairs of hexadecimal
   * digits, letters in either case; anything else is `null`.
   */
  function HexToRgb(hex: string): (c: Option<Rgb>)
    ensures c.Some? <==> SixHexDigits(HexDigitsOf(hex))
  {
    var d := HexDigitsOf(hex);
    if SixHexDigits(d) then
      Some(Rgb(ByteOf(d[0], d[1]), ByteOf(d[2], d[3]), ByteOf(d[4], d[5])))
    else None
  }

  /** A byte as two lower-case hexadecimal digits, high digit first. */
  function ByteDigits(n: byte): (d: string)
    ensures |d| == 2 && IsHexDigit(d[0]) && IsHexDigit(d[1])
    ensures ByteOf(d[0], d[1]) == n
  {
    [HexChar(n / 16), HexChar(n % 16)]
  }

  /** The lower-case six-digit form of a colour. */
  function HexDigits(c: Rgb): (d: string)
    ensures SixHexDigits(d)
  {
    ByteDigits(c.r) + ByteDigits(c.g) + ByteDigits(c.b)
  }

  /** `#rrggbb` as the colour pickers and palettes write it. */
  function HexNotation(c: Rgb): string
  {
    "#" + HexDigits(c)
  }

  /** Writing a colour as `#rrggbb` (or without the `#`) and parsing it gives the colour back. */
  lemma HexToRgbOfNotation(c: Rgb)
    ensures HexToRgb(HexNotation(c)) == Some(c)
    ensures HexToRgb(HexDigits(c)) == Some(c)
  {
    var d := HexDigits(c);
    assert HexDigitsOf(HexNotation(c)) == d;
    assert HexDigitsOf(d) == d;
    assert d[0..2] == ByteDigits(c.r) && d[2..4] == ByteDigits(c.g) && d[4..6] == ByteDigits(c.b);
  }

  /** The digits a parsed pair writes back are the pair in lower case. */
  lemma ByteDigitsOfPair(hi: char, lo: char)
    requires IsHexDigit(hi) && IsHexDigit(lo)
    ensures ByteDigits(ByteOf(hi, lo)) == [ToLowerChar(hi), ToLowerChar(lo)]
  {
    var n := ByteOf(hi, lo);
    assert n / 16 == HexValue(hi) && n % 16 == HexValue(lo);
    HexCharOfValue(hi);
    HexCharOfValue(lo);
  }

  /**
   * Conversely, whatever `hexToRgb` accepts is the notation of the colour it
   * returns, up to the case of the letters.
   */
  lemma HexToRgbAcceptsOnlyNotations(hex: string)
    requires HexToRgb(hex).Some?
    ensures ToLower(HexDigitsOf(hex)) == HexDigits(HexToRgb(hex).value)
  {
    var d := HexDigitsOf(hex);
    ByteDigitsOfPair(d[0], d[1]);
    ByteDigitsOfPair(d[2], d[3]);
    ByteDigitsOfPair(d[4], d[5]);
  }

  /** `toString(16).padStart(2, "0")` on a byte writes the same two digits. */
  lemma Hex2IsByteDigits(n: byte)
    ensures Hex2(n) == ByteDigits(n)
  {
    Hex2Digits(n);
  }

  // ---------------------------------------------------------------------
  // rgb(r, g, b)
  // ---------------------------------------------------------------------

  /** The length of the run of decimal digits starting at `i`. */
  function DigitRun(s: string, i: nat): (n: nat)
    requires i <= |s|
    ensures i + n <= |s| && AllDecDigits(s[i..i + n])
    ensures i + n < |s| ==> !IsDecDigit(s[i + n])
    decreases |s| - i
  {
    if i < |s| && IsDecDigit(s[i]) then
      var n := 1 + DigitRun(s, i + 1);
      assert s[i..i + n] == [s[i]] + s[i + 1..i + n];
      n
    else 0
  }

  datatype Channels = Channels(r: nat, g: nat, b: nat)

  /** A number read by `parseInt` and the position after the character that ends it. */
  datatype Read = Read(n: nat, next: nat)

  /**
   * `(\d+)` at `i` followed by `stop`.  A digit is never `stop`, so the
   * greedy run has one way to match.
   */
  function Field(s: string, i: nat, stop: char): (f: Option<Read>)
    requires i <= |s|
    ensures f.Some? ==> i < f.value.next <= |s|
  {
    var n := DigitRun(s, i);
    if n == 0 || i + n == |s| || s[i + n] != stop then None
    else Some(Read(ParseDecimal(s[i..i + n]), i + n + 1))
  }

  /** `s` starts with `rgb(`. */
  predicate RgbPrefix(s: string)
  {
    |s| >= 4 && s[..4] == "rgb("
  }

  /**
   * `s.match(/^rgb\((\d+),\s*(\d+),\s*(\d+)\)$/)` with its three groups read
   * by `parseInt`.  A digit is never white space, so each greedy `\s*` has
   * one way to match too.
   */
  function ParseRgbFunction(s: string): Option<Channels>
  {
    if !RgbPrefix(s) then None
    else
      var f0 := Field(s, 4, ',');
      if f0.None? then None
      else
        var f1 := Field(s, f0.value.next + SpaceRun(s, f0.value.next), ',');
        if f1.None? then None
        else
          var f2 := Field(s, f1.value.next + SpaceRun(s, f1.value.next), ')');
          if f2.None? || f2.value.next != |s| then None
          else Some(Channels(f0.value.n, f1.value.n, f2.value.n))
  }

  /** The text a browser reports for an opaque computed colour. */
  function RgbFunctionText(c: Channels): string
  {
    "rgb(" + NatToDecimal(c.r) + ", " + NatToDecimal(c.g) + ", " + NatToDecimal(c.b) + ")"
  }

  /** `` `#${r}${g}${b}` `` with each channel written by `toString(16).padStart(2, "0")`. */
  function ChannelsToHex(c: Channels): string
  {
    "#" + Hex2(c.r) + Hex2(c.g) + Hex2(c.b)
  }

  /**
   * The colour text a computed `rgb(...)` value turns into: `#rrggbb` when it
   * matches, the computed text itself otherwise.
   */
  function NormalizeComputed(computed: string): (r: string)
  {
    match ParseRgbFunction(computed)
    case Some(c) => ChannelsToHex(c)
    case None => computed
  }

  lemma DigitRunOfDecimal(s: string, i: nat, t: string)
    requires i + |t| <= |s| && s[i..i + |t|] == t && AllDecDigits(t)
    requires i + |t| < |s| ==> !IsDecDigit(s[i + |t|])
    ensures DigitRun(s, i) == |t|
    decreases |t|
  {
    if |t| > 0 {
      assert s[i] == t[0];
      assert s[i + 1..i + |t|] == t[1..];
      DigitRunOfDecimal(s, i + 1, t[1..]);
    }
  }

  /** `String(v)` followed by `stop` at `i` is read back as the field `v`. */
  lemma FieldOfDecimal(s: string, i: nat, v: nat, stop: char, next: nat)
    requires !IsDecDigit(stop) && next == i + |NatToDecimal(v)| + 1
    requires next <= |s| && s[i..next - 1] == NatToDecimal(v) && s[next - 1] == stop
    ensures Field(s, i, stop) == Some(Read(v, next))
  {
    DigitRunOfDecimal(s, i, NatToDecimal(v));
    ParseNatToDecimal(v);
  }

  /** One blank before a digit is a white-space run of length one. */
  lemma OneBlank(s: string, j: nat)
    requires j + 1 < |s| && s[j] == ' ' && IsDecDigit(s[j + 1])
    ensures SpaceRun(s, j) == 1
  {
  }

  /** Where the parts of `rgb(R, G, B)` sit. */
  lemma RgbTextLayout(c: Channels)
    ensures var s := RgbFunctionText(c);
            var R, G, B := NatToDecimal(c.r), NatToDecimal(c.g), NatToDecimal(c.b);
            var j := 4 + |R| + 1;
            var k := j + 1 + |G| + 1;
            |s| == k + 1 + |B| + 1 && s[..4] == "rgb("
            && s[4..4 + |R|] == R && s[4 + |R|] == ','
            && s[j] == ' ' && s[j + 1..j + 1 + |G|] == G && s[j + 1 + |G|] == ','
            && s[k] == ' ' && s[k + 1..k + 1 + |B|] == B && s[k + 1 + |B|] == ')'
  {
  }

  /** The first channel of `rgb(R, G, B)` and the blank after its comma. */
  lemma RgbTextRed(c: Channels, s: string, j: nat)
    requires s == RgbFunctionText(c) && j == 4 + |NatToDecimal(c.r)| + 1
    ensures RgbPrefix(s) && Field(s, 4, ',') == Some(Read(c.r, j))
    ensures j < |s| && SpaceRun(s, j) == 1
  {
    var R, G, B := NatToDecimal(c.r), NatToDecimal(c.g), NatToDecimal(c.b);
    RgbTextLayout(c);
    FieldOfDecimal(s, 4, c.r, ',', j);
    assert s[j + 1] == G[0];
    OneBlank(s, j);
  }

  /** The second channel of `rgb(R, G, B)` and the blank after its comma. */
  lemma RgbTextGreen(c: Channels, s: string, j: nat, k: nat)
    requires s == RgbFunctionText(c) && j == 4 + |NatToDecimal(c.r)| + 1
    requires k == j + 1 + |NatToDecimal(c.g)| + 1
    ensures k < |s| && Field(s, j + 1, ',') == Some(Read(c.g, k)) && SpaceRun(s, k) == 1
  {
    var R, G, B := NatToDecimal(c.r), NatToDecimal(c.g), NatToDecimal(c.b);
    RgbTextLayout(c);
    FieldOfDecimal(s, j + 1, c.g, ',', k);
    assert s[k + 1] == B[0];
    OneBlank(s, k);
  }

  /** The third channel of `rgb(R, G, B)` ends the text. */
  lemma RgbTextBlue(c: Channels, s: string, k: nat)
    requires s == RgbFunctionText(c)
    requires k == 4 + |NatToDecimal(c.r)| + 1 + 1 + |NatToDecimal(c.g)| + 1
    ensures Field(s, k + 1, ')') == Some(Read(c.b, |s|))
  {
    var R, G, B := NatToDecimal(c.r), NatToDecimal(c.g), NatToDecimal(c.b);
    RgbTextLayout(c);
    var next := k + 1 + |B| + 1;
    assert next == |s|;
    FieldOfDecimal(s, k + 1, c.b, ')', next);
  }

  /** A computed colour in the browser's `rgb(r, g, b)` form is read back channel by channel. */
  lemma ParseRgbFunctionOfText(c: Channels)
    ensures ParseRgbFunction(RgbFunctionText(c)) == Some(c)
  {
    var s := RgbFunctionText(c);
    var j := 4 + |NatToDecimal(c.r)| + 1;
    var k := j + 1 + |NatToDecimal(c.g)| + 1;
    RgbTextRed(c, s, j);
    RgbTextGreen(c, s, j, k);
    RgbTextBlue(c, s, k);
    ParseRgbFunctionOfFields(s, j, k, c);
  }

  lemma ParseRgbFunctionOfFields(s: string, j: nat, k: nat, c: Channels)
    requires RgbPrefix(s)
    requires Field(s, 4, ',') == Some(Read(c.r, j))
    requires j < |s| && SpaceRun(s, j) == 1
    requires Field(s, j + 1, ',') == Some(Read(c.g, k))
    requires k < |s| && SpaceRun(s, k) == 1
    requires Field(s, k + 1, ')') == Some(Read(c.b, |s|))
    ensures ParseRgbFunction(s) == Some(c)
  {
    var f0 := Field(s, 4, ',');
    assert f0.value.next + SpaceRun(s, f0.value.next) == j + 1;
    var f1 := Field(s, f0.value.next + SpaceRun(s, f0.value.next), ',');
    assert f1 == Some(Read(c.g, k));
    assert f1.value.next + SpaceRun(s, f1.value.next) == k + 1;
    var f2 := Field(s, f1.value.next + SpaceRun(s, f1.value.next), ')');
    assert f2 == Some(Read(c.b, |s|));
  }

  /**
   * A computed opaque colour normalises to the `#rrggbb` notation of the
   * same colour, which `hexToRgb` reads back.
   */
  lemma NormalizeComputedIsHexNotation(c: Rgb)
    ensures NormalizeComputed(RgbFunctionText(Channels(c.r, c.g, c.b))) == HexNotation(c)
    ensures HexToRgb(NormalizeComputed(RgbFunctionText(Channels(c.r, c.g, c.b)))) == Some(c)
  {
    var ch := Channels(c.r, c.g, c.b);
    var text := RgbFunctionText(ch);
    ParseRgbFunctionOfText(ch);
    assert NormalizeComputed(text) == ChannelsToHex(ch);
    ChannelsToHexIsNotation(c);
    HexToRgbOfNotation(c);
  }

  /** For byte channels the `rgb(...)` conversion writes the `#rrggbb` notation. */
  lemma ChannelsToHexIsNotation(c: Rgb)
    ensures ChannelsToHex(Channels(c.r, c.g, c.b)) == HexNotation(c)
  {
    Hex2IsByteDigits(c.r); Hex2IsByteDigits(c.g); Hex2IsByteDigits(c.b);
  }

  /** A text that is not in `rgb(...)` form is passed through unchanged. */
  lemma NormalizeComputedKeepsOthers(computed: string)
    requires !RgbPrefix(computed)
    ensures NormalizeComputed(computed) == computed
  {
  }
}
