/**
 * The file names the app builds: the PNG export name from a page title,
 * the download name of a processed SVG, and the title taken from an
 * uploaded file name with its extension removed.
 */
module FileNames {
  import opened JsValues
  import opened JsStrings

  // ---------------------------------------------------------------------
  // Export name: title.toLowerCase().replace(/\s+/g, "-") + "-boyama.png"
  // ---------------------------------------------------------------------

  /** `s.replace(/\s+/g, "-")`: every maximal run of white space becomes one `-`. */
  function DashRuns(s: string): (r: string)
    ensures NoSpace(r) && |r| <= |s|
    decreases |s|
  {
    if |s| == 0 then ""
    else if IsSpace(s[0]) then
      var n := SpaceRun(s, 0);
      "-" + DashRuns(s[n..])
    else
      [s[0]] + DashRuns(s[1..])
  }

  /** Text without white space is left as it is. */
  lemma {:induction false} DashRunsOfNoSpace(s: string)
    requires NoSpace(s)
    ensures DashRuns(s) == s
    decreases |s|
  {
    if |s| > 0 {
      DashRunsOfNoSpace(s[1..]);
    }
  }

  /** Replacing the runs twice is the same as once. */
  lemma DashRunsIdempotent(s: string)
    ensures DashRuns(DashRuns(s)) == DashRuns(s)
  {
    DashRunsOfNoSpace(DashRuns(s));
  }

  /**
   * A word, a run of white space and the rest: the run becomes a single
   * `-` between the word and the treatment of the rest.
   */
  lemma {:induction false} DashRunsOfRun(a: string, ws: string, t: string)
    requires NoSpace(a) && |ws| > 0 && AllSpace(ws)
    requires |t| == 0 || !IsSpace(t[0])
    ensures DashRuns(a + ws + t) == a + "-" + DashRuns(t)
    decreases |a|
  {
    var s := a + ws + t;
    if |a| == 0 {
      assert s == ws + t;
      SpaceRunOfRun(ws, t);
      assert s[|ws|..] == t;
    } else {
      assert s[1..] == a[1..] + ws + t;
      DashRunsOfRun(a[1..], ws, t);
      assert a == [a[0]] + a[1..];
    }
  }

  /** The run of white space at the front of `ws + t` is exactly `ws`. */
  lemma {:induction false} SpaceRunOfRun(ws: string, t: string)
    requires AllSpace(ws)
    requires |t| == 0 || !IsSpace(t[0])
    ensures SpaceRun(ws + t, 0) == |ws|
  {
    var s := ws + t;
    var n := SpaceRun(s, 0);
    assert s[..|ws|] == ws;
  }

  /** The name of the PNG export of a page titled `title`. */
  function ExportFileName(title: string): (name: string)
    ensures NoSpace(name)
    ensures |name| >= 11 && name[|name| - 11..] == "-boyama.png"
  {
    DashRuns(ToLower(title)) + "-boyama.png"
  }

  /** An export name of a title that is already one lower-case word is that word plus the suffix. */
  lemma ExportFileNameOfWord(title: string)
    requires NoSpace(title) && forall i :: 0 <= i < |title| ==> !('A' <= title[i] <= 'Z')
    ensures ExportFileName(title) == title + "-boyama.png"
  {
    var low := ToLower(title);
    assert low == title;
    DashRunsOfNoSpace(title);
  }

  /** Two words separated by white space export as `word-word-boyama.png`. */
  lemma ExportFileNameOfTwoWords(a: string, ws: string, b: string)
    requires NoSpace(a) && NoSpace(b) && |ws| > 0 && AllSpace(ws)
    requires forall i :: 0 <= i < |a| ==> !('A' <= a[i] <= 'Z')
    requires forall i :: 0 <= i < |b| ==> !('A' <= b[i] <= 'Z')
    ensures ExportFileName(a + ws + b) == a + "-" + b + "-boyama.png"
  {
    var s := a + ws + b;
    var low := ToLower(s);
    assert low == s by {
      forall i | 0 <= i < |s|
        ensures low[i] == s[i]
      {
        if i < |a| {
          assert s[i] == a[i];
        } else if i >= |a| + |ws| {
          assert s[i] == b[i - |a| - |ws|];
        } else {
          assert s[i] == ws[i - |a|];
        }
      }
    }
    if |b| > 0 {
      assert !IsSpace(b[0]);
    }
    DashRunsOfRun(a, ws, b);
    DashRunsOfNoSpace(b);
  }

  // ---------------------------------------------------------------------
  // Splitting and joining on a separator
  // ---------------------------------------------------------------------

  /** `s.split(d)` for a one-character separator. */
  function Split(s: string, d: char): (parts: seq<string>)
    ensures |parts| >= 1
    decreases |s|
  {
    var k := IndexOf(s, d);
    if k < 0 then [s] else [s[..k]] + Split(s[k + 1..], d)
  }

  /** No part of a split holds the separator. */
  lemma {:induction false} SplitPartsLackSeparator(s: string, d: char)
    ensures forall i :: 0 <= i < |Split(s, d)| ==> d !in Split(s, d)[i]
    decreases |s|
  {
    var k := IndexOf(s, d);
    if k >= 0 {
      SplitPartsLackSeparator(s[k + 1..], d);
    }
  }

  /** `parts.join(d)`. */
  function Join(parts: seq<string>, d: char): string
    requires |parts| >= 1
  {
    if |parts| == 1 then parts[0] else parts[0] + [d] + Join(parts[1..], d)
  }

  /** Joining the parts of a split gives the text back. */
  lemma {:induction false} JoinSplit(s: string, d: char)
    ensures Join(Split(s, d), d) == s
    decreases |s|
  {
    var k := IndexOf(s, d);
    if k >= 0 {
      var rest := s[k + 1..];
      JoinSplit(rest, d);
      JoinCons(s[..k], Split(rest, d), d);
      SliceAround(s, k);
    }
  }

  /** A sequence is what comes before position `k`, the element there, and what follows. */
  lemma SliceAround(s: string, k: int)
    requires 0 <= k < |s|
    ensures s == s[..k] + [s[k]] + s[k + 1..]
  {
  }

  /** Joining a part in front of others puts one separator between. */
  lemma JoinCons(p: string, rest: seq<string>, d: char)
    requires |rest| >= 1
    ensures Join([p] + rest, d) == p + [d] + Join(rest, d)
  {
    assert ([p] + rest)[1..] == rest;
  }

  /** The last separator sits right before the last part. */
  lemma {:induction false} JoinLast(parts: seq<string>, d: char)
    requires |parts| >= 2
    ensures Join(parts, d) == Join(parts[..|parts| - 1], d) + [d] + parts[|parts| - 1]
  {
    if |parts| > 2 {
      JoinLast(parts[1..], d);
      assert parts[1..][..|parts| - 2] == parts[..|parts| - 1][1..];
    }
  }

  /** Appending to the last part appends to the joined text. */
  lemma {:induction false} JoinExtendLast(parts: seq<string>, x: string, d: char)
    requires |parts| >= 1
    ensures Join(parts[..|parts| - 1] + [parts[|parts| - 1] + x], d) == Join(parts, d) + x
  {
    var q := parts[..|parts| - 1] + [parts[|parts| - 1] + x];
    if |parts| > 1 {
      JoinExtendLast(parts[1..], x, d);
      assert q[1..] == parts[1..][..|parts| - 2] + [parts[1..][|parts| - 2] + x];
    }
  }

  // ---------------------------------------------------------------------
  // Processed SVG download name
  // ---------------------------------------------------------------------

  /** The position of the last `d` in `s`, or -1. */
  function LastIndexOf(s: string, d: char): (k: int)
    ensures -1 <= k < |s|
    ensures k == -1 <==> d !in s
    ensures 0 <= k ==> s[k] == d && d !in s[k + 1..]
  {
    if |s| == 0 then -1
    else if s[|s| - 1] == d then |s| - 1
    else
      var k := LastIndexOf(s[..|s| - 1], d);
      assert s[k + 1..] == s[..|s| - 1][k + 1..] + [s[|s| - 1]];
      k
  }

  /**
   * The name the processed SVG downloads under: a default for no name;
   * otherwise `-processed` added to the second-to-last part of the name
   * split on dots, or `-processed.svg` appended when there is no dot.
   */
  function ProcessedFileName(originalFileName: string): (name: string)
  {
    if originalFileName == "" then "processed-svg.svg"
    else
      var parts := Split(originalFileName, '.');
      var n := |parts|;
      if n > 1 then
        Join(parts[..n - 2] + [parts[n - 2] + "-processed"] + [parts[n - 1]], '.')
      else
        originalFileName + "-processed.svg"
  }

  /** Appending `x` to the second-to-last part puts it right before the last separator. */
  lemma ExtendSecondToLast(parts: seq<string>, x: string, d: char)
    requires |parts| >= 2
    ensures var n := |parts|;
            Join(parts[..n - 2] + [parts[n - 2] + x] + [parts[n - 1]], d) == Join(parts[..n - 1], d) + x + [d] + parts[n - 1]
  {
    var n := |parts|;
    var q := parts[..n - 1];
    var q' := q[..n - 2] + [q[n - 2] + x];
    assert parts[..n - 2] + [parts[n - 2] + x] + [parts[n - 1]] == q' + [parts[n - 1]];
    JoinLast(q' + [parts[n - 1]], d);
    assert (q' + [parts[n - 1]])[..n - 1] == q';
    JoinExtendLast(q, x, d);
  }

  /** The last `d` of `a + [d] + b` is the one between, when `b` holds none. */
  lemma LastIndexOfBetween(a: string, d: char, b: string)
    requires d !in b
    ensures LastIndexOf(a + [d] + b, d) == |a|
  {
    var s := a + [d] + b;
    var k := LastIndexOf(s, d);
    assert s[|a|] == d;
    assert s[|a| + 1..] == b;
  }

  /** Inserting `x` at the separator between `a` and `b`. */
  lemma InsertBeforeSeparator(a: string, x: string, d: char, b: string)
    ensures var s := a + [d] + b; s[..|a|] + x + s[|a|..] == a + x + [d] + b
  {
    var s := a + [d] + b;
    assert s[..|a|] == a;
    assert s[|a|..] == [d] + b;
  }

  /** The processed name inserts `-processed` right before the last dot, or adds it with `.svg` when there is none. */
  lemma ProcessedFileNameInsertsBeforeLastDot(s: string)
    requires s != ""
    ensures var k := LastIndexOf(s, '.');
            ProcessedFileName(s) == if k < 0 then s + "-processed.svg" else s[..k] + "-processed" + s[k..]
  {
    var parts := Split(s, '.');
    var n := |parts|;
    JoinSplit(s, '.');
    SplitPartsLackSeparator(s, '.');
    if n > 1 {
      var a := Join(parts[..n - 1], '.');
      var b := parts[n - 1];
      ExtendSecondToLast(parts, "-processed", '.');
      JoinLast(parts, '.');
      assert s == a + "." + b;
      LastIndexOfBetween(a, '.', b);
      InsertBeforeSeparator(a, "-processed", '.', b);
    } else {
      assert parts == [s];
      assert '.' !in s;
    }
  }

  /** No name gives the default download name. */
  lemma ProcessedFileNameDefault()
    ensures ProcessedFileName("") == "processed-svg.svg"
  {
  }

  // ---------------------------------------------------------------------
  // Title from a file name: fileName.replace(/\.[^/.]+$/, "")
  // ---------------------------------------------------------------------

  /** The file name without its final extension (a dot followed by at least one character other than `/` and `.`). */
  function StripExtension(fileName: string): (title: string)
  {
    var k := LastIndexOf(fileName, '.');
    if 0 <= k < |fileName| - 1 && '/' !in fileName[k + 1..] then fileName[..k] else fileName
  }

  /** A base name and an extension: stripping gives the base name back. */
  lemma StripExtensionOfExtension(base: string, ext: string)
    requires |ext| > 0 && '.' !in ext && '/' !in ext
    ensures StripExtension(base + "." + ext) == base
  {
    var s := base + "." + ext;
    var k := LastIndexOf(s, '.');
    assert s[|base|] == '.';
    assert s[|base| + 1..] == ext;
    assert s[..|base|] == base;
  }

  /** Without a usable extension the name is kept whole, and otherwise only a final dot-suffix is removed. */
  lemma StripExtensionRemovesSuffix(fileName: string)
    ensures var t := StripExtension(fileName);
            t == fileName
            || (|t| < |fileName| - 1 && fileName[..|t|] == t && fileName[|t|] == '.'
                && '.' !in fileName[|t| + 1..] && '/' !in fileName[|t| + 1..])
  {
  }
}
