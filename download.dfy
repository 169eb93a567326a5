/**
 * The gallery's download file name:
 * `polaroid-${alt.toLowerCase().replace(/\s+/g, '-')}.png`.
 */
module Download {
  import opened Prompts

  /** The characters JavaScript's `\s` matches. */
  predicate IsWhitespace(c: char) {
    var n := c as int;
    (0x09 <= n <= 0x0D) || n == 0x20 || n == 0xA0 || n == 0x1680 ||
    (0x2000 <= n <= 0x200A) || n == 0x2028 || n == 0x2029 || n == 0x202F ||
    n == 0x205F || n == 0x3000 || n == 0xFEFF
  }

  predicate IsUpperAscii(c: char) {
    'A' <= c <= 'Z'
  }

  function LowerChar(c: char): (r: char)
    ensures !IsUpperAscii(r)
    ensures IsWhitespace(r) <==> IsWhitespace(c)
    ensures !IsUpperAscii(c) ==> r == c
    ensures IsUpperAscii(c) ==> 'a' <= r <= 'z' && r as int - 'a' as int == c as int - 'A' as int
  {
    if IsUpperAscii(c) then (c as int + 32) as char else c
  }

  /** `toLowerCase()`, on the ASCII letters. */
  function ToLower(s: string): (r: string)
    ensures |r| == |s| && forall j :: 0 <= j < |s| ==> r[j] == LowerChar(s[j])
    decreases |s|
  {
    if s == [] then [] else [LowerChar(s[0])] + ToLower(s[1..])
  }

  /** `s` with its leading run of whitespace dropped. */
  function SkipWhitespace(s: string): (r: string)
    ensures |r| <= |s|
    ensures forall c :: c in r ==> c in s
    ensures forall j :: 0 <= j < |s| - |r| ==> IsWhitespace(s[j])
    ensures r == [] || !IsWhitespace(r[0])
    ensures r == s[|s| - |r|..]
    decreases |s|
  {
    if s != [] && IsWhitespace(s[0]) then SkipWhitespace(s[1..]) else s
  }

  /** `replace(/\s+/g, '-')`: each maximal run of whitespace becomes one `-`. */
  function ReplaceWhitespaceRuns(s: string): (r: string)
    ensures |r| <= |s|
    ensures forall j :: 0 <= j < |r| ==> !IsWhitespace(r[j])
    decreases |s|
  {
    if s == [] then []
    else if IsWhitespace(s[0]) then "-" + ReplaceWhitespaceRuns(SkipWhitespace(s))
    else [s[0]] + ReplaceWhitespaceRuns(s[1..])
  }

  predicate NoWhitespace(s: string) {
    forall j :: 0 <= j < |s| ==> !IsWhitespace(s[j])
  }

  function DownloadFilename(alt: string): string {
    "polaroid-" + ReplaceWhitespaceRuns(ToLower(alt)) + ".png"
  }

  /**
   * Every download name starts with `polaroid-`, ends with `.png`, and holds
   * neither whitespace nor an upper-case ASCII letter.
   */
  lemma FilenameShape(alt: string)
    ensures var r := DownloadFilename(alt);
      "polaroid-" <= r && |r| >= |"polaroid-.png"| && r[|r| - 4..] == ".png" &&
      NoWhitespace(r) && NoUpperAscii(r)
  {
    ReplaceKeepsLower(ToLower(alt));
  }

  predicate NoUpperAscii(s: string) {
    forall j :: 0 <= j < |s| ==> !IsUpperAscii(s[j])
  }

  /** Replacing whitespace never brings in an upper-case letter. */
  lemma {:induction false} ReplaceKeepsLower(s: string)
    requires NoUpperAscii(s)
    ensures NoUpperAscii(ReplaceWhitespaceRuns(s))
    decreases |s|
  {
    if s != [] {
      if IsWhitespace(s[0]) {
        var t := SkipWhitespace(s);
        assert forall j :: 0 <= j < |t| ==> t[j] in s;
        ReplaceKeepsLower(t);
      } else {
        ReplaceKeepsLower(s[1..]);
        assert ReplaceWhitespaceRuns(s) == [s[0]] + ReplaceWhitespaceRuns(s[1..]);
      }
    }
  }

  /** A word without whitespace is left as it is. */
  lemma {:induction false} ReplaceWord(w: string)
    requires NoWhitespace(w)
    ensures ReplaceWhitespaceRuns(w) == w
    decreases |w|
  {
    if w != [] {
      ReplaceWord(w[1..]);
      assert w == [w[0]] + w[1..];
    }
  }

  lemma {:induction false} SkipRun(run: string, t: string)
    requires forall j :: 0 <= j < |run| ==> IsWhitespace(run[j])
    requires t == [] || !IsWhitespace(t[0])
    ensures SkipWhitespace(run + t) == t
    decreases |run|
  {
    if run != [] {
      assert (run + t)[1..] == run[1..] + t;
      SkipRun(run[1..], t);
    } else {
      assert run + t == t;
    }
  }

  /**
   * A word, then a non-empty run of whitespace, then text starting with a
   * non-space: the word is kept and the whole run becomes one `-`.
   */
  lemma {:induction false} ReplaceRun(w: string, run: string, t: string)
    requires NoWhitespace(w)
    requires run != [] && forall j :: 0 <= j < |run| ==> IsWhitespace(run[j])
    requires t == [] || !IsWhitespace(t[0])
    ensures ReplaceWhitespaceRuns(w + run + t) == w + "-" + ReplaceWhitespaceRuns(t)
    decreases |w|
  {
    if w == [] {
      assert w + run + t == run + t;
      SkipRun(run, t);
    } else {
      assert (w + run + t)[0] == w[0];
      assert (w + run + t)[1..] == w[1..] + run + t;
      ReplaceRun(w[1..], run, t);
    }
  }

  lemma ToLowerConcat(a: string, b: string)
    ensures ToLower(a + b) == ToLower(a) + ToLower(b)
  {
    assert forall j :: 0 <= j < |a + b| ==> ToLower(a + b)[j] == (ToLower(a) + ToLower(b))[j];
  }

  lemma ToLowerKeepsNoWhitespace(s: string)
    requires NoWhitespace(s)
    ensures NoWhitespace(ToLower(s))
  {
  }

  lemma ToLowerAroundSpace(first: string, second: string)
    ensures ToLower(first + " " + second) == ToLower(first) + " " + ToLower(second)
  {
    ToLowerConcat(first + " ", second);
    ToLowerConcat(first, " ");
  }

  /** Two words separated by one space become the words joined by one `-`. */
  lemma TwoWordReplace(first: string, second: string)
    requires NoWhitespace(first) && NoWhitespace(second)
    ensures ReplaceWhitespaceRuns(first + " " + second) == first + "-" + second
  {
    ReplaceRun(first, " ", second);
    ReplaceWord(second);
  }

  /** Two words separated by one space: `polaroid-<first>-<second>.png`. */
  lemma TwoWordFilename(first: string, second: string)
    requires NoWhitespace(first) && NoWhitespace(second)
    ensures DownloadFilename(first + " " + second) == "polaroid-" + (ToLower(first) + "-" + ToLower(second)) + ".png"
  {
    ToLowerAroundSpace(first, second);
    ToLowerKeepsNoWhitespace(first);
    ToLowerKeepsNoWhitespace(second);
    TwoWordReplace(ToLower(first), ToLower(second));
  }

  /** A label without whitespace downloads under its lower-cased self. */
  lemma SingleWordFilename(alt: string)
    requires NoWhitespace(alt)
    ensures DownloadFilename(alt) == "polaroid-" + ToLower(alt) + ".png"
  {
    ToLowerKeepsNoWhitespace(alt);
    ReplaceWord(ToLower(alt));
  }

  /** A word lower-cased letter by letter. */
  lemma LowerWord(w: string, l: string)
    requires |w| == |l| && forall j :: 0 <= j < |w| ==> LowerChar(w[j]) == l[j]
    ensures ToLower(w) == l
  {
  }

  /** The High Five caption is the words "High" and "Five", lower-cased letter by letter to "high" and "five". */
  lemma HighFiveWords(alt: string)
    requires alt == PromptOptions[1].caption
    ensures alt == alt[..4] + " " + alt[5..]
    ensures NoWhitespace(alt[..4]) && NoWhitespace(alt[5..]) && alt[5..] != []
    ensures ToLower(alt[..4]) == "high" && ToLower(alt[5..]) == "five"
  {
    LowerWord(alt[..4], "high");
    LowerWord(alt[5..], "five");
  }

  /** The High Five result downloads as `polaroid-high-five.png`. */
  lemma HighFiveFilename(alt: string)
    requires alt == PromptOptions[1].caption
    ensures DownloadFilename(alt) == "polaroid-" + ("high" + "-" + "five") + ".png"
  {
    HighFiveWords(alt);
    TwoWordFilename(alt[..4], alt[5..]);
  }
}
