/**
 * The identifier normaliser `transformUpperName` and the event-name
 * rewrite `transformEventName` of index.js.
 *
 * `transformUpperName(s)` is `s.match(/[A-Z]+[^A-Z]*|[^A-Z]+/g).join("-").toLowerCase()`.
 * The global match splits `s` into consecutive segments, each a maximal run
 * of ASCII upper-case letters followed by a maximal run of other characters,
 * or (at the start) a maximal run of other characters. Only `A`-`Z` count as
 * upper case, so `.`, `-`, digits and non-ASCII letters are "other".
 */
module Naming {

  predicate IsUpper(c: char) {
    'A' <= c <= 'Z'
  }

  /** ASCII lower-casing of one character. */
  function ToLower(c: char): (r: char)
    ensures !IsUpper(r)
    ensures IsUpper(c) ==> r as int == c as int + 32
    ensures !IsUpper(c) ==> r == c
  {
    if IsUpper(c) then (c as int - 'A' as int + 'a' as int) as char else c
  }

  predicate NoUpper(s: string) {
    forall i :: 0 <= i < |s| ==> !IsUpper(s[i])
  }

  /** `toLowerCase`, restricted to ASCII letters. */
  function Lower(s: string): (r: string)
    ensures |r| == |s|
    ensures NoUpper(r)
    ensures NoUpper(s) ==> r == s
  {
    seq(|s|, i requires 0 <= i < |s| => ToLower(s[i]))
  }

  /** `toLowerCase` lower-cases each character in place. */
  lemma LowerEach(s: string)
    ensures forall i :: 0 <= i < |s| ==> Lower(s)[i] == ToLower(s[i])
  {
  }

  /** Length of the longest prefix of `s` whose characters are all upper case (`upper`) or all not. */
  function Run(s: string, upper: bool): (r: nat)
    ensures r <= |s|
  {
    if s != [] && IsUpper(s[0]) == upper then 1 + Run(s[1..], upper) else 0
  }

  /** Run is the length of the longest such prefix: every character before it qualifies and the one at it does not. */
  lemma {:induction false} RunMaximal(s: string, upper: bool)
    ensures forall i :: 0 <= i < Run(s, upper) ==> IsUpper(s[i]) == upper
    ensures Run(s, upper) == |s| || IsUpper(s[Run(s, upper)]) != upper
  {
    if s != [] && IsUpper(s[0]) == upper {
      RunMaximal(s[1..], upper);
    }
  }

  /**
   * One match of the pattern: an optional upper-case run followed by a run of
   * other characters, not empty. Equivalently: no upper-case letter follows a
   * character that is not upper case.
   */
  predicate IsSegment(w: string) {
    |w| > 0 && forall i, j :: 0 <= i < j < |w| && !IsUpper(w[i]) ==> !IsUpper(w[j])
  }

  /**
   * A sequence of matches as the global regex produces them: every piece is a
   * segment, and a new piece starts only where an upper-case letter follows a
   * character that is not upper case (otherwise the greedy runs would have
   * continued).
   */
  ghost predicate Segmentation(segs: seq<string>) {
    && (forall i :: 0 <= i < |segs| ==> IsSegment(segs[i]))
    && (forall i, j :: 0 <= i < j < |segs| && j == i + 1 ==> Breaks(segs[i], segs[j]))
  }

  /** A new match starts with `b` right after `a`: `a` ends with a character that is not upper case and `b` starts with an upper-case letter. */
  predicate Breaks(a: string, b: string) {
    |a| > 0 && |b| > 0 && !IsUpper(a[|a| - 1]) && IsUpper(b[0])
  }

  function Concat(segs: seq<string>): string {
    if segs == [] then "" else segs[0] + Concat(segs[1..])
  }

  /** The length of the match that starts at the beginning of `s`: the upper-case run, then the run of other characters. */
  function SegmentLength(s: string): (n: nat)
    requires s != ""
    ensures 0 < n <= |s|
  {
    var u := Run(s, true);
    var l := Run(s[u..], false);
    assert u == 0 ==> l > 0;
    u + l
  }

  /** The first match is a segment, and it ends at the end of `s` or where an upper-case letter follows a character that is not upper case. */
  lemma {:induction false} SegmentLengthSpec(s: string)
    requires s != ""
    ensures IsSegment(s[..SegmentLength(s)])
    ensures var n := SegmentLength(s);
      n == |s| || (IsUpper(s[n]) && !IsUpper(s[n - 1]))
  {
    var u := Run(s, true);
    RunMaximal(s, true);
    RunMaximal(s[u..], false);
  }

  /** The matches of the global regex over `s`, in order. */
  function Segments(s: string): (r: seq<string>)
    decreases |s|
    ensures |r| <= |s|
    ensures r == [] <==> s == ""
  {
    if s == "" then []
    else
      var n := SegmentLength(s);
      [s[..n]] + Segments(s[n..])
  }

  /** The matches cover `s` exactly and form a segmentation. */
  lemma {:induction false} SegmentsSpec(s: string)
    decreases |s|
    ensures Concat(Segments(s)) == s
    ensures Segmentation(Segments(s))
  {
    if s != "" {
      var n := SegmentLength(s);
      SegmentLengthSpec(s);
      SegmentsSpec(s[n..]);
      SegmentsStep(s, n, Segments(s[n..]));
    }
  }

  /** The first match followed by a segmentation of the remainder is a segmentation of the whole. */
  lemma {:induction false} SegmentsStep(s: string, n: nat, rest: seq<string>)
    requires 0 < n <= |s| && IsSegment(s[..n])
    requires n == |s| || (IsUpper(s[n]) && !IsUpper(s[n - 1]))
    requires Concat(rest) == s[n..] && Segmentation(rest)
    ensures Concat([s[..n]] + rest) == s
    ensures Segmentation([s[..n]] + rest)
  {
    var w := s[..n];
    assert rest != [] ==> Breaks(w, rest[0]) by {
      if rest != [] {
        assert Concat(rest)[0] == rest[0][0];
        assert w[n - 1] == s[n - 1];
      }
    }
    SegmentationCons(w, rest);
    assert ([w] + rest)[1..] == rest;
    assert w + s[n..] == s;
  }

  /** `join("-")`. */
  function JoinWithHyphen(segs: seq<string>): (r: string)
    ensures segs != [] ==> |r| + 1 == |Concat(segs)| + |segs|
  {
    if segs == [] then ""
    else if |segs| == 1 then segs[0]
    else segs[0] + "-" + JoinWithHyphen(segs[1..])
  }

  /**
   * transformUpperName. The empty string is excluded: `"".match(...)`
   * returns null and the following `join` throws.
   */
  function TransformUpperName(s: string): (r: string)
    requires s != ""
    ensures NoUpper(r)
    ensures r != ""
  {
    Lower(JoinWithHyphen(Segments(s)))
  }

  /** The normalised name is the input with one hyphen inserted between consecutive matches. */
  lemma {:induction false} UpperNameLength(s: string)
    requires s != ""
    ensures |TransformUpperName(s)| + 1 == |s| + |Segments(s)|
  {
    SegmentsSpec(s);
  }

  /** transformEventName: `"on-"` followed by the normalised event key. */
  function TransformEventName(e: string): (r: string)
    requires e != ""
    ensures |r| > 3 && r[..3] == "on-" && r[3..] == TransformUpperName(e)
    ensures NoUpper(r)
  {
    "on-" + TransformUpperName(e)
  }

  /** Prepending a segment that breaks correctly against the next one keeps a segmentation. */
  lemma {:induction false} SegmentationCons(w: string, rest: seq<string>)
    requires IsSegment(w) && Segmentation(rest)
    requires rest != [] ==> Breaks(w, rest[0])
    ensures Segmentation([w] + rest)
  {
    var segs := [w] + rest;
    forall i, j | 0 <= i < j < |segs| && j == i + 1
      ensures Breaks(segs[i], segs[j])
    {
      if i > 0 {
        assert segs[i] == rest[i - 1] && segs[j] == rest[j - 1];
      }
    }
  }

  /** The first match is determined by its two defining properties. */
  lemma {:induction false} SegmentLengthUnique(s: string, n: nat)
    requires 0 < n <= |s|
    requires IsSegment(s[..n])
    requires n == |s| || (IsUpper(s[n]) && !IsUpper(s[n - 1]))
    ensures SegmentLength(s) == n
  {
    var u := Run(s, true);
    RunMaximal(s, true);
    RunMaximal(s[u..], false);
  }

  /**
   * The matches are the only segmentation of `s`: any sequence of segments
   * that concatenates to `s` and breaks only at lower-to-upper boundaries is
   * the one the regex produces.
   */
  lemma {:induction false} SegmentsUnique(s: string, segs: seq<string>)
    requires Concat(segs) == s
    requires Segmentation(segs)
    ensures segs == Segments(s)
  {
    if segs != [] {
      var w, rest := segs[0], segs[1..];
      SegmentsUniqueStep(s, segs);
      SegmentsUnique(s[|w|..], rest);
      assert segs == [w] + rest;
    }
  }

  /** The first piece of a segmentation of `s` is the first match, and the rest segments the remainder. */
  lemma {:induction false} SegmentsUniqueStep(s: string, segs: seq<string>)
    requires segs != [] && Concat(segs) == s && Segmentation(segs)
    ensures 0 < |segs[0]| <= |s| && SegmentLength(s) == |segs[0]| && s[..|segs[0]|] == segs[0]
    ensures Concat(segs[1..]) == s[|segs[0]|..] && Segmentation(segs[1..])
  {
    var w, rest := segs[0], segs[1..];
    assert s == w + Concat(rest);
    assert s[..|w|] == w;
    assert Segmentation(rest) by {
      forall i, j | 0 <= i < j < |rest| && j == i + 1
        ensures Breaks(rest[i], rest[j])
      {
        assert rest[i] == segs[i + 1] && rest[j] == segs[j + 1];
      }
    }
    if rest != [] {
      assert Breaks(segs[0], segs[1]);
      assert Concat(rest)[0] == rest[0][0];
      assert s[|w|] == rest[0][0] && s[|w| - 1] == w[|w| - 1];
    }
    SegmentLengthUnique(s, |w|);
    assert s[|w|..] == Concat(rest);
  }

  /** The regex segmentation is exactly the characterised one (both directions). */
  lemma {:induction false} SegmentsCharacterised(s: string, segs: seq<string>)
    ensures segs == Segments(s) <==> Concat(segs) == s && Segmentation(segs)
  {
    if Concat(segs) == s && Segmentation(segs) {
      SegmentsUnique(s, segs);
    } else {
      SegmentsSpec(s);
    }
  }

  /** A string without upper-case letters is a single match (when not empty). */
  lemma {:induction false} SingleSegment(s: string)
    requires s != "" && NoUpper(s)
    ensures Segments(s) == [s]
  {
    assert Concat([s]) == s;
    SegmentsUnique(s, [s]);
  }

  /** The fixed points of the normaliser are exactly the strings without upper-case letters. */
  lemma {:induction false} UpperNameFixedPoints(s: string)
    requires s != ""
    ensures TransformUpperName(s) == s <==> NoUpper(s)
  {
    if NoUpper(s) {
      SingleSegment(s);
    }
  }

  /** Normalising twice is normalising once. */
  lemma {:induction false} UpperNameIdempotent(s: string)
    requires s != ""
    ensures TransformUpperName(TransformUpperName(s)) == TransformUpperName(s)
  {
    UpperNameFixedPoints(TransformUpperName(s));
  }

  /** The normalised name can be read off any segmentation of the input. */
  lemma {:induction false} UpperNameOfSegmentation(s: string, segs: seq<string>)
    requires s != "" && Concat(segs) == s && Segmentation(segs)
    ensures TransformUpperName(s) == Lower(JoinWithHyphen(segs))
  {
    SegmentsUnique(s, segs);
  }

  /** Two segments that break against each other are the two matches, joined by one hyphen. */
  lemma {:induction false} UpperNameOfTwo(a: string, b: string)
    requires IsSegment(a) && IsSegment(b) && Breaks(a, b)
    ensures Segments(a + b) == [a, b]
    ensures TransformUpperName(a + b) == Lower(a + "-" + b)
  {
    var segs := [a, b];
    SegmentationCons(b, []);
    SegmentationCons(a, [b]);
    assert Concat(segs) == a + Concat([b]);
    assert JoinWithHyphen(segs) == a + "-" + JoinWithHyphen([b]);
    SegmentsUnique(a + b, segs);
  }

  /** Three segments that break against each other are the three matches, joined by two hyphens. */
  lemma {:induction false} UpperNameOfThree(a: string, b: string, c: string)
    requires IsSegment(a) && IsSegment(b) && IsSegment(c)
    requires Breaks(a, b) && Breaks(b, c)
    ensures Segments(a + b + c) == [a, b, c]
    ensures TransformUpperName(a + b + c) == Lower(a + "-" + b + "-" + c)
  {
    var segs := [a, b, c];
    SegmentationCons(c, []);
    SegmentationCons(b, [c]);
    SegmentationCons(a, [b, c]);
    assert Concat(segs) == a + Concat([b, c]);
    assert Concat([b, c]) == b + Concat([c]);
    assert JoinWithHyphen(segs) == a + "-" + JoinWithHyphen([b, c]);
    assert JoinWithHyphen([b, c]) == b + "-" + JoinWithHyphen([c]);
    assert a + b + c == Concat(segs);
    assert a + "-" + b + "-" + c == JoinWithHyphen(segs);
    SegmentsUnique(a + b + c, segs);
  }

  /**
   * An upper-case run followed by characters that are not upper case is one
   * greedy match, so it is only lower-cased: `ABCdef` becomes `abcdef`, not
   * `ab-cdef`.
   */
  lemma {:induction false} UpperRunThenOthers(u: string, l: string)
    requires u != "" && forall i :: 0 <= i < |u| ==> IsUpper(u[i])
    requires NoUpper(l)
    ensures Segments(u + l) == [u + l]
    ensures TransformUpperName(u + l) == Lower(u + l)
  {
    var w := u + l;
    assert IsSegment(w) by {
      forall i, j | 0 <= i < j < |w| && !IsUpper(w[i])
        ensures !IsUpper(w[j])
      {
        assert i >= |u|;
      }
    }
    assert Concat([w]) == w;
    SegmentsUnique(w, [w]);
  }

  // ----- Worked examples: the matches of concrete identifiers -----
  // The identifiers are passed as parameters fixed by `requires`, because a
  // literal argument makes the solver unfold the string too early.

  /** `readOnly` is matched as `read`, `Only`, so it becomes `read-only`. */
  lemma {:induction false} ExampleReadOnly(a: string, b: string)
    requires a == "read" && b == "Only"
    ensures Segments(a + b) == [a, b]
    ensures TransformUpperName(a + b) == "read-only"
  {
    assert IsSegment(a) && IsSegment(b) && Breaks(a, b);
    UpperNameOfTwo(a, b);
    LowerReadOnly(a, b);
  }

  /** The lower-casing step of `readOnly`. */
  lemma {:induction false} LowerReadOnly(a: string, b: string)
    requires a == "read" && b == "Only"
    ensures Lower(a + "-" + b) == "read-only"
  {
    var l := Lower(a + "-" + b);
    assert |l| == 9;
    assert l[4] == '-';
    assert l[5] == ToLower('O') == 'o';
  }

  /**
   * `ojBeforeExpand` is matched as `oj`, `Before`, `Expand`, so it becomes
   * `oj-before-expand`.
   */
  lemma {:induction false} ExampleEventKey(a: string, b: string, c: string)
    requires a == "oj" && b == "Before" && c == "Expand"
    ensures Segments(a + b + c) == [a, b, c]
    ensures TransformUpperName(a + b + c) == "oj-before-expand"
  {
    assert IsSegment(a) && IsSegment(b) && IsSegment(c);
    assert Breaks(a, b) && Breaks(b, c);
    UpperNameOfThree(a, b, c);
    LowerBeforeExpand(a, b, c);
  }

  /** The event key `ojBeforeExpand` becomes the event name `on-oj-before-expand`. */
  lemma {:induction false} ExampleEventName(a: string, b: string, c: string)
    requires a == "oj" && b == "Before" && c == "Expand"
    ensures TransformEventName(a + b + c) == "on-oj-before-expand"
  {
    assert "on-" + "oj-before-expand" == "on-oj-before-expand";
    var r := TransformEventName(a + b + c);
    assert r[3..] == "oj-before-expand" by { ExampleEventKey(a, b, c); }
    assert r == r[..3] + r[3..];
  }

  /** The lower-casing step of `ojBeforeExpand`. */
  lemma {:induction false} LowerBeforeExpand(a: string, b: string, c: string)
    requires a == "oj" && b == "Before" && c == "Expand"
    ensures Lower(a + "-" + b + "-" + c) == "oj-before-expand"
  {
    var l := Lower(a + "-" + b + "-" + c);
    assert |l| == 16;
    assert l[2] == '-' && l[9] == '-';
    assert l[3] == ToLower('B') == 'b';
    assert l[10] == ToLower('E') == 'e';
  }

  /** `ABCdef` is a single match, so it becomes `abcdef`, not `ab-cdef`. */
  lemma {:induction false} ExampleUpperRun(u: string, l: string)
    requires u == "ABC" && l == "def"
    ensures Segments(u + l) == [u + l]
    ensures TransformUpperName(u + l) == "abcdef"
  {
    assert forall i :: 0 <= i < |u| ==> IsUpper(u[i]);
    UpperRunThenOthers(u, l);
    LowerUpperRun(u, l);
  }

  /** The lower-casing step of `ABCdef`. */
  lemma {:induction false} LowerUpperRun(u: string, l: string)
    requires u == "ABC" && l == "def"
    ensures Lower(u + l) == "abcdef"
  {
    var r := Lower(u + l);
    assert |r| == 6;
    assert r[0] == ToLower('A') == 'a';
    assert r[1] == ToLower('B') == 'b';
    assert r[2] == ToLower('C') == 'c';
  }
}
