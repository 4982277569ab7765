/**
 * The few Python string operations the billing handler applies to keys, dates and
 * prefixes: `s.split(c)[0]`, `s.split(c)[-1]`, `s.strip(c)` and `s.endswith(t)`.
 */
module Text {

  /** `s.split(c)[0]`: everything before the first `c`, or all of `s` when there is none. */
  function BeforeFirst(s: string, c: char): (r: string)
    ensures r <= s
    ensures c !in r
    ensures |r| < |s| ==> s[|r|] == c
  {
    if s == [] || s[0] == c then []
    else [s[0]] + BeforeFirst(s[1..], c)
  }

  /** `s.split(c)[-1]`: everything after the last `c`, or all of `s` when there is none. */
  function AfterLast(s: string, c: char): (r: string)
    ensures |r| <= |s| && r == s[|s| - |r|..]
    ensures c !in r
    ensures |r| < |s| ==> s[|s| - |r| - 1] == c
  {
    if s == [] || s[|s| - 1] == c then []
    else AfterLast(s[..|s| - 1], c) + [s[|s| - 1]]
  }

  /** `s.lstrip(c)`: drops the run of `c` at the front. */
  function TrimStart(s: string, c: char): (r: string)
    ensures |r| <= |s| && r == s[|s| - |r|..]
    ensures r == [] || r[0] != c
    ensures forall i :: 0 <= i < |s| - |r| ==> s[i] == c
  {
    if s == [] || s[0] != c then s
    else TrimStart(s[1..], c)
  }

  /** `s.rstrip(c)`: drops the run of `c` at the back. */
  function TrimEnd(s: string, c: char): (r: string)
    ensures r <= s
    ensures r == [] || r[|r| - 1] != c
    ensures forall i :: |r| <= i < |s| ==> s[i] == c
  {
    if s == [] || s[|s| - 1] != c then s
    else TrimEnd(s[..|s| - 1], c)
  }

  /** `s.strip(c)`: drops the runs of `c` at both ends. */
  function Strip(s: string, c: char): (r: string)
    ensures |r| <= |s|
    ensures r == [] || (r[0] != c && r[|r| - 1] != c)
  {
    TrimEnd(TrimStart(s, c), c)
  }

  /** `s.endswith(t)`. */
  predicate EndsWith(s: string, t: string) {
    |t| <= |s| && s[|s| - |t|..] == t
  }

  /**
   * A suffix of `s` free of `c` and either all of `s` or preceded by `c` is the
   * part after the last `c`.
   */
  lemma AfterLastUnique(s: string, c: char, t: string)
    requires |t| <= |s| && t == s[|s| - |t|..] && c !in t
    requires |t| < |s| ==> s[|s| - |t| - 1] == c
    ensures AfterLast(s, c) == t
  {
    var r := AfterLast(s, c);
    assert |r| == |t|;
  }

  lemma {:induction false} TrimStartAppend(x: string, y: string, c: char)
    requires y != [] && y[0] != c
    ensures TrimStart(x + y, c) == TrimStart(x, c) + y
    decreases |x|
  {
    if x != [] {
      assert (x + y)[1..] == x[1..] + y;
      if x[0] == c {
        TrimStartAppend(x[1..], y, c);
      }
    }
  }

  /**
   * The label of a "directory" prefix: the last segment of the prefix once its
   * outer delimiters are stripped, as in `p.strip("/").split("/")[-1]`.
   */
  function LastSegment(p: string, c: char): (r: string)
    ensures c !in r
  {
    AfterLast(Strip(p, c), c)
  }

  lemma TrimEndOne(z: string, c: char)
    requires z != [] && z[|z| - 1] != c
    ensures TrimEnd(z + [c], c) == z
  {
    assert (z + [c])[..|z|] == z;
  }

  lemma TrimStartEndsLikeInput(x: string, c: char)
    requires x == [] || x[|x| - 1] == c
    ensures TrimStart(x, c) == [] || TrimStart(x, c)[|TrimStart(x, c)| - 1] == c
  {
  }

  /**
   * For a prefix `parent + seg + c` whose parent is empty or ends with `c`, the
   * label is `seg` itself.
   */
  lemma LastSegmentOfChild(parent: string, seg: string, c: char)
    requires parent == [] || parent[|parent| - 1] == c
    requires seg != [] && c !in seg
    ensures LastSegment(parent + seg + [c], c) == seg
  {
    assert seg[0] in seg && seg[|seg| - 1] in seg;
    var w := TrimStart(parent, c);
    TrimStartEndsLikeInput(parent, c);
    var z := w + seg;
    calc {
      TrimStart(parent + seg + [c], c);
      { assert parent + seg + [c] == parent + (seg + [c]);
        TrimStartAppend(parent, seg + [c], c); }
      w + (seg + [c]);
      { assert w + (seg + [c]) == z + [c]; }
      z + [c];
    }
    TrimEndOne(z, c);
    assert Strip(parent + seg + [c], c) == z;
    AfterLastUnique(z, c, seg);
  }
}
