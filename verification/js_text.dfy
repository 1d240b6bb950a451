/** The JavaScript (and Python) string primitives the gap exercises use:
    `indexOf` / `str.find`, `substring` with its clamping and argument swap,
    and `replace` with a string pattern, which replaces the first occurrence
    only. */
module JsText {

  predicate OccursAt(s: string, w: string, i: int) {
    0 <= i && i + |w| <= |s| && s[i..i + |w|] == w
  }

  /** `s.indexOf(w)`: the first position where `w` occurs, or -1. */
  function IndexOf(s: string, w: string): (r: int)
    ensures r == -1 || OccursAt(s, w, r)
    ensures r == -1 ==> forall i :: 0 <= i <= |s| - |w| ==> !OccursAt(s, w, i)
    ensures r != -1 ==> forall i :: 0 <= i < r ==> !OccursAt(s, w, i)
  {
    IndexFrom(s, w, 0)
  }

  function IndexFrom(s: string, w: string, k: nat): (r: int)
    ensures r == -1 || (k <= r && OccursAt(s, w, r))
    ensures r == -1 ==> forall i :: k <= i <= |s| - |w| ==> !OccursAt(s, w, i)
    ensures r != -1 ==> forall i :: k <= i < r ==> !OccursAt(s, w, i)
    decreases |s| - k
  {
    if k + |w| > |s| then -1
    else if s[k..k + |w|] == w then k
    else IndexFrom(s, w, k + 1)
  }

  function Clamp(x: int, n: nat): (r: nat)
    ensures r <= n
    ensures 0 <= x <= n ==> r == x
  {
    if x < 0 then 0 else if x > n then n else x
  }

  /** `s.substring(a, b)`: both ends clamped into `[0, |s|]`, swapped when
      the first is greater. */
  function Substring(s: string, a: int, b: int): (r: string)
    ensures 0 <= a <= b <= |s| ==> r == s[a..b]
    ensures |r| <= |s|
  {
    var lo, hi := Clamp(a, |s|), Clamp(b, |s|);
    if lo <= hi then s[lo..hi] else s[hi..lo]
  }

  /** The order of the two ends does not matter. */
  lemma SubstringSymmetric(s: string, a: int, b: int)
    ensures Substring(s, a, b) == Substring(s, b, a)
  {
  }

  /** Whatever the arguments, `substring` returns a piece of `s`, so it can
      be found in `s`. */
  lemma {:induction false} SubstringOccurs(s: string, a: int, b: int)
    ensures IndexOf(s, Substring(s, a, b)) != -1
  {
    var lo, hi := Clamp(a, |s|), Clamp(b, |s|);
    var i := if lo <= hi then lo else hi;
    assert OccursAt(s, Substring(s, a, b), i);
  }

  /** `s.replace(pat, rep)` with a string pattern. */
  function ReplaceFirst(s: string, pat: string, rep: string): (r: string)
    ensures IndexOf(s, pat) == -1 ==> r == s
    ensures IndexOf(s, pat) != -1 ==>
      var i := IndexOf(s, pat);
      && r == s[..i] + rep + s[i + |pat|..]
      && s == s[..i] + pat + s[i + |pat|..]
  {
    var i := IndexOf(s, pat);
    if i == -1 then s
    else
      assert s == s[..i] + s[i..i + |pat|] + s[i + |pat|..];
      s[..i] + rep + s[i + |pat|..]
  }
}
