/**
 * The two JavaScript string operations the IP extraction relies on,
 * `String.prototype.indexOf` for one character and
 * `String.prototype.substring`, with their exact edge-case behaviour.
 */
module JsStrings {

  /** `s.indexOf(c)`: the first position of `c` in `s`, or -1 when absent. */
  function IndexOf(s: string, c: char): (r: int)
    ensures -1 <= r < |s|
  {
    if |s| == 0 then -1
    else if s[0] == c then 0
    else
      var k := IndexOf(s[1..], c);
      if k == -1 then -1 else k + 1
  }

  /** `indexOf` returns -1 exactly when `c` is absent, and otherwise a
      position holding `c` with no `c` before it. */
  lemma {:induction false} IndexOfSpec(s: string, c: char)
    ensures IndexOf(s, c) == -1 <==> c !in s
    ensures 0 <= IndexOf(s, c) ==> s[IndexOf(s, c)] == c && c !in s[..IndexOf(s, c)]
  {
    if |s| > 0 && s[0] != c {
      IndexOfSpec(s[1..], c);
      var k := IndexOf(s[1..], c);
      assert c in s <==> c in s[1..] by {
        assert s == [s[0]] + s[1..];
      }
      if k != -1 {
        assert s[..k + 1] == [s[0]] + s[1..][..k];
      }
    }
  }

  /** The first occurrence is determined by its two defining facts. */
  lemma IndexOfIs(s: string, c: char, k: nat)
    requires k < |s| && s[k] == c && c !in s[..k]
    ensures IndexOf(s, c) == k
  {
    IndexOfSpec(s, c);
  }

  /** How `substring` turns an index argument into a position: negative
      values become 0, values past the end become the length. */
  function Clamp(i: int, len: nat): (p: nat)
    ensures p <= len
  {
    if i < 0 then 0 else if i > len then len else i
  }

  /** Clamping keeps the order of two indices. */
  lemma ClampMonotone(i: int, j: int, len: nat)
    requires i <= j
    ensures Clamp(i, len) <= Clamp(j, len)
  {
  }

  /** `s.substring(start, end)`: both indices are clamped, then swapped
      when the first exceeds the second. */
  function Substring(s: string, start: int, end: int): (r: string)
    ensures 0 <= start <= end <= |s| ==> r == s[start..end]
  {
    var a, b := Clamp(start, |s|), Clamp(end, |s|);
    if a <= b then s[a..b] else s[b..a]
  }

  /** The result is as long as the distance between the clamped indices. */
  lemma SubstringLength(s: string, start: int, end: int)
    ensures var a, b := Clamp(start, |s|), Clamp(end, |s|);
      |Substring(s, start, end)| == if a <= b then b - a else a - b
  {
  }

  /** Out-of-range arguments act as the nearest in-range ones. */
  lemma SubstringClamped(s: string, start: int, end: int)
    ensures Substring(s, start, end) == Substring(s, Clamp(start, |s|), Clamp(end, |s|))
  {
  }

  /** The order of the two arguments never matters. */
  lemma SubstringSymmetric(s: string, start: int, end: int)
    ensures Substring(s, start, end) == Substring(s, end, start)
  {
  }
}
