/** The few Python 2 string operations the codec and the inspector rely on. */
module PyString {
  import opened Base

  /** The characters Python 2's `str.strip()` removes (`string.whitespace`). */
  predicate IsSpace(c: char) {
    c == ' ' || c == '\t' || c == '\n' || c == '\r' || c == '\U{0B}' || c == '\U{0C}'
  }

  /** Number of whitespace characters at the start of `s`. */
  function LeadingSpaces(s: string): (n: nat)
    ensures n <= |s|
    ensures forall k :: 0 <= k < n ==> IsSpace(s[k])
    ensures n < |s| ==> !IsSpace(s[n])
  {
    if s == [] || !IsSpace(s[0]) then 0 else 1 + LeadingSpaces(s[1..])
  }

  /** Number of whitespace characters at the end of `s`. */
  function TrailingSpaces(s: string): (n: nat)
    ensures n <= |s|
    ensures forall k :: |s| - n <= k < |s| ==> IsSpace(s[k])
    ensures n < |s| ==> !IsSpace(s[|s| - 1 - n])
  {
    if s == [] || !IsSpace(s[|s| - 1]) then 0 else 1 + TrailingSpaces(s[..|s| - 1])
  }

  /** `r` is the slice of `s` at `i`, and only whitespace lies around it. */
  predicate SurroundedBySpace(s: string, r: string, i: int) {
    0 <= i && i + |r| <= |s| && r == s[i..i + |r|]
    && (forall k :: 0 <= k < i ==> IsSpace(s[k]))
    && (forall k :: i + |r| <= k < |s| ==> IsSpace(s[k]))
  }

  /** `s.strip()`: the slice of `s` left once the whitespace at both ends is removed. */
  function Strip(s: string): (r: string)
    ensures r == [] || (!IsSpace(r[0]) && !IsSpace(r[|r| - 1]))
    ensures exists i :: SurroundedBySpace(s, r, i)
  {
    var i := LeadingSpaces(s);
    if i == |s| then
      assert SurroundedBySpace(s, [], 0);
      []
    else
      var t := TrailingSpaces(s[i..]);
      var r := s[i..|s| - t];
      assert SurroundedBySpace(s, r, i);
      r
  }

  /** Index of the last occurrence of `c` in `s`, or -1. */
  function LastIndexOf(s: string, c: char): (r: int)
    ensures -1 <= r < |s|
    ensures r >= 0 ==> s[r] == c && forall k :: r < k < |s| ==> s[k] != c
    ensures r == -1 <==> c !in s
  {
    if s == [] then -1
    else if s[|s| - 1] == c then |s| - 1
    else LastIndexOf(s[..|s| - 1], c)
  }

  /** `node, plug = s.rsplit('.', 1)`: `None` when the unpacking would fail (no dot). */
  function RSplitDot(s: string): (r: Option<(string, string)>)
    ensures r.None? <==> '.' !in s
    ensures r.Some? ==> s == r.value.0 + "." + r.value.1 && '.' !in r.value.1
  {
    var k := LastIndexOf(s, '.');
    if k < 0 then None
    else
      assert s == s[..k] + "." + s[k + 1..];
      Some((s[..k], s[k + 1..]))
  }

  /** Splitting at the last dot is the only way to cut `s` into a prefix, a dot and a dot-free suffix. */
  lemma {:induction false} RSplitDotUnique(node: string, plug: string)
    requires '.' !in plug
    ensures RSplitDot(node + "." + plug) == Some((node, plug))
  {
    var s := node + "." + plug;
    var r := RSplitDot(s);
    assert s[|node|] == '.';
    var a, b := r.value.0, r.value.1;
    assert |b| == |plug|;
    assert b == s[|s| - |b|..] == plug;
    assert a == s[..|a|] == node;
  }

  /** `pat` occurs in `s` at position `i`. */
  predicate OccursAt(s: string, pat: string, i: int) {
    0 <= i && i + |pat| <= |s| && s[i..i + |pat|] == pat
  }

  /** `s.find(pat, start)` for `0 <= start`: the first position at or after `start` where `pat` occurs, or -1. */
  function FindFrom(s: string, pat: string, start: nat): (r: int)
    ensures r == -1 || (start <= r && OccursAt(s, pat, r))
    ensures r == -1 ==> forall k :: start <= k ==> !OccursAt(s, pat, k)
    ensures r >= 0 ==> forall k :: start <= k < r ==> !OccursAt(s, pat, k)
    decreases |s| - start
  {
    if start + |pat| > |s| then -1
    else if s[start..start + |pat|] == pat then start
    else FindFrom(s, pat, start + 1)
  }

  /** `s.find(pat)`. */
  function Find(s: string, pat: string): (r: int)
    ensures r == -1 || OccursAt(s, pat, r)
    ensures r == -1 ==> forall k :: !OccursAt(s, pat, k)
    ensures r >= 0 ==> forall k :: 0 <= k < r ==> !OccursAt(s, pat, k)
  {
    FindFrom(s, pat, 0)
  }
}
