/** The two string operations of the search filter: `String.prototype.toLowerCase`
 *  and `String.prototype.includes`. */
module Text {

  /** `toLowerCase` on one character. Lower-cases the capital letters of ASCII
   *  (U+0041..U+005A) and of Latin-1 (U+00C0..U+00DE except the multiplication
   *  sign U+00D7), each of which maps to the code point 32 above it; every other
   *  character is returned unchanged. */
  function LowerChar(c: char): (l: char)
    ensures !(65 <= l as int <= 90) && !(0xC0 <= l as int <= 0xDE && l as int != 0xD7)
  {
    if 65 <= c as int <= 90 || (0xC0 <= c as int <= 0xDE && c as int != 0xD7)
    then (c as int + 32) as char
    else c
  }

  /** `s.toLowerCase()`, character by character. */
  function Lower(s: string): (r: string)
    ensures |r| == |s|
    ensures forall i :: 0 <= i < |s| ==> r[i] == LowerChar(s[i])
    decreases |s|
  {
    if s == [] then [] else [LowerChar(s[0])] + Lower(s[1..])
  }

  /** Lower-casing an already lower-cased string changes nothing. */
  lemma LowerIdempotent(s: string)
    ensures Lower(Lower(s)) == Lower(s)
  {
  }

  /** `s` begins with `t`. */
  predicate StartsWith(s: string, t: string)
  {
    |t| <= |s| && s[..|t|] == t
  }

  /** `t` occurs in `s` starting at position `i`. */
  ghost predicate OccursAt(s: string, t: string, i: int)
  {
    0 <= i && i + |t| <= |s| && s[i..i + |t|] == t
  }

  /** `t` occurs somewhere in `s`. */
  ghost predicate Occurs(s: string, t: string)
  {
    exists i :: OccursAt(s, t, i)
  }

  /** When `s` does not begin with `t`, `t` occurs in `s` exactly when it occurs in the tail of `s`. */
  lemma OccursInTail(s: string, t: string)
    requires s != [] && !StartsWith(s, t)
    ensures Occurs(s, t) <==> Occurs(s[1..], t)
  {
    if Occurs(s[1..], t) {
      var j :| OccursAt(s[1..], t, j);
      assert s[j + 1..j + 1 + |t|] == s[1..][j..j + |t|];
      assert OccursAt(s, t, j + 1);
    }
    if Occurs(s, t) {
      var i :| OccursAt(s, t, i);
      assert i != 0;
      assert s[1..][i - 1..i - 1 + |t|] == s[i..i + |t|];
      assert OccursAt(s[1..], t, i - 1);
    }
  }

  /** `s.includes(t)`: `t` is tried at each position of `s` from the first on;
   *  the result is true exactly when `t` occurs at some position. */
  predicate Includes(s: string, t: string)
    ensures Includes(s, t) <==> Occurs(s, t)
    decreases |s|
  {
    if StartsWith(s, t) then assert OccursAt(s, t, 0); true
    else if s == [] then false
    else OccursInTail(s, t); Includes(s[1..], t)
  }

  /** The empty string is included in every string. */
  lemma IncludesEmpty(s: string)
    ensures Includes(s, "")
  {
  }
}
