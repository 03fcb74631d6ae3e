/**
 * The two JavaScript string operations the admin search relies on:
 * `String.prototype.toLowerCase` (restricted to ASCII letters) and
 * `String.prototype.includes` (substring search, where the empty string
 * occurs in every string).
 */
module JsText {

  predicate IsAsciiUpper(c: char) {
    'A' <= c <= 'Z'
  }

  /** Lower-cases one character: ASCII capitals map to their lower-case letter, everything else is kept. */
  function LowerChar(c: char): (r: char)
    ensures !IsAsciiUpper(r)
    ensures !IsAsciiUpper(c) ==> r == c
    ensures IsAsciiUpper(c) ==> r as int == c as int + 32
  {
    if IsAsciiUpper(c) then (c as int + 32) as char else c
  }

  /** `s.toLowerCase()`, character by character. */
  function ToLower(s: string): (r: string)
    ensures |r| == |s|
    ensures forall i :: 0 <= i < |s| ==> r[i] == LowerChar(s[i])
  {
    if s == [] then [] else [LowerChar(s[0])] + ToLower(s[1..])
  }

  /** A lower-cased string has no capitals left, so lower-casing it again changes nothing. */
  lemma ToLowerIdempotent(s: string)
    ensures forall i :: 0 <= i < |s| ==> !IsAsciiUpper(ToLower(s)[i])
    ensures ToLower(ToLower(s)) == ToLower(s)
  {
    var t := ToLower(s);
    assert forall i :: 0 <= i < |t| ==> ToLower(t)[i] == t[i];
  }

  /** Lower-casing commutes with taking a slice. */
  lemma ToLowerSlice(s: string, i: nat, j: nat)
    requires i <= j <= |s|
    ensures ToLower(s)[i..j] == ToLower(s[i..j])
  {
    assert forall k :: 0 <= k < j - i ==> ToLower(s)[i..j][k] == ToLower(s[i..j])[k];
  }

  /** `q` occurs in `s` starting at index `i`. */
  ghost predicate OccursAt(s: string, q: string, i: int) {
    0 <= i && i + |q| <= |s| && s[i..i + |q|] == q
  }

  /**
   * `s.includes(q)`: tries every start position from the left, and holds
   * exactly when the query occurs somewhere in the string.
   */
  function Includes(s: string, q: string): (r: bool)
    ensures r <==> exists i :: OccursAt(s, q, i)
    decreases |s|
  {
    if |q| > |s| then false
    else if s[..|q|] == q then
      assert OccursAt(s, q, 0);
      true
    else
      var rest := Includes(s[1..], q);
      assert rest ==> exists i :: OccursAt(s, q, i) by {
        if rest {
          var i :| OccursAt(s[1..], q, i);
          assert s[1..][i..i + |q|] == s[i + 1..i + 1 + |q|];
          assert OccursAt(s, q, i + 1);
        }
      }
      assert (exists i :: OccursAt(s, q, i)) ==> rest by {
        if i :| OccursAt(s, q, i) {
          assert i != 0;
          assert s[1..][i - 1..i - 1 + |q|] == s[i..i + |q|];
          assert OccursAt(s[1..], q, i - 1);
        }
      }
      rest
  }

  /** The empty query occurs in every string, as in JavaScript. */
  lemma IncludesEmpty(s: string)
    ensures Includes(s, "")
  {
    assert s[..0] == "";
  }

  /** An occurrence survives lower-casing both sides. */
  lemma IncludesLower(s: string, q: string)
    requires Includes(s, q)
    ensures Includes(ToLower(s), ToLower(q))
  {
    var i :| OccursAt(s, q, i);
    ToLowerSlice(s, i, i + |q|);
    assert OccursAt(ToLower(s), ToLower(q), i);
  }
}
