/**
 * Stand-ins for the two string routines the ranking engine calls:
 * `strings.ToLower`, restricted to ASCII, and `strings.Contains`.
 */
module Text {

  predicate IsUpper(c: char) {
    'A' <= c <= 'Z'
  }

  /** ASCII lower-casing of one character; every other character is kept. */
  function LowerChar(c: char): (r: char)
    ensures !IsUpper(r)
    ensures IsUpper(c) ==> r as int == c as int + 32
    ensures !IsUpper(c) ==> r == c
  {
    if IsUpper(c) then (c as int + 32) as char else c
  }

  /** `strings.ToLower`, character by character. */
  function Lower(s: string): (r: string)
    ensures |r| == |s|
    ensures forall i :: 0 <= i < |s| ==> r[i] == LowerChar(s[i])
  {
    if s == [] then [] else [LowerChar(s[0])] + Lower(s[1..])
  }

  predicate HasUpper(s: string) {
    exists i :: 0 <= i < |s| && IsUpper(s[i])
  }

  /** `t` occurs in `s` starting at offset `i`. */
  predicate OccursAt(t: string, s: string, i: nat) {
    i + |t| <= |s| && s[i..i + |t|] == t
  }

  /** `strings.Contains(s, t)`: `t` occurs in `s` at some offset. */
  predicate IsSubstring(t: string, s: string) {
    exists i: nat | i <= |s| :: OccursAt(t, s, i)
  }

  lemma LowerIsLower(s: string)
    ensures !HasUpper(Lower(s))
  {
  }

  lemma LowerIdempotent(s: string)
    ensures Lower(Lower(s)) == Lower(s)
  {
  }

  lemma EmptyIsSubstring(s: string)
    ensures IsSubstring([], s)
  {
    assert OccursAt([], s, 0);
  }
}
