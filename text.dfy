/** String helpers used by the scout's tools: ASCII case folding and substring search. */
module Text {

  predicate IsUpper(c: char) {
    'A' <= c <= 'Z'
  }

  /** Lower-cases one ASCII letter; every other character is left alone. */
  function LowerChar(c: char): char {
    if IsUpper(c) then (c as int + 32) as char else c
  }

  /** Case folding of a whole string, one character at a time. */
  function AsciiLower(s: string): (r: string)
    ensures |r| == |s|
    ensures forall i :: 0 <= i < |s| ==> r[i] == LowerChar(s[i])
    ensures forall i :: 0 <= i < |r| ==> !IsUpper(r[i])
  {
    if s == [] then [] else [LowerChar(s[0])] + AsciiLower(s[1..])
  }

  /** Folding a string that is already folded changes nothing. */
  lemma {:induction false} AsciiLowerIdempotent(s: string)
    ensures AsciiLower(AsciiLower(s)) == AsciiLower(s)
  {
    var once := AsciiLower(s);
    AsciiLowerFixesLowercase(once);
  }

  /** A string without upper-case letters is its own folding. */
  lemma {:induction false} AsciiLowerFixesLowercase(s: string)
    requires forall i :: 0 <= i < |s| ==> !IsUpper(s[i])
    ensures AsciiLower(s) == s
  {
    var r := AsciiLower(s);
    assert forall i :: 0 <= i < |s| ==> r[i] == s[i];
  }

  /** Two strings with the same folding differ at most in the case of their letters. */
  lemma AsciiLowerDetectsCaseVariants(a: string, b: string)
    requires AsciiLower(a) == AsciiLower(b)
    ensures |a| == |b|
    ensures forall i :: 0 <= i < |a| ==> LowerChar(a[i]) == LowerChar(b[i])
  {
    assert forall i :: 0 <= i < |a| ==> AsciiLower(a)[i] == AsciiLower(b)[i];
  }

  /** s appears in t starting at position i. */
  predicate OccursAt(t: string, s: string, i: int) {
    0 <= i <= |t| - |s| && t[i..i + |s|] == s
  }

  /** t holds s as a contiguous piece. */
  predicate Contains(t: string, s: string) {
    exists i :: 0 <= i <= |t| && OccursAt(t, s, i)
  }

  lemma ContainsMiddle(a: string, s: string, b: string)
    ensures Contains(a + s + b, s)
  {
    var t := a + s + b;
    assert OccursAt(t, s, |a|);
  }
}
