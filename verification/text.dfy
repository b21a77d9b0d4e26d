/**
 Strings as the scorer and the pages see them: lower-casing (JavaScript's
 `String.prototype.toLowerCase`, restricted to ASCII letters) and substring
 search (`String.prototype.includes`).
 */
module Text {

  predicate IsUpper(c: char) {
    'A' <= c <= 'Z'
  }

  /** Lower-case one character: `A`..`Z` map to `a`..`z`, everything else is kept. */
  function LowerChar(c: char): char {
    if IsUpper(c) then (c as int + 32) as char else c
  }

  /** `s.toLowerCase()`: the same length, every upper-case letter replaced by
      the matching lower-case letter, and every other character kept as it was. */
  function ToLower(s: string): (r: string)
    ensures |r| == |s|
    ensures forall i :: 0 <= i < |r| ==> !IsUpper(r[i])
    ensures forall i :: 0 <= i < |s| && !IsUpper(s[i]) ==> r[i] == s[i]
    ensures forall i :: 0 <= i < |s| && IsUpper(s[i]) ==>
      'a' <= r[i] <= 'z' && r[i] as int - 'a' as int == s[i] as int - 'A' as int
  {
    seq(|s|, i requires 0 <= i < |s| => LowerChar(s[i]))
  }

  /** Lower-casing a lower-cased string changes nothing. */
  lemma ToLowerIdempotent(s: string)
    ensures ToLower(ToLower(s)) == ToLower(s)
  {
  }

  /** A string with no upper-case letter is its own lower-cased form. */
  lemma ToLowerOfLower(s: string)
    requires forall i :: 0 <= i < |s| ==> !IsUpper(s[i])
    ensures ToLower(s) == s
  {
  }

  /** Lower-casing works character by character, so it distributes over concatenation. */
  lemma ToLowerAppend(s: string, t: string)
    ensures ToLower(s + t) == ToLower(s) + ToLower(t)
  {
    assert forall i :: 0 <= i < |s + t| ==> ToLower(s + t)[i] == (ToLower(s) + ToLower(t))[i];
  }

  /** `p` sits in `s` starting at index `i`. */
  predicate OccursAt(s: string, p: string, i: int) {
    0 <= i && i + |p| <= |s| && s[i..i + |p|] == p
  }

  /** `p` is a substring of `s` (the empty string is a substring of every string). */
  ghost predicate Occurs(s: string, p: string) {
    exists i :: OccursAt(s, p, i)
  }

  /** Searching the tail is enough once `p` is known not to start at index 0. */
  lemma OccursInTail(s: string, p: string)
    requires |s| > 0 && !OccursAt(s, p, 0)
    ensures Occurs(s, p) <==> Occurs(s[1..], p)
  {
    if Occurs(s, p) {
      var i :| OccursAt(s, p, i);
      assert i > 0;
      assert s[1..][i - 1..i - 1 + |p|] == s[i..i + |p|];
      assert OccursAt(s[1..], p, i - 1);
    }
    if Occurs(s[1..], p) {
      var j :| OccursAt(s[1..], p, j);
      assert s[j + 1..j + 1 + |p|] == s[1..][j..j + |p|];
      assert OccursAt(s, p, j + 1);
    }
  }

  /** `s.includes(p)`: a left-to-right scan that answers exactly whether `p` is a substring of `s`. */
  function Includes(s: string, p: string): (r: bool)
    ensures r <==> Occurs(s, p)
    decreases |s|
  {
    if |p| <= |s| && s[..|p|] == p then
      assert OccursAt(s, p, 0);
      true
    else if |s| == 0 then
      assert forall i :: !OccursAt(s, p, i);
      false
    else
      OccursInTail(s, p);
      Includes(s[1..], p)
  }

  /** Text only ever gains substrings when more text is appended on either side. */
  lemma OccursExtend(s: string, p: string, before: string, after: string)
    requires Occurs(s, p)
    ensures Occurs(before + s + after, p)
  {
    var i :| OccursAt(s, p, i);
    var t := before + s + after;
    assert t[|before| + i..|before| + i + |p|] == s[i..i + |p|];
    assert OccursAt(t, p, |before| + i);
  }

  /** When `p` does not start at index 0 and its first character appears
      nowhere else in `s`, `p` is not a substring of `s`. */
  lemma OnlyCandidateAtStart(s: string, p: string)
    requires |p| > 0 && !OccursAt(s, p, 0)
    requires forall i :: 0 < i < |s| ==> s[i] != p[0]
    ensures !Occurs(s, p)
  {
    forall i | 0 < i && i + |p| <= |s|
      ensures !OccursAt(s, p, i)
    {
      assert s[i..i + |p|][0] == s[i] != p[0];
    }
  }

  /** A string that lacks some character of `p` cannot contain `p`. */
  lemma MissingCharExcludes(s: string, p: string, j: int)
    requires 0 <= j < |p| && p[j] !in s
    ensures !Occurs(s, p)
  {
    forall i | 0 <= i && i + |p| <= |s|
      ensures !OccursAt(s, p, i)
    {
      assert s[i..i + |p|][j] == s[i + j] != p[j];
    }
  }
}
