/**
  Character-level text operations the categorization engine relies on:
  ASCII lower-casing, case-insensitive equality, and literal substring search.

  Strings are `seq<char>`. Case mapping is ASCII only: 'A'..'Z' map to
  'a'..'z' and every other character is left alone.
 */
module Text {

  predicate IsUpperChar(c: char) {
    'A' <= c <= 'Z'
  }

  /** Lower-cases one ASCII letter; every other character is returned as is. */
  function LowerChar(c: char): (r: char)
    ensures !IsUpperChar(r)
  {
    if IsUpperChar(c) then (c as int + 32) as char else c
  }

  /** True iff no character of `s` is an upper-case letter. */
  predicate IsLower(s: string) {
    forall i :: 0 <= i < |s| ==> !IsUpperChar(s[i])
  }

  /** Lower-cases every character of `s`. */
  function ToLower(s: string): (r: string)
    ensures |r| == |s|
    ensures IsLower(r)
    ensures IsLower(s) ==> r == s
    ensures EqualsIgnoreCase(r, s)
  {
    seq(|s|, i requires 0 <= i < |s| => LowerChar(s[i]))
  }

  /** Two strings are equal ignoring case: same length, and every pair of
      characters at the same position lower-cases to the same character. */
  predicate EqualsIgnoreCase(a: string, b: string) {
    |a| == |b| && forall i :: 0 <= i < |a| ==> LowerChar(a[i]) == LowerChar(b[i])
  }

  /** `sub` occurs in `text` starting at offset `i`. */
  predicate StartsAt(text: string, sub: string, i: int) {
    0 <= i && i + |sub| <= |text| && text[i..i + |sub|] == sub
  }

  /** `sub` is a contiguous substring of `text` (the empty string is a
      substring of every text). */
  predicate Contains(text: string, sub: string) {
    exists i {:trigger StartsAt(text, sub, i)} :: 0 <= i <= |text| && StartsAt(text, sub, i)
  }

  /** Lower-casing is idempotent, and the lower-case strings are exactly its fixed points. */
  lemma ToLowerIdempotent(s: string)
    ensures ToLower(ToLower(s)) == ToLower(s)
    ensures IsLower(s) <==> ToLower(s) == s
  {
  }

  /** Lower-casing commutes with slicing. */
  lemma ToLowerSlice(s: string, i: int, j: int)
    requires 0 <= i <= j <= |s|
    ensures ToLower(s)[i..j] == ToLower(s[i..j])
  {
  }

  /** Lower-casing commutes with concatenation. */
  lemma ToLowerConcat(a: string, b: string)
    ensures ToLower(a + b) == ToLower(a) + ToLower(b)
  {
  }

  /** Equality ignoring case is equality after lower-casing, both ways. */
  lemma EqualsIgnoreCaseIffSameLower(a: string, b: string)
    ensures EqualsIgnoreCase(a, b) <==> ToLower(a) == ToLower(b)
  {
    if ToLower(a) == ToLower(b) {
      assert |a| == |b|;
      forall i | 0 <= i < |a|
        ensures LowerChar(a[i]) == LowerChar(b[i])
      {
        assert ToLower(a)[i] == ToLower(b)[i];
      }
    }
  }

  /** A keyword occurs in a text that is built around it. */
  lemma ContainsInfix(a: string, sub: string, b: string)
    ensures Contains(a + sub + b, sub)
  {
    var t := a + sub + b;
    assert t[|a|..|a| + |sub|] == sub;
    assert StartsAt(t, sub, |a|);
  }

  /** A text cannot contain a keyword that has a character the text lacks. */
  lemma NotContainsMissingChar(text: string, sub: string, c: char)
    requires c in sub
    requires c !in text
    ensures !Contains(text, sub)
  {
    var j :| 0 <= j < |sub| && sub[j] == c;
    forall i | 0 <= i <= |text|
      ensures !StartsAt(text, sub, i)
    {
      if i + |sub| <= |text| {
        assert text[i..i + |sub|][j] == text[i + j] != c;
      }
    }
  }

  /** Literal substring search, the test `text.contains(sub)` that the naive
      strategy performs: tries every start offset in turn and compares
      character by character. */
  method ContainsImpl(text: string, sub: string) returns (found: bool)
    ensures found <==> Contains(text, sub)
  {
    if |sub| > |text| {
      return false;
    }
    var i := 0;
    while i <= |text| - |sub|
      invariant 0 <= i <= |text| - |sub| + 1
      invariant forall k :: 0 <= k < i ==> !StartsAt(text, sub, k)
    {
      var j := 0;
      while j < |sub| && text[i + j] == sub[j]
        invariant 0 <= j <= |sub|
        invariant forall m :: 0 <= m < j ==> text[i + m] == sub[m]
      {
        j := j + 1;
      }
      if j == |sub| {
        assert text[i..i + |sub|] == sub;
        assert StartsAt(text, sub, i);
        return true;
      }
      assert text[i..i + |sub|][j] != sub[j];
      i := i + 1;
    }
    return false;
  }
}
