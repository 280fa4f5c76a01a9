/**
  Case-insensitive string comparison, as Go's `strings.EqualFold` performs it on
  its ASCII path: characters match when they are equal or are the upper- and
  lower-case forms of the same ASCII letter, and the strings must have equal length.
 */
module Fold {

  const CaseOffset: int := 'a' as int - 'A' as int

  /** ASCII lower-casing of one character; every other character is unchanged. */
  function FoldChar(c: char): char {
    if 'A' <= c <= 'Z' then (c as int + CaseOffset) as char else c
  }

  /** ASCII lower-casing of a whole string, position by position. */
  function Lower(s: string): (r: string)
    ensures |r| == |s|
    ensures forall i :: 0 <= i < |s| ==> r[i] == FoldChar(s[i])
  {
    seq(|s|, i requires 0 <= i < |s| => FoldChar(s[i]))
  }

  /**
    One step of the comparison loop: equal characters match; otherwise the smaller
    one must be an upper-case ASCII letter and the larger its lower-case form.
   */
  predicate CharsEqualFold(a: char, b: char) {
    var lo := if b < a then b else a;
    var hi := if b < a then a else b;
    a == b || ('A' <= lo <= 'Z' && hi as int == lo as int + CaseOffset)
  }

  /** The comparison loop: walk both strings together, then demand equal lengths. */
  predicate EqualFold(s: string, t: string)
    decreases |s|
  {
    if |s| == 0 || |t| == 0 then |s| == |t|
    else CharsEqualFold(s[0], t[0]) && EqualFold(s[1..], t[1..])
  }

  /** The pairwise test agrees with comparing the lower-cased characters. */
  lemma CharsEqualFoldIffSameLower(a: char, b: char)
    ensures CharsEqualFold(a, b) <==> FoldChar(a) == FoldChar(b)
  {
  }

  /** `EqualFold` holds exactly when both strings lower-case to the same string. */
  lemma {:induction false} EqualFoldIffSameLower(s: string, t: string)
    ensures EqualFold(s, t) <==> Lower(s) == Lower(t)
    decreases |s|
  {
    if |s| == 0 || |t| == 0 {
      assert |Lower(s)| == |s| && |Lower(t)| == |t|;
    } else {
      EqualFoldIffSameLower(s[1..], t[1..]);
      CharsEqualFoldIffSameLower(s[0], t[0]);
      if Lower(s) == Lower(t) {
        assert Lower(s)[0] == Lower(t)[0];
        assert Lower(s[1..]) == Lower(s)[1..];
        assert Lower(t[1..]) == Lower(t)[1..];
      }
      if EqualFold(s, t) {
        assert Lower(s) == [Lower(s)[0]] + Lower(s[1..]);
        assert Lower(t) == [Lower(t)[0]] + Lower(t[1..]);
      }
    }
  }

  /** `EqualFold` is an equivalence relation. */
  lemma EqualFoldEquivalence(s: string, t: string, u: string)
    ensures EqualFold(s, s)
    ensures EqualFold(s, t) ==> EqualFold(t, s)
    ensures EqualFold(s, t) && EqualFold(t, u) ==> EqualFold(s, u)
  {
    EqualFoldIffSameLower(s, s);
    EqualFoldIffSameLower(s, t);
    EqualFoldIffSameLower(t, s);
    EqualFoldIffSameLower(t, u);
    EqualFoldIffSameLower(s, u);
  }

  /** Lower-casing commutes with concatenation. */
  lemma LowerAppend(s: string, t: string)
    ensures Lower(s + t) == Lower(s) + Lower(t)
  {
  }

}
