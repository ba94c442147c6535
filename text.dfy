/** Character-level helpers: ASCII case folding, case-insensitive substring search
    and the alphabetic check `/^[a-zA-Z]+$/`. */
module Text {

  predicate IsLetter(c: char) {
    'a' <= c <= 'z' || 'A' <= c <= 'Z'
  }

  function LowerChar(c: char): (r: char)
    ensures !('A' <= r <= 'Z')
    ensures !('A' <= c <= 'Z') ==> r == c
    ensures IsLetter(c) <==> IsLetter(r)
  {
    if 'A' <= c <= 'Z' then (c as int + 32) as char else c
  }

  function Lower(s: string): (r: string)
    ensures |r| == |s|
    ensures forall i | 0 <= i < |s| :: r[i] == LowerChar(s[i])
  {
    seq(|s|, i requires 0 <= i < |s| => LowerChar(s[i]))
  }

  predicate EqualsIgnoringCase(a: string, b: string) {
    Lower(a) == Lower(b)
  }

  /** `pattern` occurs in `text` at offset `i`, up to case. */
  predicate OccursAt(text: string, pattern: string, i: int) {
    0 <= i <= |text| - |pattern| && Lower(text)[i..i + |pattern|] == Lower(pattern)
  }

  /** What a regular expression made of the literal `pattern` with the `i` flag
      finds in `text`: some window of `text` equals `pattern` up to case. */
  predicate ContainsIgnoringCase(text: string, pattern: string) {
    exists i | 0 <= i <= |text| - |pattern| :: OccursAt(text, pattern, i)
  }

  /** The test `/^[a-zA-Z]+$/`: non-empty and letters only. */
  predicate IsAlphabetic(s: string) {
    |s| > 0 && forall i | 0 <= i < |s| :: IsLetter(s[i])
  }

  /** The empty pattern occurs in every text, so an empty search matches every title. */
  lemma EmptyPatternEverywhere(text: string)
    ensures ContainsIgnoringCase(text, "")
  {
    assert OccursAt(text, "", 0);
  }

  /** `a` and `b` are the upper- and lower-case forms of one ASCII letter. */
  predicate OtherCase(a: char, b: char) {
    IsLetter(a) && IsLetter(b) && (a as int - b as int == 32 || b as int - a as int == 32)
  }

  /** Two characters fold to the same character exactly when they are equal or are
      the two cases of one letter. */
  lemma LowerCharEqual(a: char, b: char)
    ensures LowerChar(a) == LowerChar(b) <==> a == b || OtherCase(a, b)
  {
    if 'A' <= a <= 'Z' {
      assert LowerChar(a) as int == a as int + 32;
    }
    if 'A' <= b <= 'Z' {
      assert LowerChar(b) as int == b as int + 32;
    }
  }

  /** An occurrence of `pattern` at offset `i` in which each character is either
      the same or the other case of the same letter is found by the search that
      ignores case. */
  lemma CaseVariantOccurs(text: string, pattern: string, i: int)
    requires 0 <= i <= |text| - |pattern|
    requires forall k | 0 <= k < |pattern| :: text[i + k] == pattern[k] || OtherCase(text[i + k], pattern[k])
    ensures ContainsIgnoringCase(text, pattern)
  {
    assert Lower(text)[i..i + |pattern|] == Lower(pattern) by {
      forall k | 0 <= k < |pattern|
        ensures Lower(text)[i..i + |pattern|][k] == Lower(pattern)[k]
      {
        LowerCharEqual(text[i + k], pattern[k]);
      }
    }
    assert OccursAt(text, pattern, i);
  }

  /** Two texts that differ at most in the case of their letters are equal up to
      case. */
  lemma CaseVariantEqual(a: string, b: string)
    requires |a| == |b|
    requires forall k | 0 <= k < |a| :: a[k] == b[k] || OtherCase(a[k], b[k])
    ensures EqualsIgnoringCase(a, b)
  {
    forall k | 0 <= k < |a|
      ensures Lower(a)[k] == Lower(b)[k]
    {
      LowerCharEqual(a[k], b[k]);
    }
  }

  /** The search "mouse" finds the title "Wireless Mouse". */
  lemma MouseFindsMouse()
    ensures ContainsIgnoringCase("Wireless Mouse", "mouse")
  {
    CaseVariantOccurs("Wireless Mouse", "mouse", 9);
  }
}
