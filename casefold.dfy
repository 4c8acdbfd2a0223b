/**
 * Case-insensitive substring search as PHP 8's `stripos` performs it:
 * both strings are folded to lower case with the locale-independent ASCII
 * table (only 'A'..'Z' change) and the folded needle is searched for in the
 * folded haystack. An empty needle is found at offset 0.
 */
module CaseFold {

  predicate IsUpper(c: char) { 'A' <= c <= 'Z' }

  /** ASCII lower-casing of one character; every other character is kept. */
  function Lower(c: char): (r: char)
    ensures !IsUpper(r)
    ensures IsUpper(c) ==> r as int == c as int + 32
    ensures !IsUpper(c) ==> r == c
  {
    if IsUpper(c) then (c as int + 32) as char else c
  }

  /** The string folded character by character. */
  function LowerStr(s: string): string {
    seq(|s|, i requires 0 <= i < |s| => Lower(s[i]))
  }

  /** `p` occurs in `t` starting at offset `i`. */
  predicate OccursAt(p: string, t: string, i: int) {
    0 <= i && i + |p| <= |t| && t[i..i + |p|] == p
  }

  predicate IsSubstring(p: string, t: string) {
    exists i :: 0 <= i <= |t| - |p| && OccursAt(p, t, i)
  }

  /** `stripos(text, phrase) !== false`. */
  predicate ContainsCI(text: string, phrase: string) {
    IsSubstring(LowerStr(phrase), LowerStr(text))
  }

  /** Folding commutes with concatenation. */
  lemma LowerStrConcat(a: string, b: string)
    ensures LowerStr(a + b) == LowerStr(a) + LowerStr(b)
  {
  }

  /**
   * A text that contains the phrase in any casing matches it: whatever
   * surrounds an occurrence `m` that folds like the phrase, `stripos` finds it.
   */
  lemma ContainsCIEmbedded(a: string, m: string, b: string, phrase: string)
    requires LowerStr(m) == LowerStr(phrase)
    ensures ContainsCI(a + m + b, phrase)
  {
    LowerStrConcat(a + m, b);
    LowerStrConcat(a, m);
    var t := LowerStr(a + m + b);
    assert t == LowerStr(a) + LowerStr(phrase) + LowerStr(b);
    assert t[|a|..|a| + |phrase|] == LowerStr(phrase);
    assert OccursAt(LowerStr(phrase), t, |a|);
  }

  /**
   * Conversely, a match is always such an occurrence: the text splits around
   * a part that folds like the phrase.
   */
  lemma ContainsCISplits(text: string, phrase: string)
    requires ContainsCI(text, phrase)
    ensures exists a, m, b :: text == a + m + b && LowerStr(m) == LowerStr(phrase)
  {
    var i :| 0 <= i <= |text| - |phrase| && OccursAt(LowerStr(phrase), LowerStr(text), i);
    var a, m, b := text[..i], text[i..i + |phrase|], text[i + |phrase|..];
    assert text == a + m + b;
    assert LowerStr(m) == LowerStr(text)[i..i + |phrase|];
  }

  /**
   * If some character of the folded phrase occurs in the text in neither
   * case, the phrase is not found.
   */
  lemma NotContainsCIMissingChar(text: string, phrase: string, k: nat)
    requires k < |phrase| && 'a' <= Lower(phrase[k]) <= 'z'
    requires Lower(phrase[k]) !in text
    requires (Lower(phrase[k]) as int - 32) as char !in text
    ensures !ContainsCI(text, phrase)
  {
    forall i | 0 <= i <= |text| - |phrase|
      ensures !OccursAt(LowerStr(phrase), LowerStr(text), i)
    {
      assert text[i + k] in text;
      assert LowerStr(text)[i..i + |phrase|][k] != LowerStr(phrase)[k];
    }
  }

}
