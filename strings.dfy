/** Text helpers standing in for Python's `in`, `str.endswith` and `str.rindex`
    on the strings the uploader inspects. */
module Strings {

  /** `pat` occurs in `text` starting at index `i`. */
  ghost predicate OccursAt(text: string, pat: string, i: int)
  {
    0 <= i && i + |pat| <= |text| && text[i..i + |pat|] == pat
  }

  /** Declarative meaning of Python's `pat in text`. */
  ghost predicate Occurs(text: string, pat: string)
  {
    exists i :: OccursAt(text, pat, i)
  }

  predicate StartsWith(text: string, pat: string)
  {
    |pat| <= |text| && text[..|pat|] == pat
  }

  /** Python's `text.endswith(pat)`. */
  predicate EndsWith(text: string, pat: string)
  {
    |pat| <= |text| && text[|text| - |pat|..] == pat
  }

  /** Substring test by trying every start position from the left. */
  function Contains(text: string, pat: string): bool
    decreases |text|
  {
    if StartsWith(text, pat) then true
    else if |text| == 0 then false
    else Contains(text[1..], pat)
  }

  /** The scanning test agrees with the declarative one, in both directions. */
  lemma {:induction false} ContainsIffOccurs(text: string, pat: string)
    ensures Contains(text, pat) <==> Occurs(text, pat)
    decreases |text|
  {
    if StartsWith(text, pat) {
      assert OccursAt(text, pat, 0);
    } else if |text| == 0 {
    } else {
      ContainsIffOccurs(text[1..], pat);
      if Contains(text[1..], pat) {
        var i :| OccursAt(text[1..], pat, i);
        assert text[1..][i..i + |pat|] == text[i + 1..i + 1 + |pat|];
        assert OccursAt(text, pat, i + 1);
      }
      if Occurs(text, pat) {
        var i :| OccursAt(text, pat, i);
        assert i != 0;
        assert text[1..][i - 1..i - 1 + |pat|] == text[i..i + |pat|];
        assert OccursAt(text[1..], pat, i - 1);
      }
    }
  }

  /** Python's `s.rindex(c)`: the last index holding `c`, or None where
      Python raises ValueError. */
  function LastIndexOf(s: string, c: char): (r: Option<nat>)
    ensures r.Some? ==> r.value < |s| && s[r.value] == c
    ensures r.Some? ==> forall j :: r.value < j < |s| ==> s[j] != c
    ensures r.None? <==> c !in s
    decreases |s|
  {
    if |s| == 0 then None
    else if s[|s| - 1] == c then Some(|s| - 1)
    else
      var r := LastIndexOf(s[..|s| - 1], c);
      assert s == s[..|s| - 1] + [s[|s| - 1]];
      r
  }

  datatype Option<+T> = None | Some(value: T)
}
