/** Generalisation of a string value (generalize_value, assign2.py:16-18). */
module Masking {

  /** `'*' * n`: n mask characters, none when n is not positive. */
  function Stars(n: int): (r: string)
    ensures |r| == if n <= 0 then 0 else n
    ensures forall i :: 0 <= i < |r| ==> r[i] == '*'
  {
    if n <= 0 then "" else Stars(n - 1) + "*"
  }

  function Min(a: int, b: int): int
  {
    if a <= b then a else b
  }

  /** `val_str[:level] + '*' * (len(val_str) - level)`: the first `level` characters
      are kept and every later one becomes a mask character. */
  function Generalize(s: string, level: nat): (r: string)
    ensures |r| == |s|
    ensures forall i :: 0 <= i < |s| ==> r[i] == if i < level then s[i] else '*'
  {
    s[..Min(level, |s|)] + Stars(|s| - level)
  }

  /** A level at or past the end of the value leaves it as it is. */
  lemma GeneralizeShortValue(s: string, level: nat)
    requires level >= |s|
    ensures Generalize(s, level) == s
  {
  }

  /** Generalising a generalised value at the same level changes nothing. */
  lemma GeneralizeIdempotent(s: string, level: nat)
    ensures Generalize(Generalize(s, level), level) == Generalize(s, level)
  {
  }

  /** Level 0 masks every character of the value. */
  lemma GeneralizeLevelZero(s: string)
    ensures Generalize(s, 0) == Stars(|s|)
  {
  }

  lemma GeneralizeExamples()
    ensures Generalize("secret", 2) == "se****"
    ensures Generalize("hi", 10) == "hi"
  {
    assert Stars(4) == "****";
  }
}
