/** The three ways a string column's risky rows are rewritten (assign2.py:149, 157, 163-164). */
module Redaction {
  import opened Masking

  datatype Strategy =
    | Suppression                             // the value becomes "*"
    | Generalization(level: nat)              // generalize_value(val, level)
    | SyntheticReplacement(fakes: seq<string>) // the row's own freshly generated value

  /** Synthetic replacement brings one generated value per row. */
  predicate Fits(s: Strategy, rows: nat)
  {
    s.SyntheticReplacement? ==> |s.fakes| == rows
  }

  /** What the strategy puts in place of `value` at row `i`. */
  function Replacement(s: Strategy, value: string, i: nat): (r: string)
    requires s.SyntheticReplacement? ==> i < |s.fakes|
    ensures s.Suppression? ==> r == "*"
    ensures s.Generalization? ==>
      |r| == |value| && forall j :: 0 <= j < |r| ==> r[j] == if j < s.level then value[j] else '*'
    ensures s.SyntheticReplacement? ==> r == s.fakes[i]
  {
    match s
    case Suppression => "*"
    case Generalization(level) => Generalize(value, level)
    case SyntheticReplacement(fakes) => fakes[i]
  }

  /** `[val if not risk else <replacement> for val, risk in zip(column, risky_rows)]` */
  function Redact(values: seq<string>, risky: seq<bool>, s: Strategy): (r: seq<string>)
    requires |risky| == |values| && Fits(s, |values|)
    ensures |r| == |values|
    ensures forall i :: 0 <= i < |values| && !risky[i] ==> r[i] == values[i]
    ensures forall i :: 0 <= i < |values| && risky[i] ==> r[i] == Replacement(s, values[i], i)
  {
    seq(|values|, i requires 0 <= i < |values| => if risky[i] then Replacement(s, values[i], i) else values[i])
  }

  /** A column with no risky row comes back unchanged, whatever the strategy. */
  lemma NoRiskNoChange(values: seq<string>, risky: seq<bool>, s: Strategy)
    requires |risky| == |values| && Fits(s, |values|)
    requires forall i :: 0 <= i < |risky| ==> !risky[i]
    ensures Redact(values, risky, s) == values
  {
  }

  /** Suppressing twice with the same flags is suppressing once. */
  lemma SuppressionIdempotent(values: seq<string>, risky: seq<bool>)
    requires |risky| == |values|
    ensures Redact(Redact(values, risky, Suppression), risky, Suppression) == Redact(values, risky, Suppression)
  {
  }

  /** Generalisation keeps every value's length; a risky value keeps its first `level`
      characters and is masked after them. */
  lemma GeneralizationShape(values: seq<string>, risky: seq<bool>, level: nat)
    requires |risky| == |values|
    ensures var r := Redact(values, risky, Generalization(level));
      forall i :: 0 <= i < |values| ==>
        |r[i]| == |values[i]|
        && (risky[i] ==> forall j :: 0 <= j < |r[i]| ==> r[i][j] == if j < level then values[i][j] else '*')
  {
  }

  /** Generalising twice at the same level with the same flags is generalising once. */
  lemma GeneralizationIdempotent(values: seq<string>, risky: seq<bool>, level: nat)
    requires |risky| == |values|
    ensures Redact(Redact(values, risky, Generalization(level)), risky, Generalization(level))
         == Redact(values, risky, Generalization(level))
  {
    forall i | 0 <= i < |values| && risky[i] {
      GeneralizeIdempotent(values[i], level);
    }
  }

  /** Risky values no longer than the level survive generalisation unchanged. */
  lemma GeneralizationOfShortValues(values: seq<string>, risky: seq<bool>, level: nat)
    requires |risky| == |values|
    requires forall i :: 0 <= i < |values| ==> |values[i]| <= level
    ensures Redact(values, risky, Generalization(level)) == values
  {
    forall i | 0 <= i < |values| {
      GeneralizeShortValue(values[i], level);
    }
  }

  /** Synthetic replacement puts the row's own generated value in each risky row. */
  lemma SyntheticReplacementUsesFakes(values: seq<string>, risky: seq<bool>, fakes: seq<string>)
    requires |risky| == |values| == |fakes|
    ensures var r := Redact(values, risky, SyntheticReplacement(fakes));
      forall i :: 0 <= i < |values| ==> r[i] == if risky[i] then fakes[i] else values[i]
  {
  }
}
