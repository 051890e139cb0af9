/** Laplace noise on a numeric column (apply_differential_privacy, assign2.py:11-14). */
module Noise {
  import opened Tables

  function Max(xs: seq<real>): (m: real)
    requires |xs| > 0
    ensures m in xs && forall x :: x in xs ==> x <= m
  {
    if |xs| == 1 then xs[0]
    else
      var rest := Max(xs[1..]);
      assert forall x :: x in xs ==> x == xs[0] || x in xs[1..];
      if xs[0] >= rest then xs[0] else rest
  }

  function Min(xs: seq<real>): (m: real)
    requires |xs| > 0
    ensures m in xs && forall x :: x in xs ==> m <= x
  {
    if |xs| == 1 then xs[0]
    else
      var rest := Min(xs[1..]);
      assert forall x :: x in xs ==> x == xs[0] || x in xs[1..];
      if xs[0] <= rest then xs[0] else rest
  }

  /** `np.max(data) - np.min(data)`: the range of the column, zero exactly when all
      its values are equal. */
  function Sensitivity(data: seq<real>): (s: real)
    requires |data| > 0
    ensures s >= 0.0
    ensures s == 0.0 <==> forall x :: x in data ==> x == data[0]
  {
    Max(data) - Min(data)
  }

  /** `data + np.random.laplace(0, sensitivity / epsilon, size=len(data))`. A Laplace
      draw of scale b is b times a draw of scale 1, so the caller supplies the unit
      draws `unit`, one per row. The source does not check epsilon itself. A zero
      epsilon is an error: for an empty column the range is pandas' plain float NaN,
      and dividing it by zero raises; for any other column the scale is not finite.
      Otherwise an empty column draws no noise and comes back empty, its NaN scale
      passing numpy's sign check. numpy refuses a scale whose sign is negative, which
      for a non-empty column is every negative epsilon (a zero range divided by it is
      -0.0). */
  function ApplyDifferentialPrivacy(data: seq<real>, epsilon: real, unit: seq<real>): (r: Result<seq<real>>)
    requires |unit| == |data|
    ensures r.Success? <==> epsilon > 0.0 || (|data| == 0 && epsilon < 0.0)
    ensures r == Failure(ZeroEpsilon) <==> epsilon == 0.0
    ensures r == Failure(NegativeScale) <==> |data| > 0 && epsilon < 0.0
    ensures r.Success? ==> |r.value| == |data|
    ensures r.Success? ==> forall i :: 0 <= i < |data| ==>
      r.value[i] == data[i] + Scaled(Sensitivity(data) / epsilon, unit[i])
  {
    if epsilon == 0.0 then Failure(ZeroEpsilon)
    else if |data| == 0 then Success([])
    else if epsilon < 0.0 then Failure(NegativeScale)
    else
      var scale := Sensitivity(data) / epsilon;
      Success(seq(|data|, i requires 0 <= i < |data| => data[i] + Scaled(scale, unit[i])))
  }

  /** A unit Laplace draw `u` stretched to scale `b`: a draw of scale `b`. */
  function Scaled(b: real, u: real): real
  {
    b * u
  }

  function Abs(x: real): real
  {
    if x < 0.0 then -x else x
  }

  /** A column whose values are all equal has range zero: a positive epsilon adds no
      noise, and any other epsilon is refused as for every non-empty column. */
  lemma ConstantColumnUnchanged(data: seq<real>, epsilon: real, unit: seq<real>)
    requires |unit| == |data| && |data| > 0
    requires forall i :: 0 <= i < |data| ==> data[i] == data[0]
    ensures ApplyDifferentialPrivacy(data, epsilon, unit) ==
      if epsilon > 0.0 then Success(data)
      else if epsilon == 0.0 then Failure(ZeroEpsilon)
      else Failure(NegativeScale)
  {
    if epsilon <= 0.0 {
      return;
    }
    assert forall x :: x in data ==> x == data[0];
    assert Sensitivity(data) == 0.0;
    var r := ApplyDifferentialPrivacy(data, epsilon, unit);
    assert r.Success?;
    forall i | 0 <= i < |data| ensures r.value[i] == data[i] {
      calc {
        r.value[i];
        data[i] + Sensitivity(data) / epsilon * unit[i];
        data[i] + 0.0 / epsilon * unit[i];
        data[i];
      }
    }
    assert r.value == data;
  }

  lemma ScaleShrinks(s: real, e1: real, e2: real)
    requires s >= 0.0 && 0.0 < e1 <= e2
    ensures 0.0 <= s / e2 <= s / e1
  {
    assert s / e1 - s / e2 == s * (e2 - e1) / (e1 * e2);
    assert s * (e2 - e1) >= 0.0;
    assert e1 * e2 > 0.0;
  }

  lemma ScaledAbs(d: real, x1: real, x2: real, b1: real, b2: real, u: real)
    requires 0.0 <= b2 <= b1
    requires x1 == d + Scaled(b1, u) && x2 == d + Scaled(b2, u)
    ensures Abs(x2 - d) <= Abs(x1 - d)
  {
    if u >= 0.0 {
      assert b2 * u <= b1 * u;
    } else {
      assert b2 * -u <= b1 * -u;
    }
  }

  /** A larger epsilon never perturbs a value more, for the same draws. */
  lemma NoiseShrinksAsEpsilonGrows(data: seq<real>, e1: real, e2: real, unit: seq<real>)
    requires |unit| == |data| && |data| > 0
    requires 0.0 < e1 <= e2
    ensures ApplyDifferentialPrivacy(data, e1, unit).Success?
    ensures ApplyDifferentialPrivacy(data, e2, unit).Success?
    ensures forall i :: 0 <= i < |data| ==>
      Abs(ApplyDifferentialPrivacy(data, e2, unit).value[i] - data[i])
        <= Abs(ApplyDifferentialPrivacy(data, e1, unit).value[i] - data[i])
  {
    forall i | 0 <= i < |data|
      ensures Abs(ApplyDifferentialPrivacy(data, e2, unit).value[i] - data[i])
        <= Abs(ApplyDifferentialPrivacy(data, e1, unit).value[i] - data[i])
    {
      RowShrinks(data, e1, e2, unit, i);
    }
  }

  lemma RowShrinks(data: seq<real>, e1: real, e2: real, unit: seq<real>, i: nat)
    requires |unit| == |data| && i < |data|
    requires 0.0 < e1 <= e2
    ensures ApplyDifferentialPrivacy(data, e1, unit).Success?
    ensures ApplyDifferentialPrivacy(data, e2, unit).Success?
    ensures Abs(ApplyDifferentialPrivacy(data, e2, unit).value[i] - data[i])
      <= Abs(ApplyDifferentialPrivacy(data, e1, unit).value[i] - data[i])
  {
    var s := Sensitivity(data);
    var x1 := ApplyDifferentialPrivacy(data, e1, unit).value[i];
    var x2 := ApplyDifferentialPrivacy(data, e2, unit).value[i];
    ScaleShrinks(s, e1, e2);
    ScaledAbs(data[i], x1, x2, s / e1, s / e2, unit[i]);
  }

}
