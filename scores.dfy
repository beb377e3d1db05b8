/** `normalize` (scripts/ask_api.py): min-max rescaling of a score column. */
module Scores {

  /** The `1e-8` added to the denominator so that it is never zero. */
  const Epsilon: real := 0.00000001

  function Max(s: seq<real>): (m: real)
    requires |s| > 0
    ensures forall i :: 0 <= i < |s| ==> s[i] <= m
    ensures exists i :: 0 <= i < |s| && s[i] == m
  {
    if |s| == 1 then s[0]
    else
      var m := Max(s[1..]);
      assert s[1..][0] == s[1];
      if s[0] >= m then s[0] else m
  }

  function Min(s: seq<real>): (m: real)
    requires |s| > 0
    ensures forall i :: 0 <= i < |s| ==> m <= s[i]
    ensures exists i :: 0 <= i < |s| && s[i] == m
  {
    if |s| == 1 then s[0]
    else
      var m := Min(s[1..]);
      assert s[1..][0] == s[1];
      if s[0] <= m then s[0] else m
  }

  /** No score set to rescale: empty, or every value the same. */
  predicate Flat(s: seq<real>) {
    |s| == 0 || Max(s) == Min(s)
  }

  /** One score rescaled against the column's minimum and maximum. */
  function Rescaled(x: real, lo: real, hi: real): real
    requires lo <= hi
  {
    (x - lo) / (hi - lo + Epsilon)
  }

  /**
   * `normalize(scores)`: `(x - min) / (max - min + 1e-8)` elementwise, or all
   * zeros when the input is empty or all its values are equal.
   */
  function Normalize(s: seq<real>): (r: seq<real>)
    ensures |r| == |s|
    ensures Flat(s) ==> forall i :: 0 <= i < |r| ==> r[i] == 0.0
  {
    if Flat(s) then seq(|s|, _ => 0.0)
    else
      var lo, hi := Min(s), Max(s);
      seq(|s|, i requires 0 <= i < |s| => Rescaled(s[i], lo, hi))
  }

  lemma RescaledBelowOne(x: real, lo: real, hi: real)
    requires lo <= x <= hi
    ensures 0.0 <= Rescaled(x, lo, hi) < 1.0
  {
    var d := hi - lo + Epsilon;
    var q := (x - lo) / d;
    assert q * d == x - lo;
  }

  lemma RescaledMinimum(lo: real, hi: real)
    requires lo <= hi
    ensures Rescaled(lo, lo, hi) == 0.0
  {
    var d := hi - lo + Epsilon;
    assert ((lo - lo) / d) * d == 0.0;
  }

  lemma RescaledMaximum(lo: real, hi: real)
    requires lo < hi
    ensures Rescaled(hi, lo, hi) > 0.0
  {
    var d := hi - lo + Epsilon;
    assert ((hi - lo) / d) * d == hi - lo;
  }

  lemma RescaledMonotone(x: real, y: real, lo: real, hi: real)
    requires x <= y && lo <= hi
    ensures Rescaled(x, lo, hi) <= Rescaled(y, lo, hi)
  {
    var d := hi - lo + Epsilon;
    assert ((y - lo) / d - (x - lo) / d) * d == y - x;
  }

  /** Every normalised score lies in [0, 1); strictly below 1 because of the 1e-8. */
  lemma NormalizeInUnitInterval(s: seq<real>)
    ensures forall i :: 0 <= i < |s| ==> 0.0 <= Normalize(s)[i] < 1.0
  {
    if !Flat(s) {
      var lo, hi := Min(s), Max(s);
      forall i | 0 <= i < |s| ensures 0.0 <= Normalize(s)[i] < 1.0 {
        RescaledBelowOne(s[i], lo, hi);
      }
    }
  }

  /** Normalisation preserves the order of scores: x <= y implies f(x) <= f(y). */
  lemma NormalizeMonotone(s: seq<real>)
    ensures forall i, j :: 0 <= i < |s| && 0 <= j < |s| && s[i] <= s[j] ==>
              Normalize(s)[i] <= Normalize(s)[j]
  {
    if !Flat(s) {
      var lo, hi := Min(s), Max(s);
      forall i, j | 0 <= i < |s| && 0 <= j < |s| && s[i] <= s[j]
        ensures Normalize(s)[i] <= Normalize(s)[j]
      {
        RescaledMonotone(s[i], s[j], lo, hi);
      }
    }
  }

  /** The minimum maps to 0. */
  lemma NormalizeMinIsZero(s: seq<real>)
    ensures forall i :: 0 <= i < |s| && s[i] == Min(s) ==> Normalize(s)[i] == 0.0
  {
    if !Flat(s) {
      RescaledMinimum(Min(s), Max(s));
    }
  }

  /**
   * The output is all zeros exactly when the input is empty or flat: otherwise
   * the maximum maps to a positive value.
   */
  lemma NormalizeAllZerosIffFlat(s: seq<real>)
    ensures (forall i :: 0 <= i < |s| ==> Normalize(s)[i] == 0.0) <==> Flat(s)
  {
    if !Flat(s) {
      var lo, hi := Min(s), Max(s);
      var top :| 0 <= top < |s| && s[top] == hi;
      RescaledMaximum(lo, hi);
      assert Normalize(s)[top] > 0.0;
    }
  }
}
