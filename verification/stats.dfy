/**
  * Sums, means and percentages over exact reals, with the scripts' guard
  * that an empty list or a zero denominator gives 0.
  */
module Stats {

  function Sum(xs: seq<real>): real {
    if xs == [] then 0.0 else Sum(xs[..|xs| - 1]) + xs[|xs| - 1]
  }

  /** `sum(xs) / len(xs) if xs else 0`. */
  function Mean(xs: seq<real>): real {
    if xs == [] then 0.0 else Sum(xs) / |xs| as real
  }

  /** `part / whole * 100 if whole > 0 else 0`. */
  function Percent(part: nat, whole: nat): real {
    if whole > 0 then part as real / whole as real * 100.0 else 0.0
  }

  /** `part / whole if whole > 0 else 0`. */
  function Ratio(part: nat, whole: nat): real {
    if whole > 0 then part as real / whole as real else 0.0
  }

  /** A sum of values within `[lo, hi]` lies within `[n * lo, n * hi]`. */
  lemma {:induction false} SumBounds(xs: seq<real>, lo: real, hi: real)
    requires forall i :: 0 <= i < |xs| ==> lo <= xs[i] <= hi
    ensures |xs| as real * lo <= Sum(xs) <= |xs| as real * hi
  {
    if xs != [] {
      SumBounds(xs[..|xs| - 1], lo, hi);
    }
  }

  /** A mean of values within `[lo, hi]` lies within `[lo, hi]`; the mean of
      nothing is 0. */
  lemma MeanBounds(xs: seq<real>, lo: real, hi: real)
    requires forall i :: 0 <= i < |xs| ==> lo <= xs[i] <= hi
    ensures xs == [] ==> Mean(xs) == 0.0
    ensures xs != [] ==> lo <= Mean(xs) <= hi
  {
    if xs != [] {
      SumBounds(xs, lo, hi);
      var n := |xs| as real;
      assert n * lo / n == lo && n * hi / n == hi;
    }
  }

  /** The mean times the number of values gives back the sum. */
  lemma MeanTimesCount(xs: seq<real>, n: nat)
    requires n == |xs|
    ensures Mean(xs) * n as real == Sum(xs)
  {
    if xs != [] {
      var n := |xs| as real;
      assert Sum(xs) / n * n == Sum(xs);
    }
  }

  /** Adding a value to the end adds it to the sum. */
  lemma SumAppend(xs: seq<real>, x: real)
    ensures Sum(xs + [x]) == Sum(xs) + x
  {
    assert (xs + [x])[..|xs|] == xs;
  }

  /** A part of a whole is between 0 and 100 percent, and 0 of nothing. */
  lemma PercentBounds(part: nat, whole: nat)
    requires part <= whole
    ensures 0.0 <= Percent(part, whole) <= 100.0
    ensures 0.0 <= Ratio(part, whole) <= 1.0
    ensures whole == 0 ==> Percent(part, whole) == 0.0 && Ratio(part, whole) == 0.0
    ensures Percent(part, whole) == Ratio(part, whole) * 100.0
  {
    if whole > 0 {
      assert part as real / whole as real <= 1.0;
    }
  }
}
