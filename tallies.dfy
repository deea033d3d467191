/** The `[numerator, denominator]` pairs the purity reports accumulate, and
    what they are turned into once every file has been read
    (plotUnstacked.py, lines 233-235, 239, 344-351, 455-463). */
module Tallies {

  /** `np.array([num, den])`: events of the category's own process, and all
      events of the category. */
  datatype Tally = Tally(num: real, den: real)

  const Empty := Tally(0.0, 0.0)

  /** What a tally of non-negative integrals always satisfies. */
  ghost predicate Valid(t: Tally) {
    0.0 <= t.num <= t.den
  }

  /** One histogram counted in a category: its integral always goes to the
      denominator, and to the numerator only when the file is of the
      category's process. */
  function Record(t: Tally, integral: real, matches: bool): Tally {
    Tally(if matches then t.num + integral else t.num, t.den + integral)
  }

  /** A tally update adds the integral to the denominator, adds it to the
      numerator exactly when the file matches, and so keeps
      0 <= numerator <= denominator for non-negative integrals. */
  lemma RecordKeepsValid(t: Tally, integral: real, matches: bool)
    ensures Record(t, integral, matches).den - t.den == integral
    ensures Record(t, integral, matches).num - t.num == if matches then integral else 0.0
    ensures Valid(t) && integral >= 0.0 ==> Valid(Record(t, integral, matches))
  {
  }

  /** `num / den if den > 0 else 0` */
  function Purity(t: Tally): real {
    if t.den > 0.0 then t.num / t.den else 0.0
  }

  /** The purity is the numerator's share of a non-empty denominator, exactly
      zero for an empty one, and a fraction in [0, 1] for a valid tally. */
  lemma PurityIsFraction(t: Tally)
    ensures t.den > 0.0 ==> Purity(t) * t.den == t.num
    ensures t.den <= 0.0 ==> Purity(t) == 0.0
    ensures Valid(t) ==> 0.0 <= Purity(t) <= 1.0
  {
    if t.den > 0.0 && Valid(t) {
      assert t.num / t.den <= t.den / t.den;
    }
  }

  /** With `--raw_evt_number` the numerator itself is shown, otherwise the
      purity. */
  function Shown(t: Tally, raw: bool): real {
    if raw then t.num else Purity(t)
  }

  /** `[v4F / v5F if v5F > 0 else 0 for v4F, v5F in zip(values_4F, values_5F)]`:
      as long as the shorter list, each entry the quotient of the two
      entries at its position, or zero where the 5F entry is not positive. */
  function RatioOfSchemes(v4: seq<real>, v5: seq<real>): (r: seq<real>)
    ensures |r| == if |v4| <= |v5| then |v4| else |v5|
    ensures forall i :: 0 <= i < |r| ==> r[i] == if v5[i] > 0.0 then v4[i] / v5[i] else 0.0
  {
    if v4 == [] || v5 == [] then []
    else [if v5[0] > 0.0 then v4[0] / v5[0] else 0.0] + RatioOfSchemes(v4[1..], v5[1..])
  }

  /** Ratios of non-negative values are non-negative, and the ratio of a list
      of positive values to itself is all ones. */
  lemma RatioOfSchemesSigns(v4: seq<real>, v5: seq<real>)
    requires forall i :: 0 <= i < |v4| ==> v4[i] >= 0.0
    ensures forall i :: 0 <= i < |RatioOfSchemes(v4, v5)| ==> RatioOfSchemes(v4, v5)[i] >= 0.0
    ensures (forall i :: 0 <= i < |v4| ==> v4[i] > 0.0) ==>
      forall i :: 0 <= i < |v4| ==> RatioOfSchemes(v4, v4)[i] == 1.0
  {
    forall i | 0 <= i < |v4| && v4[i] > 0.0 ensures RatioOfSchemes(v4, v4)[i] == 1.0 {
      SelfQuotient(v4[i]);
    }
  }

  lemma SelfQuotient(x: real)
    requires x != 0.0
    ensures x / x == 1.0
  {
  }
}
