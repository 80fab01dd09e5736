/**
 Weighting, the criterion sum, centroid defuzzification and the optimality
 degree of every alternative.
 */
module Utility {
  import opened Fuzzy
  import opened Optimal

  lemma ProductBelow(n: real, w: real)
    requires 0.0 <= n <= 1.0 && 0.0 <= w
    ensures 0.0 <= n * w <= w
  {
    assert w - n * w == (1.0 - n) * w;
  }

  /** One cell of `weightedNormalized`: the normalised triangle times the
      criterion weight, component by component. A unit-cube triangle weighted
      by a non-negative weight lies between 0 and the weight. */
  function Weigh(n: TFN, w: TFN): (r: TFN)
    ensures InUnit(n) && NonNeg(w) ==> NonNeg(r) && Leq(r, w)
  {
    var r := Mul(n, w);
    assert InUnit(n) && NonNeg(w) ==> NonNeg(r) && Leq(r, w) by {
      if InUnit(n) && NonNeg(w) {
        ProductBelow(n.l, w.l);
        ProductBelow(n.m, w.m);
        ProductBelow(n.u, w.u);
      }
    }
    r
  }

  /** `weightedNormalized`. */
  function WeightedMatrix(norm: seq<seq<TFN>>, weights: seq<TFN>): (r: seq<seq<TFN>>)
    requires Rows(norm, |weights|)
    ensures |r| == |norm| && Rows(r, |weights|)
    ensures (forall a, j :: 0 <= a < |norm| && 0 <= j < |weights| ==> InUnit(norm[a][j])) &&
            (forall j :: 0 <= j < |weights| ==> NonNeg(weights[j])) ==>
      forall a, j :: 0 <= a < |norm| && 0 <= j < |weights| ==> NonNeg(r[a][j]) && Leq(r[a][j], weights[j])
  {
    seq(|norm|, a requires 0 <= a < |norm| =>
      seq(|weights|, j requires 0 <= j < |weights| => Weigh(norm[a][j], weights[j])))
  }

  /** A sum of non-negative triangles is non-negative. */
  lemma SumNonNeg(s: seq<TFN>)
    requires forall i :: 0 <= i < |s| ==> NonNeg(s[i])
    ensures NonNeg(Sum(s))
  {
    SumMonotone(seq(|s|, _ => Zero), s);
    SumConstant(seq(|s|, _ => Zero), Zero);
  }

  /** `utilitiesFuzzy`: each alternative's weighted triangles summed over
      the criteria. */
  function FuzzyUtilities(weighted: seq<seq<TFN>>): (r: seq<TFN>)
    ensures |r| == |weighted|
    ensures forall a :: 0 <= a < |weighted| ==>
      ((forall j :: 0 <= j < |weighted[a]| ==> NonNeg(weighted[a][j])) ==> NonNeg(r[a]))
  {
    var r := seq(|weighted|, a requires 0 <= a < |weighted| => Sum(weighted[a]));
    assert forall a :: 0 <= a < |weighted| ==>
      ((forall j :: 0 <= j < |weighted[a]| ==> NonNeg(weighted[a][j])) ==> NonNeg(r[a])) by {
      forall a | 0 <= a < |weighted| && (forall j :: 0 <= j < |weighted[a]| ==> NonNeg(weighted[a][j]))
        ensures NonNeg(r[a])
      {
        SumNonNeg(weighted[a]);
      }
    }
    r
  }

  /** An alternative's fuzzy utility never exceeds the summed criterion
      weights when every weighted cell lies below its weight. */
  lemma UtilityBelowWeights(row: seq<TFN>, weights: seq<TFN>)
    requires |row| == |weights|
    requires forall j :: 0 <= j < |row| ==> Leq(row[j], weights[j])
    ensures Leq(Sum(row), Sum(weights))
  {
    SumMonotone(row, weights);
  }

  /** `utilitiesCrisp`: the centroid of every fuzzy utility. */
  function CrispUtilities(fuzzy: seq<TFN>): (r: seq<real>)
    ensures |r| == |fuzzy|
    ensures forall a :: 0 <= a < |fuzzy| && NonNeg(fuzzy[a]) ==> r[a] >= 0.0
    ensures forall a :: 0 <= a < |fuzzy| && Ordered(fuzzy[a]) ==> fuzzy[a].l <= r[a] <= fuzzy[a].u
  {
    seq(|fuzzy|, a requires 0 <= a < |fuzzy| => Centroid(fuzzy[a]))
  }

  /** `Math.max(...xs)` on a non-empty sequence: an upper bound that is one
      of the values. */
  function MaxOf(xs: seq<real>): (m: real)
    requires |xs| > 0
    ensures forall i :: 0 <= i < |xs| ==> xs[i] <= m
    ensures exists i :: 0 <= i < |xs| && xs[i] == m
  {
    if |xs| == 1 then
      assert xs[0] == xs[0];
      xs[0]
    else
      var init := MaxOf(xs[..|xs| - 1]);
      var last := xs[|xs| - 1];
      if init >= last then
        var i :| 0 <= i < |xs| - 1 && xs[..|xs| - 1][i] == init;
        assert xs[i] == init;
        init
      else
        last
  }

  /** `optimalityDegrees`: every crisp utility divided by the largest one;
      all degrees are 0 when there is no alternative or the largest utility
      is 0. With non-negative utilities every degree lies in [0, 1], and as
      soon as one utility is positive some alternative has degree 1. */
  function Degrees(crisp: seq<real>): (d: seq<real>)
    ensures |d| == |crisp|
    ensures |crisp| > 0 && MaxOf(crisp) == 0.0 ==> forall a :: 0 <= a < |d| ==> d[a] == 0.0
    ensures |crisp| > 0 && MaxOf(crisp) != 0.0 ==> forall a :: 0 <= a < |d| ==> d[a] == crisp[a] / MaxOf(crisp)
    ensures (forall a :: 0 <= a < |crisp| ==> crisp[a] >= 0.0) ==>
      forall a :: 0 <= a < |d| ==> 0.0 <= d[a] <= 1.0
    ensures (exists a :: 0 <= a < |crisp| && crisp[a] > 0.0) ==>
      exists b :: 0 <= b < |d| && d[b] == 1.0
  {
    if |crisp| == 0 then []
    else
      var mx := MaxOf(crisp);
      if mx == 0.0 then seq(|crisp|, _ => 0.0)
      else
        var d := seq(|crisp|, a requires 0 <= a < |crisp| => crisp[a] / mx);
        DividedByMax(crisp, mx, d);
        d
  }

  lemma FractionUnit(c: real, mx: real)
    requires mx > 0.0 && 0.0 <= c <= mx
    ensures 0.0 <= c / mx <= 1.0
  {
    assert c / mx * mx == c;
  }

  /** Dividing by a non-zero attained maximum: the maximiser gets 1, and
      non-negative values land in [0, 1]. */
  lemma DividedByMax(crisp: seq<real>, mx: real, d: seq<real>)
    requires mx != 0.0
    requires forall a :: 0 <= a < |crisp| ==> crisp[a] <= mx
    requires exists a :: 0 <= a < |crisp| && crisp[a] == mx
    requires |d| == |crisp| && forall a :: 0 <= a < |crisp| ==> d[a] == crisp[a] / mx
    ensures (forall a :: 0 <= a < |crisp| ==> crisp[a] >= 0.0) ==>
      forall a :: 0 <= a < |d| ==> 0.0 <= d[a] <= 1.0
    ensures exists b :: 0 <= b < |d| && d[b] == 1.0
  {
    var b :| 0 <= b < |crisp| && crisp[b] == mx;
    DivSelf(mx);
    assert d[b] == 1.0;
    if forall a :: 0 <= a < |crisp| ==> crisp[a] >= 0.0 {
      assert mx > 0.0 by {
        assert crisp[b] >= 0.0;
      }
      forall a | 0 <= a < |d|
        ensures 0.0 <= d[a] <= 1.0
      {
        FractionUnit(crisp[a], mx);
      }
    }
  }

  /** An alternative with the largest utility gets degree exactly 1 unless
      that utility is 0. */
  lemma DegreeOfBest(crisp: seq<real>, b: nat)
    requires b < |crisp| && crisp[b] == MaxOf(crisp) && crisp[b] != 0.0
    ensures Degrees(crisp)[b] == 1.0
  {
    var mx := MaxOf(crisp);
    var d := Degrees(crisp);
    assert d[b] == crisp[b] / mx;
    DivSelf(mx);
  }

  lemma DivSelf(x: real)
    requires x != 0.0
    ensures x / x == 1.0
  {
  }
}
