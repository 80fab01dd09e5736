/**
 Ratio normalisation of every aggregated triangle against the reference
 vector: A / R for a benefit criterion, R / A for a cost criterion, with a
 zero divisor giving 0 for that component.
 */
module Normalise {
  import opened Fuzzy
  import opened Optimal

  /** v is the guarded ratio num / den: 0 for a zero divisor, otherwise the
      value that times den gives num. */
  predicate Guarded(v: real, num: real, den: real) {
    (den == 0.0 ==> v == 0.0) && (den != 0.0 ==> v * den == num)
  }

  /** `den === 0 ? 0 : num / den`. */
  function Ratio(num: real, den: real): (r: real)
    ensures Guarded(r, num, den)
  {
    if den == 0.0 then 0.0 else num / den
  }

  /** A guarded ratio is 0 exactly when the divisor or the dividend is 0. */
  lemma RatioZero(num: real, den: real)
    ensures Ratio(num, den) == 0.0 <==> (den == 0.0 || num == 0.0)
  {
  }

  /** A guarded ratio of 0 <= num <= den lies in [0, 1], and is 1 when
      num == den != 0. */
  lemma RatioUnit(num: real, den: real)
    requires 0.0 <= num <= den
    ensures 0.0 <= Ratio(num, den) <= 1.0
    ensures num == den != 0.0 ==> Ratio(num, den) == 1.0
  {
    if den != 0.0 {
      assert Ratio(num, den) * den == num;
    }
  }

  /** Dividing x by y and y by x give reciprocal values. */
  lemma RatioReciprocal(x: real, y: real)
    requires x != 0.0 && y != 0.0
    ensures Ratio(x, y) * Ratio(y, x) == 1.0
  {
    assert x / y * (y / x) == (x * y) / (y * x);
  }

  /** v is the normalisation of aggregate a against reference ref: the
      guarded ratio a / ref per component for benefit, ref / a for cost. */
  predicate NormalisedAs(v: TFN, a: TFN, ref: TFN, dir: Direction) {
    match dir
    case Benefit => Guarded(v.l, a.l, ref.l) && Guarded(v.m, a.m, ref.m) && Guarded(v.u, a.u, ref.u)
    case Cost => Guarded(v.l, ref.l, a.l) && Guarded(v.m, ref.m, a.m) && Guarded(v.u, ref.u, a.u)
  }

  /** One cell of `normalizedMatrix`. */
  function NormaliseTri(a: TFN, ref: TFN, dir: Direction): (r: TFN)
    ensures NormalisedAs(r, a, ref, dir)
  {
    match dir
    case Benefit => TFN(Ratio(a.l, ref.l), Ratio(a.m, ref.m), Ratio(a.u, ref.u))
    case Cost => TFN(Ratio(ref.l, a.l), Ratio(ref.m, a.m), Ratio(ref.u, a.u))
  }

  /** A guarded ratio of 0 <= num <= den lies in [0, 1]. */
  lemma GuardedUnit(v: real, num: real, den: real)
    requires Guarded(v, num, den) && 0.0 <= num <= den
    ensures 0.0 <= v <= 1.0
  {
    if den != 0.0 {
      RatioUnit(num, den);
      assert v == num / den;
    }
  }

  /** Against a benefit reference that dominates it, a non-negative
      aggregate normalises into the unit cube. */
  lemma BenefitInUnit(v: TFN, a: TFN, ref: TFN)
    requires NormalisedAs(v, a, ref, Benefit)
    requires NonNeg(a) && Leq(a, ref)
    ensures InUnit(v)
  {
    GuardedUnit(v.l, a.l, ref.l);
    GuardedUnit(v.m, a.m, ref.m);
    GuardedUnit(v.u, a.u, ref.u);
  }

  /** Against a non-negative cost reference that it dominates, an aggregate
      normalises into the unit cube. */
  lemma CostInUnit(v: TFN, a: TFN, ref: TFN)
    requires NormalisedAs(v, a, ref, Cost)
    requires NonNeg(ref) && Leq(ref, a)
    ensures InUnit(v)
  {
    GuardedUnit(v.l, ref.l, a.l);
    GuardedUnit(v.m, ref.m, a.m);
    GuardedUnit(v.u, ref.u, a.u);
  }

  function UnitOf(x: real): real {
    if x == 0.0 then 0.0 else 1.0
  }

  /** The alternative that equals the reference normalises to 1 on every
      non-zero component (and 0 on a zero one), in either direction. */
  lemma SelfNormalise(ref: TFN, dir: Direction)
    ensures NormaliseTri(ref, ref, dir) == TFN(UnitOf(ref.l), UnitOf(ref.m), UnitOf(ref.u))
  {
  }

  /** Benefit and cost normalisation of the same pair are reciprocal on every
      component where both are non-zero. */
  lemma NormaliseReciprocal(a: TFN, ref: TFN)
    requires a.l != 0.0 && a.m != 0.0 && a.u != 0.0
    requires ref.l != 0.0 && ref.m != 0.0 && ref.u != 0.0
    ensures Mul(NormaliseTri(a, ref, Benefit), NormaliseTri(a, ref, Cost)) == One
  {
    RatioReciprocal(a.l, ref.l);
    RatioReciprocal(a.m, ref.m);
    RatioReciprocal(a.u, ref.u);
  }

  /** `normalizedMatrix`: every aggregated cell against its criterion's
      reference and direction. */
  function NormalisedMatrix(agg: seq<seq<TFN>>, refs: seq<TFN>, types: seq<Direction>): (r: seq<seq<TFN>>)
    requires Rows(agg, |refs|)
    ensures |r| == |agg| && Rows(r, |refs|)
    ensures forall a, j :: 0 <= a < |agg| && 0 <= j < |refs| ==>
      NormalisedAs(r[a][j], agg[a][j], refs[j], TypeAt(types, j))
  {
    seq(|agg|, a requires 0 <= a < |agg| =>
      seq(|refs|, j requires 0 <= j < |refs| => NormaliseTri(agg[a][j], refs[j], TypeAt(types, j))))
  }
}
