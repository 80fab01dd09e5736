/**
 The reference ("optimal") vector: per criterion, the component-wise best
 aggregated performance over the alternatives, maximised for a benefit
 criterion and minimised for a cost criterion.
 */
module Optimal {
  import opened Fuzzy

  datatype Direction = Benefit | Cost

  /** `criteriaTypes[j] === "benefit"`: every other entry, including a
      missing one, takes the cost branch. */
  function TypeAt(types: seq<Direction>, j: nat): Direction {
    if j < |types| then types[j] else Cost
  }

  function Max(x: real, y: real): real {
    if x >= y then x else y
  }

  function Min(x: real, y: real): real {
    if x <= y then x else y
  }

  /** One step of the scan: `Math.max` (benefit) or `Math.min` (cost) on
      every component. */
  function Pick(a: TFN, b: TFN, dir: Direction): TFN {
    match dir
    case Benefit => TFN(Max(a.l, b.l), Max(a.m, b.m), Max(a.u, b.u))
    case Cost => TFN(Min(a.l, b.l), Min(a.m, b.m), Min(a.u, b.u))
  }

  /** Component `k` (0 = l, 1 = m, 2 = u) of a triangle. */
  function Comp(a: TFN, k: nat): real
    requires k < 3
  {
    if k == 0 then a.l else if k == 1 then a.m else a.u
  }

  /** The scan over the alternatives in index order. For a benefit criterion
      the result dominates every alternative, for a cost criterion every
      alternative dominates it, and each of its components is the component
      of some alternative. */
  function Best(col: seq<TFN>, dir: Direction): (r: TFN)
    requires |col| > 0
    ensures dir == Benefit ==> forall a :: 0 <= a < |col| ==> Leq(col[a], r)
    ensures dir == Cost ==> forall a :: 0 <= a < |col| ==> Leq(r, col[a])
    ensures forall k :: 0 <= k < 3 ==> exists a :: 0 <= a < |col| && Comp(r, k) == Comp(col[a], k)
  {
    if |col| == 1 then
      assert forall k :: 0 <= k < 3 ==> Comp(col[0], k) == Comp(col[0], k);
      col[0]
    else
      var init := col[..|col| - 1];
      var last := col[|col| - 1];
      var b := Best(init, dir);
      var r := Pick(b, last, dir);
      assert forall k :: 0 <= k < 3 ==> exists a :: 0 <= a < |col| && Comp(r, k) == Comp(col[a], k) by {
        forall k | 0 <= k < 3
          ensures exists a :: 0 <= a < |col| && Comp(r, k) == Comp(col[a], k)
        {
          if Comp(r, k) == Comp(last, k) {
            assert Comp(r, k) == Comp(col[|col| - 1], k);
          } else {
            var a :| 0 <= a < |init| && Comp(b, k) == Comp(init[a], k);
            assert init[a] == col[a];
            assert Comp(r, k) == Comp(b, k);
          }
        }
      }
      r
  }

  /** `optimalCriteria` for one criterion: the scan, or (0, 0, 0) when there
      is no alternative (the infinite start value is not finite). */
  function OptimalTri(col: seq<TFN>, dir: Direction): (r: TFN)
    ensures |col| == 0 ==> r == Zero
    ensures dir == Benefit ==> forall a :: 0 <= a < |col| ==> Leq(col[a], r)
    ensures dir == Cost ==> forall a :: 0 <= a < |col| ==> Leq(r, col[a])
    ensures forall k :: 0 <= k < 3 && |col| > 0 ==>
      exists a :: 0 <= a < |col| && Comp(r, k) == Comp(col[a], k)
  {
    if |col| == 0 then Zero else Best(col, dir)
  }

  /** The reference of well-scaled alternatives is itself well scaled. */
  lemma OptimalWellScaled(col: seq<TFN>, dir: Direction)
    requires forall a :: 0 <= a < |col| ==> WellScaled(col[a])
    ensures WellScaled(OptimalTri(col, dir))
  {
    var r := OptimalTri(col, dir);
    if |col| > 0 {
      var al :| 0 <= al < |col| && Comp(r, 0) == Comp(col[al], 0);
      var am :| 0 <= am < |col| && Comp(r, 1) == Comp(col[am], 1);
      var au :| 0 <= au < |col| && Comp(r, 2) == Comp(col[au], 2);
      if dir == Benefit {
        assert r.l == col[al].l <= col[al].m <= r.m;
        assert r.m == col[am].m <= col[am].u <= r.u;
      } else {
        assert r.l <= col[am].l <= col[am].m == r.m;
        assert r.m <= col[au].m <= col[au].u == r.u;
      }
    }
  }

  /** The reference of non-negative alternatives is non-negative. */
  lemma OptimalNonNeg(col: seq<TFN>, dir: Direction)
    requires forall a :: 0 <= a < |col| ==> NonNeg(col[a])
    ensures NonNeg(OptimalTri(col, dir))
  {
    var r := OptimalTri(col, dir);
    if |col| > 0 {
      var al :| 0 <= al < |col| && Comp(r, 0) == Comp(col[al], 0);
      var am :| 0 <= am < |col| && Comp(r, 1) == Comp(col[am], 1);
      var au :| 0 <= au < |col| && Comp(r, 2) == Comp(col[au], 2);
      assert r.l == col[al].l && r.m == col[am].m && r.u == col[au].u;
    }
  }

  /** The aggregated triangles of every alternative on criterion `j`. */
  function RefColumn(agg: seq<seq<TFN>>, j: nat): (r: seq<TFN>)
    requires forall a :: 0 <= a < |agg| ==> j < |agg[a]|
    ensures |r| == |agg| && forall a :: 0 <= a < |agg| ==> r[a] == agg[a][j]
  {
    seq(|agg|, a requires 0 <= a < |agg| => agg[a][j])
  }

  /** Every row of the aggregated matrix has one triangle per criterion. */
  predicate Rows(agg: seq<seq<TFN>>, nc: nat) {
    forall a :: 0 <= a < |agg| ==> |agg[a]| == nc
  }

  /** `optimalCriteria`: the reference vector, one triangle per criterion.
      Dominance in the criterion's direction together with attainment of
      every component makes it the component-wise maximum (benefit) or
      minimum (cost) over the alternatives. */
  function OptimalCriteria(agg: seq<seq<TFN>>, types: seq<Direction>, nc: nat): (r: seq<TFN>)
    requires Rows(agg, nc)
    ensures |r| == nc
    ensures |agg| == 0 ==> forall j :: 0 <= j < nc ==> r[j] == Zero
    ensures forall a, j :: 0 <= a < |agg| && 0 <= j < nc && TypeAt(types, j) == Benefit ==> Leq(agg[a][j], r[j])
    ensures forall a, j :: 0 <= a < |agg| && 0 <= j < nc && TypeAt(types, j) == Cost ==> Leq(r[j], agg[a][j])
    ensures forall j, k :: 0 <= j < nc && 0 <= k < 3 && |agg| > 0 ==>
      exists a :: 0 <= a < |agg| && Comp(r[j], k) == Comp(agg[a][j], k)
    ensures (forall a, j :: 0 <= a < |agg| && 0 <= j < nc ==> WellScaled(agg[a][j])) ==>
      forall j :: 0 <= j < nc ==> WellScaled(r[j])
    ensures (forall a, j :: 0 <= a < |agg| && 0 <= j < nc ==> NonNeg(agg[a][j])) ==>
      forall j :: 0 <= j < nc ==> NonNeg(r[j])
  {
    var r := seq(nc, j requires 0 <= j < nc => OptimalTri(RefColumn(agg, j), TypeAt(types, j)));
    assert forall j :: 0 <= j < nc ==> r[j] == OptimalTri(RefColumn(agg, j), TypeAt(types, j));
    assert (forall a, j :: 0 <= a < |agg| && 0 <= j < nc ==> WellScaled(agg[a][j])) ==>
      forall j :: 0 <= j < nc ==> WellScaled(r[j]) by {
      if forall a, j :: 0 <= a < |agg| && 0 <= j < nc ==> WellScaled(agg[a][j]) {
        forall j | 0 <= j < nc
          ensures WellScaled(r[j])
        {
          OptimalWellScaled(RefColumn(agg, j), TypeAt(types, j));
        }
      }
    }
    assert (forall a, j :: 0 <= a < |agg| && 0 <= j < nc ==> NonNeg(agg[a][j])) ==>
      forall j :: 0 <= j < nc ==> NonNeg(r[j]) by {
      if forall a, j :: 0 <= a < |agg| && 0 <= j < nc ==> NonNeg(agg[a][j]) {
        forall j | 0 <= j < nc
          ensures NonNeg(r[j])
        {
          OptimalNonNeg(RefColumn(agg, j), TypeAt(types, j));
        }
      }
    }
    r
  }
}
