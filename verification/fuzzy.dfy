/**
 Triangular fuzzy numbers and the small arithmetic the Fuzzy ARAS pipeline
 uses on them: component-wise addition, division by a scalar, component-wise
 product and the centroid. Every component is an exact `real`.
 */
module Fuzzy {

  /** A triangular fuzzy number: pessimistic bound `l`, most likely value `m`,
      optimistic bound `u`. */
  datatype TFN = TFN(l: real, m: real, u: real)

  const Zero: TFN := TFN(0.0, 0.0, 0.0)
  const One: TFN := TFN(1.0, 1.0, 1.0)

  /** `addTri`: component-wise sum. */
  function Add(a: TFN, b: TFN): TFN {
    TFN(a.l + b.l, a.m + b.m, a.u + b.u)
  }

  /** `divTriScalar`: every component divided by the same scalar. */
  function DivScalar(a: TFN, s: real): TFN
    requires s != 0.0
  {
    TFN(a.l / s, a.m / s, a.u / s)
  }

  /** Every component multiplied by the same scalar. */
  function Scale(a: TFN, s: real): TFN {
    TFN(a.l * s, a.m * s, a.u * s)
  }

  /** Component-wise product of two triangles. */
  function Mul(a: TFN, b: TFN): TFN {
    TFN(a.l * b.l, a.m * b.m, a.u * b.u)
  }

  /** `defuzz`: the centroid of the triangle. */
  function Centroid(a: TFN): real {
    (a.l + a.m + a.u) / 3.0
  }

  /** l <= m <= u, the shape invariant of a triangular number. */
  predicate Ordered(a: TFN) {
    a.l <= a.m <= a.u
  }

  /** Every component lies in [0, 1]. */
  predicate InUnit(a: TFN) {
    0.0 <= a.l <= 1.0 && 0.0 <= a.m <= 1.0 && 0.0 <= a.u <= 1.0
  }

  /** An ordered triangle inside the unit cube, as every scale entry is. */
  predicate WellScaled(a: TFN) {
    Ordered(a) && InUnit(a)
  }

  predicate NonNeg(a: TFN) {
    0.0 <= a.l && 0.0 <= a.m && 0.0 <= a.u
  }

  /** Component-wise order: `b` dominates `a`. */
  predicate Leq(a: TFN, b: TFN) {
    a.l <= b.l && a.m <= b.m && a.u <= b.u
  }

  /** The `sum = addTri(sum, x)` loops: a left fold of `Add` starting at Zero. */
  function Sum(s: seq<TFN>): TFN {
    if |s| == 0 then Zero else Add(Sum(s[..|s| - 1]), s[|s| - 1])
  }

  /** The component-wise arithmetic mean: the sum divided by the count. */
  function Mean(s: seq<TFN>): TFN
    requires |s| > 0
  {
    DivScalar(Sum(s), |s| as real)
  }

  /** The centroid lies between the pessimistic and optimistic bounds. */
  lemma CentroidBetween(a: TFN)
    requires Ordered(a)
    ensures a.l <= Centroid(a) <= a.u
  {
  }

  /** Summing a concatenation is adding the two partial sums. */
  lemma {:induction false} SumAppend(a: seq<TFN>, b: seq<TFN>)
    ensures Sum(a + b) == Add(Sum(a), Sum(b))
    decreases |b|
  {
    if |b| == 0 {
      assert a + b == a;
    } else {
      var b' := b[..|b| - 1];
      assert (a + b)[..|a + b| - 1] == a + b';
      assert (a + b)[|a + b| - 1] == b[|b| - 1];
      SumAppend(a, b');
    }
  }

  /** The sum does not depend on the order of the summands. */
  lemma {:induction false} SumPermutation(s: seq<TFN>, t: seq<TFN>)
    requires multiset(s) == multiset(t)
    ensures Sum(s) == Sum(t)
    decreases |s|
  {
    if |s| == 0 {
      assert |multiset(t)| == 0;
      assert t == [];
    } else {
      var x := s[|s| - 1];
      var s' := s[..|s| - 1];
      assert s == s' + [x];
      assert x in multiset(t);
      assert x in t;
      var i :| 0 <= i < |t| && t[i] == x;
      var t1, t2 := t[..i], t[i + 1..];
      assert t == t1 + [x] + t2;
      MultisetRemove(s', x, t1, t2);
      SumPermutation(s', t1 + t2);
      SumSplit(t1, x, t2);
    }
  }

  lemma MultisetRemove<X>(s: seq<X>, x: X, t1: seq<X>, t2: seq<X>)
    requires multiset(s + [x]) == multiset(t1 + [x] + t2)
    ensures multiset(s) == multiset(t1 + t2)
  {
    assert multiset(s + [x]) == multiset(s) + multiset([x]);
    assert multiset(t1 + [x] + t2) == multiset(t1) + multiset([x]) + multiset(t2);
    assert multiset(t1 + t2) == multiset(t1) + multiset(t2);
    var a, b := multiset(s), multiset(t1 + t2);
    assert a + multiset{x} == b + multiset{x};
    forall y
      ensures a[y] == b[y]
    {
      assert (a + multiset{x})[y] == a[y] + multiset{x}[y];
      assert (b + multiset{x})[y] == b[y] + multiset{x}[y];
    }
  }

  /** Taking one summand out of the middle of a sum and adding it last. */
  lemma SumSplit(t1: seq<TFN>, x: TFN, t2: seq<TFN>)
    ensures Sum(t1 + [x] + t2) == Add(Sum(t1 + t2), x)
  {
    SumAppend(t1 + [x], t2);
    SumAppend(t1, [x]);
    SumAppend(t1, t2);
    assert Sum([x]) == x by {
      assert [x][..0] == [];
    }
  }

  /** Summing dominated triangles gives a dominated sum. */
  lemma {:induction false} SumMonotone(s: seq<TFN>, t: seq<TFN>)
    requires |s| == |t|
    requires forall i :: 0 <= i < |s| ==> Leq(s[i], t[i])
    ensures Leq(Sum(s), Sum(t))
    decreases |s|
  {
    if |s| > 0 {
      SumMonotone(s[..|s| - 1], t[..|t| - 1]);
    }
  }

  /** The sum of ordered triangles is ordered. */
  lemma {:induction false} SumOrdered(s: seq<TFN>)
    requires forall i :: 0 <= i < |s| ==> Ordered(s[i])
    ensures Ordered(Sum(s))
    decreases |s|
  {
    if |s| > 0 {
      SumOrdered(s[..|s| - 1]);
    }
  }

  /** Summing n copies of one triangle scales it by n. */
  lemma {:induction false} SumConstant(s: seq<TFN>, c: TFN)
    requires forall i :: 0 <= i < |s| ==> s[i] == c
    ensures Sum(s) == Scale(c, |s| as real)
    decreases |s|
  {
    if |s| > 0 {
      var n := |s| as real;
      SumConstant(s[..|s| - 1], c);
      assert (n - 1.0) * c.l + c.l == n * c.l;
      assert (n - 1.0) * c.m + c.m == n * c.m;
      assert (n - 1.0) * c.u + c.u == n * c.u;
    }
  }

  lemma DivBetween(x: real, n: real, lo: real, hi: real)
    requires n > 0.0
    requires lo * n <= x <= hi * n
    ensures lo <= x / n <= hi
  {
    assert x / n * n == x;
  }

  /** The sum of n triangles inside a box lies inside the box scaled by n. */
  lemma SumWithin(s: seq<TFN>, lo: TFN, hi: TFN)
    requires forall i :: 0 <= i < |s| ==> Leq(lo, s[i]) && Leq(s[i], hi)
    ensures Leq(Scale(lo, |s| as real), Sum(s)) && Leq(Sum(s), Scale(hi, |s| as real))
  {
    var los := seq(|s|, _ => lo);
    var his := seq(|s|, _ => hi);
    SumMonotone(los, s);
    SumMonotone(s, his);
    SumConstant(los, lo);
    SumConstant(his, hi);
  }

  /** The mean lies in every box that holds all the averaged triangles. */
  lemma MeanWithin(s: seq<TFN>, lo: TFN, hi: TFN)
    requires |s| > 0
    requires forall i :: 0 <= i < |s| ==> Leq(lo, s[i]) && Leq(s[i], hi)
    ensures Leq(lo, Mean(s)) && Leq(Mean(s), hi)
  {
    var n := |s| as real;
    SumWithin(s, lo, hi);
    var t := Sum(s);
    DivBetween(t.l, n, lo.l, hi.l);
    DivBetween(t.m, n, lo.m, hi.m);
    DivBetween(t.u, n, lo.u, hi.u);
  }

  /** The mean of ordered triangles is ordered. */
  lemma MeanOrdered(s: seq<TFN>)
    requires |s| > 0
    requires forall i :: 0 <= i < |s| ==> Ordered(s[i])
    ensures Ordered(Mean(s))
  {
    SumOrdered(s);
    var t := Sum(s);
    var n := |s| as real;
    assert t.l / n <= t.m / n <= t.u / n by {
      DivMonotone(t.l, t.m, n);
      DivMonotone(t.m, t.u, n);
    }
  }

  lemma DivMonotone(x: real, y: real, n: real)
    requires n > 0.0 && x <= y
    ensures x / n <= y / n
  {
    assert x / n * n == x && y / n * n == y;
  }

  /** Averaging well-scaled triangles gives a well-scaled triangle. */
  lemma MeanWellScaled(s: seq<TFN>)
    requires |s| > 0
    requires forall i :: 0 <= i < |s| ==> WellScaled(s[i])
    ensures WellScaled(Mean(s))
  {
    MeanWithin(s, Zero, One);
    MeanOrdered(s);
  }

  /** When every expert gives the same triangle, the mean is that triangle. */
  lemma MeanUnanimous(s: seq<TFN>, c: TFN)
    requires |s| > 0
    requires forall i :: 0 <= i < |s| ==> s[i] == c
    ensures Mean(s) == c
  {
    SumConstant(s, c);
  }

  /** The mean does not depend on the order of the averaged triangles. */
  lemma MeanPermutation(s: seq<TFN>, t: seq<TFN>)
    requires |s| > 0
    requires multiset(s) == multiset(t)
    ensures |t| == |s| && Mean(s) == Mean(t)
  {
    assert |multiset(s)| == |multiset(t)|;
    SumPermutation(s, t);
  }
}
