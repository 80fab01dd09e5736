/**
 Expert-mean aggregation: every (criterion) cell of the importance matrix and
 every (alternative, criterion) cell of the performance matrix is collapsed
 over the experts into the component-wise mean of the experts' triangles.
 */
module Aggregation {
  import opened Fuzzy
  import opened Scales

  /** `m[e] && m[e][j]`: a cell outside the stored rows reads as absent. */
  function CellAt<T>(m: seq<seq<Cell<T>>>, e: nat, j: nat): Cell<T> {
    if e < |m| && j < |m[e]| then m[e][j] else Absent
  }

  /** `m[e] && m[e][a] && m[e][a][j]`, likewise for the three-level matrix. */
  function CellAt3<T>(m: seq<seq<seq<Cell<T>>>>, e: nat, a: nat, j: nat): Cell<T> {
    if e < |m| && a < |m[e]| && j < |m[e][a]| then m[e][a][j] else Absent
  }

  /** The experts' cells for criterion `j`, experts 0 .. ne-1 in order. */
  function Column<T>(m: seq<seq<Cell<T>>>, ne: nat, j: nat): (r: seq<Cell<T>>)
    ensures |r| == ne && forall e :: 0 <= e < ne ==> r[e] == CellAt(m, e, j)
  {
    seq(ne, e requires 0 <= e < ne => CellAt(m, e, j))
  }

  /** The experts' cells for alternative `a` on criterion `j`. */
  function AltColumn<T>(m: seq<seq<seq<Cell<T>>>>, ne: nat, a: nat, j: nat): (r: seq<Cell<T>>)
    ensures |r| == ne && forall e :: 0 <= e < ne ==> r[e] == CellAt3(m, e, a, j)
  {
    seq(ne, e requires 0 <= e < ne => CellAt3(m, e, a, j))
  }

  function Lookups<T(!new)>(cells: seq<Cell<T>>, table: T -> TFN, neutral: T): seq<Option<TFN>> {
    seq(|cells|, i requires 0 <= i < |cells| => Lookup(cells[i], table, neutral))
  }

  /** No cell carries a label outside its scale. */
  predicate Recognised<T>(cells: seq<Cell<T>>) {
    forall i :: 0 <= i < |cells| ==> !cells[i].Unrecognised?
  }

  /** One consensus triangle: the K looked-up triangles are summed in expert
      order and divided by K. It fails exactly when some expert's cell holds
      a label the scale does not know. */
  function AggregateCells<T(!new)>(cells: seq<Cell<T>>, table: T -> TFN, neutral: T): (r: Option<TFN>)
    requires |cells| >= 1
    ensures r.Some? <==> Recognised(cells)
    ensures r.Some? && ValidScale(table) ==> WellScaled(r.value)
  {
    var opts := Lookups(cells, table, neutral);
    assert AllSome(opts).Some? <==> Recognised(cells) by {
      forall i | 0 <= i < |cells|
        ensures opts[i].Some? <==> !cells[i].Unrecognised?
      {
      }
    }
    match AllSome(opts)
    case None => None
    case Some(tris) =>
      assert ValidScale(table) ==> WellScaled(Mean(tris)) by {
        if ValidScale(table) {
          forall i | 0 <= i < |tris|
            ensures WellScaled(tris[i])
          {
            assert Lookups(cells, table, neutral)[i] == Some(tris[i]);
          }
          MeanWellScaled(tris);
        }
      }
      Some(Mean(tris))
  }

  /** The triangle a recognised cell reads as. */
  ghost function Resolve<T>(c: Cell<T>, table: T -> TFN, neutral: T): TFN {
    match c
    case Label(t) => table(t)
    case _ => table(neutral)
  }

  function MapSeq<A, B>(f: A -> B, s: seq<A>): (r: seq<B>)
    ensures |r| == |s| && forall i :: 0 <= i < |s| ==> r[i] == f(s[i])
  {
    seq(|s|, i requires 0 <= i < |s| => f(s[i]))
  }

  lemma MapConcat<A, B>(f: A -> B, a: seq<A>, b: seq<A>)
    ensures MapSeq(f, a + b) == MapSeq(f, a) + MapSeq(f, b)
  {
  }

  /** Mapping preserves the relation "is a permutation of". */
  lemma {:induction false} MapPermutation<A, B>(f: A -> B, s: seq<A>, t: seq<A>)
    requires multiset(s) == multiset(t)
    ensures multiset(MapSeq(f, s)) == multiset(MapSeq(f, t))
    decreases |s|
  {
    if |s| == 0 {
      assert |multiset(t)| == 0;
      assert t == [];
    } else {
      var x := s[|s| - 1];
      var s' := s[..|s| - 1];
      assert s == s' + [x];
      assert x in multiset(t);
      assert x in t;
      var i :| 0 <= i < |t| && t[i] == x;
      var t1, t2 := t[..i], t[i + 1..];
      assert t == t1 + [x] + t2;
      MultisetRemove(s', x, t1, t2);
      MapPermutation(f, s', t1 + t2);
      MapMoveLast(f, s', x, t1, t2);
    }
  }

  lemma MapMoveLast<A, B>(f: A -> B, s: seq<A>, x: A, t1: seq<A>, t2: seq<A>)
    requires multiset(MapSeq(f, s)) == multiset(MapSeq(f, t1 + t2))
    ensures multiset(MapSeq(f, s + [x])) == multiset(MapSeq(f, t1 + [x] + t2))
  {
    var fs, f1, f2 := MapSeq(f, s), MapSeq(f, t1), MapSeq(f, t2);
    MapConcat(f, s, [x]);
    MapConcat(f, t1 + [x], t2);
    MapConcat(f, t1, [x]);
    MapConcat(f, t1, t2);
    assert MapSeq(f, [x]) == [f(x)];
    assert multiset(fs + [f(x)]) == multiset(fs) + multiset([f(x)]);
    assert multiset(f1 + [f(x)] + f2) == multiset(f1) + multiset([f(x)]) + multiset(f2);
    assert multiset(f1 + f2) == multiset(f1) + multiset(f2);
  }

  /** The recognised triangles behind a successful aggregation. */
  lemma AggregateIsMean<T(!new)>(cells: seq<Cell<T>>, table: T -> TFN, neutral: T)
    requires |cells| >= 1 && Recognised(cells)
    ensures AggregateCells(cells, table, neutral)
         == Some(Mean(MapSeq(c => Resolve(c, table, neutral), cells)))
  {
    var tris := MapSeq(c => Resolve(c, table, neutral), cells);
    var opts := Lookups(cells, table, neutral);
    assert AllSome(opts).Some?;
    var v := AllSome(opts).value;
    assert v == tris by {
      forall i | 0 <= i < |cells|
        ensures v[i] == tris[i]
      {
        assert opts[i] == Some(v[i]);
      }
    }
  }

  lemma RecognisedTransfer<T>(c1: seq<Cell<T>>, c2: seq<Cell<T>>)
    requires multiset(c1) == multiset(c2) && Recognised(c1)
    ensures Recognised(c2)
  {
    forall i | 0 <= i < |c2|
      ensures !c2[i].Unrecognised?
    {
      assert c2[i] in multiset(c1);
      assert c2[i] in c1;
    }
  }

  /** Aggregation does not depend on the order in which the experts are
      listed. */
  lemma AggregatePermutation<T(!new)>(c1: seq<Cell<T>>, c2: seq<Cell<T>>, table: T -> TFN, neutral: T)
    requires |c1| >= 1
    requires multiset(c1) == multiset(c2)
    ensures |c2| == |c1|
    ensures AggregateCells(c1, table, neutral) == AggregateCells(c2, table, neutral)
  {
    assert |multiset(c1)| == |multiset(c2)|;
    if Recognised(c1) {
      RecognisedTransfer(c1, c2);
      var f := c => Resolve(c, table, neutral);
      AggregateIsMean(c1, table, neutral);
      AggregateIsMean(c2, table, neutral);
      MapPermutation(f, c1, c2);
      MeanPermutation(MapSeq(f, c1), MapSeq(f, c2));
    } else if Recognised(c2) {
      RecognisedTransfer(c2, c1);
    }
  }

  /** When every expert's cell reads as the same triangle, the aggregate is
      that triangle. */
  lemma AggregateUnanimous<T(!new)>(cells: seq<Cell<T>>, table: T -> TFN, neutral: T, c: TFN)
    requires |cells| >= 1
    requires forall i :: 0 <= i < |cells| ==> Lookup(cells[i], table, neutral) == Some(c)
    ensures AggregateCells(cells, table, neutral) == Some(c)
  {
    AggregateIsMean(cells, table, neutral);
    var tris := MapSeq(x => Resolve(x, table, neutral), cells);
    MeanUnanimous(tris, c);
  }

  /** The aggregate lies in every box that holds all experts' triangles. */
  lemma AggregateWithin<T(!new)>(cells: seq<Cell<T>>, table: T -> TFN, neutral: T, lo: TFN, hi: TFN)
    requires |cells| >= 1 && Recognised(cells)
    requires forall i :: 0 <= i < |cells| ==>
      Leq(lo, Resolve(cells[i], table, neutral)) && Leq(Resolve(cells[i], table, neutral), hi)
    ensures Leq(lo, AggregateCells(cells, table, neutral).value)
    ensures Leq(AggregateCells(cells, table, neutral).value, hi)
  {
    AggregateIsMean(cells, table, neutral);
    MeanWithin(MapSeq(x => Resolve(x, table, neutral), cells), lo, hi);
  }

  /** Two experts rating "M" and "MH" give (0.4, 0.6, 0.8). */
  lemma AggregateExample()
    ensures AggregateCells([Label(M), Label(MH)], CritTri, M) == Some(TFN(0.4, 0.6, 0.8))
  {
    var cells := [Label(M), Label(MH)];
    AggregateIsMean(cells, CritTri, M);
    var tris := MapSeq(c => Resolve(c, CritTri, M), cells);
    assert tris[0] == TFN(0.3, 0.5, 0.7) && tris[1] == TFN(0.5, 0.7, 0.9);
    MeanOfTwo(tris);
  }

  /** A missing cell reads as "M": one missing and one "MH" also give
      (0.4, 0.6, 0.8). */
  lemma AggregateAbsentExample()
    ensures AggregateCells([Absent, Label(MH)], CritTri, M) == Some(TFN(0.4, 0.6, 0.8))
  {
    var cells: seq<Cell<CritTerm>> := [Absent, Label(MH)];
    AggregateIsMean(cells, CritTri, M);
    var tris := MapSeq(c => Resolve(c, CritTri, M), cells);
    assert tris[0] == TFN(0.3, 0.5, 0.7) && tris[1] == TFN(0.5, 0.7, 0.9);
    MeanOfTwo(tris);
  }

  lemma MeanOfTwo(tris: seq<TFN>)
    requires |tris| == 2
    ensures Mean(tris) == DivScalar(Add(tris[0], tris[1]), 2.0)
  {
    assert tris[..1] == [tris[0]];
    assert tris[..1][..0] == [];
    assert Sum(tris[..1]) == Add(Zero, tris[0]);
    assert Sum(tris) == Add(Add(Zero, tris[0]), tris[1]);
  }

  /** No importance cell read by the pipeline holds an unknown label. */
  predicate WeightsRecognised(w: seq<seq<Cell<CritTerm>>>, ne: nat, nc: nat) {
    forall e, j :: 0 <= e < ne && 0 <= j < nc ==> !CellAt(w, e, j).Unrecognised?
  }

  /** No performance cell read by the pipeline holds an unknown label. */
  predicate ScoresRecognised(s: seq<seq<seq<Cell<AltTerm>>>>, ne: nat, na: nat, nc: nat) {
    forall e, a, j :: 0 <= e < ne && 0 <= a < na && 0 <= j < nc ==> !CellAt3(s, e, a, j).Unrecognised?
  }

  lemma CriteriaRecognisedIff(w: seq<seq<Cell<CritTerm>>>, ne: nat, nc: nat)
    requires ne >= 1
    ensures (forall j :: 0 <= j < nc ==> AggregateCells(Column(w, ne, j), CritTri, M).Some?)
        <==> WeightsRecognised(w, ne, nc)
  {
    if forall j :: 0 <= j < nc ==> AggregateCells(Column(w, ne, j), CritTri, M).Some? {
      forall e, j | 0 <= e < ne && 0 <= j < nc
        ensures !CellAt(w, e, j).Unrecognised?
      {
        assert AggregateCells(Column(w, ne, j), CritTri, M).Some?;
        assert Column(w, ne, j)[e] == CellAt(w, e, j);
      }
    }
    if WeightsRecognised(w, ne, nc) {
      forall j | 0 <= j < nc
        ensures AggregateCells(Column(w, ne, j), CritTri, M).Some?
      {
        var col := Column(w, ne, j);
        assert forall e :: 0 <= e < ne ==> !col[e].Unrecognised?;
      }
    }
  }

  /** `aggregatedCriteria`: one consensus importance triangle per criterion,
      missing cells reading as "M". */
  function AggregatedCriteria(w: seq<seq<Cell<CritTerm>>>, ne: nat, nc: nat): (r: Option<seq<TFN>>)
    requires ne >= 1
    ensures r.Some? <==> WeightsRecognised(w, ne, nc)
    ensures r.Some? ==> |r.value| == nc
    ensures r.Some? ==> forall j :: 0 <= j < nc ==> WellScaled(r.value[j])
    ensures r.Some? ==> forall j :: 0 <= j < nc ==>
      AggregateCells(Column(w, ne, j), CritTri, M) == Some(r.value[j])
  {
    CriteriaRecognisedIff(w, ne, nc);
    var cols := seq(nc, j requires 0 <= j < nc => AggregateCells(Column(w, ne, j), CritTri, M));
    assert forall j :: 0 <= j < nc ==> cols[j] == AggregateCells(Column(w, ne, j), CritTri, M);
    var r := AllSome(cols);
    assert r.Some? ==> forall j :: 0 <= j < nc ==> WellScaled(r.value[j]) by {
      if r.Some? {
        forall j | 0 <= j < nc
          ensures WellScaled(r.value[j])
        {
          assert cols[j] == Some(r.value[j]);
          ScalesValid();
        }
      }
    }
    r
  }

  lemma AltRowRecognisedIff(s: seq<seq<seq<Cell<AltTerm>>>>, ne: nat, a: nat, nc: nat)
    requires ne >= 1
    ensures (forall j :: 0 <= j < nc ==> AggregateCells(AltColumn(s, ne, a, j), AltTri, F).Some?)
        <==> forall e, j :: 0 <= e < ne && 0 <= j < nc ==> !CellAt3(s, e, a, j).Unrecognised?
  {
    if forall j :: 0 <= j < nc ==> AggregateCells(AltColumn(s, ne, a, j), AltTri, F).Some? {
      forall e, j | 0 <= e < ne && 0 <= j < nc
        ensures !CellAt3(s, e, a, j).Unrecognised?
      {
        assert AggregateCells(AltColumn(s, ne, a, j), AltTri, F).Some?;
        assert AltColumn(s, ne, a, j)[e] == CellAt3(s, e, a, j);
      }
    }
    if forall e, j :: 0 <= e < ne && 0 <= j < nc ==> !CellAt3(s, e, a, j).Unrecognised? {
      forall j | 0 <= j < nc
        ensures AggregateCells(AltColumn(s, ne, a, j), AltTri, F).Some?
      {
        var col := AltColumn(s, ne, a, j);
        assert forall e :: 0 <= e < ne ==> !col[e].Unrecognised?;
      }
    }
  }

  /** One row of `aggregatedAlts`: alternative `a` on every criterion. */
  function AggregatedAltRow(s: seq<seq<seq<Cell<AltTerm>>>>, ne: nat, a: nat, nc: nat): (r: Option<seq<TFN>>)
    requires ne >= 1
    ensures r.Some? <==> forall e, j :: 0 <= e < ne && 0 <= j < nc ==> !CellAt3(s, e, a, j).Unrecognised?
    ensures r.Some? ==> |r.value| == nc
    ensures r.Some? ==> forall j :: 0 <= j < nc ==>
      AggregateCells(AltColumn(s, ne, a, j), AltTri, F) == Some(r.value[j])
  {
    AltRowRecognisedIff(s, ne, a, nc);
    var cols := seq(nc, j requires 0 <= j < nc => AggregateCells(AltColumn(s, ne, a, j), AltTri, F));
    assert forall j :: 0 <= j < nc ==> cols[j] == AggregateCells(AltColumn(s, ne, a, j), AltTri, F);
    AllSome(cols)
  }

  lemma ScoresRecognisedIff(s: seq<seq<seq<Cell<AltTerm>>>>, ne: nat, na: nat, nc: nat)
    requires ne >= 1
    ensures (forall a :: 0 <= a < na ==> AggregatedAltRow(s, ne, a, nc).Some?)
        <==> ScoresRecognised(s, ne, na, nc)
  {
    if forall a :: 0 <= a < na ==> AggregatedAltRow(s, ne, a, nc).Some? {
      forall e, a, j | 0 <= e < ne && 0 <= a < na && 0 <= j < nc
        ensures !CellAt3(s, e, a, j).Unrecognised?
      {
        assert AggregatedAltRow(s, ne, a, nc).Some?;
      }
    }
  }

  /** `aggregatedAlts`: one consensus performance triangle per alternative
      and criterion, missing cells reading as "F". */
  function AggregatedAlts(s: seq<seq<seq<Cell<AltTerm>>>>, ne: nat, na: nat, nc: nat): (r: Option<seq<seq<TFN>>>)
    requires ne >= 1
    ensures r.Some? <==> ScoresRecognised(s, ne, na, nc)
    ensures r.Some? ==> |r.value| == na && forall a :: 0 <= a < na ==> |r.value[a]| == nc
    ensures r.Some? ==> forall a, j :: 0 <= a < na && 0 <= j < nc ==> WellScaled(r.value[a][j])
    ensures r.Some? ==> forall a, j :: 0 <= a < na && 0 <= j < nc ==>
      AggregateCells(AltColumn(s, ne, a, j), AltTri, F) == Some(r.value[a][j])
  {
    ScalesValid();
    ScoresRecognisedIff(s, ne, na, nc);
    var rows := seq(na, a requires 0 <= a < na => AggregatedAltRow(s, ne, a, nc));
    assert forall a :: 0 <= a < na ==> rows[a] == AggregatedAltRow(s, ne, a, nc);
    var r := AllSome(rows);
    assert r.Some? ==> forall a, j :: 0 <= a < na && 0 <= j < nc ==>
      && AggregateCells(AltColumn(s, ne, a, j), AltTri, F) == Some(r.value[a][j])
      && WellScaled(r.value[a][j]) by {
      if r.Some? {
        forall a, j | 0 <= a < na && 0 <= j < nc
          ensures AggregateCells(AltColumn(s, ne, a, j), AltTri, F) == Some(r.value[a][j])
          ensures WellScaled(r.value[a][j])
        {
          assert rows[a] == Some(r.value[a]);
        }
      }
    }
    r
  }
}
