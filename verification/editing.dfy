/**
 The state edits that feed the pipeline: resizing both term matrices and the
 criterion types to new counts, and the single-cell edits of the two input
 tables.
 */
module Editing {
  import opened Fuzzy
  import opened Scales
  import opened Aggregation
  import opened Optimal
  import opened Normalise
  import opened Utility
  import opened Pipeline

  /** `x || default`: an absent cell takes the default label; a present
      label, known or not, is kept. */
  function Fill<T>(c: Cell<T>, default: T): (r: Cell<T>)
    ensures !r.Absent?
    ensures c.Absent? ==> r == Label(default)
    ensures !c.Absent? ==> r == c
  {
    if c.Absent? then Label(default) else c
  }

  /** Every one of the ne rows has exactly nc present cells. */
  predicate DenseWeights(m: seq<seq<Cell<CritTerm>>>, ne: nat, nc: nat) {
    && |m| == ne
    && (forall e :: 0 <= e < ne ==> |m[e]| == nc)
    && (forall e, j :: 0 <= e < ne && 0 <= j < nc ==> !m[e][j].Absent?)
  }

  /** Every one of the ne blocks has na rows of exactly nc present cells. */
  predicate DenseScores(m: seq<seq<seq<Cell<AltTerm>>>>, ne: nat, na: nat, nc: nat) {
    && |m| == ne
    && (forall e :: 0 <= e < ne ==> |m[e]| == na)
    && (forall e, a :: 0 <= e < ne && 0 <= a < na ==> |m[e][a]| == nc)
    && (forall e, a, j :: 0 <= e < ne && 0 <= a < na && 0 <= j < nc ==> !m[e][a][j].Absent?)
  }

  /** The importance half of `resizeMatrixes`: an ne x nc matrix that keeps
      every present cell of the old one and reads "M" everywhere else. */
  function ResizeWeights(prev: seq<seq<Cell<CritTerm>>>, nc: nat, ne: nat): (r: seq<seq<Cell<CritTerm>>>)
    ensures DenseWeights(r, ne, nc)
    ensures forall e, j :: 0 <= e < ne && 0 <= j < nc && !CellAt(prev, e, j).Absent? ==>
      r[e][j] == CellAt(prev, e, j)
    ensures forall e, j :: 0 <= e < ne && 0 <= j < nc && CellAt(prev, e, j).Absent? ==>
      r[e][j] == Label(M)
  {
    seq(ne, e requires 0 <= e < ne =>
      seq(nc, j requires 0 <= j < nc => Fill(CellAt(prev, e, j), M)))
  }

  /** The type half of `resizeMatrixes`: the old types of the first nc
      criteria, new criteria as benefit. */
  function ResizeTypes(prev: seq<Direction>, nc: nat): (r: seq<Direction>)
    ensures |r| == nc
    ensures forall j :: 0 <= j < nc && j < |prev| ==> r[j] == prev[j]
    ensures forall j :: |prev| <= j < nc ==> r[j] == Benefit
  {
    seq(nc, j requires 0 <= j < nc => if j < |prev| then prev[j] else Benefit)
  }

  /** The performance half of `resizeMatrixes`: an ne x na x nc matrix that
      keeps every present cell and reads "F" everywhere else. */
  function ResizeScores(prev: seq<seq<seq<Cell<AltTerm>>>>, na: nat, nc: nat, ne: nat): (r: seq<seq<seq<Cell<AltTerm>>>>)
    ensures DenseScores(r, ne, na, nc)
    ensures forall e, a, j :: 0 <= e < ne && 0 <= a < na && 0 <= j < nc && !CellAt3(prev, e, a, j).Absent? ==>
      r[e][a][j] == CellAt3(prev, e, a, j)
    ensures forall e, a, j :: 0 <= e < ne && 0 <= a < na && 0 <= j < nc && CellAt3(prev, e, a, j).Absent? ==>
      r[e][a][j] == Label(F)
  {
    seq(ne, e requires 0 <= e < ne =>
      seq(na, a requires 0 <= a < na =>
        seq(nc, j requires 0 <= j < nc => Fill(CellAt3(prev, e, a, j), F))))
  }

  /** A dense matrix is its own resize to its dimensions. */
  lemma ResizeWeightsDense(m: seq<seq<Cell<CritTerm>>>, ne: nat, nc: nat)
    requires DenseWeights(m, ne, nc)
    ensures ResizeWeights(m, nc, ne) == m
  {
    var r := ResizeWeights(m, nc, ne);
    forall e | 0 <= e < ne
      ensures r[e] == m[e]
    {
      assert forall j :: 0 <= j < nc ==> CellAt(m, e, j) == m[e][j];
    }
  }

  /** Growing and then shrinking back restores a dense matrix. */
  lemma ResizeWeightsRoundTrip(m: seq<seq<Cell<CritTerm>>>, ne: nat, nc: nat, ne2: nat, nc2: nat)
    requires DenseWeights(m, ne, nc) && ne <= ne2 && nc <= nc2
    ensures ResizeWeights(ResizeWeights(m, nc2, ne2), nc, ne) == m
  {
    var g := ResizeWeights(m, nc2, ne2);
    var r := ResizeWeights(g, nc, ne);
    forall e | 0 <= e < ne
      ensures r[e] == m[e]
    {
      forall j | 0 <= j < nc
        ensures r[e][j] == m[e][j]
      {
        assert CellAt(m, e, j) == m[e][j];
        assert CellAt(g, e, j) == g[e][j];
      }
    }
  }

  /** Resizing twice to the same counts is resizing once. */
  lemma ResizeWeightsIdempotent(m: seq<seq<Cell<CritTerm>>>, ne: nat, nc: nat)
    ensures ResizeWeights(ResizeWeights(m, nc, ne), nc, ne) == ResizeWeights(m, nc, ne)
  {
    ResizeWeightsDense(ResizeWeights(m, nc, ne), ne, nc);
  }

  /** Growing and then shrinking back is resizing straight to the smaller
      counts, for any stored matrix, dense or not. */
  lemma ResizeWeightsShrink(m: seq<seq<Cell<CritTerm>>>, ne: nat, nc: nat, ne2: nat, nc2: nat)
    requires ne <= ne2 && nc <= nc2
    ensures ResizeWeights(ResizeWeights(m, nc2, ne2), nc, ne) == ResizeWeights(m, nc, ne)
  {
    var g := ResizeWeights(m, nc2, ne2);
    var r, s := ResizeWeights(g, nc, ne), ResizeWeights(m, nc, ne);
    forall e | 0 <= e < ne
      ensures r[e] == s[e]
    {
      forall j | 0 <= j < nc
        ensures r[e][j] == s[e][j]
      {
        assert CellAt(g, e, j) == g[e][j];
      }
    }
  }

  lemma ResizeScoresDense(m: seq<seq<seq<Cell<AltTerm>>>>, ne: nat, na: nat, nc: nat)
    requires DenseScores(m, ne, na, nc)
    ensures ResizeScores(m, na, nc, ne) == m
  {
    var r := ResizeScores(m, na, nc, ne);
    forall e | 0 <= e < ne
      ensures r[e] == m[e]
    {
      forall a | 0 <= a < na
        ensures r[e][a] == m[e][a]
      {
        assert forall j :: 0 <= j < nc ==> CellAt3(m, e, a, j) == m[e][a][j];
      }
    }
  }

  /** Growing and then shrinking back restores a dense performance matrix. */
  lemma ResizeScoresRoundTrip(m: seq<seq<seq<Cell<AltTerm>>>>, ne: nat, na: nat, nc: nat,
                              ne2: nat, na2: nat, nc2: nat)
    requires DenseScores(m, ne, na, nc) && ne <= ne2 && na <= na2 && nc <= nc2
    ensures ResizeScores(ResizeScores(m, na2, nc2, ne2), na, nc, ne) == m
  {
    var g := ResizeScores(m, na2, nc2, ne2);
    var r := ResizeScores(g, na, nc, ne);
    forall e | 0 <= e < ne
      ensures r[e] == m[e]
    {
      forall a | 0 <= a < na
        ensures r[e][a] == m[e][a]
      {
        forall j | 0 <= j < nc
          ensures r[e][a][j] == m[e][a][j]
        {
          assert CellAt3(m, e, a, j) == m[e][a][j];
          assert CellAt3(g, e, a, j) == g[e][a][j];
        }
      }
    }
  }

  lemma ResizeScoresIdempotent(m: seq<seq<seq<Cell<AltTerm>>>>, ne: nat, na: nat, nc: nat)
    ensures ResizeScores(ResizeScores(m, na, nc, ne), na, nc, ne) == ResizeScores(m, na, nc, ne)
  {
    ResizeScoresDense(ResizeScores(m, na, nc, ne), ne, na, nc);
  }

  /** Growing and then shrinking back is resizing straight to the smaller
      counts, for any stored performance matrix. */
  lemma ResizeScoresShrink(m: seq<seq<seq<Cell<AltTerm>>>>, ne: nat, na: nat, nc: nat,
                           ne2: nat, na2: nat, nc2: nat)
    requires ne <= ne2 && na <= na2 && nc <= nc2
    ensures ResizeScores(ResizeScores(m, na2, nc2, ne2), na, nc, ne) == ResizeScores(m, na, nc, ne)
  {
    var g := ResizeScores(m, na2, nc2, ne2);
    var r, s := ResizeScores(g, na, nc, ne), ResizeScores(m, na, nc, ne);
    forall e | 0 <= e < ne
      ensures r[e] == s[e]
    {
      forall a | 0 <= a < na
        ensures r[e][a] == s[e][a]
      {
        forall j | 0 <= j < nc
          ensures r[e][a][j] == s[e][a][j]
        {
          assert CellAt3(g, e, a, j) == g[e][a][j];
        }
      }
    }
  }

  /** Growing and then shrinking the types restores them. */
  lemma ResizeTypesRoundTrip(t: seq<Direction>, nc2: nat)
    requires |t| <= nc2
    ensures ResizeTypes(ResizeTypes(t, nc2), |t|) == t
  {
  }

  /** Two cell sequences the scale reads alike aggregate alike. */
  lemma AggregateSameReadings<T(!new)>(c1: seq<Cell<T>>, c2: seq<Cell<T>>, table: T -> TFN, neutral: T)
    requires |c1| == |c2| >= 1
    requires forall i :: 0 <= i < |c1| ==> Lookup(c1[i], table, neutral) == Lookup(c2[i], table, neutral)
    ensures AggregateCells(c1, table, neutral) == AggregateCells(c2, table, neutral)
  {
    assert Lookups(c1, table, neutral) == Lookups(c2, table, neutral);
  }

  /** Filling an absent cell with the neutral label does not change how it
      reads. */
  lemma FillReadsAlike<T(!new)>(c: Cell<T>, table: T -> TFN, neutral: T)
    ensures Lookup(Fill(c, neutral), table, neutral) == Lookup(c, table, neutral)
  {
  }

  /** Two importance matrices whose columns aggregate alike give the same
      aggregated importance vector. */
  lemma SameColumnsSameCriteria(w1: seq<seq<Cell<CritTerm>>>, w2: seq<seq<Cell<CritTerm>>>, ne: nat, nc: nat)
    requires ne >= 1
    requires forall j :: 0 <= j < nc ==>
      AggregateCells(Column(w1, ne, j), CritTri, M) == AggregateCells(Column(w2, ne, j), CritTri, M)
    ensures AggregatedCriteria(w1, ne, nc) == AggregatedCriteria(w2, ne, nc)
  {
    CriteriaRecognisedIff(w1, ne, nc);
    CriteriaRecognisedIff(w2, ne, nc);
    var x, y := AggregatedCriteria(w1, ne, nc), AggregatedCriteria(w2, ne, nc);
    if x.Some? {
      assert y.Some?;
      forall j | 0 <= j < nc
        ensures x.value[j] == y.value[j]
      {
        assert Some(x.value[j]) == AggregateCells(Column(w1, ne, j), CritTri, M);
      }
      assert x.value == y.value;
    }
  }

  /** The performance matrix is recognised exactly when every one of its
      cells aggregates. */
  lemma ScoresRecognisedByCells(s: seq<seq<seq<Cell<AltTerm>>>>, ne: nat, na: nat, nc: nat)
    requires ne >= 1
    ensures ScoresRecognised(s, ne, na, nc) <==>
      forall a, j :: 0 <= a < na && 0 <= j < nc ==> AggregateCells(AltColumn(s, ne, a, j), AltTri, F).Some?
  {
    if ScoresRecognised(s, ne, na, nc) {
      forall a, j | 0 <= a < na && 0 <= j < nc
        ensures AggregateCells(AltColumn(s, ne, a, j), AltTri, F).Some?
      {
        assert Recognised(AltColumn(s, ne, a, j));
      }
    } else {
      var e, a, j :| 0 <= e < ne && 0 <= a < na && 0 <= j < nc && CellAt3(s, e, a, j).Unrecognised?;
      assert AltColumn(s, ne, a, j)[e].Unrecognised?;
    }
  }

  /** Two performance matrices whose cells aggregate alike give the same
      aggregated performance matrix. */
  lemma SameColumnsSameAlts(s1: seq<seq<seq<Cell<AltTerm>>>>, s2: seq<seq<seq<Cell<AltTerm>>>>, ne: nat, na: nat, nc: nat)
    requires ne >= 1
    requires forall a, j :: 0 <= a < na && 0 <= j < nc ==>
      AggregateCells(AltColumn(s1, ne, a, j), AltTri, F) == AggregateCells(AltColumn(s2, ne, a, j), AltTri, F)
    ensures AggregatedAlts(s1, ne, na, nc) == AggregatedAlts(s2, ne, na, nc)
  {
    var x, y := AggregatedAlts(s1, ne, na, nc), AggregatedAlts(s2, ne, na, nc);
    ScoresRecognisedByCells(s1, ne, na, nc);
    ScoresRecognisedByCells(s2, ne, na, nc);
    if x.Some? {
      assert y.Some?;
      forall a | 0 <= a < na
        ensures x.value[a] == y.value[a]
      {
        forall j | 0 <= j < nc
          ensures x.value[a][j] == y.value[a][j]
        {
          assert Some(x.value[a][j]) == AggregateCells(AltColumn(s1, ne, a, j), AltTri, F);
        }
      }
      assert x.value == y.value;
    }
  }

  /** One column of the resized importance matrix aggregates like the old
      column. */
  lemma ResizedColumn(w: seq<seq<Cell<CritTerm>>>, ne: nat, nc: nat, j: nat)
    requires ne >= 1 && j < nc
    ensures AggregateCells(Column(ResizeWeights(w, nc, ne), ne, j), CritTri, M)
         == AggregateCells(Column(w, ne, j), CritTri, M)
  {
    var c1, c2 := Column(ResizeWeights(w, nc, ne), ne, j), Column(w, ne, j);
    forall e | 0 <= e < ne
      ensures Lookup(c1[e], CritTri, M) == Lookup(c2[e], CritTri, M)
    {
      assert c1[e] == Fill(c2[e], M);
      FillReadsAlike(c2[e], CritTri, M);
    }
    AggregateSameReadings(c1, c2, CritTri, M);
  }

  lemma ResizedAltColumn(s: seq<seq<seq<Cell<AltTerm>>>>, ne: nat, na: nat, nc: nat, a: nat, j: nat)
    requires ne >= 1 && a < na && j < nc
    ensures AggregateCells(AltColumn(ResizeScores(s, na, nc, ne), ne, a, j), AltTri, F)
         == AggregateCells(AltColumn(s, ne, a, j), AltTri, F)
  {
    var c1, c2 := AltColumn(ResizeScores(s, na, nc, ne), ne, a, j), AltColumn(s, ne, a, j);
    forall e | 0 <= e < ne
      ensures Lookup(c1[e], AltTri, F) == Lookup(c2[e], AltTri, F)
    {
      assert c1[e] == Fill(c2[e], F);
      FillReadsAlike(c2[e], AltTri, F);
    }
    AggregateSameReadings(c1, c2, AltTri, F);
  }

  /** Resizing the importance matrix to the current counts leaves the
      aggregated importance vector as it is. */
  lemma ResizeKeepsCriteria(w: seq<seq<Cell<CritTerm>>>, ne: nat, nc: nat)
    requires ne >= 1
    ensures AggregatedCriteria(ResizeWeights(w, nc, ne), ne, nc) == AggregatedCriteria(w, ne, nc)
  {
    forall j | 0 <= j < nc
      ensures AggregateCells(Column(ResizeWeights(w, nc, ne), ne, j), CritTri, M)
           == AggregateCells(Column(w, ne, j), CritTri, M)
    {
      ResizedColumn(w, ne, nc, j);
    }
    SameColumnsSameCriteria(ResizeWeights(w, nc, ne), w, ne, nc);
  }

  /** Resizing the performance matrix to the current counts leaves the
      aggregated performance matrix as it is. */
  lemma ResizeKeepsAlts(s: seq<seq<seq<Cell<AltTerm>>>>, ne: nat, na: nat, nc: nat)
    requires ne >= 1
    ensures AggregatedAlts(ResizeScores(s, na, nc, ne), ne, na, nc) == AggregatedAlts(s, ne, na, nc)
  {
    forall a, j | 0 <= a < na && 0 <= j < nc
      ensures AggregateCells(AltColumn(ResizeScores(s, na, nc, ne), ne, a, j), AltTri, F)
           == AggregateCells(AltColumn(s, ne, a, j), AltTri, F)
    {
      ResizedAltColumn(s, ne, na, nc, a, j);
    }
    SameColumnsSameAlts(ResizeScores(s, na, nc, ne), s, ne, na, nc);
  }

  /** The stages read the types of the first nc criteria only. */
  lemma StagesReadTypes(weights: seq<TFN>, scores: seq<seq<TFN>>, t1: seq<Direction>, t2: seq<Direction>)
    requires Rows(scores, |weights|)
    requires forall j :: 0 <= j < |weights| ==> TypeAt(t1, j) == TypeAt(t2, j)
    ensures Stages(weights, scores, t1) == Stages(weights, scores, t2)
  {
    var nc := |weights|;
    var o1, o2 := OptimalCriteria(scores, t1, nc), OptimalCriteria(scores, t2, nc);
    assert o1 == o2 by {
      forall j | 0 <= j < nc
        ensures o1[j] == o2[j]
      {
        assert o1[j] == OptimalTri(RefColumn(scores, j), TypeAt(t1, j));
        assert o2[j] == OptimalTri(RefColumn(scores, j), TypeAt(t2, j));
      }
    }
    var n1, n2 := NormalisedMatrix(scores, o1, t1), NormalisedMatrix(scores, o1, t2);
    assert n1 == n2 by {
      forall a | 0 <= a < |scores|
        ensures n1[a] == n2[a]
      {
        assert forall j :: 0 <= j < nc ==> n1[a][j] == n2[a][j];
      }
    }
  }

  /** Resizing everything to the current counts changes no result of the
      pipeline, as long as every criterion already has a type. */
  lemma ResizeKeepsEvaluation(w: seq<seq<Cell<CritTerm>>>, types: seq<Direction>, s: seq<seq<seq<Cell<AltTerm>>>>,
                              ne: nat, na: nat, nc: nat)
    requires ne >= 1 && nc <= |types|
    ensures Evaluate(ResizeWeights(w, nc, ne), ResizeTypes(types, nc), ResizeScores(s, na, nc, ne), ne, na, nc)
         == Evaluate(w, types, s, ne, na, nc)
  {
    ResizeKeepsCriteria(w, ne, nc);
    ResizeKeepsAlts(s, ne, na, nc);
    var x := Evaluate(ResizeWeights(w, nc, ne), ResizeTypes(types, nc), ResizeScores(s, na, nc, ne), ne, na, nc);
    var y := Evaluate(w, types, s, ne, na, nc);
    if y.Ok? {
      var weights, scores := y.value.weights, y.value.scores;
      StagesReadTypes(weights, scores, ResizeTypes(types, nc), types);
    }
  }

  /** A criterion without a type reads as cost, but resizing gives it the
      benefit type: the two defaults differ. */
  lemma ResizeTypesDefault(types: seq<Direction>, nc: nat, j: nat)
    requires |types| <= j < nc
    ensures TypeAt(types, j) == Cost
    ensures TypeAt(ResizeTypes(types, nc), j) == Benefit
  {
  }

  /** `s` lengthened to at least n entries with `fill`. */
  function Pad<X>(s: seq<X>, n: nat, fill: X): (r: seq<X>)
    ensures |r| == if |s| >= n then |s| else n
    ensures forall i :: 0 <= i < |s| ==> r[i] == s[i]
    ensures forall i :: |s| <= i < |r| ==> r[i] == fill
  {
    if |s| >= n then s else s + seq(n - |s|, _ => fill)
  }

  /** `handleCriteriaTerm`: expert e's importance term for criterion j
      becomes v. A missing row is created, and cells skipped over read as
      absent. */
  function SetWeight(m: seq<seq<Cell<CritTerm>>>, e: nat, j: nat, v: Cell<CritTerm>): (r: seq<seq<Cell<CritTerm>>>)
    ensures CellAt(r, e, j) == v
    ensures forall e', j' :: (e' != e || j' != j) ==> CellAt(r, e', j') == CellAt(m, e', j')
    ensures e < |m| && j < |m[e]| ==>
      |r| == |m| && forall k :: 0 <= k < |m| ==> |r[k]| == |m[k]|
  {
    var rows := Pad(m, e + 1, []);
    var row := Pad(rows[e], j + 1, Absent);
    rows[e := row[j := v]]
  }

  /** `handleAltTerm`: expert e's performance term for alternative a on
      criterion j becomes v, creating missing rows as needed. */
  function SetScore(m: seq<seq<seq<Cell<AltTerm>>>>, e: nat, a: nat, j: nat, v: Cell<AltTerm>): (r: seq<seq<seq<Cell<AltTerm>>>>)
    ensures CellAt3(r, e, a, j) == v
    ensures forall e', a', j' :: (e' != e || a' != a || j' != j) ==> CellAt3(r, e', a', j') == CellAt3(m, e', a', j')
    ensures e < |m| && a < |m[e]| && j < |m[e][a]| ==>
      && |r| == |m|
      && (forall k :: 0 <= k < |m| ==> |r[k]| == |m[k]|)
      && (forall k, b :: 0 <= k < |m| && 0 <= b < |m[k]| ==> |r[k][b]| == |m[k][b]|)
  {
    var blocks := Pad(m, e + 1, []);
    var rows := Pad(blocks[e], a + 1, []);
    var row := Pad(rows[a], j + 1, Absent);
    blocks[e := rows[a := row[j := v]]]
  }

  /** The type selector of criterion j. */
  function SetType(types: seq<Direction>, j: nat, d: Direction): (r: seq<Direction>)
    requires j < |types|
    ensures |r| == |types| && TypeAt(r, j) == d
    ensures forall k :: 0 <= k < |types| && k != j ==> r[k] == types[k]
  {
    types[j := d]
  }

  /** A type edit re-picks the reference of its own criterion in the new
      direction and leaves the reference, the normalised cells and the
      weighted cells of every other criterion as they were. */
  lemma SetTypeKeepsOtherCriteria(weights: seq<TFN>, scores: seq<seq<TFN>>, types: seq<Direction>,
                                  j: nat, d: Direction, k: nat)
    requires Rows(scores, |weights|) && j < |types| && j < |weights| && k < |weights| && k != j
    ensures var before, after := Stages(weights, scores, types), Stages(weights, scores, SetType(types, j, d));
      && after.optimal[j] == OptimalTri(RefColumn(scores, j), d)
      && after.optimal[k] == before.optimal[k]
      && forall a :: 0 <= a < |scores| ==>
           after.normalised[a][k] == before.normalised[a][k] && after.weighted[a][k] == before.weighted[a][k]
  {
    assert TypeAt(SetType(types, j, d), k) == TypeAt(types, k);
  }

  /** Writing an in-range cell's own value back is no change. */
  lemma SetWeightSame(m: seq<seq<Cell<CritTerm>>>, e: nat, j: nat)
    requires e < |m| && j < |m[e]|
    ensures SetWeight(m, e, j, m[e][j]) == m
  {
    var r := SetWeight(m, e, j, m[e][j]);
    forall k | 0 <= k < |m|
      ensures r[k] == m[k]
    {
      forall i | 0 <= i < |m[k]|
        ensures r[k][i] == m[k][i]
      {
        assert CellAt(r, k, i) == CellAt(m, k, i);
      }
    }
  }

  /** Of two edits of the same cell only the second shows. */
  lemma SetWeightTwice(m: seq<seq<Cell<CritTerm>>>, e: nat, j: nat, v1: Cell<CritTerm>, v2: Cell<CritTerm>)
    ensures SetWeight(SetWeight(m, e, j, v1), e, j, v2) == SetWeight(m, e, j, v2)
  {
    var once := SetWeight(m, e, j, v1);
    var rows := Pad(m, e + 1, []);
    assert Pad(once, e + 1, []) == once;
    assert Pad(once[e], j + 1, Absent) == once[e];
    assert once[e][j := v2] == Pad(rows[e], j + 1, Absent)[j := v2];
  }

  /** An importance edit changes the consensus of its own criterion only. */
  lemma SetWeightKeepsOtherCriteria(m: seq<seq<Cell<CritTerm>>>, e: nat, j: nat, v: Cell<CritTerm>, ne: nat, k: nat)
    requires ne >= 1 && k != j
    ensures AggregateCells(Column(SetWeight(m, e, j, v), ne, k), CritTri, M)
         == AggregateCells(Column(m, ne, k), CritTri, M)
  {
    assert Column(SetWeight(m, e, j, v), ne, k) == Column(m, ne, k);
  }

  /** A performance edit changes the consensus of its own cell only. */
  lemma SetScoreKeepsOtherCells(m: seq<seq<seq<Cell<AltTerm>>>>, e: nat, a: nat, j: nat, v: Cell<AltTerm>,
                                ne: nat, b: nat, k: nat)
    requires ne >= 1 && (b != a || k != j)
    ensures AggregateCells(AltColumn(SetScore(m, e, a, j, v), ne, b, k), AltTri, F)
         == AggregateCells(AltColumn(m, ne, b, k), AltTri, F)
  {
    assert AltColumn(SetScore(m, e, a, j, v), ne, b, k) == AltColumn(m, ne, b, k);
  }
}
