/**
 The whole ranking pipeline as one pure function of the two term matrices,
 the criterion types and the three counts, with the end-to-end guarantees
 that its stages compose to.
 */
module Pipeline {
  import opened Fuzzy
  import opened Scales
  import opened Aggregation
  import opened Optimal
  import opened Normalise
  import opened Utility

  /** Which matrix held a label its scale does not know; the source then
      fails inside `addTri` on the undefined triangle. */
  datatype Error = UnrecognisedCriteriaLabel | UnrecognisedAltLabel

  datatype Result<T> = Ok(value: T) | Err(error: Error)

  /** Every derived matrix of one evaluation. */
  datatype Evaluation = Evaluation(
    weights: seq<TFN>,
    scores: seq<seq<TFN>>,
    optimal: seq<TFN>,
    normalised: seq<seq<TFN>>,
    weighted: seq<seq<TFN>>,
    fuzzy: seq<TFN>,
    crisp: seq<real>,
    degrees: seq<real>)

  /** The dimensions of an evaluation over na alternatives and nc criteria. */
  predicate Shaped(ev: Evaluation, na: nat, nc: nat) {
    && |ev.weights| == nc
    && |ev.scores| == na && Rows(ev.scores, nc)
    && |ev.optimal| == nc
    && |ev.normalised| == na && Rows(ev.normalised, nc)
    && |ev.weighted| == na && Rows(ev.weighted, nc)
    && |ev.fuzzy| == na
    && |ev.crisp| == na
    && |ev.degrees| == na
  }

  /** The memo chain from `optimalCriteria` to `optimalityDegrees`, run on
      the aggregated importance vector and performance matrix. */
  function Stages(weights: seq<TFN>, scores: seq<seq<TFN>>, types: seq<Direction>): (ev: Evaluation)
    requires Rows(scores, |weights|)
    ensures ev.weights == weights && ev.scores == scores
    ensures Shaped(ev, |scores|, |weights|)
  {
    var optimal := OptimalCriteria(scores, types, |weights|);
    var normalised := NormalisedMatrix(scores, optimal, types);
    var weighted := WeightedMatrix(normalised, weights);
    var fuzzy := FuzzyUtilities(weighted);
    var crisp := CrispUtilities(fuzzy);
    Evaluation(weights, scores, optimal, normalised, weighted, fuzzy, crisp, Degrees(crisp))
  }

  /** The whole pipeline from the two term matrices. The importance matrix is
      aggregated first, so its unknown label is the one reported when both
      matrices hold one. */
  function Evaluate(w: seq<seq<Cell<CritTerm>>>, types: seq<Direction>, s: seq<seq<seq<Cell<AltTerm>>>>,
                    ne: nat, na: nat, nc: nat): (r: Result<Evaluation>)
    requires ne >= 1
    ensures r.Ok? <==> WeightsRecognised(w, ne, nc) && ScoresRecognised(s, ne, na, nc)
    ensures r.Err? ==> (r.error == UnrecognisedCriteriaLabel <==> !WeightsRecognised(w, ne, nc))
    ensures r.Ok? ==> Shaped(r.value, na, nc)
    ensures r.Ok? ==> Some(r.value.weights) == AggregatedCriteria(w, ne, nc)
    ensures r.Ok? ==> Some(r.value.scores) == AggregatedAlts(s, ne, na, nc)
  {
    match AggregatedCriteria(w, ne, nc)
    case None => Err(UnrecognisedCriteriaLabel)
    case Some(weights) =>
      match AggregatedAlts(s, ne, na, nc)
      case None => Err(UnrecognisedAltLabel)
      case Some(scores) => Ok(Stages(weights, scores, types))
  }

  /** Every normalised cell of non-negative aggregates lies in the unit cube,
      for benefit and for cost criteria. */
  lemma NormalisedInUnit(scores: seq<seq<TFN>>, optimal: seq<TFN>, types: seq<Direction>, nc: nat)
    requires Rows(scores, nc)
    requires forall a, j :: 0 <= a < |scores| && 0 <= j < nc ==> NonNeg(scores[a][j])
    requires optimal == OptimalCriteria(scores, types, nc)
    ensures forall a, j :: 0 <= a < |scores| && 0 <= j < nc ==>
      InUnit(NormalisedMatrix(scores, optimal, types)[a][j])
  {
    var norm := NormalisedMatrix(scores, optimal, types);
    forall a, j | 0 <= a < |scores| && 0 <= j < nc
      ensures InUnit(norm[a][j])
    {
      if TypeAt(types, j) == Benefit {
        BenefitInUnit(norm[a][j], scores[a][j], optimal[j]);
      } else {
        CostInUnit(norm[a][j], scores[a][j], optimal[j]);
      }
    }
  }

  /** Each alternative's fuzzy utility is non-negative and below the summed
      weights when every weighted cell lies between 0 and its weight. */
  lemma FuzzyBelowWeights(weighted: seq<seq<TFN>>, weights: seq<TFN>)
    requires Rows(weighted, |weights|)
    requires forall a, j :: 0 <= a < |weighted| && 0 <= j < |weights| ==>
      NonNeg(weighted[a][j]) && Leq(weighted[a][j], weights[j])
    ensures forall a :: 0 <= a < |weighted| ==>
      NonNeg(FuzzyUtilities(weighted)[a]) && Leq(FuzzyUtilities(weighted)[a], Sum(weights))
  {
    var fuzzy := FuzzyUtilities(weighted);
    forall a | 0 <= a < |weighted|
      ensures NonNeg(fuzzy[a]) && Leq(fuzzy[a], Sum(weights))
    {
      assert fuzzy[a] == Sum(weighted[a]);
      UtilityBelowWeights(weighted[a], weights);
    }
  }

  /** The reference dominates every alternative on a benefit criterion, is
      dominated by every alternative on a cost criterion, and each of its
      components is that of some alternative: the component-wise maximum or
      minimum. */
  predicate Oriented(scores: seq<seq<TFN>>, optimal: seq<TFN>, types: seq<Direction>) {
    && (forall a, j :: 0 <= a < |scores| && 0 <= j < |optimal| && j < |scores[a]| && TypeAt(types, j) == Benefit ==>
          Leq(scores[a][j], optimal[j]))
    && (forall a, j :: 0 <= a < |scores| && 0 <= j < |optimal| && j < |scores[a]| && TypeAt(types, j) == Cost ==>
          Leq(optimal[j], scores[a][j]))
    && (forall j, k :: 0 <= j < |optimal| && 0 <= k < 3 && |scores| > 0 ==>
          exists a :: 0 <= a < |scores| && j < |scores[a]| && Comp(optimal[j], k) == Comp(scores[a][j], k))
  }

  /** Normalised cells lie in [0, 1], weighted cells between 0 and the
      criterion weight, and fuzzy utilities between 0 and the summed weights. */
  predicate Bounded(normalised: seq<seq<TFN>>, weighted: seq<seq<TFN>>, fuzzy: seq<TFN>, weights: seq<TFN>) {
    && (forall a, j :: 0 <= a < |normalised| && 0 <= j < |normalised[a]| ==> InUnit(normalised[a][j]))
    && (forall a, j :: 0 <= a < |weighted| && 0 <= j < |weighted[a]| && j < |weights| ==>
          NonNeg(weighted[a][j]) && Leq(weighted[a][j], weights[j]))
    && (forall a :: 0 <= a < |fuzzy| ==> NonNeg(fuzzy[a]) && Leq(fuzzy[a], Sum(weights)))
  }

  /** Crisp utilities are non-negative, every degree lies in [0, 1], and some
      alternative reaches 1 once a utility is positive. */
  predicate Ranked(crisp: seq<real>, degrees: seq<real>) {
    && |degrees| == |crisp|
    && (forall a :: 0 <= a < |crisp| ==> crisp[a] >= 0.0)
    && (forall a :: 0 <= a < |degrees| ==> 0.0 <= degrees[a] <= 1.0)
    && ((exists a :: 0 <= a < |crisp| && crisp[a] > 0.0) ==>
          exists a :: 0 <= a < |degrees| && degrees[a] == 1.0)
  }

  /** The guarantees of one evaluation over non-negative aggregates. */
  predicate Sound(ev: Evaluation, types: seq<Direction>) {
    && Oriented(ev.scores, ev.optimal, types)
    && Bounded(ev.normalised, ev.weighted, ev.fuzzy, ev.weights)
    && Ranked(ev.crisp, ev.degrees)
  }

  /** Non-negative aggregates keep every intermediate matrix of the chain
      bounded. */
  lemma ChainBounded(weights: seq<TFN>, scores: seq<seq<TFN>>, types: seq<Direction>)
    requires Rows(scores, |weights|)
    requires forall j :: 0 <= j < |weights| ==> NonNeg(weights[j])
    requires forall a, j :: 0 <= a < |scores| && 0 <= j < |weights| ==> NonNeg(scores[a][j])
    ensures var normalised := NormalisedMatrix(scores, OptimalCriteria(scores, types, |weights|), types);
      var weighted := WeightedMatrix(normalised, weights);
      Bounded(normalised, weighted, FuzzyUtilities(weighted), weights)
  {
    var optimal := OptimalCriteria(scores, types, |weights|);
    var normalised := NormalisedMatrix(scores, optimal, types);
    NormalisedInUnit(scores, optimal, types, |weights|);
    var weighted := WeightedMatrix(normalised, weights);
    FuzzyBelowWeights(weighted, weights);
  }

  /** Non-negative fuzzy utilities give a ranking with degrees in [0, 1]. */
  lemma ChainRanked(fuzzy: seq<TFN>)
    requires forall a :: 0 <= a < |fuzzy| ==> NonNeg(fuzzy[a])
    ensures var crisp := CrispUtilities(fuzzy); Ranked(crisp, Degrees(crisp))
  {
  }

  /** The stages keep every guarantee of `Sound` when the aggregates are
      non-negative; well-scaled aggregates are a special case. */
  lemma StagesSound(weights: seq<TFN>, scores: seq<seq<TFN>>, types: seq<Direction>)
    requires Rows(scores, |weights|)
    requires forall j :: 0 <= j < |weights| ==> NonNeg(weights[j])
    requires forall a, j :: 0 <= a < |scores| && 0 <= j < |weights| ==> NonNeg(scores[a][j])
    ensures Sound(Stages(weights, scores, types), types)
  {
    var ev := Stages(weights, scores, types);
    var optimal := OptimalCriteria(scores, types, |weights|);
    var normalised := NormalisedMatrix(scores, optimal, types);
    var weighted := WeightedMatrix(normalised, weights);
    var fuzzy := FuzzyUtilities(weighted);
    assert ev == Evaluation(weights, scores, optimal, normalised, weighted, fuzzy,
                            CrispUtilities(fuzzy), Degrees(CrispUtilities(fuzzy)));
    ChainBounded(weights, scores, types);
    ChainRanked(fuzzy);
  }

  /** End to end: when every label is recognised (exactly when the
      evaluation succeeds) the evaluation has well-scaled aggregates and
      every guarantee of `Sound`. */
  lemma EvaluateSound(w: seq<seq<Cell<CritTerm>>>, types: seq<Direction>, s: seq<seq<seq<Cell<AltTerm>>>>,
                      ne: nat, na: nat, nc: nat)
    requires ne >= 1
    requires WeightsRecognised(w, ne, nc) && ScoresRecognised(s, ne, na, nc)
    ensures Evaluate(w, types, s, ne, na, nc).Ok?
    ensures var ev := Evaluate(w, types, s, ne, na, nc).value;
      && (forall j :: 0 <= j < nc ==> WellScaled(ev.weights[j]))
      && (forall a, j :: 0 <= a < na && 0 <= j < nc ==> WellScaled(ev.scores[a][j]))
      && Sound(ev, types)
  {
    var ev := Evaluate(w, types, s, ne, na, nc).value;
    StagesSound(ev.weights, ev.scores, types);
  }

  /** The worked scenario: one benefit criterion, two experts, two
      alternatives. Importance "M"/"MH"; alternative 1 rated "F"/"G",
      alternative 2 rated "MG"/"MG". The second alternative is the best with
      utility 0.6 and degree 1; the first has utility 526/945 and degree
      526/567. */
  lemma WorkedScenario()
    ensures var r := Evaluate([[Label(M)], [Label(MH)]], [Benefit],
                              [[[Label(F)], [Label(MG)]], [[Label(G)], [Label(MG)]]], 2, 2, 1);
      && r.Ok?
      && r.value.weights == [TFN(0.4, 0.6, 0.8)]
      && r.value.scores == [[TFN(0.5, 0.6, 0.85)], [TFN(0.5, 0.7, 0.9)]]
      && r.value.optimal == [TFN(0.5, 0.7, 0.9)]
      && r.value.crisp == [526.0 / 945.0, 0.6]
      && r.value.degrees == [526.0 / 567.0, 1.0]
  {
    var w: seq<seq<Cell<CritTerm>>> := [[Label(M)], [Label(MH)]];
    var s: seq<seq<seq<Cell<AltTerm>>>> := [[[Label(F)], [Label(MG)]], [[Label(G)], [Label(MG)]]];
    ScenarioWeights(w);
    ScenarioScores(s);
    ScenarioStages();
  }

  lemma ScenarioWeights(w: seq<seq<Cell<CritTerm>>>)
    requires w == [[Label(M)], [Label(MH)]]
    ensures AggregatedCriteria(w, 2, 1) == Some([TFN(0.4, 0.6, 0.8)])
  {
    var weights := AggregatedCriteria(w, 2, 1).value;
    assert Column(w, 2, 0) == [Label(M), Label(MH)];
    AggregateExample();
    assert weights == [weights[0]];
  }

  /** Experts rating "F" and "G" give (0.5, 0.6, 0.85). */
  lemma ScenarioMixedCell()
    ensures AggregateCells([Label(F), Label(G)], AltTri, F) == Some(TFN(0.5, 0.6, 0.85))
  {
    var cells := [Label(F), Label(G)];
    AggregateIsMean(cells, AltTri, F);
    var tris := MapSeq(c => Resolve(c, AltTri, F), cells);
    assert tris[0] == TFN(0.3, 0.5, 0.7) && tris[1] == TFN(0.7, 0.7, 1.0);
    MeanOfTwo(tris);
  }

  lemma ScenarioScores(s: seq<seq<seq<Cell<AltTerm>>>>)
    requires s == [[[Label(F)], [Label(MG)]], [[Label(G)], [Label(MG)]]]
    ensures AggregatedAlts(s, 2, 2, 1) == Some([[TFN(0.5, 0.6, 0.85)], [TFN(0.5, 0.7, 0.9)]])
  {
    ScenarioRecognised(s);
    ScenarioColumns(s);
    var scores := AggregatedAlts(s, 2, 2, 1).value;
    assert scores[0] == [TFN(0.5, 0.6, 0.85)];
    assert scores[1] == [TFN(0.5, 0.7, 0.9)];
    assert scores == [scores[0], scores[1]];
  }

  lemma ScenarioRecognised(s: seq<seq<seq<Cell<AltTerm>>>>)
    requires s == [[[Label(F)], [Label(MG)]], [[Label(G)], [Label(MG)]]]
    ensures ScoresRecognised(s, 2, 2, 1)
  {
  }

  lemma ScenarioColumns(s: seq<seq<seq<Cell<AltTerm>>>>)
    requires s == [[[Label(F)], [Label(MG)]], [[Label(G)], [Label(MG)]]]
    ensures AggregateCells(AltColumn(s, 2, 0, 0), AltTri, F) == Some(TFN(0.5, 0.6, 0.85))
    ensures AggregateCells(AltColumn(s, 2, 1, 0), AltTri, F) == Some(TFN(0.5, 0.7, 0.9))
  {
    var c0, c1 := AltColumn(s, 2, 0, 0), AltColumn(s, 2, 1, 0);
    assert c0 == [Label(F), Label(G)];
    assert c1 == [Label(MG), Label(MG)];
    ScenarioMixedCell();
    AggregateUnanimous(c1, AltTri, F, TFN(0.5, 0.7, 0.9));
  }

  lemma ScenarioStages()
    ensures var ev := Stages([TFN(0.4, 0.6, 0.8)], [[TFN(0.5, 0.6, 0.85)], [TFN(0.5, 0.7, 0.9)]], [Benefit]);
      && ev.optimal == [TFN(0.5, 0.7, 0.9)]
      && ev.crisp == [526.0 / 945.0, 0.6]
      && ev.degrees == [526.0 / 567.0, 1.0]
  {
    var weights := [TFN(0.4, 0.6, 0.8)];
    var scores := [[TFN(0.5, 0.6, 0.85)], [TFN(0.5, 0.7, 0.9)]];
    var optimal := OptimalCriteria(scores, [Benefit], 1);
    ScenarioOptimal(scores, optimal);
    var norm := NormalisedMatrix(scores, optimal, [Benefit]);
    ScenarioNormalised(scores, optimal, norm);
    var weighted := WeightedMatrix(norm, weights);
    ScenarioWeighted(norm, weights, weighted);
    var fuzzy := FuzzyUtilities(weighted);
    var crisp := CrispUtilities(fuzzy);
    ScenarioCrisp(weighted, fuzzy, crisp);
    ScenarioDegrees(crisp);
    var ev := Stages(weights, scores, [Benefit]);
    assert ev.optimal == optimal && ev.crisp == crisp && ev.degrees == Degrees(crisp);
  }

  lemma ScenarioCrisp(weighted: seq<seq<TFN>>, fuzzy: seq<TFN>, crisp: seq<real>)
    requires weighted == [[TFN(0.4, 18.0 / 35.0, 34.0 / 45.0)], [TFN(0.4, 0.6, 0.8)]]
    requires fuzzy == FuzzyUtilities(weighted) && crisp == CrispUtilities(fuzzy)
    ensures crisp == [526.0 / 945.0, 0.6]
  {
    SumSingle(weighted[0]);
    SumSingle(weighted[1]);
    assert fuzzy[0] == TFN(0.4, 18.0 / 35.0, 34.0 / 45.0);
    assert fuzzy[1] == TFN(0.4, 0.6, 0.8);
    assert crisp[0] == Centroid(fuzzy[0]);
    assert crisp[1] == Centroid(fuzzy[1]);
    assert crisp == [crisp[0], crisp[1]];
  }

  lemma ScenarioOptimal(scores: seq<seq<TFN>>, optimal: seq<TFN>)
    requires scores == [[TFN(0.5, 0.6, 0.85)], [TFN(0.5, 0.7, 0.9)]]
    requires optimal == OptimalCriteria(scores, [Benefit], 1)
    ensures optimal == [TFN(0.5, 0.7, 0.9)]
  {
    var col := RefColumn(scores, 0);
    assert col == [TFN(0.5, 0.6, 0.85), TFN(0.5, 0.7, 0.9)];
    assert col[..1] == [col[0]];
    assert Best(col, Benefit) == TFN(0.5, 0.7, 0.9);
    assert optimal == [optimal[0]];
  }

  lemma ScenarioNormalised(scores: seq<seq<TFN>>, optimal: seq<TFN>, norm: seq<seq<TFN>>)
    requires scores == [[TFN(0.5, 0.6, 0.85)], [TFN(0.5, 0.7, 0.9)]]
    requires optimal == [TFN(0.5, 0.7, 0.9)]
    requires norm == NormalisedMatrix(scores, optimal, [Benefit])
    ensures norm == [[TFN(1.0, 6.0 / 7.0, 17.0 / 18.0)], [TFN(1.0, 1.0, 1.0)]]
  {
    assert norm[0] == [norm[0][0]] && norm[1] == [norm[1][0]];
  }

  lemma ScenarioWeighted(norm: seq<seq<TFN>>, weights: seq<TFN>, weighted: seq<seq<TFN>>)
    requires norm == [[TFN(1.0, 6.0 / 7.0, 17.0 / 18.0)], [TFN(1.0, 1.0, 1.0)]]
    requires weights == [TFN(0.4, 0.6, 0.8)]
    requires weighted == WeightedMatrix(norm, weights)
    ensures weighted == [[TFN(0.4, 18.0 / 35.0, 34.0 / 45.0)], [TFN(0.4, 0.6, 0.8)]]
  {
    assert |weighted| == 2 && |weighted[0]| == 1 && |weighted[1]| == 1;
    assert weighted[0][0] == Mul(TFN(1.0, 6.0 / 7.0, 17.0 / 18.0), TFN(0.4, 0.6, 0.8));
    assert weighted[1][0] == Mul(TFN(1.0, 1.0, 1.0), TFN(0.4, 0.6, 0.8));
    assert weighted[0] == [weighted[0][0]] && weighted[1] == [weighted[1][0]];
  }

  lemma ScenarioDegrees(crisp: seq<real>)
    requires crisp == [526.0 / 945.0, 0.6]
    ensures Degrees(crisp) == [526.0 / 567.0, 1.0]
  {
    assert crisp[..1] == [crisp[0]];
    assert MaxOf(crisp) == 0.6;
  }

  lemma SumSingle(s: seq<TFN>)
    requires |s| == 1
    ensures Sum(s) == s[0]
  {
    assert s[..0] == [];
  }
}
