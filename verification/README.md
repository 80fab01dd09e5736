# Fuzzy ARAS ranking core

A Dafny model of the Fuzzy ARAS (Additive Ratio Assessment under
fuzziness) engine in `src/App.jsx`. Several experts judge:

- the importance of each criterion, on the scale VL..VH;
- the performance of each alternative on each criterion, on the scale VP..VG.

The engine turns those labels into a crisp optimality degree for every
alternative:

1. Each label becomes a triangular fuzzy number (TFN) `(l, m, u)`.
2. The experts' triangles are averaged.
3. A reference ("optimal") triangle is picked per criterion: the
   component-wise maximum over the alternatives for a benefit criterion and
   the component-wise minimum for a cost criterion. It is usually no single
   alternative's triangle.
4. Each aggregated triangle is divided by the reference, or the reference by
   it for a cost criterion. A guard yields 0 instead of dividing by zero.
5. The result is multiplied by the criterion weight.
6. The weighted triangles are summed over the criteria.
7. The sum is defuzzified by its centroid `(l + m + u) / 3`.
8. The centroid is divided by the largest centroid.

The editing side is modelled as well. Resizing the matrices keeps the
entered labels and fills new cells with the neutral default: "M" for
importance, "F" for performance, "benefit" for a criterion type. A
single-cell edit writes one label.

Modules, in pipeline order:

- `Fuzzy`: triangles, addition, division, the centroid, the left-fold
  `Sum` and the `Mean`.
- `Scales`: the two linguistic tables and the cell model.
- `Aggregation`: the expert mean.
- `Optimal`: the reference vector.
- `Normalise`: the guarded ratio normalisation.
- `Utility`: weighting, utilities and degrees.
- `Pipeline`: the whole chain and its end-to-end guarantees.
- `Editing`: resizing and single-cell edits.

Numbers are exact reals.

A cell of a term matrix is `Absent`, `Label(term)` or `Unrecognised`:

- `Absent` covers everything the source's truthiness test reads as missing:
  an out-of-range index, `undefined`, `null` or `""`. The default label is
  used instead.
- `Unrecognised` is a non-empty string that is not a key of the table.

The source looks such a string up, gets `undefined`, and `addTri` then
throws. The model reports this as an error (`Pipeline.Error`) rather than
substituting the default.

## Model

| member | source | states |
|---|---|---|
| Scales.CritTri | src/App.jsx:3-11 | every importance triangle is ordered and lies in [0, 1] |
| Scales.AltTri | src/App.jsx:13-21 | every performance triangle is ordered and lies in [0, 1] |
| Scales.CritTriMonotone | src/App.jsx:3-11 | a higher importance label never gives a smaller triangle, component-wise |
| Scales.AltTriMonotone | src/App.jsx:13-21 | a higher performance label never gives a smaller triangle, component-wise |
| Scales.ScalesAgree | src/App.jsx:3-21 | labels of the same rank on the two scales map to the same triangle |
| Scales.Lookup | src/App.jsx:127-131 | a cell reads as no triangle exactly when its label is unrecognised, an absent cell reads as the default label's triangle, and every triangle read from a valid scale is ordered and inside [0, 1] |
| Fuzzy.CentroidBetween | src/App.jsx:30 | the centroid of an ordered triangle lies between its lower and upper bound |
| Fuzzy.SumAppend | src/App.jsx:26 | summing with `addTri` over a concatenation adds the two partial sums |
| Fuzzy.SumPermutation | src/App.jsx:26 | the `addTri` fold gives the same sum for any reordering of its operands |
| Fuzzy.SumMonotone | src/App.jsx:26 | component-wise smaller operands give a component-wise smaller sum |
| Fuzzy.MeanWithin | src/App.jsx:26-28 | the mean of triangles between two bounds lies between those bounds |
| Fuzzy.MeanWellScaled | src/App.jsx:26-28 | the mean of ordered unit triangles is an ordered unit triangle |
| Fuzzy.MeanUnanimous | src/App.jsx:26-28 | the mean of identical triangles is that triangle |
| Fuzzy.MeanPermutation | src/App.jsx:26-28 | the mean does not depend on the order of its operands |
| Aggregation.AggregateCells | src/App.jsx:126-134 | one column of expert cells gives a triangle exactly when no label is unrecognised, and that triangle is well scaled |
| Aggregation.AggregateIsMean | src/App.jsx:126-134 | the aggregate is the arithmetic mean of the cells' triangles, with the default for absent cells |
| Aggregation.AggregatePermutation | src/App.jsx:126-134 | the aggregate does not depend on the order of the experts |
| Aggregation.AggregateUnanimous | src/App.jsx:126-134 | experts who agree give their common triangle |
| Aggregation.AggregateWithin | src/App.jsx:126-134 | the aggregate lies between any bounds of the experts' triangles |
| Aggregation.AggregateExample | src/App.jsx:7-8 | the labels M and MH average to (0.4, 0.6, 0.8) |
| Aggregation.AggregateAbsentExample | src/App.jsx:127-131 | an absent importance cell counts as M, so absent and MH also give (0.4, 0.6, 0.8) |
| Aggregation.AggregatedCriteria | src/App.jsx:121-137 | the importance vector exists exactly when every importance label is recognised; it has one well-scaled expert mean per criterion |
| Aggregation.AggregatedAltRow | src/App.jsx:142-157 | one alternative's row exists exactly when its labels are recognised; it has one expert mean per criterion |
| Aggregation.AggregatedAlts | src/App.jsx:139-160 | the performance matrix exists exactly when every performance label is recognised; it is na by nc, and each cell is the well-scaled expert mean |
| Optimal.Best | src/App.jsx:173-188 | the scan's result dominates every alternative (benefit) or is dominated by every alternative (cost), and each component is attained by some alternative |
| Optimal.OptimalTri | src/App.jsx:166-194 | the reference for one criterion is (0, 0, 0) without alternatives and otherwise the component-wise maximum (benefit) or minimum (cost): it bounds every alternative and each component is attained |
| Optimal.OptimalWellScaled | src/App.jsx:173-194 | the reference of well-scaled triangles is well scaled |
| Optimal.OptimalNonNeg | src/App.jsx:173-194 | the reference of non-negative triangles is non-negative |
| Optimal.OptimalCriteria | src/App.jsx:162-198 | one reference per criterion, all zero without alternatives, otherwise the component-wise maximum (benefit) or minimum (cost): it dominates or is dominated by every alternative and each component is attained by one; well scaled (non-negative) when the alternatives are |
| Normalise.Ratio | src/App.jsx:215-221 | the guarded ratio is 0 when the denominator is 0 and the quotient otherwise |
| Normalise.RatioZero | src/App.jsx:215-221 | the guarded ratio is 0 exactly when the denominator or the numerator is 0 |
| Normalise.RatioUnit | src/App.jsx:215-221 | a ratio of a non-negative value to a value at least as large lies in [0, 1], and equals 1 for equal non-zero values |
| Normalise.NormaliseTri | src/App.jsx:208-224 | a benefit cell is divided by its reference and a cost cell divides its reference, component-wise with the zero guard |
| Normalise.BenefitInUnit | src/App.jsx:214-217 | a non-negative benefit cell below its reference normalises into the unit cube |
| Normalise.CostInUnit | src/App.jsx:218-222 | a cost cell above a non-negative reference normalises into the unit cube |
| Normalise.SelfNormalise | src/App.jsx:214-222 | the reference normalised against itself is 1 in every non-zero component and 0 elsewhere |
| Normalise.NormaliseReciprocal | src/App.jsx:214-222 | with no zero component, the benefit and the cost normalisation of the same cell are reciprocal |
| Normalise.NormalisedMatrix | src/App.jsx:201-231 | the normalised matrix has the shape of the aggregated one, and each cell is normalised against its criterion's reference in its criterion's direction |
| Utility.Weigh | src/App.jsx:239-247 | a unit-cube triangle times a non-negative weight lies between 0 and the weight |
| Utility.WeightedMatrix | src/App.jsx:234-252 | the weighted matrix keeps the shape, and every cell lies between 0 and its criterion's weight |
| Utility.FuzzyUtilities | src/App.jsx:254-264 | one utility per alternative, non-negative when the weighted cells are |
| Utility.UtilityBelowWeights | src/App.jsx:254-264 | an alternative's fuzzy utility never exceeds the sum of the criterion weights |
| Utility.CrispUtilities | src/App.jsx:266-269 | one crisp utility per alternative, non-negative for a non-negative utility and between its lower and upper bound |
| Utility.MaxOf | src/App.jsx:272 | the maximum bounds every utility and is one of them |
| Utility.Degrees | src/App.jsx:271-275 | one degree per alternative, all 0 when the largest utility is 0; with non-negative utilities every degree lies in [0, 1], and once one utility is positive some alternative has degree exactly 1 |
| Utility.DegreeOfBest | src/App.jsx:271-275 | an alternative with the largest non-zero utility has degree exactly 1 |
| Pipeline.Stages | src/App.jsx:162-275 | the memo chain after aggregation keeps its inputs and gives matrices and vectors of matching shapes |
| Pipeline.Evaluate | src/App.jsx:121-275 | the pipeline succeeds exactly when every label in both matrices is recognised, reports the importance matrix first, and passes the aggregates through |
| Pipeline.NormalisedInUnit | src/App.jsx:201-231 | every normalised cell of non-negative aggregates lies in the unit cube, whatever the criterion types |
| Pipeline.FuzzyBelowWeights | src/App.jsx:234-264 | with unit-cube normalised cells, every fuzzy utility lies between 0 and the summed weights |
| Pipeline.StagesSound | src/App.jsx:162-275 | on non-negative aggregates, the chain makes each reference the component-wise maximum or minimum, keeps the normalised cells in the unit cube and the weighted cells below their weights, keeps the degrees in [0, 1], and gives some alternative degree 1 once a utility is positive |
| Pipeline.EvaluateSound | src/App.jsx:121-275 | when every label is recognised the evaluation succeeds, with well-scaled aggregates and all the guarantees of `StagesSound` |
| Pipeline.WorkedScenario | src/App.jsx:121-275 | for two experts, two alternatives and one benefit criterion, the pipeline gives weight (0.4, 0.6, 0.8), reference (0.5, 0.7, 0.9) and degrees 526/567 and 1 |
| Editing.FillReadsAlike | src/App.jsx:69 | filling a cell with the `||` default never changes how the pipeline reads it: a missing cell already reads as the default label |
| Editing.ResizeWeights | src/App.jsx:65-73 | the resized importance matrix is ne by nc with no gaps, keeps every present cell at its index and fills the rest with M |
| Editing.ResizeScores | src/App.jsx:79-92 | the resized performance matrix is ne by na by nc with no gaps, keeps every present cell and fills the rest with F |
| Editing.ResizeWeightsDense | src/App.jsx:65-73 | resizing a dense importance matrix to its own shape changes nothing |
| Editing.ResizeWeightsRoundTrip | src/App.jsx:65-73 | growing a dense importance matrix and shrinking it back restores it |
| Editing.ResizeWeightsShrink | src/App.jsx:65-73 | for any stored importance matrix, dense or not, growing and then shrinking back equals resizing straight to the smaller counts |
| Editing.ResizeWeightsIdempotent | src/App.jsx:65-73 | resizing twice to the same shape equals resizing once |
| Editing.ResizeScoresDense | src/App.jsx:79-92 | resizing a dense performance matrix to its own shape changes nothing |
| Editing.ResizeScoresRoundTrip | src/App.jsx:79-92 | growing a dense performance matrix and shrinking it back restores it |
| Editing.ResizeScoresShrink | src/App.jsx:79-92 | for any stored performance matrix, growing and then shrinking back equals resizing straight to the smaller counts |
| Editing.ResizeScoresIdempotent | src/App.jsx:79-92 | resizing twice to the same shape equals resizing once |
| Editing.ResizeTypesRoundTrip | src/App.jsx:74-78 | growing the type list and shrinking it back restores it |
| Editing.ResizeKeepsCriteria | src/App.jsx:65-73 | resizing the importance matrix to the current shape does not change the aggregated weights |
| Editing.ResizeKeepsAlts | src/App.jsx:79-92 | resizing the performance matrix to the current shape does not change the aggregated matrix |
| Editing.StagesReadTypes | src/App.jsx:166 | the chain depends on the type list only through the types of the existing criteria |
| Editing.ResizeKeepsEvaluation | src/App.jsx:64-93 | resizing all three inputs to the current counts leaves the whole evaluation unchanged |
| Editing.ResizeTypesDefault | src/App.jsx:76 | a criterion without a type is read as cost by the pipeline but padded as benefit by the resize |
| Editing.SetWeight | src/App.jsx:102-109 | an importance edit writes exactly the chosen cell, leaves every other cell as it was, and keeps the shape of an in-range matrix |
| Editing.SetScore | src/App.jsx:111-119 | a performance edit writes exactly the chosen cell, leaves every other cell as it was, and keeps the shape of an in-range matrix |
| Editing.SetTypeKeepsOtherCriteria | src/App.jsx:346-351 | a type edit re-picks its own criterion's reference in the new direction and leaves the reference, normalised cells and weighted cells of every other criterion unchanged |
| Editing.SetWeightSame | src/App.jsx:102-109 | writing a cell's own label back changes nothing |
| Editing.SetWeightTwice | src/App.jsx:102-109 | of two edits to the same cell only the last one counts |
| Editing.SetWeightKeepsOtherCriteria | src/App.jsx:102-109 | an importance edit leaves the aggregate of every other criterion unchanged |
| Editing.SetScoreKeepsOtherCells | src/App.jsx:111-119 | a performance edit leaves the aggregate of every other cell unchanged |

## Left out

- React state, `useMemo` caching and the JSX rendering: the model computes
  each memo as a pure function of its inputs.
- `updateCounts`: it only stores the three counts and calls `resizeMatrixes`.
- The number inputs that clamp the counts: at least one expert is a
  precondition (`ne >= 1`) wherever the expert mean is taken. With zero
  experts the source divides by zero.
- Fractional counts: the inputs at src/App.jsx:432, 449 and 466 clamp each
  count with `Math.max(1, ...)` but never round it. The model's counts are
  whole numbers (`nat`). With 1.5 experts the loops visit two experts but
  divide by 1.5, so an aggregate can leave [0, 1]. The well-scaled results
  of `Aggregation.AggregatedCriteria`, `Aggregation.AggregatedAlts` and
  `Pipeline.EvaluateSound` rely on whole counts. The downstream guarantees
  (`Pipeline.StagesSound`) assume only non-negative aggregates, which
  fractional counts still give.
- The display tables, including the min/geometric-mean/max breakdown: they
  feed nothing back into the ranking.
- `loadSample`: it only sets fixed inputs.
- `toFixed` formatting: it is presentation only.
- Ranking: the source never orders the alternatives. The display tables
  only mark the largest value with `indexOf(Math.max(...))`, so no ranking
  order is modelled.
- IEEE-754 floating point: numbers are exact reals, so rounding in `addTri`,
  the divisions and the centroid is not modelled.
- `isFinite`: the infinite start values of the reference scan are replaced
  by the first alternative, or by (0, 0, 0) without alternatives. An empty
  `Math.max(...)` becomes an empty list of degrees.
- Keys inherited through JavaScript's object prototype (`"toString"`, say)
  as labels: they are treated as unrecognised.
- Utility.Degrees: the [0, 1] bound is promised for non-negative utilities
  only, which are all the pipeline produces. A negative maximum is divided
  by, as in the source, and then the bound need not hold.
- Editing.ResizeKeepsEvaluation: it requires the type list to cover every
  criterion. A criterion that had no type is read as cost before the resize
  and becomes benefit after it (`Editing.ResizeTypesDefault`).
