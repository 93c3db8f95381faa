# TIM matching, modelled in Dafny

Two-Stage Interpretable Matching (TIM) estimates a treatment effect from
observational data. `TIMatcher.fit` runs these stages in order:

1. It validates the input.
2. It ranks the covariates by a confounder importance (normalised ridge coefficients).
3. It matches units exactly.
   - Matching uses the coarsened covariates, on prefixes of that ranking, from all covariates down to one.
   - A group is accepted as a stratum once it holds both treatment values.
4. It scores the members of every stratum by a unified distance, when there are discrete covariates.
   - Discrete covariates use a table of conditional-proportion distances between category values.
   - Continuous covariates use the gap to the nearest treated value.
   - The scores are normalised inversely into [0, 1].
5. It weights the matched units.
6. It estimates the ATE and the ATT.
7. It records the share of treated units that were matched.

The model follows the five core files:

- `tim/matcher.py`:
  - the `TIMatcher` class as a Dafny class (modules `Matcher`, `Matching` and `Ranking`);
  - exact matching as loops proved against recursive specifications.
- `tim/distances.py`:
  - `find_max_crosstab` and `algo_distance_crosstab` (module `Crosstab`);
  - `unified_distance` as methods over an array of stratum frames, proved against the per-member column functions (module `Distances`).
- `tim/weights.py`: the weight loop over the frame array (module `Weights`).
- `tim/effects.py`: `calculate_ate_att` (module `Effects`).
  - numpy's NaN and infinities are the value `NonFinite`.
- `tim/importance.py`: the normalisation of the combined coefficients (module `Importance`).

Shared modules:

- `Units`: the unit record.
- `Frames`: a stratum frame, holding its members and the columns the later stages add.
- `Reals`: sums, minima and maxima.
- `Wrappers`: `Option` and `Result`.

Representation choices:

- A unit is identified by its row position.
- A covariate is identified by its index in `continuous_cols + discrete_cols`.
- `Unit.coarse` holds the coarsened values.
- `Unit.raw` holds the original continuous values.
- The ridge coefficient vectors and the frame's column layout are inputs.
- A missing value (NaN) is `None` of an `Option`.

Behaviours of the code the model keeps:

- Without any stratum, `fit` raises. The error is in `pd.concat` of an empty list (tim/weights.py:67). The model returns the error `NoStrata` rather than leaving ATE and ATT empty.
- The discrete-distance lookup in tim/distances.py:125-131 ignores `Column_Name`. It takes the first row holding the two values in either order, from any discrete column, and 0 when there is none. `Crosstab.Read` does exactly that.
- When no discrete column holds two different values, `algo_distance_crosstab` returns `pd.DataFrame([])` (tim/distances.py:65), a frame without columns. The lookup `disc_distance['Attribute_1']` then raises `KeyError` at the first stratum that compares a control on a discrete covariate outside its key. `fit` stops there. `Crosstab.Read` returns None on such a table. `Distances.UnifiedDistance` stops at that frame, and `Fit` returns the error `EmptyPairTable`. The frames scored before the failing one keep their columns; the later attributes keep their old values.
- A second `fit` on the same object can fail with `NoStrata` after an earlier one succeeded. `matched_data_` is then the empty `pd.DataFrame()` (tim/matcher.py:227-228), while `weights_` still holds the earlier series. `get_matched_data` assigns that series to the empty frame (tim/matcher.py:278). pandas then gives the frame the series' index, so the result holds one row per series entry with its weight. `Matcher.WithWeights` returns exactly those rows.

## Model

| member | source | states |
|---|---|---|
| Ranking.InsertPosition | tim/matcher.py:197-201 | inserting one entry keeps the positions ordered by descending score with ties in ranking order, and adds exactly that entry |
| Ranking.SortPositions | tim/matcher.py:197-201 | the result is ordered by descending score, stably, and holds each position 0 .. n-1 exactly once |
| Ranking.SortedCovariates | tim/matcher.py:197-201 | `sorted_covariates` lists the covariates of the ranking's entries in an arrangement of all positions by descending score with ties in ranking order, so every covariate of the ranking appears |
| Importance.ConfounderImportance | tim/importance.py:72-85 | one entry per covariate column, keyed by the covariates in frame order; the treatment column is dropped |
| Importance.CombinedKeys | tim/importance.py:72 | the combined scores are keyed by the covariate columns in order and none is negative |
| Importance.KeysMembers | tim/importance.py:84 | the result's keys are exactly the covariate columns: all of them, and not the treatment column |
| Importance.CombinedScore | tim/importance.py:54-72 | a covariate's combined score is abs(a) + abs(b) of its own outcome and treatment coefficients |
| Importance.ImportanceBounds | tim/importance.py:75-82 | every normalised score lies in [0, 1] |
| Importance.ImportanceTop | tim/importance.py:75-78 | when some combined score is nonzero, some covariate scores exactly 1 |
| Importance.ImportanceZero | tim/importance.py:79-82 | when every combined score is 0, every score is 0 |
| Importance.ImportanceOrder | tim/importance.py:75-82 | normalisation keeps the order of any two scores, in both directions |
| Crosstab.Unique | tim/distances.py:20 | `unique()` lists each value of the column once and no other value |
| Crosstab.FindMaxCrosstab | tim/distances.py:10-32 | the loop computes the sum over the levels of col2 of the larger of P(b given a1) and P(b given a2), minus 1 |
| Crosstab.MaxCrosstabSymmetric | tim/distances.py:10-32 | the distance does not depend on the order of the two values |
| Crosstab.JointTotalCount | tim/distances.py:17-22 | summing a crosstab row over the distinct values of col2 gives the number of rows with that value |
| Crosstab.ProportionSumOne | tim/distances.py:20-24 | the conditional proportions of one value over the levels of col2 sum to 1 |
| Crosstab.TermSumBetween | tim/distances.py:20-29 | the summed maxima lie between the proportions of a1 and the proportions of both values together |
| Crosstab.MaxCrosstabBounds | tim/distances.py:10-32 | the distance between two observed values lies in [0, 1] |
| Crosstab.PairsComplete | tim/distances.py:44 | `combinations(values, 2)` holds the values at every two increasing positions |
| Crosstab.PairsSound | tim/distances.py:44 | every pair holds the values at two increasing positions |
| Crosstab.PairsUnique | tim/distances.py:44 | over the distinct values of a column no unordered pair occurs twice |
| Crosstab.ColumnPairs | tim/distances.py:44 | the pairs of a column are the combinations of its unique values, both of them observed in the column |
| Crosstab.ColumnRows | tim/distances.py:58-63 | one row per pair, naming the column, the two values in pair order and their mean distance |
| Crosstab.OthersTotalBounds | tim/distances.py:45-54 | the total over the other discrete columns lies between 0 and their number |
| Crosstab.MeanDistanceBounds | tim/distances.py:45-56 | a pair's `Total_Distance` lies in [0, 1], including the single-column case 0 |
| Crosstab.MeanDistanceSymmetric | tim/distances.py:45-56 | a pair's `Total_Distance` does not depend on the order of the two values |
| Crosstab.PairDistance | tim/distances.py:45-56 | the inner loop over the other columns computes the pair's mean distance |
| Crosstab.ColumnTable | tim/distances.py:44-63 | the rows appended for one column are its pairs with their distances, in `combinations` order |
| Crosstab.AlgoDistanceCrosstab | tim/distances.py:35-66 | the method builds the pair table of the discrete columns, column after column |
| Crosstab.PairTableRows | tim/distances.py:43-63 | every table row names a discrete column, two different values observed in it, and their mean distance |
| Crosstab.PairTableColumns | tim/distances.py:43-63 | every table row names one of the discrete columns |
| Crosstab.PairTableUnique | tim/distances.py:43-63 | no column has two rows for the same unordered pair |
| Crosstab.PairTableComplete | tim/distances.py:43-63 | every unordered pair of different observed values of every discrete column has a row |
| Crosstab.LookupFirst | tim/distances.py:125-131 | the selection fails (KeyError) exactly on a table without rows; otherwise it yields the distance of the first row holding the two values in either order, or 0 when none does |
| Crosstab.ColumnPairsEmpty | tim/distances.py:44 | a column has no pair of values exactly when every unit has the same value in it |
| Crosstab.PairTableEmpty | tim/distances.py:41-65 | the table has no row exactly when every discrete column holds one value only |
| Crosstab.LookupSymmetric | tim/distances.py:125-130 | the lookup does not depend on which value is the treated one |
| Crosstab.LookupSameValue | tim/distances.py:125-131 | a value compared with itself is at distance 0, since no row pairs a value with itself |
| Crosstab.LookupBounds | tim/distances.py:125-131 | every distance read from the table lies in [0, 1] |
| Crosstab.LookupObserved | tim/distances.py:123-131 | two different values observed in a discrete column are found: the distance read is their mean distance in a discrete column where both occur |
| Distances.Outside | tim/distances.py:88-93 | the covariates outside the key in a range: exactly those, in increasing order, without repeats |
| Distances.QualifiesIff | tim/distances.py:87 | a stratum gets distance columns exactly when some covariate lies outside its key |
| Distances.InverseWeightBounds | tim/distances.py:99-102 | with one covariate in the key and one outside, the treated inverse weight lies in [1/n, 1 - 1/n] |
| Distances.NearestGap | tim/distances.py:110 | `np.min(np.abs(val - training_1))` is at most every gap and equal to one of them |
| Distances.ContinuousDistanceNonNegative | tim/distances.py:105-111 | a control's continuous distance is never negative |
| Distances.ContinuousDistanceTwin | tim/distances.py:105-111 | a control matched by treated raw values on every compared continuous covariate is at continuous distance 0 |
| Distances.DiscreteDistanceBounds | tim/distances.py:116-134 | a control's discrete distance lies between 0 and the number of discrete columns compared |
| Distances.DiscreteDistanceSame | tim/distances.py:119-134 | a control with the first member's values on every compared discrete covariate is at discrete distance 0 |
| Distances.InverseDistanceBounds | tim/distances.py:147-152 | inverse min-max normalisation maps a total between the minimum and the maximum into [0, 1] |
| Distances.InverseDistanceAntitone | tim/distances.py:147-152 | a smaller grand total never gets a smaller inverse distance |
| Distances.InverseDistanceExtremes | tim/distances.py:147-152 | the nearest control gets 1, and the farthest gets 0 when the totals differ |
| Distances.ControlInverseBounds | tim/distances.py:139-155 | every control's inverse distance lies in [0, 1] |
| Distances.NearestControl | tim/distances.py:144-152 | a stratum with controls has a control with inverse distance 1 |
| Distances.ScoresLayout | tim/distances.py:96-141 | treated members have NaN distances and the inverse weight; controls have a continuous distance, a discrete one exactly when a discrete covariate is compared, and their sum as the grand total |
| Distances.ContinuousTotals | tim/distances.py:105-111 | the running totals over the continuous columns equal each control's continuous distance |
| Distances.LookupColumn | tim/distances.py:119-132 | fails exactly when the table has no columns and there is a control; otherwise each control's entry is the table distance from the reference value to its value |
| Distances.DiscreteTotals | tim/distances.py:116-134 | fails exactly when the stratum's lookup raises; otherwise the running totals over the discrete columns equal each control's discrete distance |
| Distances.ControlColumns | tim/distances.py:105-141 | fails exactly when the stratum's lookup raises; otherwise the controls' continuous, discrete and grand totals, in member order |
| Distances.RankStep | tim/distances.py:113 | the arm position grows by one exactly past each member with that treatment |
| Distances.RankPosition | tim/distances.py:113 | a member sits in its arm at the position counted by its rank |
| Distances.Scatter | tim/distances.py:113 | the masked assignment gives the j-th control the j-th value and leaves treated members at the fill value |
| Distances.PlacedScores | tim/distances.py:113-156 | scattering the treated entry and the control entries gives the specified columns of the stratum |
| Distances.StratumDistances | tim/distances.py:74-156 | None exactly when the stratum's lookup raises (empty table, a discrete covariate outside the key, a control); otherwise the specified per-member columns |
| Distances.FirstFailure | tim/distances.py:74-136 | the position of the first frame whose lookup raises: that frame raises and no earlier one does |
| Distances.FailsIff | tim/distances.py:65-136 | over frames with controls, some lookup raises exactly when the table has no row and some key leaves out a discrete covariate |
| Distances.ScoreFrame | tim/distances.py:75-162 | one pass of the loop: fails exactly when the frame's lookup raises; otherwise the frame as `Scored` says (columns added only when it qualifies) |
| Distances.UnifiedDistance | tim/distances.py:69-162 | succeeds exactly when no frame raises; the frames before the first raising one get their distance columns in place when they qualify, and that frame and the later ones are unchanged |
| Frames.Arm | tim/weights.py:33-34 | `df[df[treatment] == t]` holds exactly the members with treatment t, in member order |
| Frames.ArmSizes | tim/weights.py:33-37 | the treated and control counts of a stratum add up to its size |
| Frames.ArmEmpty | tim/weights.py:54 | an arm is empty exactly when no member has that treatment |
| Weights.ArmTotalAtLeast | tim/weights.py:25-28 | a stratum's arm is part of the global count M_treated or M_control |
| Weights.WeightPresence | tim/weights.py:39-65 | treated members always get a weight; controls get one exactly when the stratum has both arms |
| Weights.WeightsNonNegative | tim/weights.py:42-63 | weights are never negative when the inverse distances are not |
| Weights.FactorPositive | tim/weights.py:55 | `weight_control` is non-negative, and positive when M_control is |
| Weights.TreatedWeightSum | tim/weights.py:42-49 | treated members with one common inverse distance v weigh n_t times v together |
| Weights.ControlWeightSum | tim/weights.py:55-63 | without inverse distances a stratum's controls weigh (M_c / M_t) * n_t together |
| Weights.FactorTimesCount | tim/weights.py:55 | n_c controls of weight (M_c / M_t) * (n_t / n_c) weigh (M_c / M_t) * n_t |
| Weights.ControlWeightBounds | tim/weights.py:55-60 | with inverse distances in [0, 1] the control weights of a stratum sum to at most (M_c / M_t) * n_t, and to at least the control factor when one control has inverse distance 1 |
| Weights.ControlWeightsBetween | tim/weights.py:55-63 | each control weight lies between 0 and `weight_control` |
| Weights.ControlWeightBelow | tim/weights.py:55-63 | one control's weight lies between 0 and `weight_control` and equals it at inverse distance 1 |
| Weights.ControlWeightsTotalMatched | tim/weights.py:25-28 | without inverse distances and with both arms everywhere, all control weights sum to M_control |
| Weights.CalculateWeights | tim/weights.py:8-68 | the weights column is written into every frame; the series is the treated-then-control entries, stratum after stratum; with no frame the concatenation fails (None) |
| Effects.Ratio | tim/effects.py:37-43 | a division gives a finite value exactly when the denominator is nonzero |
| Effects.Minus | tim/effects.py:45 | a difference is finite exactly when both operands are |
| Effects.Plus | tim/effects.py:54-55 | a sum is finite exactly when both operands are |
| Effects.AteNone | tim/effects.py:54 | the ATE is None exactly when no stratum with weights has a treated member |
| Effects.AttNone | tim/effects.py:55 | the ATT is None exactly when no stratum has weights |
| Effects.TotalFinite | tim/effects.py:54-55 | a list's `sum()` is finite exactly when all entries are, and is then the sum of their values |
| Effects.MeanBetween | tim/effects.py:54-55 | the mean of finite entries in [lo, hi] is finite and lies in [lo, hi] |
| Effects.AteTotal | tim/effects.py:47-54 | `ate_list` has one entry per treated member and sums to the n_treat-weighted sum of the stratum ATEs |
| Effects.AteWeightedAverage | tim/effects.py:45-54 | the final ATE is the n_treat-weighted average of the stratum ATEs |
| Effects.AttTotal | tim/effects.py:50-55 | `att_list` has one entry per stratum with weights and sums to their ATTs |
| Effects.AttUnweightedMean | tim/effects.py:50-55 | the final ATT is the unweighted mean of the stratum ATTs |
| Effects.AteBetween | tim/effects.py:45-54 | the final ATE lies between bounds on the stratum ATEs |
| Effects.AttBetween | tim/effects.py:50-55 | the final ATT lies between bounds on the stratum ATTs |
| Effects.AteListHas | tim/effects.py:47-48 | a contributing stratum's ATE is in `ate_list` |
| Effects.AttListHas | tim/effects.py:50-52 | a stratum's ATT is in `att_list` |
| Effects.MeanNonFinite | tim/effects.py:54-55 | one NaN or infinite entry makes the mean non-finite |
| Effects.AteNonFinite | tim/effects.py:37-54 | one contributing stratum with a non-finite ATE makes the final ATE non-finite |
| Effects.AttNonFinite | tim/effects.py:50-55 | one stratum with a non-finite ATT makes the final ATT non-finite |
| Effects.StratumAteConstant | tim/effects.py:37-45 | with outcome yT for the treated and yC for the controls, a stratum's ATE is yT - yC |
| Effects.WeightedMeanConstant | tim/effects.py:50-51 | the weight-weighted mean of an arm with constant outcome y and nonzero total weight is y |
| Effects.StratumAttConstant | tim/effects.py:50-51 | with outcome yT for the treated and yC for the controls, a stratum's ATT is yT - yC |
| Effects.ConstantEffect | tim/effects.py:29-55 | with constant outcomes per arm, both estimators return exactly yT - yC |
| Effects.CalculateAteAtt | tim/effects.py:6-57 | the loop builds `ate_list` and `att_list` and returns their means, None for an empty list |
| Matching.KeyOf | tim/matcher.py:212 | a unit's group key is its coarse values on the current covariates, in order |
| Matching.LexTransitive | tim/matcher.py:212-215 | the key order groups are visited in is transitive |
| Matching.LexTotal | tim/matcher.py:212-215 | two different keys of one length are ordered one way or the other |
| Matching.InsertKey | tim/matcher.py:212-215 | inserting a key keeps the key list sorted and adds exactly that key |
| Matching.SortedKeys | tim/matcher.py:212-215 | the keys visited are exactly the keys of the pool's units, sorted, each once |
| Matching.Group | tim/matcher.py:212-215 | a group holds exactly the pool's units with that key |
| Matching.GroupIncreasing | tim/matcher.py:212-217 | a group lists its units in input order |
| Matching.GroupUnaffected | tim/matcher.py:212-219 | removing another group from the pool does not change a group, so grouping the current pool equals grouping the pass's starting pool |
| Matching.GroupRemoved | tim/matcher.py:218-219 | once a group is dropped no unit with its key is left in the pool |
| Matching.AcceptKeeps | tim/matcher.py:216-219 | accepting a group keeps the partition, the keyed-strata property and the descending key lengths |
| Matching.PassKeeps | tim/matcher.py:215-219 | a pass keeps those invariants, only shrinks the pool and only appends strata |
| Matching.PassSaturates | tim/matcher.py:215-219 | after a pass no group of the pool on those covariates holds every treatment value |
| Matching.RunKeeps | tim/matcher.py:208-224 | the passes from prefix k down keep the partition and the keyed, descending strata; every stratum is keyed on at least the last pass's prefix, the pool is saturated on it, and a last pass longer than 1 means no treated unit was left |
| Matching.MatchingProperties | tim/matcher.py:191-232 | the strata and the pool partition the input, every stratum is keyed on a prefix and holds every treatment value, key lengths never grow, and the loop stops as written |
| Matching.FlattenCovered | tim/matcher.py:227-228 | `matched_df_final` lists the covered units, each once |
| Matching.MatchPass | tim/matcher.py:212-219 | one pass of the loop computes its specification |
| Matching.MatchingResult | tim/matcher.py:227-232 | the matched units and the unmatched ones split the input, without repeats |
| Matching.ExactMatching | tim/matcher.py:191-232 | the method computes the matching on the importance order and returns the strata, the unmatched treated, the unmatched units and the matched units |
| Matcher.ValidateAccepts | tim/matcher.py:175-189 | validation passes exactly when every required column is present and both treatment values occur |
| Matcher.ValidateMissing | tim/matcher.py:177-182 | a missing column is reported with every missing column, before the treatment is checked |
| Matcher.StrataReady | tim/matcher.py:114-144 | every stratum has a treated and a control member, so both later stages accept it |
| Matcher.Matched | tim/matcher.py:97-144 | ranking, matching and scoring give frames of two-armed strata whose matched units and pool split the input |
| Matcher.WeightStage | tim/matcher.py:148-151 | the weight stage keeps one frame per stratum and fails exactly when there is no stratum |
| Matcher.WeightStageFrames | tim/matcher.py:148-151 | every frame keeps its stratum and carries weights after the weight stage |
| Matcher.TreatedSplit | tim/matcher.py:167-170 | the input's treated units split into the matched ones and the unmatched ones |
| Matcher.RetentionShare | tim/matcher.py:167-170 | the retention lies in [0, 1] and is 1 exactly when no treated unit is left unmatched |
| Matcher.FitEffects | tim/matcher.py:148-160 | both effects are defined exactly when matching found a stratum and `unified_distance` did not raise |
| Matcher.FitRetention | tim/matcher.py:166-170 | a fitted run's retention lies in [0, 1] and is 1 exactly when every treated unit was matched |
| Matcher.WeightOf | tim/matcher.py:278 | assigning the series to a column gives a unit the weight of its entry, or NaN when it has none |
| Matcher.WithWeights | tim/matcher.py:277-279 | the matched units in order, each with its series weight, or NaN without a series; on an empty matched frame with a series, the series' own entries; every weight shown is an entry of the series |
| Matcher.WeightOfAt | tim/matcher.py:278 | in a series without repeated units, the aligned lookup of an entry's unit gives that entry's weight |
| Matcher.WithWeightsAligned | tim/matcher.py:277-279 | with a series without repeated units, every row carries the series weight of its unit, whether the index was adopted or aligned |
| Matcher.SeriesCovers | tim/matcher.py:148-151 | the weight series lists every matched unit when every stratum has both arms |
| Matcher.FitWeighted | tim/matcher.py:148-151 | after a fit that found strata every matched unit has a weight |
| Distances.TableEmpty | tim/distances.py:35-65 | the pair table of the discrete columns has no row exactly when every discrete column holds one value only |
| Matcher.RaisesIff | tim/matcher.py:127-144 | on two-armed strata, the distance stage raises exactly when there are discrete covariates, each holds one value only, and some stratum's key leaves out a discrete covariate |
| Matcher.DistanceStage | tim/matcher.py:127-144 | the distance columns are added in place only when there are discrete covariates, up to the first frame that raises; the stage fails exactly when `DistanceRaises` holds |
| Matcher.ScoreStage | tim/matcher.py:127-144 | the strata as frames, scored only when there are discrete covariates and up to the first frame that raises; fails exactly when `DistanceRaises` holds |
| Matcher.MatchStage | tim/matcher.py:97-144 | ranking, matching and scoring give what `Matched` specifies, and report whether the distance stage raised |
| Matcher.EstimateStage | tim/matcher.py:148-160 | the weights are written as `WeightStage` specifies, then both effects are estimated over the weighted frames |
| Matcher.Pipeline | tim/matcher.py:86-170 | every stage after validation gives what `Fitting` specifies; nothing runs after the distance stage raises; the effects and retention are computed only when weighting succeeded |
| Matcher.TIMatcher.constructor | tim/matcher.py:53-69 | the configuration is stored and every fitted attribute is None |
| Matcher.TIMatcher.Fit | tim/matcher.py:71-173 | a validation error is returned and leaves the object unchanged; otherwise the attributes take the stage results. When the distance stage raises, `EmptyPairTable` is returned; when no stratum was found, `NoStrata` is returned. In both cases the data, importance, strata and matched data were set, and the other attributes keep their old values |
| Matcher.TIMatcher.Store | tim/matcher.py:122-170 | the attributes are written as `fit` leaves them, including the partial state before the `KeyError` of the distance stage and before the failed concatenation |
| Matcher.TIMatcher.GetMatchedData | tim/matcher.py:265-279 | fails before a fit; otherwise the rows of `WithWeights`, including the old series' rows after a refit that found no stratum |

## Left out

- Ridge regression, the train/test split and the grid search (tim/importance.py:29-69) are left out. They are randomised numerical fits, so the two coefficient vectors are inputs.
- Coarsening (`cem.coarsen`, tim/matcher.py:103-109) is left out. It is an external library call, so the coarsened values are an input (`Unit.coarse`).
- The L1 overlap metrics (tim/matcher.py:92-93 and 163-164) are left out. `cem.imbalance` is not part of this model.
- `print` calls and `summary` (tim/matcher.py:234-263) are left out because they are output only. The not-fitted check in `summary` is the same one `Matcher.TIMatcher.GetMatchedData` models.
- Columns are addressed by covariate index instead of by name. Only validation sees names. Two naming effects are not modelled:
  - The merge suffix `_continuous` and the substring tests of tim/distances.py:88-93 are modelled by their effect, the continuous and discrete covariates outside the key. A column whose name contains `continuous`, or is a substring of another column's name, would be classified differently in the source.
  - Extra input columns and duplicate labels are not modelled.
- Floating point is modelled as exact reals.
  - NaN and infinities appear only where a division may have a zero denominator (module `Effects`).
  - NaN inside input values is not modelled.
- Treatments are the values 0 and 1 only. The validation rule "exactly two distinct values" becomes "both 0 and 1 occur". Other pairs of treatment labels are not representable.
- Importance.ConfounderImportance keeps the frame's column order. The index alignment of `outcome_coefficients + treatment_coefficients` may reorder labels, which changes only how `sorted` breaks ties.
- Matcher.TIMatcher.Fit requires `Prepared`: every unit has a value for every covariate, and the coefficient vectors fit the column layout. The source reads these from one data frame, so they cannot disagree there.
- Distances.StratumDistances requires a member, and a treated member wherever a continuous gap is measured. Without one, `np.min` of an empty array raises in the source. Every stratum of a fit has both arms (`Matcher.StrataReady`), so `fit` never reaches that error.
- Effects.StratumAteConstant and the other constant-outcome lemmas assume nonzero denominators. The zero-denominator path is the `NonFinite` value, covered by `Effects.AteNonFinite` and `Effects.AttNonFinite`.
- `matched_strata_` is the same list object the later stages mutate. The model stores the frames as the run leaves them, which have the same content, including the frames scored before a `KeyError`; aliasing is not modelled. `data_` is a copy, and the model stores its value.
- `treatment_retention_` and `data_` are not set by `__init__` in the source (tim/matcher.py:55-69). The model sets both to `None`, and no modelled operation reads them before `fit`.
- The masked assignment `df.loc[df[treatment] == 0, col] = values` (tim/distances.py:113 and 136) is modelled as `Distances.Scatter`. It hands the values to the controls in member order.
- Frame columns are written in place in the source. The model writes them in place one frame at a time (array element replacement), not column by column.
