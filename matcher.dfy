/**
 * The `TIMatcher` class of tim/matcher.py: input validation, the order of the
 * pipeline in `fit`, the treatment retention and `get_matched_data`.
 *
 * `fit` validates the input, keeps a copy of it, ranks the covariates by
 * importance, matches exactly on prefixes of that ranking, adds the distance
 * columns when there are discrete covariates, writes the weights, estimates
 * the effects and computes the share of treated units that were matched.
 * The specification of the whole run is the function `Fitting`; the method
 * `Fit` performs the steps on the object's fields and is proved to leave
 * them as `Fitting` says.
 */
module Matcher {
  import opened Wrappers
  import opened Units
  import opened Reals
  import opened Frames
  import Ranking
  import Matching
  import Crosstab
  import Distances
  import Weights
  import Effects
  import Importance

  /** The constructor's arguments: column names, continuous covariates first in all_covariates. */
  datatype Config = Config(treatment: string, outcome: string, continuous: seq<string>, discrete: seq<string>)

  /**
   * The exceptions the matcher raises: the `ValueError`s of validation, of
   * `pd.concat` with no stratum and of `get_matched_data` before a fit, and
   * the `KeyError` of `unified_distance` on a pair table without rows.
   */
  datatype FitError =
    | MissingColumns(missing: set<string>)
    | NotBinary(levels: nat)
    | NoStrata
    | EmptyPairTable
    | NotFitted

  /** The columns `_validate_input` requires. */
  function Required(c: Config): set<string>
  {
    {c.treatment, c.outcome} + (set x | x in c.continuous) + (set x | x in c.discrete)
  }

  /** `_validate_input`: the first error found, or None. */
  function Validate(c: Config, columns: set<string>, rows: seq<Unit>): Option<FitError>
  {
    var missing := Required(c) - columns;
    if missing != {} then Some(MissingColumns(missing))
    else if |TreatmentLevels(rows)| != 2 then Some(NotBinary(|TreatmentLevels(rows)|))
    else None
  }

  /** The first n positions, the input's own order. */
  function Positions(n: nat): (r: seq<nat>)
    ensures |r| == n && forall i :: 0 <= i < n ==> r[i] == i
  {
    seq(n, i => i)
  }

  // ---------------------------------------------------------------------------
  // Validation

  lemma LevelsSubset(rows: seq<Unit>)
    ensures TreatmentLevels(rows) <= {0, 1}
  {
  }

  /** A set of treatment values without 0 or without 1 has at most one element. */
  lemma AtMostOne(s: set<int>, v: int)
    requires s <= {0, 1} && (v == 0 || v == 1) && v !in s
    ensures |s| <= 1
  {
    var w := 1 - v;
    if w in s {
      assert s == {w};
    } else {
      assert s == {};
    }
  }

  /**
   * Validation passes exactly when every required column is present and the
   * treatment takes both values 0 and 1.
   */
  lemma ValidateAccepts(c: Config, columns: set<string>, rows: seq<Unit>)
    ensures Validate(c, columns, rows) == None <==>
      && Required(c) <= columns
      && (exists i :: 0 <= i < |rows| && rows[i].treatment == 0)
      && (exists i :: 0 <= i < |rows| && rows[i].treatment == 1)
  {
    var levels := TreatmentLevels(rows);
    LevelsSubset(rows);
    assert Required(c) - columns == {} <==> Required(c) <= columns;
    if (exists i :: 0 <= i < |rows| && rows[i].treatment == 0) && (exists i :: 0 <= i < |rows| && rows[i].treatment == 1) {
      var i :| 0 <= i < |rows| && rows[i].treatment == 0;
      var j :| 0 <= j < |rows| && rows[j].treatment == 1;
      assert 0 in levels && 1 in levels;
      assert levels == {0, 1};
      assert |levels| == 2;
    } else if forall i :: 0 <= i < |rows| ==> rows[i].treatment != 0 {
      AtMostOne(levels, 0);
    } else {
      AtMostOne(levels, 1);
    }
  }

  /** A missing column is reported with all the missing columns, before the treatment is looked at. */
  lemma ValidateMissing(c: Config, columns: set<string>, rows: seq<Unit>)
    requires !(Required(c) <= columns)
    ensures Validate(c, columns, rows) == Some(MissingColumns(Required(c) - columns))
    ensures forall x :: x in Validate(c, columns, rows).value.missing <==> x in Required(c) && x !in columns
  {
    var x :| x in Required(c) && x !in columns;
    assert x in Required(c) - columns;
  }

  // ---------------------------------------------------------------------------
  // The pipeline as a function

  /** What `fit` needs of its inputs besides validation (see the module comment). */
  predicate Prepared(c: Config, rows: seq<Unit>, layout: seq<Importance.Column>, a: seq<real>, b: seq<real>)
  {
    && Shaped(rows, |c.continuous|, |c.discrete|)
    && |a| == |layout| && |b| == |Importance.Keys(layout)|
    && forall k :: 0 <= k < |Importance.Keys(layout)| ==> Importance.Keys(layout)[k] < |c.continuous| + |c.discrete|
  }

  /** `sorted_covariates`: the covariates, most important first. */
  function Order(layout: seq<Importance.Column>, a: seq<real>, b: seq<real>): seq<nat>
    requires |a| == |layout| && |b| == |Importance.Keys(layout)|
  {
    Ranking.SortedCovariates(Importance.ConfounderImportance(layout, a, b))
  }

  lemma OrderOk(c: Config, rows: seq<Unit>, layout: seq<Importance.Column>, a: seq<real>, b: seq<real>)
    requires Prepared(c, rows, layout, a, b)
    ensures Matching.CovOk(rows, Order(layout, a, b))
  {
    var ranking := Importance.ConfounderImportance(layout, a, b);
    var order := Order(layout, a, b);
    forall j | 0 <= j < |order| ensures order[j] < |c.continuous| + |c.discrete| {
      var p :| 0 <= p < |ranking| && order[j] == ranking[p].0;
    }
  }

  /** The frames of the strata before any column is added. */
  function InitialFrames(strata: seq<Matching.Stratum>): (r: seq<Frame>)
    ensures |r| == |strata|
    ensures forall k :: 0 <= k < |strata| ==> r[k].covariates == strata[k].covariates && r[k].members == strata[k].members
  {
    seq(|strata|, k requires 0 <= k < |strata| => Frame(strata[k].covariates, strata[k].members, None, None))
  }

  /** What `unified_distance` reads: the units, the covariate counts and the pair table of the discrete columns. */
  function ContextOf(c: Config, rows: seq<Unit>): (ctx: Distances.Context)
    requires Shaped(rows, |c.continuous|, |c.discrete|)
    ensures ctx.Valid() && ctx.rows == rows && ctx.nCont == |c.continuous| && ctx.nDisc == |c.discrete|
    ensures Distances.TableOfColumns(ctx)
  {
    var plain := Distances.Context(rows, |c.continuous|, |c.discrete|, []);
    Distances.DiscreteColumnsOk(plain);
    var disc := Distances.DiscreteColumns(plain);
    var ctx := plain.(table := Crosstab.PairTable(rows, disc, disc));
    assert Distances.DiscreteColumns(ctx) == disc;
    ctx
  }

  /**
   * The frames as `unified_distance` leaves them: each frame scored, up to
   * the first one whose lookup raises; that frame and the later ones as they
   * were.
   */
  function AllScored(ctx: Distances.Context, frames: seq<Frame>): (r: seq<Frame>)
    requires Distances.AllComputable(ctx, frames)
    ensures |r| == |frames|
  {
    var e := Distances.FirstFailure(ctx, frames);
    seq(|frames|, k requires 0 <= k < |frames| => if k < e then Distances.Scored(ctx, frames[k]) else frames[k])
  }

  /** Frames scored up to the first failing one, and as they were from there on, are `AllScored`. */
  lemma AllScoredIs(ctx: Distances.Context, frames: seq<Frame>, after: seq<Frame>)
    requires Distances.AllComputable(ctx, frames) && |after| == |frames|
    requires forall f :: 0 <= f < Distances.FirstFailure(ctx, frames) ==> after[f] == Distances.Scored(ctx, frames[f])
    requires forall f :: Distances.FirstFailure(ctx, frames) <= f < |frames| ==> after[f] == frames[f]
    ensures after == AllScored(ctx, frames)
  {
  }

  /** `unified_distance` raises on the strata: there are discrete covariates and the lookup of some frame fails. */
  predicate DistanceRaises(c: Config, rows: seq<Unit>, strata: seq<Matching.Stratum>)
    requires Shaped(rows, |c.continuous|, |c.discrete|) && Distances.AllComputable(ContextOf(c, rows), InitialFrames(strata))
  {
    |c.discrete| > 0 && Distances.FirstFailure(ContextOf(c, rows), InitialFrames(strata)) < |strata|
  }

  /** The share of the input's treated units that were matched. */
  function Retention(rows: seq<Unit>, matched: seq<nat>): real
    requires InRange(rows, matched) && Arm(rows, Positions(|rows|), 1) != []
  {
    |Arm(rows, matched, 1)| as real / |Arm(rows, Positions(|rows|), 1)| as real
  }

  /**
   * Everything a `fit` on a validated input produces, stage by stage;
   * `raised` says that `unified_distance` raised, so that no later stage ran.
   */
  datatype Fitted = Fitted(
    importance: seq<(nat, real)>,
    remaining: set<nat>,
    strata: seq<Matching.Stratum>,
    matched: seq<nat>,
    frames: seq<Frame>,
    series: Option<seq<(nat, real)>>,
    ate: Option<Effects.Float>,
    att: Option<Effects.Float>,
    retention: real,
    raised: bool)

  /** Both arms of a stratum holding two treatment values are non-empty. */
  lemma BothArms(rows: seq<Unit>, ids: seq<nat>)
    requires InRange(rows, ids) && |GroupLevels(rows, ids)| == 2
    ensures Arm(rows, ids, 1) != [] && Arm(rows, ids, 0) != []
  {
    var levels := GroupLevels(rows, ids);
    assert levels <= {0, 1};
    if 1 !in levels {
      AtMostOne(levels, 1);
    }
    if 0 !in levels {
      AtMostOne(levels, 0);
    }
    var i :| 0 <= i < |ids| && rows[ids[i]].treatment == 1;
    var j :| 0 <= j < |ids| && rows[ids[j]].treatment == 0;
    assert ids[i] in Arm(rows, ids, 1) && ids[j] in Arm(rows, ids, 0);
  }

  /** The strata of a validated input are frames that both later stages accept. */
  lemma StrataReady(c: Config, rows: seq<Unit>, order: seq<nat>, strata: seq<Matching.Stratum>)
    requires Shaped(rows, |c.continuous|, |c.discrete|) && |TreatmentLevels(rows)| == 2
    requires Matching.AllKeyed(rows, order, |TreatmentLevels(rows)|, strata, 1)
    ensures FramesOk(rows, InitialFrames(strata)) && Distances.AllComputable(ContextOf(c, rows), InitialFrames(strata))
    ensures forall f :: 0 <= f < |strata| ==> Arm(rows, strata[f].members, 1) != [] && Arm(rows, strata[f].members, 0) != []
    ensures TwoArmed(rows, InitialFrames(strata))
  {
    var frames := InitialFrames(strata);
    forall f | 0 <= f < |strata|
      ensures WellFormed(rows, frames[f]) && Arm(rows, strata[f].members, 1) != [] && Arm(rows, strata[f].members, 0) != []
    {
      assert Matching.Keyed(rows, order, |TreatmentLevels(rows)|, strata[f]);
      BothArms(rows, strata[f].members);
    }
  }

  /** Scoring keeps every frame well formed and its members. */
  lemma ScoredOk(ctx: Distances.Context, rows: seq<Unit>, frames: seq<Frame>)
    requires ctx.rows == rows && FramesOk(rows, frames) && Distances.AllComputable(ctx, frames)
    ensures FramesOk(rows, AllScored(ctx, frames))
    ensures forall f :: 0 <= f < |frames| ==>
      AllScored(ctx, frames)[f].members == frames[f].members && AllScored(ctx, frames)[f].covariates == frames[f].covariates
    ensures TwoArmed(rows, frames) ==> TwoArmed(rows, AllScored(ctx, frames))
  {
  }

  /**
   * `fit` on a validated input up to the distance columns: the unmatched
   * pool, the strata, and the strata as frames, scored when there are
   * discrete covariates.  Every stratum has members of both arms, and the
   * matched units and the pool split the input.
   */
  function Matched(c: Config, rows: seq<Unit>, layout: seq<Importance.Column>, a: seq<real>, b: seq<real>)
    : (r: (set<nat>, seq<Matching.Stratum>, seq<Frame>))
    requires Prepared(c, rows, layout, a, b) && |TreatmentLevels(rows)| == 2
    ensures Distances.AllComputable(ContextOf(c, rows), InitialFrames(r.1))
    ensures |r.2| == |r.1| && FramesOk(rows, r.2) && TwoArmed(rows, r.2)
    ensures forall f :: 0 <= f < |r.1| ==>
      && r.2[f].members == r.1[f].members && r.2[f].covariates == r.1[f].covariates
      && Arm(rows, r.1[f].members, 1) != [] && Arm(rows, r.1[f].members, 0) != []
    ensures var matched := Matching.Flatten(r.1);
      NoDuplicates(matched) && SetOf(matched) + r.0 == AllIds(|rows|) && SetOf(matched) !! r.0
  {
    var order := Order(layout, a, b);
    OrderOk(c, rows, layout, a, b);
    var (remaining, strata) := Matching.Matching(rows, order);
    Matching.MatchingResult(rows, order, remaining, strata);
    var ctx := ContextOf(c, rows);
    StrataReady(c, rows, order, strata);
    var initial := InitialFrames(strata);
    ScoredOk(ctx, rows, initial);
    (remaining, strata, if |c.discrete| > 0 then AllScored(ctx, initial) else initial)
  }

  /**
   * `fit` on a validated input: the result of every stage.  When
   * `unified_distance` raises, the frames are left as it leaves them and
   * nothing later is computed.
   */
  function Fitting(c: Config, rows: seq<Unit>, layout: seq<Importance.Column>, a: seq<real>, b: seq<real>): Fitted
    requires Prepared(c, rows, layout, a, b) && |TreatmentLevels(rows)| == 2
  {
    var (remaining, strata, scored) := Matched(c, rows, layout, a, b);
    var matched := Matching.Flatten(strata);
    RetentionShare(rows, remaining, matched);
    var raised := DistanceRaises(c, rows, strata);
    var (frames, series) := if raised then (scored, None) else WeightStage(rows, scored);
    Fitted(Importance.ConfounderImportance(layout, a, b), remaining, strata, matched, frames, series,
      if raised then None else Effects.Mean(Effects.AteList(rows, frames)),
      if raised then None else Effects.Mean(Effects.AttList(rows, frames)),
      Retention(rows, matched), raised)
  }

  /**
   * `unified_distance` raises on two-armed strata exactly when there are
   * discrete covariates, each of them holds one value only (so the pair
   * table has no row), and the key of some stratum leaves out a discrete
   * covariate.
   */
  lemma RaisesIff(c: Config, rows: seq<Unit>, strata: seq<Matching.Stratum>)
    requires Shaped(rows, |c.continuous|, |c.discrete|) && Distances.AllComputable(ContextOf(c, rows), InitialFrames(strata))
    requires FramesOk(rows, InitialFrames(strata)) && TwoArmed(rows, InitialFrames(strata))
    ensures DistanceRaises(c, rows, strata) <==>
      && |c.discrete| > 0
      && (forall d :: |c.continuous| <= d < |c.continuous| + |c.discrete| ==> Crosstab.Constant(rows, d))
      && exists f, d :: 0 <= f < |strata| && |c.continuous| <= d < |c.continuous| + |c.discrete| && d !in strata[f].covariates
  {
    var ctx := ContextOf(c, rows);
    var fs := InitialFrames(strata);
    Distances.TableEmpty(ctx);
    Distances.FailsIff(ctx, fs);
    LeavesOutFrames(strata, ctx.nCont, ctx.Covariates());
  }

  /** Some stratum's key leaves out a covariate of lo .. hi-1 exactly when some initial frame's does. */
  lemma LeavesOutFrames(strata: seq<Matching.Stratum>, lo: nat, hi: nat)
    ensures (exists f, d :: 0 <= f < |strata| && lo <= d < hi && d !in strata[f].covariates)
        <==> (exists f, d :: 0 <= f < |InitialFrames(strata)| && lo <= d < hi && d !in InitialFrames(strata)[f].covariates)
  {
    var fs := InitialFrames(strata);
    if exists f, d :: 0 <= f < |strata| && lo <= d < hi && d !in strata[f].covariates {
      var f, d :| 0 <= f < |strata| && lo <= d < hi && d !in strata[f].covariates;
      assert d !in fs[f].covariates;
    }
    if exists f, d :: 0 <= f < |fs| && lo <= d < hi && d !in fs[f].covariates {
      var f, d :| 0 <= f < |fs| && lo <= d < hi && d !in fs[f].covariates;
      assert d !in strata[f].covariates;
    }
  }

  /**
   * The weight stage: the frames with their `weights` column and the weight
   * series, which is absent exactly when there is no frame.
   */
  function WeightStage(rows: seq<Unit>, scored: seq<Frame>): (r: (seq<Frame>, Option<seq<(nat, real)>>))
    requires FramesOk(rows, scored)
    ensures |r.0| == |scored| && FramesOk(rows, r.0)
    ensures r.1 == None <==> scored == []
  {
    var mt := Weights.ArmTotal(rows, scored, 1);
    var mc := Weights.ArmTotal(rows, scored, 0);
    Weights.TotalBounds(rows, scored);
    FramesWeightedOk(rows, scored, mt, mc);
    (Weights.AllWeighted(rows, scored, mt, mc), if scored == [] then None else Some(Weights.Series(rows, scored, mt, mc)))
  }

  /** Every frame keeps its stratum and now carries weights. */
  lemma WeightStageFrames(rows: seq<Unit>, scored: seq<Frame>)
    requires FramesOk(rows, scored)
    ensures forall f :: 0 <= f < |scored| ==>
      && WeightStage(rows, scored).0[f].members == scored[f].members
      && WeightStage(rows, scored).0[f].covariates == scored[f].covariates
      && WeightStage(rows, scored).0[f].weights.Some?
  {
    var mt := Weights.ArmTotal(rows, scored, 1);
    var mc := Weights.ArmTotal(rows, scored, 0);
    Weights.TotalBounds(rows, scored);
    FramesWeightedOk(rows, scored, mt, mc);
  }

  // ---------------------------------------------------------------------------
  // Properties of the pipeline

  /** Writing the weights keeps the frames well formed, their members, and marks every frame as carrying weights. */
  lemma FramesWeightedOk(rows: seq<Unit>, frames: seq<Frame>, mt: nat, mc: nat)
    requires Weights.Bounded(rows, frames, mt)
    ensures |Weights.AllWeighted(rows, frames, mt, mc)| == |frames|
    ensures FramesOk(rows, Weights.AllWeighted(rows, frames, mt, mc))
    ensures forall f :: 0 <= f < |frames| ==>
      Weights.AllWeighted(rows, frames, mt, mc)[f] == Weights.Weighted(rows, frames[f], mt, mc)
  {
    AllWeightedAt(rows, frames, mt, mc);
  }

  lemma {:induction false} AllWeightedAt(rows: seq<Unit>, frames: seq<Frame>, mt: nat, mc: nat)
    requires Weights.Bounded(rows, frames, mt)
    ensures forall f :: 0 <= f < |frames| ==>
      Weights.AllWeighted(rows, frames, mt, mc)[f] == Weights.Weighted(rows, frames[f], mt, mc)
  {
    if frames != [] {
      var n := |frames| - 1;
      assert Weights.Bounded(rows, frames[..n], mt) by {
        assert forall f :: 0 <= f < n ==> frames[..n][f] == frames[f];
      }
      AllWeightedAt(rows, frames[..n], mt, mc);
    }
  }

  /** A validated input has a treated unit, so the retention divides by a positive count. */
  lemma RetentionDefined(rows: seq<Unit>)
    requires |TreatmentLevels(rows)| == 2
    ensures InRange(rows, Positions(|rows|)) && Arm(rows, Positions(|rows|), 1) != []
  {
    LevelsSubset(rows);
    if 1 !in TreatmentLevels(rows) {
      AtMostOne(TreatmentLevels(rows), 1);
    }
    var i :| 0 <= i < |rows| && rows[i].treatment == 1;
    assert Positions(|rows|)[i] == i;
    assert i in Arm(rows, Positions(|rows|), 1);
  }

  /** An arm of a list without repeats has no repeats. */
  lemma {:induction false} ArmNoDuplicates(rows: seq<Unit>, ids: seq<nat>, t: Treatment)
    requires InRange(rows, ids) && NoDuplicates(ids)
    ensures NoDuplicates(Arm(rows, ids, t))
  {
    if ids != [] {
      var n := |ids| - 1;
      var init := ids[..n];
      assert forall k :: 0 <= k < n ==> init[k] == ids[k];
      ArmNoDuplicates(rows, init, t);
      var last := ids[n];
      if rows[last].treatment == t {
        var before := Arm(rows, init, t);
        assert last !in init;
        assert last !in before;
        var r := before + [last];
        assert Arm(rows, ids, t) == r;
        forall a, b | 0 <= a < |r| && 0 <= b < |r| && a != b ensures r[a] != r[b] {
          if a < |before| && b < |before| {
          } else if a == |before| {
            assert r[b] in before;
          } else {
            assert r[a] in before;
          }
        }
      }
    }
  }

  /** The members of a list's treated arm are the treated units of the list. */
  lemma ArmSet(rows: seq<Unit>, ids: seq<nat>)
    requires InRange(rows, ids)
    ensures SetOf(Arm(rows, ids, 1)) == TreatedIn(rows, SetOf(ids))
  {
  }

  lemma DisjointCard(x: set<nat>, y: set<nat>)
    requires x !! y
    ensures |x + y| == |x| + |y|
  {
    assert (x + y) - x == y;
  }

  lemma DivBelow(t: real, n: real)
    requires 0.0 <= t < n
    ensures t / n < 1.0
  {
    assert t / n * n == t;
  }

  /**
   * The treated units of the input split into the matched ones and the ones
   * left in the pool.
   */
  lemma TreatedSplit(rows: seq<Unit>, remaining: set<nat>, matched: seq<nat>)
    requires NoDuplicates(matched) && SetOf(matched) + remaining == AllIds(|rows|) && SetOf(matched) !! remaining
    ensures InRange(rows, matched)
    ensures |Arm(rows, matched, 1)| + |TreatedIn(rows, remaining)| == |Arm(rows, Positions(|rows|), 1)|
  {
    var all := Positions(|rows|);
    MatchedInRange(rows, remaining, matched);
    var x := Arm(rows, matched, 1);
    var y := Arm(rows, all, 1);
    ArmNoDuplicates(rows, matched, 1);
    ArmNoDuplicates(rows, all, 1);
    NoDuplicatesCard(x);
    NoDuplicatesCard(y);
    ArmSet(rows, matched);
    ArmSet(rows, all);
    PositionsSet(|rows|);
    var lost := TreatedIn(rows, remaining);
    assert TreatedIn(rows, AllIds(|rows|)) == SetOf(x) + lost;
    DisjointCard(SetOf(x), lost);
  }

  lemma MatchedInRange(rows: seq<Unit>, remaining: set<nat>, matched: seq<nat>)
    requires SetOf(matched) + remaining == AllIds(|rows|)
    ensures InRange(rows, matched)
  {
    forall k | 0 <= k < |matched| ensures matched[k] < |rows| {
      assert matched[k] in SetOf(matched);
    }
  }

  lemma PositionsSet(n: nat)
    ensures SetOf(Positions(n)) == AllIds(n)
  {
    forall i | i in AllIds(n) ensures i in SetOf(Positions(n)) {
      assert Positions(n)[i] == i;
    }
  }


  /**
   * The retention lies in [0, 1] and is 1 exactly when no treated unit is
   * left unmatched.
   */
  lemma RetentionShare(rows: seq<Unit>, remaining: set<nat>, matched: seq<nat>)
    requires |TreatmentLevels(rows)| == 2
    requires NoDuplicates(matched) && SetOf(matched) + remaining == AllIds(|rows|) && SetOf(matched) !! remaining
    ensures InRange(rows, matched) && Arm(rows, Positions(|rows|), 1) != []
    ensures 0.0 <= Retention(rows, matched) <= 1.0
    ensures Retention(rows, matched) == 1.0 <==> TreatedIn(rows, remaining) == {}
  {
    RetentionDefined(rows);
    TreatedSplit(rows, remaining, matched);
    var x := |Arm(rows, matched, 1)| as real;
    var y := |Arm(rows, Positions(|rows|), 1)| as real;
    DivBounds(x, y);
    if TreatedIn(rows, remaining) == {} {
      DivSelf(y);
    } else {
      assert |TreatedIn(rows, remaining)| > 0;
      DivBelow(x, y);
    }
  }

  /**
   * A fitted run has weights exactly when matching found a stratum, and then
   * both effects are defined, since every stratum has a treated member and
   * carries weights.
   */
  lemma FitEffects(c: Config, rows: seq<Unit>, layout: seq<Importance.Column>, a: seq<real>, b: seq<real>, r: Fitted)
    requires Prepared(c, rows, layout, a, b) && |TreatmentLevels(rows)| == 2
    requires r == Fitting(c, rows, layout, a, b)
    ensures r.ate.Some? <==> r.strata != [] && !r.raised
    ensures r.att.Some? <==> r.strata != [] && !r.raised
  {
    var (remaining, strata, scored) := Matched(c, rows, layout, a, b);
    if !r.raised {
      assert r.frames == WeightStage(rows, scored).0;
      WeightedEffects(rows, scored);
    }
  }

  /** Over the weighted frames of two-armed strata, both effects are defined exactly when there is a stratum. */
  lemma WeightedEffects(rows: seq<Unit>, scored: seq<Frame>)
    requires FramesOk(rows, scored) && TwoArmed(rows, scored)
    ensures var frames := WeightStage(rows, scored).0;
      && (Effects.Mean(Effects.AteList(rows, frames)).Some? <==> scored != [])
      && (Effects.Mean(Effects.AttList(rows, frames)).Some? <==> scored != [])
  {
    var frames := WeightStage(rows, scored).0;
    WeightStageFrames(rows, scored);
    Effects.AteNone(rows, frames);
    Effects.AttNone(rows, frames);
    if scored != [] {
      assert frames[0].members == scored[0].members;
      assert Effects.Contributes(rows, frames[0]);
    }
  }

  /** The retention of a fitted run lies in [0, 1] and is 1 exactly when every treated unit was matched. */
  lemma FitRetention(c: Config, rows: seq<Unit>, layout: seq<Importance.Column>, a: seq<real>, b: seq<real>)
    requires Prepared(c, rows, layout, a, b) && |TreatmentLevels(rows)| == 2
    ensures var r := Fitting(c, rows, layout, a, b);
      0.0 <= r.retention <= 1.0 && (r.retention == 1.0 <==> TreatedIn(rows, r.remaining) == {})
  {
    var (remaining, strata, scored) := Matched(c, rows, layout, a, b);
    RetentionShare(rows, remaining, Matching.Flatten(strata));
  }

  // ---------------------------------------------------------------------------
  // get_matched_data

  /** The series has an entry for the unit. */
  predicate Lists(series: seq<(nat, real)>, id: nat)
  {
    exists j :: 0 <= j < |series| && series[j].0 == id
  }

  /** An entry of either part is an entry of the concatenation. */
  lemma ListsAppend(a: seq<(nat, real)>, b: seq<(nat, real)>, id: nat)
    requires Lists(a, id) || Lists(b, id)
    ensures Lists(a + b, id)
  {
    if Lists(a, id) {
      var j :| 0 <= j < |a| && a[j].0 == id;
      assert (a + b)[j] == a[j];
    } else {
      var j :| 0 <= j < |b| && b[j].0 == id;
      assert (a + b)[|a| + j] == b[j];
    }
  }

  /** The weight the series gives a unit: assigning a series to a column aligns it by id. */
  function WeightOf(series: seq<(nat, real)>, id: nat): (r: Option<real>)
    ensures r.Some? <==> Lists(series, id)
    ensures r.Some? ==> (id, r.value) in series
  {
    if series == [] then None
    else if series[0].0 == id then Some(series[0].1)
    else
      var r := WeightOf(series[1..], id);
      assert forall j :: 1 <= j < |series| ==> series[j] == series[1..][j - 1];
      r
  }

  /**
   * The matched units with their `tim_weights` entries (all NaN while there
   * is no series).  When the matched frame is empty and there is a series,
   * the assignment gives the empty frame the series' index: one row per
   * series entry, with its weight.
   */
  function WithWeights(matched: seq<nat>, weights: Option<seq<(nat, real)>>): (r: seq<(nat, Option<real>)>)
    ensures matched == [] && weights.Some? ==>
      |r| == |weights.value| && forall k :: 0 <= k < |r| ==> r[k].0 == weights.value[k].0 && r[k].1 == Some(weights.value[k].1)
    ensures matched != [] || weights.None? ==> |r| == |matched| && forall k :: 0 <= k < |r| ==>
      && r[k].0 == matched[k]
      && r[k].1 == if weights.None? then None else WeightOf(weights.value, matched[k])
    ensures forall k :: 0 <= k < |r| && r[k].1.Some? ==> weights.Some? && (r[k].0, r[k].1.value) in weights.value
  {
    if matched == [] && weights.Some? then
      seq(|weights.value|, k requires 0 <= k < |weights.value| => (weights.value[k].0, Some(weights.value[k].1)))
    else
      seq(|matched|, k requires 0 <= k < |matched| => (matched[k], if weights.None? then None else WeightOf(weights.value, matched[k])))
  }

  /** No unit appears twice in a series. */
  predicate UniqueIds(series: seq<(nat, real)>)
  {
    forall i, j :: 0 <= i < j < |series| ==> series[i].0 != series[j].0
  }

  /** In a series without repeated units, the aligned lookup of an entry's unit gives that entry's weight. */
  lemma {:induction false} WeightOfAt(series: seq<(nat, real)>, k: nat)
    requires k < |series| && UniqueIds(series)
    ensures WeightOf(series, series[k].0) == Some(series[k].1)
  {
    if k > 0 {
      assert series[0].0 != series[k].0;
      assert forall j :: 1 <= j < |series| ==> series[1..][j - 1] == series[j];
      WeightOfAt(series[1..], k - 1);
    }
  }

  /**
   * Whichever index the result has, each row carries the weight the series
   * gives its unit: the index adoption on an empty frame agrees with the
   * alignment on a non-empty one.
   */
  lemma WithWeightsAligned(matched: seq<nat>, series: seq<(nat, real)>)
    requires UniqueIds(series)
    ensures var r := WithWeights(matched, Some(series));
      forall k :: 0 <= k < |r| ==> r[k].1 == WeightOf(series, r[k].0)
  {
    var r := WithWeights(matched, Some(series));
    if matched == [] {
      forall k | 0 <= k < |r|
        ensures r[k].1 == WeightOf(series, r[k].0)
      {
        WeightOfAt(series, k);
      }
    }
  }

  /** A frame with both arms lists every member in its series. */
  lemma FrameSeriesHas(rows: seq<Unit>, f: Frame, mt: nat, mc: nat, k: nat)
    requires WellFormed(rows, f) && |Arm(rows, f.members, 1)| <= mt && k < |f.members|
    requires Arm(rows, f.members, 1) != [] && Arm(rows, f.members, 0) != []
    ensures Lists(Weights.FrameSeries(rows, f, mt, mc), f.members[k])
  {
    var e := Weights.Entries(rows, f, mt, mc);
    var t := rows[f.members[k]].treatment;
    SelectHas(rows, f.members, e, t, k);
    var s := Weights.FrameSeries(rows, f, mt, mc);
    assert s == Select(rows, f.members, e, 1) + Select(rows, f.members, e, 0);
    assert e[k] in s;
    var j :| 0 <= j < |s| && s[j] == e[k];
  }

  /** Every frame has a treated and a control member. */
  predicate TwoArmed(rows: seq<Unit>, frames: seq<Frame>)
    requires FramesOk(rows, frames)
  {
    forall g :: 0 <= g < |frames| ==> Arm(rows, frames[g].members, 1) != [] && Arm(rows, frames[g].members, 0) != []
  }

  /** When every frame has both arms, the series of the first p frames lists every member of those frames. */
  lemma {:induction false} SeriesHas(rows: seq<Unit>, frames: seq<Frame>, mt: nat, mc: nat, p: nat, f: nat, k: nat)
    requires Weights.Bounded(rows, frames, mt) && TwoArmed(rows, frames)
    requires f < p <= |frames| && k < |frames[f].members|
    ensures Weights.Bounded(rows, frames[..p], mt)
    ensures Lists(Weights.Series(rows, frames[..p], mt, mc), frames[f].members[k])
  {
    var id := frames[f].members[k];
    Weights.SeriesStep(rows, frames, p - 1, mt, mc);
    var before := Weights.Series(rows, frames[..p - 1], mt, mc);
    var last := Weights.FrameSeries(rows, frames[p - 1], mt, mc);
    if f < p - 1 {
      SeriesHas(rows, frames, mt, mc, p - 1, f, k);
    } else {
      FrameSeriesHas(rows, frames[p - 1], mt, mc, k);
    }
    ListsAppend(before, last, id);
  }

  /** Every matched unit belongs to some stratum. */
  lemma {:induction false} FlattenMember(strata: seq<Matching.Stratum>, x: nat)
    requires x in Matching.Flatten(strata)
    ensures exists f, k :: 0 <= f < |strata| && 0 <= k < |strata[f].members| && strata[f].members[k] == x
  {
    var n := |strata| - 1;
    var before := Matching.Flatten(strata[..n]);
    assert Matching.Flatten(strata) == before + strata[n].members;
    if x in before {
      FlattenMember(strata[..n], x);
      var f, k :| 0 <= f < n && 0 <= k < |strata[..n][f].members| && strata[..n][f].members[k] == x;
      assert strata[f] == strata[..n][f];
    } else {
      var k :| 0 <= k < |strata[n].members| && strata[n].members[k] == x;
    }
  }

  /** The series of frames holding the strata's members lists every matched unit. */
  lemma SeriesCovers(rows: seq<Unit>, strata: seq<Matching.Stratum>, frames: seq<Frame>, mt: nat, mc: nat)
    requires Weights.Bounded(rows, frames, mt) && TwoArmed(rows, frames) && |frames| == |strata|
    requires forall f :: 0 <= f < |strata| ==> frames[f].members == strata[f].members
    ensures forall x :: x in Matching.Flatten(strata) ==> Lists(Weights.Series(rows, frames, mt, mc), x)
  {
    assert frames[..|frames|] == frames;
    forall x | x in Matching.Flatten(strata) ensures Lists(Weights.Series(rows, frames, mt, mc), x) {
      FlattenMember(strata, x);
      var f, m :| 0 <= f < |strata| && 0 <= m < |strata[f].members| && strata[f].members[m] == x;
      SeriesHas(rows, frames, mt, mc, |frames|, f, m);
    }
  }

  /** After a fit that found strata, every matched unit has a weight. */
  lemma FitWeighted(c: Config, rows: seq<Unit>, layout: seq<Importance.Column>, a: seq<real>, b: seq<real>, r: Fitted)
    requires Prepared(c, rows, layout, a, b) && |TreatmentLevels(rows)| == 2
    requires r == Fitting(c, rows, layout, a, b)
    ensures r.series.Some? ==> forall x :: x in r.matched ==> WeightOf(r.series.value, x).Some?
  {
    var (remaining, strata, scored) := Matched(c, rows, layout, a, b);
    if !r.raised {
      assert r.matched == Matching.Flatten(strata) && r.series == WeightStage(rows, scored).1;
      WeightStageCovers(rows, strata, scored);
    }
  }

  /** The weight series of two-armed frames holding the strata gives every matched unit a weight. */
  lemma WeightStageCovers(rows: seq<Unit>, strata: seq<Matching.Stratum>, scored: seq<Frame>)
    requires FramesOk(rows, scored) && TwoArmed(rows, scored) && |scored| == |strata|
    requires forall f :: 0 <= f < |strata| ==> scored[f].members == strata[f].members
    ensures var series := WeightStage(rows, scored).1;
      series.Some? ==> forall x :: x in Matching.Flatten(strata) ==> WeightOf(series.value, x).Some?
  {
    var mt := Weights.ArmTotal(rows, scored, 1);
    var mc := Weights.ArmTotal(rows, scored, 0);
    Weights.TotalBounds(rows, scored);
    SeriesCovers(rows, strata, scored, mt, mc);
  }

  // ---------------------------------------------------------------------------
  // The stages of `fit` as methods

  /**
   * `unified_distance` on the strata frames, run only when there are discrete
   * covariates; `ok` is false when it raises.
   */
  method DistanceStage(c: Config, rows: seq<Unit>, strata: seq<Matching.Stratum>, frames: array<Frame>) returns (ok: bool)
    requires Shaped(rows, |c.continuous|, |c.discrete|)
    requires frames[..] == InitialFrames(strata) && Distances.AllComputable(ContextOf(c, rows), InitialFrames(strata))
    modifies frames
    ensures ok <==> !DistanceRaises(c, rows, strata)
    ensures frames[..] == if |c.discrete| > 0 then AllScored(ContextOf(c, rows), InitialFrames(strata)) else InitialFrames(strata)
  {
    ok := true;
    if |c.discrete| > 0 {
      var ctx := PairContext(c, rows);
      ghost var fs := frames[..];
      ok := Distances.UnifiedDistance(ctx, frames);
      AllScoredIs(ctx, fs, frames[..]);
    }
  }

  /** The context of `unified_distance`, its pair table built by `algo_distance_crosstab`. */
  method PairContext(c: Config, rows: seq<Unit>) returns (ctx: Distances.Context)
    requires Shaped(rows, |c.continuous|, |c.discrete|)
    ensures ctx == ContextOf(c, rows)
  {
    var plain := Distances.Context(rows, |c.continuous|, |c.discrete|, []);
    Distances.DiscreteColumnsOk(plain);
    var table := Crosstab.AlgoDistanceCrosstab(rows, Distances.DiscreteColumns(plain));
    ctx := plain.(table := table);
  }

  /** The importance ranking, exact matching and the distance columns, as `Matched` says. */
  method MatchStage(c: Config, rows: seq<Unit>, layout: seq<Importance.Column>, a: seq<real>, b: seq<real>,
                    importance: seq<(nat, real)>)
    returns (remaining: set<nat>, strata: seq<Matching.Stratum>, matched: seq<nat>, scored: seq<Frame>, raised: bool)
    requires Prepared(c, rows, layout, a, b) && |TreatmentLevels(rows)| == 2
    requires importance == Importance.ConfounderImportance(layout, a, b)
    ensures (remaining, strata, scored) == Matched(c, rows, layout, a, b)
    ensures matched == Matching.Flatten(strata)
    ensures raised == DistanceRaises(c, rows, strata)
  {
    OrderOk(c, rows, layout, a, b);
    var unmatchedTreated;
    strata, unmatchedTreated, remaining, matched := Matching.ExactMatching(rows, importance);
    StrataReady(c, rows, Order(layout, a, b), strata);
    var ok;
    scored, ok := ScoreStage(c, rows, strata);
    raised := !ok;
  }

  /** A fresh array holding the strata as frames without distance columns. */
  method NewFrames(strata: seq<Matching.Stratum>) returns (frames: array<Frame>)
    ensures fresh(frames) && frames[..] == InitialFrames(strata)
  {
    frames := new Frame[|strata|](k requires 0 <= k < |strata| => Frame(strata[k].covariates, strata[k].members, None, None));
    assert frames[..] == InitialFrames(strata);
  }

  /**
   * The strata as frames, with the distance columns when there are discrete
   * covariates; `ok` is false when `unified_distance` raises.
   */
  method ScoreStage(c: Config, rows: seq<Unit>, strata: seq<Matching.Stratum>) returns (scored: seq<Frame>, ok: bool)
    requires Shaped(rows, |c.continuous|, |c.discrete|) && Distances.AllComputable(ContextOf(c, rows), InitialFrames(strata))
    ensures ok <==> !DistanceRaises(c, rows, strata)
    ensures scored == if |c.discrete| > 0 then AllScored(ContextOf(c, rows), InitialFrames(strata)) else InitialFrames(strata)
  {
    var frames := NewFrames(strata);
    ok := DistanceStage(c, rows, strata, frames);
    scored := frames[..];
  }

  /**
   * The weights and the effects: the frames get their `weights` column and
   * the weight series as `WeightStage` says; when there is a series, both
   * effects are estimated over the weighted frames.
   */
  method EstimateStage(rows: seq<Unit>, scored: seq<Frame>)
    returns (weighted: seq<Frame>, series: Option<seq<(nat, real)>>, ate: Option<Effects.Float>, att: Option<Effects.Float>)
    requires FramesOk(rows, scored)
    ensures (weighted, series) == WeightStage(rows, scored)
    ensures series.Some? ==> ate == Effects.Mean(Effects.AteList(rows, weighted)) && att == Effects.Mean(Effects.AttList(rows, weighted))
  {
    var frames := new Frame[|scored|](k requires 0 <= k < |scored| => scored[k]);
    assert frames[..] == scored;
    series := Weights.CalculateWeights(rows, frames);
    weighted := frames[..];
    assert (weighted, series) == WeightStage(rows, scored);
    ate, att := None, None;
    if series.Some? {
      ate, att := Effects.CalculateAteAtt(rows, weighted);
    }
  }

  /**
   * Every stage of `fit` after validation, with the results `Fitting`
   * specifies.  Nothing runs after `unified_distance` raises; the effects and
   * the retention are computed only when the weight calculation succeeded.
   */
  method Pipeline(c: Config, rows: seq<Unit>, layout: seq<Importance.Column>, a: seq<real>, b: seq<real>)
    returns (r: Fitted)
    requires Prepared(c, rows, layout, a, b) && |TreatmentLevels(rows)| == 2
    ensures var f := Fitting(c, rows, layout, a, b);
      && r.importance == f.importance && r.remaining == f.remaining && r.strata == f.strata
      && r.matched == f.matched && r.frames == f.frames && r.series == f.series && r.raised == f.raised
      && (r.raised || r.series.Some? ==> r == f)
  {
    var importance := Importance.ConfounderImportance(layout, a, b);
    var remaining, strata, matched, scored, raised := MatchStage(c, rows, layout, a, b, importance);
    RetentionShare(rows, remaining, matched);
    if raised {
      return Fitted(importance, remaining, strata, matched, scored, None, None, None, Retention(rows, matched), true);
    }
    var frames, series, ate, att := EstimateStage(rows, scored);
    r := Fitted(importance, remaining, strata, matched, frames, series, ate, att, Retention(rows, matched), false);
  }

  // ---------------------------------------------------------------------------
  // The matcher object

  /**
   * `TIMatcher`: the configuration, and the attributes `fit` sets (None
   * until then).  `matchedStrata` holds the strata as the run leaves them,
   * with the columns the later stages add.
   */
  class TIMatcher {
    const config: Config
    var data: Option<seq<Unit>>
    var confounderImportance: Option<seq<(nat, real)>>
    var matchedStrata: Option<seq<Frame>>
    var matchedData: Option<seq<nat>>
    var weights: Option<seq<(nat, real)>>
    var ate: Option<Effects.Float>
    var att: Option<Effects.Float>
    var treatmentRetention: Option<real>

    constructor (config: Config)
      ensures this.config == config
      ensures data == None && confounderImportance == None && matchedStrata == None && matchedData == None
      ensures weights == None && ate == None && att == None && treatmentRetention == None
    {
      this.config := config;
      data, confounderImportance, matchedStrata, matchedData := None, None, None, None;
      weights, ate, att, treatmentRetention := None, None, None, None;
    }

    /**
     * `fit`.  A validation error leaves the object as it was; otherwise the
     * stages run (`Pipeline`) and the attributes take their results as `Ran`
     * says, with `Fitting` as the specification of the stages.
     */
    method Fit(columns: set<string>, rows: seq<Unit>, layout: seq<Importance.Column>, a: seq<real>, b: seq<real>)
      returns (error: Option<FitError>)
      requires Prepared(config, rows, layout, a, b)
      modifies this
      ensures Validate(config, columns, rows).Some? ==>
        error == Validate(config, columns, rows) && unchanged(this)
      ensures Validate(config, columns, rows) == None ==>
        |TreatmentLevels(rows)| == 2 && Ran(Fitting(config, rows, layout, a, b), rows, error, old(weights), old(ate), old(att), old(treatmentRetention))
    {
      error := Validate(config, columns, rows);
      if error.Some? {
        return;
      }
      LevelsSubset(rows);
      var r := Pipeline(config, rows, layout, a, b);
      error := Store(rows, r);
    }

    /**
     * The attributes as `fit` leaves them on a validated input, given their
     * values before.  When `unified_distance` raises, or without a stratum
     * when the weight calculation fails, the data, the importance, the strata
     * (as far as they were scored) and the matched data are stored, and the
     * rest keeps its old value.  Otherwise every attribute holds the result
     * of its stage.
     */
    ghost predicate Ran(r: Fitted, rows: seq<Unit>, error: Option<FitError>,
                        weights0: Option<seq<(nat, real)>>, ate0: Option<Effects.Float>, att0: Option<Effects.Float>,
                        retention0: Option<real>)
      reads this
    {
      && data == Some(rows) && confounderImportance == Some(r.importance)
      && matchedStrata == Some(r.frames) && matchedData == Some(r.matched)
      && (r.raised ==>
            error == Some(EmptyPairTable) && weights == weights0 && ate == ate0 && att == att0 && treatmentRetention == retention0)
      && (!r.raised && r.series == None ==>
            error == Some(NoStrata) && weights == weights0 && ate == ate0 && att == att0 && treatmentRetention == retention0)
      && (!r.raised && r.series != None ==>
            error == None && weights == r.series && ate == r.ate && att == r.att && treatmentRetention == Some(r.retention))
    }

    /** Stores the results of the stages in the attributes, as `fit` does after validation. */
    method Store(rows: seq<Unit>, r: Fitted) returns (error: Option<FitError>)
      modifies this
      ensures Ran(r, rows, error, old(weights), old(ate), old(att), old(treatmentRetention))
    {
      var failed := r.raised || r.series.None?;
      data, confounderImportance, matchedData, matchedStrata, weights, ate, att, treatmentRetention :=
        Some(rows), Some(r.importance), Some(r.matched), Some(r.frames),
        if failed then weights else r.series, if failed then ate else r.ate,
        if failed then att else r.att, if failed then treatmentRetention else Some(r.retention);
      error := if r.raised then Some(EmptyPairTable) else if failed then Some(NoStrata) else None;
    }

    /** `get_matched_data`: fails before a fit, else the rows `WithWeights` gives the stored units and series. */
    method GetMatchedData() returns (r: Result<seq<(nat, Option<real>)>, FitError>)
      ensures matchedData == None ==> r == Err(NotFitted)
      ensures matchedData != None ==> r == Ok(WithWeights(matchedData.value, weights))
    {
      if matchedData.None? {
        return Err(NotFitted);
      }
      r := Ok(WithWeights(matchedData.value, weights));
    }
  }
}
