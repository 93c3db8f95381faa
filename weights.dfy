/**
 * The weights of tim/weights.py, `calculate_weights_from_best_matches_inverse_append`.
 *
 * With M_t treated and M_c control units matched over all strata, a stratum
 * with n_t treated and n_c control members gives each treated member weight 1
 * and each control weight (M_c / M_t) * (n_t / n_c), both multiplied by the
 * member's inverse distance when the stratum has one.  A stratum lacking one
 * of the arms leaves its controls without a weight (NaN).  The weights are
 * written into each stratum frame and collected, treated before controls and
 * stratum after stratum, into one series of (unit id, weight) entries.
 */
module Weights {
  import opened Wrappers
  import opened Units
  import opened Reals
  import opened Frames

  /** M_treated (t = 1) or M_control (t = 0): the members with treatment t over all frames. */
  function ArmTotal(rows: seq<Unit>, frames: seq<Frame>, t: Treatment): nat
    requires FramesOk(rows, frames)
  {
    if frames == [] then 0
    else
      var n := |frames| - 1;
      ArmTotal(rows, frames[..n], t) + |Arm(rows, frames[n].members, t)|
  }

  /** A frame's arm is part of the total. */
  lemma {:induction false} ArmTotalAtLeast(rows: seq<Unit>, frames: seq<Frame>, f: nat, t: Treatment)
    requires FramesOk(rows, frames) && f < |frames|
    ensures |Arm(rows, frames[f].members, t)| <= ArmTotal(rows, frames, t)
  {
    var n := |frames| - 1;
    if f < n {
      assert frames[..n][f] == frames[f];
      ArmTotalAtLeast(rows, frames[..n], f, t);
    }
  }

  /** The inverse distance of member k, when the frame has the column. */
  function InverseAt(f: Frame, k: nat): Option<real>
    requires k < |f.members| && (f.scores.Some? ==> |f.scores.value| == |f.members|)
  {
    if f.scores.Some? then Some(f.scores.value[k].inverse) else None
  }

  /** `weight_control`: (M_c / M_t) * (n_t / n_c). */
  function ControlFactor(mt: nat, mc: nat, nt: nat, nc: nat): real
    requires mt > 0 && nc > 0
  {
    (mc as real / mt as real) * (nt as real / nc as real)
  }

  /** The `weights` entry of member k (None is NaN). */
  function MemberWeight(rows: seq<Unit>, f: Frame, mt: nat, mc: nat, k: nat): Option<real>
    requires WellFormed(rows, f) && k < |f.members| && |Arm(rows, f.members, 1)| <= mt
  {
    var nt := |Arm(rows, f.members, 1)|;
    var nc := |Arm(rows, f.members, 0)|;
    var inverse := InverseAt(f, k);
    if rows[f.members[k]].treatment == 1 then
      Some(if inverse.Some? then 1.0 * inverse.value else 1.0)
    else if nt > 0 && nc > 0 then
      var w := ControlFactor(mt, mc, nt, nc);
      Some(if inverse.Some? then Product(w, inverse.value) else w)
    else
      None
  }

  /** The `weights` column of a frame. */
  function FrameWeights(rows: seq<Unit>, f: Frame, mt: nat, mc: nat): (w: seq<Option<real>>)
    requires WellFormed(rows, f) && |Arm(rows, f.members, 1)| <= mt
    ensures |w| == |f.members|
  {
    seq(|f.members|, k requires 0 <= k < |f.members| => MemberWeight(rows, f, mt, mc, k))
  }

  /** The frame with its `weights` column written. */
  function Weighted(rows: seq<Unit>, f: Frame, mt: nat, mc: nat): Frame
    requires WellFormed(rows, f) && |Arm(rows, f.members, 1)| <= mt
  {
    f.(weights := Some(FrameWeights(rows, f, mt, mc)))
  }

  /** Every frame with its `weights` column written. */
  function AllWeighted(rows: seq<Unit>, frames: seq<Frame>, mt: nat, mc: nat): (r: seq<Frame>)
    requires Bounded(rows, frames, mt)
    ensures |r| == |frames|
  {
    if frames == [] then []
    else
      var n := |frames| - 1;
      AllWeighted(rows, frames[..n], mt, mc) + [Weighted(rows, frames[n], mt, mc)]
  }

  /** (id, weight) for every member, the weight read with NaN as 0. */
  function Entries(rows: seq<Unit>, f: Frame, mt: nat, mc: nat): (e: seq<(nat, real)>)
    requires WellFormed(rows, f) && |Arm(rows, f.members, 1)| <= mt
    ensures |e| == |f.members|
  {
    var w := FrameWeights(rows, f, mt, mc);
    seq(|f.members|, k requires 0 <= k < |f.members| => (f.members[k], w[k].GetOr(0.0)))
  }

  /** What a frame adds to the weight series: its treated entries, then its control entries if they were weighted. */
  function FrameSeries(rows: seq<Unit>, f: Frame, mt: nat, mc: nat): seq<(nat, real)>
    requires WellFormed(rows, f) && |Arm(rows, f.members, 1)| <= mt
  {
    var e := Entries(rows, f, mt, mc);
    Select(rows, f.members, e, 1)
      + (if |Arm(rows, f.members, 1)| > 0 && |Arm(rows, f.members, 0)| > 0 then Select(rows, f.members, e, 0) else [])
  }

  /** Every frame is well formed and has at most mt treated members. */
  predicate Bounded(rows: seq<Unit>, frames: seq<Frame>, mt: nat)
  {
    FramesOk(rows, frames) && forall f :: 0 <= f < |frames| ==> |Arm(rows, frames[f].members, 1)| <= mt
  }

  /** The concatenated weight series of the frames, with the global counts mt and mc. */
  function Series(rows: seq<Unit>, frames: seq<Frame>, mt: nat, mc: nat): seq<(nat, real)>
    requires Bounded(rows, frames, mt)
  {
    if frames == [] then []
    else
      var n := |frames| - 1;
      Series(rows, frames[..n], mt, mc) + FrameSeries(rows, frames[n], mt, mc)
  }

  /** The weights of a frame's members with treatment t, NaN read as 0 (pandas' `sum()` skips NaN). */
  function ArmWeights(rows: seq<Unit>, f: Frame, mt: nat, mc: nat, t: Treatment): (ws: seq<real>)
    requires WellFormed(rows, f) && |Arm(rows, f.members, 1)| <= mt
    ensures |ws| == |Arm(rows, f.members, t)|
  {
    Select(rows, f.members, Filled(FrameWeights(rows, f, mt, mc)), t)
  }

  // ---------------------------------------------------------------------------
  // Properties

  /** The inverse distances a frame carries lie in [lo, hi] for the members with treatment t. */
  predicate InversesBetween(rows: seq<Unit>, f: Frame, t: Treatment, lo: real, hi: real)
    requires WellFormed(rows, f)
  {
    forall k :: 0 <= k < |f.members| && rows[f.members[k]].treatment == t && f.scores.Some? ==>
      lo <= f.scores.value[k].inverse <= hi
  }

  /** Controls are weighted exactly when the stratum has both arms; treated members always are. */
  lemma WeightPresence(rows: seq<Unit>, f: Frame, mt: nat, mc: nat, k: nat)
    requires WellFormed(rows, f) && |Arm(rows, f.members, 1)| <= mt && k < |f.members|
    ensures MemberWeight(rows, f, mt, mc, k).Some? <==>
      rows[f.members[k]].treatment == 1 || (|Arm(rows, f.members, 1)| > 0 && |Arm(rows, f.members, 0)| > 0)
  {
  }

  /** Weights are never negative when the inverse distances are not. */
  lemma WeightsNonNegative(rows: seq<Unit>, f: Frame, mt: nat, mc: nat, k: nat)
    requires WellFormed(rows, f) && |Arm(rows, f.members, 1)| <= mt && k < |f.members|
    requires InversesBetween(rows, f, 0, 0.0, 1.0) && InversesBetween(rows, f, 1, 0.0, 1.0)
    ensures MemberWeight(rows, f, mt, mc, k).GetOr(0.0) >= 0.0
  {
    var nt := |Arm(rows, f.members, 1)|;
    var nc := |Arm(rows, f.members, 0)|;
    if rows[f.members[k]].treatment == 0 && nt > 0 && nc > 0 {
      var w := ControlFactor(mt, mc, nt, nc);
      FactorPositive(mt, mc, nt, nc);
      if f.scores.Some? {
        var v := f.scores.value[k].inverse;
        assert 0.0 <= v;
        ProductNonNegative(w, v);
        assert MemberWeight(rows, f, mt, mc, k) == Some(Product(w, v));
      } else {
        assert MemberWeight(rows, f, mt, mc, k) == Some(w);
      }
    } else if rows[f.members[k]].treatment == 1 && f.scores.Some? {
      assert 0.0 <= f.scores.value[k].inverse;
    }
  }

  lemma FactorPositive(mt: nat, mc: nat, nt: nat, nc: nat)
    requires mt > 0 && nc > 0 && nt > 0
    ensures mc > 0 ==> ControlFactor(mt, mc, nt, nc) > 0.0
    ensures ControlFactor(mt, mc, nt, nc) >= 0.0
  {
    assert mc as real / mt as real >= 0.0;
    assert nt as real / nc as real > 0.0;
  }

  /** When every treated member carries the same inverse distance v (or none, v = 1), each treated weight is v. */
  lemma TreatedWeightsAgree(rows: seq<Unit>, f: Frame, mt: nat, mc: nat, v: real)
    requires WellFormed(rows, f) && |Arm(rows, f.members, 1)| <= mt
    requires f.scores.None? ==> v == 1.0
    requires InversesBetween(rows, f, 1, v, v)
    ensures ArmWeights(rows, f, mt, mc, 1) == Select(rows, f.members, Repeat(v, |f.members|), 1)
  {
    var w := Filled(FrameWeights(rows, f, mt, mc));
    forall k | 0 <= k < |f.members| && rows[f.members[k]].treatment == 1
      ensures w[k] == Repeat(v, |f.members|)[k]
    {
      assert MemberWeight(rows, f, mt, mc, k) == Some(v);
    }
    SelectAgree(rows, f.members, w, Repeat(v, |f.members|), 1);
  }

  /** ... and then the n_t treated weights sum to n_t * v. */
  lemma TreatedWeightSum(rows: seq<Unit>, f: Frame, mt: nat, mc: nat, v: real)
    requires WellFormed(rows, f) && |Arm(rows, f.members, 1)| <= mt
    requires f.scores.None? ==> v == 1.0
    requires InversesBetween(rows, f, 1, v, v)
    ensures Sum(ArmWeights(rows, f, mt, mc, 1)) == Times(v, |Arm(rows, f.members, 1)|)
  {
    TreatedWeightsAgree(rows, f, mt, mc, v);
    SelectConstantSum(rows, f.members, v, 1);
  }

  /** Without inverse distances, each control of a stratum with both arms weighs the control factor. */
  lemma ControlWeightsAgree(rows: seq<Unit>, f: Frame, mt: nat, mc: nat)
    requires WellFormed(rows, f) && |Arm(rows, f.members, 1)| <= mt && f.scores.None?
    requires |Arm(rows, f.members, 1)| > 0 && |Arm(rows, f.members, 0)| > 0
    ensures ArmWeights(rows, f, mt, mc, 0)
      == Select(rows, f.members, Repeat(ControlFactor(mt, mc, |Arm(rows, f.members, 1)|, |Arm(rows, f.members, 0)|), |f.members|), 0)
  {
    var x := ControlFactor(mt, mc, |Arm(rows, f.members, 1)|, |Arm(rows, f.members, 0)|);
    var w := Filled(FrameWeights(rows, f, mt, mc));
    forall k | 0 <= k < |f.members| && rows[f.members[k]].treatment == 0
      ensures w[k] == Repeat(x, |f.members|)[k]
    {
      assert MemberWeight(rows, f, mt, mc, k) == Some(x);
    }
    SelectAgree(rows, f.members, w, Repeat(x, |f.members|), 0);
  }

  /** Without inverse distances, a stratum's control weights sum to (M_c / M_t) * n_t. */
  lemma ControlWeightSum(rows: seq<Unit>, f: Frame, mt: nat, mc: nat)
    requires WellFormed(rows, f) && |Arm(rows, f.members, 1)| <= mt && f.scores.None?
    requires |Arm(rows, f.members, 1)| > 0 && |Arm(rows, f.members, 0)| > 0
    ensures Sum(ArmWeights(rows, f, mt, mc, 0)) == Times(mc as real / mt as real, |Arm(rows, f.members, 1)|)
  {
    var nt := |Arm(rows, f.members, 1)|;
    var nc := |Arm(rows, f.members, 0)|;
    ControlWeightsAgree(rows, f, mt, mc);
    SelectConstantSum(rows, f.members, ControlFactor(mt, mc, nt, nc), 0);
    FactorTimesCount(mt, mc, nt, nc);
  }

  /** n_c controls weighing (M_c / M_t) * (n_t / n_c) weigh (M_c / M_t) * n_t together. */
  lemma FactorTimesCount(mt: nat, mc: nat, nt: nat, nc: nat)
    requires mt > 0 && nc > 0
    ensures Times(ControlFactor(mt, mc, nt, nc), nc) == Times(mc as real / mt as real, nt)
  {
    var r := mc as real / mt as real;
    TimesIsProduct(ControlFactor(mt, mc, nt, nc), nc);
    TimesIsProduct(r, nt);
    assert nc as real * (nt as real / nc as real) == nt as real;
    assert (r * (nt as real / nc as real)) * nc as real == r * (nc as real * (nt as real / nc as real));
  }

  /**
   * With inverse distances in [0, 1], a stratum's control weights sum to at
   * most (M_c / M_t) * n_t; when some control has inverse distance 1 they sum
   * to at least the control factor.
   */
  lemma ControlWeightBounds(rows: seq<Unit>, f: Frame, mt: nat, mc: nat)
    requires WellFormed(rows, f) && |Arm(rows, f.members, 1)| <= mt
    requires |Arm(rows, f.members, 1)| > 0 && |Arm(rows, f.members, 0)| > 0
    requires InversesBetween(rows, f, 0, 0.0, 1.0)
    ensures 0.0 <= Sum(ArmWeights(rows, f, mt, mc, 0)) <= Times(mc as real / mt as real, |Arm(rows, f.members, 1)|)
    ensures (exists k :: 0 <= k < |f.members| && rows[f.members[k]].treatment == 0 && InverseAt(f, k).GetOr(1.0) == 1.0)
      ==> Sum(ArmWeights(rows, f, mt, mc, 0)) >= ControlFactor(mt, mc, |Arm(rows, f.members, 1)|, |Arm(rows, f.members, 0)|)
  {
    var nt := |Arm(rows, f.members, 1)|;
    var nc := |Arm(rows, f.members, 0)|;
    var x := ControlFactor(mt, mc, nt, nc);
    var w := Filled(FrameWeights(rows, f, mt, mc));
    ControlWeightsBetween(rows, f, mt, mc);
    SelectSumBetween(rows, f.members, w, 0, 0.0, x);
    TimesZero(nc);
    FactorTimesCount(mt, mc, nt, nc);
    if k :| 0 <= k < |f.members| && rows[f.members[k]].treatment == 0 && InverseAt(f, k).GetOr(1.0) == 1.0 {
      ControlWeightBelow(rows, f, mt, mc, k);
      SelectHas(rows, f.members, w, 0, k);
      SelectBetween(rows, f.members, w, 0, 0.0, x);
      SumAtLeast(ArmWeights(rows, f, mt, mc, 0), x);
    }
  }

  /** Each control weight lies between 0 and the control factor. */
  lemma ControlWeightsBetween(rows: seq<Unit>, f: Frame, mt: nat, mc: nat)
    requires WellFormed(rows, f) && |Arm(rows, f.members, 1)| <= mt
    requires |Arm(rows, f.members, 1)| > 0 && |Arm(rows, f.members, 0)| > 0
    requires InversesBetween(rows, f, 0, 0.0, 1.0)
    ensures forall k :: 0 <= k < |f.members| && rows[f.members[k]].treatment == 0 ==>
      0.0 <= Filled(FrameWeights(rows, f, mt, mc))[k] <= ControlFactor(mt, mc, |Arm(rows, f.members, 1)|, |Arm(rows, f.members, 0)|)
  {
    var nt := |Arm(rows, f.members, 1)|;
    var nc := |Arm(rows, f.members, 0)|;
    var x := ControlFactor(mt, mc, nt, nc);
    var w := Filled(FrameWeights(rows, f, mt, mc));
    forall k | 0 <= k < |f.members| && rows[f.members[k]].treatment == 0
      ensures 0.0 <= w[k] <= x
    {
      ControlWeightBelow(rows, f, mt, mc, k);
    }
  }

  /** One control's weight lies between 0 and the control factor. */
  lemma ControlWeightBelow(rows: seq<Unit>, f: Frame, mt: nat, mc: nat, k: nat)
    requires WellFormed(rows, f) && |Arm(rows, f.members, 1)| <= mt && k < |f.members|
    requires |Arm(rows, f.members, 1)| > 0 && |Arm(rows, f.members, 0)| > 0 && rows[f.members[k]].treatment == 0
    requires f.scores.Some? ==> 0.0 <= f.scores.value[k].inverse <= 1.0
    ensures 0.0 <= MemberWeight(rows, f, mt, mc, k).GetOr(0.0) <= ControlFactor(mt, mc, |Arm(rows, f.members, 1)|, |Arm(rows, f.members, 0)|)
    ensures InverseAt(f, k).GetOr(1.0) == 1.0 ==>
      MemberWeight(rows, f, mt, mc, k).GetOr(0.0) == ControlFactor(mt, mc, |Arm(rows, f.members, 1)|, |Arm(rows, f.members, 0)|)
  {
    var x := ControlFactor(mt, mc, |Arm(rows, f.members, 1)|, |Arm(rows, f.members, 0)|);
    FactorPositive(mt, mc, |Arm(rows, f.members, 1)|, |Arm(rows, f.members, 0)|);
    if f.scores.Some? {
      var v := f.scores.value[k].inverse;
      assert MemberWeight(rows, f, mt, mc, k) == Some(Product(x, v));
      ScaledBelow(x, v);
    } else {
      assert MemberWeight(rows, f, mt, mc, k) == Some(x);
    }
  }

  /** 0 <= x * v <= x for x >= 0 and v in [0, 1], with equality at v = 1. */
  lemma ScaledBelow(x: real, v: real)
    requires x >= 0.0 && 0.0 <= v <= 1.0
    ensures 0.0 <= Product(x, v) <= x && (v == 1.0 ==> Product(x, v) == x)
  {
  }

  /** The control weights of all frames summed. */
  function ControlWeightTotal(rows: seq<Unit>, frames: seq<Frame>, mt: nat, mc: nat): real
    requires FramesOk(rows, frames) && forall f :: 0 <= f < |frames| ==> |Arm(rows, frames[f].members, 1)| <= mt
  {
    if frames == [] then 0.0
    else
      var n := |frames| - 1;
      ControlWeightTotal(rows, frames[..n], mt, mc) + Sum(ArmWeights(rows, frames[n], mt, mc, 0))
  }

  /** Every frame has both arms and no inverse distance. */
  predicate Plain(rows: seq<Unit>, frames: seq<Frame>)
    requires FramesOk(rows, frames)
  {
    forall f :: 0 <= f < |frames| ==>
      frames[f].scores.None? && |Arm(rows, frames[f].members, 1)| > 0 && |Arm(rows, frames[f].members, 0)| > 0
  }

  /** A frame's control weights sum to r times its number of treated members. */
  predicate ControlsScaled(rows: seq<Unit>, f: Frame, mt: nat, mc: nat, r: real)
    requires WellFormed(rows, f) && |Arm(rows, f.members, 1)| <= mt
  {
    Sum(ArmWeights(rows, f, mt, mc, 0)) == Times(r, |Arm(rows, f.members, 1)|)
  }

  /** When every frame's control weights sum to r times its treated count, all of them sum to r times M_t. */
  lemma {:induction false} ControlWeightTotalScaled(rows: seq<Unit>, frames: seq<Frame>, mt: nat, mc: nat, r: real)
    requires FramesOk(rows, frames) && forall f :: 0 <= f < |frames| ==> |Arm(rows, frames[f].members, 1)| <= mt
    requires forall f :: 0 <= f < |frames| ==> ControlsScaled(rows, frames[f], mt, mc, r)
    ensures ControlWeightTotal(rows, frames, mt, mc) == Times(r, ArmTotal(rows, frames, 1))
  {
    if frames != [] {
      var n := |frames| - 1;
      ScaledPrefix(rows, frames, mt, mc, r);
      var a := ArmTotal(rows, frames[..n], 1);
      var b := |Arm(rows, frames[n].members, 1)|;
      ControlWeightTotalScaled(rows, frames[..n], mt, mc, r);
      TimesAdd(r, a, b, ArmTotal(rows, frames, 1));
      assert ControlsScaled(rows, frames[n], mt, mc, r);
      assert ControlWeightTotal(rows, frames, mt, mc) == Times(r, a) + Sum(ArmWeights(rows, frames[n], mt, mc, 0));
    }
  }

  lemma ScaledPrefix(rows: seq<Unit>, frames: seq<Frame>, mt: nat, mc: nat, r: real)
    requires FramesOk(rows, frames) && forall f :: 0 <= f < |frames| ==> |Arm(rows, frames[f].members, 1)| <= mt
    requires forall f :: 0 <= f < |frames| ==> ControlsScaled(rows, frames[f], mt, mc, r)
    requires frames != []
    ensures var p := frames[..|frames| - 1];
      && FramesOk(rows, p) && (forall f :: 0 <= f < |p| ==> |Arm(rows, p[f].members, 1)| <= mt)
      && forall f :: 0 <= f < |p| ==> ControlsScaled(rows, p[f], mt, mc, r)
  {
    var n := |frames| - 1;
    assert forall f :: 0 <= f < n ==> frames[..n][f] == frames[f];
  }

  /**
   * Without inverse distances and with both arms in every stratum, the
   * control weights of all strata sum to the number of matched controls.
   */
  lemma ControlWeightsTotalMatched(rows: seq<Unit>, frames: seq<Frame>)
    requires FramesOk(rows, frames) && Plain(rows, frames) && frames != []
    ensures forall f :: 0 <= f < |frames| ==> |Arm(rows, frames[f].members, 1)| <= ArmTotal(rows, frames, 1)
    ensures ControlWeightTotal(rows, frames, ArmTotal(rows, frames, 1), ArmTotal(rows, frames, 0)) == ArmTotal(rows, frames, 0) as real
  {
    var mt := ArmTotal(rows, frames, 1);
    var mc := ArmTotal(rows, frames, 0);
    forall f | 0 <= f < |frames| ensures |Arm(rows, frames[f].members, 1)| <= mt {
      ArmTotalAtLeast(rows, frames, f, 1);
    }
    ArmTotalAtLeast(rows, frames, 0, 1);
    forall f | 0 <= f < |frames|
      ensures ControlsScaled(rows, frames[f], mt, mc, mc as real / mt as real)
    {
      ControlWeightSum(rows, frames[f], mt, mc);
    }
    ControlWeightTotalScaled(rows, frames, mt, mc, mc as real / mt as real);
    RatioTimes(mt, mc);
  }

  /** M_t copies of M_c / M_t add up to M_c. */
  lemma RatioTimes(mt: nat, mc: nat)
    requires mt > 0
    ensures Times(mc as real / mt as real, mt) == mc as real
  {
    TimesIsProduct(mc as real / mt as real, mt);
  }

  /** No frame has more treated members than all frames together. */
  lemma TotalBounds(rows: seq<Unit>, frames: seq<Frame>)
    requires FramesOk(rows, frames)
    ensures Bounded(rows, frames, ArmTotal(rows, frames, 1))
  {
    forall f | 0 <= f < |frames| ensures |Arm(rows, frames[f].members, 1)| <= ArmTotal(rows, frames, 1) {
      ArmTotalAtLeast(rows, frames, f, 1);
    }
  }

  /** Extending the prefix by one frame appends that frame's entries to the series. */
  lemma SeriesStep(rows: seq<Unit>, frames: seq<Frame>, f: nat, mt: nat, mc: nat)
    requires Bounded(rows, frames, mt) && f < |frames|
    ensures Bounded(rows, frames[..f], mt) && Bounded(rows, frames[..f + 1], mt)
    ensures WellFormed(rows, frames[f]) && |Arm(rows, frames[f].members, 1)| <= mt
    ensures Series(rows, frames[..f + 1], mt, mc) == Series(rows, frames[..f], mt, mc) + FrameSeries(rows, frames[f], mt, mc)
    ensures AllWeighted(rows, frames[..f + 1], mt, mc) == AllWeighted(rows, frames[..f], mt, mc) + [Weighted(rows, frames[f], mt, mc)]
  {
    assert frames[..f + 1][..f] == frames[..f];
  }

  /** Writing entry f of a sequence whose first f entries are done moves the boundary by one. */
  lemma WriteStep(current: seq<Frame>, done: seq<Frame>, before: seq<Frame>, f: nat, w: Frame)
    requires f < |before| && |done| == f && current == done + before[f..]
    ensures current[f] == before[f]
    ensures current[f := w] == (done + [w]) + before[f + 1..]
  {
    assert before[f..] == [before[f]] + before[f + 1..];
  }

  /** One pass of the weight loop: frame f is weighted and the three loop invariants move on by one frame. */
  lemma LoopStep(rows: seq<Unit>, before: seq<Frame>, f: nat, mt: nat, mc: nat, current: seq<Frame>)
    requires Bounded(rows, before, mt) && f < |before| && Bounded(rows, before[..f], mt)
    requires current == AllWeighted(rows, before[..f], mt, mc) + before[f..]
    ensures current[f] == before[f] && WellFormed(rows, before[f]) && |Arm(rows, before[f].members, 1)| <= mt
    ensures Bounded(rows, before[..f + 1], mt)
    ensures current[f := Weighted(rows, before[f], mt, mc)] == AllWeighted(rows, before[..f + 1], mt, mc) + before[f + 1..]
    ensures Series(rows, before[..f + 1], mt, mc) == Series(rows, before[..f], mt, mc) + FrameSeries(rows, before[f], mt, mc)
  {
    SeriesStep(rows, before, f, mt, mc);
    WriteStep(current, AllWeighted(rows, before[..f], mt, mc), before, f, Weighted(rows, before[f], mt, mc));
  }

  // ---------------------------------------------------------------------------
  // The computation

  /**
   * `calculate_weights_from_best_matches_inverse_append`: writes the weights
   * column of every frame and returns the concatenated series; with no frame
   * the concatenation fails (None).
   */
  method CalculateWeights(rows: seq<Unit>, frames: array<Frame>) returns (series: Option<seq<(nat, real)>>)
    requires FramesOk(rows, frames[..])
    modifies frames
    ensures Bounded(rows, old(frames[..]), ArmTotal(rows, old(frames[..]), 1))
    ensures frames[..] == AllWeighted(rows, old(frames[..]), ArmTotal(rows, old(frames[..]), 1), ArmTotal(rows, old(frames[..]), 0))
    ensures series == if frames.Length == 0 then None
      else Some(Series(rows, old(frames[..]), ArmTotal(rows, old(frames[..]), 1), ArmTotal(rows, old(frames[..]), 0)))
  {
    ghost var before := frames[..];
    var mt := ArmTotal(rows, frames[..], 1);
    var mc := ArmTotal(rows, frames[..], 0);
    TotalBounds(rows, before);
    var parts: seq<(nat, real)> := [];
    for f := 0 to frames.Length
      invariant Bounded(rows, before[..f], mt)
      invariant frames[..] == AllWeighted(rows, before[..f], mt, mc) + before[f..]
      invariant parts == Series(rows, before[..f], mt, mc)
    {
      ghost var current := frames[..];
      LoopStep(rows, before, f, mt, mc, current);
      var frame := frames[f];
      var weighted := Weighted(rows, frame, mt, mc);
      parts := parts + FrameSeries(rows, frame, mt, mc);
      frames[f] := weighted;
      assert frames[..] == current[f := weighted];
    }
    assert before[..frames.Length] == before;
    series := if frames.Length == 0 then None else Some(parts);
  }
}
