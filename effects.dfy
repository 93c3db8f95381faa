/**
 * The treatment effects of tim/effects.py, `calculate_ate_att`.
 *
 * A stratum takes part when it carries the weights column.  Its ATE is the
 * treated mean outcome minus the control mean outcome, the control mean
 * weighted by the inverse distance when the stratum has that column; it is
 * counted once per treated member.  Its ATT is the weight-weighted treated
 * mean minus the weight-weighted control mean, counted once.  The results are
 * the plain means of the two lists, or None when a list is empty.
 *
 * Divisions are numpy divisions: a zero denominator gives NaN or an infinity
 * instead of an error, and such a value spreads to every result computed
 * from it.  `Float` keeps exactly that distinction.
 */
module Effects {
  import opened Wrappers
  import opened Units
  import opened Reals
  import opened Frames

  /** A float64 result: a finite value, or one of NaN, +inf, -inf. */
  datatype Float = Finite(v: real) | NonFinite

  /** numpy's a / b on finite operands: NaN (0 / 0) or an infinity when b is 0. */
  function Ratio(a: real, b: real): (r: Float)
    ensures r.Finite? <==> b != 0.0
  {
    if b == 0.0 then NonFinite else Finite(a / b)
  }

  /** Subtraction: a non-finite operand gives a non-finite result. */
  function Minus(a: Float, b: Float): (r: Float)
    ensures r.Finite? <==> a.Finite? && b.Finite?
  {
    if a.Finite? && b.Finite? then Finite(a.v - b.v) else NonFinite
  }

  /** Addition: a non-finite operand gives a non-finite result. */
  function Plus(a: Float, b: Float): (r: Float)
    ensures r.Finite? <==> a.Finite? && b.Finite?
  {
    if a.Finite? && b.Finite? then Finite(a.v + b.v) else NonFinite
  }

  // ---------------------------------------------------------------------------
  // Columns of a stratum

  /** The outcome column of a list of members. */
  function Outcomes(rows: seq<Unit>, ids: seq<nat>): (o: seq<real>)
    requires InRange(rows, ids)
    ensures |o| == |ids| && forall k :: 0 <= k < |ids| ==> o[k] == rows[ids[k]].outcome
  {
    seq(|ids|, k requires 0 <= k < |ids| => rows[ids[k]].outcome)
  }

  /** The `inverse_distance` column. */
  function Inverses(s: seq<Scores>): (v: seq<real>)
    ensures |v| == |s| && forall k :: 0 <= k < |s| ==> v[k] == s[k].inverse
  {
    seq(|s|, k requires 0 <= k < |s| => s[k].inverse)
  }

  /** The elementwise product of two columns. */
  function Products(a: seq<real>, b: seq<real>): (p: seq<real>)
    requires |a| == |b|
    ensures |p| == |a| && forall k :: 0 <= k < |a| ==> p[k] == Product(a[k], b[k])
  {
    seq(|a|, k requires 0 <= k < |a| => Product(a[k], b[k]))
  }

  /** The stratum has the treatment, outcome and weights columns (the first two always exist). */
  predicate Qualifies(f: Frame)
  {
    f.weights.Some?
  }

  /** `treated_effect`: the treated outcomes summed and divided by n_treat. */
  function TreatedEffect(rows: seq<Unit>, f: Frame): Float
    requires WellFormed(rows, f)
  {
    Ratio(Sum(Select(rows, f.members, Outcomes(rows, f.members), 1)), |Arm(rows, f.members, 1)| as real)
  }

  /**
   * `control_effect`: the inverse-distance-weighted mean control outcome when
   * the stratum has that column, the plain mean otherwise.
   */
  function ControlEffect(rows: seq<Unit>, f: Frame): Float
    requires WellFormed(rows, f)
  {
    var o := Outcomes(rows, f.members);
    if f.scores.Some? then
      var v := Inverses(f.scores.value);
      Ratio(Sum(Select(rows, f.members, Products(o, v), 0)), Sum(Select(rows, f.members, v, 0)))
    else
      Ratio(Sum(Select(rows, f.members, o, 0)), |Arm(rows, f.members, 0)| as real)
  }

  /** The stratum's `ate`. */
  function StratumAte(rows: seq<Unit>, f: Frame): Float
    requires WellFormed(rows, f)
  {
    Minus(TreatedEffect(rows, f), ControlEffect(rows, f))
  }

  /** The weight-weighted mean outcome of the members with treatment t (NaN weights are skipped by `sum()`). */
  function WeightedMean(rows: seq<Unit>, f: Frame, t: Treatment): Float
    requires WellFormed(rows, f) && Qualifies(f)
  {
    var w := Filled(f.weights.value);
    Ratio(Sum(Select(rows, f.members, Products(Outcomes(rows, f.members), w), t)), Sum(Select(rows, f.members, w, t)))
  }

  /** The stratum's `att`. */
  function StratumAtt(rows: seq<Unit>, f: Frame): Float
    requires WellFormed(rows, f) && Qualifies(f)
  {
    Minus(WeightedMean(rows, f, 1), WeightedMean(rows, f, 0))
  }

  // ---------------------------------------------------------------------------
  // The two lists and their means

  /** n copies of x. */
  function Copies(x: Float, n: nat): (r: seq<Float>)
    ensures |r| == n && forall k :: 0 <= k < n ==> r[k] == x
  {
    seq(n, _ => x)
  }

  /** `ate_list` after the given strata: each qualifying stratum's ATE once per treated member. */
  function AteList(rows: seq<Unit>, frames: seq<Frame>): seq<Float>
    requires FramesOk(rows, frames)
  {
    if frames == [] then []
    else
      var n := |frames| - 1;
      var f := frames[n];
      AteList(rows, frames[..n]) + (if Qualifies(f) then Copies(StratumAte(rows, f), |Arm(rows, f.members, 1)|) else [])
  }

  /** `att_list` after the given strata: each qualifying stratum's ATT once. */
  function AttList(rows: seq<Unit>, frames: seq<Frame>): seq<Float>
    requires FramesOk(rows, frames)
  {
    if frames == [] then []
    else
      var n := |frames| - 1;
      var f := frames[n];
      AttList(rows, frames[..n]) + (if Qualifies(f) then [StratumAtt(rows, f)] else [])
  }

  /** Python's `sum()` over a list of floats, left to right from 0. */
  function Total(s: seq<Float>): Float
  {
    if s == [] then Finite(0.0) else Plus(Total(s[..|s| - 1]), s[|s| - 1])
  }

  /** `sum(l) / len(l) if l else None`. */
  function Mean(s: seq<Float>): Option<Float>
  {
    if s == [] then None
    else
      var t := Total(s);
      Some(if t.Finite? then Finite(t.v / |s| as real) else NonFinite)
  }

  /** The values of a list of finite floats. */
  predicate AllFinite(s: seq<Float>)
  {
    forall k :: 0 <= k < |s| ==> s[k].Finite?
  }

  function Values(s: seq<Float>): (r: seq<real>)
    requires AllFinite(s)
    ensures |r| == |s| && forall k :: 0 <= k < |s| ==> r[k] == s[k].v
  {
    seq(|s|, k requires 0 <= k < |s| => s[k].v)
  }

  // ---------------------------------------------------------------------------
  // Properties of the specification

  /** A stratum that adds to `ate_list`: it qualifies and has treated members. */
  predicate Contributes(rows: seq<Unit>, f: Frame)
    requires WellFormed(rows, f)
  {
    Qualifies(f) && |Arm(rows, f.members, 1)| > 0
  }

  /** The final ATE is None exactly when no stratum contributes. */
  lemma {:induction false} AteNone(rows: seq<Unit>, frames: seq<Frame>)
    requires FramesOk(rows, frames)
    ensures Mean(AteList(rows, frames)) == None <==> forall f :: 0 <= f < |frames| ==> !Contributes(rows, frames[f])
  {
    if frames != [] {
      var n := |frames| - 1;
      assert forall f :: 0 <= f < n ==> frames[..n][f] == frames[f];
      AteNone(rows, frames[..n]);
    }
  }

  /** The final ATT is None exactly when no stratum qualifies. */
  lemma {:induction false} AttNone(rows: seq<Unit>, frames: seq<Frame>)
    requires FramesOk(rows, frames)
    ensures Mean(AttList(rows, frames)) == None <==> forall f :: 0 <= f < |frames| ==> !Qualifies(frames[f])
  {
    if frames != [] {
      var n := |frames| - 1;
      assert forall f :: 0 <= f < n ==> frames[..n][f] == frames[f];
      AttNone(rows, frames[..n]);
    }
  }

  /** A list's sum is finite exactly when its elements are, and then it is the sum of their values. */
  lemma {:induction false} TotalFinite(s: seq<Float>)
    ensures Total(s).Finite? <==> AllFinite(s)
    ensures AllFinite(s) ==> Total(s).v == Sum(Values(s))
  {
    if s != [] {
      var n := |s| - 1;
      TotalFinite(s[..n]);
      if AllFinite(s) {
        assert Values(s)[..n] == Values(s[..n]);
      } else if AllFinite(s[..n]) {
        assert s[n].NonFinite?;
      } else {
        var k :| 0 <= k < n && s[..n][k].NonFinite?;
        assert s[k].NonFinite?;
      }
    }
  }

  /** The mean of finite values in [lo, hi] is finite and in [lo, hi]. */
  lemma MeanBetween(s: seq<Float>, lo: real, hi: real)
    requires s != [] && forall k :: 0 <= k < |s| ==> s[k].Finite? && lo <= s[k].v <= hi
    ensures Mean(s).Some? && Mean(s).value.Finite? && lo <= Mean(s).value.v <= hi
  {
    var vs := Values(s);
    TotalFinite(s);
    assert Total(s) == Finite(Sum(vs));
    AverageBetween(vs, lo, hi);
    assert Mean(s) == Some(Finite(Sum(vs) / |vs| as real));
  }

  /** Appending n copies of x adds n times the value of x (x must be finite unless n is 0). */
  lemma {:induction false} TotalCopies(a: seq<Float>, x: Float, n: nat)
    requires Total(a).Finite? && (n > 0 ==> x.Finite?)
    ensures Total(a + Copies(x, n)) == Finite(Total(a).v + Times(ValueOf(x), n))
  {
    if n == 0 {
      assert a + Copies(x, n) == a;
    } else {
      assert a + Copies(x, n) == (a + Copies(x, n - 1)) + [x];
      TotalCopies(a, x, n - 1);
    }
  }

  /** The value of a finite float (0 for the others, which the lemmas rule out). */
  function ValueOf(x: Float): real
  {
    if x.Finite? then x.v else 0.0
  }

  /** Every contributing stratum has a finite ATE. */
  predicate AtesFinite(rows: seq<Unit>, frames: seq<Frame>)
    requires FramesOk(rows, frames)
  {
    forall f :: 0 <= f < |frames| && Contributes(rows, frames[f]) ==> StratumAte(rows, frames[f]).Finite?
  }

  /** Sum of n_treat over the qualifying strata. */
  function TreatedCount(rows: seq<Unit>, frames: seq<Frame>): nat
    requires FramesOk(rows, frames)
  {
    if frames == [] then 0
    else
      var n := |frames| - 1;
      TreatedCount(rows, frames[..n]) + (if Qualifies(frames[n]) then |Arm(rows, frames[n].members, 1)| else 0)
  }

  /** Sum of n_treat * ate over the qualifying strata. */
  function AteWeightedSum(rows: seq<Unit>, frames: seq<Frame>): real
    requires FramesOk(rows, frames)
  {
    if frames == [] then 0.0
    else
      var n := |frames| - 1;
      var f := frames[n];
      AteWeightedSum(rows, frames[..n]) + (if Qualifies(f) then Times(ValueOf(StratumAte(rows, f)), |Arm(rows, f.members, 1)|) else 0.0)
  }

  lemma AtesFinitePrefix(rows: seq<Unit>, frames: seq<Frame>)
    requires FramesOk(rows, frames) && frames != [] && AtesFinite(rows, frames)
    ensures FramesOk(rows, frames[..|frames| - 1]) && AtesFinite(rows, frames[..|frames| - 1])
  {
    var n := |frames| - 1;
    assert forall f :: 0 <= f < n ==> frames[..n][f] == frames[f];
  }

  /** With finite stratum ATEs, `ate_list` sums to the n_treat-weighted sum and has one entry per treated member. */
  lemma {:induction false} AteTotal(rows: seq<Unit>, frames: seq<Frame>)
    requires FramesOk(rows, frames) && AtesFinite(rows, frames)
    ensures Total(AteList(rows, frames)) == Finite(AteWeightedSum(rows, frames))
    ensures |AteList(rows, frames)| == TreatedCount(rows, frames)
  {
    if frames != [] {
      var n := |frames| - 1;
      var init := frames[..n];
      var f := frames[n];
      var x := StratumAte(rows, f);
      var m := |Arm(rows, f.members, 1)|;
      AtesFinitePrefix(rows, frames);
      AteTotal(rows, init);
      if Qualifies(f) {
        assert AteList(rows, frames) == AteList(rows, init) + Copies(x, m);
        assert AteWeightedSum(rows, frames) == AteWeightedSum(rows, init) + Times(ValueOf(x), m);
        assert m > 0 ==> x.Finite? by {
          assert m > 0 ==> Contributes(rows, frames[n]);
        }
        TotalCopies(AteList(rows, init), x, m);
      } else {
        assert AteList(rows, frames) == AteList(rows, init) + [];
        assert AteList(rows, init) + [] == AteList(rows, init);
      }
    }
  }

  /**
   * Each stratum ATE enters `ate_list` n_treat times, so the final ATE is the
   * n_treat-weighted average of the stratum ATEs.
   */
  lemma AteWeightedAverage(rows: seq<Unit>, frames: seq<Frame>)
    requires FramesOk(rows, frames) && AtesFinite(rows, frames)
    ensures Mean(AteList(rows, frames)) ==
      if TreatedCount(rows, frames) == 0 then None
      else Some(Finite(AteWeightedSum(rows, frames) / TreatedCount(rows, frames) as real))
  {
    AteTotal(rows, frames);
  }

  /** Every qualifying stratum has a finite ATT. */
  predicate AttsFinite(rows: seq<Unit>, frames: seq<Frame>)
    requires FramesOk(rows, frames)
  {
    forall f :: 0 <= f < |frames| && Qualifies(frames[f]) ==> StratumAtt(rows, frames[f]).Finite?
  }

  /** The number of qualifying strata. */
  function QualifiedCount(frames: seq<Frame>): nat
  {
    if frames == [] then 0 else QualifiedCount(frames[..|frames| - 1]) + (if Qualifies(frames[|frames| - 1]) then 1 else 0)
  }

  /** Sum of the ATTs of the qualifying strata. */
  function AttSum(rows: seq<Unit>, frames: seq<Frame>): real
    requires FramesOk(rows, frames)
  {
    if frames == [] then 0.0
    else
      var n := |frames| - 1;
      AttSum(rows, frames[..n]) + (if Qualifies(frames[n]) then ValueOf(StratumAtt(rows, frames[n])) else 0.0)
  }

  lemma AttsFinitePrefix(rows: seq<Unit>, frames: seq<Frame>)
    requires FramesOk(rows, frames) && frames != [] && AttsFinite(rows, frames)
    ensures FramesOk(rows, frames[..|frames| - 1]) && AttsFinite(rows, frames[..|frames| - 1])
  {
    var n := |frames| - 1;
    assert forall f :: 0 <= f < n ==> frames[..n][f] == frames[f];
  }

  /** With finite stratum ATTs, `att_list` sums to their sum and has one entry per qualifying stratum. */
  lemma {:induction false} AttTotal(rows: seq<Unit>, frames: seq<Frame>)
    requires FramesOk(rows, frames) && AttsFinite(rows, frames)
    ensures Total(AttList(rows, frames)) == Finite(AttSum(rows, frames))
    ensures |AttList(rows, frames)| == QualifiedCount(frames)
  {
    if frames != [] {
      var n := |frames| - 1;
      var f := frames[n];
      AttsFinitePrefix(rows, frames);
      AttTotal(rows, frames[..n]);
      if Qualifies(f) {
        assert StratumAtt(rows, f).Finite?;
        assert [StratumAtt(rows, f)] == Copies(StratumAtt(rows, f), 1);
        TotalCopies(AttList(rows, frames[..n]), StratumAtt(rows, f), 1);
      } else {
        assert AttList(rows, frames) == AttList(rows, frames[..n]) + [];
        assert AttList(rows, frames[..n]) + [] == AttList(rows, frames[..n]);
      }
    }
  }

  /** The final ATT is the unweighted mean of the qualifying strata's ATTs. */
  lemma AttUnweightedMean(rows: seq<Unit>, frames: seq<Frame>)
    requires FramesOk(rows, frames) && AttsFinite(rows, frames)
    ensures Mean(AttList(rows, frames)) ==
      if QualifiedCount(frames) == 0 then None
      else Some(Finite(AttSum(rows, frames) / QualifiedCount(frames) as real))
  {
    AttTotal(rows, frames);
  }

  /** Every contributing stratum has a finite ATE in [lo, hi]. */
  predicate AtesBetween(rows: seq<Unit>, frames: seq<Frame>, lo: real, hi: real)
    requires FramesOk(rows, frames)
  {
    forall f :: 0 <= f < |frames| && Contributes(rows, frames[f]) ==>
      StratumAte(rows, frames[f]).Finite? && lo <= StratumAte(rows, frames[f]).v <= hi
  }

  lemma AtesBetweenPrefix(rows: seq<Unit>, frames: seq<Frame>, lo: real, hi: real)
    requires FramesOk(rows, frames) && frames != [] && AtesBetween(rows, frames, lo, hi)
    ensures FramesOk(rows, frames[..|frames| - 1]) && AtesBetween(rows, frames[..|frames| - 1], lo, hi)
  {
    var n := |frames| - 1;
    assert forall f :: 0 <= f < n ==> frames[..n][f] == frames[f];
  }

  lemma {:induction false} AteListBetween(rows: seq<Unit>, frames: seq<Frame>, lo: real, hi: real)
    requires FramesOk(rows, frames) && AtesBetween(rows, frames, lo, hi)
    ensures forall k :: 0 <= k < |AteList(rows, frames)| ==> AteList(rows, frames)[k].Finite? && lo <= AteList(rows, frames)[k].v <= hi
  {
    if frames != [] {
      var n := |frames| - 1;
      AtesBetweenPrefix(rows, frames, lo, hi);
      AteListBetween(rows, frames[..n], lo, hi);
      assert Contributes(rows, frames[n]) ==> StratumAte(rows, frames[n]).Finite? && lo <= StratumAte(rows, frames[n]).v <= hi;
    }
  }

  /** The final ATE lies between the smallest and the largest stratum ATE. */
  lemma AteBetween(rows: seq<Unit>, frames: seq<Frame>, lo: real, hi: real)
    requires FramesOk(rows, frames) && AtesBetween(rows, frames, lo, hi)
    requires exists f :: 0 <= f < |frames| && Contributes(rows, frames[f])
    ensures Mean(AteList(rows, frames)).Some? && Mean(AteList(rows, frames)).value.Finite?
    ensures lo <= Mean(AteList(rows, frames)).value.v <= hi
  {
    AteNone(rows, frames);
    AteListBetween(rows, frames, lo, hi);
    MeanBetween(AteList(rows, frames), lo, hi);
  }

  /** Every qualifying stratum has a finite ATT in [lo, hi]. */
  predicate AttsBetween(rows: seq<Unit>, frames: seq<Frame>, lo: real, hi: real)
    requires FramesOk(rows, frames)
  {
    forall f :: 0 <= f < |frames| && Qualifies(frames[f]) ==>
      StratumAtt(rows, frames[f]).Finite? && lo <= StratumAtt(rows, frames[f]).v <= hi
  }

  lemma AttsBetweenPrefix(rows: seq<Unit>, frames: seq<Frame>, lo: real, hi: real)
    requires FramesOk(rows, frames) && frames != [] && AttsBetween(rows, frames, lo, hi)
    ensures FramesOk(rows, frames[..|frames| - 1]) && AttsBetween(rows, frames[..|frames| - 1], lo, hi)
  {
    var n := |frames| - 1;
    assert forall f :: 0 <= f < n ==> frames[..n][f] == frames[f];
  }

  lemma {:induction false} AttListBetween(rows: seq<Unit>, frames: seq<Frame>, lo: real, hi: real)
    requires FramesOk(rows, frames) && AttsBetween(rows, frames, lo, hi)
    ensures forall k :: 0 <= k < |AttList(rows, frames)| ==> AttList(rows, frames)[k].Finite? && lo <= AttList(rows, frames)[k].v <= hi
  {
    if frames != [] {
      var n := |frames| - 1;
      AttsBetweenPrefix(rows, frames, lo, hi);
      AttListBetween(rows, frames[..n], lo, hi);
      assert Qualifies(frames[n]) ==> StratumAtt(rows, frames[n]).Finite? && lo <= StratumAtt(rows, frames[n]).v <= hi;
    }
  }

  /** The final ATT lies between the smallest and the largest stratum ATT. */
  lemma AttBetween(rows: seq<Unit>, frames: seq<Frame>, lo: real, hi: real)
    requires FramesOk(rows, frames) && AttsBetween(rows, frames, lo, hi)
    requires exists f :: 0 <= f < |frames| && Qualifies(frames[f])
    ensures Mean(AttList(rows, frames)).Some? && Mean(AttList(rows, frames)).value.Finite?
    ensures lo <= Mean(AttList(rows, frames)).value.v <= hi
  {
    AttNone(rows, frames);
    AttListBetween(rows, frames, lo, hi);
    MeanBetween(AttList(rows, frames), lo, hi);
  }

  /** A contributing stratum's ATE is in `ate_list`. */
  lemma {:induction false} AteListHas(rows: seq<Unit>, frames: seq<Frame>, f: nat)
    requires FramesOk(rows, frames) && f < |frames| && Contributes(rows, frames[f])
    ensures StratumAte(rows, frames[f]) in AteList(rows, frames)
  {
    var n := |frames| - 1;
    var init := frames[..n];
    var last := frames[n];
    assert FramesOk(rows, init) by {
      assert forall k :: 0 <= k < n ==> init[k] == frames[k];
    }
    var tail := if Qualifies(last) then Copies(StratumAte(rows, last), |Arm(rows, last.members, 1)|) else [];
    assert AteList(rows, frames) == AteList(rows, init) + tail;
    if f < n {
      assert init[f] == frames[f];
      AteListHas(rows, init, f);
    } else {
      assert f == n;
      assert tail[0] == StratumAte(rows, last);
    }
  }

  /** A qualifying stratum's ATT is in `att_list`. */
  lemma {:induction false} AttListHas(rows: seq<Unit>, frames: seq<Frame>, f: nat)
    requires FramesOk(rows, frames) && f < |frames| && Qualifies(frames[f])
    ensures StratumAtt(rows, frames[f]) in AttList(rows, frames)
  {
    var n := |frames| - 1;
    var init := frames[..n];
    var last := frames[n];
    assert FramesOk(rows, init) by {
      assert forall k :: 0 <= k < n ==> init[k] == frames[k];
    }
    var tail := if Qualifies(last) then [StratumAtt(rows, last)] else [];
    assert AttList(rows, frames) == AttList(rows, init) + tail;
    if f < n {
      assert init[f] == frames[f];
      AttListHas(rows, init, f);
    } else {
      assert f == n;
      assert tail == [StratumAtt(rows, last)];
    }
  }

  /** A NaN or infinite list element makes the mean non-finite. */
  lemma MeanNonFinite(s: seq<Float>, x: Float)
    requires x in s && x.NonFinite?
    ensures Mean(s) == Some(NonFinite)
  {
    TotalFinite(s);
  }

  /** One contributing stratum with a NaN or infinite ATE makes the final ATE non-finite. */
  lemma AteNonFinite(rows: seq<Unit>, frames: seq<Frame>, f: nat)
    requires FramesOk(rows, frames) && f < |frames| && Contributes(rows, frames[f]) && StratumAte(rows, frames[f]).NonFinite?
    ensures Mean(AteList(rows, frames)) == Some(NonFinite)
  {
    AteListHas(rows, frames, f);
    MeanNonFinite(AteList(rows, frames), StratumAte(rows, frames[f]));
  }

  /** One qualifying stratum with a NaN or infinite ATT makes the final ATT non-finite. */
  lemma AttNonFinite(rows: seq<Unit>, frames: seq<Frame>, f: nat)
    requires FramesOk(rows, frames) && f < |frames| && Qualifies(frames[f]) && StratumAtt(rows, frames[f]).NonFinite?
    ensures Mean(AttList(rows, frames)) == Some(NonFinite)
  {
    AttListHas(rows, frames, f);
    MeanNonFinite(AttList(rows, frames), StratumAtt(rows, frames[f]));
  }

  // Constant outcomes within each arm

  /** Every treated member has outcome yT and every control outcome yC. */
  predicate ArmOutcomes(rows: seq<Unit>, ids: seq<nat>, yT: real, yC: real)
    requires InRange(rows, ids)
  {
    forall k :: 0 <= k < |ids| ==> rows[ids[k]].outcome == if rows[ids[k]].treatment == 1 then yT else yC
  }

  /** A column equal to y on an arm sums to y once per member of the arm. */
  lemma ConstantSum(rows: seq<Unit>, ids: seq<nat>, vals: seq<real>, t: Treatment, y: real)
    requires InRange(rows, ids) && |vals| == |ids|
    requires forall k :: 0 <= k < |ids| && rows[ids[k]].treatment == t ==> vals[k] == y
    ensures Sum(Select(rows, ids, vals, t)) == Times(y, |Arm(rows, ids, t)|)
  {
    SelectAgree(rows, ids, vals, Repeat(y, |ids|), t);
    SelectConstantSum(rows, ids, y, t);
  }

  /** A column equal to y times v on an arm selects y times the arm's entries of v. */
  lemma {:induction false} SelectScaled(rows: seq<Unit>, ids: seq<nat>, p: seq<real>, v: seq<real>, t: Treatment, y: real)
    requires InRange(rows, ids) && |p| == |ids| && |v| == |ids|
    requires forall k :: 0 <= k < |ids| && rows[ids[k]].treatment == t ==> p[k] == Product(y, v[k])
    ensures Select(rows, ids, p, t) == Scaled(y, Select(rows, ids, v, t))
  {
    if ids != [] {
      var m := |ids| - 1;
      assert forall k :: 0 <= k < m ==> ids[..m][k] == ids[k] && p[..m][k] == p[k] && v[..m][k] == v[k];
      SelectScaled(rows, ids[..m], p[..m], v[..m], t, y);
      var w := if rows[ids[m]].treatment == t then [v[m]] else [];
      ScaledAppend(y, Select(rows, ids[..m], v[..m], t), w);
    }
  }

  /** ... and so sums to y times the arm's sum of v. */
  lemma ScaledSum(rows: seq<Unit>, ids: seq<nat>, p: seq<real>, v: seq<real>, t: Treatment, y: real)
    requires InRange(rows, ids) && |p| == |ids| && |v| == |ids|
    requires forall k :: 0 <= k < |ids| && rows[ids[k]].treatment == t ==> p[k] == Product(y, v[k])
    ensures Sum(Select(rows, ids, p, t)) == Product(y, Sum(Select(rows, ids, v, t)))
  {
    SelectScaled(rows, ids, p, v, t, y);
    SumScaled(y, Select(rows, ids, v, t));
  }

  lemma CopiesMean(y: real, n: nat)
    requires n > 0
    ensures Ratio(Times(y, n), n as real) == Finite(y)
  {
    TimesIsProduct(y, n);
  }

  lemma ScaledMean(y: real, w: real)
    requires w != 0.0
    ensures Ratio(Product(y, w), w) == Finite(y)
  {
  }

  /** No division of the stratum has a zero denominator. */
  predicate Denominators(rows: seq<Unit>, f: Frame)
    requires WellFormed(rows, f) && Qualifies(f)
  {
    var w := Filled(f.weights.value);
    && |Arm(rows, f.members, 1)| > 0 && |Arm(rows, f.members, 0)| > 0
    && (f.scores.Some? ==> Sum(Select(rows, f.members, Inverses(f.scores.value), 0)) != 0.0)
    && Sum(Select(rows, f.members, w, 1)) != 0.0 && Sum(Select(rows, f.members, w, 0)) != 0.0
  }

  /** Weighting the outcomes of an arm whose outcome is y. */
  lemma WeightedOutcomes(rows: seq<Unit>, ids: seq<nat>, v: seq<real>, t: Treatment, y: real)
    requires InRange(rows, ids) && |v| == |ids|
    requires forall k :: 0 <= k < |ids| && rows[ids[k]].treatment == t ==> rows[ids[k]].outcome == y
    ensures Sum(Select(rows, ids, Products(Outcomes(rows, ids), v), t)) == Product(y, Sum(Select(rows, ids, v, t)))
  {
    var p := Products(Outcomes(rows, ids), v);
    assert forall k :: 0 <= k < |ids| && rows[ids[k]].treatment == t ==> p[k] == Product(y, v[k]);
    ScaledSum(rows, ids, p, v, t, y);
  }

  /** The outcomes of an arm whose outcome is y sum to y once per member. */
  lemma PlainOutcomes(rows: seq<Unit>, ids: seq<nat>, t: Treatment, y: real)
    requires InRange(rows, ids) && |Arm(rows, ids, t)| > 0
    requires forall k :: 0 <= k < |ids| && rows[ids[k]].treatment == t ==> rows[ids[k]].outcome == y
    ensures Ratio(Sum(Select(rows, ids, Outcomes(rows, ids), t)), |Arm(rows, ids, t)| as real) == Finite(y)
  {
    ConstantSum(rows, ids, Outcomes(rows, ids), t, y);
    CopiesMean(y, |Arm(rows, ids, t)|);
  }

  /** With outcome yT for every treated and yC for every control member, a stratum's ATE is yT - yC. */
  lemma StratumAteConstant(rows: seq<Unit>, f: Frame, yT: real, yC: real)
    requires WellFormed(rows, f) && ArmOutcomes(rows, f.members, yT, yC)
    requires |Arm(rows, f.members, 1)| > 0 && |Arm(rows, f.members, 0)| > 0
    requires f.scores.Some? ==> Sum(Select(rows, f.members, Inverses(f.scores.value), 0)) != 0.0
    ensures StratumAte(rows, f) == Finite(yT - yC)
  {
    PlainOutcomes(rows, f.members, 1, yT);
    assert TreatedEffect(rows, f) == Finite(yT);
    if f.scores.Some? {
      var v := Inverses(f.scores.value);
      WeightedOutcomes(rows, f.members, v, 0, yC);
      ScaledMean(yC, Sum(Select(rows, f.members, v, 0)));
    } else {
      PlainOutcomes(rows, f.members, 0, yC);
    }
    assert ControlEffect(rows, f) == Finite(yC);
  }

  /** With outcome yT for every treated and yC for every control member, a stratum's ATT is yT - yC. */
  lemma StratumAttConstant(rows: seq<Unit>, f: Frame, yT: real, yC: real)
    requires WellFormed(rows, f) && Qualifies(f) && ArmOutcomes(rows, f.members, yT, yC)
    requires Sum(Select(rows, f.members, Filled(f.weights.value), 1)) != 0.0
    requires Sum(Select(rows, f.members, Filled(f.weights.value), 0)) != 0.0
    ensures StratumAtt(rows, f) == Finite(yT - yC)
  {
    WeightedMeanConstant(rows, f, 1, yT);
    WeightedMeanConstant(rows, f, 0, yC);
  }

  /** The weighted mean of an arm whose outcome is y, with nonzero total weight, is y. */
  lemma WeightedMeanConstant(rows: seq<Unit>, f: Frame, t: Treatment, y: real)
    requires WellFormed(rows, f) && Qualifies(f)
    requires forall k :: 0 <= k < |f.members| && rows[f.members[k]].treatment == t ==> rows[f.members[k]].outcome == y
    requires Sum(Select(rows, f.members, Filled(f.weights.value), t)) != 0.0
    ensures WeightedMean(rows, f, t) == Finite(y)
  {
    var w := Filled(f.weights.value);
    WeightedOutcomes(rows, f.members, w, t, y);
    ScaledMean(y, Sum(Select(rows, f.members, w, t)));
  }

  /** Every stratum has outcome yT on its treated and yC on its controls, and no qualifying stratum divides by zero. */
  predicate ConstantArms(rows: seq<Unit>, frames: seq<Frame>, yT: real, yC: real)
    requires FramesOk(rows, frames)
  {
    forall f :: 0 <= f < |frames| ==>
      ArmOutcomes(rows, frames[f].members, yT, yC) && (Qualifies(frames[f]) ==> Denominators(rows, frames[f]))
  }

  /** Under constant arms every contributing stratum's ATE is yT - yC. */
  lemma ConstantAtes(rows: seq<Unit>, frames: seq<Frame>, yT: real, yC: real)
    requires FramesOk(rows, frames) && ConstantArms(rows, frames, yT, yC)
    ensures AtesBetween(rows, frames, yT - yC, yT - yC)
  {
    forall f | 0 <= f < |frames| && Contributes(rows, frames[f])
      ensures StratumAte(rows, frames[f]) == Finite(yT - yC)
    {
      StratumAteConstant(rows, frames[f], yT, yC);
    }
  }

  /** Under constant arms every qualifying stratum's ATT is yT - yC. */
  lemma ConstantAtts(rows: seq<Unit>, frames: seq<Frame>, yT: real, yC: real)
    requires FramesOk(rows, frames) && ConstantArms(rows, frames, yT, yC)
    ensures AttsBetween(rows, frames, yT - yC, yT - yC)
  {
    forall f | 0 <= f < |frames| && Qualifies(frames[f])
      ensures StratumAtt(rows, frames[f]) == Finite(yT - yC)
    {
      StratumAttConstant(rows, frames[f], yT, yC);
    }
  }

  /**
   * When the outcome is yT on every treated and yC on every control unit,
   * both estimators return exactly the difference yT - yC.
   */
  lemma {:induction false} ConstantEffect(rows: seq<Unit>, frames: seq<Frame>, yT: real, yC: real)
    requires FramesOk(rows, frames) && ConstantArms(rows, frames, yT, yC)
    requires exists f :: 0 <= f < |frames| && Qualifies(frames[f])
    ensures Mean(AteList(rows, frames)) == Some(Finite(yT - yC))
    ensures Mean(AttList(rows, frames)) == Some(Finite(yT - yC))
  {
    ConstantAtes(rows, frames, yT, yC);
    ConstantAtts(rows, frames, yT, yC);
    var g :| 0 <= g < |frames| && Qualifies(frames[g]);
    assert Contributes(rows, frames[g]) by {
      assert Denominators(rows, frames[g]);
    }
    ConstantAteMean(rows, frames, yT, yC, g);
    ConstantAttMean(rows, frames, yT, yC, g);
  }

  /** The ATE half of ConstantEffect, given a contributing stratum g. */
  lemma ConstantAteMean(rows: seq<Unit>, frames: seq<Frame>, yT: real, yC: real, g: nat)
    requires FramesOk(rows, frames) && AtesBetween(rows, frames, yT - yC, yT - yC)
    requires g < |frames| && Contributes(rows, frames[g])
    ensures Mean(AteList(rows, frames)) == Some(Finite(yT - yC))
  {
    AteBetween(rows, frames, yT - yC, yT - yC);
    Pinned(Mean(AteList(rows, frames)), yT, yC);
  }

  /** The ATT half of ConstantEffect, given a qualifying stratum g. */
  lemma ConstantAttMean(rows: seq<Unit>, frames: seq<Frame>, yT: real, yC: real, g: nat)
    requires FramesOk(rows, frames) && AttsBetween(rows, frames, yT - yC, yT - yC)
    requires g < |frames| && Qualifies(frames[g])
    ensures Mean(AttList(rows, frames)) == Some(Finite(yT - yC))
  {
    AttBetween(rows, frames, yT - yC, yT - yC);
    Pinned(Mean(AttList(rows, frames)), yT, yC);
  }

  /** A finite result between yT - yC and yT - yC is yT - yC. */
  lemma Pinned(m: Option<Float>, yT: real, yC: real)
    requires m.Some? && m.value.Finite? && yT - yC <= m.value.v <= yT - yC
    ensures m == Some(Finite(yT - yC))
  {
  }

  // ---------------------------------------------------------------------------
  // The computation

  /** Both lists grow by the contribution of the next stratum. */
  lemma ListsStep(rows: seq<Unit>, frames: seq<Frame>, f: nat)
    requires FramesOk(rows, frames) && f < |frames|
    ensures FramesOk(rows, frames[..f]) && FramesOk(rows, frames[..f + 1]) && WellFormed(rows, frames[f])
    ensures AteList(rows, frames[..f + 1]) == AteList(rows, frames[..f])
      + (if Qualifies(frames[f]) then Copies(StratumAte(rows, frames[f]), |Arm(rows, frames[f].members, 1)|) else [])
    ensures AttList(rows, frames[..f + 1]) == AttList(rows, frames[..f]) + (if Qualifies(frames[f]) then [StratumAtt(rows, frames[f])] else [])
  {
    assert frames[..f + 1][..f] == frames[..f];
  }

  /** `calculate_ate_att`: the strata are read, never written. */
  method CalculateAteAtt(rows: seq<Unit>, frames: seq<Frame>) returns (ate: Option<Float>, att: Option<Float>)
    requires FramesOk(rows, frames)
    ensures ate == Mean(AteList(rows, frames))
    ensures att == Mean(AttList(rows, frames))
  {
    var ates: seq<Float> := [];
    var atts: seq<Float> := [];
    for f := 0 to |frames|
      invariant FramesOk(rows, frames[..f])
      invariant ates == AteList(rows, frames[..f]) && atts == AttList(rows, frames[..f])
    {
      ListsStep(rows, frames, f);
      var frame := frames[f];
      if frame.weights.Some? {
        var nTreat := |Arm(rows, frame.members, 1)|;
        var stratumAte := Minus(TreatedEffect(rows, frame), ControlEffect(rows, frame));
        ghost var start := ates;
        for i := 0 to nTreat
          invariant ates == start + Copies(stratumAte, i)
        {
          assert Copies(stratumAte, i + 1) == Copies(stratumAte, i) + [stratumAte];
          ates := ates + [stratumAte];
        }
        atts := atts + [Minus(WeightedMean(rows, frame, 1), WeightedMean(rows, frame, 0))];
      }
    }
    assert frames[..|frames|] == frames;
    ate := Mean(ates);
    att := Mean(atts);
  }
}
