/**
 * The matched strata as the later stages see them.  In the source each
 * stratum is a data frame that `unified_distance` and the weight calculation
 * extend with new columns in place; here a frame carries the stratum and the
 * columns added so far, one entry per member in member order.
 */
module Frames {
  import opened Wrappers
  import opened Units
  import Reals

  /**
   * The columns `unified_distance` adds to a stratum, for one member.
   * `None` stands for NaN: the distance columns of treated members and the
   * discrete distance when the stratum has no discrete column to compare.
   */
  datatype Scores = Scores(discrete: Option<real>, continuous: Option<real>, grandTotal: Option<real>, inverse: real)

  /**
   * A stratum frame: the key covariates, the member ids in order, the distance
   * columns (absent until `unified_distance` has written them) and the
   * `weights` column (absent until the weight calculation has written it;
   * `None` inside it is NaN).
   */
  datatype Frame = Frame(covariates: seq<nat>, members: seq<nat>, scores: Option<seq<Scores>>, weights: Option<seq<Option<real>>>)

  /** All ids name units of the input. */
  predicate InRange(rows: seq<Unit>, ids: seq<nat>)
  {
    forall k :: 0 <= k < |ids| ==> ids[k] < |rows|
  }

  /** The columns of a frame have one entry per member. */
  predicate WellFormed(rows: seq<Unit>, f: Frame)
  {
    && InRange(rows, f.members)
    && (f.scores.Some? ==> |f.scores.value| == |f.members|)
    && (f.weights.Some? ==> |f.weights.value| == |f.members|)
  }

  /** Every frame of a list is well formed. */
  predicate FramesOk(rows: seq<Unit>, frames: seq<Frame>)
  {
    forall f :: 0 <= f < |frames| ==> WellFormed(rows, frames[f])
  }

  /** `df[df[treatment] == t]`: the members with treatment t, in member order. */
  function Arm(rows: seq<Unit>, ids: seq<nat>, t: Treatment): (r: seq<nat>)
    requires InRange(rows, ids)
    ensures InRange(rows, r) && |r| <= |ids|
    ensures forall x :: x in r <==> x in ids && rows[x].treatment == t
  {
    if ids == [] then []
    else
      var last := ids[|ids| - 1];
      var r := Arm(rows, ids[..|ids| - 1], t);
      assert forall x :: x in ids <==> x in ids[..|ids| - 1] || x == last by {
        assert ids == ids[..|ids| - 1] + [last];
      }
      if rows[last].treatment == t then r + [last] else r
  }

  /** The two arms split the members: their sizes add up. */
  lemma {:induction false} ArmSizes(rows: seq<Unit>, ids: seq<nat>)
    requires InRange(rows, ids)
    ensures |Arm(rows, ids, 1)| + |Arm(rows, ids, 0)| == |ids|
  {
    if ids != [] {
      ArmSizes(rows, ids[..|ids| - 1]);
    }
  }

  /** An arm is empty exactly when no member has that treatment. */
  lemma ArmEmpty(rows: seq<Unit>, ids: seq<nat>, t: Treatment)
    requires InRange(rows, ids)
    ensures Arm(rows, ids, t) == [] <==> forall k :: 0 <= k < |ids| ==> rows[ids[k]].treatment != t
  {
    if Arm(rows, ids, t) != [] {
      var x := Arm(rows, ids, t)[0];
      assert x in Arm(rows, ids, t);
    }
  }

  /** `df[df[treatment] == t][col]`: the entries of a member-aligned column at the members with treatment t. */
  function Select<T>(rows: seq<Unit>, ids: seq<nat>, vals: seq<T>, t: Treatment): (r: seq<T>)
    requires InRange(rows, ids) && |vals| == |ids|
    ensures |r| == |Arm(rows, ids, t)|
  {
    if ids == [] then []
    else
      var n := |ids| - 1;
      Select(rows, ids[..n], vals[..n], t) + (if rows[ids[n]].treatment == t then [vals[n]] else [])
  }

  /** Bounds on the entries of the members with treatment t carry over to the selected entries. */
  lemma {:induction false} SelectBetween(rows: seq<Unit>, ids: seq<nat>, vals: seq<real>, t: Treatment, lo: real, hi: real)
    requires InRange(rows, ids) && |vals| == |ids|
    requires forall k :: 0 <= k < |ids| && rows[ids[k]].treatment == t ==> lo <= vals[k] <= hi
    ensures forall m :: 0 <= m < |Select(rows, ids, vals, t)| ==> lo <= Select(rows, ids, vals, t)[m] <= hi
  {
    if ids != [] {
      var n := |ids| - 1;
      assert forall k :: 0 <= k < n ==> ids[..n][k] == ids[k] && vals[..n][k] == vals[k];
      SelectBetween(rows, ids[..n], vals[..n], t, lo, hi);
    }
  }

  /** The entry of a member with treatment t is among the selected entries. */
  lemma {:induction false} SelectHas<T>(rows: seq<Unit>, ids: seq<nat>, vals: seq<T>, t: Treatment, k: nat)
    requires InRange(rows, ids) && |vals| == |ids| && k < |ids| && rows[ids[k]].treatment == t
    ensures vals[k] in Select(rows, ids, vals, t)
  {
    var n := |ids| - 1;
    if k < n {
      assert ids[..n][k] == ids[k] && vals[..n][k] == vals[k];
      SelectHas(rows, ids[..n], vals[..n], t, k);
    }
  }

  /** A column with NaN read as 0, as pandas' `sum()` skips NaN. */
  function Filled(col: seq<Option<real>>): (r: seq<real>)
    ensures |r| == |col| && forall k :: 0 <= k < |col| ==> r[k] == col[k].GetOr(0.0)
  {
    seq(|col|, k requires 0 <= k < |col| => col[k].GetOr(0.0))
  }

  /** Columns that agree at the members with treatment t select the same entries. */
  lemma {:induction false} SelectAgree<T>(rows: seq<Unit>, ids: seq<nat>, a: seq<T>, b: seq<T>, t: Treatment)
    requires InRange(rows, ids) && |a| == |ids| && |b| == |ids|
    requires forall k :: 0 <= k < |ids| && rows[ids[k]].treatment == t ==> a[k] == b[k]
    ensures Select(rows, ids, a, t) == Select(rows, ids, b, t)
  {
    if ids != [] {
      var n := |ids| - 1;
      assert forall k :: 0 <= k < n ==> ids[..n][k] == ids[k] && a[..n][k] == a[k] && b[..n][k] == b[k];
      SelectAgree(rows, ids[..n], a[..n], b[..n], t);
    }
  }

  /** Selecting from a constant column gives one copy per member of the arm. */
  lemma {:induction false} SelectConstant(rows: seq<Unit>, ids: seq<nat>, x: real, t: Treatment)
    requires InRange(rows, ids)
    ensures Select(rows, ids, Reals.Repeat(x, |ids|), t) == Reals.Repeat(x, |Arm(rows, ids, t)|)
  {
    if ids != [] {
      var n := |ids| - 1;
      assert Reals.Repeat(x, |ids|)[..n] == Reals.Repeat(x, n);
      SelectConstant(rows, ids[..n], x, t);
    }
  }

  /** Each member with treatment t contributes x to the sum of a constant column over the arm. */
  lemma {:induction false} SelectConstantSum(rows: seq<Unit>, ids: seq<nat>, x: real, t: Treatment)
    requires InRange(rows, ids)
    ensures Reals.Sum(Select(rows, ids, Reals.Repeat(x, |ids|), t)) == Reals.Times(x, |Arm(rows, ids, t)|)
  {
    if ids != [] {
      var m := |ids| - 1;
      var before := Select(rows, ids[..m], Reals.Repeat(x, |ids[..m]|), t);
      assert Reals.Repeat(x, |ids|)[..m] == Reals.Repeat(x, |ids[..m]|);
      SelectConstantSum(rows, ids[..m], x, t);
      var k := |Arm(rows, ids[..m], t)|;
      if rows[ids[m]].treatment == t {
        assert Select(rows, ids, Reals.Repeat(x, |ids|), t) == before + [x];
        assert |Arm(rows, ids, t)| == k + 1;
        Reals.SumSnoc(before, x);
        assert Reals.Times(x, k + 1) == Reals.Times(x, k) + x;
      } else {
        assert Select(rows, ids, Reals.Repeat(x, |ids|), t) == before;
        assert |Arm(rows, ids, t)| == k;
      }
    }
  }

  /** The last member's entry, when it counts, keeps the sum of the selected entries within the bounds. */
  lemma SelectSumStep(rows: seq<Unit>, ids: seq<nat>, vals: seq<real>, t: Treatment, lo: real, hi: real)
    requires InRange(rows, ids) && |vals| == |ids| && ids != [] && InRange(rows, ids[..|ids| - 1])
    requires rows[ids[|ids| - 1]].treatment == t ==> lo <= vals[|ids| - 1] <= hi
    requires var m := |ids| - 1;
      Reals.Times(lo, |Arm(rows, ids[..m], t)|) <= Reals.Sum(Select(rows, ids[..m], vals[..m], t)) <= Reals.Times(hi, |Arm(rows, ids[..m], t)|)
    ensures Reals.Times(lo, |Arm(rows, ids, t)|) <= Reals.Sum(Select(rows, ids, vals, t)) <= Reals.Times(hi, |Arm(rows, ids, t)|)
  {
    var m := |ids| - 1;
    var before := Select(rows, ids[..m], vals[..m], t);
    var k := |Arm(rows, ids[..m], t)|;
    if rows[ids[m]].treatment == t {
      assert Select(rows, ids, vals, t) == before + [vals[m]];
      assert |Arm(rows, ids, t)| == k + 1;
      Reals.SnocBetween(before, vals[m], lo, hi, k);
    } else {
      assert Select(rows, ids, vals, t) == before;
      assert |Arm(rows, ids, t)| == k;
    }
  }

  /** Entries in [lo, hi] at the members with treatment t sum to between lo and hi times the size of the arm. */
  lemma {:induction false} SelectSumBetween(rows: seq<Unit>, ids: seq<nat>, vals: seq<real>, t: Treatment, lo: real, hi: real)
    requires InRange(rows, ids) && |vals| == |ids|
    requires forall k :: 0 <= k < |ids| && rows[ids[k]].treatment == t ==> lo <= vals[k] <= hi
    ensures Reals.Times(lo, |Arm(rows, ids, t)|) <= Reals.Sum(Select(rows, ids, vals, t)) <= Reals.Times(hi, |Arm(rows, ids, t)|)
  {
    if ids != [] {
      var m := |ids| - 1;
      assert forall k :: 0 <= k < m ==> ids[..m][k] == ids[k] && vals[..m][k] == vals[k];
      SelectSumBetween(rows, ids[..m], vals[..m], t, lo, hi);
      SelectSumStep(rows, ids, vals, t, lo, hi);
    }
  }
}
