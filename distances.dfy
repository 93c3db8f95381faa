/**
 * The unified distance of tim/distances.py, `unified_distance`.
 *
 * For a stratum matched on the key covariates `cov`, the covariates outside
 * the key are compared between treated and control members: a continuous
 * covariate by the gap from the control's raw value to the nearest treated
 * raw value, a discrete covariate by the pair-table distance between the
 * stratum's first member's coarse value and the control's.  A control's grand
 * total is the sum of both; the inverse distance maps the controls' grand
 * totals onto [0, 1] by inverse min-max normalisation, and treated members get
 * the stratum's inverse weight 1 - (outside covariates) / (all covariates).
 *
 * The functions specify the columns per member; the methods compute them the
 * way the source does (a running total per control, column after column) and
 * are proved to agree with the functions.
 */
module Distances {
  import opened Wrappers
  import opened Units
  import opened Reals
  import opened Frames
  import Crosstab

  /**
   * What `unified_distance` reads besides the strata: the units (coarse and
   * raw values), the number of continuous and of discrete covariates, and the
   * pair table of the discrete columns.
   */
  datatype Context = Context(rows: seq<Unit>, nCont: nat, nDisc: nat, table: seq<Crosstab.PairRow>)
  {
    predicate Valid()
    {
      Shaped(rows, nCont, nDisc)
    }

    function Covariates(): nat
    {
      nCont + nDisc
    }
  }

  /** The covariates lo .. hi-1 that are not in the key, in increasing order. */
  function Outside(lo: nat, hi: nat, cov: seq<nat>): (r: seq<nat>)
    ensures forall c :: c in r <==> lo <= c < hi && c !in cov
    ensures lo <= hi ==> |r| <= hi - lo
    ensures NoDuplicates(r)
  {
    if hi <= lo then []
    else
      var r := Outside(lo, hi - 1, cov);
      if hi - 1 in cov then r else r + [hi - 1]
  }

  /** Every entry of s is below n. */
  predicate AllBelow(s: seq<nat>, n: nat)
  {
    forall k :: 0 <= k < |s| ==> s[k] < n
  }

  /** `continuous_list`: the continuous covariates outside the key. */
  function ContinuousList(ctx: Context, cov: seq<nat>): (cl: seq<nat>)
    ensures AllBelow(cl, ctx.nCont)
  {
    assert forall k :: 0 <= k < |Outside(0, ctx.nCont, cov)| ==> Outside(0, ctx.nCont, cov)[k] in Outside(0, ctx.nCont, cov);
    Outside(0, ctx.nCont, cov)
  }

  /** `discrete_list`: the discrete covariates outside the key. */
  function DiscreteList(ctx: Context, cov: seq<nat>): (dl: seq<nat>)
    ensures AllBelow(dl, ctx.Covariates())
  {
    assert forall k :: 0 <= k < |Outside(ctx.nCont, ctx.Covariates(), cov)| ==>
      Outside(ctx.nCont, ctx.Covariates(), cov)[k] in Outside(ctx.nCont, ctx.Covariates(), cov);
    Outside(ctx.nCont, ctx.Covariates(), cov)
  }

  /** A stratum gets distance columns when some covariate is outside its key. */
  predicate Qualifies(ctx: Context, cov: seq<nat>)
  {
    ContinuousList(ctx, cov) != [] || DiscreteList(ctx, cov) != []
  }

  /** `inverse_weight`: one minus the share of the covariates left outside the key. */
  function InverseWeight(ctx: Context, cov: seq<nat>): real
    requires ctx.Covariates() > 0
  {
    1.0 - (|DiscreteList(ctx, cov)| + |ContinuousList(ctx, cov)|) as real / ctx.Covariates() as real
  }

  /**
   * What the computation needs of a stratum: members that are units, at least
   * one member (the first member's value is the reference), and a treated
   * member whenever a continuous gap has to be measured for a control (the
   * minimum over no treated value is an error in the source).
   */
  predicate Computable(ctx: Context, cov: seq<nat>, members: seq<nat>)
  {
    && ctx.Valid()
    && InRange(ctx.rows, members)
    && members != []
    && (ContinuousList(ctx, cov) != [] && Arm(ctx.rows, members, 0) != [] ==> Arm(ctx.rows, members, 1) != [])
  }

  /**
   * The lookup of a stratum raises: the pair table has no row, hence no
   * `Attribute_1` column, and some control has to be compared on a discrete
   * covariate outside the key.
   */
  predicate LookupFails(ctx: Context, cov: seq<nat>, members: seq<nat>)
    requires InRange(ctx.rows, members)
  {
    ctx.table == [] && DiscreteList(ctx, cov) != [] && Arm(ctx.rows, members, 0) != []
  }

  /** The raw values of continuous covariate c over the treated members. */
  function TreatedValues(ctx: Context, members: seq<nat>, c: nat): (vs: seq<real>)
    requires ctx.Valid() && InRange(ctx.rows, members) && c < ctx.nCont
    ensures |vs| == |Arm(ctx.rows, members, 1)|
  {
    var treated := Arm(ctx.rows, members, 1);
    seq(|treated|, k requires 0 <= k < |treated| => ctx.rows[treated[k]].raw[c])
  }

  /** The gap from x to the nearest of the values ts. */
  function NearestGap(x: real, ts: seq<real>): (r: real)
    requires |ts| > 0
    ensures r >= 0.0
    ensures forall k :: 0 <= k < |ts| ==> r <= Abs(x - ts[k])
    ensures exists k :: 0 <= k < |ts| && r == Abs(x - ts[k])
  {
    var gaps := seq(|ts|, k requires 0 <= k < |ts| => Abs(x - ts[k]));
    var r := MinOf(gaps);
    assert forall k :: 0 <= k < |ts| ==> gaps[k] == Abs(x - ts[k]);
    var k :| 0 <= k < |gaps| && r == gaps[k];
    r
  }

  /** A control's `continuous_distance` over the continuous covariates cl. */
  function ContinuousDistance(ctx: Context, members: seq<nat>, cl: seq<nat>, id: nat): real
    requires ctx.Valid() && InRange(ctx.rows, members) && id < |ctx.rows|
    requires AllBelow(cl, ctx.nCont)
    requires cl != [] ==> Arm(ctx.rows, members, 1) != []
  {
    if cl == [] then 0.0
    else
      var c := cl[|cl| - 1];
      ContinuousDistance(ctx, members, cl[..|cl| - 1], id) + NearestGap(ctx.rows[id].raw[c], TreatedValues(ctx, members, c))
  }

  /** A control's `discrete_distance` over the discrete covariates dl. */
  function DiscreteDistance(ctx: Context, members: seq<nat>, dl: seq<nat>, id: nat): real
    requires ctx.Valid() && InRange(ctx.rows, members) && members != [] && id < |ctx.rows|
    requires AllBelow(dl, ctx.Covariates())
  {
    if dl == [] then 0.0
    else
      var c := dl[|dl| - 1];
      DiscreteDistance(ctx, members, dl[..|dl| - 1], id)
        + Crosstab.Lookup(ctx.table, ctx.rows[members[0]].coarse[c], ctx.rows[id].coarse[c])
  }

  /** A control's `grand_total`: the continuous plus the discrete distance (NaN read as 0). */
  function GrandTotal(ctx: Context, cov: seq<nat>, members: seq<nat>, id: nat): real
    requires Computable(ctx, cov, members) && id in Arm(ctx.rows, members, 0)
  {
    ContinuousDistance(ctx, members, ContinuousList(ctx, cov), id) + DiscreteDistance(ctx, members, DiscreteList(ctx, cov), id)
  }

  /** The grand totals of the controls, in member order. */
  function ControlTotals(ctx: Context, cov: seq<nat>, members: seq<nat>): (g: seq<real>)
    requires Computable(ctx, cov, members)
    ensures |g| == |Arm(ctx.rows, members, 0)|
  {
    var controls := Arm(ctx.rows, members, 0);
    seq(|controls|, j requires 0 <= j < |controls| => GrandTotal(ctx, cov, members, controls[j]))
  }

  /** Inverse min-max normalisation of g between the smallest and the largest grand total. */
  function InverseDistance(g: real, lo: real, hi: real): real
  {
    if hi > lo then 1.0 - (g - lo) / (hi - lo) else 1.0
  }

  /** The distance columns of one member. */
  function MemberScores(ctx: Context, cov: seq<nat>, members: seq<nat>, id: nat): Scores
    requires Computable(ctx, cov, members) && Qualifies(ctx, cov) && id in members
  {
    if ctx.rows[id].treatment == 1 then
      QualifiesCovariates(ctx, cov);
      Scores(None, None, None, InverseWeight(ctx, cov))
    else
      var dl := DiscreteList(ctx, cov);
      var totals := ControlTotals(ctx, cov, members);
      var g := GrandTotal(ctx, cov, members, id);
      Scores(if dl == [] then None else Some(DiscreteDistance(ctx, members, dl, id)),
             Some(ContinuousDistance(ctx, members, ContinuousList(ctx, cov), id)),
             Some(g),
             InverseDistance(g, MinOf(totals), MaxOf(totals)))
  }

  /** The distance columns of a stratum, one entry per member. */
  function StratumScores(ctx: Context, cov: seq<nat>, members: seq<nat>): (s: seq<Scores>)
    requires Computable(ctx, cov, members) && Qualifies(ctx, cov)
    ensures |s| == |members|
  {
    seq(|members|, k requires 0 <= k < |members| => MemberScores(ctx, cov, members, members[k]))
  }

  /** A frame after `unified_distance`: scored when it qualifies, unchanged otherwise. */
  function Scored(ctx: Context, f: Frame): Frame
    requires Computable(ctx, f.covariates, f.members)
  {
    if Qualifies(ctx, f.covariates) then f.(scores := Some(StratumScores(ctx, f.covariates, f.members))) else f
  }

  // ---------------------------------------------------------------------------
  // Properties of the specification

  /** Some covariate lies outside the key. */
  lemma QualifiesCovariates(ctx: Context, cov: seq<nat>)
    requires Qualifies(ctx, cov)
    ensures ctx.Covariates() > 0
  {
  }

  lemma {:induction false} OutsideSplit(lo: nat, mid: nat, hi: nat, cov: seq<nat>)
    requires lo <= mid <= hi
    ensures Outside(lo, mid, cov) + Outside(mid, hi, cov) == Outside(lo, hi, cov)
  {
    if hi > mid {
      OutsideSplit(lo, mid, hi - 1, cov);
    }
  }

  lemma {:induction false} OutsideMissing(lo: nat, hi: nat, cov: seq<nat>, c: nat)
    requires lo <= c < hi && c in cov
    ensures |Outside(lo, hi, cov)| <= hi - lo - 1
  {
    var r := Outside(lo, hi - 1, cov);
    if hi - 1 == c {
      assert Outside(lo, hi, cov) == r;
    } else {
      OutsideMissing(lo, hi - 1, cov, c);
      assert |Outside(lo, hi, cov)| <= |r| + 1;
    }
  }

  /** A stratum qualifies exactly when some covariate is outside its key. */
  lemma QualifiesIff(ctx: Context, cov: seq<nat>)
    ensures Qualifies(ctx, cov) <==> exists c: nat :: c < ctx.Covariates() && c !in cov
  {
    if c: nat :| c < ctx.Covariates() && c !in cov {
      if c < ctx.nCont {
        assert c in ContinuousList(ctx, cov);
      } else {
        assert c in DiscreteList(ctx, cov);
      }
    }
    if ContinuousList(ctx, cov) != [] {
      assert ContinuousList(ctx, cov)[0] in ContinuousList(ctx, cov);
    } else if DiscreteList(ctx, cov) != [] {
      assert DiscreteList(ctx, cov)[0] in DiscreteList(ctx, cov);
    }
  }

  /**
   * When the key holds a covariate and leaves another outside, the treated
   * members' inverse weight lies between 1/n and 1 - 1/n for n covariates.
   */
  lemma InverseWeightBounds(ctx: Context, cov: seq<nat>, c: nat)
    requires Qualifies(ctx, cov) && c in cov && c < ctx.Covariates()
    ensures 1.0 / ctx.Covariates() as real <= InverseWeight(ctx, cov) <= 1.0 - 1.0 / ctx.Covariates() as real
  {
    var n := ctx.Covariates();
    OutsideSplit(0, ctx.nCont, n, cov);
    OutsideMissing(0, n, cov, c);
    var m := |DiscreteList(ctx, cov)| + |ContinuousList(ctx, cov)|;
    assert 1 <= m <= n - 1;
    FractionBounds(m as real, n as real);
  }

  lemma FractionBounds(m: real, n: real)
    requires 1.0 <= m <= n - 1.0
    ensures 1.0 / n <= 1.0 - m / n <= 1.0 - 1.0 / n
  {
    assert m / n <= (n - 1.0) / n;
    assert (n - 1.0) / n == 1.0 - 1.0 / n;
  }

  /** Continuous distances are never negative. */
  lemma {:induction false} ContinuousDistanceNonNegative(ctx: Context, members: seq<nat>, cl: seq<nat>, id: nat)
    requires ctx.Valid() && InRange(ctx.rows, members) && id < |ctx.rows|
    requires AllBelow(cl, ctx.nCont)
    requires cl != [] ==> Arm(ctx.rows, members, 1) != []
    ensures ContinuousDistance(ctx, members, cl, id) >= 0.0
  {
    if cl != [] {
      ContinuousDistanceNonNegative(ctx, members, cl[..|cl| - 1], id);
    }
  }

  /** A control with a treated member of the same raw value on every continuous covariate is at distance 0. */
  lemma {:induction false} ContinuousDistanceTwin(ctx: Context, members: seq<nat>, cl: seq<nat>, id: nat)
    requires ctx.Valid() && InRange(ctx.rows, members) && id < |ctx.rows|
    requires AllBelow(cl, ctx.nCont)
    requires cl != [] ==> Arm(ctx.rows, members, 1) != []
    requires forall k :: 0 <= k < |cl| ==> exists t :: t in Arm(ctx.rows, members, 1) && ctx.rows[t].raw[cl[k]] == ctx.rows[id].raw[cl[k]]
    ensures ContinuousDistance(ctx, members, cl, id) == 0.0
  {
    if cl != [] {
      var c := cl[|cl| - 1];
      ContinuousDistanceTwin(ctx, members, cl[..|cl| - 1], id);
      var t :| t in Arm(ctx.rows, members, 1) && ctx.rows[t].raw[c] == ctx.rows[id].raw[c];
      var treated := Arm(ctx.rows, members, 1);
      var k :| 0 <= k < |treated| && treated[k] == t;
      assert TreatedValues(ctx, members, c)[k] == ctx.rows[id].raw[c];
    }
  }

  /** The discrete columns of the pair table: covariates nCont .. nCont + nDisc - 1. */
  function DiscreteColumns(ctx: Context): (d: seq<nat>)
    ensures NoDuplicates(d) && forall c :: c in d <==> ctx.nCont <= c < ctx.Covariates()
  {
    Outside(ctx.nCont, ctx.Covariates(), [])
  }

  lemma DiscreteColumnsOk(ctx: Context)
    requires ctx.Valid()
    ensures Crosstab.ColumnsOk(ctx.rows, DiscreteColumns(ctx))
  {
    var d := DiscreteColumns(ctx);
    forall j | 0 <= j < |d| ensures Crosstab.ColumnOk(ctx.rows, d[j]) {
      assert d[j] in d;
    }
  }

  /** The context's table is the pair table of its discrete columns. */
  predicate TableOfColumns(ctx: Context)
    requires ctx.Valid()
  {
    DiscreteColumnsOk(ctx);
    ctx.table == Crosstab.PairTable(ctx.rows, DiscreteColumns(ctx), DiscreteColumns(ctx))
  }

  /** The pair table has no row exactly when every discrete column holds one value only. */
  lemma TableEmpty(ctx: Context)
    requires ctx.Valid() && TableOfColumns(ctx)
    ensures ctx.table == [] <==> forall d :: ctx.nCont <= d < ctx.Covariates() ==> Crosstab.Constant(ctx.rows, d)
  {
    DiscreteColumnsOk(ctx);
    var disc := DiscreteColumns(ctx);
    Crosstab.PairTableEmpty(ctx.rows, disc, disc);
    if Crosstab.AllConstant(ctx.rows, disc) {
      forall d | ctx.nCont <= d < ctx.Covariates() ensures Crosstab.Constant(ctx.rows, d) {
        assert d in disc;
      }
    } else {
      var j :| 0 <= j < |disc| && !Crosstab.Constant(ctx.rows, disc[j]);
      assert disc[j] in disc;
    }
  }

  /** With the pair table of the discrete columns, a discrete distance lies between 0 and the number of columns compared. */
  lemma {:induction false} DiscreteDistanceBounds(ctx: Context, members: seq<nat>, dl: seq<nat>, id: nat)
    requires ctx.Valid() && InRange(ctx.rows, members) && members != [] && id < |ctx.rows|
    requires AllBelow(dl, ctx.Covariates())
    requires TableOfColumns(ctx)
    ensures 0.0 <= DiscreteDistance(ctx, members, dl, id) <= |dl| as real
  {
    if dl != [] {
      var c := dl[|dl| - 1];
      DiscreteDistanceBounds(ctx, members, dl[..|dl| - 1], id);
      DiscreteColumnsOk(ctx);
      Crosstab.LookupBounds(ctx.rows, DiscreteColumns(ctx), ctx.rows[members[0]].coarse[c], ctx.rows[id].coarse[c]);
    }
  }

  /** A control with the reference member's coarse values on every compared discrete covariate is at distance 0. */
  lemma {:induction false} DiscreteDistanceSame(ctx: Context, members: seq<nat>, dl: seq<nat>, id: nat)
    requires ctx.Valid() && InRange(ctx.rows, members) && members != [] && id < |ctx.rows|
    requires AllBelow(dl, ctx.Covariates())
    requires TableOfColumns(ctx)
    requires forall k :: 0 <= k < |dl| ==> ctx.rows[id].coarse[dl[k]] == ctx.rows[members[0]].coarse[dl[k]]
    ensures DiscreteDistance(ctx, members, dl, id) == 0.0
  {
    if dl != [] {
      var c := dl[|dl| - 1];
      DiscreteDistanceSame(ctx, members, dl[..|dl| - 1], id);
      DiscreteColumnsOk(ctx);
      Crosstab.LookupSameValue(ctx.rows, DiscreteColumns(ctx), ctx.rows[id].coarse[c]);
    }
  }

  /** Grand totals between lo and hi normalise into [0, 1]. */
  lemma InverseDistanceBounds(g: real, lo: real, hi: real)
    requires lo <= g <= hi
    ensures 0.0 <= InverseDistance(g, lo, hi) <= 1.0
  {
    if hi > lo {
      assert 0.0 <= (g - lo) / (hi - lo) <= 1.0 by {
        DivBounds(g - lo, hi - lo);
      }
    }
  }

  /** A smaller grand total never gets a smaller inverse distance. */
  lemma InverseDistanceAntitone(g1: real, g2: real, lo: real, hi: real)
    requires g1 <= g2
    ensures InverseDistance(g1, lo, hi) >= InverseDistance(g2, lo, hi)
  {
    if hi > lo {
      assert (g1 - lo) / (hi - lo) <= (g2 - lo) / (hi - lo);
    }
  }

  /** The nearest control gets 1; when the totals spread, the farthest gets 0. */
  lemma InverseDistanceExtremes(lo: real, hi: real)
    ensures InverseDistance(lo, lo, hi) == 1.0
    ensures hi > lo ==> InverseDistance(hi, lo, hi) == 0.0
  {
    if hi > lo {
      assert (hi - lo) / (hi - lo) == 1.0;
    }
  }

  /** A control's inverse distance lies in [0, 1]. */
  lemma ControlInverseBounds(ctx: Context, cov: seq<nat>, members: seq<nat>, id: nat)
    requires Computable(ctx, cov, members) && Qualifies(ctx, cov) && id in Arm(ctx.rows, members, 0)
    ensures 0.0 <= MemberScores(ctx, cov, members, id).inverse <= 1.0
  {
    var controls := Arm(ctx.rows, members, 0);
    var totals := ControlTotals(ctx, cov, members);
    var j :| 0 <= j < |controls| && controls[j] == id;
    assert totals[j] == GrandTotal(ctx, cov, members, id);
    InverseDistanceBounds(totals[j], MinOf(totals), MaxOf(totals));
  }

  /** Some control of a stratum with controls has inverse distance 1. */
  lemma NearestControl(ctx: Context, cov: seq<nat>, members: seq<nat>)
    requires Computable(ctx, cov, members) && Qualifies(ctx, cov) && Arm(ctx.rows, members, 0) != []
    ensures exists id :: id in Arm(ctx.rows, members, 0) && MemberScores(ctx, cov, members, id).inverse == 1.0
  {
    var controls := Arm(ctx.rows, members, 0);
    var totals := ControlTotals(ctx, cov, members);
    var j :| 0 <= j < |totals| && totals[j] == MinOf(totals);
    assert controls[j] in controls;
    InverseDistanceExtremes(MinOf(totals), MaxOf(totals));
    assert MemberScores(ctx, cov, members, controls[j]).inverse == 1.0;
  }

  /** Treated members get no distance and the stratum's inverse weight; controls get both distances summed in the grand total. */
  lemma ScoresLayout(ctx: Context, cov: seq<nat>, members: seq<nat>, id: nat)
    requires Computable(ctx, cov, members) && Qualifies(ctx, cov) && id in members
    ensures var s := MemberScores(ctx, cov, members, id);
      if ctx.rows[id].treatment == 1 then
        s.discrete.None? && s.continuous.None? && s.grandTotal.None?
      else
        && s.continuous.Some? && s.grandTotal.Some?
        && (s.discrete.Some? <==> DiscreteList(ctx, cov) != [])
        && s.grandTotal.value == s.continuous.value + s.discrete.GetOr(0.0)
  {
  }

  // ---------------------------------------------------------------------------
  // The computation

  /** Position bookkeeping for the arms: extending the prefix by one member. */
  lemma ArmStep(rows: seq<Unit>, ids: seq<nat>, k: nat, t: Treatment)
    requires InRange(rows, ids) && k < |ids|
    ensures InRange(rows, ids[..k]) && InRange(rows, ids[..k + 1])
    ensures Arm(rows, ids[..k + 1], t) == Arm(rows, ids[..k], t) + (if rows[ids[k]].treatment == t then [ids[k]] else [])
  {
    assert ids[..k + 1][..k] == ids[..k];
  }

  lemma InRangeAppend(rows: seq<Unit>, a: seq<nat>, b: seq<nat>)
    requires InRange(rows, a) && InRange(rows, b)
    ensures InRange(rows, a + b)
  {
    forall k | 0 <= k < |a + b| ensures (a + b)[k] < |rows| {
      if k >= |a| {
        assert (a + b)[k] == b[k - |a|];
      }
    }
  }

  /** The arm of a concatenation is the concatenation of the arms. */
  lemma {:induction false} ArmAppend(rows: seq<Unit>, a: seq<nat>, b: seq<nat>, t: Treatment)
    requires InRange(rows, a) && InRange(rows, b)
    ensures InRange(rows, a + b) && Arm(rows, a + b, t) == Arm(rows, a, t) + Arm(rows, b, t)
  {
    InRangeAppend(rows, a, b);
    if b == [] {
      assert a + b == a;
    } else {
      var m := |b| - 1;
      var b0 := b[..m];
      assert InRange(rows, b0);
      assert (a + b)[..|a + b| - 1] == a + b0;
      assert (a + b)[|a + b| - 1] == b[m];
      ArmAppend(rows, a, b0, t);
      var last := if rows[b[m]].treatment == t then [b[m]] else [];
      assert Arm(rows, a + b, t) == Arm(rows, a + b0, t) + last;
      assert Arm(rows, b, t) == Arm(rows, b0, t) + last;
      assert Arm(rows, a, t) + Arm(rows, b0, t) + last == Arm(rows, a, t) + (Arm(rows, b0, t) + last);
    }
  }

  /** The arm of one member. */
  lemma ArmSingle(rows: seq<Unit>, x: nat, t: Treatment)
    requires x < |rows|
    ensures InRange(rows, [x]) && Arm(rows, [x], t) == if rows[x].treatment == t then [x] else []
  {
    assert [x][..0] == [];
  }

  /** The entry just after a prefix. */
  lemma IndexAfter(front: seq<nat>, x: nat, rest: seq<nat>)
    ensures |front| < |front + ([x] + rest)| && (front + ([x] + rest))[|front|] == x
  {
  }

  /** The member at position k is the entry of its arm after those of the earlier members. */
  lemma ArmPosition(rows: seq<Unit>, ids: seq<nat>, k: nat, t: Treatment)
    requires InRange(rows, ids) && k < |ids| && rows[ids[k]].treatment == t
    ensures InRange(rows, ids[..k])
    ensures |Arm(rows, ids[..k], t)| < |Arm(rows, ids, t)| && Arm(rows, ids, t)[|Arm(rows, ids[..k], t)|] == ids[k]
  {
    var front, back := ids[..k], ids[k..];
    assert InRange(rows, front) && InRange(rows, back) && InRange(rows, back[1..]);
    assert ids == front + back;
    assert back == [ids[k]] + back[1..];
    ArmAppend(rows, front, back, t);
    ArmAppend(rows, [ids[k]], back[1..], t);
    ArmSingle(rows, ids[k], t);
    IndexAfter(Arm(rows, front, t), ids[k], Arm(rows, back[1..], t));
  }

  /** The running continuous totals of the controls, column after column. */
  method ContinuousTotals(ctx: Context, cov: seq<nat>, members: seq<nat>) returns (total: seq<real>)
    requires Computable(ctx, cov, members)
    ensures |total| == |Arm(ctx.rows, members, 0)|
    ensures forall j :: 0 <= j < |total| ==>
      total[j] == ContinuousDistance(ctx, members, ContinuousList(ctx, cov), Arm(ctx.rows, members, 0)[j])
  {
    var cl := ContinuousList(ctx, cov);
    var controls := Arm(ctx.rows, members, 0);
    total := Repeat(0.0, |controls|);
    for n := 0 to |cl|
      invariant |total| == |controls|
      invariant forall j :: 0 <= j < |controls| ==> total[j] == ContinuousDistance(ctx, members, cl[..n], controls[j])
    {
      var c := cl[n];
      var treated := TreatedValues(ctx, members, c);
      var distances := seq(|controls|, j requires 0 <= j < |controls| => NearestGap(ctx.rows[controls[j]].raw[c], treated));
      assert cl[..n + 1][..n] == cl[..n];
      total := seq(|controls|, j requires 0 <= j < |controls| => total[j] + distances[j]);
    }
    assert cl[..|cl|] == cl;
  }

  /**
   * The table distance from `reference` to each control's value of discrete
   * column c.  None when the table has no columns: the selection raises at
   * the first control.
   */
  method LookupColumn(ctx: Context, controls: seq<nat>, c: nat, reference: int) returns (distances: Option<seq<real>>)
    requires ctx.Valid() && InRange(ctx.rows, controls) && c < ctx.Covariates()
    ensures distances.None? <==> ctx.table == [] && controls != []
    ensures distances.Some? ==> |distances.value| == |controls| && forall p :: 0 <= p < |controls| ==>
      distances.value[p] == Crosstab.Lookup(ctx.table, reference, ctx.rows[controls[p]].coarse[c])
  {
    var found := [];
    for j := 0 to |controls|
      invariant j > 0 ==> ctx.table != []
      invariant |found| == j
      invariant forall p :: 0 <= p < j ==> found[p] == Crosstab.Lookup(ctx.table, reference, ctx.rows[controls[p]].coarse[c])
    {
      var control := ctx.rows[controls[j]].coarse[c];
      var d := Crosstab.Read(ctx.table, reference, control);
      if d.None? {
        return None;
      }
      found := found + [d.value];
    }
    distances := Some(found);
  }

  /** The running discrete totals of the controls, column after column; None when the lookup raises. */
  method DiscreteTotals(ctx: Context, cov: seq<nat>, members: seq<nat>) returns (total: Option<seq<real>>)
    requires Computable(ctx, cov, members)
    ensures total.None? <==> LookupFails(ctx, cov, members)
    ensures total.Some? ==> |total.value| == |Arm(ctx.rows, members, 0)| && forall j :: 0 <= j < |total.value| ==>
      total.value[j] == DiscreteDistance(ctx, members, DiscreteList(ctx, cov), Arm(ctx.rows, members, 0)[j])
  {
    var dl := DiscreteList(ctx, cov);
    var controls := Arm(ctx.rows, members, 0);
    var sums := Repeat(0.0, |controls|);
    for n := 0 to |dl|
      invariant n > 0 ==> !(ctx.table == [] && controls != [])
      invariant |sums| == |controls|
      invariant forall j :: 0 <= j < |controls| ==> sums[j] == DiscreteDistance(ctx, members, dl[..n], controls[j])
    {
      var c := dl[n];
      var reference := ctx.rows[members[0]].coarse[c];
      var distances := LookupColumn(ctx, controls, c, reference);
      if distances.None? {
        return None;
      }
      DiscreteStep(ctx, members, dl, n, controls, sums, distances.value);
      sums := seq(|controls|, j requires 0 <= j < |controls| => sums[j] + distances.value[j]);
    }
    assert dl[..|dl|] == dl;
    total := Some(sums);
  }

  /** Adding the looked-up distances of column dl[n] to the totals over dl[..n] gives the totals over dl[..n + 1]. */
  lemma DiscreteStep(ctx: Context, members: seq<nat>, dl: seq<nat>, n: nat, controls: seq<nat>, sums: seq<real>, column: seq<real>)
    requires ctx.Valid() && InRange(ctx.rows, members) && members != [] && AllBelow(dl, ctx.Covariates()) && n < |dl|
    requires InRange(ctx.rows, controls) && |sums| == |controls| && |column| == |controls|
    requires forall j :: 0 <= j < |controls| ==> sums[j] == DiscreteDistance(ctx, members, dl[..n], controls[j])
    requires forall j :: 0 <= j < |controls| ==>
      column[j] == Crosstab.Lookup(ctx.table, ctx.rows[members[0]].coarse[dl[n]], ctx.rows[controls[j]].coarse[dl[n]])
    ensures forall j :: 0 <= j < |controls| ==> sums[j] + column[j] == DiscreteDistance(ctx, members, dl[..n + 1], controls[j])
  {
    assert dl[..n + 1][..n] == dl[..n];
  }

  /**
   * The continuous, discrete and grand totals of the controls, in member
   * order; `ok` is false when the discrete lookup raises.
   */
  method ControlColumns(ctx: Context, cov: seq<nat>, members: seq<nat>)
    returns (ok: bool, cont: seq<real>, disc: seq<real>, grand: seq<real>)
    requires Computable(ctx, cov, members)
    ensures ok <==> !LookupFails(ctx, cov, members)
    ensures ok ==> |cont| == |disc| == |Arm(ctx.rows, members, 0)|
    ensures ok ==> forall j :: 0 <= j < |cont| ==>
      && cont[j] == ContinuousDistance(ctx, members, ContinuousList(ctx, cov), Arm(ctx.rows, members, 0)[j])
      && disc[j] == DiscreteDistance(ctx, members, DiscreteList(ctx, cov), Arm(ctx.rows, members, 0)[j])
    ensures ok ==> grand == ControlTotals(ctx, cov, members)
  {
    var controls := Arm(ctx.rows, members, 0);
    cont := ContinuousTotals(ctx, cov, members);
    var totals := DiscreteTotals(ctx, cov, members);
    if totals.None? {
      return false, cont, [], [];
    }
    ok, disc := true, totals.value;
    grand := seq(|controls|, j requires 0 <= j < |controls| => cont[j] + disc[j]);
    forall j | 0 <= j < |controls| ensures grand[j] == ControlTotals(ctx, cov, members)[j] {
      assert controls[j] in controls;
    }
  }

  /** The entry the scoring loop writes for a treated member is its specified entry. */
  lemma TreatedEntry(ctx: Context, cov: seq<nat>, members: seq<nat>, k: nat, inverseWeight: real)
    requires Computable(ctx, cov, members) && Qualifies(ctx, cov) && k < |members|
    requires ctx.rows[members[k]].treatment == 1
    requires inverseWeight == 1.0 - (|DiscreteList(ctx, cov)| + |ContinuousList(ctx, cov)|) as real / ctx.Covariates() as real
    ensures StratumScores(ctx, cov, members)[k] == Scores(None, None, None, inverseWeight)
  {
    assert members[k] in members;
  }

  /** The entry the scoring loop writes for the control at arm position j is its specified entry. */
  lemma ControlEntry(ctx: Context, cov: seq<nat>, members: seq<nat>, k: nat, j: nat, cont: real, disc: real, grand: seq<real>)
    requires Computable(ctx, cov, members) && Qualifies(ctx, cov) && k < |members|
    requires j < |Arm(ctx.rows, members, 0)| && Arm(ctx.rows, members, 0)[j] == members[k]
    requires cont == ContinuousDistance(ctx, members, ContinuousList(ctx, cov), members[k])
    requires disc == DiscreteDistance(ctx, members, DiscreteList(ctx, cov), members[k])
    requires grand == ControlTotals(ctx, cov, members)
    ensures StratumScores(ctx, cov, members)[k]
         == Scores(if DiscreteList(ctx, cov) == [] then None else Some(disc), Some(cont), Some(grand[j]),
                   InverseDistance(grand[j], MinOf(grand), MaxOf(grand)))
  {
    assert members[k] in members;
    assert Arm(ctx.rows, members, 0)[j] in Arm(ctx.rows, members, 0);
  }

  /** How many of the first k members have treatment t: the position member k takes among them. */
  function Rank(rows: seq<Unit>, ids: seq<nat>, k: nat, t: Treatment): (n: nat)
    requires InRange(rows, ids) && k <= |ids|
    ensures n <= k
  {
    assert InRange(rows, ids[..k]) by {
      forall i | 0 <= i < k ensures ids[..k][i] < |rows| {
        assert ids[..k][i] == ids[i];
      }
    }
    |Arm(rows, ids[..k], t)|
  }

  /** The rank grows by one past each member with treatment t, and only there. */
  lemma RankStep(rows: seq<Unit>, ids: seq<nat>, k: nat, t: Treatment)
    requires InRange(rows, ids) && k < |ids|
    ensures Rank(rows, ids, k + 1, t) == Rank(rows, ids, k, t) + (if rows[ids[k]].treatment == t then 1 else 0)
  {
    ArmStep(rows, ids, k, t);
  }

  /** A member with treatment t sits in its arm at its rank. */
  lemma RankPosition(rows: seq<Unit>, ids: seq<nat>, k: nat, t: Treatment)
    requires InRange(rows, ids) && k < |ids| && rows[ids[k]].treatment == t
    ensures Rank(rows, ids, k, t) < |Arm(rows, ids, t)| && Arm(rows, ids, t)[Rank(rows, ids, k, t)] == ids[k]
  {
    ArmPosition(rows, ids, k, t);
  }

  /**
   * The entry a masked assignment `df.loc[df[treatment] == 0, col] = ys`
   * leaves at member k of a column that holds x elsewhere: the next of ys
   * for a control, x for a treated unit.
   */
  function Placed<T>(rows: seq<Unit>, ids: seq<nat>, x: T, ys: seq<T>, k: nat): T
    requires InRange(rows, ids) && |ys| == |Arm(rows, ids, 0)| && k < |ids|
  {
    if rows[ids[k]].treatment == 1 then x
    else
      RankPosition(rows, ids, k, 0);
      ys[Rank(rows, ids, k, 0)]
  }

  /** The masked assignment, member by member. */
  method Scatter<T>(rows: seq<Unit>, ids: seq<nat>, x: T, ys: seq<T>) returns (r: seq<T>)
    requires InRange(rows, ids) && |ys| == |Arm(rows, ids, 0)|
    ensures |r| == |ids| && forall k :: 0 <= k < |ids| ==> r[k] == Placed(rows, ids, x, ys, k)
  {
    r := [];
    var j := 0;
    for k := 0 to |ids|
      invariant j == Rank(rows, ids, k, 0)
      invariant |r| == k && forall i :: 0 <= i < k ==> r[i] == Placed(rows, ids, x, ys, i)
    {
      RankStep(rows, ids, k, 0);
      if rows[ids[k]].treatment == 1 {
        r := r + [x];
      } else {
        RankPosition(rows, ids, k, 0);
        r := r + [ys[j]];
        j := j + 1;
      }
    }
  }

  /** The columns of the controls, in arm order; the discrete distance is NaN without discrete columns. */
  function ControlEntries(discrete: bool, cont: seq<real>, disc: seq<real>, grand: seq<real>, lo: real, hi: real): (ys: seq<Scores>)
    requires |cont| == |grand| && |disc| == |grand|
    ensures |ys| == |grand|
    ensures forall p :: 0 <= p < |grand| ==>
      ys[p] == Scores(if discrete then Some(disc[p]) else None, Some(cont[p]), Some(grand[p]), InverseDistance(grand[p], lo, hi))
  {
    seq(|grand|, p requires 0 <= p < |grand| =>
      Scores(if discrete then Some(disc[p]) else None, Some(cont[p]), Some(grand[p]), InverseDistance(grand[p], lo, hi)))
  }

  /**
   * Columns that scatter the treated entry and the control entries over the
   * members are the columns `unified_distance` specifies.
   */
  lemma PlacedScores(ctx: Context, cov: seq<nat>, members: seq<nat>, inverseWeight: real, ys: seq<Scores>,
                     cont: seq<real>, disc: seq<real>, grand: seq<real>, lo: real, hi: real, scores: seq<Scores>)
    requires Computable(ctx, cov, members) && Qualifies(ctx, cov)
    requires inverseWeight == 1.0 - (|DiscreteList(ctx, cov)| + |ContinuousList(ctx, cov)|) as real / ctx.Covariates() as real
    requires |cont| == |disc| == |Arm(ctx.rows, members, 0)|
    requires forall p :: 0 <= p < |cont| ==>
      && cont[p] == ContinuousDistance(ctx, members, ContinuousList(ctx, cov), Arm(ctx.rows, members, 0)[p])
      && disc[p] == DiscreteDistance(ctx, members, DiscreteList(ctx, cov), Arm(ctx.rows, members, 0)[p])
    requires grand == ControlTotals(ctx, cov, members)
    requires grand != [] ==> lo == MinOf(grand) && hi == MaxOf(grand)
    requires ys == ControlEntries(DiscreteList(ctx, cov) != [], cont, disc, grand, lo, hi)
    requires |scores| == |members|
    requires forall k :: 0 <= k < |members| ==> scores[k] == Placed(ctx.rows, members, Scores(None, None, None, inverseWeight), ys, k)
    ensures scores == StratumScores(ctx, cov, members)
  {
    forall k | 0 <= k < |members| ensures scores[k] == StratumScores(ctx, cov, members)[k] {
      if ctx.rows[members[k]].treatment == 1 {
        TreatedEntry(ctx, cov, members, k, inverseWeight);
      } else {
        RankPosition(ctx.rows, members, k, 0);
        var j := Rank(ctx.rows, members, k, 0);
        ControlEntry(ctx, cov, members, k, j, cont[j], disc[j], grand);
      }
    }
  }

  /** The distance columns of one qualifying stratum, or None when its discrete lookup raises. */
  method StratumDistances(ctx: Context, cov: seq<nat>, members: seq<nat>) returns (scores: Option<seq<Scores>>)
    requires Computable(ctx, cov, members) && Qualifies(ctx, cov)
    ensures scores == if LookupFails(ctx, cov, members) then None else Some(StratumScores(ctx, cov, members))
  {
    var dl := DiscreteList(ctx, cov);
    var cl := ContinuousList(ctx, cov);
    var inverseWeight := 1.0 - (|dl| + |cl|) as real / ctx.Covariates() as real;
    var controls := Arm(ctx.rows, members, 0);
    var ok, cont, disc, grand := ControlColumns(ctx, cov, members);
    if !ok {
      return None;
    }
    var lo, hi := 0.0, 0.0;
    if controls != [] {
      lo, hi := MinOf(grand), MaxOf(grand);
    }
    var entries := ControlEntries(dl != [], cont, disc, grand, lo, hi);
    var placed := Scatter(ctx.rows, members, Scores(None, None, None, inverseWeight), entries);
    PlacedScores(ctx, cov, members, inverseWeight, entries, cont, disc, grand, lo, hi, placed);
    scores := Some(placed);
  }



  /** Every frame is ready for `unified_distance`. */
  predicate AllComputable(ctx: Context, fs: seq<Frame>)
  {
    forall f :: 0 <= f < |fs| ==> Computable(ctx, fs[f].covariates, fs[f].members)
  }

  /**
   * The position of the first frame whose discrete lookup raises, or the
   * number of frames when none does.
   */
  function FirstFailure(ctx: Context, fs: seq<Frame>): (e: nat)
    requires AllComputable(ctx, fs)
    ensures e <= |fs|
    ensures e < |fs| ==> LookupFails(ctx, fs[e].covariates, fs[e].members)
    ensures forall g :: 0 <= g < e ==> !LookupFails(ctx, fs[g].covariates, fs[g].members)
  {
    if fs == [] then 0
    else if LookupFails(ctx, fs[0].covariates, fs[0].members) then 0
    else 1 + FirstFailure(ctx, fs[1..])
  }

  /**
   * Over frames that all have a control, some lookup raises exactly when the
   * pair table has no row and some frame's key leaves out a discrete
   * covariate.
   */
  lemma FailsIff(ctx: Context, fs: seq<Frame>)
    requires AllComputable(ctx, fs)
    requires forall f :: 0 <= f < |fs| ==> Arm(ctx.rows, fs[f].members, 0) != []
    ensures FirstFailure(ctx, fs) < |fs| <==>
      ctx.table == [] && exists f, d :: 0 <= f < |fs| && ctx.nCont <= d < ctx.Covariates() && d !in fs[f].covariates
  {
    var e := FirstFailure(ctx, fs);
    if e < |fs| {
      var dl := DiscreteList(ctx, fs[e].covariates);
      assert dl[0] in dl;
    }
    if ctx.table == [] && exists f, d :: 0 <= f < |fs| && ctx.nCont <= d < ctx.Covariates() && d !in fs[f].covariates {
      var f, d :| 0 <= f < |fs| && ctx.nCont <= d < ctx.Covariates() && d !in fs[f].covariates;
      assert d in DiscreteList(ctx, fs[f].covariates);
      assert LookupFails(ctx, fs[f].covariates, fs[f].members);
    }
  }

  /** A frame before the first failure raises exactly when it is the failing one. */
  lemma FailureAt(ctx: Context, fs: seq<Frame>, f: nat)
    requires AllComputable(ctx, fs) && f <= FirstFailure(ctx, fs) && f < |fs|
    ensures Computable(ctx, fs[f].covariates, fs[f].members)
    ensures LookupFails(ctx, fs[f].covariates, fs[f].members) <==> f == FirstFailure(ctx, fs)
  {
  }

  /** One frame as `unified_distance` leaves it; `ok` is false when its lookup raises. */
  method ScoreFrame(ctx: Context, frame: Frame) returns (ok: bool, scored: Frame)
    requires Computable(ctx, frame.covariates, frame.members)
    ensures ok <==> !LookupFails(ctx, frame.covariates, frame.members)
    ensures ok ==> scored == Scored(ctx, frame)
  {
    if !Qualifies(ctx, frame.covariates) {
      return true, frame;
    }
    var scores := StratumDistances(ctx, frame.covariates, frame.members);
    if scores.None? {
      return false, frame;
    }
    return true, frame.(scores := Some(scores.value));
  }

  /**
   * `unified_distance`: scores the qualifying stratum frames in place, in
   * order, and raises (`ok` false) at the first frame whose discrete lookup
   * fails.  The frames before it keep their new columns; it and the later
   * frames are unchanged.
   */
  method UnifiedDistance(ctx: Context, frames: array<Frame>) returns (ok: bool)
    requires AllComputable(ctx, frames[..])
    modifies frames
    ensures ok <==> FirstFailure(ctx, old(frames[..])) == frames.Length
    ensures forall f :: 0 <= f < FirstFailure(ctx, old(frames[..])) ==> frames[f] == Scored(ctx, old(frames[..])[f])
    ensures forall f :: FirstFailure(ctx, old(frames[..])) <= f < frames.Length ==> frames[f] == old(frames[..])[f]
  {
    ghost var fs := frames[..];
    ghost var e := FirstFailure(ctx, fs);
    ok := true;
    for f := 0 to frames.Length
      invariant f <= e
      invariant forall g :: 0 <= g < f ==> frames[g] == Scored(ctx, fs[g])
      invariant forall g :: f <= g < frames.Length ==> frames[g] == fs[g]
    {
      FailureAt(ctx, fs, f);
      var current := frames[f];
      assert current == fs[f];
      var done, frame := ScoreFrame(ctx, current);
      if !done {
        ok := false;
        return;
      }
      assert frame == Scored(ctx, fs[f]);
      frames[f] := frame;
    }
  }

}
