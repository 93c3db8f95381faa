/**
 * The normalisation at the end of `confounder_importance_conti`
 * (tim/importance.py).  The two ridge regressions are not modelled: their
 * coefficient vectors are inputs.  The outcome model has one coefficient per
 * column of the frame other than the outcome, the treatment column included;
 * the treatment model has one per covariate column.  A covariate's score is
 * |a| + |b|.  The treatment column has no b, so its sum is NaN: it takes no
 * part in the maximum and is dropped at the end.  Scores are divided by their
 * maximum, or all set to 0 when the maximum is 0.
 */
module Importance {
  import opened Reals

  /** A column of the frame other than the outcome: the treatment or covariate `index`. */
  datatype Column = TreatmentColumn | Covariate(index: nat)

  /** The covariate columns, in frame order. */
  function Keys(cols: seq<Column>): (keys: seq<nat>)
    ensures |keys| <= |cols|
  {
    if cols == [] then []
    else
      var rest := Keys(cols[1..]);
      if cols[0].Covariate? then [cols[0].index] + rest else rest
  }

  /**
   * `abs(outcome_coefficients + treatment_coefficients)` without the
   * treatment's NaN entry: a[k] belongs to column k, the b entries to the
   * covariate columns in order.
   */
  function Combined(cols: seq<Column>, a: seq<real>, b: seq<real>): (r: seq<(nat, real)>)
    requires |a| == |cols| && |b| == |Keys(cols)|
    ensures |r| == |Keys(cols)|
  {
    if cols == [] then []
    else if cols[0].Covariate? then [(cols[0].index, Abs(Abs(a[0]) + Abs(b[0])))] + Combined(cols[1..], a[1..], b[1..])
    else Combined(cols[1..], a[1..], b)
  }

  /** The second components. */
  function Scores(s: seq<(nat, real)>): (r: seq<real>)
    ensures |r| == |s| && forall k :: 0 <= k < |s| ==> r[k] == s[k].1
  {
    seq(|s|, k requires 0 <= k < |s| => s[k].1)
  }

  /** Division by the maximum, or zeros when the maximum is 0 (no division then). */
  function Normalised(s: seq<real>): (r: seq<real>)
    ensures |r| == |s|
  {
    if s == [] then []
    else
      var m := MaxOf(s);
      if m != 0.0 then seq(|s|, k requires 0 <= k < |s| => s[k] / m)
      else Repeat(0.0, |s|)
  }

  /** `confounder_importance_conti`'s result, as (covariate, score) entries in frame order. */
  function ConfounderImportance(cols: seq<Column>, a: seq<real>, b: seq<real>): (r: seq<(nat, real)>)
    requires |a| == |cols| && |b| == |Keys(cols)|
    ensures |r| == |Keys(cols)|
    ensures forall k :: 0 <= k < |r| ==> r[k].0 == Keys(cols)[k]
  {
    var c := Combined(cols, a, b);
    CombinedKeys(cols, a, b);
    var n := Normalised(Scores(c));
    seq(|c|, k requires 0 <= k < |c| => (c[k].0, n[k]))
  }

  // ---------------------------------------------------------------------------
  // Properties

  /** The combined entries are keyed by the covariate columns in order, and no score is negative. */
  lemma {:induction false} CombinedKeys(cols: seq<Column>, a: seq<real>, b: seq<real>)
    requires |a| == |cols| && |b| == |Keys(cols)|
    ensures forall k :: 0 <= k < |Keys(cols)| ==> Combined(cols, a, b)[k].0 == Keys(cols)[k] && Combined(cols, a, b)[k].1 >= 0.0
  {
    if cols != [] {
      if cols[0].Covariate? {
        CombinedKeys(cols[1..], a[1..], b[1..]);
      } else {
        CombinedKeys(cols[1..], a[1..], b);
      }
    }
  }

  /** The keys are exactly the covariate columns; the treatment column is dropped. */
  lemma {:induction false} KeysMembers(cols: seq<Column>)
    ensures forall c :: c in Keys(cols) <==> Covariate(c) in cols
  {
    if cols != [] {
      KeysMembers(cols[1..]);
      assert cols == [cols[0]] + cols[1..];
    }
  }

  /** A covariate's combined score is |a| + |b| of its own coefficients. */
  lemma {:induction false} CombinedScore(cols: seq<Column>, a: seq<real>, b: seq<real>, j: nat)
    requires |a| == |cols| && |b| == |Keys(cols)| && j < |cols| && cols[j].Covariate?
    ensures |Keys(cols[..j])| < |Keys(cols)|
    ensures Combined(cols, a, b)[|Keys(cols[..j])|] == (cols[j].index, Abs(a[j]) + Abs(b[|Keys(cols[..j])|]))
    decreases |cols|, 1
  {
    if j == 0 {
      assert Keys(cols[..0]) == [];
      var x := Abs(a[0]) + Abs(b[0]);
      assert Combined(cols, a, b)[0] == (cols[0].index, Abs(x));
      assert Abs(x) == x;
    } else if cols[0].Covariate? {
      CombinedScoreAfterCovariate(cols, a, b, j);
    } else {
      var rest := cols[1..];
      assert rest[..j - 1] == cols[..j][1..];
      assert rest[j - 1] == cols[j] && a[1..][j - 1] == a[j];
      assert Keys(cols[..j]) == Keys(rest[..j - 1]);
      CombinedScore(rest, a[1..], b, j - 1);
    }
  }

  /** The step of CombinedScore past a leading covariate column, which takes the first b entry. */
  lemma CombinedScoreAfterCovariate(cols: seq<Column>, a: seq<real>, b: seq<real>, j: nat)
    requires |a| == |cols| && |b| == |Keys(cols)| && 0 < j < |cols| && cols[j].Covariate? && cols[0].Covariate?
    ensures |Keys(cols[..j])| < |Keys(cols)|
    ensures Combined(cols, a, b)[|Keys(cols[..j])|] == (cols[j].index, Abs(a[j]) + Abs(b[|Keys(cols[..j])|]))
    decreases |cols|, 0
  {
    var rest := cols[1..];
    assert rest[..j - 1] == cols[..j][1..];
    var p := |Keys(rest[..j - 1])|;
    assert rest[j - 1] == cols[j] && a[1..][j - 1] == a[j];
    assert Keys(cols[..j]) == [cols[0].index] + Keys(rest[..j - 1]);
    var q := |Keys(cols[..j])|;
    assert q == p + 1;
    CombinedScore(rest, a[1..], b[1..], j - 1);
    assert b[1..][p] == b[q];
    var head := [(cols[0].index, Abs(Abs(a[0]) + Abs(b[0])))];
    assert Combined(cols, a, b) == head + Combined(rest, a[1..], b[1..]);
    assert Combined(cols, a, b)[q] == Combined(rest, a[1..], b[1..])[p];
  }

  /** Every score lies in [0, 1]. */
  lemma ImportanceBounds(cols: seq<Column>, a: seq<real>, b: seq<real>)
    requires |a| == |cols| && |b| == |Keys(cols)|
    ensures forall k :: 0 <= k < |Keys(cols)| ==> 0.0 <= ConfounderImportance(cols, a, b)[k].1 <= 1.0
  {
    var s := Scores(Combined(cols, a, b));
    CombinedKeys(cols, a, b);
    if s != [] && MaxOf(s) != 0.0 {
      forall k | 0 <= k < |s| ensures 0.0 <= s[k] / MaxOf(s) <= 1.0 {
        DivBounds(s[k], MaxOf(s));
      }
    }
  }

  /** With a nonzero maximum, a covariate with the largest combined score has score exactly 1. */
  lemma ImportanceTop(cols: seq<Column>, a: seq<real>, b: seq<real>)
    requires |a| == |cols| && |b| == |Keys(cols)|
    requires exists k :: 0 <= k < |Keys(cols)| && Combined(cols, a, b)[k].1 != 0.0
    ensures exists k :: 0 <= k < |Keys(cols)| && ConfounderImportance(cols, a, b)[k].1 == 1.0
  {
    var s := Scores(Combined(cols, a, b));
    CombinedKeys(cols, a, b);
    var j :| 0 <= j < |s| && MaxOf(s) == s[j];
    var k :| 0 <= k < |s| && s[k] != 0.0;
    assert MaxOf(s) != 0.0;
    var r := ConfounderImportance(cols, a, b);
    assert r[j].1 == s[j] / s[j];
    DivSelf(s[j]);
  }

  /** When every combined score is 0, every score is 0. */
  lemma ImportanceZero(cols: seq<Column>, a: seq<real>, b: seq<real>)
    requires |a| == |cols| && |b| == |Keys(cols)|
    requires forall k :: 0 <= k < |Keys(cols)| ==> Combined(cols, a, b)[k].1 == 0.0
    ensures forall k :: 0 <= k < |Keys(cols)| ==> ConfounderImportance(cols, a, b)[k].1 == 0.0
  {
    var s := Scores(Combined(cols, a, b));
    if s != [] {
      var j :| 0 <= j < |s| && MaxOf(s) == s[j];
    }
  }

  /**
   * Normalisation keeps the order of the combined scores in both directions,
   * so ranking by score ranks by |a| + |b|.
   */
  lemma ImportanceOrder(cols: seq<Column>, a: seq<real>, b: seq<real>, i: nat, j: nat)
    requires |a| == |cols| && |b| == |Keys(cols)| && i < |Keys(cols)| && j < |Keys(cols)|
    ensures ConfounderImportance(cols, a, b)[i].1 <= ConfounderImportance(cols, a, b)[j].1
      <==> Combined(cols, a, b)[i].1 <= Combined(cols, a, b)[j].1
  {
    var s := Scores(Combined(cols, a, b));
    CombinedKeys(cols, a, b);
    var m := MaxOf(s);
    if m != 0.0 {
      assert m > 0.0 by {
        assert s[0] >= 0.0;
      }
      DivideOrder(s[i], s[j], m);
    } else {
      var p :| 0 <= p < |s| && m == s[p];
      assert s[i] == 0.0 && s[j] == 0.0;
    }
  }

  lemma DivideOrder(x: real, y: real, m: real)
    requires m > 0.0
    ensures x / m <= y / m <==> x <= y
  {
    if x <= y {
      assert x / m <= y / m;
    } else {
      assert y / m < x / m;
    }
  }
}
