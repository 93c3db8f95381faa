/**
 * Ordering of the covariates by importance (tim/matcher.py, the `sorted` call
 * at the top of `_exact_matching_with_importance`).  The ranking is a sequence
 * of (covariate, score) entries in the order of its keys; Python's `sorted`
 * with `reverse=True` is stable, so the result is the unique arrangement of
 * the entries by descending score with ties kept in ranking order.
 */
module Ranking {

  /** Entry p of the ranking goes before entry q: higher score, or equal score and earlier. */
  predicate Before(ranking: seq<(nat, real)>, p: nat, q: nat)
    requires p < |ranking| && q < |ranking|
  {
    ranking[p].1 > ranking[q].1 || (ranking[p].1 == ranking[q].1 && p < q)
  }

  predicate SortedPositions(ranking: seq<(nat, real)>, s: seq<nat>)
  {
    && (forall k :: 0 <= k < |s| ==> s[k] < |ranking|)
    && (forall a, b :: 0 <= a < b < |s| ==> Before(ranking, s[a], s[b]))
  }

  /** Inserts entry p after every entry that goes before it. */
  function InsertPosition(ranking: seq<(nat, real)>, p: nat, s: seq<nat>): (r: seq<nat>)
    requires p < |ranking| && SortedPositions(ranking, s) && p !in s
    ensures SortedPositions(ranking, r)
    ensures |r| == |s| + 1 && forall x :: x in r <==> x == p || x in s
  {
    if s == [] then [p]
    else if Before(ranking, p, s[0]) then [p] + s
    else
      var rest := InsertPosition(ranking, p, s[1..]);
      assert forall x :: x in rest ==> Before(ranking, s[0], x) by {
        forall x | x in rest ensures Before(ranking, s[0], x) {
          if x != p {
            var b :| 0 <= b < |s| && s[b] == x;
            assert b > 0;
          }
        }
      }
      [s[0]] + rest
  }

  /** Entries 0 .. n-1 of the ranking, arranged by `Before`. */
  function SortPositions(ranking: seq<(nat, real)>, n: nat): (r: seq<nat>)
    requires n <= |ranking|
    ensures SortedPositions(ranking, r)
    ensures |r| == n && forall x: nat :: x in r <==> x < n
  {
    if n == 0 then [] else InsertPosition(ranking, n - 1, SortPositions(ranking, n - 1))
  }

  /**
   * The covariates of the ranking, most important first (`sorted_covariates`):
   * the covariates of the entries taken in an arrangement of all positions by
   * descending score, ties in ranking order.
   */
  function SortedCovariates(ranking: seq<(nat, real)>): (order: seq<nat>)
    ensures |order| == |ranking|
    ensures forall p :: 0 <= p < |ranking| ==> ranking[p].0 in order
    ensures forall k :: 0 <= k < |order| ==> exists p :: 0 <= p < |ranking| && order[k] == ranking[p].0
    ensures exists ps :: && SortedPositions(ranking, ps) && |ps| == |ranking|
                         && (forall x: nat :: x in ps <==> x < |ranking|)
                         && forall k :: 0 <= k < |order| ==> order[k] == ranking[ps[k]].0
  {
    var ps := SortPositions(ranking, |ranking|);
    var order := seq(|ps|, k requires 0 <= k < |ps| => ranking[ps[k]].0);
    assert forall p :: 0 <= p < |ranking| ==> ranking[p].0 in order by {
      forall p | 0 <= p < |ranking| ensures ranking[p].0 in order {
        assert p in ps;
        var k :| 0 <= k < |ps| && ps[k] == p;
        assert order[k] == ranking[p].0;
      }
    }
    order
  }
}
