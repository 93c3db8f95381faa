/**
 * The unit record: one row of the input table after coarsening.  A unit is
 * identified by its position in the input sequence.  `coarse[c]` is the
 * coarsened value of covariate `c` of all_covariates (continuous columns
 * first, then discrete columns); `raw[c]` is the original value of
 * continuous covariate `c`.
 */
module Units {

  /** The treatment indicator: 0 for control, 1 for treated. */
  type Treatment = t: int | t == 0 || t == 1

  datatype Unit = Unit(treatment: Treatment, outcome: real, coarse: seq<int>, raw: seq<real>)

  /** Every unit carries one coarse value per covariate and one raw value per continuous covariate. */
  predicate Shaped(rows: seq<Unit>, nCont: nat, nDisc: nat)
  {
    forall i :: 0 <= i < |rows| ==> |rows[i].coarse| == nCont + nDisc && |rows[i].raw| == nCont
  }

  /** The ids 0 .. n-1. */
  function AllIds(n: nat): (r: set<nat>)
    ensures forall i: nat :: i in r <==> i < n
  {
    if n == 0 then {} else AllIds(n - 1) + {n - 1}
  }

  lemma {:induction false} AllIdsCard(n: nat)
    ensures |AllIds(n)| == n
  {
    if n > 0 {
      var below := AllIds(n - 1);
      assert n - 1 !in below;
      AllIdsCard(n - 1);
      assert |below + {n - 1}| == |below| + 1;
    }
  }

  function SetOf(s: seq<nat>): (r: set<nat>)
    ensures forall x :: x in r <==> x in s
  {
    set x | x in s
  }

  predicate Increasing(s: seq<nat>)
  {
    forall a, b :: 0 <= a < b < |s| ==> s[a] < s[b]
  }

  predicate NoDuplicates(s: seq<nat>)
  {
    forall a, b :: 0 <= a < |s| && 0 <= b < |s| && a != b ==> s[a] != s[b]
  }

  lemma {:induction false} NoDuplicatesCard(s: seq<nat>)
    requires NoDuplicates(s)
    ensures |SetOf(s)| == |s|
  {
    if s != [] {
      var t := s[..|s| - 1];
      assert SetOf(s) == SetOf(t) + {s[|s| - 1]};
      assert s[|s| - 1] !in SetOf(t);
      NoDuplicatesCard(t);
    }
  }

  lemma SubsetCard(a: set<nat>, b: set<nat>)
    requires a <= b
    ensures |a| <= |b|
  {
    assert b == a + (b - a);
  }

  /** The distinct treatment values of the whole input (pandas' `nunique` counts them). */
  function TreatmentLevels(rows: seq<Unit>): set<int>
  {
    set i | 0 <= i < |rows| :: rows[i].treatment
  }

  /** The distinct treatment values of the units `ids`. */
  function GroupLevels(rows: seq<Unit>, ids: seq<nat>): set<int>
    requires forall k :: 0 <= k < |ids| ==> ids[k] < |rows|
  {
    set k | 0 <= k < |ids| :: rows[ids[k]].treatment
  }

  /** The treated units of the pool `pool`. */
  function TreatedIn(rows: seq<Unit>, pool: set<nat>): (r: set<nat>)
    ensures forall i :: i in r <==> i in pool && i < |rows| && rows[i].treatment == 1
  {
    set i | i in pool && i < |rows| && rows[i].treatment == 1
  }
}
