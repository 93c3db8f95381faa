/**
 * The discrete distance between two category values (tim/distances.py,
 * `find_max_crosstab` and `algo_distance_crosstab`).
 *
 * For values a1, a2 of a column col1 and another column col2, the distance
 * is  sum over the levels b of col2 of max(P(b | a1), P(b | a2)), minus 1,
 * where P(b | a) is the share of the rows with col1 == a that have col2 == b.
 */
module Crosstab {
  import opened Wrappers
  import opened Units
  import opened Reals

  /** Number of rows with value `a` (a row of pandas' crosstab, summed). */
  function Count(col: seq<int>, a: int): nat
  {
    if col == [] then 0 else Count(col[..|col| - 1], a) + (if col[|col| - 1] == a then 1 else 0)
  }

  /** Number of rows with col1 == a and col2 == b (one cell of the crosstab). */
  function Joint(col1: seq<int>, col2: seq<int>, a: int, b: int): nat
    requires |col1| == |col2|
  {
    if col1 == [] then 0
    else Joint(col1[..|col1| - 1], col2[..|col2| - 1], a, b) + (if col1[|col1| - 1] == a && col2[|col2| - 1] == b then 1 else 0)
  }

  lemma {:induction false} CountPositive(col: seq<int>, a: int)
    requires a in col
    ensures Count(col, a) > 0
  {
    if col[|col| - 1] != a {
      assert a in col[..|col| - 1];
      CountPositive(col[..|col| - 1], a);
    }
  }

  predicate Distinct(s: seq<int>)
  {
    forall p, q :: 0 <= p < q < |s| ==> s[p] != s[q]
  }

  /** The distinct values of a column in order of first appearance (pandas' `unique`). */
  function Unique(col: seq<int>): (u: seq<int>)
    ensures Distinct(u) && forall x :: x in u <==> x in col
  {
    if col == [] then []
    else
      var u := Unique(col[..|col| - 1]);
      assert forall x :: x in col <==> x in col[..|col| - 1] || x == col[|col| - 1] by {
        assert col == col[..|col| - 1] + [col[|col| - 1]];
      }
      if col[|col| - 1] in u then u else u + [col[|col| - 1]]
  }

  /** P(b | a): the share of the rows with col1 == a whose col2 is b. */
  function Proportion(col1: seq<int>, col2: seq<int>, a: int, b: int): real
    requires |col1| == |col2| && a in col1
  {
    CountPositive(col1, a);
    Joint(col1, col2, a, b) as real / Count(col1, a) as real
  }

  /** The larger of the two conditional proportions, as the loop body picks it. */
  function Term(col1: seq<int>, col2: seq<int>, a1: int, a2: int, b: int): real
    requires |col1| == |col2| && a1 in col1 && a2 in col1
  {
    var p1 := Proportion(col1, col2, a1, b);
    var p2 := Proportion(col1, col2, a2, b);
    if p1 >= p2 then p1 else p2
  }

  /** The sum of the terms over `levels`. */
  function TermSum(col1: seq<int>, col2: seq<int>, a1: int, a2: int, levels: seq<int>): real
    requires |col1| == |col2| && a1 in col1 && a2 in col1
  {
    if levels == [] then 0.0
    else TermSum(col1, col2, a1, a2, levels[..|levels| - 1]) + Term(col1, col2, a1, a2, levels[|levels| - 1])
  }

  /** The distance `find_max_crosstab` computes. */
  function MaxCrosstab(col1: seq<int>, col2: seq<int>, a1: int, a2: int): real
    requires |col1| == |col2| && a1 in col1 && a2 in col1
  {
    TermSum(col1, col2, a1, a2, Unique(col2)) - 1.0
  }

  /** `find_max_crosstab`: accumulates the larger proportion level by level. */
  method FindMaxCrosstab(col1: seq<int>, col2: seq<int>, a1: int, a2: int) returns (distance: real)
    requires |col1| == |col2| && a1 in col1 && a2 in col1
    ensures distance == MaxCrosstab(col1, col2, a1, a2)
  {
    var levels := Unique(col2);
    CountPositive(col1, a1);
    CountPositive(col1, a2);
    distance := 0.0;
    var k := 0;
    while k < |levels|
      invariant k <= |levels|
      invariant distance == TermSum(col1, col2, a1, a2, levels[..k])
    {
      var b := levels[k];
      var p1 := Joint(col1, col2, a1, b) as real / Count(col1, a1) as real;
      var p2 := Joint(col1, col2, a2, b) as real / Count(col1, a2) as real;
      if p1 >= p2 {
        distance := distance + p1;
      } else {
        distance := distance + p2;
      }
      assert levels[..k + 1][..k] == levels[..k];
      k := k + 1;
    }
    assert levels[..k] == levels;
    distance := distance - 1.0;
  }

  // ---------------------------------------------------------------------------
  // Symmetry

  lemma {:induction false} TermSumSymmetric(col1: seq<int>, col2: seq<int>, a1: int, a2: int, levels: seq<int>)
    requires |col1| == |col2| && a1 in col1 && a2 in col1
    ensures TermSum(col1, col2, a1, a2, levels) == TermSum(col1, col2, a2, a1, levels)
  {
    if levels != [] {
      TermSumSymmetric(col1, col2, a1, a2, levels[..|levels| - 1]);
    }
  }

  /** The distance does not depend on the order of the two values. */
  lemma MaxCrosstabSymmetric(col1: seq<int>, col2: seq<int>, a1: int, a2: int)
    requires |col1| == |col2| && a1 in col1 && a2 in col1
    ensures MaxCrosstab(col1, col2, a1, a2) == MaxCrosstab(col1, col2, a2, a1)
  {
    TermSumSymmetric(col1, col2, a1, a2, Unique(col2));
  }

  // ---------------------------------------------------------------------------
  // The proportions of one value sum to 1, so the distance lies in [0, 1]

  /** Sum of the crosstab cells of row `a` over the columns `levels`. */
  function JointTotal(col1: seq<int>, col2: seq<int>, a: int, levels: seq<int>): nat
    requires |col1| == |col2|
  {
    if levels == [] then 0 else JointTotal(col1, col2, a, levels[..|levels| - 1]) + Joint(col1, col2, a, levels[|levels| - 1])
  }

  /** Number of positions of `x` in `levels`. */
  function Occurrences(levels: seq<int>, x: int): nat
  {
    if levels == [] then 0 else Occurrences(levels[..|levels| - 1], x) + (if levels[|levels| - 1] == x then 1 else 0)
  }

  lemma {:induction false} OccurrencesDistinct(levels: seq<int>, x: int)
    requires Distinct(levels)
    ensures Occurrences(levels, x) == if x in levels then 1 else 0
  {
    if levels != [] {
      var init := levels[..|levels| - 1];
      OccurrencesDistinct(init, x);
      if levels[|levels| - 1] == x {
        assert x !in init;
      } else {
        assert x in levels <==> x in init by {
          assert levels == init + [levels[|levels| - 1]];
        }
      }
    }
  }

  /** Dropping the last row of the two columns. */
  lemma {:induction false} JointTotalLastRow(col1: seq<int>, col2: seq<int>, a: int, levels: seq<int>)
    requires |col1| == |col2| && col1 != []
    ensures JointTotal(col1, col2, a, levels)
         == JointTotal(col1[..|col1| - 1], col2[..|col2| - 1], a, levels)
            + (if col1[|col1| - 1] == a then Occurrences(levels, col2[|col2| - 1]) else 0)
  {
    if levels != [] {
      JointTotalLastRow(col1, col2, a, levels[..|levels| - 1]);
    }
  }

  /** Summed over the distinct values of col2 (or any distinct cover of them), the cells of row `a` give its count. */
  lemma {:induction false} JointTotalCount(col1: seq<int>, col2: seq<int>, a: int, levels: seq<int>)
    requires |col1| == |col2| && Distinct(levels) && forall x :: x in col2 ==> x in levels
    ensures JointTotal(col1, col2, a, levels) == Count(col1, a)
  {
    if col1 == [] {
      JointTotalEmpty(col1, col2, a, levels);
    } else {
      var n := |col1|;
      assert forall x :: x in col2[..n - 1] ==> x in col2;
      JointTotalCount(col1[..n - 1], col2[..n - 1], a, levels);
      JointTotalLastRow(col1, col2, a, levels);
      OccurrencesDistinct(levels, col2[n - 1]);
    }
  }

  lemma {:induction false} JointTotalEmpty(col1: seq<int>, col2: seq<int>, a: int, levels: seq<int>)
    requires |col1| == |col2| == 0
    ensures JointTotal(col1, col2, a, levels) == 0
  {
    if levels != [] {
      JointTotalEmpty(col1, col2, a, levels[..|levels| - 1]);
    }
  }

  /** Sum of P(b | a) over `levels`. */
  function ProportionSum(col1: seq<int>, col2: seq<int>, a: int, levels: seq<int>): real
    requires |col1| == |col2| && a in col1
  {
    if levels == [] then 0.0
    else ProportionSum(col1, col2, a, levels[..|levels| - 1]) + Proportion(col1, col2, a, levels[|levels| - 1])
  }

  lemma {:induction false} ProportionSumTotal(col1: seq<int>, col2: seq<int>, a: int, levels: seq<int>)
    requires |col1| == |col2| && a in col1
    ensures Count(col1, a) > 0
    ensures ProportionSum(col1, col2, a, levels) == JointTotal(col1, col2, a, levels) as real / Count(col1, a) as real
  {
    CountPositive(col1, a);
    if levels != [] {
      ProportionSumTotal(col1, col2, a, levels[..|levels| - 1]);
      var c := Count(col1, a) as real;
      var t := JointTotal(col1, col2, a, levels[..|levels| - 1]) as real;
      var j := Joint(col1, col2, a, levels[|levels| - 1]) as real;
      DivAdd(t, j, c);
    }
  }

  lemma DivAdd(t: real, j: real, c: real)
    requires c > 0.0
    ensures t / c + j / c == (t + j) / c
  {
  }

  /** Over the distinct values of col2, the proportions of a value sum to 1. */
  lemma ProportionSumOne(col1: seq<int>, col2: seq<int>, a: int)
    requires |col1| == |col2| && a in col1
    ensures ProportionSum(col1, col2, a, Unique(col2)) == 1.0
  {
    var levels := Unique(col2);
    JointTotalCount(col1, col2, a, levels);
    ProportionSumTotal(col1, col2, a, levels);
    DivSelf(Count(col1, a) as real);
  }

  /** Each term lies between one proportion and the sum of both. */
  lemma {:induction false} TermSumBetween(col1: seq<int>, col2: seq<int>, a1: int, a2: int, levels: seq<int>)
    requires |col1| == |col2| && a1 in col1 && a2 in col1
    ensures ProportionSum(col1, col2, a1, levels) <= TermSum(col1, col2, a1, a2, levels)
    ensures TermSum(col1, col2, a1, a2, levels) <= ProportionSum(col1, col2, a1, levels) + ProportionSum(col1, col2, a2, levels)
  {
    if levels != [] {
      TermSumBetween(col1, col2, a1, a2, levels[..|levels| - 1]);
      TermBetween(col1, col2, a1, a2, levels[|levels| - 1]);
    }
  }

  /** A term is at least the first proportion and at most the sum of both. */
  lemma TermBetween(col1: seq<int>, col2: seq<int>, a1: int, a2: int, b: int)
    requires |col1| == |col2| && a1 in col1 && a2 in col1
    ensures Proportion(col1, col2, a1, b) <= Term(col1, col2, a1, a2, b)
    ensures Term(col1, col2, a1, a2, b) <= Proportion(col1, col2, a1, b) + Proportion(col1, col2, a2, b)
  {
    CountPositive(col1, a1);
    CountPositive(col1, a2);
    assert Proportion(col1, col2, a1, b) >= 0.0 && Proportion(col1, col2, a2, b) >= 0.0;
  }

  /** The distance lies in [0, 1]. */
  lemma MaxCrosstabBounds(col1: seq<int>, col2: seq<int>, a1: int, a2: int)
    requires |col1| == |col2| && a1 in col1 && a2 in col1
    ensures 0.0 <= MaxCrosstab(col1, col2, a1, a2) <= 1.0
  {
    var levels := Unique(col2);
    TermSumBetween(col1, col2, a1, a2, levels);
    ProportionSumOne(col1, col2, a1);
    ProportionSumOne(col1, col2, a2);
  }

  // ---------------------------------------------------------------------------
  // The pair table (`algo_distance_crosstab`)

  /** One row of the table: a discrete column, two of its values and their distance. */
  datatype PairRow = PairRow(column: nat, first: int, second: int, distance: real)

  /** Every unit has a coarse value for column `c`. */
  predicate ColumnOk(rows: seq<Unit>, c: nat)
  {
    forall i :: 0 <= i < |rows| ==> c < |rows[i].coarse|
  }

  predicate ColumnsOk(rows: seq<Unit>, cols: seq<nat>)
  {
    forall j :: 0 <= j < |cols| ==> ColumnOk(rows, cols[j])
  }

  /** Column `c` of the coarsened table. */
  function Column(rows: seq<Unit>, c: nat): (col: seq<int>)
    requires ColumnOk(rows, c)
    ensures |col| == |rows| && forall i :: 0 <= i < |rows| ==> col[i] == rows[i].coarse[c]
  {
    seq(|rows|, i requires 0 <= i < |rows| => rows[i].coarse[c])
  }

  /** The pairs whose first position is 0: the first value with each later one. */
  function Firsts(values: seq<int>): (r: seq<(int, int)>)
    requires values != []
    ensures |r| == |values| - 1 && forall k :: 0 <= k < |r| ==> r[k] == (values[0], values[k + 1])
  {
    seq(|values| - 1, k requires 0 <= k < |values| - 1 => (values[0], values[k + 1]))
  }

  /** `combinations(values, 2)`: the pairs of positions p < q, ordered by p and then q. */
  function Pairs(values: seq<int>): seq<(int, int)>
  {
    if |values| < 2 then [] else Firsts(values) + Pairs(values[1..])
  }

  /** The values at any two increasing positions form one of the pairs. */
  lemma {:induction false} PairsComplete(values: seq<int>)
    ensures forall p, q :: 0 <= p < q < |values| ==> (values[p], values[q]) in Pairs(values)
  {
    if |values| >= 2 {
      var head := Firsts(values);
      var tail := values[1..];
      PairsComplete(tail);
      assert Pairs(values) == head + Pairs(tail);
      forall p, q | 0 <= p < q < |values| ensures (values[p], values[q]) in Pairs(values) {
        if p == 0 {
          assert head[q - 1] == (values[p], values[q]);
        } else {
          assert (tail[p - 1], tail[q - 1]) in Pairs(tail);
        }
      }
    }
  }

  /** Every pair is made of the values at two increasing positions. */
  lemma {:induction false} PairsSound(values: seq<int>)
    ensures forall x :: x in Pairs(values) ==> exists p, q :: 0 <= p < q < |values| && x == (values[p], values[q])
  {
    if |values| >= 2 {
      var head := Firsts(values);
      var tail := values[1..];
      PairsSound(tail);
      assert Pairs(values) == head + Pairs(tail);
      forall x | x in Pairs(values) ensures exists p, q :: 0 <= p < q < |values| && x == (values[p], values[q]) {
        if x in head {
          var k :| 0 <= k < |head| && head[k] == x;
          assert x == (values[0], values[k + 1]);
        } else {
          var p, q :| 0 <= p < q < |tail| && x == (tail[p], tail[q]);
          assert x == (values[p + 1], values[q + 1]);
        }
      }
    }
  }

  /** No pair occurs twice in a list, in either order. */
  predicate UnorderedDistinct(ps: seq<(int, int)>)
  {
    forall k1, k2 :: 0 <= k1 < k2 < |ps| ==> ps[k1] != ps[k2] && ps[k1] != (ps[k2].1, ps[k2].0)
  }

  /** Pairs starting with v followed by pairs avoiding v repeat no pair if neither part does. */
  lemma UnorderedDistinctAppend(h: seq<(int, int)>, t: seq<(int, int)>, v: int)
    requires UnorderedDistinct(h) && UnorderedDistinct(t)
    requires forall k :: 0 <= k < |h| ==> h[k].0 == v
    requires forall k :: 0 <= k < |t| ==> t[k].0 != v && t[k].1 != v
    ensures UnorderedDistinct(h + t)
  {
    var r := h + t;
    forall k1, k2 | 0 <= k1 < k2 < |r| ensures r[k1] != r[k2] && r[k1] != (r[k2].1, r[k2].0) {
      if k2 < |h| {
        assert r[k1] == h[k1] && r[k2] == h[k2];
      } else if k1 < |h| {
        assert r[k1] == h[k1] && r[k2] == t[k2 - |h|];
      } else {
        assert r[k1] == t[k1 - |h|] && r[k2] == t[k2 - |h|];
      }
    }
  }

  /** The first value paired with each later one: over distinct values, no pair twice. */
  lemma FirstsDistinct(values: seq<int>)
    requires values != [] && Distinct(values)
    ensures UnorderedDistinct(Firsts(values))
  {
    var h := Firsts(values);
    forall k1, k2 | 0 <= k1 < k2 < |h| ensures h[k1] != h[k2] && h[k1] != (h[k2].1, h[k2].0) {
      assert values[k1 + 1] != values[k2 + 1] && values[0] != values[k2 + 1];
    }
  }

  /** Over distinct values, no pair of the tail mentions the first value. */
  lemma TailAvoidsFirst(values: seq<int>)
    requires |values| >= 2 && Distinct(values)
    ensures forall k :: 0 <= k < |Pairs(values[1..])| ==> Pairs(values[1..])[k].0 != values[0] && Pairs(values[1..])[k].1 != values[0]
  {
    var tail := values[1..];
    PairsSound(tail);
    forall k | 0 <= k < |Pairs(tail)| ensures Pairs(tail)[k].0 != values[0] && Pairs(tail)[k].1 != values[0] {
      var x := Pairs(tail)[k];
      assert x in Pairs(tail);
      var p, q :| 0 <= p < q < |tail| && x == (tail[p], tail[q]);
      assert tail[p] == values[p + 1] && tail[q] == values[q + 1];
    }
  }

  /** Over distinct values, no unordered pair occurs twice. */
  lemma {:induction false} PairsUnique(values: seq<int>)
    requires Distinct(values)
    ensures UnorderedDistinct(Pairs(values))
  {
    if |values| >= 2 {
      var tail := values[1..];
      assert Distinct(tail) by {
        assert forall p :: 0 <= p < |tail| ==> tail[p] == values[p + 1];
      }
      PairsUnique(tail);
      FirstsDistinct(values);
      TailAvoidsFirst(values);
      UnorderedDistinctAppend(Firsts(values), Pairs(tail), values[0]);
    }
  }

  /** The sum of the distances between a1 and a2 over the columns `others` other than column i. */
  function OthersTotal(rows: seq<Unit>, i: nat, a1: int, a2: int, others: seq<nat>): real
    requires ColumnsOk(rows, others) && ColumnOk(rows, i) && a1 in Column(rows, i) && a2 in Column(rows, i)
  {
    if others == [] then 0.0
    else
      var j := others[|others| - 1];
      assert ColumnsOk(rows, others[..|others| - 1]);
      OthersTotal(rows, i, a1, a2, others[..|others| - 1])
        + (if i != j then MaxCrosstab(Column(rows, i), Column(rows, j), a1, a2) else 0.0)
  }

  /** The distance of a pair: the mean over the other discrete columns, or 0 for a single discrete column. */
  function MeanDistance(rows: seq<Unit>, disc: seq<nat>, i: nat, a1: int, a2: int): real
    requires ColumnsOk(rows, disc) && ColumnOk(rows, i) && a1 in Column(rows, i) && a2 in Column(rows, i)
  {
    if |disc| > 1 then OthersTotal(rows, i, a1, a2, disc) / (|disc| - 1) as real else 0.0
  }

  /** The rows of column i for the pairs `pairs`. */
  function ColumnRows(rows: seq<Unit>, disc: seq<nat>, i: nat, pairs: seq<(int, int)>): (r: seq<PairRow>)
    requires ColumnsOk(rows, disc) && ColumnOk(rows, i)
    requires forall k :: 0 <= k < |pairs| ==> pairs[k].0 in Column(rows, i) && pairs[k].1 in Column(rows, i)
    ensures |r| == |pairs|
    ensures forall k :: 0 <= k < |pairs| ==>
      r[k] == PairRow(i, pairs[k].0, pairs[k].1, MeanDistance(rows, disc, i, pairs[k].0, pairs[k].1))
  {
    if pairs == [] then []
    else
      var last := pairs[|pairs| - 1];
      ColumnRows(rows, disc, i, pairs[..|pairs| - 1]) + [PairRow(i, last.0, last.1, MeanDistance(rows, disc, i, last.0, last.1))]
  }

  lemma ColumnPairsOk(rows: seq<Unit>, i: nat)
    requires ColumnOk(rows, i)
    ensures forall k :: 0 <= k < |Pairs(Unique(Column(rows, i)))| ==>
      Pairs(Unique(Column(rows, i)))[k].0 in Column(rows, i) && Pairs(Unique(Column(rows, i)))[k].1 in Column(rows, i)
  {
    var u := Unique(Column(rows, i));
    PairsSound(u);
    forall k | 0 <= k < |Pairs(u)| ensures Pairs(u)[k].0 in Column(rows, i) && Pairs(u)[k].1 in Column(rows, i) {
      var x := Pairs(u)[k];
      assert x in Pairs(u);
      var p, q :| 0 <= p < q < |u| && x == (u[p], u[q]);
      assert u[p] in u && u[q] in u;
    }
  }

  /** The unordered pairs of distinct observed values of column i. */
  function ColumnPairs(rows: seq<Unit>, i: nat): (ps: seq<(int, int)>)
    requires ColumnOk(rows, i)
    ensures ps == Pairs(Unique(Column(rows, i)))
    ensures forall k :: 0 <= k < |ps| ==> ps[k].0 in Column(rows, i) && ps[k].1 in Column(rows, i)
  {
    ColumnPairsOk(rows, i);
    Pairs(Unique(Column(rows, i)))
  }

  /** The table for the columns `cols`, column after column. */
  function PairTable(rows: seq<Unit>, disc: seq<nat>, cols: seq<nat>): seq<PairRow>
    requires ColumnsOk(rows, disc) && ColumnsOk(rows, cols)
  {
    if cols == [] then []
    else
      var i := cols[|cols| - 1];
      assert ColumnsOk(rows, cols[..|cols| - 1]);
      PairTable(rows, disc, cols[..|cols| - 1]) + ColumnRows(rows, disc, i, ColumnPairs(rows, i))
  }

  // ---------------------------------------------------------------------------
  // What the table holds

  /** Number of entries of `others` other than `i`. */
  function OtherCount(others: seq<nat>, i: nat): nat
  {
    if others == [] then 0 else OtherCount(others[..|others| - 1], i) + (if others[|others| - 1] != i then 1 else 0)
  }

  lemma {:induction false} OtherCountDistinct(others: seq<nat>, i: nat)
    requires NoDuplicates(others) && i in others
    ensures OtherCount(others, i) == |others| - 1
  {
    var init := others[..|others| - 1];
    assert NoDuplicates(init);
    if others[|others| - 1] == i {
      assert i !in init;
      OtherCountAll(init, i);
    } else {
      assert i in init;
      OtherCountDistinct(init, i);
    }
  }

  lemma {:induction false} OtherCountAll(others: seq<nat>, i: nat)
    requires i !in others
    ensures OtherCount(others, i) == |others|
  {
    if others != [] {
      OtherCountAll(others[..|others| - 1], i);
    }
  }

  lemma {:induction false} OthersTotalBounds(rows: seq<Unit>, i: nat, a1: int, a2: int, others: seq<nat>)
    requires ColumnsOk(rows, others) && ColumnOk(rows, i) && a1 in Column(rows, i) && a2 in Column(rows, i)
    ensures 0.0 <= OthersTotal(rows, i, a1, a2, others) <= OtherCount(others, i) as real
  {
    if others != [] {
      var j := others[|others| - 1];
      assert ColumnsOk(rows, others[..|others| - 1]);
      OthersTotalBounds(rows, i, a1, a2, others[..|others| - 1]);
      if i != j {
        MaxCrosstabBounds(Column(rows, i), Column(rows, j), a1, a2);
      }
    }
  }

  /** The distance of a pair of a discrete column lies in [0, 1]. */
  lemma MeanDistanceBounds(rows: seq<Unit>, disc: seq<nat>, i: nat, a1: int, a2: int)
    requires ColumnsOk(rows, disc) && NoDuplicates(disc) && i in disc
    requires ColumnOk(rows, i) && a1 in Column(rows, i) && a2 in Column(rows, i)
    ensures 0.0 <= MeanDistance(rows, disc, i, a1, a2) <= 1.0
  {
    OthersTotalBounds(rows, i, a1, a2, disc);
    OtherCountDistinct(disc, i);
    if |disc| > 1 {
      var n := (|disc| - 1) as real;
      var t := OthersTotal(rows, i, a1, a2, disc);
      assert 0.0 <= t <= n;
      DivBounds(t, n);
    }
  }

  /** Two table rows name the same column and the same unordered pair of values. */
  predicate SamePair(r: PairRow, s: PairRow)
  {
    r.column == s.column && ((r.first == s.first && r.second == s.second) || (r.first == s.second && r.second == s.first))
  }

  /** What a row of column i's block holds. */
  ghost predicate RowOk(rows: seq<Unit>, disc: seq<nat>, cols: seq<nat>, r: PairRow)
    requires ColumnsOk(rows, disc)
  {
    && r.column in cols && ColumnOk(rows, r.column)
    && r.first in Column(rows, r.column) && r.second in Column(rows, r.column)
    && r.first != r.second
    && r.distance == MeanDistance(rows, disc, r.column, r.first, r.second)
  }

  /** The block of column i: rows of column i for different values, no unordered pair twice. */
  lemma BlockRows(rows: seq<Unit>, disc: seq<nat>, cols: seq<nat>, i: nat)
    requires ColumnsOk(rows, disc) && ColumnOk(rows, i) && i in cols
    ensures var block := ColumnRows(rows, disc, i, ColumnPairs(rows, i));
      && (forall k :: 0 <= k < |block| ==> block[k].column == i && RowOk(rows, disc, cols, block[k]))
      && (forall k1, k2 :: 0 <= k1 < k2 < |block| ==> !SamePair(block[k1], block[k2]))
  {
    var u := Unique(Column(rows, i));
    var ps := ColumnPairs(rows, i);
    var block := ColumnRows(rows, disc, i, ps);
    PairsSound(u);
    PairsUnique(u);
    forall k | 0 <= k < |block| ensures block[k].first != block[k].second {
      assert ps[k] in Pairs(u);
      var p, q :| 0 <= p < q < |u| && ps[k] == (u[p], u[q]);
    }
  }

  lemma PairTableSplit(rows: seq<Unit>, disc: seq<nat>, cols: seq<nat>)
    requires ColumnsOk(rows, disc) && ColumnsOk(rows, cols) && cols != []
    ensures ColumnsOk(rows, cols[..|cols| - 1]) && ColumnOk(rows, cols[|cols| - 1])
    ensures PairTable(rows, disc, cols)
         == PairTable(rows, disc, cols[..|cols| - 1]) + ColumnRows(rows, disc, cols[|cols| - 1], ColumnPairs(rows, cols[|cols| - 1]))
  {
    assert ColumnsOk(rows, cols[..|cols| - 1]);
  }

  /**
   * Every row of the table names one of the columns, two different values
   * observed in it, and the mean distance of those values.
   */
  lemma {:induction false} PairTableRows(rows: seq<Unit>, disc: seq<nat>, cols: seq<nat>)
    requires ColumnsOk(rows, disc) && ColumnsOk(rows, cols)
    ensures forall k :: 0 <= k < |PairTable(rows, disc, cols)| ==> RowOk(rows, disc, cols, PairTable(rows, disc, cols)[k])
  {
    if cols != [] {
      var init := cols[..|cols| - 1];
      var i := cols[|cols| - 1];
      assert ColumnsOk(rows, init);
      var t0 := PairTable(rows, disc, init);
      var block := ColumnRows(rows, disc, i, ColumnPairs(rows, i));
      var t := PairTable(rows, disc, cols);
      PairTableSplit(rows, disc, cols);
      PairTableRows(rows, disc, init);
      BlockRows(rows, disc, cols, i);
      forall k | 0 <= k < |t| ensures RowOk(rows, disc, cols, t[k]) {
        if k < |t0| {
          assert RowOk(rows, disc, init, t0[k]);
          assert t[k] == t0[k];
        } else {
          assert t[k] == block[k - |t0|];
        }
      }
    }
  }

  /** No two rows of t name the same column and unordered pair. */
  predicate NoRepeatedPair(t: seq<PairRow>)
  {
    forall k1, k2 :: 0 <= k1 < k2 < |t| ==> !SamePair(t[k1], t[k2])
  }

  /** Appending a block for a new column keeps pairs unrepeated. */
  lemma NoRepeatedPairAppend(t0: seq<PairRow>, block: seq<PairRow>, init: seq<nat>, i: nat)
    requires NoRepeatedPair(t0) && NoRepeatedPair(block) && i !in init
    requires forall k :: 0 <= k < |t0| ==> t0[k].column in init
    requires forall k :: 0 <= k < |block| ==> block[k].column == i
    ensures NoRepeatedPair(t0 + block)
  {
    var t := t0 + block;
    forall k1, k2 | 0 <= k1 < k2 < |t| ensures !SamePair(t[k1], t[k2]) {
      if k2 < |t0| {
        assert t[k1] == t0[k1] && t[k2] == t0[k2];
      } else if k1 < |t0| {
        assert t[k1] == t0[k1] && t[k2] == block[k2 - |t0|];
      } else {
        assert t[k1] == block[k1 - |t0|] && t[k2] == block[k2 - |t0|];
      }
    }
  }

  /** Every row of the table names one of the columns. */
  lemma PairTableColumns(rows: seq<Unit>, disc: seq<nat>, cols: seq<nat>)
    requires ColumnsOk(rows, disc) && ColumnsOk(rows, cols)
    ensures forall k :: 0 <= k < |PairTable(rows, disc, cols)| ==> PairTable(rows, disc, cols)[k].column in cols
  {
    var t := PairTable(rows, disc, cols);
    PairTableRows(rows, disc, cols);
    forall k | 0 <= k < |t| ensures t[k].column in cols {
      assert RowOk(rows, disc, cols, t[k]);
    }
  }

  /** No unordered pair of a column has two rows. */
  lemma {:induction false} PairTableUnique(rows: seq<Unit>, disc: seq<nat>, cols: seq<nat>)
    requires ColumnsOk(rows, disc) && ColumnsOk(rows, cols) && NoDuplicates(cols)
    ensures NoRepeatedPair(PairTable(rows, disc, cols))
  {
    if cols != [] {
      var init := cols[..|cols| - 1];
      var i := cols[|cols| - 1];
      assert ColumnsOk(rows, init) && NoDuplicates(init);
      assert i !in init;
      PairTableSplit(rows, disc, cols);
      PairTableUnique(rows, disc, init);
      PairTableColumns(rows, disc, init);
      BlockRows(rows, disc, cols, i);
      NoRepeatedPairAppend(PairTable(rows, disc, init), ColumnRows(rows, disc, i, ColumnPairs(rows, i)), init, i);
    }
  }

  /** Two different members of a sequence appear together, in some order, among its pairs. */
  lemma PairFound(u: seq<int>, a: int, b: int)
    requires a in u && b in u && a != b
    ensures exists k :: 0 <= k < |Pairs(u)| && (Pairs(u)[k] == (a, b) || Pairs(u)[k] == (b, a))
  {
    PairsComplete(u);
    var p :| 0 <= p < |u| && u[p] == a;
    var q :| 0 <= q < |u| && u[q] == b;
    var pair := if p < q then (a, b) else (b, a);
    assert pair in Pairs(u);
    var k :| 0 <= k < |Pairs(u)| && Pairs(u)[k] == pair;
  }

  /** The block of column i has a row for every unordered pair of different observed values. */
  lemma BlockComplete(rows: seq<Unit>, disc: seq<nat>, i: nat, a: int, b: int)
    requires ColumnsOk(rows, disc) && ColumnOk(rows, i) && a in Column(rows, i) && b in Column(rows, i) && a != b
    ensures exists k :: 0 <= k < |ColumnPairs(rows, i)| && SamePair(ColumnRows(rows, disc, i, ColumnPairs(rows, i))[k], PairRow(i, a, b, 0.0))
  {
    var ps := ColumnPairs(rows, i);
    var block := ColumnRows(rows, disc, i, ps);
    PairFound(Unique(Column(rows, i)), a, b);
    var k :| 0 <= k < |ps| && (ps[k] == (a, b) || ps[k] == (b, a));
    assert SamePair(block[k], PairRow(i, a, b, 0.0));
  }

  /** A row matching r in either part of a concatenation is a row of the whole. */
  lemma FoundInAppend(t0: seq<PairRow>, block: seq<PairRow>, r: PairRow)
    requires (exists k :: 0 <= k < |t0| && SamePair(t0[k], r)) || (exists k :: 0 <= k < |block| && SamePair(block[k], r))
    ensures exists k :: 0 <= k < |t0 + block| && SamePair((t0 + block)[k], r)
  {
    if k :| 0 <= k < |t0| && SamePair(t0[k], r) {
      assert (t0 + block)[k] == t0[k];
    } else {
      var k :| 0 <= k < |block| && SamePair(block[k], r);
      assert (t0 + block)[|t0| + k] == block[k];
    }
  }

  /** Every unordered pair of different observed values of every column has a row. */
  lemma {:induction false} PairTableComplete(rows: seq<Unit>, disc: seq<nat>, cols: seq<nat>, i: nat, a: int, b: int)
    requires ColumnsOk(rows, disc) && ColumnsOk(rows, cols) && i in cols
    requires ColumnOk(rows, i) && a in Column(rows, i) && b in Column(rows, i) && a != b
    ensures exists k :: 0 <= k < |PairTable(rows, disc, cols)| && SamePair(PairTable(rows, disc, cols)[k], PairRow(i, a, b, 0.0))
  {
    var init := cols[..|cols| - 1];
    var last := cols[|cols| - 1];
    PairTableSplit(rows, disc, cols);
    var block := ColumnRows(rows, disc, last, ColumnPairs(rows, last));
    if last == i {
      BlockComplete(rows, disc, i, a, b);
      FoundInAppend(PairTable(rows, disc, init), block, PairRow(i, a, b, 0.0));
    } else {
      assert i in init by {
        assert cols == init + [last];
      }
      PairTableComplete(rows, disc, init, i, a, b);
      FoundInAppend(PairTable(rows, disc, init), block, PairRow(i, a, b, 0.0));
    }
  }

  /** The inner loop of `algo_distance_crosstab`: the distance of one pair of values of column i. */
  method PairDistance(rows: seq<Unit>, disc: seq<nat>, i: nat, a1: int, a2: int) returns (totalDist: real)
    requires ColumnsOk(rows, disc) && ColumnOk(rows, i) && a1 in Column(rows, i) && a2 in Column(rows, i)
    ensures totalDist == MeanDistance(rows, disc, i, a1, a2)
  {
    var coli := Column(rows, i);
    var total := 0.0;
    for t := 0 to |disc|
      invariant total == OthersTotal(rows, i, a1, a2, disc[..t])
    {
      var j := disc[t];
      assert disc[..t + 1][..t] == disc[..t];
      if i != j {
        var dist := FindMaxCrosstab(coli, Column(rows, j), a1, a2);
        total := total + dist;
      }
    }
    assert disc[..|disc|] == disc;
    totalDist := if |disc| > 1 then total / (|disc| - 1) as real else 0.0;
  }

  lemma ColumnRowsStep(rows: seq<Unit>, disc: seq<nat>, i: nat, pairs: seq<(int, int)>, m: nat)
    requires ColumnsOk(rows, disc) && ColumnOk(rows, i) && m < |pairs|
    requires forall k :: 0 <= k < |pairs| ==> pairs[k].0 in Column(rows, i) && pairs[k].1 in Column(rows, i)
    ensures ColumnRows(rows, disc, i, pairs[..m + 1])
         == ColumnRows(rows, disc, i, pairs[..m]) + [PairRow(i, pairs[m].0, pairs[m].1, MeanDistance(rows, disc, i, pairs[m].0, pairs[m].1))]
  {
    assert pairs[..m + 1][..m] == pairs[..m];
  }

  /** The rows `algo_distance_crosstab` appends for column i. */
  method ColumnTable(rows: seq<Unit>, disc: seq<nat>, i: nat) returns (results: seq<PairRow>)
    requires ColumnsOk(rows, disc) && ColumnOk(rows, i)
    ensures results == ColumnRows(rows, disc, i, ColumnPairs(rows, i))
  {
    var combinations := ColumnPairs(rows, i);
    results := [];
    for m := 0 to |combinations|
      invariant results == ColumnRows(rows, disc, i, combinations[..m])
    {
      var (a1, a2) := combinations[m];
      var totalDist := PairDistance(rows, disc, i, a1, a2);
      ColumnRowsStep(rows, disc, i, combinations, m);
      results := results + [PairRow(i, a1, a2, totalDist)];
    }
    assert combinations[..|combinations|] == combinations;
  }

  /** `algo_distance_crosstab` over the discrete columns `disc`. */
  method AlgoDistanceCrosstab(rows: seq<Unit>, disc: seq<nat>) returns (results: seq<PairRow>)
    requires ColumnsOk(rows, disc)
    ensures results == PairTable(rows, disc, disc)
  {
    results := [];
    for n := 0 to |disc|
      invariant results == PairTable(rows, disc, disc[..n])
    {
      assert ColumnsOk(rows, disc[..n + 1]) && disc[..n + 1][..n] == disc[..n];
      var more := ColumnTable(rows, disc, disc[n]);
      results := results + more;
    }
    assert disc[..|disc|] == disc;
  }

  /** The mean distance does not depend on the order of the two values. */
  lemma {:induction false} OthersTotalSymmetric(rows: seq<Unit>, i: nat, a1: int, a2: int, others: seq<nat>)
    requires ColumnsOk(rows, others) && ColumnOk(rows, i) && a1 in Column(rows, i) && a2 in Column(rows, i)
    ensures OthersTotal(rows, i, a1, a2, others) == OthersTotal(rows, i, a2, a1, others)
  {
    if others != [] {
      var j := others[|others| - 1];
      assert ColumnsOk(rows, others[..|others| - 1]);
      OthersTotalSymmetric(rows, i, a1, a2, others[..|others| - 1]);
      if i != j {
        MaxCrosstabSymmetric(Column(rows, i), Column(rows, j), a1, a2);
      }
    }
  }

  lemma MeanDistanceSymmetric(rows: seq<Unit>, disc: seq<nat>, i: nat, a1: int, a2: int)
    requires ColumnsOk(rows, disc) && ColumnOk(rows, i) && a1 in Column(rows, i) && a2 in Column(rows, i)
    ensures MeanDistance(rows, disc, i, a1, a2) == MeanDistance(rows, disc, i, a2, a1)
  {
    OthersTotalSymmetric(rows, i, a1, a2, disc);
  }

  /** Column c holds one value only: every unit has the same coarse value there. */
  predicate Constant(rows: seq<Unit>, c: nat)
    requires ColumnOk(rows, c)
  {
    forall p, q :: 0 <= p < |rows| && 0 <= q < |rows| ==> rows[p].coarse[c] == rows[q].coarse[c]
  }

  /** A column has no pair of values exactly when it holds one value only. */
  lemma ColumnPairsEmpty(rows: seq<Unit>, i: nat)
    requires ColumnOk(rows, i)
    ensures ColumnPairs(rows, i) == [] <==> Constant(rows, i)
  {
    var col := Column(rows, i);
    var u := Unique(col);
    if |u| >= 2 {
      assert u[0] in col && u[1] in col && u[0] != u[1];
      var p :| 0 <= p < |rows| && col[p] == u[0];
      var q :| 0 <= q < |rows| && col[q] == u[1];
      assert Pairs(u) == Firsts(u) + Pairs(u[1..]) && |Firsts(u)| > 0;
    } else {
      forall p, q | 0 <= p < |rows| && 0 <= q < |rows| ensures rows[p].coarse[i] == rows[q].coarse[i] {
        assert col[p] in u && col[q] in u;
      }
    }
  }

  /** Every one of the columns holds one value only. */
  predicate AllConstant(rows: seq<Unit>, cols: seq<nat>)
    requires ColumnsOk(rows, cols)
  {
    forall j :: 0 <= j < |cols| ==> Constant(rows, cols[j])
  }

  lemma AllConstantSplit(rows: seq<Unit>, cols: seq<nat>)
    requires ColumnsOk(rows, cols) && cols != []
    ensures ColumnsOk(rows, cols[..|cols| - 1]) && ColumnOk(rows, cols[|cols| - 1])
    ensures AllConstant(rows, cols) <==> AllConstant(rows, cols[..|cols| - 1]) && Constant(rows, cols[|cols| - 1])
  {
    var init := cols[..|cols| - 1];
    assert forall j :: 0 <= j < |init| ==> init[j] == cols[j];
  }

  /**
   * `algo_distance_crosstab` returns a table without rows exactly when every
   * one of the columns holds one value only.
   */
  lemma {:induction false} PairTableEmpty(rows: seq<Unit>, disc: seq<nat>, cols: seq<nat>)
    requires ColumnsOk(rows, disc) && ColumnsOk(rows, cols)
    ensures PairTable(rows, disc, cols) == [] <==> AllConstant(rows, cols)
  {
    if cols != [] {
      var i := cols[|cols| - 1];
      PairTableSplit(rows, disc, cols);
      PairTableEmpty(rows, disc, cols[..|cols| - 1]);
      ColumnPairsEmpty(rows, i);
      AllConstantSplit(rows, cols);
    }
  }

  /** A table row is about the values x and y, in either order. */
  predicate Matches(r: PairRow, x: int, y: int)
  {
    (r.first == x && r.second == y) || (r.first == y && r.second == x)
  }

  /**
   * The distance `unified_distance` reads from the table for the values x
   * and y: the first row holding them in either order, whatever its column,
   * and 0 when no row does.
   */
  function Lookup(t: seq<PairRow>, x: int, y: int): real
  {
    if t == [] then 0.0
    else if Matches(t[0], x, y) then t[0].distance
    else Lookup(t[1..], x, y)
  }

  /** With a matching row in the table, Lookup yields the distance of a matching row. */
  lemma LookupHit(t: seq<PairRow>, x: int, y: int, m: nat)
    requires m < |t| && Matches(t[m], x, y)
    ensures exists k :: 0 <= k < |t| && Matches(t[k], x, y) && Lookup(t, x, y) == t[k].distance
  {
    LookupScan(t, x, y);
  }

  /**
   * The selection `unified_distance` makes in the table for the values x and
   * y.  The table is a frame built from a list of row records: without any row
   * it has no columns at all, and selecting `Attribute_1` raises KeyError
   * (None here).  Otherwise the selection yields `Lookup`.
   */
  function Read(t: seq<PairRow>, x: int, y: int): Option<real>
  {
    if t == [] then None else Some(Lookup(t, x, y))
  }

  /**
   * Reading fails exactly on a table without rows; on any other table it
   * yields the distance of the first row holding the two values in either
   * order, and 0 when no row does.
   */
  lemma LookupFirst(t: seq<PairRow>, x: int, y: int)
    ensures Read(t, x, y) == None <==> t == []
    ensures t != [] ==>
      || (exists k :: 0 <= k < |t| && Matches(t[k], x, y) && Read(t, x, y) == Some(t[k].distance)
                      && forall j :: 0 <= j < k ==> !Matches(t[j], x, y))
      || ((forall k :: 0 <= k < |t| ==> !Matches(t[k], x, y)) && Read(t, x, y) == Some(0.0))
  {
    LookupScan(t, x, y);
  }

  /** Lookup yields the distance of the first matching row, or 0 when no row matches. */
  lemma {:induction false} LookupScan(t: seq<PairRow>, x: int, y: int)
    ensures || (exists k :: 0 <= k < |t| && Matches(t[k], x, y) && Lookup(t, x, y) == t[k].distance
                  && forall j :: 0 <= j < k ==> !Matches(t[j], x, y))
            || ((forall k :: 0 <= k < |t| ==> !Matches(t[k], x, y)) && Lookup(t, x, y) == 0.0)
  {
    if t != [] && !Matches(t[0], x, y) {
      LookupScan(t[1..], x, y);
      if k :| 0 <= k < |t[1..]| && Matches(t[1..][k], x, y) && Lookup(t[1..], x, y) == t[1..][k].distance
               && forall j :: 0 <= j < k ==> !Matches(t[1..][j], x, y) {
        assert forall j :: 0 <= j < k + 1 ==> !Matches(t[j], x, y) by {
          forall j | 0 <= j < k + 1 ensures !Matches(t[j], x, y) {
            if j > 0 { assert t[j] == t[1..][j - 1]; }
          }
        }
        assert Matches(t[k + 1], x, y) && Lookup(t, x, y) == t[k + 1].distance;
      } else {
        assert forall k :: 0 <= k < |t| ==> !Matches(t[k], x, y) by {
          forall k | 0 <= k < |t| ensures !Matches(t[k], x, y) {
            if k > 0 { assert t[k] == t[1..][k - 1]; }
          }
        }
      }
    }
  }

  /** The order of the two values does not matter. */
  lemma {:induction false} LookupSymmetric(t: seq<PairRow>, x: int, y: int)
    ensures Lookup(t, x, y) == Lookup(t, y, x)
  {
    if t != [] {
      LookupSymmetric(t[1..], x, y);
    }
  }

  /** A value is at distance 0 from itself: no row of the table pairs a value with itself. */
  lemma LookupSameValue(rows: seq<Unit>, disc: seq<nat>, x: int)
    requires ColumnsOk(rows, disc)
    ensures Lookup(PairTable(rows, disc, disc), x, x) == 0.0
  {
    var t := PairTable(rows, disc, disc);
    PairTableRows(rows, disc, disc);
    LookupScan(t, x, x);
    forall k | 0 <= k < |t| ensures !Matches(t[k], x, x) {
      assert RowOk(rows, disc, disc, t[k]);
    }
  }

  /** Every distance read from the table lies in [0, 1]. */
  lemma LookupBounds(rows: seq<Unit>, disc: seq<nat>, x: int, y: int)
    requires ColumnsOk(rows, disc) && NoDuplicates(disc)
    ensures 0.0 <= Lookup(PairTable(rows, disc, disc), x, y) <= 1.0
  {
    var t := PairTable(rows, disc, disc);
    PairTableRows(rows, disc, disc);
    LookupScan(t, x, y);
    if k :| 0 <= k < |t| && Lookup(t, x, y) == t[k].distance {
      assert RowOk(rows, disc, disc, t[k]);
      MeanDistanceBounds(rows, disc, t[k].column, t[k].first, t[k].second);
    }
  }

  /**
   * Two different values observed in a discrete column are always found:
   * the distance read is the mean distance of the pair in some discrete
   * column where both values are observed (the column the lookup was made
   * for, or an earlier one holding the same two values).
   */
  lemma LookupObserved(rows: seq<Unit>, disc: seq<nat>, i: nat, a: int, b: int)
    requires ColumnsOk(rows, disc) && i in disc
    requires ColumnOk(rows, i) && a in Column(rows, i) && b in Column(rows, i) && a != b
    ensures exists c :: c in disc && ColumnOk(rows, c) && a in Column(rows, c) && b in Column(rows, c)
                        && Lookup(PairTable(rows, disc, disc), a, b) == MeanDistance(rows, disc, c, a, b)
  {
    var t := PairTable(rows, disc, disc);
    PairTableComplete(rows, disc, disc, i, a, b);
    var m :| 0 <= m < |t| && SamePair(t[m], PairRow(i, a, b, 0.0));
    assert Matches(t[m], a, b);
    LookupHit(t, a, b, m);
    var k :| 0 <= k < |t| && Matches(t[k], a, b) && Lookup(t, a, b) == t[k].distance;
    PairTableRows(rows, disc, disc);
    assert RowOk(rows, disc, disc, t[k]);
    RowDistance(rows, disc, t[k], a, b);
  }

  /** A row of the table that matches a and b holds their distance in its column, in either order. */
  lemma RowDistance(rows: seq<Unit>, disc: seq<nat>, r: PairRow, a: int, b: int)
    requires ColumnsOk(rows, disc) && RowOk(rows, disc, disc, r) && Matches(r, a, b)
    ensures r.column in disc && ColumnOk(rows, r.column) && a in Column(rows, r.column) && b in Column(rows, r.column)
    ensures r.distance == MeanDistance(rows, disc, r.column, a, b)
  {
    if r.first != a {
      MeanDistanceSymmetric(rows, disc, r.column, a, b);
    }
  }
}
