/**
 * Priority-ordered exact matching (tim/matcher.py, `_exact_matching_with_importance`).
 *
 * The covariates are sorted by importance.  For prefix lengths n down to 1 the
 * pool of still unmatched units is grouped by exact equality of the coarse
 * values on the prefix; the groups are visited in lexicographic key order, and
 * each group holding as many distinct treatment values as the whole input is
 * accepted as a stratum and removed from the pool.  After each pass the loop
 * stops if no treated unit is left in the pool.
 *
 * `PassFrom` and `RunFrom` are the specification of the two loops; the method
 * `ExactMatching` runs the loops and is proved equal to them; the lemmas state
 * what the specification guarantees.
 */
module Matching {
  import opened Units
  import Ranking

  /** A stratum: the covariates it was matched on, and its members in input order. */
  datatype Stratum = Stratum(covariates: seq<nat>, members: seq<nat>)

  /** Every covariate of `cov` is a column of every unit. */
  predicate CovOk(rows: seq<Unit>, cov: seq<nat>)
  {
    forall i, j :: 0 <= i < |rows| && 0 <= j < |cov| ==> cov[j] < |rows[i].coarse|
  }

  lemma CovOkPrefix(rows: seq<Unit>, order: seq<nat>, k: nat)
    requires CovOk(rows, order) && k <= |order|
    ensures CovOk(rows, order[..k])
  {
    forall i, j | 0 <= i < |rows| && 0 <= j < k ensures order[..k][j] < |rows[i].coarse| {
      assert order[..k][j] == order[j];
    }
  }

  /** The grouping key of unit `u` on covariates `cov`. */
  function KeyOf(u: Unit, cov: seq<nat>): (key: seq<int>)
    requires forall j :: 0 <= j < |cov| ==> cov[j] < |u.coarse|
    ensures |key| == |cov| && forall j :: 0 <= j < |cov| ==> key[j] == u.coarse[cov[j]]
  {
    seq(|cov|, j requires 0 <= j < |cov| => u.coarse[cov[j]])
  }

  // ---------------------------------------------------------------------------
  // Lexicographic order of keys (pandas' groupby visits groups in sorted key order)

  predicate LexLess(a: seq<int>, b: seq<int>)
    decreases |a|
  {
    |a| > 0 && |b| > 0 && (a[0] < b[0] || (a[0] == b[0] && LexLess(a[1..], b[1..])))
  }

  lemma {:induction false} LexIrreflexive(a: seq<int>)
    ensures !LexLess(a, a)
    decreases |a|
  {
    if |a| > 0 {
      LexIrreflexive(a[1..]);
    }
  }

  lemma {:induction false} LexTransitive(a: seq<int>, b: seq<int>, c: seq<int>)
    requires LexLess(a, b) && LexLess(b, c)
    ensures LexLess(a, c)
    decreases |a|
  {
    if a[0] == b[0] && b[0] == c[0] {
      LexTransitive(a[1..], b[1..], c[1..]);
    }
  }

  lemma {:induction false} LexTotal(a: seq<int>, b: seq<int>)
    requires |a| == |b| && a != b
    ensures LexLess(a, b) || LexLess(b, a)
    decreases |a|
  {
    if a[0] == b[0] {
      assert a == [a[0]] + a[1..] && b == [b[0]] + b[1..];
      LexTotal(a[1..], b[1..]);
    }
  }

  predicate KeySorted(s: seq<seq<int>>)
  {
    forall a, b :: 0 <= a < b < |s| ==> LexLess(s[a], s[b])
  }

  /** Inserts key `x` into a strictly sorted list of keys of its length, dropping a duplicate. */
  function InsertKey(x: seq<int>, s: seq<seq<int>>): (r: seq<seq<int>>)
    requires KeySorted(s) && forall k :: 0 <= k < |s| ==> |s[k]| == |x|
    ensures KeySorted(r) && forall k :: 0 <= k < |r| ==> |r[k]| == |x|
    ensures forall y :: y in r <==> y == x || y in s
    decreases |s|
  {
    if s == [] then [x]
    else if x == s[0] then s
    else if LexLess(x, s[0]) then
      assert forall b :: 0 <= b < |s| ==> LexLess(x, s[b]) by {
        forall b | 0 < b < |s| ensures LexLess(x, s[b]) {
          LexTransitive(x, s[0], s[b]);
        }
      }
      [x] + s
    else
      var rest := InsertKey(x, s[1..]);
      assert forall y :: y in rest ==> LexLess(s[0], y) by {
        forall y | y in rest ensures LexLess(s[0], y) {
          if y == x {
            LexTotal(x, s[0]);
          } else {
            var b :| 1 <= b < |s| && s[b] == y;
          }
        }
      }
      [s[0]] + rest
  }

  /** The distinct keys on `cov` of the pool units among the first `n`, in increasing order. */
  function SortedKeys(rows: seq<Unit>, pool: set<nat>, cov: seq<nat>, n: nat): (keys: seq<seq<int>>)
    requires n <= |rows| && CovOk(rows, cov)
    ensures KeySorted(keys) && forall k :: 0 <= k < |keys| ==> |keys[k]| == |cov|
    ensures forall i {:trigger KeyOf(rows[i], cov)} :: 0 <= i < n && i in pool ==> KeyOf(rows[i], cov) in keys
    ensures forall y :: y in keys ==> exists i :: 0 <= i < n && i in pool && KeyOf(rows[i], cov) == y
  {
    if n == 0 then []
    else
      var keys := SortedKeys(rows, pool, cov, n - 1);
      if n - 1 in pool then InsertKey(KeyOf(rows[n - 1], cov), keys) else keys
  }

  /** The pool units among the first `n` whose key on `cov` is `key`, in input order. */
  function Group(rows: seq<Unit>, pool: set<nat>, cov: seq<nat>, key: seq<int>, n: nat): (g: seq<nat>)
    requires n <= |rows| && CovOk(rows, cov)
    ensures forall k :: 0 <= k < |g| ==> g[k] < n && g[k] in pool && KeyOf(rows[g[k]], cov) == key
    ensures forall i {:trigger KeyOf(rows[i], cov)} :: 0 <= i < n && i in pool && KeyOf(rows[i], cov) == key ==> i in g
  {
    if n == 0 then []
    else
      var g := Group(rows, pool, cov, key, n - 1);
      if n - 1 in pool && KeyOf(rows[n - 1], cov) == key then g + [n - 1] else g
  }

  /** A group lists its units in input order. */
  lemma {:induction false} GroupIncreasing(rows: seq<Unit>, pool: set<nat>, cov: seq<nat>, key: seq<int>, n: nat)
    requires n <= |rows| && CovOk(rows, cov)
    ensures Increasing(Group(rows, pool, cov, key, n))
  {
    if n > 0 {
      GroupIncreasing(rows, pool, cov, key, n - 1);
    }
  }

  /**
   * Removing from the pool the units of a group with another key does not
   * change a group: so grouping the current pool, as done here, gives the
   * groups pandas computes once from the pool at the start of the pass.
   */
  lemma {:induction false} GroupUnaffected(rows: seq<Unit>, pool: set<nat>, cov: seq<nat>, key: seq<int>, other: seq<int>, n: nat)
    requires n <= |rows| && CovOk(rows, cov) && key != other
    ensures Group(rows, pool - SetOf(Group(rows, pool, cov, other, |rows|)), cov, key, n) == Group(rows, pool, cov, key, n)
  {
    if n > 0 {
      GroupUnaffected(rows, pool, cov, key, other, n - 1);
    }
  }

  // ---------------------------------------------------------------------------
  // Specification of the two loops

  /** The groups `keys[j..]` of one pass on covariates `cov`, from pool `pool` and strata `strata`. */
  function PassFrom(rows: seq<Unit>, cov: seq<nat>, levels: nat, keys: seq<seq<int>>, j: nat,
                    pool: set<nat>, strata: seq<Stratum>): (set<nat>, seq<Stratum>)
    requires j <= |keys| && CovOk(rows, cov)
    decreases |keys| - j
  {
    if j == |keys| then (pool, strata)
    else
      var g := Group(rows, pool, cov, keys[j], |rows|);
      if |GroupLevels(rows, g)| == levels
      then PassFrom(rows, cov, levels, keys, j + 1, pool - SetOf(g), strata + [Stratum(cov, g)])
      else PassFrom(rows, cov, levels, keys, j + 1, pool, strata)
  }

  /** One full pass on the prefix `cov`. */
  function Pass(rows: seq<Unit>, cov: seq<nat>, levels: nat, pool: set<nat>, strata: seq<Stratum>): (set<nat>, seq<Stratum>)
    requires CovOk(rows, cov)
  {
    PassFrom(rows, cov, levels, SortedKeys(rows, pool, cov, |rows|), 0, pool, strata)
  }

  /** The passes on prefixes of length k down to 1, stopping once no treated unit is left. */
  function RunFrom(rows: seq<Unit>, order: seq<nat>, levels: nat, k: nat,
                   pool: set<nat>, strata: seq<Stratum>): (set<nat>, seq<Stratum>)
    requires k <= |order| && CovOk(rows, order)
    decreases k
  {
    if k == 0 then (pool, strata)
    else
      var next := Pass(rows, order[..k], levels, pool, strata);
      if TreatedIn(rows, next.0) == {} then next
      else RunFrom(rows, order, levels, k - 1, next.0, next.1)
  }

  /** The final pool and the strata of the whole matching on covariate order `order`. */
  function Matching(rows: seq<Unit>, order: seq<nat>): (set<nat>, seq<Stratum>)
    requires CovOk(rows, order)
  {
    RunFrom(rows, order, |TreatmentLevels(rows)|, |order|, AllIds(|rows|), [])
  }

  /** The prefix length of the last pass run (0 when there are no covariates). */
  ghost function LastPass(rows: seq<Unit>, order: seq<nat>, levels: nat, k: nat,
                          pool: set<nat>, strata: seq<Stratum>): nat
    requires k <= |order| && CovOk(rows, order)
    decreases k
  {
    if k == 0 then 0
    else
      var next := Pass(rows, order[..k], levels, pool, strata);
      if TreatedIn(rows, next.0) == {} || k == 1 then k
      else LastPass(rows, order, levels, k - 1, next.0, next.1)
  }

  // ---------------------------------------------------------------------------
  // What the matching guarantees

  /** The units of all strata. */
  function Covered(strata: seq<Stratum>): set<nat>
  {
    if strata == [] then {} else Covered(strata[..|strata| - 1]) + SetOf(strata[|strata| - 1].members)
  }

  /** The concatenation of the strata's members (`matched_df_final`). */
  function Flatten(strata: seq<Stratum>): seq<nat>
  {
    if strata == [] then [] else Flatten(strata[..|strata| - 1]) + strata[|strata| - 1].members
  }

  ghost predicate MembersInRange(rows: seq<Unit>, s: Stratum)
  {
    forall k :: 0 <= k < |s.members| ==> s.members[k] < |rows|
  }

  /** The strata are pairwise disjoint, disjoint from the pool, and together with it make up the input. */
  ghost predicate Partition(rows: seq<Unit>, pool: set<nat>, strata: seq<Stratum>)
  {
    && (forall i :: i in pool ==> i < |rows|)
    && (forall a :: 0 <= a < |strata| ==> Increasing(strata[a].members) && MembersInRange(rows, strata[a]))
    && (forall a, b :: 0 <= a < b < |strata| ==> SetOf(strata[a].members) !! SetOf(strata[b].members))
    && (forall a :: 0 <= a < |strata| ==> SetOf(strata[a].members) !! pool)
    && Covered(strata) + pool == AllIds(|rows|)
  }

  /**
   * A stratum is keyed on a non-empty prefix of the covariate order, all of its
   * members agree on every covariate of that prefix, and it holds as many
   * distinct treatment values as the whole input.
   */
  ghost predicate Keyed(rows: seq<Unit>, order: seq<nat>, levels: nat, s: Stratum)
  {
    && 1 <= |s.covariates| <= |order|
    && s.covariates == order[..|s.covariates|]
    && CovOk(rows, s.covariates)
    && MembersInRange(rows, s)
    && |GroupLevels(rows, s.members)| == levels
    && (forall a, b :: 0 <= a < |s.members| && 0 <= b < |s.members| ==>
          KeyOf(rows[s.members[a]], s.covariates) == KeyOf(rows[s.members[b]], s.covariates))
  }

  ghost predicate AllKeyed(rows: seq<Unit>, order: seq<nat>, levels: nat, strata: seq<Stratum>, atLeast: nat)
  {
    forall a :: 0 <= a < |strata| ==> Keyed(rows, order, levels, strata[a]) && |strata[a].covariates| >= atLeast
  }

  /** Strata appear in non-increasing order of key length. */
  ghost predicate Descending(strata: seq<Stratum>)
  {
    forall a, b :: 0 <= a < b < |strata| ==> |strata[a].covariates| >= |strata[b].covariates|
  }

  lemma CoveredAppend(strata: seq<Stratum>, s: Stratum)
    ensures Covered(strata + [s]) == Covered(strata) + SetOf(s.members)
  {
    assert (strata + [s])[..|strata|] == strata;
  }

  /** Moving a group from the pool to a new stratum keeps the partition. */
  lemma AcceptPartition(rows: seq<Unit>, cov: seq<nat>, key: seq<int>, pool: set<nat>, strata: seq<Stratum>)
    requires CovOk(rows, cov) && Partition(rows, pool, strata)
    ensures Partition(rows, pool - SetOf(Group(rows, pool, cov, key, |rows|)), strata + [Stratum(cov, Group(rows, pool, cov, key, |rows|))])
  {
    var g := Group(rows, pool, cov, key, |rows|);
    var s := Stratum(cov, g);
    var s' := strata + [s];
    GroupIncreasing(rows, pool, cov, key, |rows|);
    CoveredAppend(strata, s);
    assert SetOf(g) <= pool;
    forall a | 0 <= a < |s'| ensures Increasing(s'[a].members) && MembersInRange(rows, s'[a]) {
      if a < |strata| {
        assert s'[a] == strata[a];
      }
    }
    forall a, b | 0 <= a < b < |s'| ensures SetOf(s'[a].members) !! SetOf(s'[b].members) {
      assert s'[a] == strata[a];
      if b == |strata| {
        assert SetOf(strata[a].members) !! pool;
      } else {
        assert s'[b] == strata[b];
      }
    }
    forall a | 0 <= a < |s'| ensures SetOf(s'[a].members) !! pool - SetOf(g) {
      if a < |strata| {
        assert s'[a] == strata[a];
      }
    }
  }

  /** The group of a key holding every treatment value is a keyed stratum, at least as long-keyed as required. */
  lemma AcceptKeyed(rows: seq<Unit>, order: seq<nat>, cov: seq<nat>, levels: nat, key: seq<int>,
                    pool: set<nat>, strata: seq<Stratum>)
    requires CovOk(rows, order) && 1 <= |cov| <= |order| && cov == order[..|cov|]
    requires AllKeyed(rows, order, levels, strata, |cov|)
    requires |GroupLevels(rows, Group(rows, pool, cov, key, |rows|))| == levels
    ensures AllKeyed(rows, order, levels, strata + [Stratum(cov, Group(rows, pool, cov, key, |rows|))], |cov|)
  {
    var g := Group(rows, pool, cov, key, |rows|);
    var s := Stratum(cov, g);
    var s' := strata + [s];
    assert Keyed(rows, order, levels, s);
    forall a | 0 <= a < |s'| ensures Keyed(rows, order, levels, s'[a]) && |s'[a].covariates| >= |cov| {
      if a < |strata| {
        assert s'[a] == strata[a];
      }
    }
  }

  /** Keys never grow along the strata when the new one is keyed on no more covariates than any earlier one. */
  lemma AcceptDescending(strata: seq<Stratum>, s: Stratum)
    requires Descending(strata) && forall a :: 0 <= a < |strata| ==> |strata[a].covariates| >= |s.covariates|
    ensures Descending(strata + [s])
  {
    var s' := strata + [s];
    forall a, b | 0 <= a < b < |s'| ensures |s'[a].covariates| >= |s'[b].covariates| {
      assert s'[a] == strata[a];
      if b < |strata| {
        assert s'[b] == strata[b];
      }
    }
  }

  /** One accepted group keeps all the invariants. */
  lemma AcceptKeeps(rows: seq<Unit>, order: seq<nat>, cov: seq<nat>, levels: nat, key: seq<int>,
                    pool: set<nat>, strata: seq<Stratum>)
    requires CovOk(rows, order) && 1 <= |cov| <= |order| && cov == order[..|cov|]
    requires Partition(rows, pool, strata) && AllKeyed(rows, order, levels, strata, |cov|) && Descending(strata)
    requires |GroupLevels(rows, Group(rows, pool, cov, key, |rows|))| == levels
    ensures var g := Group(rows, pool, cov, key, |rows|);
      && Partition(rows, pool - SetOf(g), strata + [Stratum(cov, g)])
      && AllKeyed(rows, order, levels, strata + [Stratum(cov, g)], |cov|)
      && Descending(strata + [Stratum(cov, g)])
  {
    assert CovOk(rows, cov);
    AcceptPartition(rows, cov, key, pool, strata);
    AcceptKeyed(rows, order, cov, levels, key, pool, strata);
    AcceptDescending(strata, Stratum(cov, Group(rows, pool, cov, key, |rows|)));
  }

  lemma {:induction false} PassKeeps(rows: seq<Unit>, order: seq<nat>, cov: seq<nat>, levels: nat,
                                     keys: seq<seq<int>>, j: nat, pool: set<nat>, strata: seq<Stratum>)
    requires CovOk(rows, order) && 1 <= |cov| <= |order| && cov == order[..|cov|] && j <= |keys|
    requires Partition(rows, pool, strata) && AllKeyed(rows, order, levels, strata, |cov|) && Descending(strata)
    ensures var r := PassFrom(rows, cov, levels, keys, j, pool, strata);
      && Partition(rows, r.0, r.1) && AllKeyed(rows, order, levels, r.1, |cov|) && Descending(r.1)
      && r.0 <= pool && strata <= r.1
    decreases |keys| - j
  {
    if j < |keys| {
      var g := Group(rows, pool, cov, keys[j], |rows|);
      if |GroupLevels(rows, g)| == levels {
        AcceptKeeps(rows, order, cov, levels, keys[j], pool, strata);
        PassKeeps(rows, order, cov, levels, keys, j + 1, pool - SetOf(g), strata + [Stratum(cov, g)]);
      } else {
        PassKeeps(rows, order, cov, levels, keys, j + 1, pool, strata);
      }
    }
  }

  /** After a pass on `cov`, no non-empty group of the pool on `cov` holds every treatment value. */
  ghost predicate Saturated(rows: seq<Unit>, cov: seq<nat>, levels: nat, pool: set<nat>)
    requires CovOk(rows, cov)
  {
    forall key :: Group(rows, pool, cov, key, |rows|) != [] ==> |GroupLevels(rows, Group(rows, pool, cov, key, |rows|))| != levels
  }

  /** Removing a group from the pool leaves no unit with its key. */
  lemma {:induction false} GroupRemoved(rows: seq<Unit>, pool: set<nat>, cov: seq<nat>, key: seq<int>, n: nat)
    requires n <= |rows| && CovOk(rows, cov)
    ensures Group(rows, pool - SetOf(Group(rows, pool, cov, key, |rows|)), cov, key, n) == []
  {
    if n > 0 {
      GroupRemoved(rows, pool, cov, key, n - 1);
      if n - 1 in pool && KeyOf(rows[n - 1], cov) == key {
        assert n - 1 in Group(rows, pool, cov, key, |rows|);
      }
    }
  }

  /** Every group of `keys[..j]` in the pool is empty or lacks a treatment value. */
  ghost predicate RejectedBefore(rows: seq<Unit>, cov: seq<nat>, levels: nat, keys: seq<seq<int>>, j: nat, pool: set<nat>)
    requires CovOk(rows, cov) && j <= |keys|
  {
    forall a :: 0 <= a < j ==>
      Group(rows, pool, cov, keys[a], |rows|) == [] || |GroupLevels(rows, Group(rows, pool, cov, keys[a], |rows|))| != levels
  }

  /** Every pool unit has its key in `keys`. */
  ghost predicate KeysCover(rows: seq<Unit>, cov: seq<nat>, keys: seq<seq<int>>, pool: set<nat>)
    requires CovOk(rows, cov)
  {
    forall i :: i in pool && i < |rows| ==> KeyOf(rows[i], cov) in keys
  }

  lemma RejectedAll(rows: seq<Unit>, cov: seq<nat>, levels: nat, keys: seq<seq<int>>, pool: set<nat>)
    requires CovOk(rows, cov) && KeysCover(rows, cov, keys, pool) && RejectedBefore(rows, cov, levels, keys, |keys|, pool)
    ensures Saturated(rows, cov, levels, pool)
  {
    forall key | Group(rows, pool, cov, key, |rows|) != []
      ensures |GroupLevels(rows, Group(rows, pool, cov, key, |rows|))| != levels
    {
      var g := Group(rows, pool, cov, key, |rows|);
      assert KeyOf(rows[g[0]], cov) in keys;
      var a :| 0 <= a < |keys| && keys[a] == key;
    }
  }

  lemma RejectedAccept(rows: seq<Unit>, cov: seq<nat>, levels: nat, keys: seq<seq<int>>, j: nat, pool: set<nat>)
    requires CovOk(rows, cov) && j < |keys| && KeySorted(keys) && RejectedBefore(rows, cov, levels, keys, j, pool)
    ensures RejectedBefore(rows, cov, levels, keys, j + 1, pool - SetOf(Group(rows, pool, cov, keys[j], |rows|)))
  {
    var pool' := pool - SetOf(Group(rows, pool, cov, keys[j], |rows|));
    forall a | 0 <= a < j
      ensures Group(rows, pool', cov, keys[a], |rows|) == Group(rows, pool, cov, keys[a], |rows|)
    {
      LexIrreflexive(keys[a]);
      GroupUnaffected(rows, pool, cov, keys[a], keys[j], |rows|);
    }
    GroupRemoved(rows, pool, cov, keys[j], |rows|);
  }

  lemma {:induction false} PassMaximal(rows: seq<Unit>, cov: seq<nat>, levels: nat, keys: seq<seq<int>>, j: nat,
                                       pool: set<nat>, strata: seq<Stratum>)
    requires CovOk(rows, cov) && j <= |keys| && KeySorted(keys)
    requires KeysCover(rows, cov, keys, pool) && RejectedBefore(rows, cov, levels, keys, j, pool)
    ensures Saturated(rows, cov, levels, PassFrom(rows, cov, levels, keys, j, pool, strata).0)
    decreases |keys| - j
  {
    if j == |keys| {
      RejectedAll(rows, cov, levels, keys, pool);
    } else {
      var g := Group(rows, pool, cov, keys[j], |rows|);
      if |GroupLevels(rows, g)| == levels {
        RejectedAccept(rows, cov, levels, keys, j, pool);
        assert KeysCover(rows, cov, keys, pool - SetOf(g));
        PassMaximal(rows, cov, levels, keys, j + 1, pool - SetOf(g), strata + [Stratum(cov, g)]);
      } else {
        PassMaximal(rows, cov, levels, keys, j + 1, pool, strata);
      }
    }
  }

  /** A pass leaves the pool saturated on its covariates. */
  lemma PassSaturates(rows: seq<Unit>, cov: seq<nat>, levels: nat, pool: set<nat>, strata: seq<Stratum>)
    requires CovOk(rows, cov)
    ensures Saturated(rows, cov, levels, Pass(rows, cov, levels, pool, strata).0)
  {
    PassMaximal(rows, cov, levels, SortedKeys(rows, pool, cov, |rows|), 0, pool, strata);
  }

  lemma AllKeyedWeaken(rows: seq<Unit>, order: seq<nat>, levels: nat, strata: seq<Stratum>, a: nat, b: nat)
    requires AllKeyed(rows, order, levels, strata, a) && b <= a
    ensures AllKeyed(rows, order, levels, strata, b)
  {
  }

  /** What holds when the passes stop, with `last` the prefix length of the last pass. */
  ghost predicate Stopped(rows: seq<Unit>, order: seq<nat>, levels: nat, pool: set<nat>, strata: seq<Stratum>, last: nat)
  {
    && Partition(rows, pool, strata) && Descending(strata)
    && AllKeyed(rows, order, levels, strata, last)
    && AllKeyed(rows, order, levels, strata, 1)
    && (last > 1 ==> TreatedIn(rows, pool) == {})
    && (1 <= last ==> last <= |order| && CovOk(rows, order[..last]) && Saturated(rows, order[..last], levels, pool))
  }

  /** One unfolding of `RunFrom` and `LastPass` when treated units remain after the pass. */
  lemma RunStep(rows: seq<Unit>, order: seq<nat>, levels: nat, k: nat, pool: set<nat>, strata: seq<Stratum>)
    requires CovOk(rows, order) && 1 < k <= |order|
    requires TreatedIn(rows, Pass(rows, order[..k], levels, pool, strata).0) != {}
    ensures var next := Pass(rows, order[..k], levels, pool, strata);
      && RunFrom(rows, order, levels, k, pool, strata) == RunFrom(rows, order, levels, k - 1, next.0, next.1)
      && LastPass(rows, order, levels, k, pool, strata) == LastPass(rows, order, levels, k - 1, next.0, next.1)
  {
  }

  /** The pass on the prefix of length k keeps the invariants, with keys of length at least k. */
  lemma PassStep(rows: seq<Unit>, order: seq<nat>, levels: nat, k: nat, pool: set<nat>, strata: seq<Stratum>)
    requires CovOk(rows, order) && 1 <= k <= |order|
    requires Partition(rows, pool, strata) && AllKeyed(rows, order, levels, strata, k + 1) && Descending(strata)
    ensures var next := Pass(rows, order[..k], levels, pool, strata);
      Partition(rows, next.0, next.1) && AllKeyed(rows, order, levels, next.1, k) && Descending(next.1)
  {
    CovOkPrefix(rows, order, k);
    AllKeyedWeaken(rows, order, levels, strata, k + 1, k);
    PassKeeps(rows, order, order[..k], levels, SortedKeys(rows, pool, order[..k], |rows|), 0, pool, strata);
  }

  /** After pass k the run either stops, or goes on to a run from k - 1 that stops. */
  lemma RunAfter(rows: seq<Unit>, order: seq<nat>, levels: nat, k: nat, pool: set<nat>, strata: seq<Stratum>)
    requires CovOk(rows, order) && 1 <= k <= |order|
    requires var next := Pass(rows, order[..k], levels, pool, strata);
      && Partition(rows, next.0, next.1) && AllKeyed(rows, order, levels, next.1, k) && Descending(next.1)
      && (TreatedIn(rows, next.0) != {} && k != 1 ==>
            && Stopped(rows, order, levels, RunFrom(rows, order, levels, k - 1, next.0, next.1).0,
                       RunFrom(rows, order, levels, k - 1, next.0, next.1).1, LastPass(rows, order, levels, k - 1, next.0, next.1))
            && LastPass(rows, order, levels, k - 1, next.0, next.1) != 0)
    ensures Stopped(rows, order, levels, RunFrom(rows, order, levels, k, pool, strata).0,
                    RunFrom(rows, order, levels, k, pool, strata).1, LastPass(rows, order, levels, k, pool, strata))
    ensures LastPass(rows, order, levels, k, pool, strata) != 0
  {
    var next := Pass(rows, order[..k], levels, pool, strata);
    if TreatedIn(rows, next.0) == {} || k == 1 {
      RunStops(rows, order, levels, k, pool, strata);
    } else {
      RunContinues(rows, order, levels, k, pool, strata);
    }
  }

  /** A pass after which no treated unit is left, or the pass on one covariate, is the last. */
  lemma RunStops(rows: seq<Unit>, order: seq<nat>, levels: nat, k: nat, pool: set<nat>, strata: seq<Stratum>)
    requires CovOk(rows, order) && 1 <= k <= |order|
    requires var next := Pass(rows, order[..k], levels, pool, strata);
      && (TreatedIn(rows, next.0) == {} || k == 1)
      && Partition(rows, next.0, next.1) && AllKeyed(rows, order, levels, next.1, k) && Descending(next.1)
    ensures LastPass(rows, order, levels, k, pool, strata) == k
    ensures Stopped(rows, order, levels, RunFrom(rows, order, levels, k, pool, strata).0,
                    RunFrom(rows, order, levels, k, pool, strata).1, k)
  {
    var next := Pass(rows, order[..k], levels, pool, strata);
    assert RunFrom(rows, order, levels, k, pool, strata) == next;
    CovOkPrefix(rows, order, k);
    AllKeyedWeaken(rows, order, levels, next.1, k, 1);
    PassSaturates(rows, order[..k], levels, pool, strata);
  }

  /** When treated units remain, what holds after the later passes holds after this one. */
  lemma RunContinues(rows: seq<Unit>, order: seq<nat>, levels: nat, k: nat, pool: set<nat>, strata: seq<Stratum>)
    requires CovOk(rows, order) && 1 < k <= |order|
    requires var next := Pass(rows, order[..k], levels, pool, strata);
      && TreatedIn(rows, next.0) != {}
      && Stopped(rows, order, levels, RunFrom(rows, order, levels, k - 1, next.0, next.1).0,
                 RunFrom(rows, order, levels, k - 1, next.0, next.1).1, LastPass(rows, order, levels, k - 1, next.0, next.1))
      && LastPass(rows, order, levels, k - 1, next.0, next.1) != 0
    ensures Stopped(rows, order, levels, RunFrom(rows, order, levels, k, pool, strata).0,
                    RunFrom(rows, order, levels, k, pool, strata).1, LastPass(rows, order, levels, k, pool, strata))
    ensures LastPass(rows, order, levels, k, pool, strata) != 0
  {
    RunStep(rows, order, levels, k, pool, strata);
  }

  lemma {:induction false} RunKeeps(rows: seq<Unit>, order: seq<nat>, levels: nat, k: nat,
                                    pool: set<nat>, strata: seq<Stratum>)
    requires CovOk(rows, order) && k <= |order|
    requires Partition(rows, pool, strata) && AllKeyed(rows, order, levels, strata, k + 1) && Descending(strata)
    ensures Stopped(rows, order, levels, RunFrom(rows, order, levels, k, pool, strata).0,
                    RunFrom(rows, order, levels, k, pool, strata).1, LastPass(rows, order, levels, k, pool, strata))
    ensures LastPass(rows, order, levels, k, pool, strata) == 0 <==> k == 0
    decreases k
  {
    if k == 0 {
      AllKeyedWeaken(rows, order, levels, strata, 1, 0);
    } else {
      PassStep(rows, order, levels, k, pool, strata);
      var next := Pass(rows, order[..k], levels, pool, strata);
      if TreatedIn(rows, next.0) != {} && k != 1 {
        RunKeeps(rows, order, levels, k - 1, next.0, next.1);
      }
      RunAfter(rows, order, levels, k, pool, strata);
    }
  }

  /**
   * The matching's guarantees: the strata and the final pool partition the
   * input; every stratum is keyed on a prefix of the order, its members agree
   * on that prefix and it holds every treatment value of the input; strata come
   * in non-increasing key length; and the passes stop early exactly as the
   * loop does: no stratum is shorter than the last pass, and a last pass longer
   * than 1 means that no treated unit was left.
   */
  lemma MatchingProperties(rows: seq<Unit>, order: seq<nat>)
    requires CovOk(rows, order)
    ensures var last := LastPass(rows, order, |TreatmentLevels(rows)|, |order|, AllIds(|rows|), []);
      && Stopped(rows, order, |TreatmentLevels(rows)|, Matching(rows, order).0, Matching(rows, order).1, last)
      && (last == 0 <==> order == [])
  {
    RunKeeps(rows, order, |TreatmentLevels(rows)|, |order|, AllIds(|rows|), []);
  }

  /** The matched units, stratum after stratum, are the covered units, each once. */
  lemma {:induction false} FlattenCovered(rows: seq<Unit>, pool: set<nat>, strata: seq<Stratum>)
    requires forall a :: 0 <= a < |strata| ==> Increasing(strata[a].members)
    requires forall a, b :: 0 <= a < b < |strata| ==> SetOf(strata[a].members) !! SetOf(strata[b].members)
    ensures SetOf(Flatten(strata)) == Covered(strata) && NoDuplicates(Flatten(strata))
  {
    if strata != [] {
      var init := strata[..|strata| - 1];
      var last := strata[|strata| - 1].members;
      FlattenCovered(rows, pool, init);
      var f := Flatten(init);
      forall x | x in f ensures x !in last {
        SetOfFlatten(init, x);
      }
      forall p, q | 0 <= p < |f + last| && 0 <= q < |f + last| && p != q
        ensures (f + last)[p] != (f + last)[q]
      {
        if p >= |f| && q >= |f| {
          assert last[p - |f|] != last[q - |f|] by {
            if p < q { assert last[p - |f|] < last[q - |f|]; } else { assert last[q - |f|] < last[p - |f|]; }
          }
        } else if p < |f| && q >= |f| {
          assert f[p] in f && last[q - |f|] in last;
        } else if p >= |f| && q < |f| {
          assert f[q] in f && last[p - |f|] in last;
        }
      }
    }
  }

  lemma {:induction false} SetOfFlatten(strata: seq<Stratum>, x: nat)
    requires x in Flatten(strata)
    ensures exists a :: 0 <= a < |strata| && x in strata[a].members
  {
    var init := strata[..|strata| - 1];
    if x !in strata[|strata| - 1].members {
      SetOfFlatten(init, x);
      var a :| 0 <= a < |init| && x in init[a].members;
      assert strata[a] == init[a];
    }
  }

  /** One pass of the matching loop: the groups of the pool on `cov`, in key order. */
  method MatchPass(rows: seq<Unit>, cov: seq<nat>, levels: nat, pool: set<nat>, strata: seq<Stratum>)
    returns (pool': set<nat>, strata': seq<Stratum>)
    requires CovOk(rows, cov)
    ensures (pool', strata') == Pass(rows, cov, levels, pool, strata)
  {
    var keys := SortedKeys(rows, pool, cov, |rows|);
    pool', strata' := pool, strata;
    var j := 0;
    while j < |keys|
      invariant j <= |keys|
      invariant PassFrom(rows, cov, levels, keys, j, pool', strata') == Pass(rows, cov, levels, pool, strata)
    {
      var group := Group(rows, pool', cov, keys[j], |rows|);
      if |GroupLevels(rows, group)| == levels {
        strata' := strata' + [Stratum(cov, group)];
        pool' := pool' - SetOf(group);
      }
      j := j + 1;
    }
  }

  /** What the result of the matching guarantees, in the terms of the method's results. */
  lemma MatchingResult(rows: seq<Unit>, order: seq<nat>, remaining: set<nat>, strata: seq<Stratum>)
    requires CovOk(rows, order) && (remaining, strata) == Matching(rows, order)
    ensures Partition(rows, remaining, strata) && Descending(strata)
    ensures AllKeyed(rows, order, |TreatmentLevels(rows)|, strata, 1)
    ensures var matched := Flatten(strata);
      NoDuplicates(matched) && SetOf(matched) + remaining == AllIds(|rows|) && SetOf(matched) !! remaining
  {
    MatchingProperties(rows, order);
    FlattenCovered(rows, remaining, strata);
    forall a | 0 <= a < |strata| ensures SetOf(strata[a].members) <= Covered(strata) {
      CoveredHas(strata, a);
    }
    forall x | x in Covered(strata) ensures x !in remaining {
      CoveredIn(strata, x);
    }
  }

  lemma {:induction false} CoveredHas(strata: seq<Stratum>, a: nat)
    requires a < |strata|
    ensures SetOf(strata[a].members) <= Covered(strata)
  {
    if a < |strata| - 1 {
      CoveredHas(strata[..|strata| - 1], a);
    }
  }

  lemma {:induction false} CoveredIn(strata: seq<Stratum>, x: nat)
    requires x in Covered(strata)
    ensures exists a :: 0 <= a < |strata| && x in strata[a].members
  {
    var init := strata[..|strata| - 1];
    if x !in strata[|strata| - 1].members {
      CoveredIn(init, x);
      var a :| 0 <= a < |init| && x in init[a].members;
      assert strata[a] == init[a];
    }
  }

  /** One step of the outer loop against its specification `RunFrom`. */
  lemma RunAdvance(rows: seq<Unit>, order: seq<nat>, levels: nat, k: nat, pool: set<nat>, strata: seq<Stratum>,
                   pool': set<nat>, strata': seq<Stratum>, goal: (set<nat>, seq<Stratum>))
    requires CovOk(rows, order) && 0 < k <= |order| && (pool', strata') == Pass(rows, order[..k], levels, pool, strata)
    requires RunFrom(rows, order, levels, k, pool, strata) == goal
    ensures TreatedIn(rows, pool') == {} ==> (pool', strata') == goal
    ensures TreatedIn(rows, pool') != {} ==> RunFrom(rows, order, levels, k - 1, pool', strata') == goal
  {
  }

  /** Equal prefix lengths give equal runs (spares the solver an arithmetic congruence). */
  lemma RunSame(rows: seq<Unit>, order: seq<nat>, levels: nat, a: nat, b: nat, pool: set<nat>, strata: seq<Stratum>)
    requires CovOk(rows, order) && a == b <= |order|
    ensures RunFrom(rows, order, levels, a, pool, strata) == RunFrom(rows, order, levels, b, pool, strata)
  {
  }

  /**
   * `_exact_matching_with_importance`: the passes over prefixes of the
   * importance order, from all covariates down to one.  Returns the strata,
   * the unmatched treated units, the unmatched units and the matched units in
   * stratum order.
   */
  method ExactMatching(rows: seq<Unit>, ranking: seq<(nat, real)>)
    returns (strata: seq<Stratum>, unmatchedTreated: set<nat>, remaining: set<nat>, matched: seq<nat>)
    requires CovOk(rows, Ranking.SortedCovariates(ranking))
    ensures (remaining, strata) == Matching(rows, Ranking.SortedCovariates(ranking))
    ensures unmatchedTreated == TreatedIn(rows, remaining)
    ensures matched == Flatten(strata)
    ensures Partition(rows, remaining, strata) && Descending(strata)
    ensures AllKeyed(rows, Ranking.SortedCovariates(ranking), |TreatmentLevels(rows)|, strata, 1)
    ensures NoDuplicates(matched) && SetOf(matched) + remaining == AllIds(|rows|) && SetOf(matched) !! remaining
  {
    var order := Ranking.SortedCovariates(ranking);
    var levels := |TreatmentLevels(rows)|;
    remaining, strata := AllIds(|rows|), [];
    ghost var goal := Matching(rows, order);
    var size: nat := |order|;
    while size > 0
      invariant size <= |order|
      invariant RunFrom(rows, order, levels, size, remaining, strata) == goal
    {
      CovOkPrefix(rows, order, size);
      ghost var pool0, strata0 := remaining, strata;
      remaining, strata := MatchPass(rows, order[..size], levels, remaining, strata);
      RunAdvance(rows, order, levels, size, pool0, strata0, remaining, strata, goal);
      if TreatedIn(rows, remaining) == {} {
        break;
      }
      var smaller: nat := size - 1;
      RunSame(rows, order, levels, smaller, size - 1, remaining, strata);
      size := smaller;
    }
    unmatchedTreated := TreatedIn(rows, remaining);
    matched := Flatten(strata);
    MatchingResult(rows, order, remaining, strata);
  }
}
