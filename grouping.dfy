/**
 * GROUP BY one key with a SUM reduction, producing one group per distinct key
 * in ascending key order (pandas `groupby(...).size()` sorts its keys; the SQL
 * rollup's final ORDER BY sorts its groups the same way). A row count is the
 * special case where every row weighs 1.
 */
module Grouping {

  datatype Group<K> = Group(key: K, total: int)

  /** `less` is irreflexive, transitive and total on distinct keys. */
  ghost predicate StrictTotalOrder<K(!new)>(less: (K, K) -> bool)
  {
    && (forall a :: !less(a, a))
    && (forall a, b, c :: less(a, b) && less(b, c) ==> less(a, c))
    && (forall a, b :: a != b ==> less(a, b) || less(b, a))
  }

  /** Keys strictly ascending, hence pairwise distinct. */
  ghost predicate StrictlySorted<K>(gs: seq<Group<K>>, less: (K, K) -> bool)
  {
    forall i, j :: 0 <= i < j < |gs| ==> less(gs[i].key, gs[j].key)
  }

  ghost function KeySet<K>(gs: seq<Group<K>>): set<K>
  {
    set i | 0 <= i < |gs| :: gs[i].key
  }

  ghost function ItemKeys<K>(items: seq<(K, int)>): set<K>
  {
    set i | 0 <= i < |items| :: items[i].0
  }

  /** The sum of the totals of the groups whose key is `k` (0 when there is none). */
  function TotalIn<K(==)>(gs: seq<Group<K>>, k: K): int
  {
    if gs == [] then 0 else (if gs[0].key == k then gs[0].total else 0) + TotalIn(gs[1..], k)
  }

  function SumTotals<K>(gs: seq<Group<K>>): int
  {
    if gs == [] then 0 else gs[0].total + SumTotals(gs[1..])
  }

  /** The sum of the weights of the items whose key is `k`. */
  function SumFor<K(==)>(items: seq<(K, int)>, k: K): int
  {
    if items == [] then 0
    else SumFor(items[..|items| - 1], k) + (if items[|items| - 1].0 == k then items[|items| - 1].1 else 0)
  }

  function SumWeights<K>(items: seq<(K, int)>): int
  {
    if items == [] then 0 else SumWeights(items[..|items| - 1]) + items[|items| - 1].1
  }

  /** Adds weight `w` to the group of `k`, creating it in key order when it is new. */
  function Insert<K(==)>(gs: seq<Group<K>>, k: K, w: int, less: (K, K) -> bool): seq<Group<K>>
  {
    if gs == [] then [Group(k, w)]
    else if gs[0].key == k then [Group(k, gs[0].total + w)] + gs[1..]
    else if less(k, gs[0].key) then [Group(k, w)] + gs
    else [gs[0]] + Insert(gs[1..], k, w, less)
  }

  /** GROUP BY key with SUM(weight), groups in ascending key order. */
  function GroupSum<K(==)>(items: seq<(K, int)>, less: (K, K) -> bool): seq<Group<K>>
  {
    if items == [] then []
    else
      var last := items[|items| - 1];
      Insert(GroupSum(items[..|items| - 1], less), last.0, last.1, less)
  }

  lemma {:induction false} KeySetCons<K>(g: Group<K>, gs: seq<Group<K>>)
    ensures KeySet([g] + gs) == {g.key} + KeySet(gs)
  {
    var s := [g] + gs;
    forall k | k in KeySet(s) ensures k in {g.key} + KeySet(gs) {
      var i :| 0 <= i < |s| && s[i].key == k;
      if i > 0 {
        assert gs[i - 1].key == k;
      }
    }
    forall k | k in KeySet(gs) ensures k in KeySet(s) {
      var i :| 0 <= i < |gs| && gs[i].key == k;
      assert s[i + 1].key == k;
    }
    assert s[0].key == g.key;
  }

  lemma {:induction false} InsertKeys<K>(gs: seq<Group<K>>, k: K, w: int, less: (K, K) -> bool)
    ensures KeySet(Insert(gs, k, w, less)) == KeySet(gs) + {k}
  {
    if gs == [] {
      KeySetCons(Group(k, w), []);
    } else {
      KeySetCons(gs[0], gs[1..]);
      assert gs == [gs[0]] + gs[1..];
      if gs[0].key == k {
        KeySetCons(Group(k, gs[0].total + w), gs[1..]);
      } else if less(k, gs[0].key) {
        KeySetCons(Group(k, w), gs);
      } else {
        InsertKeys(gs[1..], k, w, less);
        KeySetCons(gs[0], Insert(gs[1..], k, w, less));
      }
    }
  }

  lemma {:induction false} InsertSorted<K(!new)>(gs: seq<Group<K>>, k: K, w: int, less: (K, K) -> bool)
    requires StrictTotalOrder(less)
    requires StrictlySorted(gs, less)
    ensures StrictlySorted(Insert(gs, k, w, less), less)
  {
    if gs != [] && gs[0].key != k && !less(k, gs[0].key) {
      var rest := Insert(gs[1..], k, w, less);
      InsertSorted(gs[1..], k, w, less);
      InsertKeys(gs[1..], k, w, less);
      forall j | 0 <= j < |rest| ensures less(gs[0].key, rest[j].key) {
        assert rest[j].key in KeySet(rest);
        if rest[j].key != k {
          var i :| 0 <= i < |gs[1..]| && gs[1..][i].key == rest[j].key;
          assert gs[1..][i] == gs[i + 1];
        }
      }
    }
  }

  lemma {:induction false} InsertTotal<K>(gs: seq<Group<K>>, k: K, w: int, less: (K, K) -> bool, k': K)
    ensures TotalIn(Insert(gs, k, w, less), k') == TotalIn(gs, k') + (if k' == k then w else 0)
    ensures SumTotals(Insert(gs, k, w, less)) == SumTotals(gs) + w
  {
    if gs != [] && gs[0].key != k && !less(k, gs[0].key) {
      InsertTotal(gs[1..], k, w, less, k');
    }
  }

  /** A key that no group has contributes nothing. */
  lemma {:induction false} TotalInAbsent<K>(gs: seq<Group<K>>, k: K)
    requires forall i :: 0 <= i < |gs| ==> gs[i].key != k
    ensures TotalIn(gs, k) == 0
  {
    if gs != [] {
      TotalInAbsent(gs[1..], k);
    }
  }

  /** In a list with distinct keys, a group's total is everything recorded under its key. */
  lemma {:induction false} SortedGroupTotal<K(!new)>(gs: seq<Group<K>>, less: (K, K) -> bool, i: nat)
    requires StrictTotalOrder(less)
    requires StrictlySorted(gs, less)
    requires i < |gs|
    ensures gs[i].total == TotalIn(gs, gs[i].key)
  {
    if i == 0 {
      TotalInAbsent(gs[1..], gs[0].key);
    } else {
      assert less(gs[0].key, gs[i].key);
      assert gs[1..][i - 1] == gs[i];
      SortedGroupTotal(gs[1..], less, i - 1);
    }
  }

  /**
   * GROUP BY with SUM: the groups are in strictly ascending key order (one
   * per key), their keys are exactly the keys present among the items, each
   * group's total is the sum of the weights of its items, and no weight is
   * lost or invented.
   */
  lemma {:induction false} GroupSumCorrect<K(!new)>(items: seq<(K, int)>, less: (K, K) -> bool)
    requires StrictTotalOrder(less)
    ensures StrictlySorted(GroupSum(items, less), less)
    ensures KeySet(GroupSum(items, less)) == ItemKeys(items)
    ensures forall k :: TotalIn(GroupSum(items, less), k) == SumFor(items, k)
    ensures forall i :: 0 <= i < |GroupSum(items, less)| ==>
      GroupSum(items, less)[i].total == SumFor(items, GroupSum(items, less)[i].key)
    ensures SumTotals(GroupSum(items, less)) == SumWeights(items)
  {
    var gs := GroupSum(items, less);
    if items != [] {
      var init := items[..|items| - 1];
      var last := items[|items| - 1];
      var prev := GroupSum(init, less);
      GroupSumCorrect(init, less);
      InsertSorted(prev, last.0, last.1, less);
      InsertKeys(prev, last.0, last.1, less);
      forall k ensures TotalIn(gs, k) == SumFor(items, k) {
        InsertTotal(prev, last.0, last.1, less, k);
      }
      InsertTotal(prev, last.0, last.1, less, last.0);
      assert ItemKeys(items) == ItemKeys(init) + {last.0} by {
        forall k | k in ItemKeys(items) ensures k in ItemKeys(init) + {last.0} {
          var i :| 0 <= i < |items| && items[i].0 == k;
          if i < |init| {
            assert init[i] == items[i];
          }
        }
        forall k | k in ItemKeys(init) ensures k in ItemKeys(items) {
          var i :| 0 <= i < |init| && init[i].0 == k;
          assert items[i] == init[i];
        }
      }
    } else {
      assert ItemKeys(items) == {};
    }
    forall i | 0 <= i < |gs| ensures gs[i].total == SumFor(items, gs[i].key) {
      SortedGroupTotal(gs, less, i);
    }
  }
}
