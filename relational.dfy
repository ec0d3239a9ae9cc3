/**
 * LEFT OUTER JOIN over finite tables, as used by both the SQL rollup and the
 * dataframe enrichment: every left row is kept, once per matching right row or
 * once padded with NULL, and a NULL key never matches anything.
 */
module Relational {
  import opened Wrappers

  /** SQL key equality: both keys present and equal (NULL = NULL is not true). */
  predicate KeysMatch<K(==)>(a: Option<K>, b: Option<K>)
  {
    a.Some? && b.Some? && a.value == b.value
  }

  /** The right rows that join with `l`, in right-table order. */
  function Matches<L, R, K(==)>(l: L, right: seq<R>, lk: L -> Option<K>, rk: R -> Option<K>): (ms: seq<R>)
    ensures |ms| <= |right|
  {
    if right == [] then []
    else (if KeysMatch(lk(l), rk(right[0])) then [right[0]] else []) + Matches(l, right[1..], lk, rk)
  }

  /** The partners of `l` are right rows whose key equals its key, and every such right row is one of them. */
  lemma {:induction false} MatchesMembers<L, R, K>(l: L, right: seq<R>, lk: L -> Option<K>, rk: R -> Option<K>)
    ensures forall i :: 0 <= i < |Matches(l, right, lk, rk)| ==>
      Matches(l, right, lk, rk)[i] in right && KeysMatch(lk(l), rk(Matches(l, right, lk, rk)[i]))
    ensures forall j :: 0 <= j < |right| && KeysMatch(lk(l), rk(right[j])) ==> right[j] in Matches(l, right, lk, rk)
  {
    if right != [] {
      MatchesMembers(l, right[1..], lk, rk);
      var ms := Matches(l, right, lk, rk);
      var rest := Matches(l, right[1..], lk, rk);
      var head := if KeysMatch(lk(l), rk(right[0])) then [right[0]] else [];
      assert ms == head + rest;
      forall i | 0 <= i < |ms| ensures ms[i] in right && KeysMatch(lk(l), rk(ms[i])) {
        if i < |head| {
          assert ms[i] == right[0];
        } else {
          var k := i - |head|;
          assert ms[i] == rest[k];
          assert rest[k] in right[1..] && KeysMatch(lk(l), rk(rest[k]));
          var m :| 0 <= m < |right[1..]| && right[1..][m] == rest[k];
          assert right[m + 1] == rest[k];
        }
      }
      forall j | 0 <= j < |right| && KeysMatch(lk(l), rk(right[j])) ensures right[j] in ms {
        if j > 0 {
          assert right[j] == right[1..][j - 1];
        }
      }
    }
  }

  /** Each matching right row is a partner once per occurrence in the right table; a non-matching row never is. */
  lemma {:induction false} MatchesCount<L, R, K>(l: L, right: seq<R>, lk: L -> Option<K>, rk: R -> Option<K>)
    ensures forall r ::
      multiset(Matches(l, right, lk, rk))[r] == if KeysMatch(lk(l), rk(r)) then multiset(right)[r] else 0
  {
    if right != [] {
      MatchesCount(l, right[1..], lk, rk);
      assert right == [right[0]] + right[1..];
    }
  }

  /** The partners come in right-table order: matching against a concatenation matches each part in turn. */
  lemma {:induction false} MatchesAppend<L, R, K>(l: L, a: seq<R>, b: seq<R>, lk: L -> Option<K>, rk: R -> Option<K>)
    ensures Matches(l, a + b, lk, rk) == Matches(l, a, lk, rk) + Matches(l, b, lk, rk)
  {
    if a != [] {
      MatchesAppend(l, a[1..], b, lk, rk);
      assert a + b == [a[0]] + (a[1..] + b);
      MatchesCons(l, a[0], a[1..] + b, lk, rk);
    } else {
      assert a + b == b;
    }
  }

  lemma MatchesCons<L, R, K>(l: L, x: R, t: seq<R>, lk: L -> Option<K>, rk: R -> Option<K>)
    ensures Matches(l, [x] + t, lk, rk) == (if KeysMatch(lk(l), rk(x)) then [x] else []) + Matches(l, t, lk, rk)
  {
    assert ([x] + t)[0] == x && ([x] + t)[1..] == t;
  }

  /** How many output rows one left row produces: its number of matches, but at least one. */
  function FanOut<L, R, K(==)>(l: L, right: seq<R>, lk: L -> Option<K>, rk: R -> Option<K>): nat
  {
    var m := |Matches(l, right, lk, rk)|;
    if m == 0 then 1 else m
  }

  /** The output rows for one left row. */
  function JoinRow<L, R, K(==)>(l: L, right: seq<R>, lk: L -> Option<K>, rk: R -> Option<K>): seq<(L, Option<R>)>
  {
    var ms := Matches(l, right, lk, rk);
    if ms == [] then [(l, None)]
    else seq(|ms|, i requires 0 <= i < |ms| => (l, Some(ms[i])))
  }

  /** The rows of one left row: the row itself, paired with each match in turn or with NULL. */
  lemma JoinRowShape<L, R, K>(l: L, right: seq<R>, lk: L -> Option<K>, rk: R -> Option<K>)
    ensures var rows, ms := JoinRow(l, right, lk, rk), Matches(l, right, lk, rk);
      && |rows| == FanOut(l, right, lk, rk)
      && forall k :: 0 <= k < |rows| ==> rows[k] == (l, if ms == [] then None else Some(ms[k]))
  {
  }

  /** `left LEFT JOIN right ON lk(left) = rk(right)`, in left-table order. */
  function LeftJoin<L, R, K(==)>(left: seq<L>, right: seq<R>, lk: L -> Option<K>, rk: R -> Option<K>): seq<(L, Option<R>)>
  {
    if left == [] then []
    else JoinRow(left[0], right, lk, rk) + LeftJoin(left[1..], right, lk, rk)
  }

  /** The number of rows a left join must produce: the sum over left rows of max(1, matches). */
  function JoinSize<L, R, K(==)>(left: seq<L>, right: seq<R>, lk: L -> Option<K>, rk: R -> Option<K>): nat
  {
    if left == [] then 0 else FanOut(left[0], right, lk, rk) + JoinSize(left[1..], right, lk, rk)
  }

  /** No two right rows share a (non-NULL) key. */
  ghost predicate UniqueKeys<R, K>(right: seq<R>, rk: R -> Option<K>)
  {
    forall i, j :: 0 <= i < j < |right| ==> !KeysMatch(rk(right[i]), rk(right[j]))
  }

  lemma {:induction false} LeftJoinAppend<L, R, K>(a: seq<L>, b: seq<L>, right: seq<R>, lk: L -> Option<K>, rk: R -> Option<K>)
    ensures LeftJoin(a + b, right, lk, rk) == LeftJoin(a, right, lk, rk) + LeftJoin(b, right, lk, rk)
  {
    if a != [] {
      assert (a + b)[1..] == a[1..] + b;
      LeftJoinAppend(a[1..], b, right, lk, rk);
    } else {
      assert a + b == b;
    }
  }

  /** The join size of a concatenation is the sum of the parts' sizes. */
  lemma {:induction false} JoinSizeAppend<L, R, K>(a: seq<L>, b: seq<L>, right: seq<R>, lk: L -> Option<K>, rk: R -> Option<K>)
    ensures JoinSize(a + b, right, lk, rk) == JoinSize(a, right, lk, rk) + JoinSize(b, right, lk, rk)
  {
    if a != [] {
      assert (a + b)[1..] == a[1..] + b;
      JoinSizeAppend(a[1..], b, right, lk, rk);
    } else {
      assert a + b == b;
    }
  }

  /** Join cardinality: every left row yields max(1, number of matches) rows. */
  lemma {:induction false} LeftJoinCardinality<L, R, K>(left: seq<L>, right: seq<R>, lk: L -> Option<K>, rk: R -> Option<K>)
    ensures |LeftJoin(left, right, lk, rk)| == JoinSize(left, right, lk, rk)
    ensures JoinSize(left, right, lk, rk) >= |left|
  {
    if left != [] {
      LeftJoinCardinality(left[1..], right, lk, rk);
    }
  }

  /** Some row of `out` carries the left row `l`. */
  ghost predicate Carries<L, R>(out: seq<(L, Option<R>)>, l: L)
  {
    exists j :: 0 <= j < |out| && out[j].0 == l
  }

  /** Every left row survives the join: some output row carries it. */
  lemma {:induction false} LeftJoinKeepsLeftRows<L, R, K>(left: seq<L>, right: seq<R>, lk: L -> Option<K>, rk: R -> Option<K>)
    ensures forall i :: 0 <= i < |left| ==> Carries(LeftJoin(left, right, lk, rk), left[i])
  {
    if left != [] {
      LeftJoinKeepsLeftRows(left[1..], right, lk, rk);
      var head := JoinRow(left[0], right, lk, rk);
      var tail := LeftJoin(left[1..], right, lk, rk);
      var out := LeftJoin(left, right, lk, rk);
      assert out == head + tail;
      JoinRowShape(left[0], right, lk, rk);
      forall i | 0 <= i < |left| ensures Carries(out, left[i]) {
        if i == 0 {
          assert out[0] == head[0];
        } else {
          assert Carries(tail, left[1..][i - 1]);
          var j :| 0 <= j < |tail| && tail[j].0 == left[1..][i - 1];
          assert out[|head| + j] == tail[j];
        }
      }
    }
  }

  /** `p` pairs a left row with one of its matches, or with NULL exactly when it has none. */
  ghost predicate JoinedPair<L, R, K>(p: (L, Option<R>), left: seq<L>, right: seq<R>, lk: L -> Option<K>, rk: R -> Option<K>)
  {
    && p.0 in left
    && (p.1.Some? ==> p.1.value in right && KeysMatch(lk(p.0), rk(p.1.value)))
    && (p.1.None? <==> Matches(p.0, right, lk, rk) == [])
  }

  /** Every output row of the join is a left row paired with a match, or with NULL when there is none. */
  lemma {:induction false} LeftJoinPairsMatches<L, R, K>(left: seq<L>, right: seq<R>, lk: L -> Option<K>, rk: R -> Option<K>)
    ensures forall j :: 0 <= j < |LeftJoin(left, right, lk, rk)| ==>
      JoinedPair(LeftJoin(left, right, lk, rk)[j], left, right, lk, rk)
  {
    if left != [] {
      var rest := left[1..];
      LeftJoinPairsMatches(rest, right, lk, rk);
      var head := JoinRow(left[0], right, lk, rk);
      var tail := LeftJoin(rest, right, lk, rk);
      var out := LeftJoin(left, right, lk, rk);
      var ms := Matches(left[0], right, lk, rk);
      MatchesMembers(left[0], right, lk, rk);
      assert out == head + tail;
      JoinRowShape(left[0], right, lk, rk);
      forall j | 0 <= j < |out| ensures JoinedPair(out[j], left, right, lk, rk) {
        if j < |head| {
          assert out[j] == head[j];
          if ms != [] {
            assert ms[j] in right && KeysMatch(lk(left[0]), rk(ms[j]));
          }
        } else {
          assert out[j] == tail[j - |head|];
          assert JoinedPair(tail[j - |head|], rest, right, lk, rk);
          assert forall l :: l in rest ==> l in left;
        }
      }
    }
  }

  /** When each left row matches at most once, the join keeps the left table row for row. */
  lemma {:induction false} LeftJoinAtMostOneMatch<L, R, K>(left: seq<L>, right: seq<R>, lk: L -> Option<K>, rk: R -> Option<K>)
    requires forall i :: 0 <= i < |left| ==> |Matches(left[i], right, lk, rk)| <= 1
    ensures |LeftJoin(left, right, lk, rk)| == |left|
    ensures forall i :: 0 <= i < |left| ==>
      var ms := Matches(left[i], right, lk, rk);
      LeftJoin(left, right, lk, rk)[i] == (left[i], if ms == [] then None else Some(ms[0]))
  {
    if left != [] {
      var rest := left[1..];
      assert forall i :: 0 <= i < |rest| ==> |Matches(rest[i], right, lk, rk)| <= 1 by {
        forall i | 0 <= i < |rest| ensures |Matches(rest[i], right, lk, rk)| <= 1 {
          assert rest[i] == left[i + 1];
        }
      }
      LeftJoinAtMostOneMatch(rest, right, lk, rk);
      var head := JoinRow(left[0], right, lk, rk);
      var tail := LeftJoin(rest, right, lk, rk);
      var out := LeftJoin(left, right, lk, rk);
      assert out == head + tail;
      JoinRowShape(left[0], right, lk, rk);
      assert |head| == 1;
      forall i | 0 <= i < |left| ensures
        var ms := Matches(left[i], right, lk, rk);
        out[i] == (left[i], if ms == [] then None else Some(ms[0]))
      {
        if i == 0 {
          assert out[0] == head[0];
        } else {
          assert out[i] == tail[i - 1];
          assert rest[i - 1] == left[i];
        }
      }
    }
  }

  /** A right table with unique keys gives every left row at most one match. */
  lemma {:induction false} UniqueKeysMatchAtMostOnce<L, R, K>(l: L, right: seq<R>, lk: L -> Option<K>, rk: R -> Option<K>)
    requires UniqueKeys(right, rk)
    ensures |Matches(l, right, lk, rk)| <= 1
  {
    if right != [] {
      var rest := right[1..];
      assert UniqueKeys(rest, rk) by {
        forall i, j | 0 <= i < j < |rest| ensures !KeysMatch(rk(rest[i]), rk(rest[j])) {
          assert rest[i] == right[i + 1] && rest[j] == right[j + 1];
        }
      }
      UniqueKeysMatchAtMostOnce(l, rest, lk, rk);
      if KeysMatch(lk(l), rk(right[0])) {
        forall j | 0 <= j < |rest| ensures !KeysMatch(lk(l), rk(rest[j])) {
          assert rest[j] == right[j + 1];
        }
        NoKeyNoMatches(l, rest, lk, rk);
      }
    }
  }

  /** A left row whose key matches no right key has no matches. */
  lemma {:induction false} NoKeyNoMatches<L, R, K>(l: L, right: seq<R>, lk: L -> Option<K>, rk: R -> Option<K>)
    requires forall j :: 0 <= j < |right| ==> !KeysMatch(lk(l), rk(right[j]))
    ensures Matches(l, right, lk, rk) == []
  {
    if right != [] {
      NoKeyNoMatches(l, right[1..], lk, rk);
    }
  }
}
