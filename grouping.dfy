/**
 * Grouped aggregation as the statistics views use it: the query
 * `.values(field).annotate(n=Count(field))` (or `Sum(...)`) yields one group
 * per distinct value of the field with the number of records (or the sum of
 * an amount) in that group. Groups come out in order of first appearance.
 */
module Grouping {
  import opened Common

  datatype Group<K> = Group(key: K, total: int)

  function Keys<K>(gs: seq<Group<K>>): seq<K>
  {
    seq(|gs|, i requires 0 <= i < |gs| => gs[i].key)
  }

  function RowKeys<K>(rows: seq<(K, int)>): seq<K>
  {
    seq(|rows|, i requires 0 <= i < |rows| => rows[i].0)
  }

  predicate DistinctKeys<K(==)>(gs: seq<Group<K>>)
  {
    forall i, j :: 0 <= i < j < |gs| ==> gs[i].key != gs[j].key
  }

  /** The sum of the groups' totals. */
  function Totals<K>(gs: seq<Group<K>>): int
    decreases |gs|
  {
    if gs == [] then 0 else gs[0].total + Totals(gs[1..])
  }

  /** The sum of the amounts of the rows whose key is `k`. */
  function SumFor<K(==)>(rows: seq<(K, int)>, k: K): int
    decreases |rows|
  {
    if rows == [] then 0
    else SumFor(rows[..|rows| - 1], k) + (if rows[|rows| - 1].0 == k then rows[|rows| - 1].1 else 0)
  }
  /** One more row adds its amount to the sum of its own key only. */
  lemma SumForSnoc<K>(rows: seq<(K, int)>, row: (K, int), k: K)
    ensures SumFor(rows + [row], k) == SumFor(rows, k) + (if row.0 == k then row.1 else 0)
  {
    assert (rows + [row])[..|rows|] == rows;
  }


  /** The sum of all the rows' amounts. */
  function SumAll<K>(rows: seq<(K, int)>): int
    decreases |rows|
  {
    if rows == [] then 0 else SumAll(rows[..|rows| - 1]) + rows[|rows| - 1].1
  }

  lemma {:induction false} SumForAbsent<K>(rows: seq<(K, int)>, k: K)
    requires k !in RowKeys(rows)
    ensures SumFor(rows, k) == 0
    decreases |rows|
  {
    if rows != [] {
      var init := rows[..|rows| - 1];
      forall j | 0 <= j < |init| ensures RowKeys(init)[j] != k {
        assert RowKeys(init)[j] == RowKeys(rows)[j];
      }
      SumForAbsent(init, k);
      assert rows[|rows| - 1].0 == RowKeys(rows)[|rows| - 1];
    }
  }

  /** Adds one row of amount `v` under key `k` to a grouping. */
  function Bump<K(==)>(gs: seq<Group<K>>, k: K, v: int): seq<Group<K>>
    decreases |gs|
  {
    if gs == [] then [Group(k, v)]
    else if gs[0].key == k then [gs[0].(total := gs[0].total + v)] + gs[1..]
    else [gs[0]] + Bump(gs[1..], k, v)
  }

  /** The groups after the first have distinct keys, none of them the first key. */
  lemma DistinctTail<K>(gs: seq<Group<K>>)
    requires gs != [] && DistinctKeys(gs)
    ensures DistinctKeys(gs[1..])
    ensures Keys(gs) == [gs[0].key] + Keys(gs[1..])
    ensures gs[0].key !in Keys(gs[1..])
  {
    assert Keys(gs) == [gs[0].key] + Keys(gs[1..]);
    forall j | 0 <= j < |gs[1..]| ensures Keys(gs[1..])[j] != gs[0].key {
      assert gs[1..][j] == gs[j + 1];
    }
  }

  /** Groups whose keys are distinct keys, with at most one new key at the end, have distinct keys. */
  lemma DistinctByKeys<K>(gs: seq<Group<K>>, r: seq<Group<K>>, k: K)
    requires DistinctKeys(gs)
    requires Keys(r) == if k in Keys(gs) then Keys(gs) else Keys(gs) + [k]
    ensures DistinctKeys(r)
  {
    forall i, j | 0 <= i < j < |r| ensures r[i].key != r[j].key {
      assert Keys(r)[i] == r[i].key && Keys(r)[j] == r[j].key;
      assert Keys(r)[i] == Keys(gs)[i] == gs[i].key;
      if j < |gs| {
        assert Keys(r)[j] == Keys(gs)[j] == gs[j].key;
      } else {
        assert Keys(gs)[i] in Keys(gs);
      }
    }
  }

  lemma KeysCons<K>(g: Group<K>, gs: seq<Group<K>>)
    ensures Keys([g] + gs) == [g.key] + Keys(gs)
  {
  }

  /** Bumping keeps the keys, and adds `k` at the end when it is new. */
  lemma {:induction false} BumpKeys<K>(gs: seq<Group<K>>, k: K, v: int)
    requires DistinctKeys(gs)
    ensures Keys(Bump(gs, k, v)) == if k in Keys(gs) then Keys(gs) else Keys(gs) + [k]
    ensures DistinctKeys(Bump(gs, k, v))
    decreases |gs|
  {
    var r := Bump(gs, k, v);
    if gs != [] {
      DistinctTail(gs);
      if gs[0].key == k {
        KeysCons(r[0], gs[1..]);
        assert r == [r[0]] + gs[1..];
      } else {
        var rest := Bump(gs[1..], k, v);
        BumpKeys(gs[1..], k, v);
        assert r == [gs[0]] + rest;
        KeysCons(gs[0], rest);
      }
    }
    DistinctByKeys(gs, r, k);
  }

  /** Bumping adds `v` to the group of `k`, or opens it with `v`. */
  lemma {:induction false} BumpTotals<K>(gs: seq<Group<K>>, k: K, v: int)
    requires DistinctKeys(gs)
    ensures |Bump(gs, k, v)| >= |gs|
    ensures forall i :: 0 <= i < |gs| ==>
      Bump(gs, k, v)[i].total == gs[i].total + (if gs[i].key == k then v else 0)
    ensures k !in Keys(gs) ==> |Bump(gs, k, v)| == |gs| + 1 && Bump(gs, k, v)[|gs|].total == v
    ensures Totals(Bump(gs, k, v)) == Totals(gs) + v
    decreases |gs|
  {
    var r := Bump(gs, k, v);
    if gs == [] {
    } else if gs[0].key == k {
      DistinctTail(gs);
      assert r[1..] == gs[1..];
      forall i | 1 <= i < |gs| ensures gs[i].key != k {
        assert Keys(gs[1..])[i - 1] == gs[i].key;
      }
    } else {
      var rest := Bump(gs[1..], k, v);
      DistinctTail(gs);
      BumpTotals(gs[1..], k, v);
      assert r == [gs[0]] + rest && r[1..] == rest;
      forall i | 1 <= i < |gs| ensures r[i].total == gs[i].total + (if gs[i].key == k then v else 0) {
        assert r[i] == rest[i - 1] && gs[i] == gs[1..][i - 1];
      }
    }
  }

  /** After adding a row, a group that was there holds the sum of its key over the rows so far. */
  lemma BumpOldSum<K>(init: seq<(K, int)>, last: (K, int), before: seq<Group<K>>, i: nat)
    requires DistinctKeys(before) && i < |before|
    requires before[i].total == SumFor(init, before[i].key)
    ensures i < |Bump(before, last.0, last.1)|
    ensures Bump(before, last.0, last.1)[i].key == before[i].key
    ensures Bump(before, last.0, last.1)[i].total == SumFor(init + [last], before[i].key)
  {
    var r := Bump(before, last.0, last.1);
    BumpKeys(before, last.0, last.1);
    BumpTotals(before, last.0, last.1);
    SumForSnoc(init, last, before[i].key);
    assert Keys(r)[i] == Keys(before)[i];
  }

  /** After adding a row with a new key, the group it opens holds that row's amount, the key's whole sum. */
  lemma BumpNewSum<K>(init: seq<(K, int)>, last: (K, int), before: seq<Group<K>>)
    requires DistinctKeys(before) && last.0 !in Keys(before) && last.0 !in RowKeys(init)
    ensures |Bump(before, last.0, last.1)| == |before| + 1
    ensures Bump(before, last.0, last.1)[|before|].key == last.0
    ensures Bump(before, last.0, last.1)[|before|].total == SumFor(init + [last], last.0)
  {
    var r := Bump(before, last.0, last.1);
    BumpKeys(before, last.0, last.1);
    BumpTotals(before, last.0, last.1);
    assert Keys(r)[|before|] == last.0;
    SumForSnoc(init, last, last.0);
    SumForAbsent(init, last.0);
  }

  /** After adding a row, each group holds the sum of its key over the rows so far. */
  lemma BumpSumAt<K>(init: seq<(K, int)>, last: (K, int), before: seq<Group<K>>, r: seq<Group<K>>, i: nat)
    requires DistinctKeys(before)
    requires forall k :: k in Keys(before) <==> k in RowKeys(init)
    requires forall j :: 0 <= j < |before| ==> before[j].total == SumFor(init, before[j].key)
    requires r == Bump(before, last.0, last.1) && i < |r|
    ensures r[i].total == SumFor(init + [last], r[i].key)
  {
    if i < |before| {
      BumpOldSum(init, last, before, i);
    } else {
      BumpKeys(before, last.0, last.1);
      if last.0 !in Keys(before) {
        BumpNewSum(init, last, before);
      } else {
        assert false;
      }
    }
  }

  /** Adding one row to a grouping of `init` gives a grouping of `init` and that row. */
  lemma {:induction false} BumpGroups<K>(init: seq<(K, int)>, last: (K, int), before: seq<Group<K>>,
                                         rows: seq<(K, int)>, r: seq<Group<K>>)
    requires DistinctKeys(before)
    requires forall k :: k in Keys(before) <==> k in RowKeys(init)
    requires forall i :: 0 <= i < |before| ==> before[i].total == SumFor(init, before[i].key)
    requires Totals(before) == SumAll(init)
    requires rows == init + [last] && r == Bump(before, last.0, last.1)
    ensures DistinctKeys(r)
    ensures forall k :: k in Keys(r) <==> k in RowKeys(rows)
    ensures forall i :: 0 <= i < |r| ==> r[i].total == SumFor(rows, r[i].key)
    ensures Totals(r) == SumAll(rows)
  {
    var k, v := last.0, last.1;
    BumpKeys(before, k, v);
    BumpTotals(before, k, v);
    assert rows[..|rows| - 1] == init && rows[|rows| - 1] == last;
    assert RowKeys(rows) == RowKeys(init) + [k];
    assert SumAll(rows) == SumAll(init) + v;
    forall i | 0 <= i < |r| ensures r[i].total == SumFor(rows, r[i].key) {
      BumpSumAt(init, last, before, r, i);
    }
  }

  /** Groups rows by key, summing the amounts within each group. */
  function GroupSum<K(==,!new)>(rows: seq<(K, int)>): (r: seq<Group<K>>)
    ensures DistinctKeys(r)
    ensures forall k :: k in Keys(r) <==> k in RowKeys(rows)
    ensures forall i :: 0 <= i < |r| ==> r[i].total == SumFor(rows, r[i].key)
    ensures Totals(r) == SumAll(rows)
    decreases |rows|
  {
    if rows == [] then []
    else
      var init := rows[..|rows| - 1];
      var last := rows[|rows| - 1];
      var before := GroupSum(init);
      var r := Bump(before, last.0, last.1);
      assert rows == init + [last];
      BumpGroups(init, last, before, rows, r);
      r
  }

  /** Two row lists with the same keys in the same order are grouped into the same keys. */
  lemma {:induction false} GroupSumKeys<K(!new)>(rows1: seq<(K, int)>, rows2: seq<(K, int)>)
    requires RowKeys(rows1) == RowKeys(rows2)
    ensures Keys(GroupSum(rows1)) == Keys(GroupSum(rows2))
    decreases |rows1|
  {
    if rows1 != [] {
      var n := |rows1| - 1;
      assert RowKeys(rows1[..n]) == RowKeys(rows2[..n]) by {
        forall j | 0 <= j < n ensures RowKeys(rows1[..n])[j] == RowKeys(rows2[..n])[j] {
          assert RowKeys(rows1)[j] == RowKeys(rows2)[j];
        }
      }
      GroupSumKeys(rows1[..n], rows2[..n]);
      var b1, b2 := GroupSum(rows1[..n]), GroupSum(rows2[..n]);
      var k := rows1[n].0;
      assert k == RowKeys(rows1)[n] == RowKeys(rows2)[n] == rows2[n].0;
      assert GroupSum(rows1) == Bump(b1, k, rows1[n].1);
      assert GroupSum(rows2) == Bump(b2, k, rows2[n].1);
      BumpKeys(b1, k, rows1[n].1);
      BumpKeys(b2, k, rows2[n].1);
    }
  }

  /** Each key counted once. */
  function Ones<K>(keys: seq<K>): (rows: seq<(K, int)>)
    ensures RowKeys(rows) == keys
  {
    seq(|keys|, i requires 0 <= i < |keys| => (keys[i], 1))
  }

  lemma {:induction false} CountOnes<K>(keys: seq<K>, k: K)
    ensures SumFor(Ones(keys), k) == multiset(keys)[k]
    decreases |keys|
  {
    if keys != [] {
      var n := |keys| - 1;
      CountOnes(keys[..n], k);
      assert Ones(keys)[..n] == Ones(keys[..n]);
      assert keys == keys[..n] + [keys[n]];
      assert multiset(keys) == multiset(keys[..n]) + multiset{keys[n]};
    }
  }

  lemma {:induction false} SumAllOnes<K>(keys: seq<K>)
    ensures SumAll(Ones(keys)) == |keys|
    decreases |keys|
  {
    if keys != [] {
      var n := |keys| - 1;
      SumAllOnes(keys[..n]);
      assert Ones(keys)[..n] == Ones(keys[..n]);
    }
  }

  /**
   * Groups keys and counts each group: one group per distinct key, each
   * holding the number of times its key occurs, the counts adding up to the
   * number of keys.
   */
  function GroupCount<K(==,!new)>(keys: seq<K>): (r: seq<Group<K>>)
    ensures DistinctKeys(r)
    ensures forall k :: k in Keys(r) <==> k in keys
    ensures forall i :: 0 <= i < |r| ==> r[i].total == multiset(keys)[r[i].key] > 0
    ensures Totals(r) == |keys|
  {
    var r := GroupSum(Ones(keys));
    SumAllOnes(keys);
    assert forall i :: 0 <= i < |r| ==> r[i].total == multiset(keys)[r[i].key] > 0 by {
      forall i | 0 <= i < |r| ensures r[i].total == multiset(keys)[r[i].key] > 0 {
        CountOnes(keys, r[i].key);
        assert Keys(r)[i] == r[i].key;
        assert r[i].key in keys;
      }
    }
    r
  }

  /**
   * `gs` is the count grouping of `keys`: one group per distinct value that
   * occurs, holding the number of its occurrences.
   */
  ghost predicate CountsOf<K(!new)>(gs: seq<Group<K>>, keys: seq<K>)
  {
    && DistinctKeys(gs)
    && (forall k :: k in Keys(gs) <==> k in keys)
    && (forall g :: g in gs ==> g.total == multiset(keys)[g.key])
  }

  /** Counting gives the count grouping. */
  lemma GroupCountCounts<K(!new)>(keys: seq<K>)
    ensures CountsOf(GroupCount(keys), keys)
  {
    var r := GroupCount(keys);
    forall g | g in r ensures g.total == multiset(keys)[g.key] {
      var i :| 0 <= i < |r| && r[i] == g;
    }
  }

  /** The groups whose total is strictly above `n`, in order. */
  function Above<K(==,!new)>(gs: seq<Group<K>>, n: int): (r: seq<Group<K>>)
    ensures forall g :: g in r <==> g in gs && g.total > n
  {
    Filter(gs, (g: Group<K>) => g.total > n)
  }

  /**
   * Counting and keeping the groups above `n`: each key counted more than `n`
   * times appears once, with its count, and no other key appears.
   */
  lemma CountAbove<K(!new)>(keys: seq<K>, n: nat)
    ensures var r := Above(GroupCount(keys), n);
      DistinctKeys(r) &&
      (forall k :: k in Keys(r) <==> multiset(keys)[k] > n) &&
      (forall g :: g in r ==> g.total == multiset(keys)[g.key])
  {
    var all := GroupCount(keys);
    var r := Above(all, n);
    AboveDistinct(all, n);
    forall k ensures k in Keys(r) <==> multiset(keys)[k] > n {
      if k in Keys(r) {
        var i :| 0 <= i < |r| && Keys(r)[i] == k;
        assert r[i] in all;
      }
      if multiset(keys)[k] > n {
        assert k in keys;
        assert k in Keys(all);
        var i :| 0 <= i < |all| && Keys(all)[i] == k;
        assert all[i] in r;
        var j :| 0 <= j < |r| && r[j] == all[i];
        assert Keys(r)[j] == k;
      }
    }
  }

  /** Dropping groups keeps the remaining keys distinct. */
  lemma {:induction false} AboveDistinct<K(!new)>(gs: seq<Group<K>>, n: int)
    requires DistinctKeys(gs)
    ensures DistinctKeys(Above(gs, n))
    decreases |gs|
  {
    if gs != [] {
      DistinctTail(gs);
      AboveDistinct(gs[1..], n);
      var t := Above(gs[1..], n);
      assert Above(gs, n) == (if gs[0].total > n then [gs[0]] else []) + t;
      forall j | 0 <= j < |t| ensures t[j].key != gs[0].key {
        assert t[j] in gs[1..];
        var k :| 0 <= k < |gs[1..]| && gs[1..][k] == t[j];
        assert Keys(gs[1..])[k] == t[j].key;
      }
    }
  }
}
