/**
 The group-by aggregations the dashboard's views are built from, over any
 table `t` and key column `key`: the rows of one group, the set of groups,
 per-group row counts (a pie chart's slice sizes), per-group sums and means,
 and normalised counts. Values are mathematical reals. A group-by result is a
 map from group key to value; pandas orders its rows by key, which a map does
 not record.
 */
module Grouping {
  import opened SalesTable

  /** The rows whose key is `k`, in table order: each such row as often as
      it occurs in the table, and no other row. */
  function Group<T, K(==,!new)>(t: seq<T>, key: T -> K, k: K): (g: seq<T>)
    ensures |g| <= |t|
    ensures forall x :: x in g ==> x in t && key(x) == k
    ensures forall i :: 0 <= i < |t| && key(t[i]) == k ==> t[i] in g
  {
    if t == [] then []
    else
      assert forall x :: x in t[1..] ==> x in t;
      assert forall i :: 1 <= i < |t| ==> t[i] == t[1..][i - 1];
      if key(t[0]) == k then [t[0]] + Group(t[1..], key, k) else Group(t[1..], key, k)
  }

  /** A group holds each row of its key as many times as the table does, and
      no other row. */
  lemma {:induction false} GroupKeepsMultiplicity<T, K(!new)>(t: seq<T>, key: T -> K, k: K)
    ensures forall x :: multiset(Group(t, key, k))[x] == if key(x) == k then multiset(t)[x] else 0
  {
    if t != [] {
      assert t == [t[0]] + t[1..];
      GroupKeepsMultiplicity(t[1..], key, k);
    }
  }

  /** Grouping distributes over concatenation, so a group lists its rows in
      table order: the rows of the first part, then those of the second. */
  lemma {:induction false} GroupOfConcat<T, K(!new)>(t1: seq<T>, t2: seq<T>, key: T -> K, k: K)
    ensures Group(t1 + t2, key, k) == Group(t1, key, k) + Group(t2, key, k)
  {
    if t1 != [] {
      assert (t1 + t2)[0] == t1[0] && (t1 + t2)[1..] == t1[1..] + t2;
      GroupOfConcat(t1[1..], t2, key, k);
    } else {
      assert t1 + t2 == t2;
    }
  }

  /** The keys that occur in the table: exactly the groups that have rows. */
  function KeySet<T, K(==,!new)>(t: seq<T>, key: T -> K): (ks: set<K>)
    ensures forall k :: k in ks <==> |Group(t, key, k)| > 0
  {
    var ks := set i | 0 <= i < |t| :: key(t[i]);
    assert forall k :: k in ks ==> |Group(t, key, k)| > 0 by {
      forall k | k in ks ensures |Group(t, key, k)| > 0 {
        var i :| 0 <= i < |t| && key(t[i]) == k;
        assert t[i] in Group(t, key, k);
      }
    }
    assert forall k :: |Group(t, key, k)| > 0 ==> k in ks by {
      forall k | |Group(t, key, k)| > 0 ensures k in ks {
        var g := Group(t, key, k);
        assert g[0] in g;
        var i :| 0 <= i < |t| && t[i] == g[0];
      }
    }
    ks
  }

  /** The sum of one value column. */
  function Sum<T>(t: seq<T>, value: T -> real): real {
    if t == [] then 0.0 else value(t[0]) + Sum(t[1..], value)
  }

  /** Row count per group; only groups with rows appear. */
  function GroupCounts<T, K(==,!new)>(t: seq<T>, key: T -> K): (m: map<K, nat>)
    ensures m.Keys == KeySet(t, key)
    ensures forall k :: k in m ==> m[k] == |Group(t, key, k)| && m[k] > 0
  {
    map k | k in KeySet(t, key) :: |Group(t, key, k)|
  }

  /** `value` on the rows whose key is `k`, and 0 on every other row. */
  function MaskedValue<T, K(==)>(key: T -> K, value: T -> real, k: K): T -> real {
    (x: T) => if key(x) == k then value(x) else 0.0
  }

  /** The sum over one group is the column total with every other group's
      values masked to 0. */
  lemma {:induction false} GroupSumIsMaskedTotal<T, K(!new)>(t: seq<T>, key: T -> K, value: T -> real, k: K)
    ensures Sum(Group(t, key, k), value) == Sum(t, MaskedValue(key, value, k))
  {
    if t != [] {
      GroupSumIsMaskedTotal(t[1..], key, value, k);
    }
  }

  /** Sum of `value` per group: for every occurring key, the column total of
      the rows under that key. */
  function GroupSums<T, K(==,!new)>(t: seq<T>, key: T -> K, value: T -> real): (m: map<K, real>)
    ensures m.Keys == KeySet(t, key)
    ensures forall k :: k in m ==> m[k] == Sum(Group(t, key, k), value)
    ensures forall k :: k in m ==> m[k] == Sum(t, MaskedValue(key, value, k))
  {
    var m := map k | k in KeySet(t, key) :: Sum(Group(t, key, k), value);
    assert forall k :: k in m ==> m[k] == Sum(t, MaskedValue(key, value, k)) by {
      forall k | k in m ensures m[k] == Sum(t, MaskedValue(key, value, k)) {
        GroupSumIsMaskedTotal(t, key, value, k);
      }
    }
    m
  }

  /** `q` is `num / den`, written without a division. */
  predicate IsQuotient(q: real, num: real, den: real) {
    q * den == num
  }

  /** Per-key quotients `sums[k] / counts[k]`; every count is positive. */
  function Ratios<K(==,!new)>(sums: map<K, real>, counts: map<K, nat>): (m: map<K, real>)
    requires sums.Keys == counts.Keys
    requires forall k :: k in counts ==> counts[k] > 0
    ensures m.Keys == sums.Keys
    ensures forall k :: k in m ==> IsQuotient(m[k], sums[k], counts[k] as real)
  {
    map k | k in sums :: sums[k] / (counts[k] as real)
  }

  /** Mean of `value` per group, from the per-group sums and sizes: each mean
      times its group's size is its group's sum. An empty group has no mean
      and no entry. */
  function GroupMeans<T, K(==,!new)>(t: seq<T>, key: T -> K, value: T -> real): (m: map<K, real>)
    ensures m.Keys == KeySet(t, key)
    ensures forall k :: k in m ==> IsQuotient(m[k], GroupSums(t, key, value)[k], GroupCounts(t, key)[k] as real)
  {
    Ratios(GroupSums(t, key, value), GroupCounts(t, key))
  }

  /** A positive part of a whole, divided by the whole, is a fraction in
      `(0, 1]`; kept apart so that the map reasoning stays linear. */
  lemma FractionOfTotal(a: real, n: real)
    requires 0.0 < a <= n
    ensures 0.0 < a / n <= 1.0 && IsQuotient(a / n, a, n)
  {
  }

  /** Each count as a fraction of `total`, which is at least every count. */
  function Normalise<K(==,!new)>(counts: map<K, nat>, total: nat): (m: map<K, real>)
    requires forall k :: k in counts ==> 0 < counts[k] <= total
    ensures m.Keys == counts.Keys
    ensures forall k :: k in m ==> 0.0 < m[k] <= 1.0 && IsQuotient(m[k], counts[k] as real, total as real)
  {
    var m := map k | k in counts :: (counts[k] as real) / (total as real);
    assert forall k :: k in m ==> 0.0 < m[k] <= 1.0 && IsQuotient(m[k], counts[k] as real, total as real) by {
      forall k | k in m ensures 0.0 < m[k] <= 1.0 && IsQuotient(m[k], counts[k] as real, total as real) {
        FractionOfTotal(counts[k] as real, total as real);
      }
    }
    m
  }

  /** Each group's share of the rows (normalised value counts). An empty
      table has no groups and so no division by zero. */
  function Shares<T, K(==,!new)>(t: seq<T>, key: T -> K): (m: map<K, real>)
    ensures m.Keys == KeySet(t, key)
    ensures forall k :: k in m ==> 0.0 < m[k] <= 1.0 && IsQuotient(m[k], GroupCounts(t, key)[k] as real, |t| as real)
  {
    Normalise(GroupCounts(t, key), |t|)
  }

  /** Each mean times its count: the sum it was taken from. */
  function Weighted<K(==,!new)>(means: map<K, real>, counts: map<K, nat>): map<K, real> {
    map k | k in means && k in counts :: means[k] * (counts[k] as real)
  }

  /** `ks` lists every element of `s` exactly once: an order in which to add up
      a map whose keys are `s`. */
  ghost predicate Enumerates<K(!new)>(ks: seq<K>, s: set<K>) {
    Distinct(ks) && forall k :: k in ks <==> k in s
  }

  /** The sum of the counts stored under `ks`. */
  function SumCounts<K(==,!new)>(m: map<K, nat>, ks: seq<K>): nat
    requires forall k :: k in ks ==> k in m
  {
    if ks == [] then 0 else m[ks[0]] + SumCounts(m, ks[1..])
  }

  /** The sum of the reals stored under `ks`. */
  function SumValues<K(==,!new)>(m: map<K, real>, ks: seq<K>): real
    requires forall k :: k in ks ==> k in m
  {
    if ks == [] then 0.0 else m[ks[0]] + SumValues(m, ks[1..])
  }

  // Sizes and sums of the groups named by `ks`, whether or not they have rows.

  function CountOver<T, K(==,!new)>(t: seq<T>, key: T -> K, ks: seq<K>): nat {
    if ks == [] then 0 else |Group(t, key, ks[0])| + CountOver(t, key, ks[1..])
  }

  function SumOver<T, K(==,!new)>(t: seq<T>, key: T -> K, value: T -> real, ks: seq<K>): real {
    if ks == [] then 0.0 else Sum(Group(t, key, ks[0]), value) + SumOver(t, key, value, ks[1..])
  }

  /** Dropping the first row takes it out of its own group, if `ks` names it. */
  lemma {:induction false} OverFirstRow<T, K(!new)>(t: seq<T>, key: T -> K, value: T -> real, ks: seq<K>)
    requires t != [] && Distinct(ks)
    ensures CountOver(t, key, ks) == CountOver(t[1..], key, ks) + (if key(t[0]) in ks then 1 else 0)
    ensures SumOver(t, key, value, ks) == SumOver(t[1..], key, value, ks) + (if key(t[0]) in ks then value(t[0]) else 0.0)
  {
    if ks != [] {
      assert Distinct(ks[1..]);
      OverFirstRow(t, key, value, ks[1..]);
      assert key(t[0]) in ks <==> key(t[0]) == ks[0] || key(t[0]) in ks[1..];
      assert key(t[0]) == ks[0] ==> key(t[0]) !in ks[1..];
    }
  }

  /** Groups that cover every key partition the table: their sizes add up to
      the row count and their sums to the column total. */
  lemma {:induction false} GroupsPartition<T, K(!new)>(t: seq<T>, key: T -> K, value: T -> real, ks: seq<K>)
    requires Distinct(ks)
    requires forall i :: 0 <= i < |t| ==> key(t[i]) in ks
    ensures CountOver(t, key, ks) == |t|
    ensures SumOver(t, key, value, ks) == Sum(t, value)
  {
    if t == [] {
      EmptyGroupsOver(t, key, value, ks);
    } else {
      assert forall i :: 0 <= i < |t[1..]| ==> t[1..][i] == t[i + 1];
      GroupsPartition(t[1..], key, value, ks);
      OverFirstRow(t, key, value, ks);
    }
  }

  lemma {:induction false} EmptyGroupsOver<T, K(!new)>(t: seq<T>, key: T -> K, value: T -> real, ks: seq<K>)
    requires t == []
    ensures CountOver(t, key, ks) == 0 && SumOver(t, key, value, ks) == 0.0
  {
    if ks != [] {
      EmptyGroupsOver(t, key, value, ks[1..]);
    }
  }

  lemma {:induction false} MapSumsAreGroupSums<T, K(!new)>(t: seq<T>, key: T -> K, value: T -> real, ks: seq<K>)
    requires forall k :: k in ks ==> k in KeySet(t, key)
    ensures SumCounts(GroupCounts(t, key), ks) == CountOver(t, key, ks)
    ensures SumValues(GroupSums(t, key, value), ks) == SumOver(t, key, value, ks)
  {
    if ks != [] {
      MapSumsAreGroupSums(t, key, value, ks[1..]);
    }
  }

  lemma EnumeratedKeysCoverRows<T, K(!new)>(t: seq<T>, key: T -> K, ks: seq<K>)
    requires Enumerates(ks, KeySet(t, key))
    ensures forall i :: 0 <= i < |t| ==> key(t[i]) in ks
  {
  }

  /** The per-group counts add up to the number of rows. */
  lemma CountsSumToRowCount<T, K(!new)>(t: seq<T>, key: T -> K, ks: seq<K>)
    requires Enumerates(ks, GroupCounts(t, key).Keys)
    ensures SumCounts(GroupCounts(t, key), ks) == |t|
  {
    EnumeratedKeysCoverRows(t, key, ks);
    MapSumsAreGroupSums(t, key, (x: T) => 0.0, ks);
    GroupsPartition(t, key, (x: T) => 0.0, ks);
  }

  /** The per-group sums add up to the column total. */
  lemma GroupSumsAddUp<T, K(!new)>(t: seq<T>, key: T -> K, value: T -> real, ks: seq<K>)
    requires Enumerates(ks, GroupSums(t, key, value).Keys)
    ensures SumValues(GroupSums(t, key, value), ks) == Sum(t, value)
  {
    EnumeratedKeysCoverRows(t, key, ks);
    MapSumsAreGroupSums(t, key, value, ks);
    GroupsPartition(t, key, value, ks);
  }

  /** Each group's mean times its size, added over the groups, gives back the
      column total. */
  lemma MeansTimesCountsAddUp<T, K(!new)>(t: seq<T>, key: T -> K, value: T -> real, ks: seq<K>)
    requires Enumerates(ks, GroupMeans(t, key, value).Keys)
    ensures SumValues(Weighted(GroupMeans(t, key, value), GroupCounts(t, key)), ks) == Sum(t, value)
  {
    WeightedMeansAreSums(t, key, value);
    GroupSumsAddUp(t, key, value, ks);
  }

  lemma WeightedMeansAreSums<T, K(!new)>(t: seq<T>, key: T -> K, value: T -> real)
    ensures Weighted(GroupMeans(t, key, value), GroupCounts(t, key)) == GroupSums(t, key, value)
  {
    var means, counts, sums := GroupMeans(t, key, value), GroupCounts(t, key), GroupSums(t, key, value);
    var weighted := Weighted(means, counts);
    forall k | k in weighted ensures weighted[k] == sums[k] {
    }
  }

  /** Fractions of one whole add up to the fraction of their parts' sum. */
  lemma {:induction false} QuotientsAddUp<K(!new)>(q: map<K, real>, counts: map<K, nat>, total: real, ks: seq<K>)
    requires forall k :: k in ks ==> k in q && k in counts && IsQuotient(q[k], counts[k] as real, total)
    ensures IsQuotient(SumValues(q, ks), SumCounts(counts, ks) as real, total)
  {
    if ks != [] {
      QuotientsAddUp(q, counts, total, ks[1..]);
    }
  }

  /** The normalised counts of a non-empty table add up to 1. */
  lemma SharesSumToOne<T, K(!new)>(t: seq<T>, key: T -> K, ks: seq<K>)
    requires |t| > 0
    requires Enumerates(ks, Shares(t, key).Keys)
    ensures SumValues(Shares(t, key), ks) == 1.0
  {
    CountsSumToRowCount(t, key, ks);
    QuotientsAddUp(Shares(t, key), GroupCounts(t, key), |t| as real, ks);
  }
}
