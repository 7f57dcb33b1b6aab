/** The `defaultdict` accumulations of the report. A Python dict keeps its
    keys in first-insertion order; a group is therefore that key order plus
    a map from each key to its accumulated statistics. */
module Grouping {
  import opened Seqs

  datatype Group<K, V> = Group(order: seq<K>, stats: map<K, V>)

  /** The key order lists exactly the keys of the map, each once. */
  predicate WellFormed<K, V>(g: Group<K, V>) {
    && Distinct(g.order)
    && (forall k :: k in g.order ==> k in g.stats)
    && (forall k :: k in g.stats ==> k in g.order)
  }

  /** `[t for t in ts if key(t) == k]`: the records that land in group `k`. */
  function Select<T, K(==)>(ts: seq<T>, key: T -> K, k: K): (r: seq<T>)
    ensures |r| <= |ts|
    ensures forall i :: 0 <= i < |r| ==> key(r[i]) == k
  {
    if |ts| == 0 then []
    else if key(ts[|ts| - 1]) == k then Select(ts[..|ts| - 1], key, k) + [ts[|ts| - 1]]
    else Select(ts[..|ts| - 1], key, k)
  }

  /** The distinct keys of `ts` in order of first appearance. */
  function Keys<T, K(==)>(ts: seq<T>, key: T -> K): (ks: seq<K>)
    ensures Distinct(ks)
    ensures forall i :: 0 <= i < |ts| ==> key(ts[i]) in ks
  {
    if |ts| == 0 then []
    else
      var ks := Keys(ts[..|ts| - 1], key);
      var k := key(ts[|ts| - 1]);
      if k in ks then ks else ks + [k]
  }

  /** The statistics of one group: `add` applied left to right from `zero`. */
  function Fold<T, V>(ts: seq<T>, zero: V, add: (V, T) -> V): V
  {
    if |ts| == 0 then zero else add(Fold(ts[..|ts| - 1], zero, add), ts[|ts| - 1])
  }

  /** The source's single pass
        for t in ts: stats[key(t)] = add(stats[key(t)], t)
      over a `defaultdict` whose default is `zero`: a key is inserted, at the
      end of the key order, the first time it is met. */
  function Accumulate<T, K(==), V>(ts: seq<T>, key: T -> K, zero: V, add: (V, T) -> V): (g: Group<K, V>)
    ensures WellFormed(g)
    ensures g.order == Keys(ts, key)
  {
    if |ts| == 0 then Group([], map[])
    else
      var g := Accumulate(ts[..|ts| - 1], key, zero, add);
      var t := ts[|ts| - 1];
      var k := key(t);
      var current := if k in g.stats then g.stats[k] else zero;
      Group(if k in g.stats then g.order else g.order + [k], g.stats[k := add(current, t)])
  }

  /** The keys are exactly the keys some record has. */
  lemma {:induction false} KeysOfRecords<T, K>(ts: seq<T>, key: T -> K, k: K)
    ensures k in Keys(ts, key) <==> exists i :: 0 <= i < |ts| && key(ts[i]) == k
  {
    if |ts| > 0 {
      var ts' := ts[..|ts| - 1];
      KeysOfRecords(ts', key, k);
      if k in Keys(ts', key) {
        var i :| 0 <= i < |ts'| && key(ts'[i]) == k;
        assert ts[i] == ts'[i];
      }
      if key(ts[|ts| - 1]) != k && exists i :: 0 <= i < |ts| && key(ts[i]) == k {
        var i :| 0 <= i < |ts| && key(ts[i]) == k;
        assert ts'[i] == ts[i];
      }
    }
  }

  /** The keys are in order of first appearance: wherever a later key
      occurs, an earlier key has already occurred before it. */
  lemma {:induction false} KeysFirstAppearance<T, K>(ts: seq<T>, key: T -> K)
    ensures var ks := Keys(ts, key);
      forall i, j, b :: 0 <= i < j < |ks| && 0 <= b < |ts| && key(ts[b]) == ks[j] ==>
        exists a :: 0 <= a < b && key(ts[a]) == ks[i]
  {
    if |ts| > 0 {
      var ts' := ts[..|ts| - 1];
      KeysFirstAppearance(ts', key);
      var ks, ks' := Keys(ts, key), Keys(ts', key);
      forall i, j, b | 0 <= i < j < |ks| && 0 <= b < |ts| && key(ts[b]) == ks[j]
        ensures exists a :: 0 <= a < b && key(ts[a]) == ks[i]
      {
        assert ks[i] == ks'[i];
        KeysOfRecords(ts', key, ks'[i]);
        var a :| 0 <= a < |ts'| && key(ts'[a]) == ks[i];
        assert ts[a] == ts'[a];
        if b < |ts'| {
          assert ts[b] == ts'[b];
          if j < |ks'| {
            assert ks[j] == ks'[j];
            var a' :| 0 <= a' < b && key(ts'[a']) == ks'[i];
            assert ts[a'] == ts'[a'];
          }
        }
      }
    }
  }

  lemma SelectAbsent<T, K>(ts: seq<T>, key: T -> K, k: K)
    requires k !in Keys(ts, key)
    ensures Select(ts, key, k) == []
  {
    if |Select(ts, key, k)| > 0 {
      var r := Select(ts, key, k);
      assert key(r[0]) == k;
      SelectedComeFromInput(ts, key, k, 0);
    }
  }

  lemma {:induction false} SelectedComeFromInput<T, K>(ts: seq<T>, key: T -> K, k: K, i: nat)
    requires i < |Select(ts, key, k)|
    ensures Select(ts, key, k)[i] in ts
  {
    var r := Select(ts, key, k);
    if key(ts[|ts| - 1]) == k && i == |r| - 1 {
    } else {
      SelectedComeFromInput(ts[..|ts| - 1], key, k, i);
    }
  }

  /** Each group's statistics are the fold of `add` over exactly the records
      with that key, in input order; a key is present iff some record has it. */
  lemma {:induction false} AccumulateMeaning<T, K, V>(ts: seq<T>, key: T -> K, zero: V, add: (V, T) -> V)
    ensures forall k :: k in Accumulate(ts, key, zero, add).stats ==>
              Accumulate(ts, key, zero, add).stats[k] == Fold(Select(ts, key, k), zero, add)
  {
    if |ts| > 0 {
      var ts' := ts[..|ts| - 1];
      AccumulateMeaning(ts', key, zero, add);
      var g' := Accumulate(ts', key, zero, add);
      var t := ts[|ts| - 1];
      forall k | k in Accumulate(ts, key, zero, add).stats
        ensures Accumulate(ts, key, zero, add).stats[k] == Fold(Select(ts, key, k), zero, add)
      {
        if k == key(t) {
          var s' := Select(ts', key, k);
          assert Select(ts, key, k) == s' + [t];
          assert (s' + [t])[..|s'|] == s';
          if k !in g'.stats {
            SelectAbsent(ts', key, k);
          }
        }
      }
    }
  }

  /** Sum over the keys `ks` of the `w`-total of each key's group. */
  function SumByKey<T, K(==)>(ks: seq<K>, ts: seq<T>, key: T -> K, w: T -> real): real
  {
    if |ks| == 0 then 0.0
    else SumByKey(ks[..|ks| - 1], ts, key, w) + Sum(Select(ts, key, ks[|ks| - 1]), w)
  }

  /** The last record adds its weight to the total of its own key only. */
  lemma {:induction false} SumByKeyExtend<T, K>(ks: seq<K>, ts: seq<T>, key: T -> K, w: T -> real)
    requires Distinct(ks) && |ts| > 0
    ensures SumByKey(ks, ts, key, w)
         == SumByKey(ks, ts[..|ts| - 1], key, w) + (if key(ts[|ts| - 1]) in ks then w(ts[|ts| - 1]) else 0.0)
  {
    var ts', t := ts[..|ts| - 1], ts[|ts| - 1];
    if |ks| > 0 {
      var last := ks[|ks| - 1];
      SumByKeyExtend(ks[..|ks| - 1], ts, key, w);
      if key(t) == last {
        assert Select(ts, key, last) == Select(ts', key, last) + [t];
        SumAppend(Select(ts', key, last), [t], w);
        SumSingle(t, w);
        assert key(t) !in ks[..|ks| - 1];
      } else {
        assert Select(ts, key, last) == Select(ts', key, last);
        assert key(t) in ks <==> key(t) in ks[..|ks| - 1] by {
          assert ks == ks[..|ks| - 1] + [last];
        }
      }
    }
  }

  /** Grouping partitions the records: the group totals of any weight add up
      to the overall total. */
  lemma {:induction false} Partition<T, K>(ts: seq<T>, key: T -> K, w: T -> real)
    ensures SumByKey(Keys(ts, key), ts, key, w) == Sum(ts, w)
  {
    if |ts| > 0 {
      Partition(ts[..|ts| - 1], key, w);
      PartitionStep(ts, key, w);
    }
  }

  /** The last record adds its weight to the sum of the group totals. */
  lemma PartitionStep<T, K>(ts: seq<T>, key: T -> K, w: T -> real)
    requires |ts| > 0
    ensures SumByKey(Keys(ts, key), ts, key, w)
         == SumByKey(Keys(ts[..|ts| - 1], key), ts[..|ts| - 1], key, w) + w(ts[|ts| - 1])
  {
    var ks := Keys(ts[..|ts| - 1], key);
    SumByKeyExtend(ks, ts, key, w);
    if key(ts[|ts| - 1]) !in ks {
      NewKeyStep(ts, key, w);
    } else {
      OldKeyStep(ts, key);
    }
  }

  lemma OldKeyStep<T, K>(ts: seq<T>, key: T -> K)
    requires |ts| > 0 && key(ts[|ts| - 1]) in Keys(ts[..|ts| - 1], key)
    ensures Keys(ts, key) == Keys(ts[..|ts| - 1], key)
  {
  }

  /** A last record with a new key opens a group holding just that record. */
  lemma NewKeyStep<T, K>(ts: seq<T>, key: T -> K, w: T -> real)
    requires |ts| > 0 && key(ts[|ts| - 1]) !in Keys(ts[..|ts| - 1], key)
    ensures SumByKey(Keys(ts, key), ts, key, w)
         == SumByKey(Keys(ts[..|ts| - 1], key), ts, key, w) + w(ts[|ts| - 1])
  {
    var ks' := Keys(ts[..|ts| - 1], key);
    var k := key(ts[|ts| - 1]);
    NewKeyAppended(ts, key);
    NewKeySelectsLast(ts, key);
    SumByKeySnoc(ks', k, ts, key, w);
    SumSingle(ts[|ts| - 1], w);
  }

  lemma NewKeyAppended<T, K>(ts: seq<T>, key: T -> K)
    requires |ts| > 0 && key(ts[|ts| - 1]) !in Keys(ts[..|ts| - 1], key)
    ensures Keys(ts, key) == Keys(ts[..|ts| - 1], key) + [key(ts[|ts| - 1])]
  {
  }

  lemma NewKeySelectsLast<T, K>(ts: seq<T>, key: T -> K)
    requires |ts| > 0 && key(ts[|ts| - 1]) !in Keys(ts[..|ts| - 1], key)
    ensures Select(ts, key, key(ts[|ts| - 1])) == [ts[|ts| - 1]]
  {
    SelectAbsent(ts[..|ts| - 1], key, key(ts[|ts| - 1]));
  }

  lemma SumByKeySnoc<T, K>(ks: seq<K>, k: K, ts: seq<T>, key: T -> K, w: T -> real)
    ensures SumByKey(ks + [k], ts, key, w) == SumByKey(ks, ts, key, w) + Sum(Select(ts, key, k), w)
  {
    assert (ks + [k])[..|ks|] == ks;
  }

  /** One row of `dict.items()`: key, statistics and position in key order. */
  datatype Entry<K, V> = Entry(key: K, stat: V, pos: nat)

  /** `g.items()` in key order. */
  function Entries<K, V>(g: Group<K, V>): (es: seq<Entry<K, V>>)
    requires WellFormed(g)
    ensures |es| == |g.order|
    ensures forall i :: 0 <= i < |es| ==> es[i] == Entry(g.order[i], g.stats[g.order[i]], i)
  {
    seq(|g.order|, i requires 0 <= i < |g.order| => Entry(g.order[i], g.stats[g.order[i]], i))
  }

  lemma {:induction false} SumEntriesPrefix<T, K, V>(g: Group<K, V>, ts: seq<T>, key: T -> K, w: T -> real,
                                                    proj: Entry<K, V> -> real, n: nat)
    requires WellFormed(g) && n <= |g.order|
    requires forall i :: 0 <= i < |g.order| ==>
               proj(Entries(g)[i]) == Sum(Select(ts, key, g.order[i]), w)
    ensures Sum(Entries(g)[..n], proj) == SumByKey(g.order[..n], ts, key, w)
  {
    if n > 0 {
      SumEntriesPrefix(g, ts, key, w, proj, n - 1);
      assert Entries(g)[..n][..n - 1] == Entries(g)[..n - 1];
      assert g.order[..n][..n - 1] == g.order[..n - 1];
    }
  }

  /** Summing a projection over the items gives the same total as summing
      the records when each item's projection is its group's total. */
  lemma SumEntries<T, K, V>(g: Group<K, V>, ts: seq<T>, key: T -> K, w: T -> real, proj: Entry<K, V> -> real)
    requires WellFormed(g) && g.order == Keys(ts, key)
    requires forall i :: 0 <= i < |g.order| ==>
               proj(Entries(g)[i]) == Sum(Select(ts, key, g.order[i]), w)
    ensures Sum(Entries(g), proj) == Sum(ts, w)
  {
    SumAllEntries(g, ts, key, w, proj);
    Partition(ts, key, w);
  }

  lemma SumAllEntries<T, K, V>(g: Group<K, V>, ts: seq<T>, key: T -> K, w: T -> real, proj: Entry<K, V> -> real)
    requires WellFormed(g)
    requires forall i :: 0 <= i < |g.order| ==>
               proj(Entries(g)[i]) == Sum(Select(ts, key, g.order[i]), w)
    ensures Sum(Entries(g), proj) == SumByKey(g.order, ts, key, w)
  {
    SumEntriesPrefix(g, ts, key, w, proj, |g.order|);
    assert Entries(g)[..|g.order|] == Entries(g);
    assert g.order[..|g.order|] == g.order;
  }
}
