/** The report's rankings: `sorted(stats.items(), key=..., reverse=True)`,
    optionally cut to the first five. */
module Ranking {
  import opened Seqs
  import opened Sorting
  import opened Grouping

  /** `a` is listed before `b` by `sorted(items, key=score, reverse=True)`:
      the higher score first, and on equal scores the item that came first in
      the dict stays first, since Python's sort is stable also when reversed. */
  predicate Outranks<K, V>(a: Entry<K, V>, b: Entry<K, V>, score: V -> real) {
    score(a.stat) > score(b.stat) || (score(a.stat) == score(b.stat) && a.pos < b.pos)
  }

  function RankOrder<K, V>(score: V -> real): (Entry<K, V>, Entry<K, V>) -> bool {
    (a: Entry<K, V>, b: Entry<K, V>) => Outranks(a, b, score)
  }

  /** The items of a dict are distinct: they sit at distinct positions. */
  lemma EntriesDistinct<K, V>(g: Group<K, V>)
    requires WellFormed(g)
    ensures Distinct(Entries(g))
  {
    var es := Entries(g);
    forall i, j | 0 <= i < j < |es| ensures es[i] != es[j] {
      assert es[i].pos == i && es[j].pos == j;
    }
  }

  /** Ranking orders any two different items of a dict, consistently. */
  lemma RankOrderStrictTotal<K, V>(g: Group<K, V>, score: V -> real)
    requires WellFormed(g)
    ensures TotalOn(RankOrder(score), Entries(g))
    ensures TransitiveOn(RankOrder(score), Entries(g))
  {
    var es := Entries(g);
    var before := RankOrder(score);
    forall a, b | a in es && b in es && a != b ensures before(a, b) || before(b, a) {
      var i :| 0 <= i < |es| && es[i] == a;
      var j :| 0 <= j < |es| && es[j] == b;
      assert a.pos == i && b.pos == j;
    }
  }

  /** `sorted(g.items(), key=score, reverse=True)`: the same items, each
      ahead of every item it outranks. */
  function Ranked<K(==), V(==)>(g: Group<K, V>, score: V -> real): (r: seq<Entry<K, V>>)
    requires WellFormed(g)
    ensures multiset(r) == multiset(Entries(g))
    ensures SortedBy(r, RankOrder(score))
  {
    EntriesDistinct(g);
    RankOrderStrictTotal(g, score);
    SortSorted(Entries(g), RankOrder(score));
    InsertionSort(Entries(g), RankOrder(score))
  }

  /** Along a ranking scores never increase, and equal scores keep dict
      order. */
  lemma RankedDescending<K, V>(g: Group<K, V>, score: V -> real, i: nat, j: nat)
    requires WellFormed(g)
    requires i < j < |Ranked(g, score)|
    ensures score(Ranked(g, score)[i].stat) >= score(Ranked(g, score)[j].stat)
    ensures score(Ranked(g, score)[i].stat) == score(Ranked(g, score)[j].stat) ==>
              Ranked(g, score)[i].pos < Ranked(g, score)[j].pos
  {
    assert RankOrder(score)(Ranked(g, score)[i], Ranked(g, score)[j]);
  }

  /** `sorted(...)[:n]`. */
  function Top<K(==), V(==)>(g: Group<K, V>, score: V -> real, n: nat): (r: seq<Entry<K, V>>)
    requires WellFormed(g)
    ensures |r| == if |g.order| < n then |g.order| else n
    ensures SortedBy(r, RankOrder(score))
    ensures forall x :: x in r ==> x in Entries(g)
  {
    var ranked := Ranked(g, score);
    assert |ranked| == |multiset(Entries(g))| == |g.order|;
    var r := if |ranked| < n then ranked else ranked[..n];
    forall x | x in r ensures x in Entries(g) {
      assert x in multiset(ranked);
    }
    r
  }

  /** Every item cut from the top `n` is outranked by every item kept. */
  lemma TopOutranksRest<K, V>(g: Group<K, V>, score: V -> real, n: nat, x: Entry<K, V>, y: Entry<K, V>)
    requires WellFormed(g)
    requires x in Top(g, score, n)
    requires y in Entries(g) && y !in Top(g, score, n)
    ensures Outranks(x, y, score)
  {
    var ranked := Ranked(g, score);
    var top := Top(g, score, n);
    assert y in multiset(ranked);
    var j :| 0 <= j < |ranked| && ranked[j] == y;
    var i :| 0 <= i < |top| && top[i] == x;
    assert top == ranked[..|top|];
    assert ranked[i] == x;
    assert j >= |top|;
  }
}
