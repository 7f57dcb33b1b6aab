/** Sorting by a strict order, as Python's `sorted` does for the report's
    rankings. A stable sort on a key, with or without `reverse=True`, is the
    same as a sort by the strict order "key first, earlier position on ties",
    so the model sorts by such strict orders and the result is unique. */
module Sorting {
  import opened Seqs

  /** Any two different elements of `s` are ordered one way or the other. */
  ghost predicate TotalOn<A>(before: (A, A) -> bool, s: seq<A>) {
    forall a, b :: a in s && b in s && a != b ==> before(a, b) || before(b, a)
  }

  ghost predicate TransitiveOn<A>(before: (A, A) -> bool, s: seq<A>) {
    forall a, b, c :: a in s && b in s && c in s && before(a, b) && before(b, c) ==> before(a, c)
  }

  /** Every element comes strictly before every later one. */
  predicate SortedBy<A>(s: seq<A>, before: (A, A) -> bool) {
    forall i, j :: 0 <= i < j < |s| ==> before(s[i], s[j])
  }

  /** Places `x` in front of the first element it comes before. */
  function Insert<A(==)>(x: A, s: seq<A>, before: (A, A) -> bool): (r: seq<A>)
    ensures multiset(r) == multiset(s) + multiset{x}
  {
    if |s| == 0 then [x]
    else if before(x, s[0]) then [x] + s
    else
      assert s == [s[0]] + s[1..];
      [s[0]] + Insert(x, s[1..], before)
  }

  function InsertionSort<A(==)>(s: seq<A>, before: (A, A) -> bool): (r: seq<A>)
    ensures multiset(r) == multiset(s)
  {
    if |s| == 0 then []
    else
      assert s == [s[0]] + s[1..];
      Insert(s[0], InsertionSort(s[1..], before), before)
  }

  lemma {:induction false} InsertSorted<A>(x: A, s: seq<A>, before: (A, A) -> bool, all: seq<A>)
    requires SortedBy(s, before)
    requires x in all && x !in s && forall y :: y in s ==> y in all
    requires TotalOn(before, all) && TransitiveOn(before, all)
    ensures SortedBy(Insert(x, s, before), before)
  {
    if |s| > 0 {
      if before(x, s[0]) {
        var r := [x] + s;
        forall i, j | 0 <= i < j < |r| ensures before(r[i], r[j]) {
          if i == 0 && j > 1 {
            assert before(s[0], s[j - 1]);
          }
        }
      } else {
        assert before(s[0], x);
        InsertSorted(x, s[1..], before, all);
        var tail := Insert(x, s[1..], before);
        var r := [s[0]] + tail;
        forall i, j | 0 <= i < j < |r| ensures before(r[i], r[j]) {
          if i == 0 {
            var y := tail[j - 1];
            assert y in multiset(tail);
            assert y == x || y in multiset(s[1..]);
            if y != x {
              assert y in s[1..];
              var m :| 1 <= m < |s| && s[m] == y;
              assert before(s[0], s[m]);
            }
          }
        }
      }
    }
  }

  /** Insertion sort orders a sequence of distinct elements by a strict order
      that is total and transitive on them. */
  lemma {:induction false} SortSorted<A>(s: seq<A>, before: (A, A) -> bool)
    requires Distinct(s)
    requires TotalOn(before, s) && TransitiveOn(before, s)
    ensures SortedBy(InsertionSort(s, before), before)
  {
    if |s| > 0 {
      var rest := s[1..];
      OrderOnTail(s, before);
      SortSorted(rest, before);
      var sorted := InsertionSort(rest, before);
      forall y | y in sorted ensures y in s {
        assert y in multiset(rest);
      }
      assert s[0] !in multiset(rest);
      InsertSorted(s[0], sorted, before, s);
    }
  }

  /** Dropping the head keeps the elements distinct and the order total
      and transitive on them. */
  lemma OrderOnTail<A>(s: seq<A>, before: (A, A) -> bool)
    requires |s| > 0 && Distinct(s)
    requires TotalOn(before, s) && TransitiveOn(before, s)
    ensures Distinct(s[1..])
    ensures TotalOn(before, s[1..]) && TransitiveOn(before, s[1..])
  {
    assert forall y :: y in s[1..] ==> y in s;
  }

  lemma {:induction false} InsertSum<A>(x: A, s: seq<A>, before: (A, A) -> bool, f: A -> real)
    ensures Sum(Insert(x, s, before), f) == f(x) + Sum(s, f)
  {
    if |s| == 0 {
      SumCons(x, s, f);
    } else if before(x, s[0]) {
      SumCons(x, s, f);
    } else {
      InsertSum(x, s[1..], before, f);
      SumCons(s[0], Insert(x, s[1..], before), f);
      SumCons(s[0], s[1..], f);
      assert [s[0]] + s[1..] == s;
    }
  }

  /** Sorting does not change a sum over the elements. */
  lemma {:induction false} SortSum<A>(s: seq<A>, before: (A, A) -> bool, f: A -> real)
    ensures Sum(InsertionSort(s, before), f) == Sum(s, f)
  {
    if |s| > 0 {
      SortSum(s[1..], before, f);
      InsertSum(s[0], InsertionSort(s[1..], before), before, f);
      SumCons(s[0], s[1..], f);
      assert [s[0]] + s[1..] == s;
    }
  }
}
