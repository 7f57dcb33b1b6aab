/** Generic sequence combinators shared by the pipeline stages: the
    filtering comprehensions, counting and summation. */
module Seqs {
  import opened Wrappers

  /** No element occurs twice. */
  predicate Distinct<T(==)>(s: seq<T>) {
    forall i, j :: 0 <= i < j < |s| ==> s[i] != s[j]
  }

  /** A comprehension `[g(x) for x in s if c(x)]`, written as one function that
      answers None for a dropped element: the kept images, in input order. */
  function FilterMap<A, B>(s: seq<A>, f: A -> Option<B>): (r: seq<B>)
    ensures |r| <= |s|
  {
    if |s| == 0 then []
    else
      var r := FilterMap(s[..|s| - 1], f);
      match f(s[|s| - 1])
      case None => r
      case Some(y) => r + [y]
  }

  /** The positions of `s` whose element `f` keeps, in increasing order. */
  function KeptIndices<A, B>(s: seq<A>, f: A -> Option<B>): (idx: seq<nat>)
    ensures forall k :: 0 <= k < |idx| ==> idx[k] < |s| && f(s[idx[k]]).Some?
    ensures forall k, l :: 0 <= k < l < |idx| ==> idx[k] < idx[l]
    ensures forall i :: 0 <= i < |s| && f(s[i]).Some? ==> i in idx
  {
    if |s| == 0 then []
    else
      var idx := KeptIndices(s[..|s| - 1], f);
      if f(s[|s| - 1]).Some? then idx + [|s| - 1] else idx
  }

  /** FilterMap is the image of an order-preserving subsequence: its k-th
      element is what `f` makes of the k-th kept input, and every input that
      `f` does not drop is kept. */
  lemma {:induction false} FilterMapByIndex<A, B>(s: seq<A>, f: A -> Option<B>)
    ensures |FilterMap(s, f)| == |KeptIndices(s, f)|
    ensures forall k :: 0 <= k < |KeptIndices(s, f)| ==>
              FilterMap(s, f)[k] == f(s[KeptIndices(s, f)[k]]).value
  {
    if |s| > 0 {
      var s' := s[..|s| - 1];
      FilterMapByIndex(s', f);
      forall k | 0 <= k < |KeptIndices(s', f)|
        ensures s[KeptIndices(s', f)[k]] == s'[KeptIndices(s', f)[k]]
      {
      }
    }
  }

  /** `[x for x in s if p(x)]`. */
  function Filter<T>(s: seq<T>, p: T -> bool): (r: seq<T>)
    ensures |r| <= |s|
    ensures forall i :: 0 <= i < |r| ==> p(r[i])
  {
    if |s| == 0 then []
    else if p(s[|s| - 1]) then Filter(s[..|s| - 1], p) + [s[|s| - 1]]
    else Filter(s[..|s| - 1], p)
  }

  /** Every element satisfying `p` survives the filter. */
  lemma {:induction false} FilterKeeps<T>(s: seq<T>, p: T -> bool, i: nat)
    requires i < |s| && p(s[i])
    ensures s[i] in Filter(s, p)
  {
    if i < |s| - 1 {
      FilterKeeps(s[..|s| - 1], p, i);
    }
  }

  /** The filter keeps nothing that was not in the input. */
  lemma {:induction false} FilterFrom<T>(s: seq<T>, p: T -> bool, x: T)
    requires x in Filter(s, p)
    ensures x in s && p(x)
  {
    if |s| > 0 && x != s[|s| - 1] {
      FilterFrom(s[..|s| - 1], p, x);
    }
  }

  /** The filter keeps everything exactly when everything satisfies `p`. */
  lemma {:induction false} FilterFull<T>(s: seq<T>, p: T -> bool)
    ensures |Filter(s, p)| == |s| <==> forall i :: 0 <= i < |s| ==> p(s[i])
  {
    if |s| > 0 {
      var s' := s[..|s| - 1];
      FilterFull(s', p);
      if forall i :: 0 <= i < |s'| ==> p(s'[i]) {
        assert forall i :: 0 <= i < |s| - 1 ==> p(s[i]) by {
          forall i | 0 <= i < |s| - 1 ensures p(s[i]) {
            assert s[i] == s'[i];
          }
        }
      } else {
        var i :| 0 <= i < |s'| && !p(s'[i]);
        assert s[i] == s'[i];
      }
    }
  }

  /** Filtering by `p` and then by `q` is filtering by their conjunction. */
  lemma {:induction false} FilterTwice<T>(s: seq<T>, p: T -> bool, q: T -> bool, both: T -> bool)
    requires forall x :: both(x) == (p(x) && q(x))
    ensures Filter(Filter(s, p), q) == Filter(s, both)
  {
    if |s| > 0 {
      var s' := s[..|s| - 1];
      FilterTwice(s', p, q, both);
      if p(s[|s| - 1]) {
        assert (Filter(s', p) + [s[|s| - 1]])[..|Filter(s', p)|] == Filter(s', p);
      }
    }
  }

  /** The indices of the elements satisfying `p`. */
  function Satisfying<T>(s: seq<T>, p: T -> bool): set<nat> {
    set i: nat | i < |s| && p(s[i])
  }

  /** The filter keeps one element per index that satisfies `p`. */
  lemma {:induction false} FilterCountsIndices<T>(s: seq<T>, p: T -> bool)
    ensures |Filter(s, p)| == |Satisfying(s, p)|
  {
    if |s| > 0 {
      var s' := s[..|s| - 1];
      FilterCountsIndices(s', p);
      var last := |s| - 1;
      if p(s[last]) {
        assert Satisfying(s, p) == Satisfying(s', p) + {last};
      } else {
        assert Satisfying(s, p) == Satisfying(s', p);
      }
    }
  }

  /** The number of elements of `s` that fail `p`. */
  function CountFailing<T>(s: seq<T>, p: T -> bool): (n: nat)
    ensures n + |Filter(s, p)| == |s|
  {
    if |s| == 0 then 0
    else (if p(s[|s| - 1]) then 0 else 1) + CountFailing(s[..|s| - 1], p)
  }

  /** Sum of `f` over `s`, added left to right as Python's `sum` does. */
  function Sum<A>(s: seq<A>, f: A -> real): real
  {
    if |s| == 0 then 0.0 else Sum(s[..|s| - 1], f) + f(s[|s| - 1])
  }

  lemma {:induction false} SumAppend<A>(a: seq<A>, b: seq<A>, f: A -> real)
    ensures Sum(a + b, f) == Sum(a, f) + Sum(b, f)
    decreases |b|
  {
    if |b| > 0 {
      assert (a + b)[..|a + b| - 1] == a + b[..|b| - 1];
      SumAppend(a, b[..|b| - 1], f);
    } else {
      assert a + b == a;
    }
  }

  lemma SumCons<A>(x: A, s: seq<A>, f: A -> real)
    ensures Sum([x] + s, f) == f(x) + Sum(s, f)
  {
    SumAppend([x], s, f);
    assert [x][..0] == [];
  }

  lemma SumSingle<A>(x: A, f: A -> real)
    ensures Sum([x], f) == f(x)
  {
    assert [x][..0] == [];
  }

  /** A sum of non-negative terms is non-negative. */
  lemma {:induction false} SumNonNegative<A>(s: seq<A>, f: A -> real)
    requires forall i :: 0 <= i < |s| ==> f(s[i]) >= 0.0
    ensures Sum(s, f) >= 0.0
  {
    if |s| > 0 {
      SumNonNegative(s[..|s| - 1], f);
    }
  }

  /** Scaling every term scales the sum. */
  lemma {:induction false} SumScale<A>(s: seq<A>, f: A -> real, g: A -> real, c: real)
    requires forall x :: g(x) == f(x) * c
    ensures Sum(s, g) == Sum(s, f) * c
  {
    if |s| > 0 {
      SumScale(s[..|s| - 1], f, g, c);
    }
  }

  /** A sum of a constant is the count times the constant. */
  lemma {:induction false} SumConstant<A>(s: seq<A>, f: A -> real, c: real)
    requires forall x :: f(x) == c
    ensures Sum(s, f) == |s| as real * c
  {
    if |s| > 0 {
      SumConstant(s[..|s| - 1], f, c);
    }
  }
}
