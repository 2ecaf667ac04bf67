/** Sequence helpers the engine leans on: sums over a sequence, their
    invariance under permutation, and the stable sort that stands in for
    Python's `sorted` with a key. */
module Seqs {

  /** `le` is a total preorder: every two elements compare, and comparison chains. */
  ghost predicate TotalPreorder<T(!new)>(le: (T, T) -> bool) {
    && (forall a, b :: le(a, b) || le(b, a))
    && (forall a, b, c :: le(a, b) && le(b, c) ==> le(a, c))
  }

  ghost predicate SortedBy<T>(s: seq<T>, le: (T, T) -> bool) {
    forall i, j :: 0 <= i < j < |s| ==> le(s[i], s[j])
  }

  /** Sum of `f` over the elements of `s`, in order. */
  function Sum<T>(s: seq<T>, f: T -> int): int {
    if |s| == 0 then 0 else f(s[0]) + Sum(s[1..], f)
  }

  lemma {:induction false} SumAppend<T>(a: seq<T>, b: seq<T>, f: T -> int)
    ensures Sum(a + b, f) == Sum(a, f) + Sum(b, f)
  {
    if |a| == 0 {
      assert a + b == b;
    } else {
      assert (a + b)[1..] == a[1..] + b;
      SumAppend(a[1..], b, f);
    }
  }

  /** Summing the same elements in any order gives the same total. */
  lemma {:induction false} SumPermutation<T>(a: seq<T>, b: seq<T>, f: T -> int)
    requires multiset(a) == multiset(b)
    ensures Sum(a, f) == Sum(b, f)
  {
    if |a| == 0 {
      assert |b| == |multiset(b)| == 0;
    } else {
      var x := a[0];
      assert x in multiset(b);
      var k :| 0 <= k < |b| && b[k] == x;
      var rest := b[..k] + b[k + 1..];
      assert b == b[..k] + [x] + b[k + 1..];
      assert a == [x] + a[1..];
      calc {
        multiset(rest);
        multiset(b[..k]) + multiset(b[k + 1..]);
        multiset(b) - multiset{x};
        multiset(a) - multiset{x};
        multiset(a[1..]);
      }
      SumPermutation(a[1..], rest, f);
      SumAppend(b[..k] + [x], b[k + 1..], f);
      SumAppend(b[..k], [x], f);
      SumAppend(b[..k], b[k + 1..], f);
    }
  }

  /** Pointwise `f(x) == g(x) + h(x)` lifts to the sums. */
  lemma {:induction false} SumSplit<T>(s: seq<T>, f: T -> int, g: T -> int, h: T -> int)
    requires forall i :: 0 <= i < |s| ==> f(s[i]) == g(s[i]) + h(s[i])
    ensures Sum(s, f) == Sum(s, g) + Sum(s, h)
  {
    if |s| > 0 {
      SumSplit(s[1..], f, g, h);
    }
  }

  /** Sums of functions that agree on every element agree. */
  lemma {:induction false} SumCongruent<T>(s: seq<T>, f: T -> int, g: T -> int)
    requires forall i :: 0 <= i < |s| ==> f(s[i]) == g(s[i])
    ensures Sum(s, f) == Sum(s, g)
  {
    if |s| > 0 {
      SumCongruent(s[1..], f, g);
    }
  }

  lemma {:induction false} SumNonNegative<T>(s: seq<T>, f: T -> int)
    requires forall i :: 0 <= i < |s| ==> f(s[i]) >= 0
    ensures Sum(s, f) >= 0
  {
    if |s| > 0 {
      SumNonNegative(s[1..], f);
    }
  }

  /** Sums over two sequences agree when they agree position by position. */
  lemma {:induction false} SumAligned<A, B>(a: seq<A>, b: seq<B>, f: A -> int, g: B -> int)
    requires |a| == |b|
    requires forall i :: 0 <= i < |a| ==> f(a[i]) == g(b[i])
    ensures Sum(a, f) == Sum(b, g)
  {
    if |a| > 0 {
      SumAligned(a[1..], b[1..], f, g);
    }
  }

  /** `F` applied to every element, in order. */
  function Map<A, B>(s: seq<A>, F: A -> B): (r: seq<B>)
    ensures |r| == |s| && forall i :: 0 <= i < |s| ==> r[i] == F(s[i])
  {
    seq(|s|, i requires 0 <= i < |s| => F(s[i]))
  }

  /** Mapping two permutations of each other and summing gives the same total. */
  lemma SumPermutationMapped<A, B>(a: seq<A>, b: seq<A>, F: A -> B, f: B -> int)
    requires multiset(a) == multiset(b)
    ensures Sum(Map(a, F), f) == Sum(Map(b, F), f)
  {
    var g := (x: A) => f(F(x));
    SumAligned(Map(a, F), a, f, g);
    SumPermutation(a, b, g);
    SumAligned(Map(b, F), b, f, g);
  }

  lemma {:induction false} SumZero<T>(s: seq<T>, f: T -> int)
    requires forall i :: 0 <= i < |s| ==> f(s[i]) == 0
    ensures Sum(s, f) == 0
  {
    if |s| > 0 {
      SumZero(s[1..], f);
    }
  }

  /** A running total: the sum of a one-longer prefix adds the next element. */
  lemma SumExtend<T>(s: seq<T>, k: nat, f: T -> int)
    requires k < |s|
    ensures Sum(s[..k + 1], f) == Sum(s[..k], f) + f(s[k])
  {
    assert s[..k + 1] == s[..k] + [s[k]];
    SumAppend(s[..k], [s[k]], f);
  }

  /** Inserts `x` in front of the first element it is `le`-below. */
  function Insert<T>(x: T, s: seq<T>, le: (T, T) -> bool): (r: seq<T>)
    ensures multiset(r) == multiset(s) + multiset{x}
  {
    if |s| == 0 then [x]
    else if le(x, s[0]) then [x] + s
    else
      assert s == [s[0]] + s[1..];
      [s[0]] + Insert(x, s[1..], le)
  }

  lemma {:induction false} InsertSorted<T(!new)>(x: T, s: seq<T>, le: (T, T) -> bool)
    requires TotalPreorder(le)
    requires SortedBy(s, le)
    ensures SortedBy(Insert(x, s, le), le)
  {
    if |s| > 0 && !le(x, s[0]) {
      assert le(s[0], x);
      InsertSorted(x, s[1..], le);
      var tail := Insert(x, s[1..], le);
      forall j | 0 <= j < |tail|
        ensures le(s[0], tail[j])
      {
        assert tail[j] in multiset(tail);
        assert tail[j] in multiset(s[1..]) + multiset{x};
        if tail[j] != x {
          assert tail[j] in s[1..];
        }
      }
    }
  }

  /** Stable insertion sort; the model of Python's `sorted(s, key=...)`. */
  function SortBy<T>(s: seq<T>, le: (T, T) -> bool): (r: seq<T>)
    ensures multiset(r) == multiset(s)
    ensures |r| == |s|
  {
    if |s| == 0 then []
    else
      assert s == [s[0]] + s[1..];
      var r := Insert(s[0], SortBy(s[1..], le), le);
      assert |r| == |multiset(r)|;
      r
  }

  lemma {:induction false} SortBySorted<T(!new)>(s: seq<T>, le: (T, T) -> bool)
    requires TotalPreorder(le)
    ensures SortedBy(SortBy(s, le), le)
  {
    if |s| > 0 {
      SortBySorted(s[1..], le);
      InsertSorted(s[0], SortBy(s[1..], le), le);
    }
  }

  /** Sequences with the same elements counted with multiplicity have the same members. */
  lemma PermutationMembers<T>(a: seq<T>, b: seq<T>)
    requires multiset(a) == multiset(b)
    ensures forall x :: x in a <==> x in b
  {
    forall x
      ensures x in a <==> x in b
    {
      assert x in a <==> x in multiset(a);
      assert x in b <==> x in multiset(b);
    }
  }

  /** The positions 0, 1, ..., n - 1. */
  function Range(n: nat): (r: seq<nat>)
    ensures |r| == n
    ensures forall i :: 0 <= i < n ==> r[i] == i
  {
    seq(n, i => i)
  }
}
