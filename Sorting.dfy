/** The standard library's `sort_unstable` on a slice whose element type has a total
    order. The sort itself is library code: it is modelled here by what it guarantees,
    a permutation of its input in non-decreasing order, and that permutation is unique. */
module Sorting {

  /** `le` is a total order: reflexive, antisymmetric, transitive and total. */
  ghost predicate TotalOrder<T(!new)>(le: (T, T) -> bool)
  {
    && (forall a :: le(a, a))
    && (forall a, b :: le(a, b) && le(b, a) ==> a == b)
    && (forall a, b, c :: le(a, b) && le(b, c) ==> le(a, c))
    && (forall a, b :: le(a, b) || le(b, a))
  }

  predicate SortedBy<T>(s: seq<T>, le: (T, T) -> bool)
  {
    forall i, j :: 0 <= i < j < |s| ==> le(s[i], s[j])
  }

  /** `x` placed in front of the first element of `s` that it does not exceed. */
  function Insert<T(!new)>(x: T, s: seq<T>, le: (T, T) -> bool): (r: seq<T>)
    requires TotalOrder(le) && SortedBy(s, le)
    ensures SortedBy(r, le) && multiset(r) == multiset(s) + multiset{x} && |r| == |s| + 1
  {
    if s == [] then [x]
    else if le(x, s[0]) then
      assert forall j :: 0 < j < |s| ==> le(s[0], s[j]);
      [x] + s
    else
      var tail := Insert(x, s[1..], le);
      BoundBelow(s[0], tail, s[1..], x, le);
      assert s == [s[0]] + s[1..];
      [s[0]] + tail
  }

  /** A lower bound of `s` and of `x` is a lower bound of any permutation of `s + [x]`. */
  lemma BoundBelow<T>(lo: T, r: seq<T>, s: seq<T>, x: T, le: (T, T) -> bool)
    requires multiset(r) == multiset(s) + multiset{x}
    requires le(lo, x) && forall j :: 0 <= j < |s| ==> le(lo, s[j])
    ensures forall j :: 0 <= j < |r| ==> le(lo, r[j])
  {
    forall j | 0 <= j < |r| ensures le(lo, r[j]) {
      assert r[j] in multiset(r);
      assert r[j] in multiset(s) || r[j] == x;
    }
  }

  /** The sorted permutation of `s`. */
  function Sort<T(!new)>(s: seq<T>, le: (T, T) -> bool): (r: seq<T>)
    requires TotalOrder(le)
    ensures SortedBy(r, le) && multiset(r) == multiset(s) && |r| == |s|
  {
    if s == [] then []
    else
      assert s == s[..|s| - 1] + [s[|s| - 1]];
      Insert(s[|s| - 1], Sort(s[..|s| - 1], le), le)
  }

  /** Two sorted permutations of the same elements are equal: whatever algorithm the
      library uses, an unstable sort under a total order has exactly one possible result. */
  lemma {:induction false} SortedUnique<T(!new)>(a: seq<T>, b: seq<T>, le: (T, T) -> bool)
    requires TotalOrder(le) && SortedBy(a, le) && SortedBy(b, le)
    requires multiset(a) == multiset(b)
    ensures a == b
    decreases |a|
  {
    if a != [] {
      assert |b| == |multiset(b)| == |a|;
      var i := IndexOf(b[0], a);
      var j := IndexOf(a[0], b);
      assert le(a[0], a[i]) || i == 0;
      assert le(b[0], b[j]) || j == 0;
      assert a[0] == b[0];
      MultisetFirst(a);
      MultisetFirst(b);
      MultisetCancel(a[0], multiset(a[1..]), multiset(b[1..]));
      SortedTail(a, le);
      SortedTail(b, le);
      SortedUnique(a[1..], b[1..], le);
      assert a == [a[0]] + a[1..] && b == [b[0]] + b[1..];
    }
  }

  /** A position at which an element of the multiset of `s` occurs. */
  lemma IndexOf<T>(x: T, s: seq<T>) returns (i: nat)
    requires x in multiset(s)
    ensures i < |s| && s[i] == x
  {
    i :| 0 <= i < |s| && s[i] == x;
  }

  lemma MultisetFirst<T>(s: seq<T>)
    requires s != []
    ensures multiset(s) == multiset{s[0]} + multiset(s[1..])
  {
    assert s == [s[0]] + s[1..];
  }

  lemma MultisetRemove<T>(s: seq<T>, i: nat)
    requires i < |s|
    ensures multiset(s) == multiset{s[i]} + multiset(s[..i] + s[i + 1..])
  {
    assert s == s[..i] + [s[i]] + s[i + 1..];
  }

  lemma MultisetCancel<T>(x: T, p: multiset<T>, q: multiset<T>)
    requires multiset{x} + p == multiset{x} + q
    ensures p == q
  {
    assert p == multiset{x} + p - multiset{x};
  }

  lemma SortedTail<T>(s: seq<T>, le: (T, T) -> bool)
    requires SortedBy(s, le) && s != []
    ensures SortedBy(s[1..], le)
  {
    forall i, j | 0 <= i < j < |s| - 1 ensures le(s[1..][i], s[1..][j]) {
      assert s[1..][i] == s[i + 1] && s[1..][j] == s[j + 1];
    }
  }

  /** Order between neighbours gives order throughout. */
  lemma {:induction false} AdjacentSorted<T(!new)>(s: seq<T>, le: (T, T) -> bool)
    requires TotalOrder(le)
    requires forall i :: 0 <= i < |s| - 1 ==> le(s[i], s[i + 1])
    ensures SortedBy(s, le)
    decreases |s|
  {
    if s != [] {
      AdjacentSorted(s[1..], le);
      forall i, j | 0 <= i < j < |s| ensures le(s[i], s[j]) {
        if 0 < i {
          assert le(s[1..][i - 1], s[1..][j - 1]);
        } else if 1 < j {
          assert le(s[1..][0], s[1..][j - 1]);
        }
      }
    }
  }

  /** `Sort` depends only on the multiset of its input. */
  lemma SortPermutation<T(!new)>(a: seq<T>, b: seq<T>, le: (T, T) -> bool)
    requires TotalOrder(le) && multiset(a) == multiset(b)
    ensures Sort(a, le) == Sort(b, le)
  {
    SortedUnique(Sort(a, le), Sort(b, le), le);
  }

  /** A sequence already sorted is its own sort. */
  lemma SortSorted<T(!new)>(s: seq<T>, le: (T, T) -> bool)
    requires TotalOrder(le) && SortedBy(s, le)
    ensures Sort(s, le) == s
  {
    SortedUnique(Sort(s, le), s, le);
  }

  /** `f` applied to every element. */
  function Apply<T, U>(f: T -> U, s: seq<T>): (r: seq<U>)
    ensures |r| == |s|
  {
    seq(|s|, k requires 0 <= k < |s| => f(s[k]))
  }

  lemma ApplyConcat<T, U>(f: T -> U, a: seq<T>, b: seq<T>)
    ensures Apply(f, a + b) == Apply(f, a) + Apply(f, b)
  {
    assert forall k :: 0 <= k < |a + b| ==> Apply(f, a + b)[k] == (Apply(f, a) + Apply(f, b))[k];
  }

  /** Taking element `i` out before mapping takes its image out after. */
  lemma ApplyRemove<T, U>(f: T -> U, b: seq<T>, i: nat)
    requires i < |b|
    ensures multiset(Apply(f, b)) == multiset(Apply(f, b[..i] + b[i + 1..])) + multiset{f(b[i])}
  {
    assert b == b[..i] + [b[i]] + b[i + 1..];
    ApplyConcat(f, b[..i], [b[i]]);
    ApplyConcat(f, b[..i] + [b[i]], b[i + 1..]);
    ApplyConcat(f, b[..i], b[i + 1..]);
  }

  /** Mapping two permutations of each other gives two permutations of each other. */
  lemma {:induction false} ApplyPermutation<T, U>(f: T -> U, a: seq<T>, b: seq<T>)
    requires multiset(a) == multiset(b)
    ensures multiset(Apply(f, a)) == multiset(Apply(f, b))
    decreases |a|
  {
    if a != [] {
      var x := a[0];
      var i := IndexOf(x, b);
      var rest := b[..i] + b[i + 1..];
      MultisetRemove(b, i);
      MultisetFirst(a);
      MultisetCancel(x, multiset(a[1..]), multiset(rest));
      ApplyPermutation(f, a[1..], rest);
      ApplyRemove(f, b, i);
      ApplyConcat(f, [x], a[1..]);
      assert a == [x] + a[1..];
    }
  }
}
