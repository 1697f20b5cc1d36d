/** List utilities shared by the server and the client models: filtering,
    order-preserving sub-lists and first-appearance de-duplication. */
module Seqs {

  /** `sub` is `xs` with some elements dropped and the rest kept in order. */
  predicate IsSubseq<T(==)>(sub: seq<T>, xs: seq<T>)
    decreases |xs|
  {
    if |xs| == 0 then |sub| == 0
    else IsSubseq(sub, xs[1..]) || (|sub| > 0 && sub[0] == xs[0] && IsSubseq(sub[1..], xs[1..]))
  }

  /** No element occurs twice. */
  predicate Distinct<T(==)>(xs: seq<T>) {
    forall i, j | 0 <= i < j < |xs| :: xs[i] != xs[j]
  }

  /** The elements of `xs` that satisfy `keep`, in order (JavaScript `Array.filter`). */
  function Filter<T>(xs: seq<T>, keep: T -> bool): (r: seq<T>)
    ensures |r| <= |xs|
    ensures forall i | 0 <= i < |r| :: keep(r[i]) && r[i] in xs
    ensures forall x | x in xs && keep(x) :: x in r
    decreases |xs|
  {
    if |xs| == 0 then []
    else (if keep(xs[0]) then [xs[0]] else []) + Filter(xs[1..], keep)
  }

  /** Every list is a sub-list of itself. */
  lemma {:induction false} SubseqRefl<T>(xs: seq<T>)
    ensures IsSubseq(xs, xs)
    decreases |xs|
  {
    if |xs| > 0 {
      SubseqRefl(xs[1..]);
    }
  }

  /** A filtered list keeps the order of its source. */
  lemma {:induction false} FilterIsSubseq<T>(xs: seq<T>, keep: T -> bool)
    ensures IsSubseq(Filter(xs, keep), xs)
    decreases |xs|
  {
    if |xs| > 0 {
      FilterIsSubseq(xs[1..], keep);
      var tail := Filter(xs[1..], keep);
      if keep(xs[0]) {
        assert Filter(xs, keep) == [xs[0]] + tail;
        assert (Filter(xs, keep))[1..] == tail;
      } else {
        assert Filter(xs, keep) == tail;
      }
    }
  }

  /** A stronger filter keeps a sub-list of what a weaker filter keeps. */
  lemma {:induction false} FilterMonotone<T>(xs: seq<T>, strong: T -> bool, weak: T -> bool)
    requires forall x | x in xs :: strong(x) ==> weak(x)
    ensures IsSubseq(Filter(xs, strong), Filter(xs, weak))
    decreases |xs|
  {
    if |xs| == 0 {
    } else {
      FilterMonotone(xs[1..], strong, weak);
      var s := Filter(xs[1..], strong);
      var w := Filter(xs[1..], weak);
      if strong(xs[0]) {
        assert Filter(xs, strong) == [xs[0]] + s;
        assert Filter(xs, weak) == [xs[0]] + w;
        assert ([xs[0]] + s)[1..] == s;
        assert ([xs[0]] + w)[1..] == w;
      } else if weak(xs[0]) {
        assert Filter(xs, strong) == s;
        assert Filter(xs, weak) == [xs[0]] + w;
        assert ([xs[0]] + w)[1..] == w;
      } else {
        assert Filter(xs, strong) == s;
        assert Filter(xs, weak) == w;
      }
    }
  }

  /** Lists with the same multiset have the same members. */
  lemma SameMembers<T>(a: seq<T>, b: seq<T>)
    requires multiset(a) == multiset(b)
    ensures forall i | 0 <= i < |a| :: a[i] in b
    ensures forall j | 0 <= j < |b| :: b[j] in a
  {
    forall i | 0 <= i < |a|
      ensures a[i] in b
    {
      assert a[i] in multiset(a);
    }
    forall j | 0 <= j < |b|
      ensures b[j] in a
    {
      assert b[j] in multiset(b);
    }
  }

  /** A rearrangement of a filtered list holds exactly the elements that pass. */
  lemma PermutedFilter<T>(r: seq<T>, xs: seq<T>, keep: T -> bool)
    requires multiset(r) == multiset(Filter(xs, keep))
    ensures forall i | 0 <= i < |r| :: keep(r[i]) && r[i] in xs
    ensures forall k | 0 <= k < |xs| && keep(xs[k]) :: xs[k] in r
  {
    var f := Filter(xs, keep);
    SameMembers(r, f);
    forall i | 0 <= i < |r|
      ensures keep(r[i]) && r[i] in xs
    {
      var j :| 0 <= j < |f| && f[j] == r[i];
    }
  }

  /** The distinct elements of `xs` in order of first appearance (JavaScript
      `[...new Set(xs)]`). */
  function Dedup<T(==)>(xs: seq<T>): (r: seq<T>)
    ensures Distinct(r)
    ensures forall i | 0 <= i < |r| :: r[i] in xs
    ensures forall i | 0 <= i < |xs| :: xs[i] in r
    decreases |xs|
  {
    if |xs| == 0 then []
    else
      var d := Dedup(xs[..|xs| - 1]);
      assert xs == xs[..|xs| - 1] + [xs[|xs| - 1]];
      if xs[|xs| - 1] in d then d else d + [xs[|xs| - 1]]
  }

  /** A filter that keeps every element is the identity. */
  lemma {:induction false} KeepAll<T>(xs: seq<T>, keep: T -> bool)
    requires forall i | 0 <= i < |xs| :: keep(xs[i])
    ensures Filter(xs, keep) == xs
    decreases |xs|
  {
    if |xs| > 0 {
      KeepAll(xs[1..], keep);
    }
  }

  /** Filtering distributes over concatenation. */
  lemma {:induction false} FilterConcat<T>(a: seq<T>, b: seq<T>, keep: T -> bool)
    ensures Filter(a + b, keep) == Filter(a, keep) + Filter(b, keep)
    decreases |a|
  {
    if |a| == 0 {
      assert a + b == b;
    } else {
      assert (a + b)[0] == a[0];
      assert (a + b)[1..] == a[1..] + b;
      FilterConcat(a[1..], b, keep);
    }
  }

  /** A filter that rejects exactly the element at `k` removes that element. */
  lemma FilterDropsOne<T>(xs: seq<T>, keep: T -> bool, k: nat)
    requires k < |xs| && !keep(xs[k])
    requires forall j | 0 <= j < |xs| && j != k :: keep(xs[j])
    ensures Filter(xs, keep) == xs[..k] + xs[k + 1..]
  {
    FilterSplit(xs, keep, k);
    KeepPrefix(xs, keep, k);
    RejectAt(xs, keep, k);
  }

  /** Filtering a list is filtering its two halves. */
  lemma FilterSplit<T>(xs: seq<T>, keep: T -> bool, k: nat)
    requires k <= |xs|
    ensures Filter(xs, keep) == Filter(xs[..k], keep) + Filter(xs[k..], keep)
  {
    assert xs == xs[..k] + xs[k..];
    FilterConcat(xs[..k], xs[k..], keep);
  }

  lemma KeepPrefix<T>(xs: seq<T>, keep: T -> bool, k: nat)
    requires k <= |xs|
    requires forall j | 0 <= j < k :: keep(xs[j])
    ensures Filter(xs[..k], keep) == xs[..k]
  {
    KeepAll(xs[..k], keep);
  }

  lemma RejectAt<T>(xs: seq<T>, keep: T -> bool, k: nat)
    requires k < |xs| && !keep(xs[k])
    requires forall j | k < j < |xs| :: keep(xs[j])
    ensures Filter(xs[k..], keep) == xs[k + 1..]
  {
    var ys := xs[k..];
    assert ys[0] == xs[k] && ys[1..] == xs[k + 1..];
    assert forall j | 0 <= j < |ys| - 1 :: ys[1..][j] == xs[k + 1 + j];
    KeepAll(ys[1..], keep);
  }

  /** Filtering twice is filtering once by both tests. */
  lemma {:induction false} FilterTwice<T>(xs: seq<T>, first: T -> bool, second: T -> bool, both: T -> bool)
    requires forall x | x in xs :: both(x) == (first(x) && second(x))
    ensures Filter(Filter(xs, first), second) == Filter(xs, both)
    decreases |xs|
  {
    if |xs| > 0 {
      assert forall x | x in xs[1..] :: x in xs;
      FilterTwice(xs[1..], first, second, both);
      var tail := Filter(xs[1..], first);
      if first(xs[0]) {
        assert Filter(xs, first) == [xs[0]] + tail;
        assert ([xs[0]] + tail)[1..] == tail;
      } else {
        assert Filter(xs, first) == tail;
      }
    }
  }

  /** Tests that agree on every element filter alike. */
  lemma {:induction false} FilterAgree<T>(xs: seq<T>, p: T -> bool, q: T -> bool)
    requires forall x | x in xs :: p(x) == q(x)
    ensures Filter(xs, p) == Filter(xs, q)
    decreases |xs|
  {
    if |xs| > 0 {
      assert forall x | x in xs[1..] :: x in xs;
      FilterAgree(xs[1..], p, q);
    }
  }
}
