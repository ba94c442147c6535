/** What the store's query engine does with a collection: keep the documents a
    filter matches, in store order, and cut a page out with skip and limit. */
module Sequences {

  function Min(a: int, b: int): int {
    if a <= b then a else b
  }

  /** The elements of `s` that satisfy `p`, in their order in `s`. */
  function Filter<T(!new)>(s: seq<T>, p: T -> bool): (r: seq<T>)
    ensures |r| <= |s|
    ensures forall i | 0 <= i < |r| :: r[i] in s && p(r[i])
    ensures forall i | 0 <= i < |s| :: p(s[i]) ==> s[i] in r
    decreases |s|
  {
    if s == [] then []
    else (if p(s[0]) then [s[0]] else []) + Filter(s[1..], p)
  }

  /** The filter keeps every element that satisfies `p` as often as `s` holds it,
      and no other element. */
  lemma {:induction false} FilterCounts<T(!new)>(s: seq<T>, p: T -> bool)
    ensures forall x :: multiset(Filter(s, p))[x] == if p(x) then multiset(s)[x] else 0
    decreases |s|
  {
    if s != [] {
      FilterCounts(s[1..], p);
      assert s == [s[0]] + s[1..];
    }
  }

  /** The positions of `s` whose elements satisfy `p`, in increasing order: the
      filter keeps exactly the elements at these positions, in this order. */
  function FilterPositions<T(!new)>(s: seq<T>, p: T -> bool): (ix: seq<nat>)
    ensures |ix| == |Filter(s, p)|
    ensures forall k | 0 <= k < |ix| :: ix[k] < |s| && Filter(s, p)[k] == s[ix[k]]
    ensures forall k, l | 0 <= k < l < |ix| :: ix[k] < ix[l]
    ensures forall i | 0 <= i < |s| :: p(s[i]) <==> i in ix
    decreases |s|
  {
    if s == [] then []
    else
      var rest := FilterPositions(s[1..], p);
      var ix := (if p(s[0]) then [0] else []) + Shift(rest);
      assert Filter(s, p) == (if p(s[0]) then [s[0]] else []) + Filter(s[1..], p);
      PositionsStep(s, Filter(s[1..], p), Filter(s, p), p(s[0]), rest, ix);
      PositionsStepComplete(s, p, rest, ix);
      ix
  }

  function Shift(ix: seq<nat>): (r: seq<nat>)
    ensures |r| == |ix|
    ensures forall k | 0 <= k < |ix| :: r[k] == ix[k] + 1
  {
    seq(|ix|, k requires 0 <= k < |ix| => ix[k] + 1)
  }

  /** Putting an element in front of `s`: the positions `rest` of the kept tail
      elements, shifted by one and preceded by 0 when the head is kept, are the
      positions of the kept elements. */
  lemma PositionsStep<T>(s: seq<T>, f: seq<T>, r: seq<T>, keep: bool, rest: seq<nat>, ix: seq<nat>)
    requires s != []
    requires r == (if keep then [s[0]] else []) + f
    requires |rest| == |f|
    requires forall k | 0 <= k < |rest| :: rest[k] < |s| - 1 && f[k] == s[rest[k] + 1]
    requires ix == (if keep then [0] else []) + Shift(rest)
    ensures |ix| == |r|
    ensures forall k | 0 <= k < |ix| :: ix[k] < |s| && r[k] == s[ix[k]]
  {
    var h := if keep then 1 else 0;
    forall k | 0 <= k < |ix|
      ensures ix[k] < |s| && r[k] == s[ix[k]]
    {
      if k >= h {
        assert ix[k] == rest[k - h] + 1;
        assert r[k] == f[k - h];
      }
    }
  }

  /** The same step keeps the positions increasing and lists every position whose
      element satisfies `p`. */
  lemma PositionsStepComplete<T>(s: seq<T>, p: T -> bool, rest: seq<nat>, ix: seq<nat>)
    requires s != []
    requires forall k, l | 0 <= k < l < |rest| :: rest[k] < rest[l]
    requires forall i | 0 <= i < |s| - 1 :: p(s[i + 1]) <==> i in rest
    requires ix == (if p(s[0]) then [0] else []) + Shift(rest)
    ensures forall k, l | 0 <= k < l < |ix| :: ix[k] < ix[l]
    ensures forall i | 0 <= i < |s| :: p(s[i]) <==> i in ix
  {
    var h := if p(s[0]) then 1 else 0;
    forall i | 0 < i < |s|
      ensures p(s[i]) <==> i in ix
    {
      if i - 1 in rest {
        var k :| 0 <= k < |rest| && rest[k] == i - 1;
        assert ix[k + h] == i;
      }
      if i in ix {
        var k :| 0 <= k < |ix| && ix[k] == i;
        assert k >= h && rest[k - h] == i - 1;
      }
    }
  }

  /** Two filters that agree on every element of `s` select the same elements. */
  lemma {:induction false} FilterAgree<T(!new)>(s: seq<T>, p: T -> bool, q: T -> bool)
    requires forall x | x in s :: p(x) == q(x)
    ensures Filter(s, p) == Filter(s, q)
    decreases |s|
  {
    if s != [] {
      FilterAgree(s[1..], p, q);
    }
  }

  /** Every element satisfies exactly one of `p` and its negation. */
  lemma {:induction false} FilterPartition<T(!new)>(s: seq<T>, p: T -> bool, q: T -> bool)
    requires forall x | x in s :: q(x) == !p(x)
    ensures |Filter(s, p)| + |Filter(s, q)| == |s|
    decreases |s|
  {
    if s != [] {
      FilterPartition(s[1..], p, q);
    }
  }

  /** A filter that holds of every element keeps them all. */
  lemma {:induction false} FilterAll<T(!new)>(s: seq<T>, p: T -> bool)
    requires forall x | x in s :: p(x)
    ensures Filter(s, p) == s
    decreases |s|
  {
    if s != [] {
      FilterAll(s[1..], p);
    }
  }

  predicate Distinct<T(==)>(s: seq<T>) {
    forall i, j | 0 <= i < j < |s| :: s[i] != s[j]
  }

  /** Filtering a sequence without repeated elements repeats none. */
  lemma {:induction false} FilterDistinct<T(!new)>(s: seq<T>, p: T -> bool)
    requires Distinct(s)
    ensures Distinct(Filter(s, p))
    decreases |s|
  {
    if s != [] {
      assert Distinct(s[1..]) by {
        forall i, j | 0 <= i < j < |s[1..]|
          ensures s[1..][i] != s[1..][j]
        {
          assert s[1..][i] == s[i + 1] && s[1..][j] == s[j + 1];
        }
      }
      FilterDistinct(s[1..], p);
      var rest := Filter(s[1..], p);
      forall k | 0 <= k < |rest|
        ensures rest[k] != s[0]
      {
        var m :| 0 <= m < |s[1..]| && s[1..][m] == rest[k];
        assert s[m + 1] == rest[k];
      }
    }
  }

  /** `.skip(skip).limit(limit)`: the run of at most `limit` elements that starts
      at position `skip`; empty when `skip` is past the end. */
  function Page<T>(s: seq<T>, skip: nat, limit: nat): (r: seq<T>)
    ensures |r| == if skip >= |s| then 0 else Min(limit, |s| - skip)
    ensures forall i | 0 <= i < |r| :: r[i] == s[skip + i]
  {
    if skip >= |s| then [] else s[skip..skip + Min(limit, |s| - skip)]
  }

  /** Two consecutive pages of size `n` are the page of size `2 * n`. */
  lemma ConsecutivePages<T>(s: seq<T>, skip: nat, n: nat)
    ensures Page(s, skip, n) + Page(s, skip + n, n) == Page(s, skip, 2 * n)
  {
    var a, b, c := Page(s, skip, n), Page(s, skip + n, n), Page(s, skip, 2 * n);
    assert |a + b| == |c|;
    forall i | 0 <= i < |c|
      ensures (a + b)[i] == c[i]
    {
      if i >= |a| {
        assert |a| == n;
        assert b[i - n] == s[skip + i];
      }
    }
  }

  /** The first two pages of size `n` are the prefix of length at most `2 * n`. */
  lemma FirstTwoPages<T>(s: seq<T>, n: nat)
    ensures Page(s, 0, n) + Page(s, n, n) == s[..Min(2 * n, |s|)]
  {
    ConsecutivePages(s, 0, n);
    assert Page(s, 0, 2 * n) == s[..Min(2 * n, |s|)];
  }

  /** Pages taken at different offsets of a store without repeated elements share
      no element when they do not overlap. */
  lemma DisjointPages<T>(s: seq<T>, skip1: nat, skip2: nat, n: nat)
    requires Distinct(s)
    requires skip1 + n <= skip2
    ensures forall x | x in Page(s, skip1, n) :: x !in Page(s, skip2, n)
  {
    var a, b := Page(s, skip1, n), Page(s, skip2, n);
    forall x | x in a
      ensures x !in b
    {
      var i :| 0 <= i < |a| && a[i] == x;
      forall j | 0 <= j < |b|
        ensures b[j] != x
      {
        assert b[j] == s[skip2 + j] && x == s[skip1 + i];
      }
    }
  }
}
