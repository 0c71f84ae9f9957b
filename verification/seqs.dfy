/** The two array operations every controller is built from:
    `Array.prototype.filter` and `Array.prototype.find` / `findIndex`. */
module Seqs {
  import opened Wrappers

  /** `a` can be obtained from `b` by deleting elements, keeping the order. */
  predicate IsSubsequence<T(==)>(a: seq<T>, b: seq<T>)
    decreases |b|
  {
    if a == [] then true
    else if b == [] then false
    else if a[0] == b[0] then IsSubsequence(a[1..], b[1..])
    else IsSubsequence(a, b[1..])
  }

  /** The elements of `s` that satisfy `p`, in their original order
      (`s.filter(p)`). */
  function Filter<T(==,!new)>(s: seq<T>, p: T -> bool): (r: seq<T>)
    ensures |r| <= |s|
    ensures forall x :: x in r <==> x in s && p(x)
    ensures forall x :: multiset(r)[x] == if p(x) then multiset(s)[x] else 0
    ensures IsSubsequence(r, s)
  {
    if s == [] then []
    else
      var rest := Filter(s[1..], p);
      assert s == [s[0]] + s[1..];
      if p(s[0]) then [s[0]] + rest else rest
  }

  /** One step of `Filter` on a non-empty sequence. */
  lemma FilterStep<T(!new)>(s: seq<T>, p: T -> bool)
    requires s != []
    ensures Filter(s, p) == if p(s[0]) then [s[0]] + Filter(s[1..], p) else Filter(s[1..], p)
  {
  }

  /** Filtering keeps everything exactly when every element passes. */
  lemma {:induction false} FilterAll<T(!new)>(s: seq<T>, p: T -> bool)
    ensures Filter(s, p) == s <==> forall x :: x in s ==> p(x)
  {
    if s != [] {
      FilterAll(s[1..], p);
      assert forall x :: x in s <==> x == s[0] || x in s[1..];
      if p(s[0]) {
        var r := Filter(s[1..], p);
        assert Filter(s, p) == [s[0]] + r;
        if r == s[1..] {
          assert [s[0]] + s[1..] == s;
        }
        if Filter(s, p) == s {
          assert r == ([s[0]] + r)[1..];
        }
      } else {
        assert Filter(s, p) != s by {
          assert |Filter(s, p)| <= |s[1..]| < |s|;
        }
      }
    }
  }

  /** Filtering twice is filtering once by the conjunction. */
  lemma {:induction false} FilterFilter<T(!new)>(s: seq<T>, p: T -> bool, q: T -> bool, pq: T -> bool)
    requires forall x :: pq(x) == (p(x) && q(x))
    ensures Filter(Filter(s, p), q) == Filter(s, pq)
  {
    if s != [] {
      FilterFilter(s[1..], p, q, pq);
      if p(s[0]) {
        assert Filter(s, p) == [s[0]] + Filter(s[1..], p);
        assert ([s[0]] + Filter(s[1..], p))[1..] == Filter(s[1..], p);
      }
    }
  }

  /** Filters that agree on every element of `s` give the same result. */
  lemma {:induction false} FilterCongruent<T(!new)>(s: seq<T>, p: T -> bool, q: T -> bool)
    requires forall x :: x in s ==> p(x) == q(x)
    ensures Filter(s, p) == Filter(s, q)
  {
    if s != [] {
      assert forall x :: x in s[1..] ==> x in s;
      FilterCongruent(s[1..], p, q);
    }
  }

  /** Filtering distributes over concatenation. */
  lemma {:induction false} FilterAppend<T(!new)>(a: seq<T>, b: seq<T>, p: T -> bool)
    ensures Filter(a + b, p) == Filter(a, p) + Filter(b, p)
  {
    if a == [] {
      assert a + b == b;
    } else {
      assert (a + b)[1..] == a[1..] + b;
      FilterAppend(a[1..], b, p);
    }
  }

  /** Index of the first element satisfying `p`
      (`findIndex`; `find` is the element at that index). */
  function FindFirst<T>(s: seq<T>, p: T -> bool): (r: Option<nat>)
    ensures r.Some? ==> r.value < |s| && p(s[r.value])
    ensures r.Some? ==> forall j :: 0 <= j < r.value ==> !p(s[j])
    ensures r.None? <==> forall j :: 0 <= j < |s| ==> !p(s[j])
  {
    if s == [] then None
    else if p(s[0]) then Some(0)
    else
      match FindFirst(s[1..], p)
      case None => None
      case Some(i) => Some(i + 1)
  }

  /** Overwriting an element that `p` rejects with another that `p` rejects
      does not move the first match. */
  lemma FindFirstUpdate<T>(s: seq<T>, p: T -> bool, i: nat, x: T)
    requires i < |s| && !p(s[i]) && !p(x)
    ensures FindFirst(s[i := x], p) == FindFirst(s, p)
  {
    var t := s[i := x];
    assert forall j :: 0 <= j < |s| ==> p(t[j]) == p(s[j]);
    match FindFirst(s, p)
    case None =>
    case Some(k) =>
      assert FindFirst(t, p).Some? && FindFirst(t, p).value == k by {
        assert p(t[k]);
      }
  }

  /** Appending an element that `p` rejects does not move the first match. */
  lemma FindFirstAppend<T>(s: seq<T>, p: T -> bool, x: T)
    requires !p(x)
    ensures FindFirst(s + [x], p) == FindFirst(s, p)
  {
    var t := s + [x];
    assert forall j :: 0 <= j < |s| ==> t[j] == s[j];
    match FindFirst(s, p)
    case None =>
    case Some(k) =>
      assert FindFirst(t, p).Some? && FindFirst(t, p).value == k by {
        assert p(t[k]);
      }
  }

  /** Every earlier element is related to every later one. */
  predicate Pairwise<T>(s: seq<T>, R: (T, T) -> bool)
  {
    forall i, j :: 0 <= i < j < |s| ==> R(s[i], s[j])
  }

  /** Filtering keeps a pairwise property. */
  lemma {:induction false} FilterKeepsPairwise<T(!new)>(s: seq<T>, p: T -> bool, R: (T, T) -> bool)
    requires Pairwise(s, R)
    ensures Pairwise(Filter(s, p), R)
  {
    if s != [] {
      assert Pairwise(s[1..], R);
      FilterKeepsPairwise(s[1..], p, R);
      FilterStep(s, p);
      var rest := Filter(s[1..], p);
      if p(s[0]) {
        var r := [s[0]] + rest;
        forall i, j | 0 <= i < j < |r|
          ensures R(r[i], r[j])
        {
          if i == 0 {
            assert r[j] in s[1..];
            var k :| 0 <= k < |s[1..]| && s[1..][k] == r[j];
            assert s[k + 1] == r[j];
          } else {
            assert r[i] == rest[i - 1] && r[j] == rest[j - 1];
          }
        }
      }
    }
  }

  /** When at most one element fails `p`, filtering drops at most one. */
  lemma {:induction false} FilterDropsAtMostOne<T(!new)>(s: seq<T>, p: T -> bool)
    requires forall i, j :: 0 <= i < j < |s| && !p(s[i]) ==> p(s[j])
    ensures |Filter(s, p)| >= |s| - 1
  {
    if s != [] {
      FilterStep(s, p);
      if p(s[0]) {
        FilterDropsAtMostOne(s[1..], p);
      } else {
        assert forall x :: x in s[1..] ==> p(x) by {
          forall x | x in s[1..] ensures p(x) {
            var k :| 0 <= k < |s[1..]| && s[1..][k] == x;
            assert s[k + 1] == x;
          }
        }
        FilterAll(s[1..], p);
      }
    }
  }
}
