/** Order-keeping splits of a sequence. */
module Sequences {

  /**
   * all is an interleaving of a and b: every element of all goes to exactly
   * one of them, and each keeps the relative order of all.
   */
  ghost predicate Interleaving<T>(all: seq<T>, a: seq<T>, b: seq<T>)
    decreases |all|
  {
    if |all| == 0 then a == [] && b == []
    else
      || (|a| > 0 && a[|a| - 1] == all[|all| - 1] && Interleaving(all[..|all| - 1], a[..|a| - 1], b))
      || (|b| > 0 && b[|b| - 1] == all[|all| - 1] && Interleaving(all[..|all| - 1], a, b[..|b| - 1]))
  }

  lemma {:induction false} InterleavingLength<T>(all: seq<T>, a: seq<T>, b: seq<T>)
    requires Interleaving(all, a, b)
    ensures |a| + |b| == |all|
    ensures multiset(a) + multiset(b) == multiset(all)
    decreases |all|
  {
    if |all| > 0 {
      var n := |all|;
      assert all == all[..n - 1] + [all[n - 1]];
      if |a| > 0 && a[|a| - 1] == all[n - 1] && Interleaving(all[..n - 1], a[..|a| - 1], b) {
        InterleavingLength(all[..n - 1], a[..|a| - 1], b);
        assert a == a[..|a| - 1] + [a[|a| - 1]];
      } else {
        InterleavingLength(all[..n - 1], a, b[..|b| - 1]);
        assert b == b[..|b| - 1] + [b[|b| - 1]];
      }
    }
  }

  ghost predicate Distinct<T>(s: seq<T>) {
    forall i, j :: 0 <= i < j < |s| ==> s[i] != s[j]
  }

  /** The union of f over the elements of xs, accumulated left to right. */
  function UnionOf<T, U>(xs: seq<T>, f: T -> set<U>): set<U> {
    if |xs| == 0 then {} else UnionOf(xs[..|xs| - 1], f) + f(xs[|xs| - 1])
  }

  lemma {:induction false} UnionOfMembers<T, U>(xs: seq<T>, f: T -> set<U>, u: U)
    ensures u in UnionOf(xs, f) <==> exists k :: 0 <= k < |xs| && u in f(xs[k])
  {
    if |xs| > 0 {
      var n := |xs| - 1;
      UnionOfMembers(xs[..n], f, u);
      if exists k :: 0 <= k < |xs| && u in f(xs[k]) {
        var k :| 0 <= k < |xs| && u in f(xs[k]);
        if k < n {
          assert xs[..n][k] == xs[k];
        }
      }
      if u in UnionOf(xs[..n], f) {
        var k :| 0 <= k < n && u in f(xs[..n][k]);
        assert xs[k] == xs[..n][k];
      }
    }
  }

  /** `s.filter(p)`: the elements satisfying p, in order. */
  function Filter<T>(s: seq<T>, p: T -> bool): (r: seq<T>)
    ensures |r| <= |s|
  {
    if |s| == 0 then [] else Filter(s[..|s| - 1], p) + (if p(s[|s| - 1]) then [s[|s| - 1]] else [])
  }

  /** The elements Filter drops, in order. */
  function Reject<T>(s: seq<T>, p: T -> bool): (r: seq<T>)
    ensures |r| <= |s|
  {
    if |s| == 0 then [] else Reject(s[..|s| - 1], p) + (if p(s[|s| - 1]) then [] else [s[|s| - 1]])
  }

  /** A filter splits its input in order between the kept and the dropped elements. */
  lemma {:induction false} FilterSplit<T>(s: seq<T>, p: T -> bool)
    ensures Interleaving(s, Filter(s, p), Reject(s, p))
    ensures |Filter(s, p)| + |Reject(s, p)| == |s|
  {
    if |s| > 0 {
      var n := |s| - 1;
      var front := s[..n];
      FilterSplit(front, p);
      var kept := Filter(s, p);
      var dropped := Reject(s, p);
      if p(s[n]) {
        assert kept[..|kept| - 1] == Filter(front, p);
        assert dropped == Reject(front, p);
        assert kept[|kept| - 1] == s[n];
      } else {
        assert dropped[..|dropped| - 1] == Reject(front, p);
        assert kept == Filter(front, p);
        assert dropped[|dropped| - 1] == s[n];
      }
    }
  }

  /** The kept elements are exactly those satisfying p, the dropped ones those that do not. */
  lemma {:induction false} FilterMember<T>(s: seq<T>, p: T -> bool, x: T)
    ensures x in Filter(s, p) <==> x in s && p(x)
    ensures x in Reject(s, p) <==> x in s && !p(x)
  {
    if |s| > 0 {
      var n := |s| - 1;
      FilterMember(s[..n], p, x);
      assert s == s[..n] + [s[n]];
    }
  }

  /** Filters by predicates that agree on every element are equal. */
  lemma {:induction false} FilterSame<T>(s: seq<T>, p: T -> bool, q: T -> bool)
    requires forall i :: 0 <= i < |s| ==> p(s[i]) == q(s[i])
    ensures Filter(s, p) == Filter(s, q)
    ensures Reject(s, p) == Reject(s, q)
  {
    if |s| > 0 {
      FilterSame(s[..|s| - 1], p, q);
    }
  }
}
