/**
 * `Array.prototype.sort` with a comparator `(a, b) => key(b) - key(a)`:
 * a stable sort into non-increasing key order, modelled as insertion
 * sort; and `slice(0, n)`.
 */
module Sorting {

  /** Place x before the first element whose key is not larger than its own. */
  function Insert<T>(x: T, s: seq<T>, key: T -> int): (r: seq<T>)
    ensures |r| == |s| + 1
  {
    if |s| == 0 then [x]
    else if key(x) >= key(s[0]) then [x] + s
    else [s[0]] + Insert(x, s[1..], key)
  }

  function SortDesc<T>(s: seq<T>, key: T -> int): (r: seq<T>)
    ensures |r| == |s|
  {
    if |s| == 0 then [] else Insert(s[0], SortDesc(s[1..], key), key)
  }

  ghost predicate SortedDesc<T>(s: seq<T>, key: T -> int) {
    forall i, j :: 0 <= i < j < |s| ==> key(s[i]) >= key(s[j])
  }

  /** The elements whose key is k, in their order. */
  function WithKey<T>(s: seq<T>, key: T -> int, k: int): seq<T>
  {
    if |s| == 0 then [] else (if key(s[0]) == k then [s[0]] else []) + WithKey(s[1..], key, k)
  }

  /** `s.slice(0, n)`. */
  function Take<T>(s: seq<T>, n: nat): (r: seq<T>)
    ensures |r| == if |s| <= n then |s| else n
    ensures r == s[..|r|]
  {
    if |s| <= n then s else s[..n]
  }

  lemma {:induction false} InsertPermutes<T>(x: T, s: seq<T>, key: T -> int)
    ensures multiset(Insert(x, s, key)) == multiset(s) + multiset{x}
  {
    if |s| == 0 {
      assert Insert(x, s, key) == [x];
    } else if key(x) >= key(s[0]) {
      assert Insert(x, s, key) == [x] + s;
    } else {
      var tail := Insert(x, s[1..], key);
      InsertPermutes(x, s[1..], key);
      assert Insert(x, s, key) == [s[0]] + tail;
      assert multiset([s[0]] + tail) == multiset{s[0]} + multiset(tail);
      assert s == [s[0]] + s[1..];
      assert multiset(s) == multiset{s[0]} + multiset(s[1..]);
    }
  }

  lemma {:induction false} InsertSorted<T>(x: T, s: seq<T>, key: T -> int)
    requires SortedDesc(s, key)
    ensures SortedDesc(Insert(x, s, key), key)
  {
    if |s| > 0 && key(x) < key(s[0]) {
      var tail := Insert(x, s[1..], key);
      InsertSorted(x, s[1..], key);
      InsertPermutes(x, s[1..], key);
      var r := [s[0]] + tail;
      assert Insert(x, s, key) == r;
      forall i | 0 <= i < |tail| ensures key(s[0]) >= key(tail[i]) {
        assert tail[i] in multiset(tail);
        if tail[i] != x {
          assert tail[i] in multiset(s[1..]);
          var j :| 0 <= j < |s[1..]| && s[1..][j] == tail[i];
          assert s[j + 1] == tail[i];
        }
      }
      forall i, j | 0 <= i < j < |r| ensures key(r[i]) >= key(r[j]) {
        if i > 0 {
          assert r[i] == tail[i - 1] && r[j] == tail[j - 1];
        } else {
          assert r[j] == tail[j - 1];
        }
      }
    }
  }

  lemma {:induction false} InsertWithKey<T>(x: T, s: seq<T>, key: T -> int, k: int)
    ensures WithKey(Insert(x, s, key), key, k) == (if key(x) == k then [x] else []) + WithKey(s, key, k)
  {
    if |s| > 0 && key(x) < key(s[0]) {
      InsertWithKey(x, s[1..], key, k);
      var tail := Insert(x, s[1..], key);
      assert ([s[0]] + tail)[1..] == tail;
    } else if |s| > 0 {
      assert ([x] + s)[1..] == s;
    }
  }

  /** The sort orders by non-increasing key and only rearranges its input. */
  lemma {:induction false} SortDescFacts<T>(s: seq<T>, key: T -> int)
    ensures SortedDesc(SortDesc(s, key), key)
    ensures multiset(SortDesc(s, key)) == multiset(s)
    ensures |SortDesc(s, key)| == |s|
    ensures forall k :: WithKey(SortDesc(s, key), key, k) == WithKey(s, key, k)
  {
    if |s| > 0 {
      var rest := SortDesc(s[1..], key);
      SortDescFacts(s[1..], key);
      InsertPermutes(s[0], rest, key);
      InsertSorted(s[0], rest, key);
      forall k ensures WithKey(SortDesc(s, key), key, k) == WithKey(s, key, k) {
        InsertWithKey(s[0], rest, key, k);
      }
      assert s == [s[0]] + s[1..];
    }
  }

  /** The sort holds exactly the elements of its input. */
  lemma SortMembers<T>(s: seq<T>, key: T -> int)
    ensures forall x :: x in SortDesc(s, key) <==> x in s
  {
    SortDescFacts(s, key);
    forall x ensures x in SortDesc(s, key) <==> x in s {
      assert x in SortDesc(s, key) <==> x in multiset(SortDesc(s, key));
    }
  }

  /** The first element of the sort has the largest key. */
  lemma SortFirstIsMax<T>(s: seq<T>, key: T -> int)
    ensures forall j :: 0 <= j < |s| ==> key(s[j]) <= key(SortDesc(s, key)[0])
  {
    var r := SortDesc(s, key);
    SortDescFacts(s, key);
    SortMembers(s, key);
    forall j | 0 <= j < |s| ensures key(s[j]) <= key(r[0]) {
      assert s[j] in r;
      var i :| 0 <= i < |r| && r[i] == s[j];
      if i > 0 {
        assert key(r[0]) >= key(r[i]);
      }
    }
  }

  /** A sorted sequence whose keys are 1 or 0 is its 1-elements followed by its 0-elements. */
  lemma {:induction false} SortedTwoKeys<T>(s: seq<T>, key: T -> int)
    requires SortedDesc(s, key)
    requires forall i :: 0 <= i < |s| ==> key(s[i]) == 0 || key(s[i]) == 1
    ensures s == WithKey(s, key, 1) + WithKey(s, key, 0)
  {
    if |s| > 0 {
      if key(s[0]) == 0 {
        forall i | 0 < i < |s| ensures key(s[i]) == 0 {
          assert key(s[0]) >= key(s[i]);
        }
        ZeroKeysOnly(s, key);
      } else {
        var tail := s[1..];
        SortedTail(s, key);
        forall i | 0 <= i < |tail| ensures key(tail[i]) == 0 || key(tail[i]) == 1 {
          assert tail[i] == s[i + 1];
        }
        SortedTwoKeys(tail, key);
        assert WithKey(s, key, 1) == [s[0]] + WithKey(tail, key, 1);
        assert WithKey(s, key, 0) == WithKey(tail, key, 0);
        assert s == [s[0]] + tail;
      }
    }
  }

  lemma SortedTail<T>(s: seq<T>, key: T -> int)
    requires |s| > 0 && SortedDesc(s, key)
    ensures SortedDesc(s[1..], key)
  {
    var tail := s[1..];
    forall i, j | 0 <= i < j < |tail| ensures key(tail[i]) >= key(tail[j]) {
      assert tail[i] == s[i + 1] && tail[j] == s[j + 1];
    }
  }

  lemma {:induction false} ZeroKeysOnly<T>(s: seq<T>, key: T -> int)
    requires forall i :: 0 <= i < |s| ==> key(s[i]) == 0
    ensures WithKey(s, key, 1) == [] && WithKey(s, key, 0) == s
  {
    if |s| > 0 {
      ZeroKeysOnly(s[1..], key);
    }
  }

  /**
   * The first n of a sort: as many as there are (at most n), in sorted order,
   * drawn from the input, and no element left out has a larger key than any
   * element kept.
   */
  lemma TopN<T>(s: seq<T>, key: T -> int, n: nat)
    ensures var r := Take(SortDesc(s, key), n);
      && |r| == (if |s| <= n then |s| else n)
      && SortedDesc(r, key)
      && multiset(r) <= multiset(s)
      && forall x :: x in multiset(s) - multiset(r) ==> forall i :: 0 <= i < |r| ==> key(x) <= key(r[i])
  {
    var sorted := SortDesc(s, key);
    SortDescFacts(s, key);
    var r := Take(sorted, n);
    var rest := sorted[|r|..];
    assert sorted == r + rest;
    assert multiset(sorted) == multiset(r) + multiset(rest);
    SortedPrefix(sorted, |r|, key);
    forall x | x in multiset(s) - multiset(r)
      ensures forall i :: 0 <= i < |r| ==> key(x) <= key(r[i])
    {
      assert x in multiset(rest);
      assert x in rest;
      SortedSuffixLower(sorted, |r|, key, x);
    }
  }

  lemma SortedPrefix<T>(s: seq<T>, m: nat, key: T -> int)
    requires m <= |s| && SortedDesc(s, key)
    ensures SortedDesc(s[..m], key)
  {
    var p := s[..m];
    forall i, j | 0 <= i < j < |p| ensures key(p[i]) >= key(p[j]) {
      assert p[i] == s[i] && p[j] == s[j];
    }
  }

  lemma SortedSuffixLower<T>(s: seq<T>, m: nat, key: T -> int, x: T)
    requires m <= |s| && SortedDesc(s, key) && x in s[m..]
    ensures forall i :: 0 <= i < m ==> key(x) <= key(s[..m][i])
  {
    var j :| 0 <= j < |s[m..]| && s[m..][j] == x;
    assert s[m + j] == x;
    forall i | 0 <= i < m ensures key(x) <= key(s[..m][i]) {
      assert s[..m][i] == s[i];
      assert key(s[i]) >= key(s[m + j]);
    }
  }
}
