/**
 * Plain JavaScript objects used as dictionaries: string keys in insertion
 * order (what `Object.keys`, `Object.values` and `Object.entries` list)
 * with a value per key. Property reads that miss an own key fall through
 * to `Object.prototype`, whose members are listed here.
 */
module JsObject {
  import opened Wrappers

  datatype Dict<V> = Dict(keys: seq<string>, values: map<string, V>)

  /** Keys are listed once each, and exactly the keys that have a value. */
  ghost predicate Valid<V>(d: Dict<V>) {
    && (forall i, j :: 0 <= i < j < |d.keys| ==> d.keys[i] != d.keys[j])
    && (forall k :: k in d.values <==> k in d.keys)
  }

  function Empty<V>(): (d: Dict<V>)
    ensures Valid(d) && d.keys == []
  {
    Dict([], map[])
  }

  /** `d[k] = v`: a new key goes to the end of the key order, an old key keeps its place. */
  function Put<V>(d: Dict<V>, k: string, v: V): (r: Dict<V>)
    requires Valid(d)
    ensures Valid(r)
    ensures r.values == d.values[k := v]
    ensures r.keys == if k in d.values then d.keys else d.keys + [k]
  {
    if k in d.values then Dict(d.keys, d.values[k := v]) else Dict(d.keys + [k], d.values[k := v])
  }

  /** `d[k] || fallback` for a dictionary whose values are never falsy. */
  function GetOr<V>(d: Dict<V>, k: string, fallback: V): V {
    if k in d.values then d.values[k] else fallback
  }

  /** `Object.entries(d)`: key/value pairs in key order. */
  function Entries<V>(d: Dict<V>): (r: seq<(string, V)>)
    requires Valid(d)
    ensures |r| == |d.keys|
    ensures forall i :: 0 <= i < |r| ==> r[i].0 == d.keys[i] && r[i].1 == d.values[d.keys[i]]
  {
    seq(|d.keys|, i requires 0 <= i < |d.keys| => (d.keys[i], d.values[d.keys[i]]))
  }

  /** `(d[k] || 0) + 1`, stored back under k. */
  function Increment(d: Dict<int>, k: string): (r: Dict<int>)
    requires Valid(d)
    ensures Valid(r)
  {
    Put(d, k, GetOr(d, k, 0) + 1)
  }

  /** The dictionary that counting the keys ks one after the other builds. */
  function Tally(ks: seq<string>): (r: Dict<int>)
    ensures Valid(r)
  {
    if |ks| == 0 then Empty() else Increment(Tally(ks[..|ks| - 1]), ks[|ks| - 1])
  }

  function Occurrences(ks: seq<string>, k: string): nat {
    if |ks| == 0 then 0 else Occurrences(ks[..|ks| - 1], k) + (if ks[|ks| - 1] == k then 1 else 0)
  }

  /** Counting x adds x as a key and 1 to its count, and leaves every other count alone. */
  lemma IncrementFacts(d: Dict<int>, x: string, k: string)
    requires Valid(d)
    ensures k in Increment(d, x).values <==> k in d.values || k == x
    ensures GetOr(Increment(d, x), k, 0) == GetOr(d, k, 0) + (if k == x then 1 else 0)
  {
  }

  /** A tally holds, for every key, the number of times it was counted, and no other keys. */
  lemma {:induction false} TallyCounts(ks: seq<string>, k: string)
    ensures k in Tally(ks).values <==> k in ks
    ensures GetOr(Tally(ks), k, 0) == Occurrences(ks, k)
  {
    if |ks| > 0 {
      var front := ks[..|ks| - 1];
      var last := ks[|ks| - 1];
      TallyCounts(front, k);
      assert Tally(ks) == Increment(Tally(front), last);
      IncrementFacts(Tally(front), last, k);
      LastSplit(ks, k);
    }
  }

  lemma LastSplit<T>(s: seq<T>, x: T)
    requires |s| > 0
    ensures x in s <==> x in s[..|s| - 1] || x == s[|s| - 1]
  {
    assert s == s[..|s| - 1] + [s[|s| - 1]];
  }

  /** Sum of the values listed under the given keys. */
  function SumOver(keys: seq<string>, m: map<string, int>): int
    requires forall k :: k in keys ==> k in m
  {
    if |keys| == 0 then 0 else SumOver(keys[..|keys| - 1], m) + m[keys[|keys| - 1]]
  }

  function EntrySum(es: seq<(string, int)>): int {
    if |es| == 0 then 0 else EntrySum(es[..|es| - 1]) + es[|es| - 1].1
  }

  lemma {:induction false} EntrySumIsSumOver(d: Dict<int>)
    requires Valid(d)
    ensures EntrySum(Entries(d)) == SumOver(d.keys, d.values)
    decreases |d.keys|
  {
    if |d.keys| > 0 {
      var shorter := Dict(d.keys[..|d.keys| - 1], d.values - {d.keys[|d.keys| - 1]});
      var last := d.keys[|d.keys| - 1];
      assert Valid(shorter) by {
        forall k ensures k in shorter.values <==> k in shorter.keys {
          if k in shorter.keys {
            var i :| 0 <= i < |shorter.keys| && shorter.keys[i] == k;
            assert d.keys[i] == k && i < |d.keys| - 1;
          }
        }
      }
      EntrySumIsSumOver(shorter);
      assert Entries(d)[..|d.keys| - 1] == Entries(shorter);
      SumOverSame(shorter.keys, shorter.values, d.values);
    }
  }

  lemma {:induction false} SumOverSame(keys: seq<string>, m1: map<string, int>, m2: map<string, int>)
    requires forall k :: k in keys ==> k in m1 && k in m2 && m1[k] == m2[k]
    ensures SumOver(keys, m1) == SumOver(keys, m2)
  {
    if |keys| > 0 {
      SumOverSame(keys[..|keys| - 1], m1, m2);
    }
  }

  lemma {:induction false} SumOverBump(keys: seq<string>, m: map<string, int>, k: string)
    requires forall x :: x in keys ==> x in m
    requires forall i, j :: 0 <= i < j < |keys| ==> keys[i] != keys[j]
    requires k in keys
    ensures SumOver(keys, m[k := m[k] + 1]) == SumOver(keys, m) + 1
  {
    var n := |keys|;
    var front := keys[..n - 1];
    if keys[n - 1] == k {
      assert k !in front by {
        forall i | 0 <= i < n - 1 ensures front[i] != k { assert keys[i] != keys[n - 1]; }
      }
      SumOverSame(front, m, m[k := m[k] + 1]);
    } else {
      assert k in front;
      SumOverBump(front, m, k);
    }
  }

  /** Counting |ks| keys leaves values that add up to |ks|. */
  lemma {:induction false} TallySum(ks: seq<string>)
    ensures EntrySum(Entries(Tally(ks))) == |ks|
  {
    TallySumOver(ks);
    EntrySumIsSumOver(Tally(ks));
  }

  lemma {:induction false} TallySumOver(ks: seq<string>)
    ensures SumOver(Tally(ks).keys, Tally(ks).values) == |ks|
  {
    if |ks| > 0 {
      var d := Tally(ks[..|ks| - 1]);
      var k := ks[|ks| - 1];
      TallySumOver(ks[..|ks| - 1]);
      assert Tally(ks) == Increment(d, k);
      if k in d.values {
        assert Tally(ks) == Dict(d.keys, d.values[k := d.values[k] + 1]);
        SumOverBump(d.keys, d.values, k);
      } else {
        var m := d.values[k := 1];
        assert Tally(ks) == Dict(d.keys + [k], m);
        assert (d.keys + [k])[..|d.keys|] == d.keys;
        SumOverSame(d.keys, d.values, m);
        assert SumOver(d.keys + [k], m) == SumOver(d.keys, m) + 1;
      }
    }
  }

  /** What reading `obj[key]` on a plain object yields. */
  datatype Property<V> = Own(value: V) | Inherited(member: string) | Undefined

  /** The members a plain object inherits from `Object.prototype`. */
  const PrototypeMembers: set<string> := {
    "constructor", "__proto__", "toString", "toLocaleString", "valueOf", "hasOwnProperty",
    "isPrototypeOf", "propertyIsEnumerable", "__defineGetter__", "__defineSetter__",
    "__lookupGetter__", "__lookupSetter__"
  }

  /** `obj[key]`: an own property, else an inherited one, else `undefined`. */
  function Read<V>(obj: map<string, V>, key: string): (r: Property<V>)
    ensures r.Own? <==> key in obj
    ensures r.Inherited? <==> key !in obj && key in PrototypeMembers
  {
    if key in obj then Own(obj[key]) else if key in PrototypeMembers then Inherited(key) else Undefined
  }
}
