/**
 * The JavaScript string operations the core relies on, on strings of
 * UTF-16 code units modelled as `seq<char>`: `toLowerCase` (ASCII case
 * folding), `includes`, `startsWith`, `split` on a character or on a
 * string, `trim`, `join` and `parseInt` with no radix.
 */
module Text {
  import opened Wrappers

  function LowerChar(c: char): (r: char)
    ensures 'A' <= c <= 'Z' ==> r as int == c as int + 32
    ensures !('A' <= c <= 'Z') ==> r == c
  {
    if 'A' <= c <= 'Z' then (c as int + 32) as char else c
  }

  /** `s.toLowerCase()`, folding only the ASCII letters. */
  function Lower(s: string): (r: string)
    ensures |r| == |s|
    ensures forall i :: 0 <= i < |s| ==> r[i] == LowerChar(s[i])
  {
    seq(|s|, i requires 0 <= i < |s| => LowerChar(s[i]))
  }

  predicate StartsWith(s: string, prefix: string) {
    |prefix| <= |s| && s[..|prefix|] == prefix
  }

  /** `hay.includes(needle)`: the needle occurs at some position of hay. */
  predicate Contains(hay: string, needle: string)
    decreases |hay|
  {
    StartsWith(hay, needle) || (|hay| > 0 && Contains(hay[1..], needle))
  }

  lemma {:induction false} ContainsAt(hay: string, needle: string, i: nat)
    requires i + |needle| <= |hay| && hay[i..i + |needle|] == needle
    ensures Contains(hay, needle)
    decreases i
  {
    if i > 0 {
      assert hay[1..][i - 1..i - 1 + |needle|] == needle;
      ContainsAt(hay[1..], needle, i - 1);
    }
  }

  lemma {:induction false} ContainsWitness(hay: string, needle: string) returns (i: nat)
    requires Contains(hay, needle)
    ensures i + |needle| <= |hay| && hay[i..i + |needle|] == needle
    decreases |hay|
  {
    if StartsWith(hay, needle) {
      i := 0;
    } else {
      var j := ContainsWitness(hay[1..], needle);
      i := j + 1;
      assert hay[i..i + |needle|] == hay[1..][j..j + |needle|];
    }
  }

  /** Everything contains itself and the empty string. */
  lemma ContainsSelf(s: string)
    ensures Contains(s, s) && Contains(s, "")
  {
    assert s[..|s|] == s;
  }

  /** `s.split(sep)` for a one-character separator: always at least one piece. */
  function Split(s: string, sep: char): (r: seq<string>)
    ensures |r| >= 1
    decreases |s|
  {
    if |s| == 0 then [""]
    else
      var rest := Split(s[1..], sep);
      if s[0] == sep then [""] + rest else [[s[0]] + rest[0]] + rest[1..]
  }

  /** `s.split(sep)` for a separator string of two or more characters. */
  function SplitOn(s: string, sep: string): (r: seq<string>)
    requires |sep| > 0
    ensures |r| >= 1
    decreases |s|
  {
    if |s| == 0 then [""]
    else if StartsWith(s, sep) then [""] + SplitOn(s[|sep|..], sep)
    else
      var rest := SplitOn(s[1..], sep);
      [[s[0]] + rest[0]] + rest[1..]
  }

  /** `pieces.join(sep)`. */
  function Join(pieces: seq<string>, sep: string): string
  {
    if |pieces| == 0 then ""
    else if |pieces| == 1 then pieces[0]
    else Join(pieces[..|pieces| - 1], sep) + sep + pieces[|pieces| - 1]
  }

  /** Number of occurrences of a character. */
  function Count(s: string, c: char): nat
  {
    if |s| == 0 then 0 else (if s[0] == c then 1 else 0) + Count(s[1..], c)
  }

  /** Splitting on a character yields one piece more than there are separators. */
  lemma {:induction false} SplitCount(s: string, sep: char)
    ensures |Split(s, sep)| == Count(s, sep) + 1
    decreases |s|
  {
    if |s| > 0 {
      SplitCount(s[1..], sep);
    }
  }

  /** No piece of a split holds the separator, and joining the pieces back gives the input. */
  lemma {:induction false} SplitJoin(s: string, sep: char)
    ensures forall k :: 0 <= k < |Split(s, sep)| ==> sep !in Split(s, sep)[k]
    ensures Join(Split(s, sep), [sep]) == s
    decreases |s|
  {
    SplitPiecesFree(s, sep);
    if |s| > 0 {
      var rest := Split(s[1..], sep);
      SplitJoin(s[1..], sep);
      if s[0] == sep {
        JoinCons("", rest, [sep]);
      } else {
        JoinHead([s[0]], rest, [sep]);
      }
    }
  }

  /** The first piece is the text before the first separator, or all of `s` when it has none. */
  lemma {:induction false} SplitFirst(s: string, sep: char)
    ensures var p := Split(s, sep)[0];
      && StartsWith(s, p) && sep !in p && (|p| == |s| || s[|p|] == sep)
      && (|Split(s, sep)| == 1 <==> |p| == |s|)
    decreases |s|
  {
    if |s| > 0 && s[0] != sep {
      var rest := Split(s[1..], sep);
      SplitFirst(s[1..], sep);
      assert Split(s, sep)[0] == [s[0]] + rest[0];
      assert s == [s[0]] + s[1..];
    }
  }

  lemma {:induction false} SplitPiecesFree(s: string, sep: char)
    ensures forall k :: 0 <= k < |Split(s, sep)| ==> sep !in Split(s, sep)[k]
    decreases |s|
  {
    if |s| > 0 {
      var rest := Split(s[1..], sep);
      var r := Split(s, sep);
      SplitPiecesFree(s[1..], sep);
      if s[0] == sep {
        assert r == [""] + rest;
        forall k | 0 < k < |r| ensures sep !in r[k] {
          assert r[k] == rest[k - 1];
        }
      } else {
        assert r == [[s[0]] + rest[0]] + rest[1..];
        forall k | 0 < k < |r| ensures sep !in r[k] {
          assert r[k] == rest[k];
        }
        assert sep !in rest[0];
      }
    }
  }

  lemma {:induction false} JoinCons(first: string, rest: seq<string>, sep: string)
    requires |rest| >= 1
    ensures Join([first] + rest, sep) == first + sep + Join(rest, sep)
    decreases |rest|
  {
    if |rest| == 1 {
      assert [first] + rest == [first, rest[0]];
      assert ([first] + rest)[..1] == [first];
    } else {
      var all := [first] + rest;
      assert all[..|all| - 1] == [first] + rest[..|rest| - 1];
      JoinCons(first, rest[..|rest| - 1], sep);
    }
  }

  lemma {:induction false} JoinHead(c: string, rest: seq<string>, sep: string)
    requires |rest| >= 1
    ensures Join([c + rest[0]] + rest[1..], sep) == c + Join(rest, sep)
    decreases |rest|
  {
    if |rest| == 1 {
      assert [c + rest[0]] + rest[1..] == [c + rest[0]];
    } else {
      var all := [c + rest[0]] + rest[1..];
      var shorter := rest[..|rest| - 1];
      assert all[..|all| - 1] == [c + shorter[0]] + shorter[1..];
      JoinHead(c, shorter, sep);
    }
  }

  /** A string without the separator splits into itself alone. */
  lemma {:induction false} SplitFree(p: string, sep: char)
    requires sep !in p
    ensures Split(p, sep) == [p]
    decreases |p|
  {
    if |p| > 0 {
      SplitFree(p[1..], sep);
      assert [p[0]] + p[1..] == p;
    }
  }

  /** Splitting at the first separator: what comes before it is the first piece. */
  lemma {:induction false} SplitAfter(p: string, q: string, sep: char)
    requires sep !in p
    ensures Split(p + [sep] + q, sep) == [p] + Split(q, sep)
    decreases |p|
  {
    if |p| == 0 {
      assert p + [sep] + q == [sep] + q;
      assert ([sep] + q)[1..] == q;
    } else {
      var s := p + [sep] + q;
      assert s[1..] == p[1..] + [sep] + q;
      SplitAfter(p[1..], q, sep);
      assert [p[0]] + p[1..] == p;
    }
  }

  /** Splitting pieces joined with a separator none of them holds gives the pieces back. */
  lemma {:induction false} SplitJoined(pieces: seq<string>, sep: char)
    requires |pieces| >= 1
    requires forall k :: 0 <= k < |pieces| ==> sep !in pieces[k]
    ensures Split(Join(pieces, [sep]), sep) == pieces
    decreases |pieces|
  {
    if |pieces| == 1 {
      SplitFree(pieces[0], sep);
    } else {
      var rest := pieces[1..];
      JoinCons(pieces[0], rest, [sep]);
      assert [pieces[0]] + rest == pieces;
      SplitJoined(rest, sep);
      assert pieces[0] + [sep] + Join(rest, [sep]) == Join(pieces, [sep]);
      SplitAfter(pieces[0], Join(rest, [sep]), sep);
    }
  }

  lemma {:induction false} SplitOnFree(p: string, sep: string)
    requires |sep| > 0 && sep[0] !in p
    ensures SplitOn(p, sep) == [p]
    decreases |p|
  {
    if |p| > 0 {
      SplitOnFree(p[1..], sep);
      assert [p[0]] + p[1..] == p;
    }
  }

  lemma {:induction false} SplitOnPrefix(p: string, t: string, sep: string)
    requires |sep| > 0 && sep[0] !in p
    ensures SplitOn(p + t, sep) == [p + SplitOn(t, sep)[0]] + SplitOn(t, sep)[1..]
    decreases |p|
  {
    if |p| == 0 {
      assert p + t == t;
      assert p + SplitOn(t, sep)[0] == SplitOn(t, sep)[0];
      assert [SplitOn(t, sep)[0]] + SplitOn(t, sep)[1..] == SplitOn(t, sep);
    } else {
      var s := p + t;
      assert s[0] == p[0];
      assert s[1..] == p[1..] + t;
      SplitOnPrefix(p[1..], t, sep);
      assert [p[0]] + (p[1..] + SplitOn(t, sep)[0]) == p + SplitOn(t, sep)[0];
    }
  }

  /**
   * Splitting a join gives back the pieces, when no piece holds the first
   * character of the separator.
   */
  lemma {:induction false} SplitOnJoin(pieces: seq<string>, sep: string)
    requires |sep| > 0 && |pieces| >= 1
    requires forall k :: 0 <= k < |pieces| ==> sep[0] !in pieces[k]
    ensures SplitOn(Join(pieces, sep), sep) == pieces
    decreases |pieces|
  {
    if |pieces| == 1 {
      SplitOnFree(pieces[0], sep);
    } else {
      var rest := pieces[1..];
      assert pieces == [pieces[0]] + rest;
      JoinCons(pieces[0], rest, sep);
      SplitOnJoin(rest, sep);
      var tail := sep + Join(rest, sep);
      assert StartsWith(tail, sep);
      assert tail[|sep|..] == Join(rest, sep);
      assert SplitOn(tail, sep) == [""] + rest;
      assert pieces[0] + sep + Join(rest, sep) == pieces[0] + tail;
      SplitOnPrefix(pieces[0], tail, sep);
      assert pieces[0] + "" == pieces[0];
    }
  }

  /** Leading white space does not change what `parseInt` reads. */
  lemma ParseIntSkipsSpace(c: char, s: string)
    requires IsSpace(c)
    ensures ParseInt([c] + s) == ParseInt(s)
  {
    assert ([c] + s)[1..] == s;
  }

  /** The characters `trim` and `parseInt` skip: WhiteSpace and LineTerminator of ECMAScript. */
  predicate IsSpace(c: char) {
    var n := c as int;
    n == 0x09 || n == 0x0A || n == 0x0B || n == 0x0C || n == 0x0D || n == 0x20 || n == 0xA0 ||
    n == 0x1680 || (0x2000 <= n <= 0x200A) || n == 0x2028 || n == 0x2029 || n == 0x202F ||
    n == 0x205F || n == 0x3000 || n == 0xFEFF
  }

  function TrimStart(s: string): (r: string)
    ensures |r| <= |s| && r == s[|s| - |r|..]
    ensures |r| > 0 ==> !IsSpace(r[0])
    ensures forall k :: 0 <= k < |s| - |r| ==> IsSpace(s[k])
  {
    if |s| > 0 && IsSpace(s[0]) then TrimStart(s[1..]) else s
  }

  function TrimEnd(s: string): (r: string)
    ensures |r| <= |s| && r == s[..|r|]
    ensures |r| > 0 ==> !IsSpace(r[|r| - 1])
    ensures forall k :: |r| <= k < |s| ==> IsSpace(s[k])
  {
    if |s| > 0 && IsSpace(s[|s| - 1]) then TrimEnd(s[..|s| - 1]) else s
  }

  /** `s.trim()`. */
  function Trim(s: string): string {
    TrimEnd(TrimStart(s))
  }

  /** The value of c as a digit in the given radix, if it is one. */
  function DigitValue(c: char, radix: nat): (r: Option<nat>)
    ensures r.Some? ==> r.value < radix
  {
    var d :=
      if '0' <= c <= '9' then c as int - '0' as int
      else if 'a' <= c <= 'z' then c as int - 'a' as int + 10
      else if 'A' <= c <= 'Z' then c as int - 'A' as int + 10
      else 36;
    if d < radix then Some(d) else None
  }

  /** The longest prefix of s made of radix digits. */
  function DigitPrefix(s: string, radix: nat): (r: string)
    ensures StartsWith(s, r)
    ensures forall k :: 0 <= k < |r| ==> DigitValue(r[k], radix).Some?
    ensures |r| < |s| ==> DigitValue(s[|r|], radix).None?
  {
    if |s| > 0 && DigitValue(s[0], radix).Some? then [s[0]] + DigitPrefix(s[1..], radix) else ""
  }

  lemma MulNat(a: nat, b: nat)
    ensures a * b >= 0
  {
  }

  /** The number a string of radix digits denotes, most significant digit first. */
  function DigitsValue(ds: string, radix: nat): nat
    requires forall k :: 0 <= k < |ds| ==> DigitValue(ds[k], radix).Some?
  {
    if |ds| == 0 then 0
    else
      var front := ds[..|ds| - 1];
      assert forall k :: 0 <= k < |front| ==> front[k] == ds[k];
      var high := DigitsValue(front, radix);
      MulNat(high, radix);
      high * radix + DigitValue(ds[|ds| - 1], radix).value
  }

  /**
   * `parseInt(s)` with no radix: skip leading white space, read an optional
   * sign, take radix 16 after a `0x`/`0X` prefix and 10 otherwise, and read
   * the longest run of digits; no digits at all gives NaN, here None.
   */
  function ParseInt(s: string): Option<int>
  {
    ParseSigned(TrimStart(s))
  }

  function ParseSigned(t: string): Option<int>
  {
    if |t| > 0 && t[0] == '-' then
      match ParseUnsigned(t[1..])
      case None => None
      case Some(m) => Some(-m)
    else if |t| > 0 && t[0] == '+' then ParseUnsigned(t[1..])
    else ParseUnsigned(t)
  }

  function ParseUnsigned(u: string): Option<int>
  {
    var hex := |u| >= 2 && u[0] == '0' && (u[1] == 'x' || u[1] == 'X');
    var radix := if hex then 16 else 10;
    var ds := DigitPrefix(if hex then u[2..] else u, radix);
    if |ds| == 0 then None else Some(DigitsValue(ds, radix))
  }

  predicate IsDecimal(s: string) {
    forall k :: 0 <= k < |s| ==> '0' <= s[k] <= '9'
  }

  /** A non-empty run of decimal digits parses to the number it denotes. */
  lemma ParseIntDecimal(s: string)
    requires |s| > 0 && IsDecimal(s)
    ensures forall k :: 0 <= k < |s| ==> DigitValue(s[k], 10).Some?
    ensures ParseInt(s) == Some(DigitsValue(s, 10))
  {
    assert !IsSpace(s[0]);
    assert TrimStart(s) == s;
    assert ParseSigned(s) == ParseUnsigned(s);
    DigitPrefixAll(s, 10);
  }

  /** The decimal numeral of n, as `String(n)` writes it. */
  function NatToString(n: nat): (r: string)
    ensures |r| > 0
    ensures forall k :: 0 <= k < |r| ==> '0' <= r[k] <= '9'
  {
    if n < 10 then [('0' as int + n) as char]
    else NatToString(n / 10) + [('0' as int + n % 10) as char]
  }

  lemma {:induction false} NatToStringValue(n: nat)
    ensures forall k :: 0 <= k < |NatToString(n)| ==> DigitValue(NatToString(n)[k], 10).Some?
    ensures DigitsValue(NatToString(n), 10) == n
  {
    var r := NatToString(n);
    if n >= 10 {
      NatToStringValue(n / 10);
      assert r[..|r| - 1] == NatToString(n / 10);
    }
  }

  /** `parseInt` reads back what `String` writes for a natural number. */
  lemma ParseIntNatToString(n: nat)
    ensures ParseInt(NatToString(n)) == Some(n)
  {
    NatToStringValue(n);
    ParseIntDecimal(NatToString(n));
  }

  lemma {:induction false} DigitPrefixAll(s: string, radix: nat)
    requires forall k :: 0 <= k < |s| ==> DigitValue(s[k], radix).Some?
    ensures DigitPrefix(s, radix) == s
  {
    if |s| > 0 {
      DigitPrefixAll(s[1..], radix);
    }
  }
}
