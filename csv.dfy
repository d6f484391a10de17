/**
 * The CSV reader of the seeding script: the text is split into lines on
 * '\n', and each line is scanned once, a '"' toggling quote mode and a ','
 * ending the current field only outside quote mode.
 */
module Csv {
  import opened Text

  /** The scanner's variables: the finished fields, the field being read, quote mode. */
  datatype ScanState = ScanState(fields: seq<string>, current: string, inQuotes: bool)

  const Start := ScanState([], "", false)

  /** One iteration of the scanning loop. */
  function Step(st: ScanState, c: char): ScanState {
    if c == '"' then st.(inQuotes := !st.inQuotes)
    else if c == ',' && !st.inQuotes then ScanState(st.fields + [st.current], "", st.inQuotes)
    else st.(current := st.current + [c])
  }

  /** The state after scanning the characters of s from st. */
  function Scan(st: ScanState, s: string): ScanState {
    if |s| == 0 then st else Step(Scan(st, s[..|s| - 1]), s[|s| - 1])
  }

  /** The fields of one line: the finished ones and the last one. */
  function LineFields(line: string): (r: seq<string>)
    ensures |r| >= 1
  {
    var st := Scan(Start, line);
    st.fields + [st.current]
  }

  /** `parseCSV`: every line of the text, split into fields. */
  function ParseCsv(text: string): (rows: seq<seq<string>>)
    ensures |rows| == |Split(text, '\n')|
    ensures forall i :: 0 <= i < |rows| ==> rows[i] == LineFields(Split(text, '\n')[i])
  {
    var lines := Split(text, '\n');
    seq(|lines|, i requires 0 <= i < |lines| => LineFields(lines[i]))
  }

  /** The per-line loop of `parseCSV`. */
  method ParseLine(line: string) returns (result: seq<string>)
    ensures result == LineFields(line)
  {
    result := [];
    var inQuotes := false;
    var currentField := "";
    for i := 0 to |line|
      invariant ScanState(result, currentField, inQuotes) == Scan(Start, line[..i])
    {
      assert line[..i + 1][..i] == line[..i];
      var c := line[i];
      if c == '"' {
        inQuotes := !inQuotes;
      } else if c == ',' && !inQuotes {
        result := result + [currentField];
        currentField := "";
      } else {
        currentField := currentField + [c];
      }
    }
    assert line[..|line|] == line;
    result := result + [currentField];
  }

  // ---------------------------------------------------------------------------
  // Reference definitions in terms of quote counts

  /** The number of '"' in s. */
  function Quotes(s: string): nat {
    if |s| == 0 then 0 else Quotes(s[..|s| - 1]) + (if s[|s| - 1] == '"' then 1 else 0)
  }

  /** Position i of s is a separator: a ',' after an even number of quotes. */
  predicate SeparatorAt(s: string, i: nat)
    requires i < |s|
  {
    s[i] == ',' && Quotes(s[..i]) % 2 == 0
  }

  /** The number of separators in s. */
  function Separators(s: string): nat {
    if |s| == 0 then 0 else Separators(s[..|s| - 1]) + (if SeparatorAt(s, |s| - 1) then 1 else 0)
  }

  /** s without its quotes and its separators. */
  function Kept(s: string): string {
    if |s| == 0 then ""
    else
      var n := |s| - 1;
      Kept(s[..n]) + (if s[n] == '"' || SeparatorAt(s, n) then "" else [s[n]])
  }

  function Concat(fs: seq<string>): string {
    if |fs| == 0 then "" else Concat(fs[..|fs| - 1]) + fs[|fs| - 1]
  }

  // ---------------------------------------------------------------------------
  // Properties

  /** There is one row per '\n' plus one; the empty text is one row with one empty field. */
  lemma RowCount(text: string)
    ensures |ParseCsv(text)| == Count(text, '\n') + 1
    ensures ParseCsv("") == [[""]]
  {
    SplitCount(text, '\n');
    assert Split("", '\n') == [""];
    assert Scan(Start, "") == Start;
    var rows := ParseCsv("");
    assert rows[0] == LineFields("") == [""];
  }

  /** Lines without '\n' joined by '\n' read back line by line. */
  lemma ParseJoinedLines(lines: seq<string>)
    requires |lines| >= 1
    requires forall k :: 0 <= k < |lines| ==> '\n' !in lines[k]
    ensures |ParseCsv(Join(lines, "\n"))| == |lines|
    ensures forall i :: 0 <= i < |lines| ==> ParseCsv(Join(lines, "\n"))[i] == LineFields(lines[i])
  {
    assert "\n" == ['\n'];
    SplitJoined(lines, '\n');
  }

  /** Quote mode is on exactly after an odd number of quotes. */
  lemma {:induction false} ScanQuoteMode(s: string)
    ensures Scan(Start, s).inQuotes <==> Quotes(s) % 2 == 1
  {
    if |s| > 0 {
      ScanQuoteMode(s[..|s| - 1]);
    }
  }

  /** A field is finished at every separator and only there. */
  lemma {:induction false} ScanFieldCount(s: string)
    ensures |Scan(Start, s).fields| == Separators(s)
  {
    if |s| > 0 {
      var n := |s| - 1;
      ScanFieldCount(s[..n]);
      ScanQuoteMode(s[..n]);
      assert s[..n][..n] == s[..n];
    }
  }

  /** A line has one field more than it has commas outside quote mode. */
  lemma FieldCount(line: string)
    ensures |LineFields(line)| == Separators(line) + 1
  {
    ScanFieldCount(line);
  }

  /** Quotes are never stored: no field holds a '"'. */
  lemma {:induction false} ScanNoQuote(s: string)
    ensures forall k :: 0 <= k < |Scan(Start, s).fields| ==> '"' !in Scan(Start, s).fields[k]
    ensures '"' !in Scan(Start, s).current
  {
    if |s| > 0 {
      ScanNoQuote(s[..|s| - 1]);
    }
  }

  lemma NoQuoteInFields(line: string)
    ensures forall k :: 0 <= k < |LineFields(line)| ==> '"' !in LineFields(line)[k]
  {
    ScanNoQuote(line);
  }

  lemma ConcatAppendLast(fs: seq<string>, x: string)
    requires |fs| >= 1
    ensures Concat(fs[..|fs| - 1] + [fs[|fs| - 1] + x]) == Concat(fs) + x
  {
    var g := fs[..|fs| - 1] + [fs[|fs| - 1] + x];
    assert g[..|g| - 1] == fs[..|fs| - 1];
  }

  /** The finished fields and the current one hold exactly the kept characters, in order. */
  lemma {:induction false} ScanKept(s: string)
    ensures Concat(Scan(Start, s).fields + [Scan(Start, s).current]) == Kept(s)
  {
    if |s| > 0 {
      var n := |s| - 1;
      var before := Scan(Start, s[..n]);
      ScanKept(s[..n]);
      ScanQuoteMode(s[..n]);
      assert s[..n][..n] == s[..n];
      var all := before.fields + [before.current];
      var c := s[n];
      if c == '"' {
      } else if c == ',' && !before.inQuotes {
        var after := before.fields + [before.current] + [""];
        assert after[..|after| - 1] == all;
      } else {
        assert all[..|all| - 1] == before.fields;
        ConcatAppendLast(all, [c]);
      }
    }
  }

  /**
   * Concatenating a line's fields gives the line without its quotes and
   * without the commas that separate fields; so commas inside quote mode
   * stay in their field and no other character is dropped or moved.
   */
  lemma FieldsConcat(line: string)
    ensures Concat(LineFields(line)) == Kept(line)
  {
    ScanKept(line);
  }

  lemma JoinAppendLast(ps: seq<string>, x: string, sep: string)
    requires |ps| >= 1
    ensures Join(ps[..|ps| - 1] + [ps[|ps| - 1] + x], sep) == Join(ps, sep) + x
  {
    var g := ps[..|ps| - 1] + [ps[|ps| - 1] + x];
    assert g[..|g| - 1] == ps[..|ps| - 1];
  }

  lemma {:induction false} ScanWithoutQuotes(s: string)
    requires '"' !in s
    ensures !Scan(Start, s).inQuotes
    ensures Join(Scan(Start, s).fields + [Scan(Start, s).current], ",") == s
  {
    if |s| > 0 {
      var n := |s| - 1;
      assert '"' !in s[..n];
      var before := Scan(Start, s[..n]);
      ScanWithoutQuotes(s[..n]);
      var all := before.fields + [before.current];
      var c := s[n];
      if c == ',' {
        var after := before.fields + [before.current] + [""];
        assert after[..|after| - 1] == all;
      } else {
        assert all[..|all| - 1] == before.fields;
        JoinAppendLast(all, [c], ",");
      }
      assert s[..n] + [c] == s;
    }
  }

  /** Without quotes, joining a line's fields with ',' gives the line back. */
  lemma JoinFieldsWithoutQuotes(line: string)
    requires '"' !in line
    ensures Join(LineFields(line), ",") == line
  {
    ScanWithoutQuotes(line);
  }

  /** Scanning in two parts is scanning the whole. */
  lemma {:induction false} ScanAppend(st: ScanState, a: string, b: string)
    ensures Scan(st, a + b) == Scan(Scan(st, a), b)
  {
    if |b| == 0 {
      assert a + b == a;
    } else {
      var ab := a + b;
      assert ab[..|ab| - 1] == a + b[..|b| - 1];
      ScanAppend(st, a, b[..|b| - 1]);
    }
  }

  /** In quote mode every character except '"' goes into the current field. */
  lemma {:induction false} ScanQuoted(st: ScanState, f: string)
    requires st.inQuotes && '"' !in f
    ensures Scan(st, f) == st.(current := st.current + f)
  {
    if |f| > 0 {
      assert '"' !in f[..|f| - 1];
      ScanQuoted(st, f[..|f| - 1]);
      assert st.current + f[..|f| - 1] + [f[|f| - 1]] == st.current + f;
    }
  }

  /** A field wrapped in quotes, as a writer of this format would write it. */
  function Quote(f: string): string {
    "\"" + f + "\""
  }

  lemma ScanQuotedField(st: ScanState, f: string)
    requires !st.inQuotes && st.current == "" && '"' !in f
    ensures Scan(st, Quote(f)) == ScanState(st.fields, f, false)
  {
    var q: string := "\"";
    assert q[..0] == "" && |q| == 1 && q[0] == '"';
    assert Scan(st, q[..0]) == st;
    var open := Scan(st, q);
    assert open == st.(inQuotes := true);
    ScanAppend(st, "\"", f);
    ScanQuoted(open, f);
    ScanAppend(st, "\"" + f, "\"");
    assert Quote(f) == "\"" + f + "\"";
  }

  /** The line that writing the fields quoted and comma-separated gives. */
  function QuotedLine(fs: seq<string>): string {
    Join(seq(|fs| , i requires 0 <= i < |fs| => Quote(fs[i])), ",")
  }

  lemma {:induction false} ScanQuotedLine(fs: seq<string>)
    requires |fs| >= 1
    requires forall k :: 0 <= k < |fs| ==> '"' !in fs[k]
    ensures Scan(Start, QuotedLine(fs)) == ScanState(fs[..|fs| - 1], fs[|fs| - 1], false)
  {
    var n := |fs| - 1;
    var quoted := seq(|fs| , i requires 0 <= i < |fs| => Quote(fs[i]));
    if n == 0 {
      ScanQuotedField(Start, fs[0]);
    } else {
      var front := fs[..n];
      var quotedFront := seq(|front| , i requires 0 <= i < |front| => Quote(front[i]));
      assert quoted[..n] == quotedFront;
      ScanQuotedLine(front);
      var mid := Scan(Start, QuotedLine(front));
      assert QuotedLine(fs) == QuotedLine(front) + "," + Quote(fs[n]);
      ScanAppend(Start, QuotedLine(front), ",");
      var afterComma := Scan(mid, ",");
      assert afterComma == ScanState(front, "", false);
      ScanAppend(Start, QuotedLine(front) + ",", Quote(fs[n]));
      ScanQuotedField(afterComma, fs[n]);
      assert front + [fs[n]] == fs;
    }
  }

  /**
   * Fields written in quotes and separated by commas read back as the same
   * fields, commas inside them included, as long as none holds a '"'.
   */
  lemma QuotedRoundTrip(fs: seq<string>)
    requires |fs| >= 1
    requires forall k :: 0 <= k < |fs| ==> '"' !in fs[k]
    ensures LineFields(QuotedLine(fs)) == fs
  {
    ScanQuotedLine(fs);
    assert fs[..|fs| - 1] + [fs[|fs| - 1]] == fs;
  }
}
