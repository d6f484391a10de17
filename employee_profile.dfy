/**
 * The derivations of the employee profile view: the parsed personality
 * traits, the skills grouped by category, the five team fits in ranked
 * order, the top-N slices and the trait descriptions.
 */
module EmployeeProfile {
  import opened Wrappers
  import opened Text
  import opened Records
  import opened Sequences
  import opened Sorting
  import JsObject
  import TeamCriteria

  // ---------------------------------------------------------------------------
  // Personality traits

  /** One bar of the trait chart. */
  datatype ParsedTrait = ParsedTrait(name: string, value: int)

  function TraitValue(t: ParsedTrait): int {
    t.value
  }

  /**
   * One piece of `sorted_traits`: the name is the text before the first ':',
   * the value is `parseInt` of the text between the first and second ':', or
   * 0 when that text is missing, not a number or zero.
   */
  function ParseTraitPiece(piece: string): (t: ParsedTrait)
    ensures ':' !in t.name && StartsWith(piece, t.name)
    ensures |t.name| == |piece| || piece[|t.name|] == ':'
    ensures ':' !in piece ==> t == ParsedTrait(piece, 0)
  {
    var parts := Split(piece, ':');
    SplitFirst(piece, ':');
    ParsedTrait(parts[0], if |parts| > 1 then OrDefault(ParseInt(parts[1]), 0) else 0)
  }

  /**
   * `sorted_traits.split(", ").map(...)`: one trait per piece, named by the
   * piece's text up to its first ':', with value 0 when the piece has no ':'.
   */
  function ParseSortedTraits(sorted: string): (r: seq<ParsedTrait>)
    ensures |r| == |SplitOn(sorted, ", ")|
    ensures forall i :: 0 <= i < |r| ==> var piece := SplitOn(sorted, ", ")[i];
      && ':' !in r[i].name && StartsWith(piece, r[i].name)
      && (|r[i].name| == |piece| || piece[|r[i].name|] == ':')
      && (':' !in piece ==> r[i] == ParsedTrait(piece, 0))
  {
    var pieces := SplitOn(sorted, ", ");
    seq(|pieces|, i requires 0 <= i < |pieces| => ParseTraitPiece(pieces[i]))
  }

  /**
   * A `sorted_traits` string in the shape the parser expects, "Name: value"
   * pieces joined by ", "; used only to state the round trip.
   */
  function FormatTraits(ts: seq<ParsedTrait>): string
    requires forall i :: 0 <= i < |ts| ==> ts[i].value >= 0
  {
    Join(seq(|ts|, i requires 0 <= i < |ts| => ts[i].name + ": " + NatToString(ts[i].value)), ", ")
  }

  lemma PieceRoundTrip(name: string, v: nat)
    requires ':' !in name
    ensures ParseTraitPiece(name + ": " + NatToString(v)) == ParsedTrait(name, v)
  {
    var digits := NatToString(v);
    assert ':' !in " " + digits;
    assert name + ": " + digits == name + [':'] + (" " + digits);
    SplitAfter(name, " " + digits, ':');
    SplitFree(" " + digits, ':');
    ParseIntSkipsSpace(' ', digits);
    ParseIntNatToString(v);
  }

  /**
   * Parsing gives back every trait of a formatted list when the names hold
   * neither ':' nor ',' and the values are not negative.
   */
  lemma ParseFormatRoundTrip(ts: seq<ParsedTrait>)
    requires |ts| >= 1
    requires forall i :: 0 <= i < |ts| ==> ts[i].value >= 0 && ':' !in ts[i].name && ',' !in ts[i].name
    ensures ParseSortedTraits(FormatTraits(ts)) == ts
  {
    var pieces := seq(|ts|, i requires 0 <= i < |ts| => ts[i].name + ": " + NatToString(ts[i].value));
    forall k | 0 <= k < |pieces| ensures ", "[0] !in pieces[k] {
      assert pieces[k] == ts[k].name + ": " + NatToString(ts[k].value);
    }
    SplitOnJoin(pieces, ", ");
    forall i | 0 <= i < |ts| ensures ParseTraitPiece(pieces[i]) == ts[i] {
      PieceRoundTrip(ts[i].name, ts[i].value);
    }
  }

  /** The display names of the fifteen trait columns, in column order. */
  const DisplayNames: seq<string> := [
    "Ambition", "Assertiveness", "Awareness", "Composure", "Cooperativeness",
    "Liveliness", "Humility", "Drive", "Conceptual", "Mastery",
    "Structure", "Flexibility", "Positivity", "Power", "Sensitivity"
  ]

  /** `traitsData?.<column> || 0`. */
  function ColumnValue(t: Option<Traits>, i: nat): int
    requires i < |TraitColumns|
  {
    if t.Some? && TraitColumns[i] in t.value.scores then t.value.scores[TraitColumns[i]] else 0
  }

  /** All fifteen traits with their column values, before filtering. */
  function AllColumns(t: Option<Traits>): (r: seq<ParsedTrait>)
    ensures |r| == 15
  {
    seq(15, i requires 0 <= i < 15 => ParsedTrait(DisplayNames[i], ColumnValue(t, i)))
  }

  function Positive(ts: seq<ParsedTrait>): seq<ParsedTrait> {
    if |ts| == 0 then []
    else Positive(ts[..|ts| - 1]) + (if ts[|ts| - 1].value > 0 then [ts[|ts| - 1]] else [])
  }

  ghost function NotPositive(ts: seq<ParsedTrait>): seq<ParsedTrait> {
    if |ts| == 0 then []
    else NotPositive(ts[..|ts| - 1]) + (if ts[|ts| - 1].value > 0 then [] else [ts[|ts| - 1]])
  }

  /** Keeping the positive traits keeps them in order and drops only the others. */
  lemma {:induction false} PositiveSplit(ts: seq<ParsedTrait>)
    ensures Interleaving(ts, Positive(ts), NotPositive(ts))
    ensures forall i :: 0 <= i < |Positive(ts)| ==> Positive(ts)[i].value > 0
    ensures forall i :: 0 <= i < |NotPositive(ts)| ==> NotPositive(ts)[i].value <= 0
  {
    if |ts| > 0 {
      var front := ts[..|ts| - 1];
      PositiveSplit(front);
      var kept := Positive(ts);
      var dropped := NotPositive(ts);
      if ts[|ts| - 1].value > 0 {
        assert kept[..|kept| - 1] == Positive(front);
        assert dropped == NotPositive(front);
      } else {
        assert dropped[..|dropped| - 1] == NotPositive(front);
        assert kept == Positive(front);
      }
    }
  }

  /** The fallback list when there is no `sorted_traits`: the positive columns in column order. */
  function ManualTraits(t: Option<Traits>): seq<ParsedTrait> {
    Positive(AllColumns(t))
  }

  /**
   * The fallback list is the fifteen columns in their fixed order, keeping
   * exactly those whose value is above 0; a missing record or column counts 0.
   */
  lemma ManualTraitsFacts(t: Option<Traits>)
    ensures Interleaving(AllColumns(t), ManualTraits(t), NotPositive(AllColumns(t)))
    ensures forall i :: 0 <= i < |ManualTraits(t)| ==> ManualTraits(t)[i].value > 0
    ensures forall i :: 0 <= i < |NotPositive(AllColumns(t))| ==> NotPositive(AllColumns(t))[i].value <= 0
    ensures t.None? ==> ManualTraits(t) == []
  {
    PositiveSplit(AllColumns(t));
    if t.None? {
      NoneAllZero(AllColumns(t));
    }
  }

  lemma {:induction false} NoneAllZero(ts: seq<ParsedTrait>)
    requires forall i :: 0 <= i < |ts| ==> ts[i].value == 0
    ensures Positive(ts) == []
  {
    if |ts| > 0 {
      NoneAllZero(ts[..|ts| - 1]);
    }
  }

  /** The traits of a record: parsed from `sorted_traits` when it is set, else the fallback list. */
  function RecordTraits(t: Option<Traits>): seq<ParsedTrait> {
    if t.Some? && Filled(t.value.sortedTraits) then ParseSortedTraits(t.value.sortedTraits.value)
    else ManualTraits(t)
  }

  /**
   * The chart's traits: none without a personality record; otherwise those of
   * the record, a list of records being replaced by its first element.
   */
  function ProfileTraits(p: PersonalityField): seq<ParsedTrait> {
    if p.NoRecord? then [] else RecordTraits(Canonical(p))
  }

  /** A list of records is read through its first element; an empty list yields no traits. */
  lemma WrappedUsesFirst(list: seq<Traits>)
    ensures |list| > 0 ==> ProfileTraits(Wrapped(list)) == ProfileTraits(Single(list[0]))
    ensures |list| == 0 ==> ProfileTraits(Wrapped(list)) == []
  {
    if |list| == 0 {
      ManualTraitsFacts(None);
    }
  }

  // ---------------------------------------------------------------------------
  // Skills by category

  /** One slice of the skills chart: a category, its count and its skill names. */
  datatype SkillGroup = SkillGroup(name: string, value: int, skills: seq<string>)

  function GroupValue(g: SkillGroup): int {
    g.value
  }

  /** `item.skills?.main_category` when it is truthy. */
  function CategoryOf(row: EmployeeSkill): Option<string> {
    if row.skill.Some? && Filled(row.skill.value.mainCategory) then row.skill.value.mainCategory else None
  }

  /** One step of the grouping loop: count the row's skill under its category, if it has one. */
  function AddToGroup(d: JsObject.Dict<SkillGroup>, row: EmployeeSkill): (r: JsObject.Dict<SkillGroup>)
    requires JsObject.Valid(d)
    ensures JsObject.Valid(r)
  {
    match CategoryOf(row)
    case None => d
    case Some(category) =>
      var g := JsObject.GetOr(d, category, SkillGroup(category, 0, []));
      JsObject.Put(d, category, SkillGroup(g.name, g.value + 1, g.skills + [row.skill.value.name]))
  }

  /** The dictionary the grouping loop has built after the given rows. */
  function GroupFold(rows: seq<EmployeeSkill>): (d: JsObject.Dict<SkillGroup>)
    ensures JsObject.Valid(d)
  {
    if |rows| == 0 then JsObject.Empty() else AddToGroup(GroupFold(rows[..|rows| - 1]), rows[|rows| - 1])
  }

  /** `Object.values` of a dictionary. */
  function Values<V>(d: JsObject.Dict<V>): (r: seq<V>)
    requires JsObject.Valid(d)
    ensures |r| == |d.keys|
    ensures forall i :: 0 <= i < |r| ==> r[i] == d.values[d.keys[i]]
  {
    seq(|d.keys|, i requires 0 <= i < |d.keys| => d.values[d.keys[i]])
  }

  /** The skills chart data; it stays empty when there are no rows. */
  function SkillGroups(rows: seq<EmployeeSkill>): seq<SkillGroup> {
    if |rows| == 0 then [] else Values(GroupFold(rows))
  }

  /** The loop body: create the category's group if it is new, then count the skill in it. */
  method CountRow(d: JsObject.Dict<SkillGroup>, row: EmployeeSkill) returns (r: JsObject.Dict<SkillGroup>)
    requires JsObject.Valid(d)
    ensures r == AddToGroup(d, row)
  {
    r := d;
    var category := CategoryOf(row);
    if category.Some? {
      var c := category.value;
      if c !in r.values {
        r := JsObject.Put(r, c, SkillGroup(c, 0, []));
      }
      var g := r.values[c];
      r := JsObject.Put(r, c, SkillGroup(g.name, g.value + 1, g.skills + [row.skill.value.name]));
    }
  }

  /** The grouping loop over the employee's skill rows. */
  method GroupSkillsByCategory(rows: seq<EmployeeSkill>) returns (groups: seq<SkillGroup>)
    ensures groups == SkillGroups(rows)
  {
    if |rows| == 0 {
      return [];
    }
    var byCategory: JsObject.Dict<SkillGroup> := JsObject.Empty();
    var i := 0;
    while i < |rows|
      invariant 0 <= i <= |rows|
      invariant byCategory == GroupFold(rows[..i])
    {
      assert rows[..i + 1][..i] == rows[..i];
      byCategory := CountRow(byCategory, rows[i]);
      i := i + 1;
    }
    assert rows[..i] == rows;
    groups := Values(byCategory);
  }

  /** The categories of the rows that have one, in row order. */
  function Categories(rows: seq<EmployeeSkill>): seq<string> {
    if |rows| == 0 then []
    else
      var c := CategoryOf(rows[|rows| - 1]);
      Categories(rows[..|rows| - 1]) + (if c.Some? then [c.value] else [])
  }

  /** The grouping holds a group exactly for the categories met. */
  lemma {:induction false} GroupFoldHas(rows: seq<EmployeeSkill>, k: string)
    ensures k in GroupFold(rows).values <==> k in Categories(rows)
  {
    if |rows| > 0 {
      GroupFoldHas(rows[..|rows| - 1], k);
    }
  }

  // ---------------------------------------------------------------------------
  // The grouping loop as written

  /** What the profile's grouping as written yields: the groups, or a TypeError. */
  datatype GroupingOutcome = Grouped(groups: seq<SkillGroup>) | GroupingTypeError

  /**
   * One step of the grouping loop as written: `!skillsByCategory[category]`
   * also reads the members of `Object.prototype`, which are truthy, so for a
   * category named like one of them no group is created and
   * `skillsByCategory[category].skills.push` throws on the inherited member.
   */
  function AddToGroupAsWritten(d: JsObject.Dict<SkillGroup>, row: EmployeeSkill): (r: Option<JsObject.Dict<SkillGroup>>)
    requires JsObject.Valid(d)
    ensures r.None? <==>
      CategoryOf(row).Some? && CategoryOf(row).value !in d.values && CategoryOf(row).value in JsObject.PrototypeMembers
    ensures r.Some? ==> r.value == AddToGroup(d, row) && JsObject.Valid(r.value)
  {
    match CategoryOf(row)
    case None => Some(d)
    case Some(category) =>
      match JsObject.Read(d.values, category)
      case Inherited(_) => None
      case _ => Some(AddToGroup(d, row))
  }

  /** The grouping loop as written: None once a step has thrown. */
  function GroupFoldAsWritten(rows: seq<EmployeeSkill>): (r: Option<JsObject.Dict<SkillGroup>>)
    ensures r.Some? ==> JsObject.Valid(r.value)
  {
    if |rows| == 0 then Some(JsObject.Empty())
    else
      match GroupFoldAsWritten(rows[..|rows| - 1])
      case None => None
      case Some(d) => AddToGroupAsWritten(d, rows[|rows| - 1])
  }

  /** The skills chart data as written. */
  function SkillGroupsAsWritten(rows: seq<EmployeeSkill>): GroupingOutcome {
    if |rows| == 0 then Grouped([])
    else
      match GroupFoldAsWritten(rows)
      case None => GroupingTypeError
      case Some(d) => Grouped(Values(d))
  }

  /**
   * As written, the grouping throws exactly when some row's category is
   * named like a member of `Object.prototype`; otherwise it builds the
   * intended groups.
   */
  lemma {:induction false} GroupingAsWrittenFacts(rows: seq<EmployeeSkill>)
    ensures GroupFoldAsWritten(rows).None? <==> exists k :: k in Categories(rows) && k in JsObject.PrototypeMembers
    ensures GroupFoldAsWritten(rows).Some? ==> GroupFoldAsWritten(rows).value == GroupFold(rows)
  {
    if |rows| > 0 {
      var front := rows[..|rows| - 1];
      var row := rows[|rows| - 1];
      GroupingAsWrittenFacts(front);
      assert Categories(rows) == Categories(front) + (if CategoryOf(row).Some? then [CategoryOf(row).value] else []);
      if GroupFoldAsWritten(front).Some? {
        var d := GroupFold(front);
        if CategoryOf(row).Some? {
          GroupFoldHas(front, CategoryOf(row).value);
        }
        if GroupFoldAsWritten(rows).None? {
          assert CategoryOf(row).value in Categories(rows);
        }
      } else {
        var k :| k in Categories(front) && k in JsObject.PrototypeMembers;
        assert k in Categories(rows);
      }
    }
  }

  /** The chart data as written: a TypeError exactly for an inherited-member category, else the groups. */
  lemma SkillGroupsAsWrittenFacts(rows: seq<EmployeeSkill>)
    ensures SkillGroupsAsWritten(rows).GroupingTypeError? <==>
      exists k :: k in Categories(rows) && k in JsObject.PrototypeMembers
    ensures SkillGroupsAsWritten(rows).Grouped? ==> SkillGroupsAsWritten(rows).groups == SkillGroups(rows)
  {
    GroupingAsWrittenFacts(rows);
  }

  /** A single row with a category makes one group of that category holding its skill. */
  lemma OneRowGroups(row: EmployeeSkill)
    requires CategoryOf(row).Some?
    ensures SkillGroups([row]) == [SkillGroup(CategoryOf(row).value, 1, [row.skill.value.name])]
  {
    var rows := [row];
    var empty: JsObject.Dict<SkillGroup> := JsObject.Empty();
    assert rows[..0] == [];
    assert GroupFold(rows[..0]) == empty;
    var c := CategoryOf(row).value;
    assert JsObject.GetOr(empty, c, SkillGroup(c, 0, [])) == SkillGroup(c, 0, []);
    var d := GroupFold(rows);
    assert d == AddToGroup(empty, row);
    var g := SkillGroup(c, 0, []);
    assert CategoryOf(row) == Some(c);
    assert g.skills + [row.skill.value.name] == [row.skill.value.name];
    assert AddToGroup(empty, row) == JsObject.Put(empty, c, SkillGroup(g.name, g.value + 1, g.skills + [row.skill.value.name]));
    assert d == JsObject.Put(empty, c, SkillGroup(c, 1, [row.skill.value.name]));
    assert d.keys == [c];
    assert Values(d)[0] == d.values[c];
  }

  /**
   * A skill in category "constructor": intended is one group of that name
   * holding the skill; as written the grouping throws, and the profile
   * shows its load error instead.
   */
  lemma ConstructorCategory(name: string)
    ensures var rows := [EmployeeSkill(1, 1, Some(Skill(1, name, Some("constructor"))))];
      && SkillGroupsAsWritten(rows).GroupingTypeError?
      && SkillGroups(rows) == [SkillGroup("constructor", 1, [name])]
  {
    var row := EmployeeSkill(1, 1, Some(Skill(1, name, Some("constructor"))));
    assert CategoryOf(row) == Some("constructor");
    var rows := [row];
    assert rows[..0] == [];
    assert Categories(rows) == ["constructor"];
    assert "constructor" in JsObject.PrototypeMembers;
    SkillGroupsAsWrittenFacts(rows);
    OneRowGroups(row);
  }

  /** The names of the skills in category k, in row order. */
  function NamesIn(rows: seq<EmployeeSkill>, k: string): seq<string> {
    if |rows| == 0 then []
    else
      var row := rows[|rows| - 1];
      NamesIn(rows[..|rows| - 1], k) + (if CategoryOf(row) == Some(k) then [row.skill.value.name] else [])
  }

  /** The grouping dictionary lists its keys in the order that tallying the categories would. */
  lemma {:induction false} GroupKeys(rows: seq<EmployeeSkill>)
    ensures GroupFold(rows).keys == JsObject.Tally(Categories(rows)).keys
  {
    if |rows| > 0 {
      var front := rows[..|rows| - 1];
      GroupKeys(front);
      var d := GroupFold(front);
      var t := JsObject.Tally(Categories(front));
      var c := CategoryOf(rows[|rows| - 1]);
      var cats := Categories(rows);
      if c.Some? {
        assert cats == Categories(front) + [c.value];
        assert cats[..|cats| - 1] == Categories(front);
        assert c.value in d.values <==> c.value in t.values;
      } else {
        assert cats == Categories(front);
      }
    }
  }

  /** The group under k is named k and holds the names of k's skills, as many as its count. */
  lemma {:induction false} GroupAt(rows: seq<EmployeeSkill>, k: string)
    ensures k in GroupFold(rows).values ==>
      GroupFold(rows).values[k] == SkillGroup(k, |NamesIn(rows, k)|, NamesIn(rows, k))
    ensures k !in GroupFold(rows).values ==> NamesIn(rows, k) == []
  {
    if |rows| > 0 {
      var front := rows[..|rows| - 1];
      GroupAt(front, k);
    }
  }

  lemma {:induction false} OccurrencesAreNames(rows: seq<EmployeeSkill>, k: string)
    ensures JsObject.Occurrences(Categories(rows), k) == |NamesIn(rows, k)|
  {
    if |rows| > 0 {
      var front := rows[..|rows| - 1];
      OccurrencesAreNames(front, k);
      var c := CategoryOf(rows[|rows| - 1]);
      var cats := Categories(rows);
      if c.Some? {
        assert cats == Categories(front) + [c.value];
        assert cats[..|cats| - 1] == Categories(front);
        assert JsObject.Occurrences(cats, k)
          == JsObject.Occurrences(Categories(front), k) + (if c.value == k then 1 else 0);
      } else {
        assert cats == Categories(front);
      }
    }
  }

  function GroupTotal(gs: seq<SkillGroup>): int {
    if |gs| == 0 then 0 else GroupTotal(gs[..|gs| - 1]) + gs[|gs| - 1].value
  }

  lemma {:induction false} GroupTotalIsSum(keys: seq<string>, gs: seq<SkillGroup>, counts: map<string, int>)
    requires |gs| == |keys|
    requires forall k :: k in keys ==> k in counts
    requires forall i :: 0 <= i < |keys| ==> gs[i].value == counts[keys[i]]
    ensures GroupTotal(gs) == JsObject.SumOver(keys, counts)
  {
    if |keys| > 0 {
      GroupTotalIsSum(keys[..|keys| - 1], gs[..|gs| - 1], counts);
    }
  }

  /** Each group is named after a category and holds that category's skill names, as many as its count. */
  lemma GroupsContent(rows: seq<EmployeeSkill>)
    ensures var gs := SkillGroups(rows);
      forall i :: 0 <= i < |gs| ==>
        gs[i].value == |gs[i].skills| && gs[i].skills == NamesIn(rows, gs[i].name)
        && gs[i].name in Categories(rows)
  {
    if |rows| > 0 {
      var d := GroupFold(rows);
      GroupKeys(rows);
      forall i | 0 <= i < |d.keys|
        ensures d.values[d.keys[i]] == SkillGroup(d.keys[i], |NamesIn(rows, d.keys[i])|, NamesIn(rows, d.keys[i]))
        ensures d.keys[i] in Categories(rows)
      {
        GroupAt(rows, d.keys[i]);
        JsObject.TallyCounts(Categories(rows), d.keys[i]);
      }
    }
  }

  /** Every category met gets a group, and no category gets two. */
  lemma GroupsCoverCategories(rows: seq<EmployeeSkill>)
    ensures var gs := SkillGroups(rows);
      && (forall k :: k in Categories(rows) ==> exists i :: 0 <= i < |gs| && gs[i].name == k)
      && (forall i, j :: 0 <= i < j < |gs| ==> gs[i].name != gs[j].name)
  {
    var gs := SkillGroups(rows);
    if |rows| > 0 {
      var d := GroupFold(rows);
      GroupKeys(rows);
      forall i | 0 <= i < |d.keys| ensures gs[i].name == d.keys[i] {
        GroupAt(rows, d.keys[i]);
      }
      forall k | k in Categories(rows) ensures exists i :: 0 <= i < |gs| && gs[i].name == k {
        JsObject.TallyCounts(Categories(rows), k);
        var i :| 0 <= i < |d.keys| && d.keys[i] == k;
      }
    }
  }

  /** A group's count is the tally of its category. */
  lemma GroupCount(rows: seq<EmployeeSkill>, i: nat)
    requires i < |GroupFold(rows).keys|
    ensures var d := GroupFold(rows); var t := JsObject.Tally(Categories(rows));
      d.keys[i] in t.values && d.values[d.keys[i]].value == t.values[d.keys[i]]
  {
    var k := GroupFold(rows).keys[i];
    GroupKeys(rows);
    GroupAt(rows, k);
    JsObject.TallyCounts(Categories(rows), k);
    OccurrencesAreNames(rows, k);
  }

  /** The counts add up to the number of rows that have a category. */
  lemma GroupsTotal(rows: seq<EmployeeSkill>)
    ensures GroupTotal(SkillGroups(rows)) == |Categories(rows)|
  {
    if |rows| > 0 {
      var d := GroupFold(rows);
      var tally := JsObject.Tally(Categories(rows));
      GroupKeys(rows);
      forall i | 0 <= i < |d.keys| ensures d.keys[i] in tally.values && SkillGroups(rows)[i].value == tally.values[d.keys[i]] {
        GroupCount(rows, i);
      }
      GroupTotalIsSum(tally.keys, SkillGroups(rows), tally.values);
      JsObject.TallySumOver(Categories(rows));
    }
  }

  // ---------------------------------------------------------------------------
  // Team fit ranking

  datatype TeamFitEntry = TeamFitEntry(teamName: string, fit: TeamCriteria.FitResult)

  function OverallOf(x: TeamFitEntry): int {
    x.fit.overallFit
  }

  /**
   * The employee as the profile scores it: its skills are the joined skill
   * rows (rows without a joined skill are dropped).
   */
  function WithSkillRows(e: Employee, rows: seq<EmployeeSkill>): Employee {
    e.(skills := Some(JoinedSkills(rows)))
  }

  function JoinedSkills(rows: seq<EmployeeSkill>): seq<Skill> {
    if |rows| == 0 then []
    else
      var row := rows[|rows| - 1];
      JoinedSkills(rows[..|rows| - 1]) + (if row.skill.Some? then [row.skill.value] else [])
  }

  /** The joined skills are exactly the skills the rows carry. */
  lemma {:induction false} JoinedSkillsMembers(rows: seq<EmployeeSkill>, s: Skill)
    ensures s in JoinedSkills(rows) <==> exists j :: 0 <= j < |rows| && rows[j].skill == Some(s)
  {
    if |rows| > 0 {
      var front := rows[..|rows| - 1];
      JoinedSkillsMembers(front, s);
      if exists j :: 0 <= j < |front| && front[j].skill == Some(s) {
        var j :| 0 <= j < |front| && front[j].skill == Some(s);
        assert rows[j] == front[j];
      }
      if exists j :: 0 <= j < |rows| && rows[j].skill == Some(s) {
        var j :| 0 <= j < |rows| && rows[j].skill == Some(s);
        if j < |front| {
          assert front[j] == rows[j];
        }
      }
    }
  }

  /**
   * Scoring the fetched employee against a team type: a required skill is
   * matched iff the joined skill of some row credits it, and the
   * personality part is that of the employee record itself.
   */
  lemma ProfileSkillFit(e: Employee, rows: seq<EmployeeSkill>, teamName: string)
    requires teamName in TeamCriteria.TeamNames
    ensures var c := TeamCriteria.Catalogue[teamName]; var fit := TeamCriteria.TeamFit(WithSkillRows(e, rows), teamName);
      && (forall i :: 0 <= i < |c.skills| ==>
            (c.skills[i].name in fit.matchedSkills <==>
             exists j :: 0 <= j < |rows| && rows[j].skill.Some? && TeamCriteria.SkillCredits(rows[j].skill.value, c.skills[i])))
      && fit.personalityFit == TeamCriteria.TeamFit(e, teamName).personalityFit
      && fit.matchedPersonality == TeamCriteria.TeamFit(e, teamName).matchedPersonality
  {
    var p := WithSkillRows(e, rows);
    var c := TeamCriteria.Catalogue[teamName];
    TeamCriteria.TeamFitSkills(p, teamName);
    forall i | 0 <= i < |c.skills|
      ensures TeamCriteria.HasSkill(p.skills, c.skills[i]) <==>
        exists j :: 0 <= j < |rows| && rows[j].skill.Some? && TeamCriteria.SkillCredits(rows[j].skill.value, c.skills[i])
    {
      JoinedHasSkill(rows, c.skills[i]);
    }
    assert p.personality == e.personality;
  }

  /** The joined skills hold a required skill iff some row's joined skill credits it. */
  lemma JoinedHasSkill(rows: seq<EmployeeSkill>, rs: TeamCriteria.RequiredSkill)
    ensures TeamCriteria.HasSkill(Some(JoinedSkills(rows)), rs) <==>
      exists j :: 0 <= j < |rows| && rows[j].skill.Some? && TeamCriteria.SkillCredits(rows[j].skill.value, rs)
  {
    var joined := JoinedSkills(rows);
    if TeamCriteria.HasSkill(Some(joined), rs) {
      var k :| 0 <= k < |joined| && TeamCriteria.SkillCredits(joined[k], rs);
      JoinedSkillsMembers(rows, joined[k]);
    }
    if exists j :: 0 <= j < |rows| && rows[j].skill.Some? && TeamCriteria.SkillCredits(rows[j].skill.value, rs) {
      var j :| 0 <= j < |rows| && rows[j].skill.Some? && TeamCriteria.SkillCredits(rows[j].skill.value, rs);
      JoinedSkillsMembers(rows, rows[j].skill.value);
      var k :| 0 <= k < |joined| && joined[k] == rows[j].skill.value;
    }
  }

  /** The fit against each of the five team types, in catalogue order. */
  function FitEntries(e: Employee): (r: seq<TeamFitEntry>)
    ensures |r| == 5
    ensures forall j :: 0 <= j < 5 ==>
      r[j].teamName == TeamCriteria.TeamNames[j] && r[j].fit == TeamCriteria.TeamFit(e, TeamCriteria.TeamNames[j])
  {
    seq(5, i requires 0 <= i < 5 => TeamFitEntry(TeamCriteria.TeamNames[i], TeamCriteria.TeamFit(e, TeamCriteria.TeamNames[i])))
  }

  /** `teamFitData`: the fits sorted by non-increasing overallFit, ties in catalogue order. */
  function RankTeamFits(e: Employee): seq<TeamFitEntry> {
    SortDesc(FitEntries(e), OverallOf)
  }

  /**
   * The ranking is the five fits in non-increasing overallFit order, ties in
   * catalogue order, and only rearranges them.
   */
  lemma RankingFacts(e: Employee)
    ensures var r := RankTeamFits(e);
      && |r| == 5
      && SortedDesc(r, OverallOf)
      && multiset(r) == multiset(FitEntries(e))
      && (forall k :: WithKey(r, OverallOf, k) == WithKey(FitEntries(e), OverallOf, k))
  {
    SortDescFacts(FitEntries(e), OverallOf);
  }

  /**
   * Every ranked entry is one of the five fits, every fit is ranked, and the
   * first entry, shown as the best fit, has the largest overallFit.
   */
  lemma RankingEntries(e: Employee)
    ensures var r := RankTeamFits(e); var fits := FitEntries(e);
      && (forall x :: x in r <==> x in fits)
      && (forall j :: 0 <= j < 5 ==> OverallOf(fits[j]) <= OverallOf(r[0]))
  {
    SortMembers(FitEntries(e), OverallOf);
    SortFirstIsMax(FitEntries(e), OverallOf);
  }

  /**
   * `teamFitData` of the profile: every ranked entry is the fit of the
   * fetched employee, whose skills are the joined skill rows, against a
   * catalogued team type under that type's name.
   */
  lemma ProfileRanking(e: Employee, rows: seq<EmployeeSkill>)
    ensures var p := WithSkillRows(e, rows);
      forall x :: x in RankTeamFits(p) ==>
        x.teamName in TeamCriteria.TeamNames && x.fit == TeamCriteria.TeamFit(p, x.teamName)
  {
    var p := WithSkillRows(e, rows);
    RankingEntries(p);
    forall x | x in RankTeamFits(p)
      ensures x.teamName in TeamCriteria.TeamNames && x.fit == TeamCriteria.TeamFit(p, x.teamName)
    {
      var j :| 0 <= j < 5 && FitEntries(p)[j] == x;
    }
  }

  // ---------------------------------------------------------------------------
  // Top-N slices

  /** The five strongest traits. */
  function TopTraits(ts: seq<ParsedTrait>): (r: seq<ParsedTrait>)
    ensures |r| == (if |ts| <= 5 then |ts| else 5)
    ensures SortedDesc(r, TraitValue)
    ensures multiset(r) <= multiset(ts)
    ensures forall x :: x in multiset(ts) - multiset(r) ==> forall i :: 0 <= i < |r| ==> x.value <= r[i].value
  {
    TopN(ts, TraitValue, 5);
    Take(SortDesc(ts, TraitValue), 5)
  }

  /** The three largest skill categories. */
  function TopCategories(gs: seq<SkillGroup>): (r: seq<SkillGroup>)
    ensures |r| == (if |gs| <= 3 then |gs| else 3)
    ensures SortedDesc(r, GroupValue)
    ensures multiset(r) <= multiset(gs)
    ensures forall x :: x in multiset(gs) - multiset(r) ==> forall i :: 0 <= i < |r| ==> x.value <= r[i].value
  {
    TopN(gs, GroupValue, 3);
    Take(SortDesc(gs, GroupValue), 3)
  }

  // ---------------------------------------------------------------------------
  // Trait descriptions

  const Descriptions: map<string, string> := map[
    "ambition" := "Driven to achieve goals and succeed at challenging tasks.",
    "assertiveness" := "Confident in expressing opinions and taking control of situations.",
    "awareness" := "Perceptive of surroundings and others' needs and feelings.",
    "composure" := "Calm and collected under pressure or in difficult situations.",
    "cooperativeness" := "Works well with others and contributes to team efforts.",
    "liveliness" := "Energetic and enthusiastic in approach to work and interactions.",
    "humility" := "Modest about achievements and open to feedback and learning.",
    "drive" := "Motivated to push forward and overcome obstacles.",
    "conceptual" := "Thinks abstractly and generates innovative ideas.",
    "mastery" := "Strives for excellence and continuous improvement of skills.",
    "structure" := "Prefers organization, planning, and systematic approaches.",
    "flexibility" := "Adapts easily to change and new situations.",
    "positivity" := "Maintains an optimistic outlook and focuses on solutions.",
    "power" := "Comfortable with authority and making impactful decisions.",
    "sensitivity" := "Attuned to emotions and interpersonal dynamics."
  ]

  const DefaultDescription := "A key personality characteristic that influences work style and team dynamics."

  /** getPersonalityDescription, reading only the own keys of the table. */
  function PersonalityDescription(traitName: string): (r: string)
    ensures Lower(traitName) in TraitColumns ==> r == Descriptions[Lower(traitName)] && r != DefaultDescription
    ensures Lower(traitName) !in TraitColumns ==> r == DefaultDescription
  {
    DescriptionKeys();
    if Lower(traitName) in Descriptions then Descriptions[Lower(traitName)] else DefaultDescription
  }

  lemma DescriptionKeys()
    ensures Descriptions.Keys == set c | c in TraitColumns
    ensures forall k :: k in Descriptions ==> Descriptions[k] != DefaultDescription && Descriptions[k] != ""
  {
  }

  /** The lookup ignores case: names that agree in lower case get the same sentence. */
  lemma DescriptionIgnoresCase(a: string, b: string)
    requires Lower(a) == Lower(b)
    ensures PersonalityDescription(a) == PersonalityDescription(b)
  {
  }

  /** What getPersonalityDescription as written returns: a sentence, or an inherited non-string. */
  datatype DescriptionOutcome = Sentence(text: string) | NonString(member: string)

  /**
   * getPersonalityDescription as written: `descriptions[traitLower] || ...`
   * also finds the members of `Object.prototype`, and of those only
   * "constructor" and "__proto__" survive lower-casing; for them it returns
   * a function or an object instead of a sentence.
   */
  function DescriptionAsWritten(traitName: string): (r: DescriptionOutcome)
    ensures r.NonString? <==> Lower(traitName) == "constructor" || Lower(traitName) == "__proto__"
    ensures r.Sentence? ==> r.text == PersonalityDescription(traitName)
  {
    LowerNeverPrototype(traitName);
    match JsObject.Read(Descriptions, Lower(traitName))
    case Own(text) => Sentence(text)
    case Inherited(member) => NonString(member)
    case Undefined => Sentence(DefaultDescription)
  }

  /** Of the inherited member names, only two are already in lower case. */
  lemma LowerNeverPrototype(s: string)
    ensures Lower(s) in JsObject.PrototypeMembers <==> Lower(s) == "constructor" || Lower(s) == "__proto__"
  {
    var l := Lower(s);
    assert forall i :: 0 <= i < |l| ==> !('A' <= l[i] <= 'Z');
    assert "toString"[2] == 'S' && "toLocaleString"[2] == 'L' && "valueOf"[5] == 'O';
    assert "hasOwnProperty"[3] == 'O' && "isPrototypeOf"[2] == 'P' && "propertyIsEnumerable"[8] == 'I';
    assert "__defineGetter__"[8] == 'G' && "__defineSetter__"[8] == 'S';
    assert "__lookupGetter__"[8] == 'G' && "__lookupSetter__"[8] == 'S';
  }

  /** "Constructor" is no trait: intended is the default sentence, as written it yields a function. */
  lemma ConstructorDescription()
    ensures DescriptionAsWritten("Constructor").NonString?
    ensures PersonalityDescription("Constructor") == DefaultDescription
  {
    assert Lower("Constructor") == "constructor";
  }
}
