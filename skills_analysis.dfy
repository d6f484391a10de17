/**
 * The skills analysis of a saved team: the member ids the skill rows are
 * fetched for, the tally of the members' skill rows per main category, the
 * catalogue skills nobody on the team has, the coverage figure, and the
 * five categories with the most missing skills.
 */
module SkillsAnalysis {
  import opened Wrappers
  import opened Records
  import opened Sequences
  import opened Sorting
  import JsObject
  import TeamCriteria

  // ---------------------------------------------------------------------------
  // Member ids

  /** `[leader?.id, ...members.map((m) => m.id)]`: an absent leader has no id. */
  function CandidateIds(leader: Option<Employee>, members: seq<Employee>): seq<Option<int>> {
    [if leader.Some? then Some(leader.value.id) else None]
      + seq(|members|, i requires 0 <= i < |members| => Some(members[i].id))
  }

  /** `.filter(Boolean)` on ids: undefined and 0 are dropped. */
  function TruthyIds(xs: seq<Option<int>>): seq<int> {
    if |xs| == 0 then []
    else
      var x := xs[|xs| - 1];
      TruthyIds(xs[..|xs| - 1]) + (if x.Some? && x.value != 0 then [x.value] else [])
  }

  function MemberIds(leader: Option<Employee>, members: seq<Employee>): seq<int> {
    TruthyIds(CandidateIds(leader, members))
  }

  lemma {:induction false} TruthyIdsMember(xs: seq<Option<int>>, id: int)
    ensures id in TruthyIds(xs) <==> id != 0 && Some(id) in xs
  {
    if |xs| > 0 {
      var n := |xs| - 1;
      TruthyIdsMember(xs[..n], id);
      assert xs == xs[..n] + [xs[n]];
    }
  }

  /** The ids fetched are the non-zero ids of the leader and the members. */
  lemma MemberIdsFacts(leader: Option<Employee>, members: seq<Employee>, id: int)
    ensures id in MemberIds(leader, members) <==>
      id != 0 && ((leader.Some? && leader.value.id == id) || exists k :: 0 <= k < |members| && members[k].id == id)
  {
    var xs := CandidateIds(leader, members);
    TruthyIdsMember(xs, id);
    if exists k :: 0 <= k < |members| && members[k].id == id {
      var k :| 0 <= k < |members| && members[k].id == id;
      assert xs[k + 1] == Some(id);
    }
    if Some(id) in xs {
      var i :| 0 <= i < |xs| && xs[i] == Some(id);
      if i > 0 {
        assert members[i - 1].id == id;
      }
    }
  }

  // ---------------------------------------------------------------------------
  // Category tally

  /** A row counts in the tally when its joined skill has a truthy main category. */
  predicate HasCategory(row: EmployeeSkill) {
    row.skill.Some? && Filled(row.skill.value.mainCategory)
  }

  /** The categories counted, in row order. */
  function CategoryKeys(rows: seq<EmployeeSkill>): seq<string> {
    if |rows| == 0 then []
    else
      var row := rows[|rows| - 1];
      CategoryKeys(rows[..|rows| - 1]) + (if HasCategory(row) then [row.skill.value.mainCategory.value] else [])
  }

  /** `skillsByCategory`. */
  method TallyCategories(rows: seq<EmployeeSkill>) returns (skillsByCategory: JsObject.Dict<int>)
    ensures skillsByCategory == JsObject.Tally(CategoryKeys(rows))
  {
    skillsByCategory := JsObject.Empty();
    for i := 0 to |rows|
      invariant skillsByCategory == JsObject.Tally(CategoryKeys(rows[..i]))
    {
      assert rows[..i + 1][..i] == rows[..i];
      var row := rows[i];
      if row.skill.Some? && Filled(row.skill.value.mainCategory) {
        var before := CategoryKeys(rows[..i]);
        assert CategoryKeys(rows[..i + 1]) == before + [row.skill.value.mainCategory.value];
        assert (before + [row.skill.value.mainCategory.value])[..|before|] == before;
        skillsByCategory := JsObject.Increment(skillsByCategory, row.skill.value.mainCategory.value);
      } else {
        assert CategoryKeys(rows[..i + 1]) == CategoryKeys(rows[..i]);
      }
    }
    assert rows[..|rows|] == rows;
  }

  lemma {:induction false} CategoryKeysCount(rows: seq<EmployeeSkill>)
    ensures |CategoryKeys(rows)| == |Filter(rows, HasCategory)|
  {
    if |rows| > 0 {
      CategoryKeysCount(rows[..|rows| - 1]);
    }
  }

  /**
   * Only rows whose skill has a main category are counted: the counts add
   * up to the number of such rows, and a category gets a key once it is met.
   */
  lemma CategoryTallyFacts(rows: seq<EmployeeSkill>, category: string)
    ensures JsObject.EntrySum(JsObject.Entries(JsObject.Tally(CategoryKeys(rows)))) == |Filter(rows, HasCategory)|
    ensures category in JsObject.Tally(CategoryKeys(rows)).values <==> category in CategoryKeys(rows)
    ensures JsObject.GetOr(JsObject.Tally(CategoryKeys(rows)), category, 0)
         == JsObject.Occurrences(CategoryKeys(rows), category)
  {
    JsObject.TallySum(CategoryKeys(rows));
    CategoryKeysCount(rows);
    JsObject.TallyCounts(CategoryKeys(rows), category);
  }

  // ---------------------------------------------------------------------------
  // Missing skills

  /** `teamSkillIds`. */
  function TeamSkillIds(rows: seq<EmployeeSkill>): (ids: set<int>)
    ensures forall id :: id in ids <==> exists k :: 0 <= k < |rows| && rows[k].skillId == id
  {
    set k | 0 <= k < |rows| :: rows[k].skillId
  }

  function NotOnTeam(ids: set<int>): Skill -> bool {
    (s: Skill) => s.id !in ids
  }

  /** The catalogue skills whose id no team row has, in catalogue order. */
  function MissingCatalogue(catalogue: seq<Skill>, ids: set<int>): seq<Skill> {
    Filter(catalogue, NotOnTeam(ids))
  }

  function Names(skills: seq<Skill>): (r: seq<string>)
    ensures |r| == |skills|
    ensures forall i :: 0 <= i < |r| ==> r[i] == skills[i].name
  {
    seq(|skills|, i requires 0 <= i < |skills| => skills[i].name)
  }

  /**
   * The missing skills are the catalogue skills whose id is not among the
   * team's, with their order kept; the rest of the catalogue is covered.
   */
  lemma MissingFacts(catalogue: seq<Skill>, rows: seq<EmployeeSkill>, s: Skill)
    ensures Interleaving(catalogue, MissingCatalogue(catalogue, TeamSkillIds(rows)),
                         Reject(catalogue, NotOnTeam(TeamSkillIds(rows))))
    ensures s in MissingCatalogue(catalogue, TeamSkillIds(rows)) <==>
      s in catalogue && forall k :: 0 <= k < |rows| ==> rows[k].skillId != s.id
  {
    FilterSplit(catalogue, NotOnTeam(TeamSkillIds(rows)));
    FilterMember(catalogue, NotOnTeam(TeamSkillIds(rows)), s);
  }

  /** `String(skill.main_category)` as a key: a null category is "null". */
  function KeyOf(s: Skill): string {
    match s.mainCategory
    case None => "null"
    case Some(c) => c
  }

  /** The keys the missing-skill loop counts, in catalogue order. */
  function MissingKeys(catalogue: seq<Skill>, ids: set<int>): seq<string> {
    if |catalogue| == 0 then []
    else
      var s := catalogue[|catalogue| - 1];
      MissingKeys(catalogue[..|catalogue| - 1], ids) + (if s.id !in ids then [KeyOf(s)] else [])
  }

  /** The counted keys are the keys of the missing skills, one for one and in order. */
  lemma {:induction false} MissingKeysAreKeys(catalogue: seq<Skill>, ids: set<int>)
    ensures var m := MissingCatalogue(catalogue, ids); var ks := MissingKeys(catalogue, ids);
      |ks| == |m| && forall i :: 0 <= i < |ks| ==> ks[i] == KeyOf(m[i])
  {
    if |catalogue| > 0 {
      MissingKeysAreKeys(catalogue[..|catalogue| - 1], ids);
    }
  }

  /**
   * A category is a key of `missingSkillsByCategory` iff some missing skill
   * has it as key, and its count is the number of missing skills with it.
   */
  lemma MissingTallyCounts(catalogue: seq<Skill>, ids: set<int>, k: string)
    ensures var m := MissingCatalogue(catalogue, ids); var t := JsObject.Tally(MissingKeys(catalogue, ids));
      && (k in t.values <==> exists i :: 0 <= i < |m| && KeyOf(m[i]) == k)
      && JsObject.GetOr(t, k, 0) == JsObject.Occurrences(MissingKeys(catalogue, ids), k)
  {
    var m := MissingCatalogue(catalogue, ids);
    var ks := MissingKeys(catalogue, ids);
    MissingKeysAreKeys(catalogue, ids);
    JsObject.TallyCounts(ks, k);
    if k in ks {
      var i :| 0 <= i < |ks| && ks[i] == k;
      assert KeyOf(m[i]) == k;
    }
    if exists i :: 0 <= i < |m| && KeyOf(m[i]) == k {
      var i :| 0 <= i < |m| && KeyOf(m[i]) == k;
      assert ks[i] == k;
    }
  }

  /** `missingSkillsByCategory`. */
  method TallyMissing(catalogue: seq<Skill>, ids: set<int>) returns (byCategory: JsObject.Dict<int>)
    ensures byCategory == JsObject.Tally(MissingKeys(catalogue, ids))
  {
    byCategory := JsObject.Empty();
    for i := 0 to |catalogue|
      invariant byCategory == JsObject.Tally(MissingKeys(catalogue[..i], ids))
    {
      assert catalogue[..i + 1][..i] == catalogue[..i];
      var skill := catalogue[i];
      if skill.id !in ids {
        var before := MissingKeys(catalogue[..i], ids);
        assert MissingKeys(catalogue[..i + 1], ids) == before + [KeyOf(skill)];
        assert (before + [KeyOf(skill)])[..|before|] == before;
        byCategory := JsObject.Increment(byCategory, KeyOf(skill));
      } else {
        assert MissingKeys(catalogue[..i + 1], ids) == MissingKeys(catalogue[..i], ids);
      }
    }
    assert catalogue[..|catalogue|] == catalogue;
  }

  /** The missing counts per category add up to the number of missing skills. */
  lemma MissingByCategorySum(catalogue: seq<Skill>, ids: set<int>)
    ensures JsObject.EntrySum(JsObject.Entries(JsObject.Tally(MissingKeys(catalogue, ids))))
         == |MissingCatalogue(catalogue, ids)|
  {
    JsObject.TallySum(MissingKeys(catalogue, ids));
    MissingKeysAreKeys(catalogue, ids);
  }

  // ---------------------------------------------------------------------------
  // Coverage and gaps

  /**
   * `Math.round(E / (E + M) * 100)` for E team rows and M missing skills;
   * with neither the quotient is NaN, modelled as None.
   */
  function SkillCoverage(rowCount: nat, missingCount: nat): Option<int> {
    if rowCount + missingCount == 0 then None
    else Some(TeamCriteria.Round(100 * rowCount, rowCount + missingCount))
  }

  lemma MulMonotone(b: int, x: int, y: int)
    requires b >= 0 && x <= y
    ensures b * x <= b * y
  {
    assert b * y == b * x + b * (y - x);
  }

  lemma DivAtMost(a: int, b: int, q: int)
    requires b > 0 && 0 <= a < b * (q + 1)
    ensures a / b <= q
  {
    var d := a / b;
    assert a == b * d + a % b;
    if d >= q + 1 {
      MulMonotone(b, q + 1, d);
      assert false;
    }
  }

  lemma DivAtLeast(a: int, b: int, q: int)
    requires b > 0 && b * q <= a
    ensures q <= a / b
  {
    var d := a / b;
    assert a == b * d + a % b;
    if d + 1 <= q {
      MulMonotone(b, d + 1, q);
      assert false;
    }
  }

  /**
   * Coverage is defined exactly when there is a row or a missing skill; it
   * lies in [0, 100], is 100 when nothing is missing and 0 when the team has
   * no rows.
   */
  lemma CoverageFacts(rowCount: nat, missingCount: nat)
    ensures SkillCoverage(rowCount, missingCount).Some? <==> rowCount + missingCount > 0
    ensures SkillCoverage(rowCount, missingCount).Some? ==>
      var c := SkillCoverage(rowCount, missingCount).value;
      && 0 <= c <= 100
      && (missingCount == 0 ==> c == 100)
      && (rowCount == 0 ==> c == 0)
  {
    var d := rowCount + missingCount;
    if d > 0 {
      var a := 2 * (100 * rowCount) + d;
      assert a < (2 * d) * 101 by {
        assert 200 * rowCount <= 200 * d;
      }
      DivAtMost(a, 2 * d, 100);
      if missingCount == 0 {
        assert a == 201 * d;
        DivAtLeast(a, 2 * d, 100);
      }
      if rowCount == 0 {
        DivAtMost(a, 2 * d, 0);
      }
    }
  }

  function EntryValue(): ((string, int)) -> int {
    (e: (string, int)) => e.1
  }

  /** `gapsData`: the categories by missing count, largest first, at most five. */
  function Gaps(byCategory: JsObject.Dict<int>): seq<(string, int)>
    requires JsObject.Valid(byCategory)
  {
    Take(SortDesc(JsObject.Entries(byCategory), EntryValue()), 5)
  }

  /**
   * The gap list has at most five entries, sorted by non-increasing count,
   * all drawn from the per-category counts, and no category left out has a
   * larger count than one kept.
   */
  lemma GapsFacts(byCategory: JsObject.Dict<int>)
    requires JsObject.Valid(byCategory)
    ensures var gaps := Gaps(byCategory);
      var entries := JsObject.Entries(byCategory);
      && |gaps| == (if |entries| <= 5 then |entries| else 5)
      && SortedDesc(gaps, EntryValue())
      && multiset(gaps) <= multiset(entries)
      && forall x :: x in multiset(entries) - multiset(gaps) ==> forall i :: 0 <= i < |gaps| ==> x.1 <= gaps[i].1
  {
    TopN(JsObject.Entries(byCategory), EntryValue(), 5);
  }

  // ---------------------------------------------------------------------------
  // The whole analysis

  /** What the component shows. */
  datatype Analysis = Analysis(
    categories: seq<(string, int)>,
    missing: seq<string>,
    coverage: Option<int>,
    gaps: seq<(string, int)>)

  /**
   * The effect's body, given the team's skill rows and the catalogue as
   * fetched: nothing when there is no member id to fetch for.
   */
  function AnalysisOf(leader: Option<Employee>, members: seq<Employee>, rows: seq<EmployeeSkill>, catalogue: seq<Skill>)
    : Option<Analysis>
  {
    if |MemberIds(leader, members)| == 0 then None
    else
      var ids := TeamSkillIds(rows);
      var missing := Names(MissingCatalogue(catalogue, ids));
      Some(Analysis(
        JsObject.Entries(JsObject.Tally(CategoryKeys(rows))),
        missing,
        SkillCoverage(|rows|, |missing|),
        Gaps(JsObject.Tally(MissingKeys(catalogue, ids)))))
  }

  method Analyze(leader: Option<Employee>, members: seq<Employee>, rows: seq<EmployeeSkill>, catalogue: seq<Skill>)
    returns (r: Option<Analysis>)
    ensures r == AnalysisOf(leader, members, rows, catalogue)
  {
    var memberIds := MemberIds(leader, members);
    if |memberIds| == 0 {
      return None;
    }
    var skillsByCategory := TallyCategories(rows);
    var teamSkillIds := TeamSkillIds(rows);
    var missing := Names(Filter(catalogue, NotOnTeam(teamSkillIds)));
    var coverage := SkillCoverage(|rows|, |missing|);
    var byCategory := TallyMissing(catalogue, teamSkillIds);
    var gaps := Take(SortDesc(JsObject.Entries(byCategory), EntryValue()), 5);
    r := Some(Analysis(JsObject.Entries(skillsByCategory), missing, coverage, gaps));
  }

  /** Without a leader and with no member nothing is computed. */
  lemma NoMembersNothing(leader: Option<Employee>, members: seq<Employee>, rows: seq<EmployeeSkill>, catalogue: seq<Skill>)
    requires leader.None? || leader.value.id == 0
    requires forall k :: 0 <= k < |members| ==> members[k].id == 0
    ensures AnalysisOf(leader, members, rows, catalogue) == None
  {
    var ids := MemberIds(leader, members);
    if |ids| > 0 {
      MemberIdsFacts(leader, members, ids[0]);
    }
  }
}
