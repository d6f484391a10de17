/**
 * The personality balance of a saved team: which of the fifteen trait
 * columns some member has a score for, the resulting coverage and missing
 * list, and the tally of Belbin roles over the roster.
 */
module PersonalityBalance {
  import opened Wrappers
  import opened Records
  import opened Sequences
  import JsObject
  import TeamCriteria

  /** `[leader, ...members].filter(Boolean)`. */
  function Roster(leader: Option<Employee>, members: seq<Option<Employee>>): seq<Employee> {
    Somes([leader] + members)
  }

  function Somes(xs: seq<Option<Employee>>): (r: seq<Employee>)
    ensures |r| <= |xs|
  {
    if |xs| == 0 then []
    else Somes(xs[..|xs| - 1]) + (if xs[|xs| - 1].Some? then [xs[|xs| - 1].value] else [])
  }

  lemma {:induction false} SomesEmpty(xs: seq<Option<Employee>>)
    ensures Somes(xs) == [] <==> forall k :: 0 <= k < |xs| ==> xs[k].None?
  {
    if |xs| > 0 {
      SomesEmpty(xs[..|xs| - 1]);
    }
  }

  /**
   * `typeof traits[trait] === "number"` for the record the component works
   * with (the first one of a list); a score of 0 counts.
   */
  predicate HasScore(e: Employee, t: string) {
    var rec := Canonical(e.personality);
    rec.Some? && t in rec.value.scores
  }

  /** `traitCounts[t]`: the number of roster members with a score for t. */
  function TraitCount(roster: seq<Employee>, t: string): nat {
    if |roster| == 0 then 0
    else TraitCount(roster[..|roster| - 1], t) + (if HasScore(roster[|roster| - 1], t) then 1 else 0)
  }

  function IsPresent(roster: seq<Employee>): string -> bool {
    t => TraitCount(roster, t) > 0
  }

  function Absent(present: seq<string>): string -> bool {
    t => t !in present
  }

  /** `presentTraits`. */
  function Present(roster: seq<Employee>): seq<string> {
    Filter(TraitColumns, IsPresent(roster))
  }

  /** `missing`: the columns not in the present list, in column order. */
  function Missing(roster: seq<Employee>): seq<string> {
    Filter(TraitColumns, Absent(Present(roster)))
  }

  /** `Math.round(presentTraits.length / 15 * 100)`. */
  function Coverage(roster: seq<Employee>): int {
    TeamCriteria.Round(100 * |Present(roster)|, |TraitColumns|)
  }

  /** The role `traits?.belbin_role` yields when it is truthy. */
  function RoleOf(e: Employee): Option<string> {
    var rec := Canonical(e.personality);
    if rec.Some? && Filled(rec.value.belbinRole) then rec.value.belbinRole else None
  }

  /** The roles counted, in roster order. */
  function Roles(roster: seq<Employee>): seq<string> {
    if |roster| == 0 then []
    else
      var role := RoleOf(roster[|roster| - 1]);
      Roles(roster[..|roster| - 1]) + (if role.Some? then [role.value] else [])
  }

  /** What the component shows: coverage, missing traits and the Belbin chart entries. */
  datatype Balance = Balance(coverage: int, missing: seq<string>, belbin: seq<(string, int)>)

  /** The component's state before anything is computed. */
  const Initial := Balance(0, [], [])

  function BalanceOf(leader: Option<Employee>, members: seq<Option<Employee>>): Balance {
    var roster := Roster(leader, members);
    if |roster| == 0 then Initial
    else Balance(Coverage(roster), Missing(roster), JsObject.Entries(JsObject.Tally(Roles(roster))))
  }

  // ---------------------------------------------------------------------------
  // The loops

  lemma ColumnsDistinct()
    ensures Distinct(TraitColumns)
  {
    var cs := TraitColumns;
    forall i, j | 0 <= i < j < |cs| ensures cs[i] != cs[j] {
      assert cs[i][0] != cs[j][0] || |cs[i]| != |cs[j]|;
    }
  }

  /** `traitCounts[t] || 0`. */
  function Get(counts: map<string, int>, t: string): int {
    if t in counts then counts[t] else 0
  }

  /** The inner forEach for one member: a column it scores goes up by one. */
  method AddMemberScores(counts: map<string, int>, member: Employee) returns (after: map<string, int>)
    requires forall t :: t in counts ==> t in TraitColumns && counts[t] > 0
    ensures forall t :: t in after ==> t in TraitColumns && after[t] > 0
    ensures forall k :: 0 <= k < |TraitColumns| ==>
      Get(after, TraitColumns[k]) == Get(counts, TraitColumns[k]) + (if HasScore(member, TraitColumns[k]) then 1 else 0)
  {
    ColumnsDistinct();
    after := counts;
    for j := 0 to |TraitColumns|
      invariant forall t :: t in after ==> t in TraitColumns && after[t] > 0
      invariant forall k :: 0 <= k < |TraitColumns| ==>
        Get(after, TraitColumns[k])
        == Get(counts, TraitColumns[k]) + (if k < j && HasScore(member, TraitColumns[k]) then 1 else 0)
    {
      var t := TraitColumns[j];
      if HasScore(member, t) {
        after := after[t := Get(after, t) + 1];
      }
    }
  }

  /** The first forEach: counts per column, keys only for columns some member scores. */
  method CountTraits(roster: seq<Employee>) returns (counts: map<string, int>)
    ensures forall t :: t in counts ==> t in TraitColumns && counts[t] > 0
    ensures forall k :: 0 <= k < |TraitColumns| ==> Get(counts, TraitColumns[k]) == TraitCount(roster, TraitColumns[k])
  {
    counts := map[];
    for i := 0 to |roster|
      invariant forall t :: t in counts ==> t in TraitColumns && counts[t] > 0
      invariant forall k :: 0 <= k < |TraitColumns| ==> Get(counts, TraitColumns[k]) == TraitCount(roster[..i], TraitColumns[k])
    {
      assert roster[..i + 1][..i] == roster[..i];
      counts := AddMemberScores(counts, roster[i]);
    }
    assert roster[..|roster|] == roster;
  }

  /** The second forEach: the Belbin role tally. */
  method TallyRoles(roster: seq<Employee>) returns (belbinRoles: JsObject.Dict<int>)
    ensures belbinRoles == JsObject.Tally(Roles(roster))
  {
    belbinRoles := JsObject.Empty();
    for i := 0 to |roster|
      invariant belbinRoles == JsObject.Tally(Roles(roster[..i]))
    {
      assert roster[..i + 1][..i] == roster[..i];
      var role := RoleOf(roster[i]);
      if role.Some? {
        var before := Roles(roster[..i]);
        assert Roles(roster[..i + 1]) == before + [role.value];
        assert (before + [role.value])[..|before|] == before;
        belbinRoles := JsObject.Increment(belbinRoles, role.value);
      } else {
        assert Roles(roster[..i + 1]) == Roles(roster[..i]);
      }
    }
    assert roster[..|roster|] == roster;
  }

  /** `traitCounts[trait] > 0`. */
  function CountedPresent(counts: map<string, int>): string -> bool {
    t => Get(counts, t) > 0
  }

  /** The effect's body: nothing for an empty roster, otherwise the balance. */
  method ComputeBalance(leader: Option<Employee>, members: seq<Option<Employee>>) returns (b: Balance)
    ensures b == BalanceOf(leader, members)
  {
    var roster := Roster(leader, members);
    if |roster| == 0 {
      return Initial;
    }
    var counts := CountTraits(roster);
    var present := Filter(TraitColumns, CountedPresent(counts));
    FilterSame(TraitColumns, CountedPresent(counts), IsPresent(roster));
    var coverage := TeamCriteria.Round(100 * |present|, |TraitColumns|);
    var missing := Filter(TraitColumns, Absent(present));
    var belbinRoles := TallyRoles(roster);
    b := Balance(coverage, missing, JsObject.Entries(belbinRoles));
  }

  // ---------------------------------------------------------------------------
  // Properties

  /** A column has a count exactly when some member has a score for it. */
  lemma {:induction false} TraitCountPositive(roster: seq<Employee>, t: string)
    ensures TraitCount(roster, t) > 0 <==> exists k :: 0 <= k < |roster| && HasScore(roster[k], t)
  {
    if |roster| > 0 {
      var n := |roster| - 1;
      TraitCountPositive(roster[..n], t);
      if exists k :: 0 <= k < |roster| && HasScore(roster[k], t) {
        var k :| 0 <= k < |roster| && HasScore(roster[k], t);
        if k < n {
          assert roster[..n][k] == roster[k];
        }
      }
      if exists k :: 0 <= k < n && HasScore(roster[..n][k], t) {
        var k :| 0 <= k < n && HasScore(roster[..n][k], t);
        assert roster[k] == roster[..n][k];
      }
    }
  }

  /** The missing list is what the present filter drops. */
  lemma MissingIsRejected(roster: seq<Employee>)
    ensures Missing(roster) == Reject(TraitColumns, IsPresent(roster))
  {
    var present := Present(roster);
    forall i | 0 <= i < |TraitColumns|
      ensures Absent(present)(TraitColumns[i]) == !IsPresent(roster)(TraitColumns[i])
    {
      FilterMember(TraitColumns, IsPresent(roster), TraitColumns[i]);
    }
    RejectIsFilter(TraitColumns, IsPresent(roster), Absent(present));
  }

  /** Present and missing split the fifteen columns in order. */
  lemma PresentMissingSplit(roster: seq<Employee>)
    ensures Interleaving(TraitColumns, Present(roster), Missing(roster))
    ensures |Present(roster)| + |Missing(roster)| == |TraitColumns|
  {
    MissingIsRejected(roster);
    FilterSplit(TraitColumns, IsPresent(roster));
  }

  /**
   * A trait is present exactly when some member has a score for it, 0
   * included, and missing exactly otherwise.
   */
  lemma PresentIffScored(roster: seq<Employee>, t: string)
    ensures t in Present(roster) <==> t in TraitColumns && exists k :: 0 <= k < |roster| && HasScore(roster[k], t)
    ensures t in Missing(roster) <==> t in TraitColumns && forall k :: 0 <= k < |roster| ==> !HasScore(roster[k], t)
  {
    MissingIsRejected(roster);
    FilterMember(TraitColumns, IsPresent(roster), t);
    TraitCountPositive(roster, t);
  }

  /** Filtering by a predicate that is the negation of p on every element gives Reject(s, p). */
  lemma {:induction false} RejectIsFilter(s: seq<string>, p: string -> bool, q: string -> bool)
    requires forall i :: 0 <= i < |s| ==> q(s[i]) == !p(s[i])
    ensures Filter(s, q) == Reject(s, p)
  {
    if |s| > 0 {
      RejectIsFilter(s[..|s| - 1], p, q);
    }
  }

  /** Coverage lies in [0, 100]; it is 100 exactly when nothing is missing and 0 exactly when nothing is present. */
  lemma CoverageBounds(roster: seq<Employee>)
    ensures 0 <= Coverage(roster) <= 100
    ensures Coverage(roster) == 100 <==> |Missing(roster)| == 0
    ensures Coverage(roster) == 0 <==> |Present(roster)| == 0
  {
    PresentMissingSplit(roster);
    TeamCriteria.RoundPercent(|Present(roster)|, 15);
  }

  /** The roles counted are those of the members that have a truthy role. */
  lemma {:induction false} RolesAreFiltered(roster: seq<Employee>)
    ensures |Roles(roster)| == |Filter(roster, (e: Employee) => RoleOf(e).Some?)|
  {
    if |roster| > 0 {
      RolesAreFiltered(roster[..|roster| - 1]);
    }
  }

  /** The Belbin counts add up to the number of roster members with a role. */
  lemma BelbinSum(roster: seq<Employee>)
    ensures JsObject.EntrySum(JsObject.Entries(JsObject.Tally(Roles(roster))))
         == |Filter(roster, (e: Employee) => RoleOf(e).Some?)|
  {
    JsObject.TallySum(Roles(roster));
    RolesAreFiltered(roster);
  }

  /** Each role's count is the number of members with that role, and only roles held appear. */
  lemma BelbinCounts(roster: seq<Employee>, role: string)
    ensures role in JsObject.Tally(Roles(roster)).values <==> role in Roles(roster)
    ensures JsObject.GetOr(JsObject.Tally(Roles(roster)), role, 0) == JsObject.Occurrences(Roles(roster), role)
  {
    JsObject.TallyCounts(Roles(roster), role);
  }

  /** With no leader and no member nothing is computed and the initial state stays. */
  lemma EmptyRoster(leader: Option<Employee>, members: seq<Option<Employee>>)
    requires leader.None? && forall k :: 0 <= k < |members| ==> members[k].None?
    ensures BalanceOf(leader, members) == Initial
  {
    var all := [leader] + members;
    assert forall k :: 0 <= k < |all| ==> all[k].None? by {
      forall k | 0 < k < |all| ensures all[k].None? { assert all[k] == members[k - 1]; }
    }
    SomesEmpty(all);
  }

  /**
   * Only the record a member's personality resolves to matters: a list
   * of records behaves as its first element.
   */
  lemma {:induction false} SameRecordsSameCounts(r1: seq<Employee>, r2: seq<Employee>, t: string)
    requires |r1| == |r2|
    requires forall k :: 0 <= k < |r1| ==> Canonical(r1[k].personality) == Canonical(r2[k].personality)
    ensures TraitCount(r1, t) == TraitCount(r2, t)
    ensures Roles(r1) == Roles(r2)
  {
    if |r1| > 0 {
      SameRecordsSameCounts(r1[..|r1| - 1], r2[..|r2| - 1], t);
    }
  }

  lemma SameRecordsSameBalance(r1: seq<Employee>, r2: seq<Employee>)
    requires |r1| == |r2|
    requires forall k :: 0 <= k < |r1| ==> Canonical(r1[k].personality) == Canonical(r2[k].personality)
    ensures Present(r1) == Present(r2) && Missing(r1) == Missing(r2) && Coverage(r1) == Coverage(r2)
    ensures Roles(r1) == Roles(r2)
  {
    forall i | 0 <= i < |TraitColumns| ensures IsPresent(r1)(TraitColumns[i]) == IsPresent(r2)(TraitColumns[i]) {
      SameRecordsSameCounts(r1, r2, TraitColumns[i]);
    }
    FilterSame(TraitColumns, IsPresent(r1), IsPresent(r2));
    SameRecordsSameCounts(r1, r2, "");
  }

  /** The first member of a list-shaped record is the one used. */
  lemma WrappedAsFirst(e: Employee, list: seq<Traits>)
    requires e.personality == Wrapped(list) && |list| > 0
    ensures Canonical(e.personality) == Canonical(e.(personality := Single(list[0])).personality)
  {
  }
}
