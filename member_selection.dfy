/**
 * The member-selection step of the team builder: the search filter over
 * the employees, the AI suggestions resolved against the employees, the
 * set of selected ids with its toggle and "select all suggested", the list
 * handed back to the wizard, and the suggested-first ordering.
 */
module MemberSelection {
  import opened Wrappers
  import opened Text
  import opened Records
  import opened Sequences
  import opened Sorting

  // ---------------------------------------------------------------------------
  // Search

  /** `(emp.personality_traits?.belbin_role || "")`: a list-shaped record has no such property. */
  function BelbinText(e: Employee): string {
    match e.personality
    case Single(t) => if t.belbinRole.Some? then t.belbinRole.value else ""
    case _ => ""
  }

  /** The name, the job title or the Belbin role contains the term, ignoring case. */
  predicate MatchesSearch(e: Employee, term: string) {
    var q := Lower(term);
    Contains(Lower(e.name), q) || Contains(Lower(e.jobTitle), q) || Contains(Lower(BelbinText(e)), q)
  }

  function Matcher(term: string): Employee -> bool {
    (e: Employee) => MatchesSearch(e, term)
  }

  /** The employees the list shows for a search term. */
  function SearchFilter(employees: seq<Employee>, term: string): seq<Employee> {
    if term == "" then employees else Filter(employees, Matcher(term))
  }

  /**
   * An empty term keeps every employee; any other term keeps, in order,
   * exactly the employees that match it.
   */
  lemma SearchFilterFacts(employees: seq<Employee>, term: string)
    ensures term == "" ==> SearchFilter(employees, term) == employees
    ensures term != "" ==> Interleaving(employees, SearchFilter(employees, term), Reject(employees, Matcher(term)))
    ensures term != "" ==> forall e :: e in SearchFilter(employees, term) <==> e in employees && MatchesSearch(e, term)
  {
    if term != "" {
      FilterSplit(employees, Matcher(term));
      forall e ensures e in SearchFilter(employees, term) <==> e in employees && MatchesSearch(e, term) {
        FilterMember(employees, Matcher(term), e);
      }
    }
  }

  /** Two terms that lower-case alike select the same employees. */
  lemma SearchIgnoresCase(employees: seq<Employee>, a: string, b: string)
    requires Lower(a) == Lower(b)
    ensures SearchFilter(employees, a) == SearchFilter(employees, b)
  {
    assert |a| == |Lower(a)| == |Lower(b)| == |b|;
    if a != "" {
      FilterSame(employees, Matcher(a), Matcher(b));
    }
  }

  // ---------------------------------------------------------------------------
  // Suggestions

  /** A suggestion as the suggestion service returns it. */
  datatype Suggestion = Suggestion(employeeId: int, percentage: Option<int>)

  /** `employees.find((e) => e.id === id)`. */
  function FindEmployee(employees: seq<Employee>, id: int): (r: Option<Employee>)
    ensures r.None? <==> forall k :: 0 <= k < |employees| ==> employees[k].id != id
    ensures r.Some? ==> exists k :: 0 <= k < |employees| && employees[k] == r.value && r.value.id == id
                                    && forall j :: 0 <= j < k ==> employees[j].id != id
  {
    if |employees| == 0 then None
    else if employees[0].id == id then Some(employees[0])
    else
      var r := FindEmployee(employees[1..], id);
      assert forall k :: 1 <= k < |employees| ==> employees[k] == employees[1..][k - 1];
      r
  }

  /** The member a suggestion becomes, or null when it names nobody. */
  function Resolve(employees: seq<Employee>, s: Suggestion): Option<Member> {
    match FindEmployee(employees, s.employeeId)
    case None => None
    case Some(e) => Some(Member(e, s.percentage))
  }

  /** `.filter(Boolean)` over the resolved suggestions. */
  function Present(xs: seq<Option<Member>>): seq<Member> {
    if |xs| == 0 then []
    else Present(xs[..|xs| - 1]) + (if xs[|xs| - 1].Some? then [xs[|xs| - 1].value] else [])
  }

  /** The suggested employees, with the suggested percentage attached. */
  function MapSuggestions(employees: seq<Employee>, suggestions: seq<Suggestion>): seq<Member> {
    Present(seq(|suggestions|, i requires 0 <= i < |suggestions| => Resolve(employees, suggestions[i])))
  }

  function NamesSomebody(employees: seq<Employee>): Suggestion -> bool {
    (s: Suggestion) => FindEmployee(employees, s.employeeId).Some?
  }

  /**
   * Mapping keeps the suggestions that name an employee, in suggestion
   * order, and drops the rest; each becomes the first employee with that id
   * carrying the suggested percentage.
   */
  lemma {:induction false} MapSuggestionsFacts(employees: seq<Employee>, suggestions: seq<Suggestion>)
    ensures var kept := Filter(suggestions, NamesSomebody(employees));
      && |MapSuggestions(employees, suggestions)| == |kept|
      && forall i :: 0 <= i < |kept| ==>
           FindEmployee(employees, kept[i].employeeId).Some? &&
           MapSuggestions(employees, suggestions)[i]
           == Member(FindEmployee(employees, kept[i].employeeId).value, kept[i].percentage)
  {
    if |suggestions| > 0 {
      var n := |suggestions| - 1;
      var front := suggestions[..n];
      MapSuggestionsFacts(employees, front);
      var all := seq(|suggestions|, i requires 0 <= i < |suggestions| => Resolve(employees, suggestions[i]));
      assert all[..n] == seq(|front|, i requires 0 <= i < |front| => Resolve(employees, front[i]));
    }
  }

  // ---------------------------------------------------------------------------
  // Selection

  /** `toggleMember` on the set of ids: remove the id when present, add it otherwise. */
  function Toggle(ids: set<int>, id: int): (r: set<int>)
    ensures id in r <==> id !in ids
    ensures forall x :: x != id ==> (x in r <==> x in ids)
  {
    if id in ids then ids - {id} else ids + {id}
  }

  /** Toggling the same id twice restores the set. */
  lemma ToggleTwice(ids: set<int>, id: int)
    ensures Toggle(Toggle(ids, id), id) == ids
  {
  }

  /** Position k holds the first suggested member with that id. */
  predicate FirstAt(suggested: seq<Member>, id: int, k: int) {
    && 0 <= k < |suggested| && suggested[k].employee.id == id
    && forall j :: 0 <= j < k ==> suggested[j].employee.id != id
  }

  /** `aiSuggestions.find((s) => s.id === id)`: the first suggested member with that id. */
  function FindSuggested(suggested: seq<Member>, id: int): (r: Option<Member>)
    ensures r.None? <==> forall k :: 0 <= k < |suggested| ==> suggested[k].employee.id != id
    ensures r.Some? ==> exists k :: FirstAt(suggested, id, k) && suggested[k] == r.value
  {
    if |suggested| == 0 then None
    else if suggested[0].employee.id == id then Some(suggested[0])
    else
      var r := FindSuggested(suggested[1..], id);
      assert forall k :: 1 <= k < |suggested| ==> suggested[k] == suggested[1..][k - 1];
      if r.Some? then
        var k :| FirstAt(suggested[1..], id, k) && suggested[1..][k] == r.value;
        assert FirstAt(suggested, id, k + 1);
        r
      else r
  }

  /**
   * `suggestion?.matching_percentage || 85`: the percentage of the first
   * suggested member with that id, or 85 when there is none or its
   * percentage is missing or 0.
   */
  function PercentageFor(suggested: seq<Member>, id: int): (r: int)
    ensures (forall k :: 0 <= k < |suggested| ==> suggested[k].employee.id != id) ==> r == 85
    ensures forall k :: FirstAt(suggested, id, k) ==>
      r == OrDefault(suggested[k].matchingPercentage, 85)
  {
    match FindSuggested(suggested, id)
    case None => 85
    case Some(m) =>
      var k :| FirstAt(suggested, id, k) && suggested[k] == m;
      FirstIsUnique(suggested, id, k);
      OrDefault(m.matchingPercentage, 85)
  }

  /** The first position of an id is unique. */
  lemma FirstIsUnique(suggested: seq<Member>, id: int, k: int)
    requires FirstAt(suggested, id, k)
    ensures forall i :: FirstAt(suggested, id, i) ==> i == k
  {
  }

  function IsSelected(ids: set<int>): Employee -> bool {
    (e: Employee) => e.id in ids
  }

  /** The list handed to `onSelect`: the selected employees in list order, with a percentage. */
  function SelectedList(employees: seq<Employee>, ids: set<int>, suggested: seq<Member>): seq<Member> {
    if |employees| == 0 then []
    else
      var e := employees[|employees| - 1];
      SelectedList(employees[..|employees| - 1], ids, suggested)
        + (if e.id in ids then [Member(e, Some(PercentageFor(suggested, e.id)))] else [])
  }

  /**
   * The list is exactly the employees whose id is selected, in employee
   * order, each with its suggested percentage, or 85 when it was not
   * suggested or its percentage is missing or 0.
   */
  lemma {:induction false} SelectedListFacts(employees: seq<Employee>, ids: set<int>, suggested: seq<Member>)
    ensures var chosen := Filter(employees, IsSelected(ids));
      && |SelectedList(employees, ids, suggested)| == |chosen|
      && forall i :: 0 <= i < |chosen| ==>
           SelectedList(employees, ids, suggested)[i] == Member(chosen[i], Some(PercentageFor(suggested, chosen[i].id)))
  {
    if |employees| > 0 {
      SelectedListFacts(employees[..|employees| - 1], ids, suggested);
    }
  }

  /** The ids of the suggested employees. */
  function SuggestedIds(suggested: seq<Member>): (r: set<int>)
    ensures forall id :: id in r <==> exists k :: 0 <= k < |suggested| && suggested[k].employee.id == id
  {
    set k | 0 <= k < |suggested| :: suggested[k].employee.id
  }

  // ---------------------------------------------------------------------------
  // Suggested-first ordering

  /** 1 for a suggested employee, 0 otherwise: the comparator is the difference of these keys. */
  function SuggestedKey(suggested: seq<Member>): Employee -> int {
    (e: Employee) => if FindSuggested(suggested, e.id).Some? then 1 else 0
  }

  /** `sortedEmployees`. */
  function SortedEmployees(filtered: seq<Employee>, suggested: seq<Member>): seq<Employee> {
    SortDesc(filtered, SuggestedKey(suggested))
  }

  /**
   * The ordering is a permutation of the filtered list that lists the
   * suggested employees first and then the others, each group in its
   * original order.
   */
  lemma SortedEmployeesFacts(filtered: seq<Employee>, suggested: seq<Member>)
    ensures multiset(SortedEmployees(filtered, suggested)) == multiset(filtered)
    ensures SortedEmployees(filtered, suggested)
         == WithKey(filtered, SuggestedKey(suggested), 1) + WithKey(filtered, SuggestedKey(suggested), 0)
  {
    var key := SuggestedKey(suggested);
    var sorted := SortDesc(filtered, key);
    SortDescFacts(filtered, key);
    assert forall i :: 0 <= i < |sorted| ==> key(sorted[i]) == 0 || key(sorted[i]) == 1;
    SortedTwoKeys(sorted, key);
  }

  // ---------------------------------------------------------------------------
  // The component's state

  class MemberPicker {
    const employees: seq<Employee>
    var selectedIds: set<int>
    var aiSuggestions: seq<Member>
    var activeTab: string

    /** The selection starts from the members the wizard already holds. */
    constructor(employees: seq<Employee>, selectedMembers: seq<Member>)
      ensures this.employees == employees
      ensures selectedIds == set k | 0 <= k < |selectedMembers| :: selectedMembers[k].employee.id
      ensures aiSuggestions == [] && activeTab == "members"
    {
      this.employees := employees;
      selectedIds := set k | 0 <= k < |selectedMembers| :: selectedMembers[k].employee.id;
      aiSuggestions := [];
      activeTab := "members";
    }

    /** The suggestions arrive; an empty answer leaves the earlier ones in place. */
    method ReceiveSuggestions(suggestions: seq<Suggestion>)
      modifies this
      ensures aiSuggestions == if |suggestions| > 0 then MapSuggestions(employees, suggestions) else old(aiSuggestions)
      ensures selectedIds == old(selectedIds) && activeTab == old(activeTab)
    {
      if |suggestions| > 0 {
        aiSuggestions := MapSuggestions(employees, suggestions);
      }
    }

    /**
     * `toggleMember`: flips the employee's id and returns the list handed to
     * the wizard; the first selection switches from the members tab to the
     * skills tab.
     */
    method ToggleMember(employee: Employee) returns (selected: seq<Member>)
      modifies this
      ensures selectedIds == Toggle(old(selectedIds), employee.id)
      ensures selected == SelectedList(employees, selectedIds, aiSuggestions)
      ensures aiSuggestions == old(aiSuggestions)
      ensures activeTab == if |selected| > 0 && old(activeTab) == "members" then "skills" else old(activeTab)
    {
      selectedIds := Toggle(selectedIds, employee.id);
      selected := SelectedList(employees, selectedIds, aiSuggestions);
      if |selected| > 0 && activeTab == "members" {
        activeTab := "skills";
      }
    }

    /**
     * `selectAllSuggested`: without suggestions nothing happens (None);
     * otherwise the selection becomes exactly the suggested ids and the
     * skills tab opens.
     */
    method SelectAllSuggested() returns (selected: Option<seq<Member>>)
      modifies this
      ensures |old(aiSuggestions)| == 0 ==>
                selected == None && selectedIds == old(selectedIds) && activeTab == old(activeTab)
      ensures |old(aiSuggestions)| > 0 ==>
                && selectedIds == SuggestedIds(aiSuggestions)
                && selected == Some(SelectedList(employees, selectedIds, aiSuggestions))
                && activeTab == "skills"
      ensures aiSuggestions == old(aiSuggestions)
    {
      if |aiSuggestions| == 0 {
        return None;
      }
      selectedIds := SuggestedIds(aiSuggestions);
      selected := Some(SelectedList(employees, selectedIds, aiSuggestions));
      activeTab := "skills";
    }
  }

  /** After "select all suggested", the list handed back holds exactly the suggested employees. */
  lemma SelectAllChoosesSuggested(employees: seq<Employee>, suggested: seq<Member>, e: Employee)
    ensures e in Filter(employees, IsSelected(SuggestedIds(suggested)))
        <==> e in employees && exists k :: 0 <= k < |suggested| && suggested[k].employee.id == e.id
  {
    FilterMember(employees, IsSelected(SuggestedIds(suggested)), e);
  }
}
