/**
 * The rows the core reads from the relational store, as the components
 * receive them. Optional columns are `Option`s; JavaScript truthiness of
 * a string column (present and non-empty) is `Filled`.
 */
module Records {
  import opened Wrappers

  /** A row of `skills`. */
  datatype Skill = Skill(id: int, name: string, mainCategory: Option<string>)

  /**
   * A row of `personality_traits`. `scores` holds the fifteen numeric trait
   * columns that hold a number, keyed by lower-case column name.
   */
  datatype Traits = Traits(
    topPersonality: Option<string>,
    secondPersonality: Option<string>,
    sortedTraits: Option<string>,
    belbinRole: Option<string>,
    scores: map<string, int>)

  /**
   * The `personality_traits` member of an employee as the join returns it:
   * missing, a single record, or a list of records.
   */
  datatype PersonalityField = NoRecord | Single(traits: Traits) | Wrapped(list: seq<Traits>)

  /** A row of `employees` with its skills and personality joined in. */
  datatype Employee = Employee(
    id: int,
    name: string,
    jobTitle: string,
    skills: Option<seq<Skill>>,
    personality: PersonalityField)

  /** A row of `employee_skills` with its `skills` row joined in. */
  datatype EmployeeSkill = EmployeeSkill(employeeId: int, skillId: int, skill: Option<Skill>)

  /** A row of `teams`. */
  datatype Team = Team(id: int, name: string, description: string)

  /** A selected team member: the employee and the `matching_percentage` attached to it. */
  datatype Member = Member(employee: Employee, matchingPercentage: Option<int>)

  /** A string column is truthy when it holds a non-empty string. */
  predicate Filled(s: Option<string>) {
    s.Some? && s.value != ""
  }

  /**
   * `Array.isArray(p) ? p[0] : p`: the record a component works with after
   * unwrapping a list; an empty list yields no record.
   */
  function Canonical(p: PersonalityField): (r: Option<Traits>)
    ensures p.NoRecord? ==> r.None?
    ensures p.Single? ==> r == Some(p.traits)
    ensures p.Wrapped? ==> (r.Some? <==> |p.list| > 0) && (r.Some? ==> r.value == p.list[0])
  {
    match p
    case NoRecord => None
    case Single(t) => Some(t)
    case Wrapped(list) => if |list| > 0 then Some(list[0]) else None
  }

  /** `value || fallback` for an optional number: missing, 0 (and NaN) are falsy. */
  function OrDefault(value: Option<int>, fallback: int): (r: int)
    ensures value.Some? && value.value != 0 ==> r == value.value
    ensures value.None? || value.value == 0 ==> r == fallback
  {
    if value.Some? && value.value != 0 then value.value else fallback
  }

  /** The fifteen trait columns of `personality_traits`, in the order the components list them. */
  const TraitColumns: seq<string> := [
    "ambition", "assertiveness", "awareness", "composure", "cooperativeness",
    "liveliness", "humility", "drive", "conceptual", "mastery",
    "structure", "flexibility", "positivity", "power", "sensitivity"
  ]
}
