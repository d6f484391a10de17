# Team-fit scoring and team-builder rules, modelled in Dafny

This project models the rule-bearing core of a team-building web application.
In the application, employees are rated against five fixed team types: NET ZERO,
Private Equity, Board Directors, Global Mindset and Future Capabilities. Teams
are put together in a three-step wizard, and the resulting rosters are analysed.
Each rule is stated as Dafny functions, methods and classes, and the properties
the code promises are proved about them.

The modelled parts:

- **The criteria catalogue and the two scoring functions** (`lib/team-criteria.ts`)
  - `calculateTeamFit` scores one employee against a team type. It gives priority-weighted skill points and rank-weighted trait points, rounded to percentages and mixed 70/30.
  - `calculateTeamComposition` infers a team type from the team's description. It pools the members' skills and traits, and measures how many required skills and traits the pool covers.
  - Module `TeamCriteria`.
- **The employee profile page** (`components/employee-profile.tsx`)
  - Parsing `sorted_traits`, and the fifteen-column fallback list.
  - Grouping skills by main category.
  - Ranking the five team types.
  - The top-five and top-three slices.
  - The trait description lookup.
  - Module `EmployeeProfile`.
- **The CSV reader of the seeding script** (`scripts/seed-database.tsx`). Module `Csv`.
- **The wizard's state and its save step** (`components/team-builder/stepper.tsx`). Module `Stepper`, class `TeamBuilder`.
- **The member-selection step** (`components/team-builder/team-member-selection.tsx`)
  - The search filter.
  - Resolving AI suggestions to employees.
  - The selected-id set with its toggle and "select all suggested".
  - The list handed back to the wizard.
  - The suggested-first order.
  - Module `MemberSelection`, class `MemberPicker`.
- **The saved team's personality balance and skills analysis** (`components/teams/team-personality-balance.tsx`, `components/teams/team-skills-analysis.tsx`). Modules `PersonalityBalance` and `SkillsAnalysis`.

Shared modules:

- `Records` holds the database rows as the components receive them. A personality field is absent, a single record, or a list of records.
- `Text` holds the JavaScript string built-ins the code relies on: `toLowerCase`, `includes`, `split`, `trim`, `join` and `parseInt`.
- `JsObject` holds plain objects used as dictionaries: insertion-ordered keys, and lookups that fall through to `Object.prototype`.
- `Sorting` holds `Array.prototype.sort` with a `(a, b) => key(b) - key(a)` comparator, as a stable sort, and `slice`.
- `Sequences` holds order-keeping filters and unions.

Arithmetic:

- `Math.round(x / d * 100)` for whole x is modelled exactly as `(200x + d) / (2d)`, through `TeamCriteria.Round`.
- `Math.round(a * 0.7 + b * 0.3)` is `TeamCriteria.Weighted`, i.e. `(7a + 3b + 5) / 10`.
- Loops in the source (`forEach` and `for`, bumping counters and pushing onto arrays) are Dafny methods with loop invariants. Each is proved equal to a specification function.
- Pure pipelines (`filter`, `map`, `sort`, `slice`) are functions.
- Facts are proved as lemmas about those functions.

One credited priority-1 skill for NET ZERO is 25 of its 75 skill points, a skill fit of `Math.round(33.33…)` = 33, as `TeamCriteria.ClimateScenario` states.

## Model

| member | source | states |
|---|---|---|
| TeamCriteria.CatalogueWellFormed | lib/team-criteria.ts:2-268 | the catalogue has exactly the five team types; each has five required skills with priorities 1 to 5 in order and distinct names, and three distinct traits |
| TeamCriteria.Lookup | lib/team-criteria.ts:284 | an own-property lookup finds criteria exactly for the five team names, and what it finds is well formed |
| TeamCriteria.MaxPoints | lib/team-criteria.ts:322-350 | the two `reduce` maxima are 75 skill points and 60 trait points for every team type |
| TeamCriteria.TeamFit | lib/team-criteria.ts:284-294 | a name that is not a team type yields the all-zero result with empty lists |
| TeamCriteria.CalculateTeamFit | lib/team-criteria.ts:271-365 | the loops over required skills and traits build exactly the result of `TeamFit` |
| TeamCriteria.TeamFitSkills | lib/team-criteria.ts:304-323 | matched and missing skills split the required names in order; a skill is matched iff some employee skill's name contains it, or its category contains the required category (case-insensitive); skillFit is in [0,100], 100 iff nothing is missing, 0 iff nothing is matched |
| TeamCriteria.NoSkillsNoFit | lib/team-criteria.ts:306-319 | an employee without skills matches nothing, misses every required skill and has skillFit 0 |
| TeamCriteria.TeamFitPersonality | lib/team-criteria.ts:331-351 | matched and missing traits split the three traits in order; a trait is matched iff top, second or sorted traits contain it; personalityFit is in [0,100], 100 iff nothing is missing, 0 iff nothing is matched, and at most 98 when below 100; a missing record or a list of records gets 0 and misses all three |
| TeamCriteria.TeamFitOverall | lib/team-criteria.ts:354 | overallFit lies between skillFit and personalityFit, and is 100 iff the name is a team type and no skill or trait is missing |
| TeamCriteria.WeightedBetween | lib/team-criteria.ts:354 | the 70/30 rounding stays between its two inputs and is 100 iff the skill part is 100 and the trait part at least 99 |
| TeamCriteria.RoundPercent | lib/team-criteria.ts:323-489 | a rounded percentage of p out of m (m among 3, 5, 15, 60, 75) is in [0,100], 100 iff p = m, 0 iff p = 0 |
| TeamCriteria.RoundMonotone | lib/team-criteria.ts:323-351 | more points never give a lower percentage |
| TeamCriteria.SkillMatched | lib/team-criteria.ts:312-318 | a name is in the matched list iff a required skill with that name is held |
| TeamCriteria.TraitMembership | lib/team-criteria.ts:340-346 | a trait is in the matched list iff it is required and held, and in the missing list iff required and not held |
| TeamCriteria.TraitMatched | lib/team-criteria.ts:340-346 | a trait is in the matched list iff it is one of the required traits and is held |
| TeamCriteria.TraitMissed | lib/team-criteria.ts:340-346 | a trait is in the missing list iff it is one of the required traits and is not held |
| TeamCriteria.ScoreSkills | lib/team-criteria.ts:304-319 | the loop over required skills accumulates exactly the skill points, matched names and missing names of the specification functions |
| TeamCriteria.ScoreTraits | lib/team-criteria.ts:331-347 | the loop over required traits accumulates exactly the trait points, matched traits and missing traits of the specification functions |
| TeamCriteria.CriteriaSkills | lib/team-criteria.ts:304-323 | for any well-formed criteria the maximum is 75 points; matched and missing split the required names in order, each by whether the skill is held; the rounded percentage is in [0,100], 100 iff nothing is missing and 0 iff nothing is matched |
| TeamCriteria.CriteriaTraits | lib/team-criteria.ts:331-351 | for any well-formed criteria the maximum is 60 points; matched and missing split the traits in order, each by whether it is held; the percentage is in [0,100], 100 iff nothing is missing, 0 iff nothing is matched, at most 98 below 100, and 0 with all traits missing without a single personality record |
| TeamCriteria.TopSkillCredited | lib/team-criteria.ts:304-323 | holding a team type's priority-1 skill matches it and gives a skillFit of at least 33 |
| TeamCriteria.TopTraitCredited | lib/team-criteria.ts:331-351 | holding a team type's first trait matches it and gives a personalityFit of at least 50 |
| TeamCriteria.ClimateScenario | lib/team-criteria.ts:3-351 | an employee holding "Climate Strategy & Carbon Accounting" with top personality "Conceptual" has both matched for NET ZERO, skillFit at least 33 and personalityFit at least 50 |
| TeamCriteria.TeamFitAsWritten | lib/team-criteria.ts:284-296 | as written, the truthiness guard lets a name inherited from `Object.prototype` through and the skill loop then throws; exactly those names throw, other names return `TeamFit` |
| TeamCriteria.ConstructorTeamName | lib/team-criteria.ts:284-304 | the team name "constructor" throws as written, while the corrected model returns the zero result |
| TeamCriteria.KeywordNames | lib/team-criteria.ts:393-399 | the keyword table lists the five team types in catalogue order |
| TeamCriteria.InferTeam | lib/team-criteria.ts:390-410 | the inferred name is always a catalogued team type |
| TeamCriteria.InferPicksFirstMax | lib/team-criteria.ts:402-410 | the team type with the most keyword hits wins, ties going to the earliest in table order |
| TeamCriteria.InferDefault | lib/team-criteria.ts:390 | a description with no keyword hit gives NET ZERO |
| TeamCriteria.InferTeamName | lib/team-criteria.ts:402-410 | the keyword-counting loop returns `InferTeam` |
| TeamCriteria.TeamComposition | lib/team-criteria.ts:379-387 | no team, no member list or an empty member list gives the all-zero composition |
| TeamCriteria.CalculateTeamComposition | lib/team-criteria.ts:368-501 | the pooling and coverage loops compute exactly `TeamComposition` |
| TeamCriteria.PoolSkills | lib/team-criteria.ts:429-436 | the skill pool loop collects exactly `SkillPool` |
| TeamCriteria.PoolTraits | lib/team-criteria.ts:438-453 | the personality pool loop collects exactly `TraitPool` |
| TeamCriteria.SkillPoolMembers | lib/team-criteria.ts:431-436 | a token is pooled iff it is the lower-cased name or non-empty main category of some member's skill |
| TeamCriteria.TraitPoolMembers | lib/team-criteria.ts:439-452 | a token is pooled iff some member's personality record contributes it |
| TeamCriteria.PieceTokensMembers | lib/team-criteria.ts:446-450 | the tokens from `sorted_traits` are exactly the trimmed, lower-cased names before ':' of its comma-separated pieces |
| TeamCriteria.SortedTraitsPooled | lib/team-criteria.ts:446-450 | every piece of a truthy `sorted_traits` contributes its trait token |
| TeamCriteria.CompositionSkills | lib/team-criteria.ts:455-472 | skillCoverage is 20 per covered skill; covered count plus missing is 5; covered and missing split the required names in order; a skill is missing iff no pooled token covers it; 100 iff nothing is missing |
| TeamCriteria.CompositionTraits | lib/team-criteria.ts:474-489 | personalityCoverage is the rounded share of the three traits covered; covered plus missing is 3; the lists split the traits in order; 100 iff nothing is missing |
| TeamCriteria.CriteriaCoverSkills | lib/team-criteria.ts:455-472 | for any token pool and well-formed criteria the coverage is 20 per covered skill, covered plus missing is 5, the lists split the names in order and a skill is missing iff not covered; 100 iff nothing is missing |
| TeamCriteria.CriteriaCoverTraits | lib/team-criteria.ts:474-489 | for any token pool and well-formed criteria covered plus missing is 3, the lists split the traits in order and a trait is missing iff not covered; the coverage is in [0,100], 100 iff nothing is missing |
| TeamCriteria.CompositionOverall | lib/team-criteria.ts:492 | overallFit lies between the two coverages and is 100 iff there is a team and members and nothing is missing |
| TeamCriteria.EmptySkillNameCoversAll | lib/team-criteria.ts:460-462 | a member skill with an empty name puts "" in the pool, which every category contains, so all five skills count as covered |
| EmployeeProfile.ParseTraitPiece | components/employee-profile.tsx:72-75 | the name is a ':'-free prefix of the piece, ending the piece or followed by ':'; a piece without ':' is all name, with value 0 |
| EmployeeProfile.ParseSortedTraits | components/employee-profile.tsx:71-75 | one parsed trait per ", "-separated piece, in order; trait i is named by a ':'-free prefix of piece i that ends the piece or is followed by ':', and a piece without ':' gives its whole text with value 0 |
| EmployeeProfile.PieceRoundTrip | components/employee-profile.tsx:72-74 | a "name: value" piece parses back to that name and value |
| EmployeeProfile.ParseFormatRoundTrip | components/employee-profile.tsx:71-75 | traits written as "Name: value" pieces joined by ", " parse back to the same list, for names without ':' or ',' and values at least 0 |
| EmployeeProfile.ManualTraitsFacts | components/employee-profile.tsx:82-99 | the fallback list is the fifteen columns in order with every value not above 0 dropped; no record gives an empty list |
| EmployeeProfile.NoneAllZero | components/employee-profile.tsx:99 | a list whose values are all 0 filters to nothing |
| EmployeeProfile.WrappedUsesFirst | components/employee-profile.tsx:66-69 | a list of records is read as its first record; an empty list gives no traits |
| EmployeeProfile.GroupSkillsByCategory | components/employee-profile.tsx:109-128 | the grouping loop builds exactly `SkillGroups` |
| EmployeeProfile.CountRow | components/employee-profile.tsx:113-125 | one row creates its group when missing, then adds 1 and its skill name |
| EmployeeProfile.GroupKeys | components/employee-profile.tsx:110-126 | the groups' keys are the categories met, in first-seen order |
| EmployeeProfile.GroupsContent | components/employee-profile.tsx:112-128 | each group is named by its category, with a value equal to its number of skill names, and those names are that category's rows in order |
| EmployeeProfile.GroupsCoverCategories | components/employee-profile.tsx:112-128 | every category met has a group, and group names are distinct |
| EmployeeProfile.GroupsTotal | components/employee-profile.tsx:112-128 | group values add up to the number of rows with a truthy category |
| EmployeeProfile.GroupFoldHas | components/employee-profile.tsx:110-126 | the grouping has a group exactly for the categories met |
| EmployeeProfile.OneRowGroups | components/employee-profile.tsx:110-128 | a single row with a category gives one group of that category, with count 1 and the row's skill name |
| EmployeeProfile.AddToGroupAsWritten | components/employee-profile.tsx:113-123 | as written, one step throws iff the row's category has no group and is named like an `Object.prototype` member; otherwise it is the intended step |
| EmployeeProfile.GroupingAsWrittenFacts | components/employee-profile.tsx:110-126 | as written, the grouping loop throws iff some row's category is named like an `Object.prototype` member; otherwise it builds the intended dictionary |
| EmployeeProfile.SkillGroupsAsWrittenFacts | components/employee-profile.tsx:107-128 | as written, the chart data is a TypeError iff some category is named like an `Object.prototype` member, and otherwise the intended groups |
| EmployeeProfile.ConstructorCategory | components/employee-profile.tsx:113-123 | a skill in category "constructor": the intended grouping is one group of that name, the code as written throws |
| EmployeeProfile.JoinedSkillsMembers | components/employee-profile.tsx:54-57 | the fetched employee's skills are exactly the joined skills of its skill rows |
| EmployeeProfile.JoinedHasSkill | components/employee-profile.tsx:54-57 | the fetched employee holds a required skill iff some row's joined skill credits it |
| EmployeeProfile.ProfileSkillFit | components/employee-profile.tsx:54-135 | scoring the fetched employee: a required skill is matched iff some row's joined skill credits it, and the personality part is that of the employee record |
| EmployeeProfile.ProfileRanking | components/employee-profile.tsx:54-143 | every entry of the profile's ranking is the fetched employee's fit against a catalogued team type, under that type's name |
| EmployeeProfile.RankingFacts | components/employee-profile.tsx:132-143 | the ranking has five entries, sorted by non-increasing overall fit, a permutation of the five fits, with equal fits kept in team-type order (a stable sort) |
| EmployeeProfile.RankingEntries | components/employee-profile.tsx:132-143 | every ranked entry is one of the five fits and every fit is ranked; the first entry, shown as the best fit, has the largest overall fit |
| Sorting.SortDescFacts | components/employee-profile.tsx:141 | the descending sort is sorted, a permutation of its input, and stable: for each key the elements with that key keep their input order |
| Sorting.SortMembers | components/employee-profile.tsx:141 | the sort holds exactly the elements of its input |
| Sorting.SortFirstIsMax | components/employee-profile.tsx:141 | no input element has a larger key than the first element of the sort |
| Sorting.TopN | components/employee-profile.tsx:190 | the first n of the sort: min(n, length) elements, sorted, drawn from the input, and none left out has a larger key than one kept |
| EmployeeProfile.TopTraits | components/employee-profile.tsx:190 | at most five traits, sorted by value, drawn from the list, none left out above any kept |
| EmployeeProfile.TopCategories | components/employee-profile.tsx:193 | at most three groups, sorted by value, drawn from the groups, none left out above any kept |
| EmployeeProfile.PersonalityDescription | components/employee-profile.tsx:562-585 | a trait whose lower-case form is one of the fifteen columns gets its own sentence, which differs from the default; any other gets the default sentence |
| EmployeeProfile.DescriptionKeys | components/employee-profile.tsx:563-579 | the descriptions cover exactly the fifteen columns, each with a non-empty sentence that differs from the default |
| EmployeeProfile.DescriptionIgnoresCase | components/employee-profile.tsx:582 | trait names that lower-case alike get the same description |
| EmployeeProfile.DescriptionAsWritten | components/employee-profile.tsx:582-584 | as written, the lookup returns a non-string exactly for names that lower-case to "constructor" or "__proto__", and otherwise agrees with `PersonalityDescription` |
| EmployeeProfile.LowerNeverPrototype | components/employee-profile.tsx:582-584 | a lower-cased name is an inherited `Object.prototype` member iff it is "constructor" or "__proto__" |
| EmployeeProfile.ConstructorDescription | components/employee-profile.tsx:582-584 | "Constructor" yields a non-string as written and the default sentence in the corrected model |
| Csv.ParseLine | scripts/seed-database.tsx:256-274 | the character loop yields exactly the fields `LineFields` defines |
| Csv.ParseCsv | scripts/seed-database.tsx:252-276 | one row per '\n'-separated line, each that line's fields |
| Csv.RowCount | scripts/seed-database.tsx:253-254 | the number of rows is the number of '\n' plus one; the empty text gives one row with one empty field |
| Csv.ParseJoinedLines | scripts/seed-database.tsx:253-254 | lines without '\n' joined by '\n' read back line by line |
| Csv.FieldCount | scripts/seed-database.tsx:265-273 | a line has one field more than it has commas outside quote mode |
| Csv.NoQuoteInFields | scripts/seed-database.tsx:263-264 | no field contains '"' |
| Csv.FieldsConcat | scripts/seed-database.tsx:260-273 | the fields concatenated are the line without its quotes and separator commas; commas inside quotes stay in their field |
| Csv.JoinFieldsWithoutQuotes | scripts/seed-database.tsx:260-273 | for a line without '"', joining the fields with ',' gives the line back |
| Csv.QuotedRoundTrip | scripts/seed-database.tsx:260-273 | fields without '"', each wrapped in quotes and joined by ',', read back as the same fields, commas included |
| Stepper.StepsStayInRange | components/team-builder/stepper.tsx:134-173 | going forward or back keeps the step in [0, 2] |
| Stepper.NextThenBack | components/team-builder/stepper.tsx:140-173 | going forward moves at most one step. It moves exactly when the step is not the last, step 0 has a team and a leader, and step 1 has a member; going back then returns to the step before |
| Stepper.TeamBuilder.constructor | components/team-builder/stepper.tsx:28-33 | the wizard opens on step 0 with nothing selected |
| Stepper.TeamBuilder.HandleNext | components/team-builder/stepper.tsx:140-169 | the step becomes `NextStep` of the old state; nothing else changes |
| Stepper.TeamBuilder.HandleBack | components/team-builder/stepper.tsx:171-173 | the step becomes max(step - 1, 0); nothing else changes |
| Stepper.TeamBuilder.SelectTeam | components/team-builder/stepper.tsx:175-178 | only the selected team changes |
| Stepper.TeamBuilder.SelectLeader | components/team-builder/stepper.tsx:180-182 | only the selected leader changes |
| Stepper.TeamBuilder.SelectMembers | components/team-builder/stepper.tsx:184-186 | only the selected members change |
| Stepper.TeamBuilder.SaveTeam | components/team-builder/stepper.tsx:189-227 | the rows written are `SaveRows` of the current selection |
| Stepper.SaveRowsFacts | components/team-builder/stepper.tsx:190-227 | rows are written iff there are a team, a leader and a member. The leader's row comes first, as leader at 100. Member i is row i + 1, not a leader, at its percentage or 85 when that is missing or 0. Every row names the team |
| MemberSelection.SearchFilterFacts | components/team-builder/team-member-selection.tsx:61-74 | an empty term keeps every employee; any other keeps, in order, exactly those whose name, job title or Belbin role contains it case-insensitively |
| MemberSelection.SearchIgnoresCase | components/team-builder/team-member-selection.tsx:67-69 | terms that lower-case alike select the same employees |
| MemberSelection.FindEmployee | components/team-builder/team-member-selection.tsx:147 | finds the first employee with the id, and none exactly when no employee has it |
| MemberSelection.MapSuggestionsFacts | components/team-builder/team-member-selection.tsx:145-157 | suggestions naming no employee are dropped; the rest keep their order, each becoming the employee carrying the suggested percentage |
| MemberSelection.Toggle | components/team-builder/team-member-selection.tsx:420-426 | the id's membership flips and every other id keeps its membership |
| MemberSelection.ToggleTwice | components/team-builder/team-member-selection.tsx:419-428 | toggling the same employee twice restores the set |
| MemberSelection.FindSuggested | components/team-builder/team-member-selection.tsx:435 | none iff no suggested member has the id; otherwise the first suggested member with that id |
| MemberSelection.PercentageFor | components/team-builder/team-member-selection.tsx:435-438 | the percentage of the first suggested member with that id, or 85 when there is none or its percentage is missing or 0 |
| MemberSelection.SelectedListFacts | components/team-builder/team-member-selection.tsx:431-440 | the list handed back holds exactly the selected employees in employee order, each with `PercentageFor` |
| MemberSelection.SelectAllChoosesSuggested | components/team-builder/team-member-selection.tsx:456-457 | after "select all suggested", an employee is handed back iff it is suggested |
| MemberSelection.SortedEmployeesFacts | components/team-builder/team-member-selection.tsx:478-485 | a permutation of the filtered list: the suggested employees in their order, then the others in theirs |
| MemberSelection.MemberPicker.constructor | components/team-builder/team-member-selection.tsx:37-58 | the selected ids start as the ids of the wizard's members, with no suggestions and the members tab open |
| MemberSelection.MemberPicker.ReceiveSuggestions | components/team-builder/team-member-selection.tsx:143-209 | a non-empty answer replaces the suggestions with the mapped suggested employees, an empty one leaves them; the selection is unchanged |
| MemberSelection.MemberPicker.ToggleMember | components/team-builder/team-member-selection.tsx:419-448 | the id is toggled, and the returned list is `SelectedList` of the new set; a non-empty list moves the members tab to the skills tab |
| MemberSelection.MemberPicker.SelectAllSuggested | components/team-builder/team-member-selection.tsx:450-475 | without suggestions nothing changes and nothing is handed back; otherwise the set becomes the suggested ids, their list is handed back and the skills tab opens |
| PersonalityBalance.CountTraits | components/teams/team-personality-balance.tsx:71-87 | the loop leaves, for each column, the number of members with a numeric score for it, and keys only for columns some member scores |
| PersonalityBalance.AddMemberScores | components/teams/team-personality-balance.tsx:79-84 | one member adds 1 to each column it has a score for |
| PersonalityBalance.TallyRoles | components/teams/team-personality-balance.tsx:108-122 | the loop builds exactly the tally of the members' truthy Belbin roles |
| PersonalityBalance.ComputeBalance | components/teams/team-personality-balance.tsx:21-129 | the effect's body computes exactly `BalanceOf` |
| PersonalityBalance.TraitCountPositive | components/teams/team-personality-balance.tsx:79-84 | a column's count is positive iff some member has a score for it |
| PersonalityBalance.PresentIffScored | components/teams/team-personality-balance.tsx:79-104 | a trait is present iff some member has a numeric score for it, 0 included, and missing iff none has |
| PersonalityBalance.PresentMissingSplit | components/teams/team-personality-balance.tsx:99-104 | present and missing split the fifteen columns in order, so their sizes add up to 15 |
| PersonalityBalance.CoverageBounds | components/teams/team-personality-balance.tsx:100 | coverage is in [0,100], 100 iff nothing is missing, 0 iff nothing is present |
| PersonalityBalance.BelbinSum | components/teams/team-personality-balance.tsx:110-126 | the Belbin counts add up to the number of roster members with a truthy role |
| PersonalityBalance.BelbinCounts | components/teams/team-personality-balance.tsx:117-120 | each role's count is the number of members holding it, and only roles held get a key |
| PersonalityBalance.EmptyRoster | components/teams/team-personality-balance.tsx:23-28 | with no leader and no member the initial state (coverage 0, empty lists) remains |
| PersonalityBalance.SameRecordsSameBalance | components/teams/team-personality-balance.tsx:73-115 | rosters whose members resolve to the same records get the same presence, missing list, coverage and roles, so a list of records acts as its first record |
| SkillsAnalysis.MemberIdsFacts | components/teams/team-skills-analysis.tsx:41 | the ids fetched for are the non-zero ids of the leader, when there is one, and of the members |
| SkillsAnalysis.NoMembersNothing | components/teams/team-skills-analysis.tsx:41-46 | with no truthy id nothing is computed |
| SkillsAnalysis.TallyCategories | components/teams/team-skills-analysis.tsx:67-74 | the loop builds exactly the tally of the rows' truthy main categories |
| SkillsAnalysis.CategoryTallyFacts | components/teams/team-skills-analysis.tsx:67-80 | the counts add up to the number of rows whose skill has a main category; a category has a key iff some row has it, and its count is its number of occurrences |
| SkillsAnalysis.MissingFacts | components/teams/team-skills-analysis.tsx:85-88 | missing skills are exactly the catalogue skills whose id is on no team row, in catalogue order |
| SkillsAnalysis.CoverageFacts | components/teams/team-skills-analysis.tsx:93 | coverage is defined iff there is a row or a missing skill; it is in [0,100], 100 when nothing is missing, 0 when the team has no rows; duplicate rows count |
| SkillsAnalysis.TallyMissing | components/teams/team-skills-analysis.tsx:97-103 | the loop builds exactly the tally of the missing skills' category keys, a null category counting as "null" |
| SkillsAnalysis.MissingByCategorySum | components/teams/team-skills-analysis.tsx:97-103 | the per-category missing counts add up to the number of missing skills |
| SkillsAnalysis.MissingKeysAreKeys | components/teams/team-skills-analysis.tsx:97-103 | the keys counted are the keys of the missing skills, one for one and in catalogue order |
| SkillsAnalysis.MissingTallyCounts | components/teams/team-skills-analysis.tsx:97-103 | a category has a missing count iff some missing skill has it as key, and the count is its number of occurrences among their keys |
| SkillsAnalysis.GapsFacts | components/teams/team-skills-analysis.tsx:106-112 | at most five gaps, sorted by non-increasing count, drawn from the per-category counts, none left out above any kept |
| SkillsAnalysis.Analyze | components/teams/team-skills-analysis.tsx:41-114 | the effect's computation yields exactly `AnalysisOf` |

## Left out

- Network and store I/O are not modelled; their results are parameters of the model. This covers the database queries and upserts, the deletion of a team's old rows before saving, errors raised by the store, and the calls to the language-model service and its fallbacks.
- React scheduling, toasts, router navigation, loading flags and the progress bar are not modelled.
- The wizard's URL preselection and its AI leader suggestion (components/team-builder/stepper.tsx:41-132) are not modelled. They are effects that feed the same select handlers.
- The member step's composition analysis and charts (components/team-builder/team-member-selection.tsx:226-417) are outside the modelled core. So is mock-data detection by message text.
- Floating-point division is replaced by exact rationals:
  - For the team-fit and composition percentages (denominators 3, 5, 15, 60, 75) no exact value is a tie at .5, so rounding agrees.
  - SkillsAnalysis.CoverageFacts: `E / (E + M) * 100` in binary floating point could, on an exact .5 tie, land just below it and round down. The model rounds the exact value.
- The personality balance's trait sums and averages (components/teams/team-personality-balance.tsx:81, 90-96) are floating-point and are not modelled. Only the counts and presence are.
- `toLowerCase` folds only ASCII letters here; the source folds all of Unicode.
- `parseInt` works on unbounded integers here; the source uses doubles, so very long digit strings lose precision there.
- Object key order follows insertion. JavaScript lists integer-like keys first; for a category or role named like "12", the source's chart order would differ.
- The `(d[k] || 0) + 1` tallies (components/teams/team-personality-balance.tsx:82 and 119, components/teams/team-skills-analysis.tsx:72 and 101) treat a key named like an `Object.prototype` member (a category or role "constructor") as a fresh key. In the source `d[k]` reads the inherited member there, and the count that results is not a number. The profile's grouping throws on such a category instead; that case is a finding below.
- EmployeeProfile.JoinedSkills: a skill row whose joined skill is null is dropped. The source keeps the null in the list, and `calculateTeamFit` then throws on it.
- TeamCriteria.TeamComposition: a null team description is not modelled (description is a string). In the source `toLowerCase` would throw on it.
- TeamCriteria.TeamComposition: the second "no criteria" guard (lib/team-criteria.ts:413-421) can never fire, because the inferred name is always catalogued. It is absent from the model.
- MemberSelection.BelbinText: a list-shaped personality has no `belbin_role`, so the search sees "" for it. The model does this too.
- Stepper.TeamBuilder.SaveTeam: the rows are what is written. How the store merges a leader who is also listed as a member is not modelled.
- The explanation texts of suggestions, and the personality chart data, are not modelled.
- EmployeeProfile.FormatTraits is a reference writer for the "Name: value, …" format the parser reads; the application itself never writes that format.

## Findings

| source | as written | input that shows it | evidently intended | confidence | as-written member | corrected member |
|---|---|---|---|---|---|---|
| lib/team-criteria.ts:284-304 | `!teamCriteria[teamName]` finds members inherited from `Object.prototype`, so the guard lets them through and `criteria.skills.forEach` throws a TypeError | team name "constructor" | names that are not team types return the zero result | not executed | TeamCriteria.ConstructorTeamName | TeamCriteria.TeamFit |
| components/employee-profile.tsx:582-584 | `descriptions[traitLower]` finds inherited members, so the function returns a function or an object instead of a string | trait name "Constructor" (also "__proto__") | every unknown trait gets the default sentence | not executed | EmployeeProfile.ConstructorDescription | EmployeeProfile.PersonalityDescription |
| components/employee-profile.tsx:113-123 | `!skillsByCategory[category]` reads an inherited, truthy member for a category named like an `Object.prototype` member, so no group is made and `.skills.push` throws a TypeError; the catch at lines 145-147 then shows the load error instead of the profile | a skill whose main category is "constructor" | such a category gets its own group like any other | not executed | EmployeeProfile.ConstructorCategory | EmployeeProfile.GroupsCoverCategories |
