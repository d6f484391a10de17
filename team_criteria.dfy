/**
 * The team-fit scoring library: the catalogue of five team types and the
 * two scorers, one for a single employee against a named team type and one
 * for a roster against the team type its description suggests.
 */
module TeamCriteria {
  import opened Wrappers
  import opened Text
  import opened Records
  import opened Sequences
  import JsObject

  /** A skill a team type asks for; priority 1 matters most. */
  datatype RequiredSkill = RequiredSkill(name: string, category: string, priority: int)

  /** What a team type asks for: five ranked skills and three ranked traits. */
  datatype Criteria = Criteria(skills: seq<RequiredSkill>, traits: seq<string>)

  /** The team types in the order the catalogue declares them. */
  const TeamNames: seq<string> :=
    ["NET ZERO", "Private Equity", "Board Directors", "Global Mindset", "Future Capabilities"]

  const NetZero := Criteria(
    [ RequiredSkill("Climate Strategy & Carbon Accounting", "Sustainability & ESG", 1),
      RequiredSkill("Strategic Thinking", "Business & Strategy", 2),
      RequiredSkill("Collaboration", "Soft Skills", 3),
      RequiredSkill("Data Analytics", "Technology & Digital Skills", 4),
      RequiredSkill("ESG Reporting & Compliance", "Sustainability & ESG", 5) ],
    ["Conceptual", "Structure", "Cooperativeness"])

  const PrivateEquity := Criteria(
    [ RequiredSkill("Analytical", "Soft Skills", 1),
      RequiredSkill("Risk Management", "Business & Strategy", 2),
      RequiredSkill("Financial Acumen", "Business & Strategy", 3),
      RequiredSkill("Decision Making", "Soft Skills", 4),
      RequiredSkill("Collaboration", "Soft Skills", 5) ],
    ["Drive", "Assertiveness", "Awareness"])

  const BoardDirectors := Criteria(
    [ RequiredSkill("Governance", "Business & Strategy", 1),
      RequiredSkill("Strategic Thinking", "Business & Strategy", 2),
      RequiredSkill("Decision Making", "Soft Skills", 3),
      RequiredSkill("Communication Skills", "Soft Skills", 4),
      RequiredSkill("Leadership", "Soft Skills", 5) ],
    ["Composure", "Power", "Structure"])

  const GlobalMindset := Criteria(
    [ RequiredSkill("Cross-Cultural Skills", "Soft Skills", 1),
      RequiredSkill("Language Skills", "Soft Skills", 2),
      RequiredSkill("Client & Stakeholder Management", "Business & Strategy", 3),
      RequiredSkill("Adaptability", "Soft Skills", 4),
      RequiredSkill("Strategic Thinking", "Business & Strategy", 5) ],
    ["Flexibility", "Positivity", "Liveliness"])

  const FutureCapabilities := Criteria(
    [ RequiredSkill("Digital Savvy", "Technology & Digital Skills", 1),
      RequiredSkill("Innovation", "Technology & Digital Skills", 2),
      RequiredSkill("Energy Trading Knowledge", "Sustainability & ESG", 3),
      RequiredSkill("Strategic Thinking", "Business & Strategy", 4),
      RequiredSkill("Problem Solving", "Soft Skills", 5) ],
    ["Ambition", "Conceptual", "Mastery"])

  /** The catalogue `teamCriteria`, keyed by team type name. */
  const Catalogue: map<string, Criteria> := map[
    "NET ZERO" := NetZero,
    "Private Equity" := PrivateEquity,
    "Board Directors" := BoardDirectors,
    "Global Mindset" := GlobalMindset,
    "Future Capabilities" := FutureCapabilities
  ]

  function SkillNames(req: seq<RequiredSkill>): (r: seq<string>)
    ensures |r| == |req| && forall i :: 0 <= i < |req| ==> r[i] == req[i].name
  {
    if |req| == 0 then [] else SkillNames(req[..|req| - 1]) + [req[|req| - 1].name]
  }

  /**
   * The shape every catalogue entry has: five skills with priorities 1..5 in
   * order, three traits, no name listed twice.
   */
  ghost predicate WellFormed(c: Criteria) {
    && |c.skills| == 5
    && (forall i :: 0 <= i < 5 ==> c.skills[i].priority == i + 1)
    && |c.traits| == 3
    && Distinct(SkillNames(c.skills))
    && Distinct(c.traits)
  }

  lemma CatalogueWellFormed()
    ensures Catalogue.Keys == set n | n in TeamNames
    ensures forall n :: n in Catalogue ==> WellFormed(Catalogue[n])
  {
    NetZeroWellFormed();
    PrivateEquityWellFormed();
    BoardDirectorsWellFormed();
    GlobalMindsetWellFormed();
    FutureCapabilitiesWellFormed();
  }

  lemma NetZeroWellFormed()
    ensures WellFormed(NetZero)
  {
    var names := SkillNames(NetZero.skills);
    assert names == [NetZero.skills[0].name, NetZero.skills[1].name, NetZero.skills[2].name,
                     NetZero.skills[3].name, NetZero.skills[4].name];
  }

  lemma PrivateEquityWellFormed()
    ensures WellFormed(PrivateEquity)
  {
    var names := SkillNames(PrivateEquity.skills);
    assert names == [PrivateEquity.skills[0].name, PrivateEquity.skills[1].name, PrivateEquity.skills[2].name,
                     PrivateEquity.skills[3].name, PrivateEquity.skills[4].name];
  }

  lemma BoardDirectorsWellFormed()
    ensures WellFormed(BoardDirectors)
  {
    var names := SkillNames(BoardDirectors.skills);
    assert names == [BoardDirectors.skills[0].name, BoardDirectors.skills[1].name, BoardDirectors.skills[2].name,
                     BoardDirectors.skills[3].name, BoardDirectors.skills[4].name];
  }

  lemma GlobalMindsetWellFormed()
    ensures WellFormed(GlobalMindset)
  {
    var names := SkillNames(GlobalMindset.skills);
    assert names == [GlobalMindset.skills[0].name, GlobalMindset.skills[1].name, GlobalMindset.skills[2].name,
                     GlobalMindset.skills[3].name, GlobalMindset.skills[4].name];
  }

  lemma FutureCapabilitiesWellFormed()
    ensures WellFormed(FutureCapabilities)
  {
    var names := SkillNames(FutureCapabilities.skills);
    assert names == [FutureCapabilities.skills[0].name, FutureCapabilities.skills[1].name, FutureCapabilities.skills[2].name,
                     FutureCapabilities.skills[3].name, FutureCapabilities.skills[4].name];
  }


  /** `teamCriteria[teamName]` read as an own property of the catalogue. */
  function Lookup(teamName: string): (r: Option<Criteria>)
    ensures r.Some? <==> teamName in TeamNames
    ensures r.Some? ==> WellFormed(r.value)
  {
    CatalogueWellFormed();
    if teamName in Catalogue then Some(Catalogue[teamName]) else None
  }

  // ---------------------------------------------------------------------------
  // calculateTeamFit

  datatype FitResult = FitResult(
    skillFit: int,
    personalityFit: int,
    overallFit: int,
    matchedSkills: seq<string>,
    matchedPersonality: seq<string>,
    missingSkills: seq<string>,
    missingPersonality: seq<string>)

  const NoFit := FitResult(0, 0, 0, [], [], [], [])

  /** `Math.round(n / d)` for d > 0. */
  function Round(n: int, d: int): int
    requires d > 0
  {
    (2 * n + d) / (2 * d)
  }

  /** `Math.round(a * 0.7 + b * 0.3)`, in exact arithmetic. */
  function Weighted(a: int, b: int): int {
    (7 * a + 3 * b + 5) / 10
  }

  /**
   * An employee skill credits a required skill when its name contains the
   * required name, or its (non-empty) main category contains the required
   * category, both compared in lower case.
   */
  predicate SkillCredits(s: Skill, rs: RequiredSkill) {
    || Contains(Lower(s.name), Lower(rs.name))
    || (Filled(s.mainCategory) && Contains(Lower(s.mainCategory.value), Lower(rs.category)))
  }

  /** `employee.skills?.some(...)`. */
  predicate HasSkill(skills: Option<seq<Skill>>, rs: RequiredSkill) {
    skills.Some? && exists k :: 0 <= k < |skills.value| && SkillCredits(skills.value[k], rs)
  }

  /**
   * The trait test reads `top_personality`, `second_personality` and
   * `sorted_traits` straight off the personality field, so only a single
   * record can earn credit; a list of records has none of these fields.
   */
  predicate HasTrait(p: PersonalityField, want: string) {
    p.Single? &&
    var t := p.traits;
    var n := Lower(want);
    || (t.topPersonality.Some? && Contains(Lower(t.topPersonality.value), n))
    || (t.secondPersonality.Some? && Contains(Lower(t.secondPersonality.value), n))
    || (Filled(t.sortedTraits) && Contains(Lower(t.sortedTraits.value), n))
  }

  function SkillWeight(rs: RequiredSkill): int {
    (6 - rs.priority) * 5
  }

  /** A trait at index i of the list weighs (3 - i) * 10. */
  function TraitWeight(i: int): int {
    (3 - i) * 10
  }

  /** Points earned over the required skills req (summed left to right, as the loop does). */
  function SkillPoints(skills: Option<seq<Skill>>, req: seq<RequiredSkill>): int {
    if |req| == 0 then 0
    else
      var last := req[|req| - 1];
      SkillPoints(skills, req[..|req| - 1]) + (if HasSkill(skills, last) then SkillWeight(last) else 0)
  }

  function MatchedSkills(skills: Option<seq<Skill>>, req: seq<RequiredSkill>): seq<string> {
    if |req| == 0 then []
    else
      var last := req[|req| - 1];
      MatchedSkills(skills, req[..|req| - 1]) + (if HasSkill(skills, last) then [last.name] else [])
  }

  function MissingSkills(skills: Option<seq<Skill>>, req: seq<RequiredSkill>): seq<string> {
    if |req| == 0 then []
    else
      var last := req[|req| - 1];
      MissingSkills(skills, req[..|req| - 1]) + (if HasSkill(skills, last) then [] else [last.name])
  }

  /** The `reduce` that gives the most skill points a team type can award. */
  function MaxSkillPoints(req: seq<RequiredSkill>): int {
    if |req| == 0 then 0 else MaxSkillPoints(req[..|req| - 1]) + SkillWeight(req[|req| - 1])
  }

  function TraitPoints(p: PersonalityField, traits: seq<string>): int {
    if |traits| == 0 then 0
    else
      var i := |traits| - 1;
      TraitPoints(p, traits[..i]) + (if HasTrait(p, traits[i]) then TraitWeight(i) else 0)
  }

  function MatchedTraits(p: PersonalityField, traits: seq<string>): seq<string> {
    if |traits| == 0 then []
    else
      var i := |traits| - 1;
      MatchedTraits(p, traits[..i]) + (if HasTrait(p, traits[i]) then [traits[i]] else [])
  }

  function MissingTraits(p: PersonalityField, traits: seq<string>): seq<string> {
    if |traits| == 0 then []
    else
      var i := |traits| - 1;
      MissingTraits(p, traits[..i]) + (if HasTrait(p, traits[i]) then [] else [traits[i]])
  }

  function MaxTraitPoints(traits: seq<string>): int {
    if |traits| == 0 then 0 else MaxTraitPoints(traits[..|traits| - 1]) + TraitWeight(|traits| - 1)
  }

  lemma MaxPoints(c: Criteria)
    requires WellFormed(c)
    ensures MaxSkillPoints(c.skills) == 75 && MaxTraitPoints(c.traits) == 60
  {
    var s := c.skills;
    assert s[..4][..3] == s[..3] && s[..3][..2] == s[..2] && s[..2][..1] == s[..1] && s[..1][..0] == [];
    assert MaxSkillPoints(s[..1]) == 25;
    assert MaxSkillPoints(s[..2]) == 45;
    assert MaxSkillPoints(s[..3]) == 60;
    assert MaxSkillPoints(s[..4]) == 70;
    var t := c.traits;
    assert t[..2][..1] == t[..1] && t[..1][..0] == [];
    assert MaxTraitPoints(t[..1]) == 30;
  }

  /** What calculateTeamFit returns, stated over the catalogue entry of the team. */
  function TeamFit(e: Employee, teamName: string): (r: FitResult)
    ensures teamName !in TeamNames ==> r == NoFit
  {
    match Lookup(teamName)
    case None => NoFit
    case Some(c) =>
      MaxPoints(c);
      var skillFit := Round(100 * SkillPoints(e.skills, c.skills), MaxSkillPoints(c.skills));
      var personalityFit := Round(100 * TraitPoints(e.personality, c.traits), MaxTraitPoints(c.traits));
      FitResult(
        skillFit, personalityFit, Weighted(skillFit, personalityFit),
        MatchedSkills(e.skills, c.skills), MatchedTraits(e.personality, c.traits),
        MissingSkills(e.skills, c.skills), MissingTraits(e.personality, c.traits))
  }

  /** calculateTeamFit: one pass over the required skills, one over the required traits. */
  method CalculateTeamFit(e: Employee, teamName: string) returns (r: FitResult)
    ensures r == TeamFit(e, teamName)
  {
    var found := Lookup(teamName);
    if found.None? {
      return NoFit;
    }
    var c := found.value;
    MaxPoints(c);

    var skillScore, matchedSkills, missingSkills := ScoreSkills(e.skills, c.skills);
    var maxSkillScore := MaxSkillPoints(c.skills);
    var skillFit := Round(100 * skillScore, maxSkillScore);

    var personalityScore, matchedPersonality, missingPersonality := ScoreTraits(e.personality, c.traits);
    var maxPersonalityScore := MaxTraitPoints(c.traits);
    var personalityFit := Round(100 * personalityScore, maxPersonalityScore);

    var overallFit := Weighted(skillFit, personalityFit);
    r := FitResult(skillFit, personalityFit, overallFit,
                   matchedSkills, matchedPersonality, missingSkills, missingPersonality);
  }

  /** The loop over the required skills: points earned, names matched, names missing. */
  method ScoreSkills(skills: Option<seq<Skill>>, req: seq<RequiredSkill>)
    returns (skillScore: int, matchedSkills: seq<string>, missingSkills: seq<string>)
    ensures skillScore == SkillPoints(skills, req)
    ensures matchedSkills == MatchedSkills(skills, req)
    ensures missingSkills == MissingSkills(skills, req)
  {
    skillScore := 0;
    matchedSkills := [];
    missingSkills := [];
    var i := 0;
    while i < |req|
      invariant 0 <= i <= |req|
      invariant skillScore == SkillPoints(skills, req[..i])
      invariant matchedSkills == MatchedSkills(skills, req[..i])
      invariant missingSkills == MissingSkills(skills, req[..i])
    {
      var skill := req[i];
      assert req[..i + 1][..i] == req[..i];
      if HasSkill(skills, skill) {
        skillScore := skillScore + (6 - skill.priority) * 5;
        matchedSkills := matchedSkills + [skill.name];
      } else {
        missingSkills := missingSkills + [skill.name];
      }
      i := i + 1;
    }
    assert req[..i] == req;
  }

  /** The loop over the required traits: points earned, traits matched, traits missing. */
  method ScoreTraits(p: PersonalityField, traits: seq<string>)
    returns (personalityScore: int, matchedPersonality: seq<string>, missingPersonality: seq<string>)
    ensures personalityScore == TraitPoints(p, traits)
    ensures matchedPersonality == MatchedTraits(p, traits)
    ensures missingPersonality == MissingTraits(p, traits)
  {
    personalityScore := 0;
    matchedPersonality := [];
    missingPersonality := [];
    var index := 0;
    while index < |traits|
      invariant 0 <= index <= |traits|
      invariant personalityScore == TraitPoints(p, traits[..index])
      invariant matchedPersonality == MatchedTraits(p, traits[..index])
      invariant missingPersonality == MissingTraits(p, traits[..index])
    {
      var want := traits[index];
      assert traits[..index + 1][..index] == traits[..index];
      if HasTrait(p, want) {
        personalityScore := personalityScore + (3 - index) * 10;
        matchedPersonality := matchedPersonality + [want];
      } else {
        missingPersonality := missingPersonality + [want];
      }
      index := index + 1;
    }
    assert traits[..index] == traits;
  }

  // ---------------------------------------------------------------------------
  // Properties of calculateTeamFit

  /** Round(100 * p, m) as a percentage, for the denominators the core uses. */
  lemma RoundPercent(p: int, m: int)
    requires m == 3 || m == 5 || m == 15 || m == 60 || m == 75
    requires 0 <= p <= m
    ensures 0 <= Round(100 * p, m) <= 100
    ensures Round(100 * p, m) == 100 <==> p == m
    ensures Round(100 * p, m) == 0 <==> p == 0
    ensures m == 60 && p < m ==> Round(100 * p, m) <= 98
  {
    if m == 3 {
    } else if m == 5 {
    } else if m == 15 {
    } else if m == 60 {
    } else {
    }
  }

  lemma RoundMonotone(p: int, q: int, m: int)
    requires m == 60 || m == 75
    requires p <= q
    ensures Round(100 * p, m) <= Round(100 * q, m)
  {
    if m == 60 {
    } else {
    }
  }

  /** The weighted overall score lies between its two inputs. */
  lemma WeightedBetween(a: int, b: int)
    requires 0 <= a <= 100 && 0 <= b <= 100
    ensures (if a <= b then a else b) <= Weighted(a, b) <= (if a <= b then b else a)
    ensures Weighted(a, b) == 100 <==> a == 100 && b >= 99
  {
  }

  ghost predicate RankedSkills(req: seq<RequiredSkill>) {
    forall i :: 0 <= i < |req| ==> 1 <= req[i].priority <= 5
  }

  lemma RankedFront(req: seq<RequiredSkill>, n: nat)
    requires RankedSkills(req) && n <= |req|
    ensures RankedSkills(req[..n])
  {
    forall i | 0 <= i < n ensures 1 <= req[..n][i].priority <= 5 {
      assert req[..n][i] == req[i];
    }
  }

  /**
   * Over ranked skills the points lie between 0 and the maximum, reach the
   * maximum exactly when nothing is missing and are 0 exactly when nothing
   * matched.
   */
  lemma {:induction false} SkillPointBounds(sk: Option<seq<Skill>>, req: seq<RequiredSkill>)
    requires RankedSkills(req)
    ensures 0 <= SkillPoints(sk, req) <= MaxSkillPoints(req)
    ensures SkillPoints(sk, req) == MaxSkillPoints(req) <==> MissingSkills(sk, req) == []
    ensures SkillPoints(sk, req) == 0 <==> MatchedSkills(sk, req) == []
  {
    if |req| > 0 {
      RankedFront(req, |req| - 1);
      SkillPointBounds(sk, req[..|req| - 1]);
    }
  }

  /** Matched and missing skill names split the required names, in order. */
  lemma {:induction false} SkillSplit(sk: Option<seq<Skill>>, req: seq<RequiredSkill>)
    ensures Interleaving(SkillNames(req), MatchedSkills(sk, req), MissingSkills(sk, req))
  {
    if |req| > 0 {
      var n := |req| - 1;
      var front := req[..n];
      SkillSplit(sk, front);
      assert SkillNames(req)[..n] == SkillNames(front);
      var matched := MatchedSkills(sk, req);
      var missing := MissingSkills(sk, req);
      if HasSkill(sk, req[n]) {
        assert matched[..|matched| - 1] == MatchedSkills(sk, front);
        assert missing == MissingSkills(sk, front);
      } else {
        assert missing[..|missing| - 1] == MissingSkills(sk, front);
        assert matched == MatchedSkills(sk, front);
      }
    }
  }

  /** A name is matched exactly when some required skill of that name is credited. */
  lemma {:induction false} SkillMatched(sk: Option<seq<Skill>>, req: seq<RequiredSkill>, x: string)
    ensures x in MatchedSkills(sk, req) <==>
      exists i :: 0 <= i < |req| && req[i].name == x && HasSkill(sk, req[i])
  {
    if |req| > 0 {
      var n := |req| - 1;
      var front := req[..n];
      var last := req[n];
      var kept := HasSkill(sk, last);
      SkillMatched(sk, front, x);
      assert MatchedSkills(sk, req) == MatchedSkills(sk, front) + (if kept then [last.name] else []);
      if x in MatchedSkills(sk, req) {
        if x in MatchedSkills(sk, front) {
          var i :| 0 <= i < n && front[i].name == x && HasSkill(sk, front[i]);
          assert req[i] == front[i];
        } else {
          assert req[n].name == x && kept;
        }
      }
      if exists i :: 0 <= i < |req| && req[i].name == x && HasSkill(sk, req[i]) {
        var i :| 0 <= i < |req| && req[i].name == x && HasSkill(sk, req[i]);
        if i < n {
          assert front[i] == req[i];
        } else {
          assert last.name == x && kept;
        }
      }
    }
  }

  /** A name is missing exactly when some required skill of that name is not credited. */
  lemma {:induction false} SkillMissed(sk: Option<seq<Skill>>, req: seq<RequiredSkill>, x: string)
    ensures x in MissingSkills(sk, req) <==>
      exists i :: 0 <= i < |req| && req[i].name == x && !HasSkill(sk, req[i])
  {
    if |req| > 0 {
      var n := |req| - 1;
      var front := req[..n];
      var last := req[n];
      var kept := !HasSkill(sk, last);
      SkillMissed(sk, front, x);
      assert MissingSkills(sk, req) == MissingSkills(sk, front) + (if kept then [last.name] else []);
      if x in MissingSkills(sk, req) {
        if x in MissingSkills(sk, front) {
          var i :| 0 <= i < n && front[i].name == x && !HasSkill(sk, front[i]);
          assert req[i] == front[i];
        } else {
          assert req[n].name == x && kept;
        }
      }
      if exists i :: 0 <= i < |req| && req[i].name == x && !HasSkill(sk, req[i]) {
        var i :| 0 <= i < |req| && req[i].name == x && !HasSkill(sk, req[i]);
        if i < n {
          assert front[i] == req[i];
        } else {
          assert last.name == x && kept;
        }
      }
    }
  }

  /** Over at most three traits, the same bounds for the trait points. */
  lemma {:induction false} TraitPointBounds(p: PersonalityField, traits: seq<string>)
    requires |traits| <= 3
    ensures 0 <= TraitPoints(p, traits) <= MaxTraitPoints(traits)
    ensures TraitPoints(p, traits) == MaxTraitPoints(traits) <==> MissingTraits(p, traits) == []
    ensures TraitPoints(p, traits) == 0 <==> MatchedTraits(p, traits) == []
  {
    if |traits| > 0 {
      TraitPointBounds(p, traits[..|traits| - 1]);
    }
  }

  lemma {:induction false} TraitSplit(p: PersonalityField, traits: seq<string>)
    ensures Interleaving(traits, MatchedTraits(p, traits), MissingTraits(p, traits))
  {
    if |traits| > 0 {
      var n := |traits| - 1;
      var front := traits[..n];
      TraitSplit(p, front);
      var matched := MatchedTraits(p, traits);
      var missing := MissingTraits(p, traits);
      if HasTrait(p, traits[n]) {
        assert matched[..|matched| - 1] == MatchedTraits(p, front);
        assert missing == MissingTraits(p, front);
      } else {
        assert missing[..|missing| - 1] == MissingTraits(p, front);
        assert matched == MatchedTraits(p, front);
      }
    }
  }

  lemma {:induction false} TraitMatched(p: PersonalityField, traits: seq<string>, x: string)
    ensures x in MatchedTraits(p, traits) <==>
      exists i :: 0 <= i < |traits| && traits[i] == x && HasTrait(p, traits[i])
  {
    if |traits| > 0 {
      var n := |traits| - 1;
      var front := traits[..n];
      var last := traits[n];
      var kept := HasTrait(p, last);
      TraitMatched(p, front, x);
      assert MatchedTraits(p, traits) == MatchedTraits(p, front) + (if kept then [last] else []);
      if x in MatchedTraits(p, traits) {
        if x in MatchedTraits(p, front) {
          var i :| 0 <= i < n && front[i] == x && HasTrait(p, front[i]);
          assert traits[i] == front[i];
        } else {
          assert traits[n] == x && kept;
        }
      }
      if exists i :: 0 <= i < |traits| && traits[i] == x && HasTrait(p, traits[i]) {
        var i :| 0 <= i < |traits| && traits[i] == x && HasTrait(p, traits[i]);
        if i < n {
          assert front[i] == traits[i];
        } else {
          assert last == x && kept;
        }
      }
    }
  }

  lemma {:induction false} TraitMissed(p: PersonalityField, traits: seq<string>, x: string)
    ensures x in MissingTraits(p, traits) <==>
      exists i :: 0 <= i < |traits| && traits[i] == x && !HasTrait(p, traits[i])
  {
    if |traits| > 0 {
      var n := |traits| - 1;
      var front := traits[..n];
      var last := traits[n];
      var kept := !HasTrait(p, last);
      TraitMissed(p, front, x);
      assert MissingTraits(p, traits) == MissingTraits(p, front) + (if kept then [last] else []);
      if x in MissingTraits(p, traits) {
        if x in MissingTraits(p, front) {
          var i :| 0 <= i < n && front[i] == x && !HasTrait(p, front[i]);
          assert traits[i] == front[i];
        } else {
          assert traits[n] == x && kept;
        }
      }
      if exists i :: 0 <= i < |traits| && traits[i] == x && !HasTrait(p, traits[i]) {
        var i :| 0 <= i < |traits| && traits[i] == x && !HasTrait(p, traits[i]);
        if i < n {
          assert front[i] == traits[i];
        } else {
          assert last == x && kept;
        }
      }
    }
  }

  lemma TraitMembership(p: PersonalityField, traits: seq<string>, x: string)
    ensures x in MatchedTraits(p, traits) <==>
      exists i :: 0 <= i < |traits| && traits[i] == x && HasTrait(p, traits[i])
    ensures x in MissingTraits(p, traits) <==>
      exists i :: 0 <= i < |traits| && traits[i] == x && !HasTrait(p, traits[i])
  {
    TraitMatched(p, traits, x);
    TraitMissed(p, traits, x);
  }

  /**
   * For a known team type: matched and missing skill names split the five
   * catalogue names in catalogue order, a name is matched exactly when the
   * employee has that skill, and skillFit is a percentage that is 100 exactly
   * when nothing is missing and 0 exactly when nothing matched.
   */
  lemma TeamFitSkills(e: Employee, teamName: string)
    requires teamName in TeamNames
    ensures var r := TeamFit(e, teamName); var c := Catalogue[teamName];
      && Interleaving(SkillNames(c.skills), r.matchedSkills, r.missingSkills)
      && (forall i :: 0 <= i < |c.skills| ==>
            (c.skills[i].name in r.matchedSkills <==> HasSkill(e.skills, c.skills[i])))
      && (forall i :: 0 <= i < |c.skills| ==>
            (c.skills[i].name in r.missingSkills <==> !HasSkill(e.skills, c.skills[i])))
      && 0 <= r.skillFit <= 100
      && (r.skillFit == 100 <==> r.missingSkills == [])
      && (r.skillFit == 0 <==> r.matchedSkills == [])
  {
    CriteriaSkills(e.skills, Lookup(teamName).value);
  }

  /** The skill half of TeamFitSkills, for any well-formed criteria. */
  lemma CriteriaSkills(sk: Option<seq<Skill>>, c: Criteria)
    requires WellFormed(c)
    ensures var matched := MatchedSkills(sk, c.skills); var missing := MissingSkills(sk, c.skills);
      var fit := Round(100 * SkillPoints(sk, c.skills), 75);
      && MaxSkillPoints(c.skills) == 75
      && Interleaving(SkillNames(c.skills), matched, missing)
      && (forall i :: 0 <= i < |c.skills| ==> (c.skills[i].name in matched <==> HasSkill(sk, c.skills[i])))
      && (forall i :: 0 <= i < |c.skills| ==> (c.skills[i].name in missing <==> !HasSkill(sk, c.skills[i])))
      && 0 <= fit <= 100
      && (fit == 100 <==> missing == [])
      && (fit == 0 <==> matched == [])
  {
    MaxPoints(c);
    SkillPointBounds(sk, c.skills);
    SkillSplit(sk, c.skills);
    RoundPercent(SkillPoints(sk, c.skills), 75);
    var names := SkillNames(c.skills);
    forall i | 0 <= i < |c.skills|
      ensures c.skills[i].name in MatchedSkills(sk, c.skills) <==> HasSkill(sk, c.skills[i])
      ensures c.skills[i].name in MissingSkills(sk, c.skills) <==> !HasSkill(sk, c.skills[i])
    {
      SkillMatched(sk, c.skills, c.skills[i].name);
      SkillMissed(sk, c.skills, c.skills[i].name);
      forall j | 0 <= j < |c.skills| && c.skills[j].name == c.skills[i].name
        ensures j == i
      {
        assert names[j] == names[i];
      }
    }
  }

  lemma {:induction false} NoSkillsMissAll(sk: Option<seq<Skill>>, req: seq<RequiredSkill>)
    requires sk.None? || sk.value == []
    ensures MatchedSkills(sk, req) == [] && MissingSkills(sk, req) == SkillNames(req)
  {
    if |req| > 0 {
      NoSkillsMissAll(sk, req[..|req| - 1]);
    }
  }

  /** An employee with no skills, or an empty list of them, scores 0 and misses every skill. */
  lemma NoSkillsNoFit(e: Employee, teamName: string)
    requires teamName in TeamNames
    requires e.skills.None? || e.skills.value == []
    ensures TeamFit(e, teamName).skillFit == 0
    ensures TeamFit(e, teamName).matchedSkills == []
    ensures TeamFit(e, teamName).missingSkills == SkillNames(Catalogue[teamName].skills)
  {
    var c := Lookup(teamName).value;
    NoSkillsMissAll(e.skills, c.skills);
    TeamFitSkills(e, teamName);
  }

  lemma {:induction false} NoRecordMissAll(p: PersonalityField, traits: seq<string>)
    requires !p.Single?
    ensures MatchedTraits(p, traits) == [] && MissingTraits(p, traits) == traits
  {
    if |traits| > 0 {
      NoRecordMissAll(p, traits[..|traits| - 1]);
      assert traits == traits[..|traits| - 1] + [traits[|traits| - 1]];
    }
  }

  /**
   * For a known team type: the traits split likewise, personalityFit is a
   * percentage with the same extremes, and an employee without a single
   * personality record scores 0 and misses every trait.
   */
  lemma TeamFitPersonality(e: Employee, teamName: string)
    requires teamName in TeamNames
    ensures var r := TeamFit(e, teamName); var c := Catalogue[teamName];
      && Interleaving(c.traits, r.matchedPersonality, r.missingPersonality)
      && (forall i :: 0 <= i < |c.traits| ==>
            (c.traits[i] in r.matchedPersonality <==> HasTrait(e.personality, c.traits[i])))
      && (forall i :: 0 <= i < |c.traits| ==>
            (c.traits[i] in r.missingPersonality <==> !HasTrait(e.personality, c.traits[i])))
      && 0 <= r.personalityFit <= 100
      && (r.personalityFit == 100 <==> r.missingPersonality == [])
      && (r.personalityFit == 0 <==> r.matchedPersonality == [])
      && (r.personalityFit != 100 ==> r.personalityFit <= 98)
      && (!e.personality.Single? ==> r.personalityFit == 0 && r.missingPersonality == c.traits)
  {
    CriteriaTraits(e.personality, Lookup(teamName).value);
  }

  /** The trait half of TeamFitPersonality, for any well-formed criteria. */
  lemma CriteriaTraits(p: PersonalityField, c: Criteria)
    requires WellFormed(c)
    ensures var matched := MatchedTraits(p, c.traits); var missing := MissingTraits(p, c.traits);
      var fit := Round(100 * TraitPoints(p, c.traits), 60);
      && MaxTraitPoints(c.traits) == 60
      && Interleaving(c.traits, matched, missing)
      && (forall i :: 0 <= i < |c.traits| ==> (c.traits[i] in matched <==> HasTrait(p, c.traits[i])))
      && (forall i :: 0 <= i < |c.traits| ==> (c.traits[i] in missing <==> !HasTrait(p, c.traits[i])))
      && 0 <= fit <= 100
      && (fit == 100 <==> missing == [])
      && (fit == 0 <==> matched == [])
      && (fit != 100 ==> fit <= 98)
      && (!p.Single? ==> fit == 0 && missing == c.traits)
  {
    MaxPoints(c);
    TraitPointBounds(p, c.traits);
    TraitSplit(p, c.traits);
    RoundPercent(TraitPoints(p, c.traits), 60);
    forall i | 0 <= i < |c.traits|
      ensures c.traits[i] in MatchedTraits(p, c.traits) <==> HasTrait(p, c.traits[i])
      ensures c.traits[i] in MissingTraits(p, c.traits) <==> !HasTrait(p, c.traits[i])
    {
      TraitMembership(p, c.traits, c.traits[i]);
    }
    if !p.Single? {
      NoRecordMissAll(p, c.traits);
    }
  }

  /**
   * overallFit is a percentage lying between skillFit and personalityFit, and
   * it is 100 exactly when every required skill and trait matched.
   */
  lemma TeamFitOverall(e: Employee, teamName: string)
    ensures var r := TeamFit(e, teamName);
      && 0 <= r.overallFit <= 100
      && (if r.skillFit <= r.personalityFit then r.skillFit else r.personalityFit) <= r.overallFit
      && r.overallFit <= (if r.skillFit <= r.personalityFit then r.personalityFit else r.skillFit)
      && (r.overallFit == 100 <==> teamName in TeamNames && r.missingSkills == [] && r.missingPersonality == [])
  {
    if teamName in TeamNames {
      TeamFitSkills(e, teamName);
      TeamFitPersonality(e, teamName);
      var r := TeamFit(e, teamName);
      WeightedBetween(r.skillFit, r.personalityFit);
    }
  }

  /** A skill whose name is the required name credits it. */
  lemma SameNameCredits(s: Skill, rs: RequiredSkill)
    requires s.name == rs.name
    ensures SkillCredits(s, rs)
  {
    ContainsSelf(Lower(rs.name));
  }

  /** Points never fall below the weight of a credited first skill. */
  lemma {:induction false} SkillPointsAtLeast(sk: Option<seq<Skill>>, req: seq<RequiredSkill>)
    requires |req| > 0 && RankedSkills(req)
    ensures SkillPoints(sk, req) >= (if HasSkill(sk, req[0]) then SkillWeight(req[0]) else 0)
  {
    if |req| > 1 {
      var front := req[..|req| - 1];
      RankedFront(req, |req| - 1);
      SkillPointsAtLeast(sk, front);
      SkillPointBounds(sk, front);
    } else {
      assert req[..0] == [];
    }
  }

  lemma {:induction false} TraitPointsAtLeast(p: PersonalityField, traits: seq<string>)
    requires 0 < |traits| <= 3
    ensures TraitPoints(p, traits) >= (if HasTrait(p, traits[0]) then 30 else 0)
  {
    if |traits| > 1 {
      TraitPointsAtLeast(p, traits[..|traits| - 1]);
      TraitPointBounds(p, traits[..|traits| - 1]);
    } else {
      assert traits[..0] == [];
    }
  }

  /** Holding a team type's priority-1 skill earns at least 25 of 75 points: skillFit at least 33. */
  lemma TopSkillCredited(e: Employee, teamName: string)
    requires teamName in TeamNames
    requires HasSkill(e.skills, Lookup(teamName).value.skills[0])
    ensures Lookup(teamName).value.skills[0].name in TeamFit(e, teamName).matchedSkills
    ensures TeamFit(e, teamName).skillFit >= 33
  {
    var c := Lookup(teamName).value;
    MaxPoints(c);
    TeamFitSkills(e, teamName);
    SkillPointsAtLeast(e.skills, c.skills);
    RoundMonotone(25, SkillPoints(e.skills, c.skills), 75);
    assert Round(100 * 25, 75) == 33;
  }

  /** Holding a team type's first trait earns at least 30 of 60 points: personalityFit at least 50. */
  lemma TopTraitCredited(e: Employee, teamName: string)
    requires teamName in TeamNames
    requires HasTrait(e.personality, Lookup(teamName).value.traits[0])
    ensures Lookup(teamName).value.traits[0] in TeamFit(e, teamName).matchedPersonality
    ensures TeamFit(e, teamName).personalityFit >= 50
  {
    var c := Lookup(teamName).value;
    MaxPoints(c);
    TeamFitPersonality(e, teamName);
    TraitPointsAtLeast(e.personality, c.traits);
    RoundMonotone(30, TraitPoints(e.personality, c.traits), 60);
    assert Round(100 * 30, 60) == 50;
  }

  /**
   * An employee holding "Climate Strategy & Carbon Accounting" whose top
   * personality is "Conceptual" is credited both against NET ZERO: at least
   * 25 of 75 skill points (skillFit at least 33, the rounding of 33.3) and 30
   * of 60 trait points (personalityFit at least 50).
   */
  lemma ClimateScenario(e: Employee, k: nat)
    requires e.skills.Some? && k < |e.skills.value|
    requires e.skills.value[k].name == "Climate Strategy & Carbon Accounting"
    requires e.personality.Single? && e.personality.traits.topPersonality == Some("Conceptual")
    ensures var r := TeamFit(e, "NET ZERO");
      && "Climate Strategy & Carbon Accounting" in r.matchedSkills
      && "Conceptual" in r.matchedPersonality
      && r.skillFit >= 33 && r.personalityFit >= 50
  {
    var c := Lookup("NET ZERO").value;
    assert c == NetZero;
    SameNameCredits(e.skills.value[k], c.skills[0]);
    ContainsSelf(Lower(c.traits[0]));
    TopSkillCredited(e, "NET ZERO");
    TopTraitCredited(e, "NET ZERO");
  }

  // ---------------------------------------------------------------------------
  // The guard of calculateTeamFit as written

  /** A call either returns a result or throws a TypeError. */
  datatype FitOutcome = Returned(result: FitResult) | TypeError

  /**
   * calculateTeamFit as written: its guard reads `teamCriteria[teamName]`,
   * which for a name inherited from `Object.prototype` ("constructor",
   * "toString", ...) is a truthy function or object without `skills`, so
   * `criteria.skills.forEach` throws instead of the zero result being returned.
   */
  function TeamFitAsWritten(e: Employee, teamName: string): (r: FitOutcome)
    ensures r.TypeError? <==> teamName in JsObject.PrototypeMembers
    ensures r.Returned? ==> r.result == TeamFit(e, teamName)
  {
    match JsObject.Read(Catalogue, teamName)
    case Undefined => Returned(NoFit)
    case Own(_) => Returned(TeamFit(e, teamName))
    case Inherited(_) => TypeError
  }

  /** "constructor" is no team type: the intended result is all zeros, the code as written throws. */
  lemma ConstructorTeamName(e: Employee)
    ensures TeamFitAsWritten(e, "constructor").TypeError?
    ensures TeamFit(e, "constructor") == NoFit
  {
    assert "constructor" in JsObject.PrototypeMembers;
  }

  // ---------------------------------------------------------------------------
  // calculateTeamComposition

  datatype CompositionResult = CompositionResult(
    overallFit: int,
    skillCoverage: int,
    personalityCoverage: int,
    missingSkills: seq<string>,
    missingPersonality: seq<string>)

  const NoComposition := CompositionResult(0, 0, 0, [], [])

  /** The keyword lists the description is searched for, in declaration order. */
  const Keywords: seq<(string, seq<string>)> := [
    ("NET ZERO", ["net zero", "carbon", "climate", "sustainability", "esg"]),
    ("Private Equity", ["private equity", "investment", "finance", "fund", "portfolio"]),
    ("Board Directors", ["board", "director", "governance", "oversight", "committee"]),
    ("Global Mindset", ["global", "international", "cross-cultural", "worldwide", "multinational"]),
    ("Future Capabilities", ["future", "innovation", "digital", "technology", "transformation"])
  ]

  lemma KeywordNames()
    ensures |Keywords| == |TeamNames|
    ensures forall i :: 0 <= i < |Keywords| ==> Keywords[i].0 == TeamNames[i]
  {
  }

  /** How many of the keywords occur in the description, ignoring case. */
  function Hits(description: string, keywords: seq<string>): (r: nat)
    ensures r <= |keywords|
  {
    if |keywords| == 0 then 0
    else
      var last := keywords[|keywords| - 1];
      Hits(description, keywords[..|keywords| - 1])
        + (if Contains(Lower(description), Lower(last)) then 1 else 0)
  }

  function HitsAt(description: string, i: nat): nat
    requires i < |Keywords|
  {
    Hits(description, Keywords[i].1)
  }

  /**
   * The pair (teamName, maxMatches) after the first n keyword lists: a list
   * replaces the current choice only with strictly more hits.
   */
  function InferFrom(description: string, n: nat): (string, int)
    requires n <= |Keywords|
  {
    if n == 0 then ("NET ZERO", 0)
    else
      var prev := InferFrom(description, n - 1);
      var h := HitsAt(description, n - 1);
      if h > prev.1 then (Keywords[n - 1].0, h) else prev
  }

  /** The team type the description is taken to describe. */
  function InferTeam(description: string): (r: string)
    ensures r in TeamNames
  {
    InferNamed(description, |Keywords|);
    InferFrom(description, |Keywords|).0
  }

  lemma {:induction false} InferNamed(description: string, n: nat)
    requires n <= |Keywords|
    ensures InferFrom(description, n).0 in TeamNames
  {
    if n > 0 {
      InferNamed(description, n - 1);
      KeywordNames();
    }
  }

  /**
   * After n lists, maxMatches is at least every hit count so far and is
   * either 0 or the hit count of one of them.
   */
  lemma {:induction false} InferBest(description: string, n: nat)
    requires n <= |Keywords|
    ensures InferFrom(description, n).1 >= 0
    ensures forall i :: 0 <= i < n ==> HitsAt(description, i) <= InferFrom(description, n).1
    ensures InferFrom(description, n).1 == 0 ||
      exists i :: 0 <= i < n && HitsAt(description, i) == InferFrom(description, n).1
  {
    if n > 0 {
      InferBest(description, n - 1);
    }
  }

  lemma {:induction false} InferFromFirstMax(description: string, n: nat, j: nat)
    requires j < n <= |Keywords|
    requires HitsAt(description, j) > 0
    requires forall i :: 0 <= i < n ==> HitsAt(description, i) <= HitsAt(description, j)
    requires forall i :: 0 <= i < j ==> HitsAt(description, i) < HitsAt(description, j)
    ensures InferFrom(description, n) == (Keywords[j].0, HitsAt(description, j))
  {
    if n - 1 == j {
      InferBest(description, j);
    } else {
      InferFromFirstMax(description, n - 1, j);
    }
  }

  /**
   * The inferred team type is the list with the most hits; on a tie the one
   * declared first wins.
   */
  lemma InferPicksFirstMax(description: string, j: nat)
    requires j < |Keywords|
    requires HitsAt(description, j) > 0
    requires forall i :: 0 <= i < |Keywords| ==> HitsAt(description, i) <= HitsAt(description, j)
    requires forall i :: 0 <= i < j ==> HitsAt(description, i) < HitsAt(description, j)
    ensures InferTeam(description) == TeamNames[j]
  {
    InferFromFirstMax(description, |Keywords|, j);
    KeywordNames();
  }

  lemma {:induction false} InferFromNoHits(description: string, n: nat)
    requires n <= |Keywords|
    requires forall i :: 0 <= i < n ==> HitsAt(description, i) == 0
    ensures InferFrom(description, n) == ("NET ZERO", 0)
  {
    if n > 0 {
      InferFromNoHits(description, n - 1);
    }
  }

  /** A description with no keyword at all is taken to describe NET ZERO. */
  lemma InferDefault(description: string)
    requires forall i :: 0 <= i < |Keywords| ==> HitsAt(description, i) == 0
    ensures InferTeam(description) == "NET ZERO"
  {
    InferFromNoHits(description, |Keywords|);
  }

  /** The keyword scan of calculateTeamComposition. */
  method InferTeamName(description: string) returns (teamName: string)
    ensures teamName == InferTeam(description)
  {
    teamName := "NET ZERO";
    var maxMatches := 0;
    var i := 0;
    while i < |Keywords|
      invariant 0 <= i <= |Keywords|
      invariant (teamName, maxMatches) == InferFrom(description, i)
    {
      var (name, keywords) := Keywords[i];
      var matches := 0;
      var k := 0;
      while k < |keywords|
        invariant 0 <= k <= |keywords|
        invariant matches == Hits(description, keywords[..k])
      {
        assert keywords[..k + 1][..k] == keywords[..k];
        if Contains(Lower(description), Lower(keywords[k])) {
          matches := matches + 1;
        }
        k := k + 1;
      }
      assert keywords[..k] == keywords;
      if matches > maxMatches {
        maxMatches := matches;
        teamName := name;
      }
      i := i + 1;
    }
  }

  /** The tokens one skill adds to the team's skill set. */
  function SkillTokens(s: Skill): set<string> {
    {Lower(s.name)} + (if Filled(s.mainCategory) then {Lower(s.mainCategory.value)} else {})
  }

  /** The tokens one member adds to `teamSkills`. */
  function MemberSkillTokens(e: Employee): set<string> {
    if e.skills.Some? then UnionOf(e.skills.value, SkillTokens) else {}
  }

  /** `teamSkills`: lower-cased names and categories of every member's skills. */
  function SkillPool(members: seq<Employee>): set<string> {
    UnionOf(members, MemberSkillTokens)
  }

  /** The trait name of one `sorted_traits` piece: before the first ':', trimmed, lower case. */
  function PieceToken(piece: string): string {
    Lower(Trim(Split(piece, ':')[0]))
  }

  function PieceTokenSet(piece: string): set<string> {
    {PieceToken(piece)}
  }

  function PieceTokens(pieces: seq<string>): set<string> {
    UnionOf(pieces, PieceTokenSet)
  }

  /**
   * The tokens one member adds to `teamPersonality`. The fields are read off
   * the personality field as it is, so a list of records adds nothing.
   */
  function TraitTokens(p: PersonalityField): set<string> {
    match p
    case Single(t) =>
      FieldToken(t.topPersonality) + FieldToken(t.secondPersonality)
      + (if Filled(t.sortedTraits) then PieceTokens(Split(t.sortedTraits.value, ',')) else {})
    case _ => {}
  }

  /** A truthy string field adds itself in lower case. */
  function FieldToken(f: Option<string>): set<string> {
    if Filled(f) then {Lower(f.value)} else {}
  }

  /** `teamPersonality`. */
  function MemberTraitTokens(e: Employee): set<string> {
    TraitTokens(e.personality)
  }

  function TraitPool(members: seq<Employee>): set<string> {
    UnionOf(members, MemberTraitTokens)
  }

  /**
   * A required skill is covered by a token that contains its name, or that
   * its category contains (so an empty token covers every skill).
   */
  predicate SkillCovered(pool: set<string>, rs: RequiredSkill) {
    exists t :: t in pool && (Contains(t, Lower(rs.name)) || Contains(Lower(rs.category), t))
  }

  predicate TraitCovered(pool: set<string>, name: string) {
    exists t :: t in pool && Contains(t, Lower(name))
  }

  function CoveredSkills(pool: set<string>, req: seq<RequiredSkill>): nat {
    if |req| == 0 then 0
    else CoveredSkills(pool, req[..|req| - 1]) + (if SkillCovered(pool, req[|req| - 1]) then 1 else 0)
  }

  function UncoveredSkills(pool: set<string>, req: seq<RequiredSkill>): seq<string> {
    if |req| == 0 then []
    else
      UncoveredSkills(pool, req[..|req| - 1])
        + (if SkillCovered(pool, req[|req| - 1]) then [] else [req[|req| - 1].name])
  }

  function CoveredTraits(pool: set<string>, traits: seq<string>): nat {
    if |traits| == 0 then 0
    else CoveredTraits(pool, traits[..|traits| - 1]) + (if TraitCovered(pool, traits[|traits| - 1]) then 1 else 0)
  }

  function UncoveredTraits(pool: set<string>, traits: seq<string>): seq<string> {
    if |traits| == 0 then []
    else
      UncoveredTraits(pool, traits[..|traits| - 1])
        + (if TraitCovered(pool, traits[|traits| - 1]) then [] else [traits[|traits| - 1]])
  }

  /** What calculateTeamComposition returns. */
  function TeamComposition(team: Option<Team>, members: Option<seq<Employee>>): (r: CompositionResult)
    ensures team.None? || members.None? || members.value == [] ==> r == NoComposition
  {
    if team.None? || members.None? || |members.value| == 0 then NoComposition
    else
      // Inference only ever yields a catalogued name, so the second
      // "no criteria" guard of the source never fires.
      var c := Lookup(InferTeam(team.value.description)).value;
      var skillPool := SkillPool(members.value);
      var traitPool := TraitPool(members.value);
      var skillCoverage := Round(100 * CoveredSkills(skillPool, c.skills), |c.skills|);
      var personalityCoverage := Round(100 * CoveredTraits(traitPool, c.traits), |c.traits|);
      CompositionResult(
        Weighted(skillCoverage, personalityCoverage), skillCoverage, personalityCoverage,
        UncoveredSkills(skillPool, c.skills), UncoveredTraits(traitPool, c.traits))
  }

  method PoolSkills(members: seq<Employee>) returns (pool: set<string>)
    ensures pool == SkillPool(members)
  {
    pool := {};
    var m := 0;
    while m < |members|
      invariant 0 <= m <= |members|
      invariant pool == SkillPool(members[..m])
    {
      var member := members[m];
      assert members[..m + 1][..m] == members[..m];
      if member.skills.Some? {
        var skills := member.skills.value;
        var before := pool;
        var k := 0;
        while k < |skills|
          invariant 0 <= k <= |skills|
          invariant pool == before + UnionOf(skills[..k], SkillTokens)
        {
          assert skills[..k + 1][..k] == skills[..k];
          pool := pool + {Lower(skills[k].name)};
          if Filled(skills[k].mainCategory) {
            pool := pool + {Lower(skills[k].mainCategory.value)};
          }
          k := k + 1;
        }
        assert skills[..k] == skills;
      }
      m := m + 1;
    }
    assert members[..m] == members;
  }

  /** Adds the trait names of the `sorted_traits` pieces to the pool. */
  method AddPieceTokens(pool: set<string>, pieces: seq<string>) returns (r: set<string>)
    ensures r == pool + PieceTokens(pieces)
  {
    r := pool;
    var k := 0;
    while k < |pieces|
      invariant 0 <= k <= |pieces|
      invariant r == pool + PieceTokens(pieces[..k])
    {
      assert pieces[..k + 1][..k] == pieces[..k];
      r := r + {PieceToken(pieces[k])};
      k := k + 1;
    }
    assert pieces[..k] == pieces;
  }

  /** Adds what one member's personality record contributes to the pool. */
  method AddTraitTokens(pool: set<string>, p: PersonalityField) returns (r: set<string>)
    ensures r == pool + TraitTokens(p)
  {
    r := pool;
    if p.Single? {
      var t := p.traits;
      if Filled(t.topPersonality) {
        r := r + {Lower(t.topPersonality.value)};
      }
      assert r == pool + FieldToken(t.topPersonality);
      if Filled(t.secondPersonality) {
        r := r + {Lower(t.secondPersonality.value)};
      }
      assert r == pool + FieldToken(t.topPersonality) + FieldToken(t.secondPersonality);
      if Filled(t.sortedTraits) {
        r := AddPieceTokens(r, Split(t.sortedTraits.value, ','));
      }
    }
  }

  method PoolTraits(members: seq<Employee>) returns (pool: set<string>)
    ensures pool == TraitPool(members)
  {
    pool := {};
    var m := 0;
    while m < |members|
      invariant 0 <= m <= |members|
      invariant pool == TraitPool(members[..m])
    {
      assert members[..m + 1][..m] == members[..m];
      pool := AddTraitTokens(pool, members[m].personality);
      m := m + 1;
    }
    assert members[..m] == members;
  }

  method CoverSkills(pool: set<string>, req: seq<RequiredSkill>) returns (covered: nat, missing: seq<string>)
    ensures covered == CoveredSkills(pool, req) && missing == UncoveredSkills(pool, req)
  {
    covered, missing := 0, [];
    var i := 0;
    while i < |req|
      invariant 0 <= i <= |req|
      invariant covered == CoveredSkills(pool, req[..i]) && missing == UncoveredSkills(pool, req[..i])
    {
      assert req[..i + 1][..i] == req[..i];
      if SkillCovered(pool, req[i]) {
        covered := covered + 1;
      } else {
        missing := missing + [req[i].name];
      }
      i := i + 1;
    }
    assert req[..i] == req;
  }

  method CoverTraits(pool: set<string>, traits: seq<string>) returns (covered: nat, missing: seq<string>)
    ensures covered == CoveredTraits(pool, traits) && missing == UncoveredTraits(pool, traits)
  {
    covered, missing := 0, [];
    var i := 0;
    while i < |traits|
      invariant 0 <= i <= |traits|
      invariant covered == CoveredTraits(pool, traits[..i]) && missing == UncoveredTraits(pool, traits[..i])
    {
      assert traits[..i + 1][..i] == traits[..i];
      if TraitCovered(pool, traits[i]) {
        covered := covered + 1;
      } else {
        missing := missing + [traits[i]];
      }
      i := i + 1;
    }
    assert traits[..i] == traits;
  }

  /** calculateTeamComposition. */
  method CalculateTeamComposition(team: Option<Team>, members: Option<seq<Employee>>)
    returns (r: CompositionResult)
    ensures r == TeamComposition(team, members)
  {
    if team.None? || members.None? || |members.value| == 0 {
      return NoComposition;
    }
    var teamName := InferTeamName(team.value.description);
    var c := Lookup(teamName).value;
    var teamSkills := PoolSkills(members.value);
    var teamPersonality := PoolTraits(members.value);
    var coveredSkills, missingSkills := CoverSkills(teamSkills, c.skills);
    var skillCoverage := Round(100 * coveredSkills, |c.skills|);
    var coveredPersonality, missingPersonality := CoverTraits(teamPersonality, c.traits);
    var personalityCoverage := Round(100 * coveredPersonality, |c.traits|);
    var overallFit := Weighted(skillCoverage, personalityCoverage);
    r := CompositionResult(overallFit, skillCoverage, personalityCoverage, missingSkills, missingPersonality);
  }

  // ---------------------------------------------------------------------------
  // Properties of calculateTeamComposition

  /** The names of the covered skills, in catalogue order (used only to state the split). */
  ghost function CoveredSkillNames(pool: set<string>, req: seq<RequiredSkill>): seq<string> {
    if |req| == 0 then []
    else
      CoveredSkillNames(pool, req[..|req| - 1])
        + (if SkillCovered(pool, req[|req| - 1]) then [req[|req| - 1].name] else [])
  }

  ghost function CoveredTraitNames(pool: set<string>, traits: seq<string>): seq<string> {
    if |traits| == 0 then []
    else
      CoveredTraitNames(pool, traits[..|traits| - 1])
        + (if TraitCovered(pool, traits[|traits| - 1]) then [traits[|traits| - 1]] else [])
  }

  /** Covered and uncovered skill names split the required names in order; the count is the covered part. */
  lemma {:induction false} SkillCoverSplit(pool: set<string>, req: seq<RequiredSkill>)
    ensures Interleaving(SkillNames(req), CoveredSkillNames(pool, req), UncoveredSkills(pool, req))
    ensures CoveredSkills(pool, req) == |CoveredSkillNames(pool, req)|
    ensures CoveredSkills(pool, req) + |UncoveredSkills(pool, req)| == |req|
  {
    if |req| > 0 {
      var n := |req| - 1;
      var front := req[..n];
      SkillCoverSplit(pool, front);
      assert SkillNames(req)[..n] == SkillNames(front);
      var covered := CoveredSkillNames(pool, req);
      var missing := UncoveredSkills(pool, req);
      if SkillCovered(pool, req[n]) {
        assert covered[..|covered| - 1] == CoveredSkillNames(pool, front);
        assert missing == UncoveredSkills(pool, front);
      } else {
        assert missing[..|missing| - 1] == UncoveredSkills(pool, front);
        assert covered == CoveredSkillNames(pool, front);
      }
    }
  }

  lemma {:induction false} SkillUncovered(pool: set<string>, req: seq<RequiredSkill>, x: string)
    ensures x in UncoveredSkills(pool, req) <==>
      exists i :: 0 <= i < |req| && req[i].name == x && !SkillCovered(pool, req[i])
  {
    if |req| > 0 {
      var n := |req| - 1;
      var front := req[..n];
      var last := req[n];
      var missed := !SkillCovered(pool, last);
      SkillUncovered(pool, front, x);
      assert UncoveredSkills(pool, req) == UncoveredSkills(pool, front) + (if missed then [last.name] else []);
      if x in UncoveredSkills(pool, req) {
        if x in UncoveredSkills(pool, front) {
          var i :| 0 <= i < n && front[i].name == x && !SkillCovered(pool, front[i]);
          assert req[i] == front[i];
        } else {
          assert req[n].name == x && missed;
        }
      }
      if exists i :: 0 <= i < |req| && req[i].name == x && !SkillCovered(pool, req[i]) {
        var i :| 0 <= i < |req| && req[i].name == x && !SkillCovered(pool, req[i]);
        if i < n {
          assert front[i] == req[i];
        } else {
          assert last.name == x && missed;
        }
      }
    }
  }

  lemma {:induction false} TraitCoverSplit(pool: set<string>, traits: seq<string>)
    ensures Interleaving(traits, CoveredTraitNames(pool, traits), UncoveredTraits(pool, traits))
    ensures CoveredTraits(pool, traits) == |CoveredTraitNames(pool, traits)|
    ensures CoveredTraits(pool, traits) + |UncoveredTraits(pool, traits)| == |traits|
  {
    if |traits| > 0 {
      var n := |traits| - 1;
      var front := traits[..n];
      TraitCoverSplit(pool, front);
      var covered := CoveredTraitNames(pool, traits);
      var missing := UncoveredTraits(pool, traits);
      if TraitCovered(pool, traits[n]) {
        assert covered[..|covered| - 1] == CoveredTraitNames(pool, front);
        assert missing == UncoveredTraits(pool, front);
      } else {
        assert missing[..|missing| - 1] == UncoveredTraits(pool, front);
        assert covered == CoveredTraitNames(pool, front);
      }
    }
  }

  lemma {:induction false} TraitUncovered(pool: set<string>, traits: seq<string>, x: string)
    ensures x in UncoveredTraits(pool, traits) <==>
      exists i :: 0 <= i < |traits| && traits[i] == x && !TraitCovered(pool, traits[i])
  {
    if |traits| > 0 {
      var n := |traits| - 1;
      var front := traits[..n];
      var last := traits[n];
      var missed := !TraitCovered(pool, last);
      TraitUncovered(pool, front, x);
      assert UncoveredTraits(pool, traits) == UncoveredTraits(pool, front) + (if missed then [last] else []);
      if x in UncoveredTraits(pool, traits) {
        if x in UncoveredTraits(pool, front) {
          var i :| 0 <= i < n && front[i] == x && !TraitCovered(pool, front[i]);
          assert traits[i] == front[i];
        } else {
          assert traits[n] == x && missed;
        }
      }
      if exists i :: 0 <= i < |traits| && traits[i] == x && !TraitCovered(pool, traits[i]) {
        var i :| 0 <= i < |traits| && traits[i] == x && !TraitCovered(pool, traits[i]);
        if i < n {
          assert front[i] == traits[i];
        } else {
          assert last == x && missed;
        }
      }
    }
  }

  /**
   * For a present team and a non-empty roster, scored against the inferred
   * team type: skillCoverage is 20 per covered skill, and the uncovered skill
   * names are exactly missingSkills, in catalogue order.
   */
  lemma CompositionSkills(team: Option<Team>, members: Option<seq<Employee>>)
    requires team.Some? && members.Some? && |members.value| > 0
    ensures var r := TeamComposition(team, members);
      var c := Catalogue[InferTeam(team.value.description)];
      var pool := SkillPool(members.value);
      && r.skillCoverage == 20 * CoveredSkills(pool, c.skills)
      && CoveredSkills(pool, c.skills) + |r.missingSkills| == 5
      && Interleaving(SkillNames(c.skills), CoveredSkillNames(pool, c.skills), r.missingSkills)
      && (forall i :: 0 <= i < |c.skills| ==>
            (c.skills[i].name in r.missingSkills <==> !SkillCovered(pool, c.skills[i])))
      && 0 <= r.skillCoverage <= 100
      && (r.skillCoverage == 100 <==> r.missingSkills == [])
  {
    CriteriaCoverSkills(SkillPool(members.value), Lookup(InferTeam(team.value.description)).value);
  }

  /** The skill half of CompositionSkills, for any pool and well-formed criteria. */
  lemma CriteriaCoverSkills(pool: set<string>, c: Criteria)
    requires WellFormed(c)
    ensures var k := CoveredSkills(pool, c.skills); var missing := UncoveredSkills(pool, c.skills);
      var coverage := Round(100 * k, |c.skills|);
      && coverage == 20 * k
      && k + |missing| == 5
      && Interleaving(SkillNames(c.skills), CoveredSkillNames(pool, c.skills), missing)
      && (forall i :: 0 <= i < |c.skills| ==> (c.skills[i].name in missing <==> !SkillCovered(pool, c.skills[i])))
      && 0 <= coverage <= 100
      && (coverage == 100 <==> missing == [])
  {
    SkillCoverSplit(pool, c.skills);
    var names := SkillNames(c.skills);
    forall i | 0 <= i < |c.skills|
      ensures c.skills[i].name in UncoveredSkills(pool, c.skills) <==> !SkillCovered(pool, c.skills[i])
    {
      SkillUncovered(pool, c.skills, c.skills[i].name);
      forall j | 0 <= j < |c.skills| && c.skills[j].name == c.skills[i].name
        ensures j == i
      {
        assert names[j] == names[i];
      }
    }
  }

  /**
   * Likewise for traits: personalityCoverage is round(100 * covered / 3), and
   * the uncovered trait names are exactly missingPersonality, in order.
   */
  lemma CompositionTraits(team: Option<Team>, members: Option<seq<Employee>>)
    requires team.Some? && members.Some? && |members.value| > 0
    ensures var r := TeamComposition(team, members);
      var c := Catalogue[InferTeam(team.value.description)];
      var pool := TraitPool(members.value);
      var k := CoveredTraits(pool, c.traits);
      && r.personalityCoverage == Round(100 * k, 3)
      && k + |r.missingPersonality| == 3
      && Interleaving(c.traits, CoveredTraitNames(pool, c.traits), r.missingPersonality)
      && (forall i :: 0 <= i < |c.traits| ==>
            (c.traits[i] in r.missingPersonality <==> !TraitCovered(pool, c.traits[i])))
      && 0 <= r.personalityCoverage <= 100
      && (r.personalityCoverage == 100 <==> r.missingPersonality == [])
  {
    CriteriaCoverTraits(TraitPool(members.value), Lookup(InferTeam(team.value.description)).value);
  }

  /** The trait half of CompositionTraits, for any pool and well-formed criteria. */
  lemma CriteriaCoverTraits(pool: set<string>, c: Criteria)
    requires WellFormed(c)
    ensures var k := CoveredTraits(pool, c.traits); var missing := UncoveredTraits(pool, c.traits);
      var coverage := Round(100 * k, |c.traits|);
      && k + |missing| == 3
      && Interleaving(c.traits, CoveredTraitNames(pool, c.traits), missing)
      && (forall i :: 0 <= i < |c.traits| ==> (c.traits[i] in missing <==> !TraitCovered(pool, c.traits[i])))
      && 0 <= coverage <= 100
      && (coverage == 100 <==> missing == [])
  {
    TraitCoverSplit(pool, c.traits);
    RoundPercent(CoveredTraits(pool, c.traits), 3);
    forall i | 0 <= i < |c.traits|
      ensures c.traits[i] in UncoveredTraits(pool, c.traits) <==> !TraitCovered(pool, c.traits[i])
    {
      TraitUncovered(pool, c.traits, c.traits[i]);
    }
  }

  /** The team's overallFit lies between its two coverages and is 100 exactly when nothing is missing. */
  lemma CompositionOverall(team: Option<Team>, members: Option<seq<Employee>>)
    ensures var r := TeamComposition(team, members);
      && (if r.skillCoverage <= r.personalityCoverage then r.skillCoverage else r.personalityCoverage) <= r.overallFit
      && r.overallFit <= (if r.skillCoverage <= r.personalityCoverage then r.personalityCoverage else r.skillCoverage)
      && (r.overallFit == 100 <==>
            team.Some? && members.Some? && members.value != [] && r.missingSkills == [] && r.missingPersonality == [])
  {
    if team.Some? && members.Some? && |members.value| > 0 {
      CompositionSkills(team, members);
      CompositionTraits(team, members);
      var r := TeamComposition(team, members);
      WeightedBetween(r.skillCoverage, r.personalityCoverage);
    }
  }

  /**
   * `teamSkills` holds exactly the lower-cased name of every member's skill
   * and the lower-cased non-empty category of every such skill.
   */
  lemma SkillPoolMembers(members: seq<Employee>, t: string)
    ensures t in SkillPool(members) <==>
      exists m :: 0 <= m < |members| && members[m].skills.Some? &&
        exists k :: 0 <= k < |members[m].skills.value| && t in SkillTokens(members[m].skills.value[k])
  {
    UnionOfMembers(members, MemberSkillTokens, t);
    forall m | 0 <= m < |members| && members[m].skills.Some? {
      UnionOfMembers(members[m].skills.value, SkillTokens, t);
    }
  }

  lemma PieceTokensMembers(pieces: seq<string>, t: string)
    ensures t in PieceTokens(pieces) <==> exists k :: 0 <= k < |pieces| && t == PieceToken(pieces[k])
  {
    UnionOfMembers(pieces, PieceTokenSet, t);
  }

  /** `teamPersonality` holds exactly what some member's single personality record contributes. */
  lemma TraitPoolMembers(members: seq<Employee>, t: string)
    ensures t in TraitPool(members) <==>
      exists m :: 0 <= m < |members| && t in TraitTokens(members[m].personality)
  {
    UnionOfMembers(members, MemberTraitTokens, t);
  }

  /** The `sorted_traits` entry "Drive: 80" of a member puts "drive" in the pool. */
  lemma SortedTraitsPooled(t: Traits, k: nat)
    requires Filled(t.sortedTraits)
    requires k < |Split(t.sortedTraits.value, ',')|
    ensures PieceToken(Split(t.sortedTraits.value, ',')[k]) in TraitTokens(Single(t))
  {
    PieceTokensMembers(Split(t.sortedTraits.value, ','), PieceToken(Split(t.sortedTraits.value, ',')[k]));
  }

  lemma {:induction false} AllSkillsCovered(pool: set<string>, req: seq<RequiredSkill>)
    requires forall i :: 0 <= i < |req| ==> SkillCovered(pool, req[i])
    ensures UncoveredSkills(pool, req) == [] && CoveredSkills(pool, req) == |req|
  {
    if |req| > 0 {
      AllSkillsCovered(pool, req[..|req| - 1]);
    }
  }

  /**
   * A member skill with an empty name puts "" in the pool, and every
   * category contains "", so every required skill counts as covered.
   */
  lemma EmptySkillNameCoversAll(team: Option<Team>, members: Option<seq<Employee>>, m: nat, k: nat)
    requires team.Some? && members.Some? && m < |members.value|
    requires members.value[m].skills.Some? && k < |members.value[m].skills.value|
    requires members.value[m].skills.value[k].name == ""
    ensures TeamComposition(team, members).skillCoverage == 100
    ensures TeamComposition(team, members).missingSkills == []
  {
    var pool := SkillPool(members.value);
    var c := Lookup(InferTeam(team.value.description)).value;
    var s := members.value[m].skills.value[k];
    assert "" in SkillTokens(s);
    SkillPoolMembers(members.value, "");
    forall i | 0 <= i < |c.skills| ensures SkillCovered(pool, c.skills[i]) {
      ContainsSelf(Lower(c.skills[i].category));
    }
    AllSkillsCovered(pool, c.skills);
  }
}
