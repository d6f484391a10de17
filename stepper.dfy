/**
 * The three-step team-builder wizard: pick a team and a leader, pick the
 * members, review and save. The wizard's state is a class whose handlers
 * update its fields; saving yields the `team_members` rows it writes.
 */
module Stepper {
  import opened Wrappers
  import opened Records

  /** The number of wizard steps; steps are numbered 0 to StepCount - 1. */
  const StepCount := 3

  /**
   * The step `handleNext` moves to: it stays put on the first step without
   * a team or a leader and on the second step without a member, and
   * otherwise advances, never past the last step.
   */
  function NextStep(step: int, hasTeam: bool, hasLeader: bool, memberCount: nat): int {
    if step == 0 && (!hasTeam || !hasLeader) then step
    else if step == 1 && memberCount == 0 then step
    else if step + 1 < StepCount - 1 then step + 1 else StepCount - 1
  }

  /** The step `handleBack` moves to: one back, never before the first. */
  function PrevStep(step: int): int {
    if step - 1 > 0 then step - 1 else 0
  }

  /** Both moves keep the step in range. */
  lemma StepsStayInRange(step: int, hasTeam: bool, hasLeader: bool, memberCount: nat)
    requires 0 <= step < StepCount
    ensures 0 <= NextStep(step, hasTeam, hasLeader, memberCount) < StepCount
    ensures 0 <= PrevStep(step) < StepCount
  {
  }

  /**
   * `handleNext` moves at most one step forward; it moves exactly when the
   * guard of the current step is met and the step is not the last, and going
   * back afterwards returns to where it was.
   */
  lemma NextThenBack(step: int, hasTeam: bool, hasLeader: bool, memberCount: nat)
    requires 0 <= step < StepCount
    ensures var next := NextStep(step, hasTeam, hasLeader, memberCount);
      && step <= next <= step + 1
      && (next == step + 1 <==>
            step < StepCount - 1 && (step == 0 ==> hasTeam && hasLeader) && (step == 1 ==> memberCount > 0))
      && (next == step + 1 ==> PrevStep(next) == step)
  {
  }

  /** A `team_members` row as `saveTeam` upserts it. */
  datatype Row = Row(teamId: int, employeeId: int, isLeader: bool, matchingPercentage: int)

  /** The member rows, in member order; a falsy percentage becomes 85. */
  function MemberRows(teamId: int, members: seq<Member>): (rows: seq<Row>)
    ensures |rows| == |members|
  {
    if |members| == 0 then []
    else
      var m := members[|members| - 1];
      MemberRows(teamId, members[..|members| - 1])
        + [Row(teamId, m.employee.id, false, OrDefault(m.matchingPercentage, 85))]
  }

  /**
   * The rows `saveTeam` writes: nothing without a team, a leader and at
   * least one member; otherwise the leader row, then the member rows.
   */
  function SaveRows(team: Option<Team>, leader: Option<Employee>, members: seq<Member>): Option<seq<Row>> {
    if team.None? || leader.None? || |members| == 0 then None
    else Some([Row(team.value.id, leader.value.id, true, 100)] + MemberRows(team.value.id, members))
  }

  lemma {:induction false} MemberRowsAt(teamId: int, members: seq<Member>, i: nat)
    requires i < |members|
    ensures MemberRows(teamId, members)[i]
         == Row(teamId, members[i].employee.id, false, OrDefault(members[i].matchingPercentage, 85))
  {
    if i < |members| - 1 {
      MemberRowsAt(teamId, members[..|members| - 1], i);
    }
  }

  /**
   * Saving writes only when the guard holds; then the first row makes the
   * leader a leader at 100%, and row i + 1 is member i, not a leader, at its
   * own percentage or 85 when that is missing or 0. Every row names the team.
   */
  lemma SaveRowsFacts(team: Option<Team>, leader: Option<Employee>, members: seq<Member>)
    ensures SaveRows(team, leader, members).Some? <==> team.Some? && leader.Some? && |members| > 0
    ensures SaveRows(team, leader, members).Some? ==>
      var rows := SaveRows(team, leader, members).value;
      && |rows| == |members| + 1
      && rows[0] == Row(team.value.id, leader.value.id, true, 100)
      && (forall i :: 0 <= i < |members| ==>
            rows[i + 1] == Row(team.value.id, members[i].employee.id, false,
                               OrDefault(members[i].matchingPercentage, 85)))
      && (forall i :: 0 <= i < |rows| ==> rows[i].teamId == team.value.id)
      && (forall i :: 0 < i < |rows| ==> !rows[i].isLeader)
  {
    if team.Some? && leader.Some? && |members| > 0 {
      var rows := SaveRows(team, leader, members).value;
      forall i | 0 <= i < |members|
        ensures rows[i + 1] == Row(team.value.id, members[i].employee.id, false,
                                   OrDefault(members[i].matchingPercentage, 85))
      {
        MemberRowsAt(team.value.id, members, i);
      }
      forall i | 0 < i < |rows|
        ensures rows[i].teamId == team.value.id && !rows[i].isLeader
      {
        MemberRowsAt(team.value.id, members, i - 1);
        assert rows[i] == MemberRows(team.value.id, members)[i - 1];
      }
    }
  }

  /** The wizard's state. */
  class TeamBuilder {
    var currentStep: int
    var selectedTeam: Option<Team>
    var selectedLeader: Option<Employee>
    var selectedMembers: seq<Member>

    ghost predicate Valid()
      reads this
    {
      0 <= currentStep < StepCount
    }

    /** The wizard opens on the first step with nothing selected. */
    constructor()
      ensures Valid()
      ensures currentStep == 0 && selectedTeam == None && selectedLeader == None && selectedMembers == []
    {
      currentStep := 0;
      selectedTeam := None;
      selectedLeader := None;
      selectedMembers := [];
    }

    method HandleNext()
      requires Valid()
      modifies this
      ensures Valid()
      ensures currentStep
           == NextStep(old(currentStep), old(selectedTeam).Some?, old(selectedLeader).Some?, |old(selectedMembers)|)
      ensures selectedTeam == old(selectedTeam) && selectedLeader == old(selectedLeader)
      ensures selectedMembers == old(selectedMembers)
    {
      if currentStep == 0 && (selectedTeam.None? || selectedLeader.None?) {
        return;
      }
      if currentStep == 1 && |selectedMembers| == 0 {
        return;
      }
      currentStep := if currentStep + 1 < StepCount - 1 then currentStep + 1 else StepCount - 1;
    }

    method HandleBack()
      requires Valid()
      modifies this
      ensures Valid()
      ensures currentStep == PrevStep(old(currentStep))
      ensures selectedTeam == old(selectedTeam) && selectedLeader == old(selectedLeader)
      ensures selectedMembers == old(selectedMembers)
    {
      currentStep := if currentStep - 1 > 0 then currentStep - 1 else 0;
    }

    method SelectTeam(team: Team)
      requires Valid()
      modifies this
      ensures Valid()
      ensures selectedTeam == Some(team)
      ensures currentStep == old(currentStep) && selectedLeader == old(selectedLeader)
      ensures selectedMembers == old(selectedMembers)
    {
      selectedTeam := Some(team);
    }

    method SelectLeader(leader: Employee)
      requires Valid()
      modifies this
      ensures Valid()
      ensures selectedLeader == Some(leader)
      ensures currentStep == old(currentStep) && selectedTeam == old(selectedTeam)
      ensures selectedMembers == old(selectedMembers)
    {
      selectedLeader := Some(leader);
    }

    method SelectMembers(members: seq<Member>)
      requires Valid()
      modifies this
      ensures Valid()
      ensures selectedMembers == members
      ensures currentStep == old(currentStep) && selectedTeam == old(selectedTeam)
      ensures selectedLeader == old(selectedLeader)
    {
      selectedMembers := members;
    }

    /** `saveTeam`: the rows written, or None when the guard stops it. */
    method SaveTeam() returns (written: Option<seq<Row>>)
      ensures written == SaveRows(selectedTeam, selectedLeader, selectedMembers)
    {
      if selectedTeam.None? || selectedLeader.None? || |selectedMembers| == 0 {
        return None;
      }
      var teamId := selectedTeam.value.id;
      var rows := [Row(teamId, selectedLeader.value.id, true, 100)];
      for i := 0 to |selectedMembers|
        invariant rows == [Row(teamId, selectedLeader.value.id, true, 100)] + MemberRows(teamId, selectedMembers[..i])
      {
        var member := selectedMembers[i];
        assert selectedMembers[..i + 1][..i] == selectedMembers[..i];
        rows := rows + [Row(teamId, member.employee.id, false, OrDefault(member.matchingPercentage, 85))];
      }
      assert selectedMembers[..|selectedMembers|] == selectedMembers;
      written := Some(rows);
    }
  }
}
