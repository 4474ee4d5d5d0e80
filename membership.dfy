/** Which teams exist and which resources are members of a team on a given day
    (Program.cs: the `teams` array and the `members` query). */
module Membership {
  import opened Ledger
  import opened Dates

  /** `teams`: every team key of every resource, in enumeration order; repeats are kept. */
  function Teams(ledger: seq<Resource>): (teams: seq<string>)
    ensures forall t :: t in teams <==>
              exists i, j :: 0 <= i < |ledger| && 0 <= j < |ledger[i].assignments| &&
                             ledger[i].assignments[j].team == t
  {
    if ledger == [] then []
    else
      var init := ledger[..|ledger| - 1];
      var last := ledger[|ledger| - 1];
      assert forall i :: 0 <= i < |init| ==> init[i] == ledger[i];
      Teams(init) + TeamKeys(last.assignments)
  }

  function TeamKeys(assignments: seq<TeamAssignment>): (keys: seq<string>)
    ensures |keys| == |assignments|
    ensures forall j :: 0 <= j < |keys| ==> keys[j] == assignments[j].team
  {
    seq(|assignments|, j requires 0 <= j < |assignments| => assignments[j].team)
  }

  predicate ActiveOn(a: Assignment, day: int)
  {
    a.start <= day <= a.end
  }

  /** The resource has an assignment to the team whose window contains the day. */
  ghost predicate OnTeam(r: Resource, team: string, day: int)
  {
    exists j :: 0 <= j < |r.assignments| && r.assignments[j].team == team &&
                ActiveOn(r.assignments[j].assignment, day)
  }

  /** `from date in days where date == today select name`. */
  function DayHits(name: string, days: seq<int>, today: int): (hits: seq<string>)
    ensures forall x :: x in hits ==> x == name && today in days
  {
    if days == [] then []
    else DayHits(name, days[..|days| - 1], today) + (if days[|days| - 1] == today then [name] else [])
  }

  /** One resource's contribution to `members`: its name once per day of each assignment to the
      team that equals today. */
  function AssignmentHits(name: string, assignments: seq<TeamAssignment>, team: string, today: int)
    : (hits: seq<string>)
    requires forall j :: 0 <= j < |assignments| ==>
               assignments[j].assignment.start <= assignments[j].assignment.end + 1
    ensures forall x :: x in hits ==>
              (x == name &&
               exists j :: 0 <= j < |assignments| && assignments[j].team == team &&
                           ActiveOn(assignments[j].assignment, today))
  {
    if assignments == [] then []
    else
      var init := assignments[..|assignments| - 1];
      var a := assignments[|assignments| - 1].assignment;
      var own := if assignments[|assignments| - 1].team == team
                 then DayHits(name, DateRange(a.start, a.end), today) else [];
      assert forall x :: x in own ==> x == name && ActiveOn(a, today) by {
        InDateRange(a.start, a.end, today);
      }
      AssignmentHits(name, init, team, today) + own
  }

  /** `members`: the resources, in enumeration order, one entry per assignment day equal to
      today on an assignment to the team. */
  function Members(ledger: seq<Resource>, team: string, today: int): (members: seq<string>)
    requires WindowsValid(ledger)
  {
    if ledger == [] then []
    else
      var init := ledger[..|ledger| - 1];
      var last := ledger[|ledger| - 1];
      assert forall i :: 0 <= i < |init| ==> init[i] == ledger[i];
      Members(init, team, today) + AssignmentHits(last.name, last.assignments, team, today)
  }

  /** Everyone `members` lists is a resource whose assignment to the team contains the day. */
  lemma {:induction false} MembersAreOnTeam(ledger: seq<Resource>, team: string, today: int)
    requires WindowsValid(ledger)
    ensures forall x :: x in Members(ledger, team, today) ==>
              exists i :: 0 <= i < |ledger| && ledger[i].name == x && OnTeam(ledger[i], team, today)
  {
    if ledger != [] {
      var n := |ledger|;
      var init := ledger[..n - 1];
      assert forall i :: 0 <= i < |init| ==> init[i] == ledger[i];
      MembersAreOnTeam(init, team, today);
      assert ledger[n - 1] == Resource(ledger[n - 1].name, ledger[n - 1].assignments);
    }
  }

  /** Reference definition: the names of the resources on the team that day, in order. */
  ghost function ActiveResources(ledger: seq<Resource>, team: string, day: int): seq<string>
  {
    if ledger == [] then []
    else
      var last := ledger[|ledger| - 1];
      ActiveResources(ledger[..|ledger| - 1], team, day) + (if OnTeam(last, team, day) then [last.name] else [])
  }

  lemma {:induction false} DayHitsInRange(name: string, start: int, end: int, today: int)
    requires start <= end + 1
    ensures DayHits(name, DateRange(start, end), today) == if start <= today <= end then [name] else []
    decreases end - start + 1
  {
    if start <= end {
      var days := DateRange(start, end);
      var init := days[..|days| - 1];
      assert init == DateRange(start, end - 1);
      DayHitsInRange(name, start, end - 1, today);
    }
  }

  lemma {:induction false} AssignmentHitsOnce(name: string, assignments: seq<TeamAssignment>, team: string,
                                              today: int)
    requires forall j :: 0 <= j < |assignments| ==>
               assignments[j].assignment.start <= assignments[j].assignment.end + 1
    requires DistinctTeams(assignments)
    ensures AssignmentHits(name, assignments, team, today) ==
            if OnTeam(Resource(name, assignments), team, today) then [name] else []
  {
    if assignments != [] {
      var n := |assignments|;
      var last := assignments[n - 1];
      SplitLastAssignment(name, assignments, team, today);
      AssignmentHitsOnce(name, assignments[..n - 1], team, today);
      DayHitsInRange(name, last.assignment.start, last.assignment.end, today);
    }
  }

  /** A resource is on the team through its earlier assignments or through its last one, and
      with distinct team keys not through both. */
  lemma SplitLastAssignment(name: string, assignments: seq<TeamAssignment>, team: string, today: int)
    requires assignments != []
    requires DistinctTeams(assignments)
    ensures var n := |assignments|;
            var init := assignments[..n - 1];
            var last := assignments[n - 1];
            DistinctTeams(init) &&
            (OnTeam(Resource(name, assignments), team, today) <==>
             OnTeam(Resource(name, init), team, today) || (last.team == team && ActiveOn(last.assignment, today))) &&
            (last.team == team ==> !OnTeam(Resource(name, init), team, today))
  {
    var n := |assignments|;
    var init := assignments[..n - 1];
    assert forall j :: 0 <= j < n - 1 ==> init[j] == assignments[j];
  }

  /** The `members` query is the ordered list of the resources whose assignment to the team
      contains the day, each once; it has no duplicates. */
  lemma MembersAreActiveResources(ledger: seq<Resource>, team: string, day: int)
    requires WindowsValid(ledger)
    requires DistinctKeys(ledger)
    ensures Members(ledger, team, day) == ActiveResources(ledger, team, day)
    ensures forall x :: x in Members(ledger, team, day) <==>
              exists i :: 0 <= i < |ledger| && ledger[i].name == x && OnTeam(ledger[i], team, day)
    ensures NoDuplicates(Members(ledger, team, day))
  {
    MembersMatchReference(ledger, team, day);
    ActiveResourcesExactly(ledger, team, day);
    ActiveResourcesUnique(ledger, team, day);
  }

  lemma {:induction false} MembersMatchReference(ledger: seq<Resource>, team: string, day: int)
    requires WindowsValid(ledger)
    requires DistinctKeys(ledger)
    ensures Members(ledger, team, day) == ActiveResources(ledger, team, day)
  {
    if ledger != [] {
      SplitLastResource(ledger);
      MembersMatchReference(ledger[..|ledger| - 1], team, day);
      MembersLastStep(ledger, team, day);
    }
  }

  lemma {:induction false} ActiveResourcesExactly(ledger: seq<Resource>, team: string, day: int)
    ensures forall x :: x in ActiveResources(ledger, team, day) <==>
              exists i :: 0 <= i < |ledger| && ledger[i].name == x && OnTeam(ledger[i], team, day)
  {
    if ledger != [] {
      var n := |ledger|;
      var init := ledger[..n - 1];
      ActiveResourcesExactly(init, team, day);
      assert forall i :: 0 <= i < n - 1 ==> init[i] == ledger[i];
      forall x | exists i :: 0 <= i < n && ledger[i].name == x && OnTeam(ledger[i], team, day)
        ensures x in ActiveResources(ledger, team, day)
      {
        var i :| 0 <= i < n && ledger[i].name == x && OnTeam(ledger[i], team, day);
        if i < n - 1 {
          assert init[i] == ledger[i];
        }
      }
    }
  }

  lemma {:induction false} ActiveResourcesUnique(ledger: seq<Resource>, team: string, day: int)
    requires forall i, j :: 0 <= i < j < |ledger| ==> ledger[i].name != ledger[j].name
    ensures NoDuplicates(ActiveResources(ledger, team, day))
  {
    if ledger != [] {
      var n := |ledger|;
      var init := ledger[..n - 1];
      var last := ledger[n - 1];
      assert forall i :: 0 <= i < n - 1 ==> init[i] == ledger[i];
      ActiveResourcesUnique(init, team, day);
      ActiveResourcesExactly(init, team, day);
      if OnTeam(last, team, day) {
        NoDuplicatesAppend(ActiveResources(init, team, day), [last.name]);
      }
    }
  }

  /** The earlier resources keep the ledger's well-formedness, and the last one's name is new. */
  lemma SplitLastResource(ledger: seq<Resource>)
    requires ledger != []
    requires WindowsValid(ledger) && DistinctKeys(ledger)
    ensures var n := |ledger|;
            var init := ledger[..n - 1];
            WindowsValid(init) && DistinctKeys(init) && DistinctTeams(ledger[n - 1].assignments) &&
            forall i :: 0 <= i < n - 1 ==> init[i] == ledger[i] && init[i].name != ledger[n - 1].name
  {
  }

  /** `members` over the ledger is `members` over the earlier resources, then the last resource
      once if it is on the team that day. */
  lemma MembersLastStep(ledger: seq<Resource>, team: string, day: int)
    requires ledger != [] && WindowsValid(ledger)
    requires DistinctTeams(ledger[|ledger| - 1].assignments)
    ensures var n := |ledger|;
            var last := ledger[n - 1];
            Members(ledger, team, day) ==
            Members(ledger[..n - 1], team, day) + (if OnTeam(last, team, day) then [last.name] else [])
  {
    var last := ledger[|ledger| - 1];
    assert last == Resource(last.name, last.assignments);
    AssignmentHitsOnce(last.name, last.assignments, team, day);
  }
}
