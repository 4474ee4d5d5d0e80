/** The sanity check (Program.cs): a warning for every revenue date key that lies outside the
    window of the assignment it is booked under. It only reports; nothing is changed. */
module SanityCheck {
  import opened Ledger

  /** A warning names the resource, the team and the offending date. */
  datatype Warning = Warning(resource: string, team: string, date: int)

  predicate OutOfWindow(a: Assignment, date: int)
  {
    date < a.start || date > a.end
  }

  /** The warnings for some date keys of one assignment, in map order. */
  function GroupWarnings(resource: string, team: string, a: Assignment, groups: seq<LeadGroup>)
    : (warnings: seq<Warning>)
    ensures forall w :: w in warnings <==>
              exists k :: 0 <= k < |groups| && OutOfWindow(a, groups[k].date) &&
                          w == Warning(resource, team, groups[k].date)
  {
    if groups == [] then []
    else
      var n := |groups|;
      var g := groups[n - 1];
      assert forall k :: 0 <= k < n - 1 ==> groups[..n - 1][k] == groups[k];
      GroupWarnings(resource, team, a, groups[..n - 1]) +
      (if OutOfWindow(a, g.date) then [Warning(resource, team, g.date)] else [])
  }

  /** The warnings for some assignments of one resource, in map order. */
  function AssignmentWarnings(resource: string, assignments: seq<TeamAssignment>): (warnings: seq<Warning>)
    ensures forall w :: w in warnings <==>
              exists j :: 0 <= j < |assignments| &&
                          w in GroupWarnings(resource, assignments[j].team, assignments[j].assignment,
                                             assignments[j].assignment.leads)
  {
    if assignments == [] then []
    else
      var n := |assignments|;
      var ta := assignments[n - 1];
      assert forall j :: 0 <= j < n - 1 ==> assignments[..n - 1][j] == assignments[j];
      AssignmentWarnings(resource, assignments[..n - 1]) +
      GroupWarnings(resource, ta.team, ta.assignment, ta.assignment.leads)
  }

  /** The warnings for some resources, in map order. */
  function Warnings(ledger: seq<Resource>): (warnings: seq<Warning>)
    ensures forall w :: w in warnings <==>
              exists i :: 0 <= i < |ledger| && w in AssignmentWarnings(ledger[i].name, ledger[i].assignments)
  {
    if ledger == [] then []
    else
      var n := |ledger|;
      assert forall i :: 0 <= i < n - 1 ==> ledger[..n - 1][i] == ledger[i];
      Warnings(ledger[..n - 1]) + AssignmentWarnings(ledger[n - 1].name, ledger[n - 1].assignments)
  }

  /** The nested loops of the check, collecting the warnings in the order they are emitted. */
  method CheckLedger(ledger: seq<Resource>) returns (warnings: seq<Warning>)
    ensures warnings == Warnings(ledger)
  {
    warnings := [];
    var i := 0;
    while i < |ledger|
      invariant 0 <= i <= |ledger|
      invariant warnings == Warnings(ledger[..i])
    {
      var found := CheckResource(ledger[i]);
      warnings := warnings + found;
      assert ledger[..i + 1][..i] == ledger[..i];
      i := i + 1;
    }
    assert ledger[..i] == ledger;
  }

  /** The loop over one resource's assignments. */
  method CheckResource(resource: Resource) returns (found: seq<Warning>)
    ensures found == AssignmentWarnings(resource.name, resource.assignments)
  {
    found := [];
    var j := 0;
    while j < |resource.assignments|
      invariant 0 <= j <= |resource.assignments|
      invariant found == AssignmentWarnings(resource.name, resource.assignments[..j])
    {
      var more := CheckAssignment(resource.name, resource.assignments[j]);
      found := found + more;
      assert resource.assignments[..j + 1][..j] == resource.assignments[..j];
      j := j + 1;
    }
    assert resource.assignments[..j] == resource.assignments;
  }

  /** The loop over the date keys of one assignment. */
  method CheckAssignment(resource: string, assignment: TeamAssignment) returns (found: seq<Warning>)
    ensures found == GroupWarnings(resource, assignment.team, assignment.assignment, assignment.assignment.leads)
  {
    var groups := assignment.assignment.leads;
    found := [];
    var k := 0;
    while k < |groups|
      invariant 0 <= k <= |groups|
      invariant found == GroupWarnings(resource, assignment.team, assignment.assignment, groups[..k])
    {
      var date := groups[k].date;
      if date < assignment.assignment.start || date > assignment.assignment.end {
        found := found + [Warning(resource, assignment.team, date)];
      }
      assert groups[..k + 1][..k] == groups[..k];
      k := k + 1;
    }
    assert groups[..k] == groups;
  }

  /** There is a warning for (resource, team, date) exactly when the resource's assignment to
      the team has that date key and the date lies outside the assignment's window. */
  lemma WarningsExactly(ledger: seq<Resource>, w: Warning)
    ensures w in Warnings(ledger) <==>
            exists i, j, k :: 0 <= i < |ledger| && 0 <= j < |ledger[i].assignments| &&
                              0 <= k < |ledger[i].assignments[j].assignment.leads| &&
                              w.resource == ledger[i].name && w.team == ledger[i].assignments[j].team &&
                              w.date == ledger[i].assignments[j].assignment.leads[k].date &&
                              OutOfWindow(ledger[i].assignments[j].assignment, w.date)
  {
  }

  lemma {:induction false} GroupWarningsUnique(resource: string, team: string, a: Assignment, groups: seq<LeadGroup>)
    requires DistinctDates(groups)
    ensures NoDuplicates(GroupWarnings(resource, team, a, groups))
  {
    if groups != [] {
      var n := |groups|;
      GroupWarningsUnique(resource, team, a, groups[..n - 1]);
      NoDuplicatesAppend(GroupWarnings(resource, team, a, groups[..n - 1]),
                         if OutOfWindow(a, groups[n - 1].date) then [Warning(resource, team, groups[n - 1].date)] else []);
    }
  }

  lemma {:induction false} AssignmentWarningsUnique(resource: string, assignments: seq<TeamAssignment>)
    requires DistinctTeams(assignments)
    requires forall j :: 0 <= j < |assignments| ==> DistinctDates(assignments[j].assignment.leads)
    ensures NoDuplicates(AssignmentWarnings(resource, assignments))
  {
    if assignments != [] {
      var n := |assignments|;
      var ta := assignments[n - 1];
      AssignmentWarningsUnique(resource, assignments[..n - 1]);
      GroupWarningsUnique(resource, ta.team, ta.assignment, ta.assignment.leads);
      forall x | x in AssignmentWarnings(resource, assignments[..n - 1])
        ensures x.team != ta.team
      {
        var j :| 0 <= j < n - 1 && x in GroupWarnings(resource, assignments[j].team, assignments[j].assignment,
                                                       assignments[j].assignment.leads);
      }
      NoDuplicatesAppend(AssignmentWarnings(resource, assignments[..n - 1]),
                         GroupWarnings(resource, ta.team, ta.assignment, ta.assignment.leads));
    }
  }

  /** With unique dictionary keys, each out-of-window date key is reported exactly once. */
  lemma {:induction false} WarningsUnique(ledger: seq<Resource>)
    requires DistinctKeys(ledger)
    ensures NoDuplicates(Warnings(ledger))
  {
    if ledger != [] {
      var n := |ledger|;
      var init := ledger[..n - 1];
      var r := ledger[n - 1];
      assert forall i :: 0 <= i < n - 1 ==> init[i] == ledger[i];
      assert DistinctKeys(init);
      WarningsUnique(init);
      AssignmentWarningsUnique(r.name, r.assignments);
      forall x | x in Warnings(init)
        ensures x.resource != r.name
      {
        var i :| 0 <= i < n - 1 && x in AssignmentWarnings(init[i].name, init[i].assignments);
        var j :| 0 <= j < |init[i].assignments| &&
                 x in GroupWarnings(init[i].name, init[i].assignments[j].team, init[i].assignments[j].assignment,
                                    init[i].assignments[j].assignment.leads);
      }
      NoDuplicatesAppend(Warnings(init), AssignmentWarnings(r.name, r.assignments));
    }
  }
}
