/** The flattened list of leads for the period (Program.cs, the `leads` query):
    resource -> team -> date -> amount, one lead per amount. */
module Flattening {
  import opened Ledger
  import opened Pools

  /** The assignment filter as written: the assignment starts on or after the period's start or
      ends on or before its end. It keeps assignments lying wholly after the period and drops
      those that strictly contain it. */
  predicate Admitted(a: Assignment, start: int, end: int)
  {
    a.start >= start || a.end <= end
  }

  /** The lead comes from one amount of this date entry, which lies in the period. */
  predicate FromGroup(l: Lead, team: string, resource: string, g: LeadGroup, start: int, end: int)
  {
    start <= g.date <= end && l.teamName == team && l.resourceName == resource && l.date == g.date &&
    l.revenue in g.amounts
  }

  ghost predicate FromAssignment(l: Lead, resource: string, ta: TeamAssignment, start: int, end: int)
  {
    Admitted(ta.assignment, start, end) &&
    exists k :: 0 <= k < |ta.assignment.leads| && FromGroup(l, ta.team, resource, ta.assignment.leads[k], start, end)
  }

  ghost predicate FromResource(l: Lead, r: Resource, start: int, end: int)
  {
    exists j :: 0 <= j < |r.assignments| && FromAssignment(l, r.name, r.assignments[j], start, end)
  }

  /** `from amount in sales.Value select new Lead { ... }`. */
  function AmountLeads(team: string, resource: string, date: int, amounts: seq<int>): (leads: seq<Lead>)
    ensures |leads| == |amounts|
    ensures forall m :: 0 <= m < |leads| ==> leads[m] == Lead(team, resource, date, amounts[m])
  {
    seq(|amounts|, m requires 0 <= m < |amounts| => Lead(team, resource, date, amounts[m]))
  }

  /** The leads of some date entries of one assignment, keeping the dates in the period. */
  function GroupLeads(team: string, resource: string, groups: seq<LeadGroup>, start: int, end: int)
    : (leads: seq<Lead>)
    ensures forall l :: l in leads <==>
              exists k :: 0 <= k < |groups| && FromGroup(l, team, resource, groups[k], start, end)
  {
    if groups == [] then []
    else
      var n := |groups|;
      var g := groups[n - 1];
      var own := if start <= g.date <= end then AmountLeads(team, resource, g.date, g.amounts) else [];
      assert forall l :: l in own <==> FromGroup(l, team, resource, g, start, end) by {
        forall l | FromGroup(l, team, resource, g, start, end) ensures l in own {
          var m :| 0 <= m < |g.amounts| && g.amounts[m] == l.revenue;
          assert own[m] == l;
        }
      }
      assert forall k :: 0 <= k < n - 1 ==> groups[..n - 1][k] == groups[k];
      GroupLeads(team, resource, groups[..n - 1], start, end) + own
  }

  /** The leads of some assignments of one resource, keeping the admitted assignments. */
  function AssignmentLeads(resource: string, assignments: seq<TeamAssignment>, start: int, end: int)
    : (leads: seq<Lead>)
    ensures forall l :: l in leads <==>
              exists j :: 0 <= j < |assignments| && FromAssignment(l, resource, assignments[j], start, end)
  {
    if assignments == [] then []
    else
      var n := |assignments|;
      var ta := assignments[n - 1];
      assert forall j :: 0 <= j < n - 1 ==> assignments[..n - 1][j] == assignments[j];
      AssignmentLeads(resource, assignments[..n - 1], start, end) +
      (if Admitted(ta.assignment, start, end) then GroupLeads(ta.team, resource, ta.assignment.leads, start, end)
       else [])
  }

  /** `leads`: every lead of the ledger for the period, in resource, team, date and amount order.
      Each lies in the period and comes from an admitted assignment. */
  function Flatten(ledger: seq<Resource>, start: int, end: int): (leads: seq<Lead>)
    ensures forall l :: l in leads <==> exists i :: 0 <= i < |ledger| && FromResource(l, ledger[i], start, end)
    ensures forall l :: l in leads ==> start <= l.date <= end
  {
    if ledger == [] then []
    else
      var n := |ledger|;
      var r := ledger[n - 1];
      assert forall i :: 0 <= i < n - 1 ==> ledger[..n - 1][i] == ledger[i];
      Flatten(ledger[..n - 1], start, end) + AssignmentLeads(r.name, r.assignments, start, end)
  }

  /** Reference count: the number of amounts on the date entries that lie in the period. */
  function InPeriodAmounts(groups: seq<LeadGroup>, start: int, end: int): nat
  {
    if groups == [] then 0
    else
      var g := groups[|groups| - 1];
      InPeriodAmounts(groups[..|groups| - 1], start, end) + (if start <= g.date <= end then |g.amounts| else 0)
  }

  /** Reference count over the admitted assignments of one resource. */
  function AdmittedAmounts(assignments: seq<TeamAssignment>, start: int, end: int): nat
  {
    if assignments == [] then 0
    else
      var a := assignments[|assignments| - 1].assignment;
      AdmittedAmounts(assignments[..|assignments| - 1], start, end) +
      (if Admitted(a, start, end) then InPeriodAmounts(a.leads, start, end) else 0)
  }

  /** Reference count over the whole ledger. */
  function LedgerAmounts(ledger: seq<Resource>, start: int, end: int): nat
  {
    if ledger == [] then 0
    else LedgerAmounts(ledger[..|ledger| - 1], start, end) + AdmittedAmounts(ledger[|ledger| - 1].assignments, start, end)
  }

  /** Reference total: the sum of some amounts. */
  function AmountSum(amounts: seq<int>): int
  {
    if amounts == [] then 0 else AmountSum(amounts[..|amounts| - 1]) + amounts[|amounts| - 1]
  }

  /** Reference total of the amounts on the date entries that lie in the period. */
  function InPeriodRevenue(groups: seq<LeadGroup>, start: int, end: int): int
  {
    if groups == [] then 0
    else
      var g := groups[|groups| - 1];
      InPeriodRevenue(groups[..|groups| - 1], start, end) + (if start <= g.date <= end then AmountSum(g.amounts) else 0)
  }

  /** Reference total over the admitted assignments of one resource. */
  function AdmittedRevenue(assignments: seq<TeamAssignment>, start: int, end: int): int
  {
    if assignments == [] then 0
    else
      var a := assignments[|assignments| - 1].assignment;
      AdmittedRevenue(assignments[..|assignments| - 1], start, end) +
      (if Admitted(a, start, end) then InPeriodRevenue(a.leads, start, end) else 0)
  }

  /** Reference total over the whole ledger. */
  function LedgerRevenue(ledger: seq<Resource>, start: int, end: int): int
  {
    if ledger == [] then 0
    else LedgerRevenue(ledger[..|ledger| - 1], start, end) + AdmittedRevenue(ledger[|ledger| - 1].assignments, start, end)
  }

  /** The leads of one date entry carry its amounts' total. */
  lemma {:induction false} AmountLeadsRevenue(team: string, resource: string, date: int, amounts: seq<int>)
    ensures RevenueSum(AmountLeads(team, resource, date, amounts)) == AmountSum(amounts)
  {
    if amounts != [] {
      var n := |amounts|;
      AmountLeadsRevenue(team, resource, date, amounts[..n - 1]);
      assert AmountLeads(team, resource, date, amounts)[..n - 1] == AmountLeads(team, resource, date, amounts[..n - 1]);
    }
  }

  /** One lead per in-period amount of the entries, and their revenue is the amounts' total. */
  lemma {:induction false} GroupLeadsTotals(team: string, resource: string, groups: seq<LeadGroup>, start: int, end: int)
    ensures |GroupLeads(team, resource, groups, start, end)| == InPeriodAmounts(groups, start, end)
    ensures RevenueSum(GroupLeads(team, resource, groups, start, end)) == InPeriodRevenue(groups, start, end)
  {
    if groups != [] {
      var n := |groups|;
      var g := groups[n - 1];
      GroupLeadsTotals(team, resource, groups[..n - 1], start, end);
      var own := if start <= g.date <= end then AmountLeads(team, resource, g.date, g.amounts) else [];
      AmountLeadsRevenue(team, resource, g.date, g.amounts);
      RevenueSumAppend(GroupLeads(team, resource, groups[..n - 1], start, end), own);
    }
  }

  /** One lead per in-period amount of the admitted assignments, with their total revenue. */
  lemma {:induction false} AssignmentLeadsTotals(resource: string, assignments: seq<TeamAssignment>, start: int, end: int)
    ensures |AssignmentLeads(resource, assignments, start, end)| == AdmittedAmounts(assignments, start, end)
    ensures RevenueSum(AssignmentLeads(resource, assignments, start, end)) == AdmittedRevenue(assignments, start, end)
  {
    if assignments != [] {
      var n := |assignments|;
      var ta := assignments[n - 1];
      AssignmentLeadsTotals(resource, assignments[..n - 1], start, end);
      GroupLeadsTotals(ta.team, resource, ta.assignment.leads, start, end);
      var own := if Admitted(ta.assignment, start, end) then GroupLeads(ta.team, resource, ta.assignment.leads, start, end)
                 else [];
      RevenueSumAppend(AssignmentLeads(resource, assignments[..n - 1], start, end), own);
    }
  }

  /** Nothing is lost or duplicated: the flattened list has exactly one lead per in-period amount
      of every admitted assignment, and its revenue is the total of those amounts. */
  lemma {:induction false} FlattenTotals(ledger: seq<Resource>, start: int, end: int)
    ensures |Flatten(ledger, start, end)| == LedgerAmounts(ledger, start, end)
    ensures RevenueSum(Flatten(ledger, start, end)) == LedgerRevenue(ledger, start, end)
  {
    if ledger != [] {
      var n := |ledger|;
      var r := ledger[n - 1];
      FlattenTotals(ledger[..n - 1], start, end);
      AssignmentLeadsTotals(r.name, r.assignments, start, end);
      RevenueSumAppend(Flatten(ledger[..n - 1], start, end), AssignmentLeads(r.name, r.assignments, start, end));
    }
  }

  /** Reference multiplicity: how often the lead's amount appears on a date entry that lies in
      the period and matches the lead's team, resource and date. */
  function EntryOccurrences(l: Lead, team: string, resource: string, g: LeadGroup, start: int, end: int): nat
  {
    if start <= g.date <= end && l.teamName == team && l.resourceName == resource && l.date == g.date
    then multiset(g.amounts)[l.revenue]
    else 0
  }

  function GroupOccurrences(l: Lead, team: string, resource: string, groups: seq<LeadGroup>, start: int, end: int): nat
  {
    if groups == [] then 0
    else
      GroupOccurrences(l, team, resource, groups[..|groups| - 1], start, end) +
      EntryOccurrences(l, team, resource, groups[|groups| - 1], start, end)
  }

  function AssignmentOccurrences(l: Lead, resource: string, assignments: seq<TeamAssignment>, start: int, end: int): nat
  {
    if assignments == [] then 0
    else
      var ta := assignments[|assignments| - 1];
      AssignmentOccurrences(l, resource, assignments[..|assignments| - 1], start, end) +
      (if Admitted(ta.assignment, start, end) then GroupOccurrences(l, ta.team, resource, ta.assignment.leads, start, end)
       else 0)
  }

  function LedgerOccurrences(l: Lead, ledger: seq<Resource>, start: int, end: int): nat
  {
    if ledger == [] then 0
    else
      var r := ledger[|ledger| - 1];
      LedgerOccurrences(l, ledger[..|ledger| - 1], start, end) + AssignmentOccurrences(l, r.name, r.assignments, start, end)
  }

  /** A date entry's leads hold a lead as often as its amounts hold the lead's revenue. */
  lemma {:induction false} AmountLeadsOccurrences(l: Lead, team: string, resource: string, date: int, amounts: seq<int>)
    ensures multiset(AmountLeads(team, resource, date, amounts))[l] ==
            if l.teamName == team && l.resourceName == resource && l.date == date then multiset(amounts)[l.revenue] else 0
  {
    if amounts != [] {
      var n := |amounts|;
      AmountLeadsOccurrences(l, team, resource, date, amounts[..n - 1]);
      assert AmountLeads(team, resource, date, amounts) ==
             AmountLeads(team, resource, date, amounts[..n - 1]) + [Lead(team, resource, date, amounts[n - 1])];
      assert amounts == amounts[..n - 1] + [amounts[n - 1]];
    }
  }

  /** Each in-period amount of the date entries yields exactly one lead. */
  lemma {:induction false} GroupLeadsOccurrences(l: Lead, team: string, resource: string, groups: seq<LeadGroup>,
                                                 start: int, end: int)
    ensures multiset(GroupLeads(team, resource, groups, start, end))[l] == GroupOccurrences(l, team, resource, groups, start, end)
  {
    if groups != [] {
      var n := |groups|;
      var g := groups[n - 1];
      GroupLeadsOccurrences(l, team, resource, groups[..n - 1], start, end);
      AmountLeadsOccurrences(l, team, resource, g.date, g.amounts);
    }
  }

  /** Each in-period amount of the admitted assignments yields exactly one lead. */
  lemma {:induction false} AssignmentLeadsOccurrences(l: Lead, resource: string, assignments: seq<TeamAssignment>,
                                                      start: int, end: int)
    ensures multiset(AssignmentLeads(resource, assignments, start, end))[l] ==
            AssignmentOccurrences(l, resource, assignments, start, end)
  {
    if assignments != [] {
      var n := |assignments|;
      var ta := assignments[n - 1];
      AssignmentLeadsOccurrences(l, resource, assignments[..n - 1], start, end);
      GroupLeadsOccurrences(l, ta.team, resource, ta.assignment.leads, start, end);
    }
  }

  /** Nothing is lost or duplicated: every lead occurs in the flattened list exactly as often as
      its amount occurs on the in-period date entries of the admitted assignments of its
      resource and team. */
  lemma {:induction false} FlattenOccurrences(l: Lead, ledger: seq<Resource>, start: int, end: int)
    ensures multiset(Flatten(ledger, start, end))[l] == LedgerOccurrences(l, ledger, start, end)
  {
    if ledger != [] {
      var n := |ledger|;
      var r := ledger[n - 1];
      FlattenOccurrences(l, ledger[..n - 1], start, end);
      AssignmentLeadsOccurrences(l, r.name, r.assignments, start, end);
    }
  }

  /** The filter's quirk: a resource whose assignment to a team starts before the period and
      ends after it contributes no lead for that team, even for amounts dated inside the period. */
  lemma FlattenDropsEnclosingAssignment(ledger: seq<Resource>, start: int, end: int, i: nat, j: nat)
    requires DistinctKeys(ledger)
    requires i < |ledger| && j < |ledger[i].assignments|
    requires ledger[i].assignments[j].assignment.start < start
    requires ledger[i].assignments[j].assignment.end > end
    ensures forall l :: l in Flatten(ledger, start, end) ==>
              l.resourceName != ledger[i].name || l.teamName != ledger[i].assignments[j].team
  {
    forall l | l in Flatten(ledger, start, end) && l.resourceName == ledger[i].name
      ensures l.teamName != ledger[i].assignments[j].team
    {
      var i' :| 0 <= i' < |ledger| && FromResource(l, ledger[i'], start, end);
      var j' :| 0 <= j' < |ledger[i'].assignments| && FromAssignment(l, ledger[i'].name, ledger[i'].assignments[j'], start, end);
      var k :| 0 <= k < |ledger[i'].assignments[j'].assignment.leads| &&
               FromGroup(l, ledger[i'].assignments[j'].team, ledger[i'].name,
                         ledger[i'].assignments[j'].assignment.leads[k], start, end);
      assert i' == i;
      assert DistinctTeams(ledger[i].assignments);
      assert j' != j;
    }
  }
}
