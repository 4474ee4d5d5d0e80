/** The input ledger (Data.cs): resource -> team -> assignment, with revenue keyed by date.
    Dates are whole day numbers and money is an integer. Dictionaries become sequences of
    entries so that their enumeration order, which the report depends on, is explicit. */
module Ledger {

  datatype Option<T> = None | Some(value: T)

  /** One entry of an assignment's revenue map: a date and the amounts booked on it, in order. */
  datatype LeadGroup = LeadGroup(date: int, amounts: seq<int>)

  /** AssignmentData: the inclusive active window of a resource on a team and its revenue. */
  datatype Assignment = Assignment(start: int, end: int, leads: seq<LeadGroup>)

  /** One entry of a resource's dictionary: team name and the assignment to it. */
  datatype TeamAssignment = TeamAssignment(team: string, assignment: Assignment)

  /** One entry of the resources dictionary: resource name and its assignments. */
  datatype Resource = Resource(name: string, assignments: seq<TeamAssignment>)

  /** Dictionary keys are unique: resource names, the team keys of one resource,
      and the date keys of one assignment's revenue map. */
  ghost predicate DistinctKeys(ledger: seq<Resource>)
  {
    (forall i, j :: 0 <= i < j < |ledger| ==> ledger[i].name != ledger[j].name) &&
    (forall i :: 0 <= i < |ledger| ==> DistinctTeams(ledger[i].assignments)) &&
    (forall i, j :: 0 <= i < |ledger| && 0 <= j < |ledger[i].assignments| ==>
       DistinctDates(ledger[i].assignments[j].assignment.leads))
  }

  ghost predicate DistinctTeams(assignments: seq<TeamAssignment>)
  {
    forall j, k :: 0 <= j < k < |assignments| ==> assignments[j].team != assignments[k].team
  }

  ghost predicate DistinctDates(groups: seq<LeadGroup>)
  {
    forall j, k :: 0 <= j < k < |groups| ==> groups[j].date != groups[k].date
  }

  /** Every assignment window spans at least zero days, so that enumerating its days does not
      fail (a range of negative length throws in the source). */
  predicate WindowsValid(ledger: seq<Resource>)
  {
    forall i, j :: 0 <= i < |ledger| && 0 <= j < |ledger[i].assignments| ==>
      ledger[i].assignments[j].assignment.start <= ledger[i].assignments[j].assignment.end + 1
  }

  /** No element occurs twice. */
  ghost predicate NoDuplicates<T>(s: seq<T>)
  {
    forall i, j :: 0 <= i < j < |s| ==> s[i] != s[j]
  }

  lemma NoDuplicatesAppend<T>(a: seq<T>, b: seq<T>)
    requires NoDuplicates(a) && NoDuplicates(b)
    requires forall x :: x in a ==> x !in b
    ensures NoDuplicates(a + b)
  {
    forall i, j | 0 <= i < j < |a + b|
      ensures (a + b)[i] != (a + b)[j]
    {
      if i < |a| && j >= |a| {
        assert (a + b)[i] in a && (a + b)[j] == b[j - |a|];
      }
    }
  }
}
